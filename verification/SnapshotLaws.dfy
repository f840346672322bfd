/** What a stored balance means against the displayed one, and the chain that automatic payments form. */
module SnapshotLaws {
  import opened Options
  import opened Calendar
  import opened Ledger
  import LedgerLaws
  import opened Payments
  import opened ReplayLaws
  import DeletionLaws

  /** What has been paid by `d` in the period `d` falls in. */
  function PaidEarlierInPeriod(b: Book, d: Day): int {
    Total(b.payments, (e: Entry) => b.Live(e.date) && CycleIndex(e.date) == CycleIndex(d) && AtOrBefore(e.date, d))
  }

  /** The displayed balance at `d` is the snapshot at `d` less what was paid earlier in the same period. */
  lemma DisplayedFromSnapshot(b: Book, d: Day)
    ensures b.CurrentBalance(d) == BalanceBefore(b, d) + InterestOn(b, d) - PaidEarlierInPeriod(b, d)
  {
    hide CycleAt, CycleIndex, AfterIndex, IsCycleDate, Interest, Before, AtOrBefore, Book.First, Book.Base;
    hide Book.Live, Book.Rows, Book.CurrentBalance;
    var k := CycleIndex(d);
    ClosestCycle(d);
    BalanceSinceLastCycle(b, d);
    if IsCycleDate(d) {
      forall e <- b.payments
        ensures b.Live(e.date) && CycleIndex(e.date) == k && AtOrBefore(e.date, d) <==>
          b.Live(e.date) && CycleIndex(e.date) == k
      {
        IndexAdjoint(e.date, k);
      }
      TotalSame(b.payments,
        (e: Entry) => b.Live(e.date) && CycleIndex(e.date) == k && AtOrBefore(e.date, d),
        (e: Entry) => b.Live(e.date) && CycleIndex(e.date) == k);
      if k < b.First() {
        LedgerLaws.NothingPaidBeforeFirst(b, k);
        LedgerLaws.NothingPaidBeforeFirst(b, k - 1);
        LedgerLaws.PaidThroughStep(b, k);
      }
    }
  }

  /** The displayed balance is the last closing balance, less what was paid since and up to `d`. */
  lemma BalanceSinceLastCycle(b: Book, d: Day)
    ensures b.CurrentBalance(d) ==
      b.Closing(AfterIndex(d) - 1) - (if IsCycleDate(d) then 0 else PaidEarlierInPeriod(b, d))
  {
    hide CycleAt, CycleIndex, AfterIndex, IsCycleDate, Interest, Before, Book.First, Book.Live, Book.Paid;
    var k, m := CycleIndex(d), AfterIndex(d) - 1;
    var rows := b.Rows(d);
    ClosestCycle(d);
    var pending := (e: Entry) => b.Live(e.date) && (rows != [] ==> Before(CycleAt(m), e.date)) && AtOrBefore(e.date, d);
    forall e <- b.payments
      ensures pending(e) <==> b.Live(e.date) && CycleIndex(e.date) == m + 1 && AtOrBefore(e.date, d)
    {
      if b.Live(e.date) && AtOrBefore(e.date, d) {
        SinceLastCycle(b, d, e.date);
      }
    }
    var inPeriod := (e: Entry) => b.Live(e.date) && CycleIndex(e.date) == m + 1 && AtOrBefore(e.date, d);
    TotalSame(b.payments, pending, inPeriod);
    if rows != [] {
      assert rows[|rows| - 1] == b.Row(m);
      TotalSame(b.payments, pending,
        (e: Entry) => b.Live(e.date) && Before(CycleAt(m), e.date) && AtOrBefore(e.date, d));
    } else {
      TotalSame(b.payments, pending, (e: Entry) => b.Live(e.date) && AtOrBefore(e.date, d));
    }
    if IsCycleDate(d) {
      forall e <- b.payments
        ensures !inPeriod(e)
      {
        IndexAdjoint(e.date, k);
      }
      TotalNone(b.payments, inPeriod);
    } else {
      TotalSame(b.payments, inPeriod, (e: Entry) => b.Live(e.date) && CycleIndex(e.date) == k && AtOrBefore(e.date, d));
    }
  }

  lemma SinceLastCycle(b: Book, d: Day, e: Day)
    requires b.Live(e) && AtOrBefore(e, d)
    ensures var m := AfterIndex(d) - 1;
      (b.Rows(d) != [] ==> Before(CycleAt(m), e)) <==> CycleIndex(e) == m + 1
  {
    hide CycleAt, CycleIndex, AfterIndex, Book.Live, Book.First;
    var m := AfterIndex(d) - 1;
    IndexAdjoint(e, m);
    LiveIsCharged(b, e);
    IndexMonotone(e, d);
    ClosestCycle(d);
  }

  /** Against the displayed balance of the book that already contains it, the balance a payment stores is too
      high by exactly what was already paid in its period, and a payment the ledger does not replay (dated
      before the start) is subtracted from the stored balance only. */
  lemma StoredVersusDisplayed(b: Book, i: nat)
    requires i < |b.payments|
    ensures var p, before := b.payments[i], LedgerLaws.Removed(b, i);
      BalanceBefore(before, p.date) + InterestOn(before, p.date) - p.amount ==
        b.CurrentBalance(p.date) + PaidEarlierInPeriod(before, p.date) - (if b.Live(p.date) then 0 else p.amount)
  {
    hide CycleIndex, IsCycleDate, Interest, AtOrBefore, Book.First, Book.Base, Book.Live, Book.Closing,
      Book.CurrentBalance;
    var p, before := b.payments[i], LedgerLaws.Removed(b, i);
    var d := p.date;
    LedgerLaws.SameLive(before, b);
    LedgerLaws.SameClosingBefore(b, i, CycleIndex(d) - 1);
    DisplayedFromSnapshot(b, d);
    var keep := (e: Entry) => b.Live(e.date) && CycleIndex(e.date) == CycleIndex(d) && AtOrBefore(e.date, d);
    TotalWithout(b.payments, i, keep);
    TotalSame(b.payments, keep,
      (e: Entry) => b.Live(e.date) && CycleIndex(e.date) == CycleIndex(d) && AtOrBefore(e.date, d));
    TotalSame(before.payments, keep, (e: Entry) => before.Live(e.date) && CycleIndex(e.date) == CycleIndex(d) &&
      AtOrBefore(e.date, d));
    OnItself(d);
  }

  lemma OnItself(d: Day)
    ensures AtOrBefore(d, d)
  {
  }

  lemma {:induction false} InsertKeepsAnchor(ps: seq<Payment>, i: nat, p: Payment)
    requires i <= |ps| && !p.kind.Import?
    ensures LastImport(ps[..i] + [p] + ps[i..]) == LastImport(ps)
    decreases |ps|
  {
    var qs := ps[..i] + [p] + ps[i..];
    if i == |ps| {
      assert qs[..|qs| - 1] == ps;
    } else {
      var init := ps[..|ps| - 1];
      InsertKeepsAnchor(init, i, p);
      assert qs[..|qs| - 1] == init[..i] + [p] + init[i..];
    }
  }

  /** The same for an account: the stored balance of an accepted payment against the balance displayed then. */
  lemma {:induction false} AcceptedPaymentVersusDisplayed(a: Account, date: Option<Day>, amount: int, kind: Kind)
    requires !kind.Import? && Add(a, date, amount, kind).1.Ok?
    ensures var (after, r) := Add(a, date, amount, kind);
      var p, prior, now := r.value, BookOf(a.terms, a.payments), BookOf(after.terms, after.payments);
      p.after ==
        now.CurrentBalance(p.date) + PaidEarlierInPeriod(prior, p.date) - (if now.Live(p.date) then 0 else amount)
  {
    hide BalanceBefore, InterestOn, NextDueDate, PaymentDate, AtOrBefore, Book.CurrentBalance, Book.Live;
    hide PaidEarlierInPeriod, LastImport;
    var (after, r) := Add(a, date, amount, kind);
    var p := r.value;
    var i, now := InsertionPoint(a.payments, p.date), BookOf(after.terms, after.payments);
    InsertKeepsAnchor(a.payments, i, p);
    assert Without(now.payments, i) == Entries(a.payments);
    StoredVersusDisplayed(now, i);
  }

  /** A payment is accepted exactly on an open or active account and after the imported history.  Then it is
      the only row added, in its place by date; it falls due at the first cycle date after it; an automatic one
      is dated at the first cycle date after the last payment (or the start) and the imported cycle; and the
      account is paid exactly if nothing is owed after it.  A refused payment changes nothing. */
  lemma AddRecordsExactlyThePayment(a: Account, date: Option<Day>, amount: int, kind: Kind)
    requires ByDate(a.payments) && !kind.Import?
    ensures var (after, r) := Add(a, date, amount, kind);
      var d, anchor := PaymentDate(a, date, kind), AnchorOf(a.payments);
      && (r.Ok? <==> (a.status.Open? || a.status.Active?) && (anchor.Some? ==> Before(anchor.value.date, d)))
      && (r.Err? ==> after == a)
      && (kind.Manual? && date.Some? ==> d == date.value)
      && (kind.Auto? || date.None? ==>
            FirstCycleAfter(d, Reference(a)) && AtOrBefore(LastDate(a.terms, a.payments), Reference(a)))
      && (r.Ok? ==>
           && var p := r.value;
           && p.date == d && p.amount == amount && p.kind == kind && FirstCycleAfter(p.nextDue, d)
           && ByDate(after.payments) && after.terms == a.terms
           && (exists i :: AddedAt(a.payments, after.payments, i, p))
           && (after.status.Paid? <==> p.after <= 0) && (after.status.Active? <==> p.after > 0))
  {
    hide NextDueDate, BalanceBefore, InterestOn, AnchorOf, Before, Later, IsCycleDate;
    var (after, r) := Add(a, date, amount, kind);
    NextDueDateIsLeast(PaymentDate(a, date, kind));
    NextDueDateIsLeast(Reference(a));
    ReferenceIsLater(a);
    if r.Ok? {
      InsertKeepsOrder(a.payments, r.value);
      assert AddedAt(a.payments, after.payments, InsertionPoint(a.payments, r.value.date), r.value);
    }
  }

  predicate AddedAt(ps: seq<Payment>, qs: seq<Payment>, i: nat, p: Payment) {
    i <= |ps| && qs == ps[..i] + [p] + ps[i..]
  }

  ghost predicate FirstCycleAfter(c: Day, d: Day) {
    IsCycleDate(c) && Before(d, c) && forall e: Day :: IsCycleDate(e) && Before(d, e) ==> AtOrBefore(c, e)
  }

  lemma ReferenceIsLater(a: Account)
    ensures AtOrBefore(LastDate(a.terms, a.payments), Reference(a))
  {
  }

  // ---------- Automatic payments ----------

  function Autos(amounts: seq<int>): seq<Write> {
    seq<Write>(|amounts|, i requires 0 <= i < |amounts| => Pay(None, amounts[i], Auto))
  }

  predicate AutoChain(a: Account, amounts: seq<int>) {
    && |a.payments| <= |amounts|
    && (forall i :: 0 <= i < |a.payments| ==> AutoPayment(a, i, amounts[i]))
    && (forall i :: 0 <= i < |a.payments| - 1 ==>
          a.payments[i].after > 0 && a.payments[i + 1].before == a.payments[i].after)
    && (a.payments != [] ==> var last := a.payments[|a.payments| - 1];
         BookOf(a.terms, a.payments).CurrentBalance(last.date) == last.after)
    && a.status == DeletionLaws.StatusOf(a.payments)
    && (|a.payments| < |amounts| ==> a.status == Paid)
  }

  predicate AutoPayment(a: Account, i: nat, amount: int)
    requires i < |a.payments|
  {
    var p := a.payments[i];
    p.date == CycleAt(AfterIndex(a.terms.start) + i) && p.amount == amount && p.kind == Auto
  }

  /** Any run of automatic payments on a fresh account lands on consecutive cycle dates, the first strictly
      after the start date; each balance before is the previous balance after; the last is the displayed
      balance of its date; and the account is paid at the first balance that is not positive, after which
      every further payment is refused. */
  lemma {:induction false} AutoPaymentsChain(terms: Terms, amounts: seq<int>)
    ensures Run(terms, Autos(amounts)).terms == terms
    ensures AutoChain(Run(terms, Autos(amounts)), amounts)
    ensures var ps := Run(terms, Autos(amounts)).payments;
      ps != [] ==>
        ps[0].before == terms.borrow + (if IsCycleDate(terms.start) then Interest(terms.borrow, terms.rate) else 0)
  {
    hide Run, AutoPayment, DeletionLaws.StatusOf, BookOf, Book.CurrentBalance, Interest, IsCycleDate, Add;
    if amounts == [] {
      DeletionLaws.NothingRecorded(terms);
      assert Autos(amounts) == [];
      assert DeletionLaws.StatusOf([]) == Open by { NoStatus(); }
    } else {
      var n := |amounts| - 1;
      var a := Run(terms, Autos(amounts[..n]));
      AutoPaymentsChain(terms, amounts[..n]);
      assert Autos(amounts)[..n] == Autos(amounts[..n]);
      RunOneMore(terms, Autos(amounts));
      var next := Step(a, Pay(None, amounts[n], Auto));
      AutoPayments(a, amounts, next);
    }
  }

  lemma NoStatus()
    ensures DeletionLaws.StatusOf([]) == Open
  {
  }

  lemma AutoPayments(a: Account, amounts: seq<int>, next: Account)
    requires amounts != [] && AutoChain(a, amounts[..|amounts| - 1])
    requires next == Add(a, None, amounts[|amounts| - 1], Auto).0
    ensures next.terms == a.terms && AutoChain(next, amounts)
    ensures a.payments != [] ==> next.payments != [] && next.payments[0] == a.payments[0]
    ensures a.payments == [] && next.payments != [] ==>
      next.payments[0].before ==
        a.terms.borrow + (if IsCycleDate(a.terms.start) then Interest(a.terms.borrow, a.terms.rate) else 0)
  {
    hide AutoPayment, BookOf, Book.CurrentBalance, Interest, IsCycleDate, Add, RecordNative;
    SettledRefuses(a, amounts[|amounts| - 1]);
    if a.status == Paid {
    } else {
      var n := |amounts| - 1;
      var p := OneMoreAuto(a, amounts[..n], amounts[n]);
      forall i | 0 <= i < |a.payments|
        ensures AutoPayment(next, i, amounts[i])
      {
        assert AutoPayment(a, i, amounts[..n][i]);
        SameAutoPayment(a, next, i, amounts[i]);
      }
    }
  }

  lemma SameAutoPayment(a: Account, b: Account, i: nat, amount: int)
    requires i < |a.payments| && i < |b.payments| && a.payments[i] == b.payments[i] && a.terms == b.terms
    ensures AutoPayment(a, i, amount) == AutoPayment(b, i, amount)
  {
  }

  lemma SettledRefuses(a: Account, amount: int)
    ensures a.status == Paid ==> Add(a, None, amount, Auto).0 == a
  {
  }

  lemma {:induction false} AutosAreNative(ps: seq<Payment>)
    requires forall p <- ps :: p.kind == Auto
    ensures AnchorOf(ps) == None
  {
    if ps != [] {
      AutosAreNative(ps[..|ps| - 1]);
    }
  }

  lemma OneMoreAuto(a: Account, amounts: seq<int>, amount: int) returns (p: Payment)
    requires AutoChain(a, amounts) && a.status != Paid
    ensures var next := Add(a, None, amount, Auto).0;
      && next == Account(a.terms, DeletionLaws.StatusOf(a.payments + [p]), a.payments + [p])
      && AutoPayment(next, |a.payments|, amount)
      && BookOf(next.terms, next.payments).CurrentBalance(p.date) == p.after
    ensures |a.payments| == |amounts|
    ensures a.payments != [] ==> p.before == a.payments[|a.payments| - 1].after && p.before > 0
    ensures a.payments == [] ==>
      p.before == a.terms.borrow + (if IsCycleDate(a.terms.start) then Interest(a.terms.borrow, a.terms.rate) else 0)
  {
    hide CycleAt, CycleIndex, AfterIndex, IsCycleDate, Interest, NextDueDate, BalanceBefore, InterestOn, AtOrBefore;
    hide Insert, AnchorOf, Book.CurrentBalance, Book.Live;
    var k := AfterIndex(a.terms.start) + |a.payments|;
    forall q <- a.payments
      ensures q.kind == Auto
    {
      var i :| 0 <= i < |a.payments| && a.payments[i] == q;
      assert AutoPayment(a, i, amounts[i]);
    }
    AutosAreNative(a.payments);
    if a.payments != [] {
      assert AutoPayment(a, |a.payments| - 1, amounts[|a.payments| - 1]);
    }
    AutoDate(a, k);
    p := RecordNative(a.terms, a.payments, CycleAt(k), amount, Auto);
    InsertAuto(a, p);
    AutosAreNative(a.payments + [p]);
    AutoIsFirstInPeriod(a, amounts, k);
    var next := Add(a, None, amount, Auto);
    assert next == (Account(a.terms, DeletionLaws.StatusOf(a.payments + [p]), a.payments + [p]), Ok(p));
    AcceptedPaymentVersusDisplayed(a, None, amount, Auto);
    assert BookOf(a.terms, a.payments + [p]).Live(p.date);
    AutoBalanceBefore(a, amounts, k);
  }

  lemma InsertAuto(a: Account, p: Payment)
    requires a.payments != [] ==> Before(a.payments[|a.payments| - 1].date, p.date)
    ensures Insert(a.payments, p) == a.payments + [p]
  {
  }

  /** The automatic date after n automatic payments is the n-th cycle date after the start. */
  lemma AutoDate(a: Account, k: int)
    requires AnchorOf(a.payments) == None && k == AfterIndex(a.terms.start) + |a.payments|
    requires a.payments != [] ==> a.payments[|a.payments| - 1].date == CycleAt(k - 1)
    ensures NextDueDate(Reference(a)) == CycleAt(k)
    ensures a.payments != [] ==> Before(a.payments[|a.payments| - 1].date, CycleAt(k))
  {
    hide CycleAt, CycleIndex, AfterIndex, NextDueDate, Before;
    EngineInNumbers(Reference(a));
    Numbering(k - 1);
    CycleOrder(k - 1, k);
  }

  /** An automatic payment is replayed and is the first of its period. */
  lemma AutoIsFirstInPeriod(a: Account, amounts: seq<int>, k: int)
    requires |a.payments| <= |amounts| && AnchorOf(a.payments) == None && k == AfterIndex(a.terms.start) + |a.payments|
    requires forall i :: 0 <= i < |a.payments| ==> AutoPayment(a, i, amounts[i])
    ensures PaidEarlierInPeriod(BookOf(a.terms, a.payments), CycleAt(k)) == 0
    ensures AtOrBefore(a.terms.start, CycleAt(k))
    ensures forall b: Book :: b.terms == a.terms && b.anchor == None ==> b.Live(CycleAt(k))
  {
    hide CycleAt, CycleIndex, AfterIndex, AtOrBefore;
    var b := BookOf(a.terms, a.payments);
    Numbering(k);
    AfterAdjoint(a.terms.start, k);
    NotAfterStart(a.terms.start, CycleAt(k));
    forall e <- b.payments
      ensures CycleIndex(e.date) != k
    {
      var i :| 0 <= i < |b.payments| && b.payments[i] == e;
      assert AutoPayment(a, i, amounts[i]);
      Numbering(AfterIndex(a.terms.start) + i);
    }
    TotalNone(b.payments, (e: Entry) => b.Live(e.date) && CycleIndex(e.date) == CycleIndex(CycleAt(k)) &&
      AtOrBefore(e.date, CycleAt(k)));
  }

  lemma NotAfterStart(start: Day, c: Day)
    ensures Before(start, c) ==> AtOrBefore(start, c)
  {
  }

  lemma AutoBalanceBefore(a: Account, amounts: seq<int>, k: int)
    requires AutoChain(a, amounts) && AnchorOf(a.payments) == None && k == AfterIndex(a.terms.start) + |a.payments|
    ensures var b := BookOf(a.terms, a.payments);
      && (a.payments != [] ==> BalanceBefore(b, CycleAt(k)) == a.payments[|a.payments| - 1].after)
      && (a.payments == [] ==> (BalanceBefore(b, CycleAt(k)) ==
           a.terms.borrow + (if IsCycleDate(a.terms.start) then Interest(a.terms.borrow, a.terms.rate) else 0)))
  {
    hide CycleAt, CycleIndex, IsCycleDate, Interest, Book.CurrentBalance, PaidEarlierInPeriod;
    var b := BookOf(a.terms, a.payments);
    Numbering(k);
    Numbering(k - 1);
    if a.payments == [] {
      NothingPaidYet(b, k - 1);
    } else {
      assert AutoPayment(a, |a.payments| - 1, amounts[|a.payments| - 1]);
      BalanceSinceLastCycle(b, CycleAt(k - 1));
    }
  }

  lemma NothingPaidYet(b: Book, k: int)
    requires b.payments == [] && b.anchor == None && k == AfterIndex(b.terms.start) - 1
    ensures b.Closing(k) == b.terms.borrow +
      (if IsCycleDate(b.terms.start) then Interest(b.terms.borrow, b.terms.rate) else 0)
  {
  }
}
