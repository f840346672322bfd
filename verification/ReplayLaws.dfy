/** The three writers of payment snapshots agree: over every run of an account, recalculating the
    ledger reproduces what is stored, and deleting a payment equals never having recorded it. */
module ReplayLaws {
  import opened Options
  import opened Calendar
  import opened Ledger
  import LedgerLaws
  import opened Payments

  // ---------- Replay looks only at what was paid ----------

  /** Same payments, whatever snapshots they store. */
  predicate SameFacts(ps: seq<Payment>, qs: seq<Payment>) {
    |ps| == |qs| && forall i :: 0 <= i < |ps| ==> SameFact(ps[i], qs[i])
  }

  predicate SameFact(p: Payment, q: Payment) {
    p.date == q.date && p.amount == q.amount && p.kind == q.kind && (p.kind.Import? ==> p.interest == q.interest)
  }

  lemma {:induction false} ReplayForgetsSnapshots(terms: Terms, ps: seq<Payment>, qs: seq<Payment>)
    requires SameFacts(ps, qs)
    ensures Replay(terms, ps) == Replay(terms, qs)
  {
    hide RecordNative, RecordImport;
    if ps != [] {
      var n := |ps| - 1;
      assert SameFact(ps[n], qs[n]);
      ReplayForgetsSnapshots(terms, ps[..n], qs[..n]);
    }
  }

  lemma {:induction false} ReplayKeepsPayments(terms: Terms, ps: seq<Payment>)
    ensures SameFacts(ps, Replay(terms, ps))
  {
    hide BalanceBefore, InterestOn, NextDueDate, RunningBalance;
    if ps != [] {
      ReplayKeepsPayments(terms, ps[..|ps| - 1]);
    }
  }

  lemma {:induction false} ReplayAt(terms: Terms, ps: seq<Payment>, j: nat)
    requires j < |ps|
    ensures Replay(terms, ps)[..j] == Replay(terms, ps[..j])
    ensures Replay(terms, ps)[j] == Rewrite(terms, Replay(terms, ps[..j]), ps[j])
  {
    hide Rewrite;
    if j < |ps| - 1 {
      var init := ps[..|ps| - 1];
      ReplayAt(terms, init, j);
      assert init[..j] == ps[..j];
    }
  }

  /** Recalculating twice changes nothing more, whatever was stored. */
  lemma RecalculationIsIdempotent(a: Account)
    ensures Recalculated(Recalculated(a)) == Recalculated(a)
  {
    hide Replay;
    ReplayKeepsPayments(a.terms, a.payments);
    ReplayForgetsSnapshots(a.terms, a.payments, Replay(a.terms, a.payments));
  }

  // ---------- Runs of an account ----------

  datatype Write =
    | Pay(date: Option<Day>, amount: int, kind: Kind)
    | ImportItems(items: seq<ImportItem>)
    | Delete(i: nat)
    | Close

  function Step(a: Account, w: Write): Account {
    match w
    case Pay(date, amount, kind) => Add(a, date, amount, kind).0
    case ImportItems(items) => Imported(a, items)
    case Delete(i) => if i < |a.payments| then Deleted(a, i) else a
    case Close => a.(status := Closed)
  }

  /** The date a request to record a payment resolves to. */
  function DateOf(a: Account, w: Write): Day
    requires w.Pay?
  {
    PaymentDate(a, w.date, w.kind)
  }

  predicate Accepted(a: Account, w: Write) {
    w.Pay? && !w.kind.Import? && Add(a, w.date, w.amount, w.kind).1.Ok?
  }

  /** An accepted payment that is backdated into the replayed past, before a payment of a later cycle: the
      snapshot stored with that one did not know of it. */
  predicate Disturbs(a: Account, w: Write) {
    && Accepted(a, w) && BookOf(a.terms, a.payments).Live(DateOf(a, w))
    && exists q :: q in a.payments && Before(DateOf(a, w), q.date) && CycleIndex(DateOf(a, w)) != CycleIndex(q.date)
  }

  function Run(terms: Terms, ws: seq<Write>): Account {
    if ws == [] then Account(terms, Open, []) else Step(Run(terms, ws[..|ws| - 1]), ws[|ws| - 1])
  }

  /** The writes that exist: only the importer records imported payments. */
  predicate Proper(w: Write) {
    w.Pay? ==> !w.kind.Import?
  }

  predicate AllProper(ws: seq<Write>) {
    forall w <- ws :: Proper(w)
  }

  /** As validated requests: the amount of a recorded payment is positive. */
  predicate Requests(ws: seq<Write>) {
    forall w <- ws :: w.Pay? ==> !w.kind.Import? && w.amount > 0
  }

  /** Some payment recorded since the last deletion was backdated before one of a later cycle. */
  predicate Disturbed(terms: Terms, ws: seq<Write>) {
    ws != [] &&
    var init, w := ws[..|ws| - 1], ws[|ws| - 1];
    var a := Run(terms, init);
    !(w.Delete? && w.i < |a.payments|) && (Disturbed(terms, init) || Disturbs(a, w))
  }

  /** What every run keeps: query order, and a status that goes with the stored balance unless paid or closed. */
  predicate Kept(a: Account) {
    && ByDate(a.payments)
    && (a.status.Open? ==> a.payments == [])
    && (a.status.Active? && a.payments != [] ==> RunningBalance(a.terms, a.payments) > 0)
  }

  /** The stored ledger is its own replay. */
  predicate Consistent(a: Account) {
    Kept(a) && Replay(a.terms, a.payments) == a.payments
  }

  /** Some stored balance is higher than the replayed one. */
  predicate Stale(terms: Terms, ps: seq<Payment>) {
    exists j :: 0 <= j < |ps| && Replay(terms, ps)[j].after < ps[j].after
  }

  // ---------- Inserting a payment before others ----------

  /** What a payment dated d, accepted after the imported history, is inserted before. */
  predicate TailFrom(ps: seq<Payment>, i: nat, d: Day) {
    i <= |ps| && forall k :: i <= k < |ps| ==> !ps[k].kind.Import? && Before(d, ps[k].date)
  }

  lemma {:induction false} NativeTail(ps: seq<Payment>, i: nat)
    requires i <= |ps| && forall k :: i <= k < |ps| ==> !ps[k].kind.Import?
    ensures LastImport(ps) == LastImport(ps[..i])
  {
    if i < |ps| {
      NativeTail(ps[..|ps| - 1], i);
      assert ps[..|ps| - 1][..i] == ps[..i];
    } else {
      assert ps[..i] == ps;
    }
  }

  lemma {:induction false} LastImportIsLatest(ps: seq<Payment>, k: nat)
    requires ByDate(ps) && k < |ps| && ps[k].kind.Import?
    ensures LastImport(ps).Some? && LastImport(ps).value.kind.Import?
    ensures AtOrBefore(ps[k].date, LastImport(ps).value.date)
  {
    if k < |ps| - 1 && !ps[|ps| - 1].kind.Import? {
      LastImportIsLatest(ps[..|ps| - 1], k);
    }
  }

  lemma AcceptedTail(ps: seq<Payment>, d: Day)
    requires ByDate(ps) && (AnchorOf(ps).Some? ==> !AtOrBefore(d, AnchorOf(ps).value.date))
    ensures TailFrom(ps, InsertionPoint(ps, d), d)
  {
    hide LastImport, InsertionPoint, NearestCycleDate;
    InsertPosition(ps, d);
    forall k | InsertionPoint(ps, d) <= k < |ps|
      ensures !ps[k].kind.Import?
    {
      if ps[k].kind.Import? {
        LastImportIsLatest(ps, k);
      }
    }
  }

  lemma {:induction false} LaterPaymentsDoNotCount(b: Book, n: nat, k: int)
    requires n <= |b.payments| && forall j :: n <= j < |b.payments| ==> k < CycleIndex(b.payments[j].date)
    ensures b.Closing(k) == b.(payments := b.payments[..n]).Closing(k)
    decreases |b.payments|
  {
    hide CycleIndex, Book.Closing;
    var m := |b.payments|;
    if n < m {
      LedgerLaws.SameClosingBefore(b, m - 1, k);
      assert Without(b.payments, m - 1) == b.payments[..m - 1];
      LaterPaymentsDoNotCount(LedgerLaws.Removed(b, m - 1), n, k);
      assert b.payments[..m - 1][..n] == b.payments[..n];
    } else {
      assert b.payments[..n] == b.payments;
    }
  }

  /** The snapshot of a payment depends only on the payments it is inserted after. */
  lemma RecordedFromPrefix(terms: Terms, ps: seq<Payment>, i: nat, d: Day, amount: int, kind: Kind)
    requires TailFrom(ps, i, d)
    ensures RecordNative(terms, ps, d, amount, kind) == RecordNative(terms, ps[..i], d, amount, kind)
  {
    hide CycleIndex, IsCycleDate, NextDueDate, Before, LastImport, Interest, Book.Closing;
    var b := BookOf(terms, ps);
    NativeTail(ps, i);
    forall j | i <= j < |b.payments|
      ensures CycleIndex(d) <= CycleIndex(b.payments[j].date)
    {
      LaterCycle(d, ps[j].date);
    }
    LaterPaymentsDoNotCount(b, i, CycleIndex(d) - 1);
    assert Entries(ps)[..i] == Entries(ps[..i]);
    LedgerLaws.SameLive(b, BookOf(terms, ps[..i]));
  }

  lemma LaterCycle(d: Day, e: Day)
    requires Before(d, e)
    ensures CycleIndex(d) <= CycleIndex(e)
  {
    hide CycleIndex;
    IndexMonotone(d, e);
  }

  function With(ps: seq<Payment>, i: nat, p: Payment): seq<Payment>
    requires i <= |ps|
  {
    ps[..i] + [p] + ps[i..]
  }

  /** The replay of a payment that another one is inserted before: it stays the same if that one is not
      replayed or lies in the same cycle, and otherwise leaves less by at least the other's amount. */
  lemma InsertedBefore(terms: Terms, ps: seq<Payment>, i: nat, p: Payment, j: nat)
    requires TailFrom(ps, i, p.date) && i <= j < |ps| && !p.kind.Import?
    ensures var q, r := Replay(terms, ps)[j], Replay(terms, With(ps, i, p))[j + 1];
      var live := BookOf(terms, Replay(terms, ps[..i])).Live(p.date);
      && (!live || CycleIndex(p.date) == CycleIndex(ps[j].date) ==> r == q)
      && (p.amount >= 0 ==> r.after <= q.after)
      && (p.amount >= 0 && live && CycleIndex(p.date) != CycleIndex(ps[j].date) ==> r.after <= q.after - p.amount)
  {
    hide Replay, CycleIndex, IsCycleDate, Before, NextDueDate, Interest, Book.Closing, Book.Live, AnchorOf;
    var qs := With(ps, i, p);
    ReplayAt(terms, ps, j);
    ReplayAt(terms, qs, j + 1);
    SameTail(terms, ps, i, p, j);
    assert qs[j + 1] == ps[j];
    var ob, nb := BookOf(terms, Replay(terms, ps[..j])), BookOf(terms, Replay(terms, qs[..j + 1]));
    assert LedgerLaws.Removed(nb, i) == ob;
    LedgerLaws.SameLive(ob, nb);
    LedgerLaws.SameLive(ob, BookOf(terms, Replay(terms, ps[..i])));
    LaterCycle(p.date, ps[j].date);
    var k := CycleIndex(ps[j].date) - 1;
    LedgerLaws.SameClosingBefore(nb, i, k);
    if p.amount >= 0 {
      LedgerLaws.RemovingAPaymentCostsAtLeastItsAmount(nb, i, k);
      InterestMonotone(nb.Closing(k), ob.Closing(k), terms.rate);
    }
  }

  lemma SameTail(terms: Terms, ps: seq<Payment>, i: nat, p: Payment, j: nat)
    requires TailFrom(ps, i, p.date) && i <= j < |ps| && !p.kind.Import?
    ensures var qs := With(ps, i, p);
      var before, after, prefix := Replay(terms, ps[..j]), Replay(terms, qs[..j + 1]), Replay(terms, ps[..i]);
      && AnchorOf(before) == AnchorOf(prefix) && AnchorOf(after) == AnchorOf(prefix)
      && |Entries(after)| == j + 1 && Without(Entries(after), i) == Entries(before)
      && Entries(after)[i] == Entry(p.date, p.amount)
  {
    hide Replay, Before, AnchorOf;
    var qs := With(ps, i, p);
    SameEntries(terms, ps[..j]);
    SameEntries(terms, qs[..j + 1]);
    assert ps[..j][..i] == ps[..i] && qs[..j + 1][..i] == ps[..i];
    AnchorOfReplay(terms, ps[..j], i);
    AnchorOfReplay(terms, qs[..j + 1], i);
  }

  lemma AnchorOfReplay(terms: Terms, ps: seq<Payment>, i: nat)
    requires i <= |ps| && forall k :: i <= k < |ps| ==> !ps[k].kind.Import?
    ensures AnchorOf(Replay(terms, ps)) == AnchorOf(Replay(terms, ps[..i]))
  {
    hide Replay, LastImport;
    ReplayKeepsFacts(terms, ps);
    NativeTail(Replay(terms, ps), i);
    if i < |ps| {
      ReplayAt(terms, ps, i);
    } else {
      assert ps[..i] == ps;
    }
  }

  lemma SameEntries(terms: Terms, ps: seq<Payment>)
    ensures Entries(Replay(terms, ps)) == Entries(ps)
  {
    hide Replay;
    ReplayKeepsFacts(terms, ps);
  }

  // ---------- One payment more ----------

  function Recorded(a: Account, w: Write): Payment
    requires w.Pay?
  {
    RecordNative(a.terms, a.payments, DateOf(a, w), w.amount, w.kind)
  }

  lemma AcceptedStep(a: Account, w: Write)
    requires ByDate(a.payments) && w.Pay? && Accepted(a, w)
    ensures var p, i := Recorded(a, w), InsertionPoint(a.payments, DateOf(a, w));
      && TailFrom(a.payments, i, p.date) && Step(a, w).payments == With(a.payments, i, p) && Step(a, w).terms == a.terms
      && Step(a, w).status == (if p.after <= 0 then Paid else Active) && !a.status.Paid? && !a.status.Closed?
  {
    hide BalanceBefore, InterestOn, NextDueDate, InsertionPoint, AnchorOf, ByDate, TailFrom, PaymentDate, AtOrBefore;
    AcceptedTail(a.payments, DateOf(a, w));
  }

  lemma PrefixOfFixpoint(terms: Terms, ps: seq<Payment>, i: nat)
    requires Replay(terms, ps) == ps && i <= |ps|
    ensures Replay(terms, ps[..i]) == ps[..i]
  {
    hide Replay;
    if i < |ps| {
      ReplayAt(terms, ps, i);
    } else {
      assert ps[..i] == ps;
    }
  }

  /** The inserted payment is replayed as it was stored. */
  lemma InsertedItself(terms: Terms, ps: seq<Payment>, i: nat, d: Day, amount: int, kind: Kind)
    requires Replay(terms, ps) == ps && TailFrom(ps, i, d) && !kind.Import?
    ensures var p := RecordNative(terms, ps, d, amount, kind);
      && Replay(terms, With(ps, i, p))[..i] == ps[..i] && Replay(terms, With(ps, i, p))[i] == p
      && Replay(terms, ps[..i]) == ps[..i]
      && BookOf(terms, ps[..i]).Live(d) == BookOf(terms, ps).Live(d)
  {
    hide Replay, Before, NextDueDate, BalanceBefore, InterestOn, AnchorOf;
    var p := RecordNative(terms, ps, d, amount, kind);
    RecordedFromPrefix(terms, ps, i, d, amount, kind);
    ReplayAt(terms, With(ps, i, p), i);
    assert With(ps, i, p)[..i] == ps[..i];
    PrefixOfFixpoint(terms, ps, i);
    SameAnchor(ps, i);
  }

  lemma SameAnchor(ps: seq<Payment>, i: nat)
    requires i <= |ps| && forall k :: i <= k < |ps| ==> !ps[k].kind.Import?
    ensures AnchorOf(ps[..i]) == AnchorOf(ps)
  {
    hide LastImport;
    NativeTail(ps, i);
  }

  lemma UndisturbedPay(a: Account, w: Write)
    requires Consistent(a) && w.Pay? && Accepted(a, w) && !Disturbs(a, w)
    ensures Replay(a.terms, Step(a, w).payments) == Step(a, w).payments
  {
    hide Replay, Before, NextDueDate, InsertionPoint, CycleIndex, ByDate, Accepted, DateOf, RecordNative, Step,
      Book.Live;
    var ps, p, i := a.payments, Recorded(a, w), InsertionPoint(a.payments, DateOf(a, w));
    AcceptedStep(a, w);
    RecordedFacts(a, w);
    InsertedItself(a.terms, ps, i, p.date, w.amount, w.kind);
    var qs := With(ps, i, p);
    forall m | 0 <= m < |qs|
      ensures Replay(a.terms, qs)[m] == qs[m]
    {
      if m < i {
        assert Replay(a.terms, qs)[..i][m] == ps[..i][m];
      } else if m > i {
        InsertedBefore(a.terms, ps, i, p, m - 1);
        assert ps[m - 1] in ps;
      }
    }
  }

  lemma RecordedFacts(a: Account, w: Write)
    requires w.Pay?
    ensures var p := Recorded(a, w); p.date == DateOf(a, w) && p.amount == w.amount && p.kind == w.kind
    ensures Accepted(a, w) ==> !w.kind.Import?
  {
  }

  lemma DisturbedPay(a: Account, w: Write)
    requires Consistent(a) && w.Pay? && Disturbs(a, w) && w.amount > 0
    ensures Stale(a.terms, Step(a, w).payments)
  {
    hide Replay, Before, NextDueDate, InsertionPoint, CycleIndex, ByDate, Accepted, DateOf, RecordNative, Step,
      Book.Live;
    var ps, p, i := a.payments, Recorded(a, w), InsertionPoint(a.payments, DateOf(a, w));
    AcceptedStep(a, w);
    RecordedFacts(a, w);
    InsertedItself(a.terms, ps, i, p.date, w.amount, w.kind);
    var q :| q in ps && Before(p.date, q.date) && CycleIndex(p.date) != CycleIndex(q.date);
    var j :| 0 <= j < |ps| && ps[j] == q;
    LaterIsInTail(ps, p.date, j);
    InsertedBefore(a.terms, ps, i, p, j);
    assert Step(a, w).payments[j + 1] == ps[j];
  }

  lemma LaterIsInTail(ps: seq<Payment>, d: Day, j: nat)
    requires ByDate(ps) && j < |ps| && Before(d, ps[j].date)
    ensures InsertionPoint(ps, d) <= j
  {
    InsertPosition(ps, d);
  }

  /** A payment recorded into a ledger that is its own replay leaves it so exactly if it is not backdated, into the
      replayed past, before a payment of a later cycle. */
  lemma RecordingKeepsTheLedgerIff(a: Account, w: Write)
    requires Consistent(a) && w.Pay? && Accepted(a, w) && w.amount > 0
    ensures Recalculated(Step(a, w)).payments == Step(a, w).payments <==>
      !BookOf(a.terms, a.payments).Live(DateOf(a, w)) ||
      forall q <- a.payments :: Before(DateOf(a, w), q.date) ==> CycleIndex(DateOf(a, w)) == CycleIndex(q.date)
  {
    hide Replay, CycleIndex, Before, DateOf, Accepted, Consistent, RecordNative, Step, Book.Live, Stale;
    AcceptedIs(a, w);
    if Disturbs(a, w) {
      DisturbedPay(a, w);
      StaleIsNoFixpoint(a.terms, Step(a, w).payments);
    } else {
      UndisturbedPay(a, w);
    }
  }

  lemma AcceptedIs(a: Account, w: Write)
    requires w.Pay? && Accepted(a, w)
    ensures Step(a, w).terms == a.terms
  {
  }

  lemma StaleIsNoFixpoint(terms: Terms, ps: seq<Payment>)
    requires Stale(terms, ps)
    ensures Replay(terms, ps) != ps
  {
  }

  // ---------- Every step ----------

  lemma StaleAfterPay(a: Account, w: Write)
    requires ByDate(a.payments) && Stale(a.terms, a.payments) && w.Pay? && Accepted(a, w) && w.amount >= 0
    ensures Stale(a.terms, Step(a, w).payments)
  {
    hide Replay, InsertionPoint, ByDate, Accepted, DateOf, RecordNative, Step;
    var ps, p, i := a.payments, Recorded(a, w), InsertionPoint(a.payments, DateOf(a, w));
    AcceptedStep(a, w);
    RecordedFacts(a, w);
    var j :| 0 <= j < |ps| && Replay(a.terms, ps)[j].after < ps[j].after;
    var qs := With(ps, i, p);
    if j < i {
      ReplayAt(a.terms, qs, j);
      ReplayAt(a.terms, ps, j);
      assert qs[..j] == ps[..j] && qs[j] == ps[j];
    } else {
      InsertedBefore(a.terms, ps, i, p, j);
      assert qs[j + 1] == ps[j];
    }
  }

  lemma {:induction false} ImportsExtend(terms: Terms, ps: seq<Payment>, items: seq<ImportItem>)
    requires ByDate(ps)
    ensures var qs := AppendImports(terms, ps, items); ps <= qs && ByDate(qs)
    ensures Replay(terms, ps) == ps ==>
      Replay(terms, AppendImports(terms, ps, items)) == AppendImports(terms, ps, items)
  {
    hide ByDate, Replay, NextDueDate;
    if items != [] {
      ImportsExtend(terms, ps, items[..|items| - 1]);
      var before, it := AppendImports(terms, ps, items[..|items| - 1]), items[|items| - 1];
      if !Before(it.date, LastDate(terms, before)) {
        ReplayAppend(terms, before, RecordImport(terms, before, it.date, it.amount, it.interest));
      }
    }
  }

  lemma ReplayAppend(terms: Terms, ps: seq<Payment>, p: Payment)
    requires ByDate(ps) && (ps != [] ==> AtOrBefore(ps[|ps| - 1].date, p.date))
    ensures ByDate(ps + [p])
    ensures Replay(terms, ps) == ps && p == Rewrite(terms, ps, p) ==> Replay(terms, ps + [p]) == ps + [p]
  {
  }

  lemma StaleAfterMore(terms: Terms, ps: seq<Payment>, qs: seq<Payment>)
    requires ps <= qs && Stale(terms, ps)
    ensures Stale(terms, qs)
  {
    hide Replay;
    var j :| 0 <= j < |ps| && Replay(terms, ps)[j].after < ps[j].after;
    ReplayAt(terms, ps, j);
    ReplayAt(terms, qs, j);
    assert qs[..j] == ps[..j] && qs[j] == ps[j];
  }

  /** A deletion leaves a ledger that is its own replay, whatever was stored before. */
  lemma DeleteMakesConsistent(a: Account, i: nat)
    requires ByDate(a.payments) && i < |a.payments|
    ensures Consistent(Deleted(a, i))
  {
    hide Replay, AtOrBefore;
    var rest := a.payments[..i] + a.payments[i + 1..];
    ReplayKeepsPayments(a.terms, rest);
    ReplayForgetsSnapshots(a.terms, rest, Replay(a.terms, rest));
    ReplayKeepsFacts(a.terms, rest);
  }

  lemma PayKeeps(a: Account, w: Write)
    requires Kept(a) && w.Pay? && Accepted(a, w)
    ensures Kept(Step(a, w))
  {
    hide InsertionPoint, ByDate, DateOf, RecordNative, Accepted, Step;
    AcceptedStep(a, w);
    PayKeepsOrder(a, w);
  }

  lemma PayKeepsOrder(a: Account, w: Write)
    requires ByDate(a.payments) && w.Pay? && Accepted(a, w)
    ensures ByDate(Step(a, w).payments)
  {
    hide ByDate, RecordNative, Insert, AnchorOf, PaymentDate, AtOrBefore;
    InsertKeepsOrder(a.payments, Recorded(a, w));
  }

  lemma StepKeeps(a: Account, w: Write)
    requires Kept(a) && Proper(w)
    ensures Kept(Step(a, w)) && Step(a, w).terms == a.terms
    ensures w.Delete? && w.i < |a.payments| ==> Consistent(Step(a, w))
    ensures Consistent(a) && !Disturbs(a, w) ==> Consistent(Step(a, w))
  {
    hide Deleted, ByDate, Replay, AppendImports, Add, DateOf, Disturbs;
    match w
    case Pay(_, _, _) =>
      RefusedChangesNothing(a, w);
      if Accepted(a, w) {
        PayKeeps(a, w);
        AcceptedStep(a, w);
        if Consistent(a) && !Disturbs(a, w) {
          UndisturbedPay(a, w);
        }
      }
    case ImportItems(items) => ImportsExtend(a.terms, a.payments, items);
    case Delete(i) =>
      if i < |a.payments| {
        DeleteMakesConsistent(a, i);
        DeletedTerms(a, i);
      }
    case Close =>
  }

  lemma RefusedChangesNothing(a: Account, w: Write)
    ensures w.Pay? && !w.kind.Import? && !Accepted(a, w) ==> Step(a, w) == a
  {
    hide PaymentDate, RecordNative, AnchorOf;
  }

  lemma DeletedTerms(a: Account, i: nat)
    requires i < |a.payments|
    ensures Deleted(a, i).terms == a.terms
  {
  }

  lemma StepKeepsStale(a: Account, w: Write)
    requires Kept(a) && Stale(a.terms, a.payments) && (w.Pay? ==> !w.kind.Import? && w.amount > 0)
    requires !(w.Delete? && w.i < |a.payments|)
    ensures Stale(a.terms, Step(a, w).payments)
  {
    hide ByDate, Replay, AppendImports, Stale, Add, Accepted;
    match w
    case Pay(_, _, _) =>
      RefusedChangesNothing(a, w);
      if Accepted(a, w) {
        StaleAfterPay(a, w);
      }
    case ImportItems(items) =>
      ImportsExtend(a.terms, a.payments, items);
      StaleAfterMore(a.terms, a.payments, AppendImports(a.terms, a.payments, items));
    case Delete(i) =>
    case Close =>
  }

  // ---------- Every run ----------

  lemma Nothing(terms: Terms)
    ensures Consistent(Account(terms, Open, []))
    ensures Run(terms, []) == Account(terms, Open, []) && !Disturbed(terms, [])
  {
  }

  lemma RunOneMore(terms: Terms, ws: seq<Write>)
    requires ws != []
    ensures Run(terms, ws) == Step(Run(terms, ws[..|ws| - 1]), ws[|ws| - 1])
  {
  }

  /** Every run of payments, imports, deletions and closing keeps query order and a status that fits; and while
      no payment since the last deletion was backdated before one of a later cycle, the stored ledger is its
      own replay. */
  lemma {:induction false} RunIsConsistent(terms: Terms, ws: seq<Write>)
    requires AllProper(ws)
    ensures Kept(Run(terms, ws)) && Run(terms, ws).terms == terms
    ensures !Disturbed(terms, ws) ==> Consistent(Run(terms, ws))
  {
    hide Step, Kept, Consistent, Disturbs, Run, Proper;
    if ws == [] {
      Nothing(terms);
    } else {
      var init, w := ws[..|ws| - 1], ws[|ws| - 1];
      RunIsConsistent(terms, init);
      StepKeeps(Run(terms, init), w);
      RunOneMore(terms, ws);
    }
  }

  lemma {:induction false} DisturbedRunIsStale(terms: Terms, ws: seq<Write>)
    requires Requests(ws) && Disturbed(terms, ws)
    ensures Stale(terms, Run(terms, ws).payments)
  {
    hide Step, Kept, Consistent, Disturbs, Run, Stale;
    var init, w := ws[..|ws| - 1], ws[|ws| - 1];
    RunIsConsistent(terms, init);
    RunOneMore(terms, ws);
    ConsistentIsKept(Run(terms, init));
    if Disturbed(terms, init) {
      DisturbedRunIsStale(terms, init);
      StepKeepsStale(Run(terms, init), w);
    } else {
      DisturbingIsPay(Run(terms, init), w);
      DisturbedPay(Run(terms, init), w);
    }
  }

  lemma ConsistentIsKept(a: Account)
    ensures Consistent(a) ==> Kept(a)
  {
  }

  lemma DisturbingIsPay(a: Account, w: Write)
    ensures Disturbs(a, w) ==> w.Pay?
  {
  }

  /** Recalculation is a fixpoint, for any mix of imports, requested payments, deletions and closing, exactly if no
      payment since the last deletion was backdated before a payment of a later cycle (and replayed there). */
  lemma {:induction false} RecalculationReproducesTheLedgerIff(terms: Terms, ws: seq<Write>)
    requires Requests(ws)
    ensures Recalculated(Run(terms, ws)).payments == Run(terms, ws).payments <==> !Disturbed(terms, ws)
  {
    hide Step, Kept, Disturbs, Run, Replay, Disturbed;
    RunIsConsistent(terms, ws);
    if Disturbed(terms, ws) {
      DisturbedRunIsStale(terms, ws);
    }
  }

  /** The status is reproduced exactly if it is that of the replayed balance.  While the ledger is its own replay,
      that fails only if the account is marked paid and its last balance is positive (an import has charged more
      than it paid, or a payment settled the account that was backdated within its cycle or before the start), or
      if it has no payment and yet is not open (an import recorded nothing). */
  lemma {:induction false} RecalculationReproducesTheStatusIff(terms: Terms, ws: seq<Write>)
    requires AllProper(ws)
    ensures var a := Run(terms, ws);
      Recalculated(a).status == a.status <==>
        if a.payments == [] then a.status.Open? || a.status.Closed?
        else a.status.Closed? || (a.status.Paid? <==> Replay(terms, a.payments)[|a.payments| - 1].after <= 0)
    ensures var a := Run(terms, ws);
      !Disturbed(terms, ws) && a.payments != [] ==>
        (Recalculated(a).status == a.status <==> !(a.status.Paid? && a.payments[|a.payments| - 1].after > 0))
  {
    hide Step, Run, Replay, ByDate, Disturbed;
    RunIsConsistent(terms, ws);
  }

  // ---------- Runs in date order ----------

  /** Not backdated: only a date chosen by hand can lie before the payments already there. */
  predicate InOrder(a: Account, w: Write) {
    w.Pay? ==> !w.kind.Import? && (w.kind.Manual? && w.date.Some? && a.payments != [] ==>
      AtOrBefore(a.payments[|a.payments| - 1].date, w.date.value))
  }

  predicate RunInOrder(terms: Terms, ws: seq<Write>) {
    forall i :: 0 <= i < |ws| ==> InOrder(Run(terms, ws[..i]), ws[i])
  }

  lemma InsertAtEnd(ps: seq<Payment>, p: Payment)
    requires ps != [] ==> AtOrBefore(ps[|ps| - 1].date, p.date)
    ensures Insert(ps, p) == ps + [p]
  {
  }

  lemma AutoDateIsLater(a: Account)
    requires a.payments != []
    ensures AtOrBefore(a.payments[|a.payments| - 1].date, NextDueDate(Reference(a)))
  {
  }

  lemma InOrderDate(a: Account, w: Write)
    requires w.Pay? && InOrder(a, w) && a.payments != []
    ensures AtOrBefore(a.payments[|a.payments| - 1].date, DateOf(a, w))
  {
    hide NextDueDate, Reference, AtOrBefore;
    AutoDateIsLater(a);
  }

  lemma InOrderDisturbsNothing(a: Account, w: Write)
    requires ByDate(a.payments) && w.Pay? && InOrder(a, w)
    ensures !Disturbs(a, w)
  {
    hide DateOf, Accepted, CycleIndex, Book.Live;
    forall q | q in a.payments
      ensures !Before(DateOf(a, w), q.date)
    {
      var j :| 0 <= j < |a.payments| && a.payments[j] == q;
      InOrderDate(a, w);
      NotLaterThanLast(a.payments, DateOf(a, w), j);
    }
  }

  lemma NotLaterThanLast(ps: seq<Payment>, d: Day, j: nat)
    requires ByDate(ps) && j < |ps| && AtOrBefore(ps[|ps| - 1].date, d)
    ensures !Before(d, ps[j].date)
  {
  }

  lemma RunInOrderOneMore(terms: Terms, ws: seq<Write>)
    requires ws != []
    ensures var n := |ws| - 1;
      RunInOrder(terms, ws) <==> RunInOrder(terms, ws[..n]) && InOrder(Run(terms, ws[..n]), ws[n])
  {
    hide Run, InOrder;
    var init := ws[..|ws| - 1];
    assert forall i :: 0 <= i < |init| ==> init[..i] == ws[..i] && init[i] == ws[i];
  }

  /** A run in date order is undisturbed, so recalculation reproduces all of it. */
  lemma {:induction false} RunInOrderIsUndisturbed(terms: Terms, ws: seq<Write>)
    requires RunInOrder(terms, ws)
    ensures AllProper(ws) && !Disturbed(terms, ws) && Consistent(Run(terms, ws))
  {
    hide Run, InOrder, RunInOrder, Disturbs, Consistent, Kept, Proper;
    if ws == [] {
      Nothing(terms);
    } else {
      var init, w := ws[..|ws| - 1], ws[|ws| - 1];
      RunInOrderOneMore(terms, ws);
      RunInOrderIsUndisturbed(terms, init);
      assert ws == init + [w];
      OrderOfConsistent(Run(terms, init), w);
    }
    RunIsConsistent(terms, ws);
  }

  lemma OrderOfConsistent(a: Account, w: Write)
    requires Consistent(a) && InOrder(a, w)
    ensures Proper(w) && !Disturbs(a, w)
  {
    hide Replay, ByDate, AtOrBefore;
    if w.Pay? {
      InOrderDisturbsNothing(a, w);
    }
  }
}
