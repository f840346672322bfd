/** What an import fixes for the rest of a ledger: the balance replay starts from, the cycles charged from there, and
    the date of the next automatic payment. */
module AnchorLaws {
  import opened Calendar
  import opened Ledger
  import opened LedgerLaws
  import opened Options
  import opened Payments
  import ReplayLaws
  import SnapshotLaws

  /** ps[i] is the imported payment that comes last in the history. */
  predicate IsLastImport(ps: seq<Payment>, i: nat) {
    i < |ps| && ps[i].kind.Import? && forall j :: i < j < |ps| ==> !ps[j].kind.Import?
  }

  predicate NoImports(ps: seq<Payment>) {
    forall p <- ps :: !p.kind.Import?
  }

  /** The first cycle date after the one nearest to an imported payment. */
  function CycleAfter(p: Payment): Day {
    AdvanceCycle(NearestCycleDate(p.date))
  }

  /** Later than an imported payment and than the cycle date nearest to it. */
  predicate PastImport(p: Payment, d: Day) {
    Before(p.date, d) && Before(NearestCycleDate(p.date), d)
  }

  lemma {:induction false} LastImportAt(ps: seq<Payment>, i: nat)
    requires IsLastImport(ps, i)
    ensures LastImport(ps) == Some(ps[i])
  {
    if i < |ps| - 1 {
      LastImportAt(ps[..|ps| - 1], i);
    }
  }

  lemma {:induction false} SomeLastImport(ps: seq<Payment>)
    ensures NoImports(ps) ==> LastImport(ps) == None
    ensures NoImports(ps) || exists i: nat :: IsLastImport(ps, i)
  {
    if ps != [] {
      var n := |ps| - 1;
      SomeLastImport(ps[..n]);
      if ps[n].kind.Import? {
        assert IsLastImport(ps, n);
      } else if NoImports(ps[..n]) {
        assert ps == ps[..n] + [ps[n]];
      } else {
        var i: nat :| IsLastImport(ps[..n], i);
        assert IsLastImport(ps, i);
      }
    }
  }

  lemma AnchorAt(ps: seq<Payment>, i: nat)
    requires IsLastImport(ps, i)
    ensures AnchorOf(ps).Some? && AnchorOf(ps).value.balance == ps[i].after
    ensures forall d: Day :: Before(AnchorOf(ps).value.date, d) <==> PastImport(ps[i], d)
    ensures AnchorOf(ps) == Some(ImportAnchor(ps[i]))
  {
    hide NearestCycleDate, LastImport;
    LastImportAt(ps, i);
  }

  lemma CycleDatePastImport(p: Payment, c: Day)
    requires IsCycleDate(c)
    ensures PastImport(p, c) <==> AtOrBefore(CycleAfter(p), c)
  {
    hide IsCycleDate, NearestCycleDate, AdvanceCycle, CycleIndex, AfterIndex, CycleAt;
    ImportAnchorChargesTheNextCycle(Terms(0, 0, p.date), [], p);
    AnchorDate(p, c);
  }

  lemma AnchorDate(p: Payment, c: Day)
    ensures Before(ImportAnchor(p).date, c) <==> PastImport(p, c)
  {
    hide NearestCycleDate;
  }

  // ---------- Balances after an import ----------

  /** After an import every displayed balance is the balance the last imported payment left, plus the interest charged
      since, minus the payments dated past the import and by then; and the cycles charged are those from the one
      after the import's nearest cycle date on. */
  lemma {:induction false} BalanceAfterImport(terms: Terms, ps: seq<Payment>, i: nat, d: Day)
    requires IsLastImport(ps, i)
    ensures var b := BookOf(terms, ps);
      b.CurrentBalance(d) == ps[i].after + SumInterest(b.Rows(d)) -
        Total(b.payments, (e: Entry) => PastImport(ps[i], e.date) && AtOrBefore(e.date, d))
    ensures forall c: Day :: IsCycleDate(c) ==>
      ((exists r :: r in BookOf(terms, ps).Rows(d) && r.cycleDate == c) <==>
       AtOrBefore(CycleAfter(ps[i]), c) && AtOrBefore(c, d))
  {
    hide NearestCycleDate, LastImport, IsCycleDate, Book.Rows, Book.CurrentBalance, PastImport, Entries;
    hide AtOrBefore, Before, CycleAfter;
    var b := BookOf(terms, ps);
    AnchorAt(ps, i);
    CurrentBalanceConserves(b, d);
    TotalSame(b.payments,
      (e: Entry) => b.Live(e.date) && AtOrBefore(e.date, d),
      (e: Entry) => PastImport(ps[i], e.date) && AtOrBefore(e.date, d));
    forall c: Day | IsCycleDate(c)
      ensures (exists r :: r in b.Rows(d) && r.cycleDate == c) <==> AtOrBefore(CycleAfter(ps[i]), c) && AtOrBefore(c, d)
    {
      ChargedCycles(b, d, c);
      CycleDatePastImport(ps[i], c);
    }
  }

  /** Until the next cycle date, and until something is paid past the import, the balance shown is the one the import
      left. */
  lemma {:induction false} ImportedBalanceIsShown(terms: Terms, ps: seq<Payment>, i: nat, d: Day)
    requires IsLastImport(ps, i) && Before(d, CycleAfter(ps[i]))
    requires forall p <- ps :: PastImport(ps[i], p.date) ==> Before(d, p.date)
    ensures BookOf(terms, ps).CurrentBalance(d) == ps[i].after
  {
    hide NearestCycleDate, LastImport, PastImport, AtOrBefore, Before, CycleIndex, AfterIndex, CycleAt, AdvanceCycle;
    hide ImportAnchor, Book.Live;
    var b := BookOf(terms, ps);
    AnchorAt(ps, i);
    BalanceAfterImport(terms, ps, i, d);
    ImportAnchorChargesTheNextCycle(terms, b.payments, ps[i]);
    AfterAdjoint(d, b.First());
    assert b.Rows(d) == [];
    forall e <- b.payments
      ensures !(PastImport(ps[i], e.date) && AtOrBefore(e.date, d))
    {
      var j :| 0 <= j < |b.payments| && b.payments[j] == e;
      assert ps[j] in ps;
      NotBoth(e.date, d);
    }
    TotalNone(b.payments, (e: Entry) => PastImport(ps[i], e.date) && AtOrBefore(e.date, d));
  }

  lemma NotBoth(a: Day, b: Day)
    ensures !(Before(b, a) && AtOrBefore(a, b))
  {
  }

  /** A payment accepted by the next cycle date stores the balance the import left as the balance before it; on that
      cycle date it is charged interest on it, and not before. */
  lemma {:induction false} PaymentAfterImport(a: Account, i: nat, date: Option<Day>, amount: int, kind: Kind)
    requires IsLastImport(a.payments, i) && !kind.Import?
    ensures var r := Add(a, date, amount, kind).1;
      r.Ok? && AtOrBefore(r.value.date, CycleAfter(a.payments[i])) ==>
        && r.value.before == a.payments[i].after
        && r.value.interest ==
             if r.value.date == CycleAfter(a.payments[i]) then Interest(a.payments[i].after, a.terms.rate) else 0
  {
    hide NearestCycleDate, LastImport, CycleIndex, AfterIndex, CycleAt, AdvanceCycle, PaymentDate;
    hide Interest, Before, NextDueDate, ImportAnchor, IsCycleDate;
    var r := Add(a, date, amount, kind).1;
    if r.Ok? && AtOrBefore(r.value.date, CycleAfter(a.payments[i])) {
      var b, d := BookOf(a.terms, a.payments), r.value.date;
      AnchorAt(a.payments, i);
      ImportAnchorChargesTheNextCycle(a.terms, b.payments, a.payments[i]);
      IndexAdjoint(d, b.First());
      LiveIsCharged(b, d);
      ClosestCycle(d);
      assert b.Closing(b.First() - 1) == b.Base();
      Numbering(b.First());
    }
  }

  // ---------- Balances without imports ----------

  /** Without imports the balance is what was borrowed, plus the interest charged, minus the payments dated on or after
      the start and by then; every cycle date from the start on is charged. */
  lemma {:induction false} BalanceWithoutImports(terms: Terms, ps: seq<Payment>, d: Day)
    requires NoImports(ps)
    ensures var b := BookOf(terms, ps);
      b.CurrentBalance(d) == terms.borrow + SumInterest(b.Rows(d)) -
        Total(b.payments, (e: Entry) => AtOrBefore(terms.start, e.date) && AtOrBefore(e.date, d))
    ensures forall c: Day :: IsCycleDate(c) ==>
      ((exists r :: r in BookOf(terms, ps).Rows(d) && r.cycleDate == c) <==>
       AtOrBefore(terms.start, c) && AtOrBefore(c, d))
  {
    hide LastImport, IsCycleDate, Book.Rows, Book.CurrentBalance, Entries, AtOrBefore, Before;
    var b := BookOf(terms, ps);
    SomeLastImport(ps);
    CurrentBalanceConserves(b, d);
    TotalSame(b.payments,
      (e: Entry) => b.Live(e.date) && AtOrBefore(e.date, d),
      (e: Entry) => AtOrBefore(terms.start, e.date) && AtOrBefore(e.date, d));
    forall c: Day | IsCycleDate(c)
      ensures (exists r :: r in b.Rows(d) && r.cycleDate == c) <==> AtOrBefore(terms.start, c) && AtOrBefore(c, d)
    {
      ChargedCycles(b, d, c);
    }
  }

  // ---------- Which payments are accepted, and when ----------

  /** After the last payment (or the start) and not before the cycle after the last import. */
  ghost predicate NextInLine(a: Account, c: Day) {
    && IsCycleDate(c)
    && Before(if a.payments == [] then a.terms.start else a.payments[|a.payments| - 1].date, c)
    && (forall i: nat :: IsLastImport(a.payments, i) ==> AtOrBefore(CycleAfter(a.payments[i]), c))
  }

  /** An automatic payment, or one without a date, is accepted exactly on an open or active account; it is dated at
      the least cycle date in line. */
  lemma {:induction false} AutomaticPaymentIsNextInLine(a: Account, date: Option<Day>, amount: int, kind: Kind)
    requires kind.Auto? || (kind.Manual? && date.None?)
    ensures var r := Add(a, date, amount, kind).1;
      && (r.Ok? <==> a.status.Open? || a.status.Active?)
      && (r.Err? ==> r.error == AccountIs(a.status))
      && (r.Ok? ==> NextInLine(a, r.value.date) &&
                    forall c: Day :: NextInLine(a, c) ==> AtOrBefore(r.value.date, c))
  {
    hide NextDueDate, IsCycleDate, BalanceBefore, InterestOn, AnchorOf, Reference, NextInLine;
    hide AtOrBefore, Before, Insert;
    var d := NextDueDate(Reference(a));
    NextDueDateIsLeast(Reference(a));
    forall c: Day
      ensures NextInLine(a, c) <==> IsCycleDate(c) && Before(Reference(a), c)
    {
      InLineIsAfterReference(a, c);
    }
    AfterReferenceIsAfterAnchor(a, d);
  }

  lemma AfterReferenceIsAfterAnchor(a: Account, d: Day)
    requires Before(Reference(a), d)
    ensures AnchorOf(a.payments).Some? ==> !AtOrBefore(d, AnchorOf(a.payments).value.date)
  {
    hide AnchorOf;
  }

  lemma InLineIsAfterReference(a: Account, c: Day)
    ensures NextInLine(a, c) <==> IsCycleDate(c) && Before(Reference(a), c)
  {
    hide AdvanceCycle, NearestCycleDate, LastImport, ImportAnchor, PastImport, CycleAfter, AtOrBefore, IsCycleDate;
    SomeLastImport(a.payments);
    forall i: nat | IsLastImport(a.payments, i)
      ensures AnchorOf(a.payments).Some?
      ensures IsCycleDate(c) ==>
        (Before(AnchorOf(a.payments).value.date, c) <==> AtOrBefore(CycleAfter(a.payments[i]), c))
    {
      AnchorAt(a.payments, i);
      if IsCycleDate(c) {
        CycleDatePastImport(a.payments[i], c);
      }
    }
    if NoImports(a.payments) {
      NoLastImport(a.payments);
    }
  }

  lemma NoLastImport(ps: seq<Payment>)
    requires NoImports(ps)
    ensures forall i: nat :: !IsLastImport(ps, i)
  {
  }

  /** A payment dated by hand is accepted exactly on an open or active account and past the last import; the reason of
      a refusal is the status, or else the import. */
  lemma {:induction false} ManualPaymentAcceptedIff(a: Account, d: Day, amount: int)
    ensures var r := Add(a, Some(d), amount, Manual).1;
      && (r.Ok? <==>
            (a.status.Open? || a.status.Active?) &&
            (forall i: nat :: IsLastImport(a.payments, i) ==> PastImport(a.payments[i], d)))
      && (r.Err? && (a.status.Paid? || a.status.Closed?) ==> r.error == AccountIs(a.status))
      && (r.Err? && (a.status.Open? || a.status.Active?) ==> r.error.InsideImportedHistory?)
  {
    hide NearestCycleDate, LastImport, ImportAnchor, PastImport, RecordNative, Before;
    SomeLastImport(a.payments);
    forall i: nat | IsLastImport(a.payments, i)
      ensures AnchorOf(a.payments).Some?
      ensures Before(AnchorOf(a.payments).value.date, d) <==> PastImport(a.payments[i], d)
    {
      AnchorAt(a.payments, i);
    }
    if NoImports(a.payments) {
      NoLastImport(a.payments);
    }
  }

  /** What an accepted payment stores adds up; it is charged interest exactly on a cycle date that the ledger charges,
      on the balance before it. */
  lemma {:induction false} StoredSnapshotAddsUp(a: Account, date: Option<Day>, amount: int, kind: Kind)
    requires !kind.Import?
    ensures var r := Add(a, date, amount, kind).1;
      r.Ok? ==>
        var p, rows := r.value, BookOf(a.terms, a.payments).Rows(r.value.date);
        && p.after == p.before + p.interest - amount
        && (forall row <- rows :: row.cycleDate == p.date ==> p.before == row.opening && p.interest == row.interest)
        && ((forall row <- rows :: row.cycleDate != p.date) ==> p.interest == 0)
  {
    hide Book.Rows, BalanceBefore, InterestOn, NextDueDate, PaymentDate, AnchorOf, AtOrBefore, Before;
    var r := Add(a, date, amount, kind).1;
    if r.Ok? {
      var b, d := BookOf(a.terms, a.payments), r.value.date;
      SnapshotFromRows(b, d);
      OnlyLastRowIsOn(b, d);
    }
  }

  lemma OnlyLastRowIsOn(b: Book, d: Day)
    ensures var rows := b.Rows(d);
      forall row <- rows :: row.cycleDate == d ==> row == rows[|rows| - 1]
  {
    hide CycleIndex, CycleAt, IsCycleDate, AfterIndex, Book.Closing, Book.First;
    var rows := b.Rows(d);
    forall row | row in rows && row.cycleDate == d
      ensures row == rows[|rows| - 1]
    {
      var i :| 0 <= i < |rows| && rows[i] == row;
      var k := b.First() + i;
      assert row == b.Row(k);
      Numbering(k);
      assert AfterIndex(d) == k + 1;
    }
  }
}
