/** Inputs at which the stored ledger does something a reader may not expect. */
module Witnesses {
  import opened Options
  import opened Calendar
  import opened Ledger
  import DeletionLaws
  import LedgerLaws
  import opened Payments
  import opened ReplayLaws
  import opened SettledLaws
  import SnapshotLaws

  // ---------- Recalculating the status ----------

  /** An import charging more interest than it pays leaves a paid account paid that owes 4 cents. */
  lemma ImportLeavesPaidAccountPaid(start: Day, later: Day)
    requires AtOrBefore(start, later)
    ensures var a := Run(Terms(100, 500, start),
      [ImportItems([ImportItem(start, 100, 0)]), ImportItems([ImportItem(later, 1, 5)])]);
      a.status == Paid && |a.payments| == 2 && a.payments[1].after == 4 && Recalculated(a).status == Active
  {
    hide NextDueDate, AtOrBefore, Replay;
    var terms, first, second := Terms(100, 500, start), ImportItem(start, 100, 0), ImportItem(later, 1, 5);
    var ws := [ImportItems([first]), ImportItems([second])];
    NotBefore(start, start);
    NotBefore(start, later);
    OneImport(terms, [], first);
    var one := Account(terms, Paid, [RecordImport(terms, [], start, 100, 0)]);
    assert ws[..1][..0] == [] && [] + one.payments == one.payments;
    assert Run(terms, ws[..1]) == one;
    OneImport(terms, one.payments, second);
    assert Run(terms, ws) == Step(one, ws[1]);
    assert RunInOrder(terms, ws);
    RunInOrderIsUndisturbed(terms, ws);
    RecalculationReproducesTheStatusIff(terms, ws);
  }

  lemma OneImport(terms: Terms, ps: seq<Payment>, it: ImportItem)
    requires !Before(it.date, LastDate(terms, ps))
    ensures AppendImports(terms, ps, [it]) == ps + [RecordImport(terms, ps, it.date, it.amount, it.interest)]
  {
  }

  lemma NotBefore(a: Day, b: Day)
    ensures AtOrBefore(a, b) <==> !Before(b, a)
    ensures AtOrBefore(a, a)
  {
  }

  /** An import whose only payment is dated before the account's start records nothing, yet opens the account. */
  lemma EmptyImportActivates(start: Day, earlier: Day)
    requires Before(earlier, start)
    ensures var a := Run(Terms(100, 500, start), [ImportItems([ImportItem(earlier, 100, 0)])]);
      a.status == Active && a.payments == [] && Recalculated(a).status == Open
  {
    hide AtOrBefore, Before;
    var terms, item := Terms(100, 500, start), ImportItem(earlier, 100, 0);
    NoPaymentsYet(terms, item);
    var ws := [ImportItems([item])];
    assert Run(terms, ws) == Step(Run(terms, ws[..0]), ws[0]);
  }

  lemma NoPaymentsYet(terms: Terms, it: ImportItem)
    requires Before(it.date, terms.start)
    ensures AppendImports(terms, [], [it]) == [] && Replay(terms, []) == []
  {
    assert [it][..0] == [];
  }

  // ---------- Backdated payments ----------

  const LOAN := Terms(10000, 500, Date(2024, 1, 1))
  const EARLY: Day := Date(2024, 1, 10)
  const LATE: Day := Date(2024, 1, 20)

  lemma TheirCycles()
    ensures var k := CycleIndex(LOAN.start);
      && CycleIndex(EARLY) == k && CycleIndex(LATE) == k + 1 && !IsCycleDate(EARLY) && !IsCycleDate(LATE)
      && AtOrBefore(LOAN.start, EARLY) && Before(EARLY, LATE)
  {
  }

  /** What a payment of 10.00 on 20 January stores after at most one payment of 10.00 on 10 January. */
  lemma LatePayment(history: seq<Payment>)
    requires history == [] || (|history| == 1 && EarlyOne(history[0]))
    ensures RecordNative(LOAN, history, LATE, 1000, Manual).after == if history == [] then 9500 else 8500
  {
    hide CycleIndex, IsCycleDate, AtOrBefore, Before, NextDueDate, Book.Paid, LastImport;
    TheirCycles();
    var b, k := BookOf(LOAN, history), CycleIndex(LOAN.start);
    NoAnchor(history);
    PaidEarly(b);
    assert b.Closing(k - 1) == 10000 && Interest(10000, 500) == 500;
    assert b.Closing(k) == 10500 - b.Paid(k);
  }

  lemma NoAnchor(history: seq<Payment>)
    requires history == [] || (|history| == 1 && !history[0].kind.Import?)
    ensures AnchorOf(history) == None
    ensures |history| == 1 ==> Entries(history) == [Entry(history[0].date, history[0].amount)]
  {
    hide LastImport;
    NativeTail(history, 0);
    NothingYet(LOAN);
    assert history[..0] == [];
  }

  lemma PaidEarly(b: Book)
    requires b.terms == LOAN && b.anchor == None && (b.payments == [] || b.payments == [Entry(EARLY, 1000)])
    ensures b.Paid(CycleIndex(LOAN.start)) == if b.payments == [] then 0 else 1000
  {
    hide CycleIndex, AtOrBefore;
    TheirCycles();
    TotalOneMore([], Entry(EARLY, 1000), (e: Entry) => b.Live(e.date) && CycleIndex(e.date) == CycleIndex(LOAN.start));
    assert [] + [Entry(EARLY, 1000)] == [Entry(EARLY, 1000)];
  }

  predicate EarlyOne(p: Payment) {
    p.date == EARLY && p.amount == 1000 && p.kind == Manual
  }

  lemma EarlyPayment(late: Payment)
    requires late.date == LATE && late.kind == Manual
    ensures RecordNative(LOAN, [late], EARLY, 1000, Manual).after == 9000
  {
    hide CycleIndex, IsCycleDate, AtOrBefore, Before, NextDueDate, LastImport;
    TheirCycles();
    NoAnchor([late]);
    assert BookOf(LOAN, [late]).Closing(CycleIndex(LOAN.start) - 1) == 10000;
  }

  lemma ReplayTwo(terms: Terms, p: Payment, q: Payment)
    ensures Replay(terms, [p, q]) == [Rewrite(terms, [], p), Rewrite(terms, [Rewrite(terms, [], p)], q)]
  {
    hide Rewrite, Replay;
    var ps := [p, q];
    NothingYet(terms);
    ReplayOneMore(terms, ps, 0, Rewrite(terms, [], p));
    assert ps[..0] == [] && ps[..1] == [p] && ps[..2] == ps;
    assert Replay(terms, ps[..1]) == [Rewrite(terms, [], p)];
    ReplayOneMore(terms, ps, 1, Rewrite(terms, [Rewrite(terms, [], p)], q));
  }

  lemma Recording(a: Account, d: Day, p: Payment)
    requires (a.status.Open? || a.status.Active?) && AnchorOf(a.payments) == None
    requires p == RecordNative(a.terms, a.payments, d, 1000, Manual) && p.after > 0
    ensures Step(a, Pay(Some(d), 1000, Manual)) == Account(a.terms, Active, Insert(a.payments, p))
  {
    hide RecordNative, AnchorOf, Insert;
  }

  lemma Insertions(early: Payment, late: Payment)
    requires Before(early.date, late.date) && !late.kind.Import?
    ensures Insert([], late) == [late] && Insert([late], early) == [early, late]
    ensures AnchorOf([]) == None && AnchorOf([late]) == None
  {
    assert [late][..0] == [];
  }

  /** Of a loan of 100.00 at 5%, 10.00 are paid on 20 January and then 10.00 backdated to 10 January.  The payment of
      20 January keeps the 95.00 it left without the other one, where recalculation gives 85.00. */
  lemma {:induction false} BackdatedPaymentLeavesAStaleBalance()
    ensures var a := Run(LOAN, [Pay(Some(LATE), 1000, Manual), Pay(Some(EARLY), 1000, Manual)]);
      && |a.payments| == 2 && a.payments[1].date == LATE && a.payments[1].after == 9500
      && |Recalculated(a).payments| == 2 && Recalculated(a).payments[1].after == 8500
  {
    hide BalanceBefore, InterestOn, Replay, NextDueDate, Run, Step, Insert, Before, AnchorOf;
    var late := RecordNative(LOAN, [], LATE, 1000, Manual);
    var early := RecordNative(LOAN, [late], EARLY, 1000, Manual);
    TheirCycles();
    LatePayment([]);
    EarlyPayment(late);
    Insertions(early, late);
    Recording(Account(LOAN, Open, []), LATE, late);
    Recording(Account(LOAN, Active, [late]), EARLY, early);
    var ws := [Pay(Some(LATE), 1000, Manual), Pay(Some(EARLY), 1000, Manual)];
    Nothing(LOAN);
    RunOneMore(LOAN, ws[..1]);
    RunOneMore(LOAN, ws);
    assert ws[..1][..0] == [];
    ReplayTwo(LOAN, early, late);
    LatePayment([Rewrite(LOAN, [], early)]);
  }

  // ---------- A backdated payment that settles the account ----------

  const EARLIER: Day := Date(2024, 1, 5)

  /** What a payment in the first cycle stores: the whole loan before it, and no interest. */
  function FirstCyclePayment(d: Day, amount: int): Payment {
    Payment(d, amount, Manual, 10000, 0, 10000 - amount, NextDueDate(d))
  }

  predicate InFirstCycle(ps: seq<Payment>) {
    forall p <- ps :: (p.date == EARLIER || p.date == EARLY) && p == FirstCyclePayment(p.date, p.amount)
  }

  lemma RecordedInFirstCycle(ps: seq<Payment>, d: Day, amount: int)
    requires AnchorOf(ps) == None && (d == EARLIER || d == EARLY)
    ensures RecordNative(LOAN, ps, d, amount, Manual) == FirstCyclePayment(d, amount)
    ensures CycleIndex(d) == CycleIndex(LOAN.start)
  {
    hide NextDueDate, Interest, Book.Paid, AnchorOf;
  }

  lemma {:induction false} FirstCycleHasNoAnchor(ps: seq<Payment>)
    requires InFirstCycle(ps)
    ensures AnchorOf(ps) == None
  {
    hide NextDueDate;
    if ps != [] {
      FirstCycleHasNoAnchor(ps[..|ps| - 1]);
    }
  }

  lemma {:induction false} FirstCycleIsReplayed(ps: seq<Payment>)
    requires InFirstCycle(ps)
    ensures Replay(LOAN, ps) == ps
  {
    hide NextDueDate, RecordNative, AnchorOf;
    if ps != [] {
      var init, p := ps[..|ps| - 1], ps[|ps| - 1];
      FirstCycleIsReplayed(init);
      FirstCycleHasNoAnchor(init);
      RecordedInFirstCycle(init, p.date, p.amount);
      assert ps == init + [p];
    }
  }

  lemma PayInFirstCycle(a: Account, d: Day, amount: int)
    requires a.terms == LOAN && (a.status.Open? || a.status.Active?) && InFirstCycle(a.payments)
    requires d == EARLIER || d == EARLY
    ensures Step(a, Pay(Some(d), amount, Manual)) ==
      Account(LOAN, if amount >= 10000 then Paid else Active, Insert(a.payments, FirstCyclePayment(d, amount)))
  {
    hide RecordNative, AnchorOf, Insert, NextDueDate, InFirstCycle;
    FirstCycleHasNoAnchor(a.payments);
    RecordedInFirstCycle(a.payments, d, amount);
  }

  const SETTLING := [Pay(Some(EARLY), 10, Manual), Pay(Some(EARLY), 20, Manual), Pay(Some(EARLIER), 10000, Manual)]

  lemma {:induction false} AfterSettling()
    ensures Run(LOAN, SETTLING) == Account(LOAN, Paid,
      [FirstCyclePayment(EARLIER, 10000), FirstCyclePayment(EARLY, 10), FirstCyclePayment(EARLY, 20)])
  {
    hide Run, Step, NextDueDate, Before;
    var p, q, r := FirstCyclePayment(EARLIER, 10000), FirstCyclePayment(EARLY, 10), FirstCyclePayment(EARLY, 20);
    InsertSettling(p, q, r);
    Nothing(LOAN);
    RunOneMore(LOAN, SETTLING[..1]);
    RunOneMore(LOAN, SETTLING[..2]);
    RunOneMore(LOAN, SETTLING);
    assert SETTLING[..1][..0] == [] && SETTLING[..2][..1] == SETTLING[..1];
    PayInFirstCycle(Account(LOAN, Open, []), EARLY, 10);
    PayInFirstCycle(Account(LOAN, Active, [q]), EARLY, 20);
    PayInFirstCycle(Account(LOAN, Active, [q, r]), EARLIER, 10000);
  }

  lemma InsertSettling(p: Payment, q: Payment, r: Payment)
    requires p.date == EARLIER && q.date == EARLY && r.date == EARLY
    ensures Insert([], q) == [q] && Insert([q], r) == [q, r] && Insert([q, r], p) == [p, q, r]
  {
    assert [q, r][..1] == [q] && [q][..0] == [];
    assert InsertionPoint([q], EARLIER) == 0;
  }

  /** Of a loan of 100.00, 0.10 and 0.20 are paid on 10 January and then all of it is backdated to 5 January, in the
      same cycle.  The account is paid with a last stored balance of 99.80; recalculation changes no snapshot but
      makes the account active. */
  lemma BackdatedSettlementLeavesABalance()
    ensures var a := Run(LOAN, SETTLING);
      && a.status == Paid && |a.payments| == 3 && a.payments[2].after == 9980
      && Recalculated(a) == a.(status := Active)
  {
    hide Run, Replay, NextDueDate;
    AfterSettling();
    FirstCycleIsReplayed(Run(LOAN, SETTLING).payments);
  }

  /** Deleting the last of them leaves an active account with two payments; of those two recorded by date, the
      second is refused. */
  lemma {:induction false} DeletionAfterSettlementDiffers()
    ensures |Run(LOAN, SETTLING).payments| == 3
    ensures var a := Run(LOAN, SETTLING);
      var deleted, others := Deleted(a, 2), DeletionLaws.Again(DeletionLaws.Rest(a.payments, 2));
      && deleted.status == Active && |deleted.payments| == 2
      && Run(LOAN, others) == Account(LOAN, Paid, deleted.payments[..1])
  {
    hide Run, Replay, NextDueDate, InFirstCycle;
    AfterSettling();
    var p, q := FirstCyclePayment(EARLIER, 10000), FirstCyclePayment(EARLY, 10);
    var rest := DeletionLaws.Rest(Run(LOAN, SETTLING).payments, 2);
    assert rest == [p, q];
    assert InFirstCycle(rest) by { TwoInFirstCycle(); }
    FirstCycleIsReplayed(rest);
    OthersRecorded();
  }

  lemma TwoInFirstCycle()
    ensures InFirstCycle([FirstCyclePayment(EARLIER, 10000), FirstCyclePayment(EARLY, 10)])
  {
    hide NextDueDate;
  }

  lemma OthersRecorded()
    ensures var p, q := FirstCyclePayment(EARLIER, 10000), FirstCyclePayment(EARLY, 10);
      Run(LOAN, DeletionLaws.Again([p, q])) == Account(LOAN, Paid, [p])
  {
    hide Run, NextDueDate, Step, Insert;
    var p, q := FirstCyclePayment(EARLIER, 10000), FirstCyclePayment(EARLY, 10);
    var others := DeletionLaws.Again([p, q]);
    assert others == [Pay(Some(EARLIER), 10000, Manual), Pay(Some(EARLY), 10, Manual)];
    Nothing(LOAN);
    RunOneMore(LOAN, others[..1]);
    RunOneMore(LOAN, others);
    assert others[..1][..0] == [];
    InsertAtEnd([], p);
    PayInFirstCycle(Account(LOAN, Open, []), EARLIER, 10000);
    assert Insert([], p) == [p];
    assert Run(LOAN, others[..1]) == Account(LOAN, Paid, [p]);
    PaidRefuses(Account(LOAN, Paid, [p]), others[1]);
  }

  lemma PaidRefuses(a: Account, w: Write)
    requires a.status.Paid? && w.Pay?
    ensures Step(a, w) == a
  {
  }

  // ---------- Interest on a paid account ----------

  /** A loan of 100.00 at 5% paid in full on 10 January is paid with a stored balance of 0, and 5.00 are shown as owed
      five days later, the interest of a cycle whose payments count only at its end. */
  lemma PaidAccountOwesInterest()
    ensures var a := Run(LOAN, [Pay(Some(EARLY), 10000, Manual)]);
      && a.status == Paid && |a.payments| == 1 && a.payments[0].after == 0
      && ShownBalance(a, EARLY) == 0 && ShownBalance(a, CLOSE) == 500
  {
    hide Run, Step, Add, NextDueDate, CycleIndex, AfterIndex, IsCycleDate, AtOrBefore, Book.CurrentBalance, AnchorOf;
    hide SnapshotLaws.PaidEarlierInPeriod, LedgerLaws.BalanceAsOf, Book.Closing, Entries;
    var p, ws := FirstCyclePayment(EARLY, 10000), [Pay(Some(EARLY), 10000, Manual)];
    Nothing(LOAN);
    RunOneMore(LOAN, ws);
    assert ws[..0] == [];
    PayInFirstCycle(Account(LOAN, Open, []), EARLY, 10000);
    InsertAtEnd([], p);
    assert Insert([], p) == [p];
    var a, b := Account(LOAN, Paid, [p]), BookOf(LOAN, [p]);
    NoAnchor([p]);
    TheirCycles();
    TheirClose(b);
    ShownToday(a, EARLY, EARLY);
    ShownToday(a, EARLY, CLOSE);
    AfterLastPayment(b, EARLY, CLOSE);
    SnapshotLaws.DisplayedFromSnapshot(b, EARLY);
  }

  const CLOSE: Day := Date(2024, 1, 15)

  lemma CloseIsACycleDate()
    ensures AtOrBefore(EARLY, CLOSE) && AfterIndex(CLOSE) == CycleIndex(LOAN.start) + 1
  {
  }

  lemma TheirClose(b: Book)
    requires b == Book(LOAN, [Entry(EARLY, 10000)], None)
    ensures AtOrBefore(EARLY, EARLY) && AtOrBefore(EARLY, CLOSE) && AfterIndex(CLOSE) == CycleIndex(LOAN.start) + 1
    ensures var k := CycleIndex(LOAN.start); b.Closing(k - 1) == 10000 && b.Closing(k) == 500
    ensures SnapshotLaws.PaidEarlierInPeriod(b, EARLY) == 10000
  {
    hide CycleIndex, AtOrBefore;
    TheirCycles();
    CloseIsACycleDate();
    var k := CycleIndex(LOAN.start);
    TotalOneMore([], Entry(EARLY, 10000), (e: Entry) => b.Live(e.date) && CycleIndex(e.date) == k);
    TotalOneMore([], Entry(EARLY, 10000),
      (e: Entry) => b.Live(e.date) && CycleIndex(e.date) == CycleIndex(EARLY) && AtOrBefore(e.date, EARLY));
    assert [] + [Entry(EARLY, 10000)] == [Entry(EARLY, 10000)];
    SnapshotLaws.OnItself(EARLY);
    assert b.Closing(k) == 10000 + Interest(10000, 500) - b.Paid(k);
  }

  // ---------- A payment before the start ----------

  /** A loan of 100.00 paid back in full on a date before its start is stored as paid with nothing owed, while the
      balance displayed is still 100.00 on that date. */
  lemma PaidBeforeTheStart(start: Day, earlier: Day)
    requires Before(earlier, start)
    ensures var a := Run(Terms(10000, 500, start), [Pay(Some(earlier), 10000, Manual)]);
      && a.status == Paid && |a.payments| == 1 && a.payments[0].date == earlier && a.payments[0].after == 0
      && BookOf(a.terms, a.payments).CurrentBalance(earlier) == 10000
  {
    hide CycleIndex, IsCycleDate, Before, NextDueDate, LastImport, Book.CurrentBalance, Run, Total;
    var account := Account(Terms(10000, 500, start), Open, []);
    var b := BookOf(account.terms, []);
    NoAnchor([]);
    Nothing(account.terms);
    BeforeTheFirst(start, earlier);
    assert b.Closing(CycleIndex(earlier) - 1) == 10000;
    var ws := [Pay(Some(earlier), 10000, Manual)];
    RunOneMore(account.terms, ws);
    assert ws[..0] == [];
    SnapshotLaws.AcceptedPaymentVersusDisplayed(account, Some(earlier), 10000, Manual);
    NothingPaid(b, earlier);
    NoAnchor(Run(account.terms, ws).payments);
  }

  lemma BeforeTheFirst(start: Day, earlier: Day)
    requires Before(earlier, start)
    ensures CycleIndex(earlier) <= CycleIndex(start) && !AtOrBefore(start, earlier)
    ensures IsCycleDate(earlier) ==> CycleIndex(earlier) < CycleIndex(start)
  {
    hide CycleIndex, IsCycleDate, CycleAt;
    IndexMonotone(earlier, start);
    if IsCycleDate(earlier) {
      NumberedAt(earlier);
      IndexAdjoint(start, CycleIndex(earlier));
    }
  }

  lemma NothingPaid(b: Book, d: Day)
    requires b.payments == []
    ensures SnapshotLaws.PaidEarlierInPeriod(b, d) == 0
  {
  }
}
