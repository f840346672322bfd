/** The payments of a loan account and the ledger snapshot each one stores.

    Three writers must agree: recording a payment, the importer (`AppendImports`), and the
    recalculation after a deletion.  `RecordNative` and `RecordImport` say what a payment recorded after a given
    history stores; `LoanAccount` has the methods that read projected rows and overwrite the table.
 */
module Payments {
  import opened Options
  import opened Calendar
  import opened Ledger

  datatype Status = Open | Active | Paid | Closed

  datatype Error = AccountIs(status: Status) | InsideImportedHistory(anchor: Day) | PaymentNotFound

  datatype Result<+T> = Ok(value: T) | Err(error: Error)

  /** The payments are in query order: by date, in order of insertion among equal dates. */
  datatype Account = Account(terms: Terms, status: Status, payments: seq<Payment>)

  predicate ByDate(ps: seq<Payment>) {
    forall i, j :: 0 <= i < j < |ps| ==> AtOrBefore(ps[i].date, ps[j].date)
  }

  function Entries(ps: seq<Payment>): seq<Entry> {
    seq<Entry>(|ps|, i requires 0 <= i < |ps| => Entry(ps[i].date, ps[i].amount))
  }

  function BookOf(terms: Terms, ps: seq<Payment>): Book {
    Book(terms, Entries(ps), AnchorOf(ps))
  }

  // ---------- What a payment stores ----------

  /** The balance before cycle k, where k is the cycle a payment on this date falls in. */
  function BalanceBefore(b: Book, d: Day): int {
    b.Closing(CycleIndex(d) - 1)
  }

  /** Interest is charged on a charged cycle date itself, and on no other date. */
  function InterestOn(b: Book, d: Day): int {
    if IsCycleDate(d) && b.First() <= CycleIndex(d) then Interest(BalanceBefore(b, d), b.terms.rate) else 0
  }

  function RecordNative(terms: Terms, history: seq<Payment>, date: Day, amount: int, kind: Kind): Payment {
    var b := BookOf(terms, history);
    Payment(date, amount, kind, BalanceBefore(b, date), InterestOn(b, date),
            BalanceBefore(b, date) + InterestOn(b, date) - amount, NextDueDate(date))
  }

  function RunningBalance(terms: Terms, history: seq<Payment>): int {
    if history == [] then terms.borrow else history[|history| - 1].after
  }

  function RecordImport(terms: Terms, history: seq<Payment>, date: Day, amount: int, interest: int): Payment {
    var before := RunningBalance(terms, history);
    Payment(date, amount, Import, before, interest, before + interest - amount, NextDueDate(date))
  }

  /** The stored payment with its snapshot as recording it after this history would give. */
  function Rewrite(terms: Terms, history: seq<Payment>, p: Payment): Payment {
    if p.kind.Import? then RecordImport(terms, history, p.date, p.amount, p.interest)
    else RecordNative(terms, history, p.date, p.amount, p.kind)
  }

  /** The whole history recorded again from nothing. */
  function Replay(terms: Terms, ps: seq<Payment>): (replayed: seq<Payment>)
    ensures |replayed| == |ps|
  {
    if ps == [] then []
    else
      var before := Replay(terms, ps[..|ps| - 1]);
      before + [Rewrite(terms, before, ps[|ps| - 1])]
  }

  // ---------- The operations on an account ----------

  /** Where a payment on this date goes: after every payment dated on or before it. */
  function InsertionPoint(ps: seq<Payment>, d: Day): (i: nat)
    ensures i <= |ps|
  {
    if ps != [] && Before(d, ps[|ps| - 1].date) then InsertionPoint(ps[..|ps| - 1], d) else |ps|
  }

  function Insert(ps: seq<Payment>, p: Payment): seq<Payment> {
    var i := InsertionPoint(ps, p.date);
    ps[..i] + [p] + ps[i..]
  }

  /** The date after which an automatic payment is due. */
  function Reference(a: Account): Day {
    var last := if a.payments == [] then a.terms.start else a.payments[|a.payments| - 1].date;
    var anchor := AnchorOf(a.payments);
    if anchor.Some? then Later(last, anchor.value.date) else last
  }

  function PaymentDate(a: Account, date: Option<Day>, kind: Kind): Day {
    if date.None? || kind.Auto? then NextDueDate(Reference(a)) else date.value
  }

  /** Recording a payment: refused on a settled account or inside imported history. */
  function Add(a: Account, date: Option<Day>, amount: int, kind: Kind): (Account, Result<Payment>) {
    var d, anchor := PaymentDate(a, date, kind), AnchorOf(a.payments);
    if a.status.Paid? || a.status.Closed? then (a, Err(AccountIs(a.status)))
    else if anchor.Some? && AtOrBefore(d, anchor.value.date) then (a, Err(InsideImportedHistory(anchor.value.date)))
    else
      var p := RecordNative(a.terms, a.payments, d, amount, kind);
      (Account(a.terms, if p.after <= 0 then Paid else Active, Insert(a.payments, p)), Ok(p))
  }

  function Recalculated(a: Account): Account {
    var ps := Replay(a.terms, a.payments);
    Account(a.terms,
            if a.status.Closed? then Closed
            else if ps == [] then Open
            else if ps[|ps| - 1].after <= 0 then Paid else Active,
            ps)
  }

  function Deleted(a: Account, i: nat): Account
    requires i < |a.payments|
  {
    Recalculated(a.(payments := a.payments[..i] + a.payments[i + 1..]))
  }

  datatype ImportItem = ImportItem(date: Day, amount: int, interest: int)

  function LastDate(terms: Terms, ps: seq<Payment>): Day {
    if ps == [] then terms.start else ps[|ps| - 1].date
  }

  /** Imported items chained onto a history; one dated before the history's end is left out. */
  function AppendImports(terms: Terms, ps: seq<Payment>, items: seq<ImportItem>): seq<Payment> {
    if items == [] then ps
    else
      var before, it := AppendImports(terms, ps, items[..|items| - 1]), items[|items| - 1];
      if Before(it.date, LastDate(terms, before)) then before
      else before + [RecordImport(terms, before, it.date, it.amount, it.interest)]
  }

  function StatusAfterImport(status: Status, balance: int): Status {
    if balance <= 0 then Paid else if status.Open? then Active else status
  }

  /** The import of one reference's items into an account. */
  function Imported(a: Account, items: seq<ImportItem>): Account {
    var ps := AppendImports(a.terms, a.payments, items);
    Account(a.terms, StatusAfterImport(a.status, RunningBalance(a.terms, ps)), ps)
  }

  // ---------- Reading a snapshot off the projected rows ----------

  /** What `add_payment` and `recalculate_ledger` read off the rows projected up to the payment's date. */
  lemma SnapshotFromRows(b: Book, d: Day)
    ensures var rows := b.Rows(d);
      && (rows != [] && rows[|rows| - 1].cycleDate == d ==>
        rows[|rows| - 1].opening == BalanceBefore(b, d) && rows[|rows| - 1].interest == InterestOn(b, d))
      && (rows != [] && rows[|rows| - 1].cycleDate != d ==>
        rows[|rows| - 1].closing == BalanceBefore(b, d) && InterestOn(b, d) == 0)
      && (rows == [] ==> b.Base() == BalanceBefore(b, d) && InterestOn(b, d) == 0)
  {
    hide CycleAt, CycleIndex, AfterIndex, IsCycleDate, Interest, Book.First, Book.Base, Book.Paid;
    var rows, k := b.Rows(d), CycleIndex(d);
    ClosestCycle(d);
    if rows != [] {
      assert rows[|rows| - 1] == b.Row(AfterIndex(d) - 1);
    }
  }

  lemma ClosestCycle(d: Day)
    ensures AfterIndex(d) == if IsCycleDate(d) then CycleIndex(d) + 1 else CycleIndex(d)
    ensures IsCycleDate(d) <==> CycleAt(CycleIndex(d)) == d
    ensures CycleAt(AfterIndex(d) - 1) == d <==> IsCycleDate(d)
  {
    hide CycleAt, CycleIndex, IsCycleDate;
    Numbering(CycleIndex(d));
    Numbering(AfterIndex(d) - 1);
    if IsCycleDate(d) {
      NumberedAt(d);
    }
  }

  class LoanAccount {
    const terms: Terms
    var status: Status
    var payments: seq<Payment>

    ghost predicate Valid()
      reads this
    {
      ByDate(payments)
    }

    function Value(): Account
      reads this
    {
      Account(terms, status, payments)
    }

    constructor (terms: Terms)
      ensures Valid() && Value() == Account(terms, Open, [])
    {
      this.terms := terms;
      status := Open;
      payments := [];
    }

    /** The snapshot of a payment on this date after the given history. */
    static method Snapshot(terms: Terms, history: seq<Entry>, anchor: Option<Anchor>, date: Day)
        returns (before: int, interest: int)
      ensures var b := Book(terms, history, anchor);
        before == BalanceBefore(b, date) && interest == InterestOn(b, date)
    {
      hide CycleAt, CycleIndex, AfterIndex, IsCycleDate, BalanceBefore, InterestOn, Book.Rows;
      var rows := ProjectLedger(terms, history, date, anchor);
      SnapshotFromRows(Book(terms, history, anchor), date);
      if rows != [] && rows[|rows| - 1].cycleDate == date {
        before, interest := rows[|rows| - 1].opening, rows[|rows| - 1].interest;
      } else if rows != [] {
        before, interest := rows[|rows| - 1].closing, 0;
      } else {
        before, interest := if anchor.Some? then anchor.value.balance else terms.borrow, 0;
      }
    }

    /** The date given, or for an automatic payment the cycle date following the last payment (or the start
        date), past the imported cycle if there is one. */
    method ResolveDate(date: Option<Day>, kind: Kind, anchor: Option<Anchor>) returns (d: Day)
      requires anchor == AnchorOf(payments)
      ensures d == PaymentDate(Value(), date, kind)
    {
      hide CycleAt, CycleIndex, AfterIndex, IsCycleDate;
      if date.None? || kind.Auto? {
        var ref := if payments != [] then payments[|payments| - 1].date else terms.start;
        if anchor.Some? {
          ref := Later(ref, anchor.value.date);
        }
        NextCycleDateIsLeast(ref);
        d := NextCycleDate(ref);
        if AtOrBefore(d, ref) {
          assert d == ref;
          d := AdvanceCycle(d);
        }
      } else {
        d := date.value;
      }
    }

    method AddPayment(date: Option<Day>, amount: int, kind: Kind) returns (r: Result<Payment>)
      requires Valid() && !kind.Import?
      modifies this
      ensures Valid()
      ensures (Value(), r) == Add(old(Value()), date, amount, kind)
    {
      hide BalanceBefore, InterestOn, NextDueDate, AtOrBefore, PaymentDate;
      if status.Paid? || status.Closed? {
        return Err(AccountIs(status));
      }
      var anchor := LedgerAnchor(payments);
      var d := ResolveDate(date, kind, anchor);
      if anchor.Some? && AtOrBefore(d, anchor.value.date) {
        return Err(InsideImportedHistory(anchor.value.date));
      }
      var before, interest := Snapshot(terms, Entries(payments), anchor, d);
      var after := before + interest - amount;
      var payment := Payment(d, amount, kind, before, interest, after, NextDueDate(d));
      InsertKeepsOrder(payments, payment);
      payments := Insert(payments, payment);
      var newStatus := status;
      if status.Open? {
        newStatus := Active;
      }
      if after <= 0 {
        newStatus := Paid;
      }
      status := newStatus;
      return Ok(payment);
    }

    method RecalculateLedger()
      requires Valid()
      modifies this
      ensures Valid()
      ensures Value() == Recalculated(old(Value()))
    {
      hide BalanceBefore, InterestOn, NextDueDate, AtOrBefore, AnchorOf, Entries, Replay, ImportAnchor;
      ghost var was := payments;
      assert was[..0] == [] && was[..|was|] == was;
      NothingYet(terms);
      if payments == [] {
        if !status.Closed? {
          status := Open;
        }
        return;
      }
      var history: seq<Entry>, anchor: Option<Anchor>, running := [], None, terms.borrow;
      for i := 0 to |payments|
        invariant status == old(status)
        invariant |payments| == |was| && payments[i..] == was[i..]
        invariant payments[..i] == Replay(terms, was[..i])
        invariant history == Entries(payments[..i])
        invariant anchor == AnchorOf(payments[..i])
        invariant running == RunningBalance(terms, payments[..i])
      {
        var p := payments[i];
        ghost var done := payments[..i];
        var before, interest;
        if p.kind.Import? {
          before, interest := running, p.interest;
        } else {
          before, interest := Snapshot(terms, history, anchor, p.date);
        }
        var after := before + interest - p.amount;
        var rewritten := Payment(p.date, p.amount, p.kind, before, interest, after, NextDueDate(p.date));
        payments := payments[i := rewritten];
        assert payments[..i + 1] == done + [rewritten];
        history := history + [Entry(p.date, p.amount)];
        running := after;
        if p.kind.Import? {
          anchor := LedgerAnchor([rewritten]);
        }
        ReplayOneMore(terms, was, i, rewritten);
        AnchorOneMore(done, rewritten);
      }
      assert payments[..|payments|] == payments;
      ReplayKeepsFacts(terms, was);
      if !status.Closed? {
        status := if running <= 0 then Paid else Active;
      }
    }

    method DeletePayment(i: nat) returns (r: Result<()>)
      requires Valid()
      modifies this
      ensures Valid()
      ensures i >= |old(payments)| ==> r == Err(PaymentNotFound) && Value() == old(Value())
      ensures i < |old(payments)| ==> r == Ok(()) && Value() == Deleted(old(Value()), i)
    {
      hide Replay, AtOrBefore;
      if i >= |payments| {
        return Err(PaymentNotFound);
      }
      payments := payments[..i] + payments[i + 1..];
      RecalculateLedger();
      return Ok(());
    }
  }

  lemma {:induction false} InsertPosition(ps: seq<Payment>, d: Day)
    requires ByDate(ps)
    ensures var i := InsertionPoint(ps, d);
      && (forall j :: 0 <= j < i ==> AtOrBefore(ps[j].date, d))
      && (forall j :: i <= j < |ps| ==> Before(d, ps[j].date))
  {
    if ps != [] {
      InsertPosition(ps[..|ps| - 1], d);
    }
  }

  lemma InsertKeepsOrder(ps: seq<Payment>, p: Payment)
    requires ByDate(ps)
    ensures ByDate(Insert(ps, p))
  {
    InsertPosition(ps, p.date);
  }

  lemma NothingYet(terms: Terms)
    ensures AnchorOf([]) == None && Entries([]) == [] && Replay(terms, []) == []
  {
  }

  lemma ReplayOneMore(terms: Terms, ps: seq<Payment>, i: nat, rewritten: Payment)
    requires i < |ps| && rewritten == Rewrite(terms, Replay(terms, ps[..i]), ps[i])
    ensures Replay(terms, ps[..i + 1]) == Replay(terms, ps[..i]) + [rewritten]
  {
    hide RecordNative, RecordImport;
    assert ps[..i + 1][..i] == ps[..i];
  }

  lemma AnchorOneMore(ps: seq<Payment>, p: Payment)
    ensures AnchorOf(ps + [p]) == if p.kind.Import? then Some(ImportAnchor(p)) else AnchorOf(ps)
    ensures p.kind.Import? ==> AnchorOf([p]) == Some(ImportAnchor(p))
    ensures Entries(ps + [p]) == Entries(ps) + [Entry(p.date, p.amount)]
  {
  }

  /** Replaying keeps dates, amounts and kinds. */
  lemma {:induction false} ReplayKeepsFacts(terms: Terms, ps: seq<Payment>)
    ensures forall i :: 0 <= i < |ps| ==>
      var q := Replay(terms, ps)[i]; q.date == ps[i].date && q.amount == ps[i].amount && q.kind == ps[i].kind
    ensures ByDate(ps) ==> ByDate(Replay(terms, ps))
  {
    hide BalanceBefore, InterestOn, NextDueDate, AtOrBefore;
    if ps != [] {
      ReplayKeepsFacts(terms, ps[..|ps| - 1]);
    }
  }
}
