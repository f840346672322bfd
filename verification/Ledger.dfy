/** The ledger of one loan: interest per cycle, payments per period, replay from an anchor,
    and the one definition of "current balance".

    Amounts are whole cents and rates whole ten-thousandths per cycle.  `Book.Closing` is the
    reference: the balance after the k-th cycle date as a recurrence over cycle numbers.
    `ProjectLedger`, which walks cycle dates and buckets payments by date, is proved to compute it.
 */
module Ledger {
  import opened Options
  import opened Calendar

  datatype Terms = Terms(borrow: int, rate: nat, start: Day)

  datatype Entry = Entry(date: Day, amount: int)

  datatype Anchor = Anchor(date: Day, balance: int)

  /** A stored payment; `before`, `interest`, `after` and `nextDue` are its ledger snapshot. */
  datatype Payment = Payment(date: Day, amount: int, kind: Kind, before: int, interest: int, after: int, nextDue: Day)

  datatype Kind = Auto | Manual | Import

  datatype CycleRow = CycleRow(cycleDate: Day, opening: int, interest: int, paid: int, closing: int)

  /** balance * rate, rounded to a cent with halves away from zero. */
  function Interest(balance: int, rate: nat): int {
    var product := balance * rate;
    if product >= 0 then (product + 5000) / 10000 else -((-product + 5000) / 10000)
  }

  /** The amounts of the entries that satisfy `keep`. */
  function Total(ps: seq<Entry>, keep: Entry -> bool): int {
    if ps == [] then 0
    else
      var last := ps[|ps| - 1];
      Total(ps[..|ps| - 1], keep) + (if keep(last) then last.amount else 0)
  }

  function Filter(ps: seq<Entry>, keep: Entry -> bool): seq<Entry> {
    if ps == [] then []
    else
      var last := ps[|ps| - 1];
      Filter(ps[..|ps| - 1], keep) + (if keep(last) then [last] else [])
  }

  function SumInterest(rows: seq<CycleRow>): int {
    if rows == [] then 0 else SumInterest(rows[..|rows| - 1]) + rows[|rows| - 1].interest
  }

  datatype Book = Book(terms: Terms, payments: seq<Entry>, anchor: Option<Anchor>) {

    /** The balance replay starts from. */
    function Base(): int {
      if anchor.Some? then anchor.value.balance else terms.borrow
    }

    /** Whether a payment on this date is replayed at all. */
    predicate Live(d: Day) {
      if anchor.Some? then Before(anchor.value.date, d) else AtOrBefore(terms.start, d)
    }

    /** The number of the first cycle that is charged. */
    function First(): int {
      if anchor.Some? then AfterIndex(anchor.value.date) else CycleIndex(terms.start)
    }

    function Paid(k: int): int {
      Total(payments, (e: Entry) => Live(e.date) && CycleIndex(e.date) == k)
    }

    function PaidThrough(k: int): int {
      Total(payments, (e: Entry) => Live(e.date) && CycleIndex(e.date) <= k)
    }

    /** The balance after cycle k. */
    function Closing(k: int): int
      decreases k - First() + 1
    {
      if k < First() then Base()
      else
        var opening := Closing(k - 1);
        opening + Interest(opening, terms.rate) - Paid(k)
    }

    function Row(k: int): CycleRow {
      var opening := Closing(k - 1);
      CycleRow(CycleAt(k), opening, Interest(opening, terms.rate), Paid(k), Closing(k))
    }

    /** The rows of the cycles charged up to `until`. */
    function Rows(until: Day): seq<CycleRow> {
      var end := AfterIndex(until);
      seq(if end <= First() then 0 else end - First(), i => Row(First() + i))
    }

    /** The outstanding balance: the last closing balance less what was paid since. */
    function CurrentBalance(asOf: Day): int {
      var rows := Rows(asOf);
      if rows != [] then
        var last := rows[|rows| - 1];
        last.closing -
        Total(payments, (e: Entry) => Live(e.date) && Before(last.cycleDate, e.date) && AtOrBefore(e.date, asOf))
      else
        Base() - Total(payments, (e: Entry) => Live(e.date) && AtOrBefore(e.date, asOf))
    }
  }

  // ---------- Sums ----------

  lemma {:induction false} TotalSplit(ps: seq<Entry>, whole: Entry -> bool, left: Entry -> bool, right: Entry -> bool)
    requires forall e <- ps :: (whole(e) <==> left(e) || right(e)) && !(left(e) && right(e))
    ensures Total(ps, whole) == Total(ps, left) + Total(ps, right)
  {
    if ps != [] {
      TotalSplit(ps[..|ps| - 1], whole, left, right);
    }
  }

  lemma {:induction false} TotalSame(ps: seq<Entry>, f: Entry -> bool, g: Entry -> bool)
    requires forall e <- ps :: f(e) == g(e)
    ensures Total(ps, f) == Total(ps, g)
  {
    if ps != [] {
      TotalSame(ps[..|ps| - 1], f, g);
    }
  }

  lemma {:induction false} TotalNone(ps: seq<Entry>, keep: Entry -> bool)
    requires forall e <- ps :: !keep(e)
    ensures Total(ps, keep) == 0
  {
    if ps != [] {
      TotalNone(ps[..|ps| - 1], keep);
    }
  }

  lemma {:induction false} TotalFilter(ps: seq<Entry>, keep: Entry -> bool, f: Entry -> bool, both: Entry -> bool)
    requires forall e <- ps :: both(e) <==> keep(e) && f(e)
    ensures Total(Filter(ps, keep), f) == Total(ps, both)
  {
    if ps != [] {
      var init, last := ps[..|ps| - 1], ps[|ps| - 1];
      TotalFilter(init, keep, f, both);
      assert both(last) <==> keep(last) && f(last);
      TotalAppend(Filter(init, keep), if keep(last) then [last] else [], f);
      assert [last][..0] == [];
    }
  }

  lemma {:induction false} TotalAppend(ps: seq<Entry>, qs: seq<Entry>, keep: Entry -> bool)
    ensures Total(ps + qs, keep) == Total(ps, keep) + Total(qs, keep)
  {
    if qs == [] {
      assert ps + qs == ps;
    } else {
      var init := qs[..|qs| - 1];
      TotalAppend(ps, init, keep);
      assert (ps + qs)[..|ps + qs| - 1] == ps + init;
    }
  }

  function Without(ps: seq<Entry>, i: nat): seq<Entry>
    requires i < |ps|
  {
    ps[..i] + ps[i + 1..]
  }

  lemma TotalWithout(ps: seq<Entry>, i: nat, keep: Entry -> bool)
    requires i < |ps|
    ensures Total(Without(ps, i), keep) == Total(ps, keep) - (if keep(ps[i]) then ps[i].amount else 0)
  {
    hide Total;
    var before, it, after := ps[..i], [ps[i]], ps[i + 1..];
    assert ps == (before + it) + after;
    TotalAppend(before + it, after, keep);
    TotalAppend(before, after, keep);
    TotalOneMore(before, ps[i], keep);
  }

  lemma TotalOneMore(ps: seq<Entry>, e: Entry, keep: Entry -> bool)
    ensures Total(ps + [e], keep) == Total(ps, keep) + (if keep(e) then e.amount else 0)
  {
  }

  // ---------- Rounding ----------

  /** The interest is the whole number of cents nearest to balance * rate, and of two equally near
      ones the one further from zero. */
  lemma InterestIsNearest(balance: int, rate: nat)
    ensures -5000 <= 10000 * Interest(balance, rate) - balance * rate <= 5000
    ensures balance * rate > 0 ==> 10000 * Interest(balance, rate) - balance * rate > -5000
    ensures balance * rate < 0 ==> 10000 * Interest(balance, rate) - balance * rate < 5000
  {
  }

  lemma InterestMonotone(a: int, b: int, rate: nat)
    requires a <= b
    ensures Interest(a, rate) <= Interest(b, rate)
  {
    MultiplyMonotone(a, b, rate);
    InterestIsNearest(a, rate);
    InterestIsNearest(b, rate);
  }

  lemma MultiplyMonotone(a: int, b: int, c: nat)
    requires a <= b
    ensures a * c <= b * c
  {
  }

  // ---------- The projection ----------

  /** A replayed payment belongs to a charged cycle. */
  lemma LiveIsCharged(b: Book, d: Day)
    requires b.Live(d)
    ensures b.First() <= CycleIndex(d)
  {
  }

  /** The date test of period i, `(prev, cycle]` with the first period closed on the left, selects
      exactly the replayed payments whose cycle it is. */
  lemma PeriodTest(b: Book, k: int, d: Day)
    requires b.First() <= k
    ensures var origin := if b.anchor.Some? then b.anchor.value.date else b.terms.start;
      (b.anchor.Some? ==> Before(origin, d)) ==>
      ((if k == b.First() then AtOrBefore(origin, d) else Before(CycleAt(k - 1), d)) && AtOrBefore(d, CycleAt(k))
       <==> b.Live(d) && CycleIndex(d) == k)
  {
    hide CycleAt, CycleIndex, AfterIndex;
    IndexAdjoint(d, k);
    IndexAdjoint(d, k - 1);
    if b.Live(d) {
      LiveIsCharged(b, d);
    }
    if k > b.First() && Before(CycleAt(k - 1), d) && b.anchor.None? {
      IndexAdjoint(b.terms.start, k - 1);
    }
  }

  method ProjectLedger(terms: Terms, payments: seq<Entry>, until: Day, anchor: Option<Anchor>)
      returns (rows: seq<CycleRow>)
    ensures rows == Book(terms, payments, anchor).Rows(until)
  {
    hide CycleAt, CycleIndex, AfterIndex, Before, AtOrBefore, NextDay, Interest, Total, Filter;
    ghost var book := Book(terms, payments, anchor);
    var origin, balance, cycleFrom := terms.start, terms.borrow, terms.start;
    var keep := (e: Entry) => true;
    if anchor.Some? {
      origin, balance := anchor.value.date, anchor.value.balance;
      cycleFrom := NextDay(origin);
      keep := (e: Entry) => Before(origin, e.date);
      NextDayIndex(origin);
    }
    var live := Filter(payments, keep);
    var cycles := GetCycleDates(cycleFrom, until);
    rows := [];
    for i := 0 to |cycles|
      invariant |rows| == i
      invariant balance == book.Closing(book.First() + i - 1)
      invariant forall j :: 0 <= j < i ==> rows[j] == book.Row(book.First() + j)
    {
      var prev, cycle := if i == 0 then origin else cycles[i - 1], cycles[i];
      var inPeriod := (e: Entry) =>
        (if i == 0 then AtOrBefore(prev, e.date) else Before(prev, e.date)) && AtOrBefore(e.date, cycle);
      var paid := Total(live, inPeriod);
      PeriodTotal(book, keep, i, prev, cycle, inPeriod);
      var interest := Interest(balance, terms.rate);
      var closing := balance + interest - paid;
      rows := rows + [CycleRow(cycle, balance, interest, paid, closing)];
      balance := closing;
    }
  }

  lemma PeriodTotal(b: Book, keep: Entry -> bool, i: nat, prev: Day, cycle: Day, inPeriod: Entry -> bool)
    requires forall e: Entry :: keep(e) == (b.anchor.Some? ==> Before(b.anchor.value.date, e.date))
    requires cycle == CycleAt(b.First() + i)
    requires prev ==
      if i > 0 then CycleAt(b.First() + i - 1) else if b.anchor.Some? then b.anchor.value.date else b.terms.start
    requires forall e: Entry :: inPeriod(e) <==>
      (if i == 0 then AtOrBefore(prev, e.date) else Before(prev, e.date)) && AtOrBefore(e.date, cycle)
    ensures Total(Filter(b.payments, keep), inPeriod) == b.Paid(b.First() + i)
  {
    hide CycleAt, CycleIndex, AfterIndex, Before;
    var k := b.First() + i;
    var mine := (e: Entry) => b.Live(e.date) && CycleIndex(e.date) == k;
    forall e <- b.payments
      ensures mine(e) <==> keep(e) && inPeriod(e)
    {
      PeriodTest(b, k, e.date);
    }
    TotalFilter(b.payments, keep, inPeriod, mine);
    TotalSame(b.payments, mine, (e: Entry) => b.Live(e.date) && CycleIndex(e.date) == k);
  }

  // ---------- The anchor ----------

  function LastImport(ps: seq<Payment>): Option<Payment> {
    if ps == [] then None
    else if ps[|ps| - 1].kind.Import? then Some(ps[|ps| - 1])
    else LastImport(ps[..|ps| - 1])
  }

  function ImportAnchor(p: Payment): Anchor {
    Anchor(Later(p.date, NearestCycleDate(p.date)), p.after)
  }

  function AnchorOf(ps: seq<Payment>): Option<Anchor> {
    var last := LastImport(ps);
    if last.None? then None else Some(ImportAnchor(last.value))
  }

  method LedgerAnchor(payments: seq<Payment>) returns (anchor: Option<Anchor>)
    ensures anchor == AnchorOf(payments)
  {
    var last := None;
    for i := 0 to |payments|
      invariant last == LastImport(payments[..i])
    {
      assert payments[..i + 1][..i] == payments[..i];
      if payments[i].kind.Import? {
        last := Some(payments[i]);
      }
    }
    assert payments[..|payments|] == payments;
    if last.None? {
      return None;
    }
    return Some(Anchor(Later(last.value.date, NearestCycleDate(last.value.date)), last.value.after));
  }
}
