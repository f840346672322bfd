/** Laws of the projected ledger, for every book: conservation, monotonicity in the payments,
    bounded rounding drift, prefix stability, and what the import anchor charges. */
module LedgerLaws {
  import opened Options
  import opened Calendar
  import opened Ledger

  // ---------- Conservation ----------

  lemma PaidThroughStep(b: Book, k: int)
    ensures b.PaidThrough(k) == b.PaidThrough(k - 1) + b.Paid(k)
  {
    hide CycleIndex, Book.Live;
    TotalSplit(b.payments,
      (e: Entry) => b.Live(e.date) && CycleIndex(e.date) <= k,
      (e: Entry) => b.Live(e.date) && CycleIndex(e.date) <= k - 1,
      (e: Entry) => b.Live(e.date) && CycleIndex(e.date) == k);
  }

  lemma NothingPaidBeforeFirst(b: Book, k: int)
    requires k < b.First()
    ensures b.PaidThrough(k) == 0
  {
    forall e <- b.payments | b.Live(e.date)
      ensures CycleIndex(e.date) > k
    {
      LiveIsCharged(b, e.date);
    }
    TotalNone(b.payments, (e: Entry) => b.Live(e.date) && CycleIndex(e.date) <= k);
  }

  /** The balance after n cycles is the base, plus the interest of their rows, minus what was paid. */
  lemma {:induction false} ClosingConserves(b: Book, n: nat, rows: seq<CycleRow>)
    requires |rows| == n && forall i :: 0 <= i < n ==> rows[i] == b.Row(b.First() + i)
    ensures b.Closing(b.First() + n - 1) == b.Base() + SumInterest(rows) - b.PaidThrough(b.First() + n - 1)
  {
    hide CycleIndex, CycleAt, AfterIndex, Interest, Book.Paid, Book.PaidThrough;
    if n == 0 {
      NothingPaidBeforeFirst(b, b.First() - 1);
    } else {
      ClosingConserves(b, n - 1, rows[..n - 1]);
      PaidThroughStep(b, b.First() + n - 1);
    }
  }

  /** The displayed balance is the base, plus all charged interest, minus every replayed payment dated
      on or before `asOf`: no payment is lost between the rows and the pending sum, or counted twice. */
  lemma CurrentBalanceConserves(b: Book, asOf: Day)
    ensures b.CurrentBalance(asOf) ==
      b.Base() + SumInterest(b.Rows(asOf)) - Total(b.payments, (e: Entry) => b.Live(e.date) && AtOrBefore(e.date, asOf))
  {
    hide CycleIndex, CycleAt, AfterIndex, Before, Interest, Book.Live, Book.First, Book.Closing;
    var rows, n := b.Rows(asOf), |b.Rows(asOf)|;
    ClosingConserves(b, n, rows);
    if n == 0 {
      NothingPaidBeforeFirst(b, b.First() - 1);
    } else {
      var last := b.First() + n - 1;
      forall e <- b.payments
        ensures AtOrBefore(e.date, asOf) <==>
          CycleIndex(e.date) <= last || (Before(CycleAt(last), e.date) && AtOrBefore(e.date, asOf))
        ensures CycleIndex(e.date) <= last <==> !Before(CycleAt(last), e.date)
      {
        LastCycle(b, asOf, e.date);
      }
      TotalSplit(b.payments,
        (e: Entry) => b.Live(e.date) && AtOrBefore(e.date, asOf),
        (e: Entry) => b.Live(e.date) && CycleIndex(e.date) <= last,
        (e: Entry) => b.Live(e.date) && Before(CycleAt(last), e.date) && AtOrBefore(e.date, asOf));
    }
  }

  lemma LastCycle(b: Book, asOf: Day, d: Day)
    requires b.Rows(asOf) != []
    ensures var last := b.First() + |b.Rows(asOf)| - 1;
      && last == AfterIndex(asOf) - 1
      && (CycleIndex(d) <= last <==> AtOrBefore(d, CycleAt(last)))
      && (AtOrBefore(d, CycleAt(last)) ==> AtOrBefore(d, asOf))
  {
  }

  function LatestOf(today: Day, dates: seq<Day>): Day {
    if dates == [] then today else Later(LatestOf(today, dates[..|dates| - 1]), dates[|dates| - 1])
  }

  /** The date an account's balance is displayed at: today, or the last payment date if that is later. */
  function BalanceAsOf(b: Book, today: Day): Day {
    LatestOf(today, seq<Day>(|b.payments|, i requires 0 <= i < |b.payments| => b.payments[i].date))
  }

  lemma {:induction false} LatestIsLast(today: Day, dates: seq<Day>)
    ensures AtOrBefore(today, LatestOf(today, dates))
    ensures forall d <- dates :: AtOrBefore(d, LatestOf(today, dates))
  {
    if dates != [] {
      var init := dates[..|dates| - 1];
      LatestIsLast(today, init);
      assert dates == init + [dates[|dates| - 1]];
    }
  }

  /** At the display date every replayed payment has been subtracted, future-dated ones included. */
  lemma DisplayedBalanceCountsEveryPayment(b: Book, today: Day)
    ensures b.CurrentBalance(BalanceAsOf(b, today)) ==
      b.Base() + SumInterest(b.Rows(BalanceAsOf(b, today))) - Total(b.payments, (e: Entry) => b.Live(e.date))
  {
    hide CycleIndex, CycleAt, AfterIndex, AtOrBefore, Book.Live, Book.CurrentBalance, LatestOf;
    var dates := seq<Day>(|b.payments|, i requires 0 <= i < |b.payments| => b.payments[i].date);
    LatestIsLast(today, dates);
    forall e <- b.payments
      ensures AtOrBefore(e.date, BalanceAsOf(b, today))
    {
      var i :| 0 <= i < |b.payments| && b.payments[i] == e;
      assert dates[i] == e.date;
    }
    CurrentBalanceConserves(b, BalanceAsOf(b, today));
    TotalSame(b.payments, (e: Entry) => b.Live(e.date) &&
      AtOrBefore(e.date, BalanceAsOf(b, today)), (e: Entry) => b.Live(e.date));
  }

  /** The date test `ProjectLedger` applies to put a payment into row i. */
  predicate InRow(b: Book, rows: seq<CycleRow>, i: nat, d: Day)
    requires i < |rows|
  {
    (if i > 0 then Before(rows[i - 1].cycleDate, d)
     else if b.anchor.Some? then Before(b.anchor.value.date, d) else AtOrBefore(b.terms.start, d))
    && AtOrBefore(d, rows[i].cycleDate)
  }

  lemma NotAfter(b: Book, d: Day)
    ensures b.anchor.Some? && Before(b.anchor.value.date, d) ==> AtOrBefore(b.anchor.value.date, d)
  {
  }

  /** Each replayed payment dated on or before `asOf` is in exactly one row, or else pending; never both. */
  lemma CountedExactlyOnce(b: Book, asOf: Day, d: Day)
    requires b.Live(d) && AtOrBefore(d, asOf)
    ensures var rows := b.Rows(asOf);
      var pending := rows == [] || Before(rows[|rows| - 1].cycleDate, d);
      && (!pending <==> exists i :: 0 <= i < |rows| && InRow(b, rows, i, d))
      && (forall i, j :: 0 <= i < |rows| && 0 <= j < |rows| && InRow(b, rows, i, d) && InRow(b, rows, j, d) ==> i == j)
  {
    hide CycleIndex, CycleAt, AfterIndex, Before, Book.Closing;
    var rows, k := b.Rows(asOf), CycleIndex(d);
    LiveIsCharged(b, d);
    forall i | 0 <= i < |rows|
      ensures InRow(b, rows, i, d) <==> b.First() + i == k
    {
      assert rows[i] == b.Row(b.First() + i);
      assert i > 0 ==> rows[i - 1] == b.Row(b.First() + (i - 1));
      PeriodTest(b, b.First() + i, d);
      NotAfter(b, d);
    }
    if rows != [] {
      LastCycle(b, asOf, d);
      assert rows[|rows| - 1] == b.Row(b.First() + (|rows| - 1));
      if !Before(rows[|rows| - 1].cycleDate, d) {
        assert InRow(b, rows, k - b.First(), d);
      }
    }
  }

  // ---------- Monotonicity in the payments ----------

  /** If `a` has paid at least as much as `b` by every cycle, from no higher a base, it owes less by at
      least the difference of what they started from and of what they have paid. */
  lemma {:induction false} Dominance(a: Book, b: Book, k: int)
    requires a.First() == b.First() && a.terms.rate == b.terms.rate && a.Base() <= b.Base()
    requires forall j :: j <= k ==> b.PaidThrough(j) <= a.PaidThrough(j)
    ensures b.Closing(k) - a.Closing(k) >= b.Base() - a.Base() + a.PaidThrough(k) - b.PaidThrough(k)
    decreases k - a.First()
  {
    hide CycleIndex, Interest, Book.First, Book.Base, Book.Paid, Book.PaidThrough;
    if k < a.First() {
      NothingPaidBeforeFirst(a, k);
      NothingPaidBeforeFirst(b, k);
    } else {
      Dominance(a, b, k - 1);
      PaidThroughStep(a, k);
      PaidThroughStep(b, k);
      InterestMonotone(a.Closing(k - 1), b.Closing(k - 1), a.terms.rate);
    }
  }

  function Removed(b: Book, i: nat): Book
    requires i < |b.payments|
  {
    b.(payments := Without(b.payments, i))
  }

  lemma PaidWithout(b: Book, i: nat, k: int)
    requires i < |b.payments|
    ensures var e := b.payments[i];
      && Removed(b, i).Paid(k) == b.Paid(k) - (if b.Live(e.date) && CycleIndex(e.date) == k then e.amount else 0)
      && Removed(b, i).PaidThrough(k) ==
           b.PaidThrough(k) - (if b.Live(e.date) && CycleIndex(e.date) <= k then e.amount else 0)
  {
    hide CycleIndex, Book.Live, Without;
    var w := Removed(b, i);
    assert forall d: Day :: w.Live(d) == b.Live(d) by { SameLive(w, b); }
    var at, through := (e: Entry) => w.Live(e.date) && CycleIndex(e.date) == k, (e: Entry) => w.Live(e.date) &&
      CycleIndex(e.date) <= k;
    TotalWithout(b.payments, i, at);
    TotalWithout(b.payments, i, through);
    TotalSame(w.payments, at, (e: Entry) => w.Live(e.date) && CycleIndex(e.date) == k);
    TotalSame(w.payments, through, (e: Entry) => w.Live(e.date) && CycleIndex(e.date) <= k);
    TotalSame(b.payments, at, (e: Entry) => b.Live(e.date) && CycleIndex(e.date) == k);
    TotalSame(b.payments, through, (e: Entry) => b.Live(e.date) && CycleIndex(e.date) <= k);
  }

  lemma SameLive(a: Book, b: Book)
    requires a.terms == b.terms && a.anchor == b.anchor
    ensures a.First() == b.First() && a.Base() == b.Base() && forall d: Day :: a.Live(d) == b.Live(d)
  {
  }

  /** Without a payment, every balance from its cycle on is higher by at least its amount. */
  lemma RemovingAPaymentCostsAtLeastItsAmount(b: Book, i: nat, k: int)
    requires i < |b.payments| && b.payments[i].amount >= 0
    ensures Removed(b, i).Closing(k) >= b.Closing(k)
    ensures b.Live(b.payments[i].date) && CycleIndex(b.payments[i].date) <= k ==>
      Removed(b, i).Closing(k) >= b.Closing(k) + b.payments[i].amount
  {
    hide CycleIndex, Book.Live, Book.PaidThrough, Book.Paid, Book.Closing;
    SameLive(b, Removed(b, i));
    forall j | j <= k
      ensures Removed(b, i).PaidThrough(j) <= b.PaidThrough(j)
    {
      PaidWithout(b, i, j);
    }
    PaidWithout(b, i, k);
    Dominance(b, Removed(b, i), k);
  }

  /** Paying earlier never hurts: moving a payment to an earlier date raises no balance, as long as the
      ledger still replays it there.  Moved out of the replayed dates it is lost, and costs its amount. */
  lemma PayingEarlierNeverHurts(b: Book, i: nat, earlier: Day, k: int)
    requires i < |b.payments| && b.payments[i].amount >= 0
    requires AtOrBefore(earlier, b.payments[i].date)
    ensures var e, moved := b.payments[i], b.(payments := b.payments[i := Entry(earlier, b.payments[i].amount)]);
      && ((b.Live(e.date) ==> b.Live(earlier)) ==> moved.Closing(k) <= b.Closing(k))
      && (b.Live(e.date) && !b.Live(earlier) && CycleIndex(e.date) <= k ==> moved.Closing(k) >= b.Closing(k) + e.amount)
  {
    hide CycleIndex, Book.Live, Book.PaidThrough, Book.Paid, Book.Closing;
    var e, moved := b.payments[i], b.(payments := b.payments[i := Entry(earlier, b.payments[i].amount)]);
    assert Without(moved.payments, i) == Without(b.payments, i);
    SameLive(b, moved);
    IndexMonotone(earlier, e.date);
    forall j | j <= k
      ensures moved.PaidThrough(j) - b.PaidThrough(j) ==
        (if b.Live(earlier) && CycleIndex(earlier) <= j then e.amount else 0) - (if b.Live(e.date) &&
          CycleIndex(e.date) <= j then e.amount else 0)
    {
      PaidWithout(b, i, j);
      PaidWithout(moved, i, j);
    }
    if b.Live(e.date) ==> b.Live(earlier) {
      Dominance(moved, b, k);
    } else {
      Dominance(b, moved, k);
    }
  }

  // ---------- Stability of the rows ----------

  /** Projecting further only appends rows. */
  lemma RowsArePrefix(b: Book, t: Day, u: Day)
    requires AtOrBefore(t, u)
    ensures b.Rows(t) <= b.Rows(u)
  {
  }

  /** A payment changes no row before its cycle, and neither the opening balance nor the interest of that
      cycle's own row, whose closing balance it lowers by its amount. */
  lemma {:induction false} PaymentLeavesEarlierRows(b: Book, i: nat, k: int)
    requires i < |b.payments|
    ensures var e, w := b.payments[i], Removed(b, i);
      && (k < CycleIndex(e.date) || !b.Live(e.date) ==> b.Row(k) == w.Row(k))
      && (k == CycleIndex(e.date) && b.Live(e.date) ==>
        b.Row(k) == w.Row(k).(paid := w.Row(k).paid + e.amount, closing := w.Row(k).closing - e.amount))
  {
    hide CycleIndex, CycleAt, Interest, Book.Live, Book.Paid, Book.First, Book.Base;
    SameClosingBefore(b, i, k - 1);
    SameLive(b, Removed(b, i));
    PaidWithout(b, i, k);
    if k < b.First() && b.Live(b.payments[i].date) {
      LiveIsCharged(b, b.payments[i].date);
    }
  }

  lemma {:induction false} SameClosingBefore(b: Book, i: nat, k: int)
    requires i < |b.payments|
    ensures k < CycleIndex(b.payments[i].date) || !b.Live(b.payments[i].date) ==>
      b.Closing(k) == Removed(b, i).Closing(k)
    decreases k - b.First()
  {
    hide CycleIndex, CycleAt, Interest, Book.Live, Book.Paid, Book.First, Book.Base;
    SameLive(b, Removed(b, i));
    if k >= b.First() {
      SameClosingBefore(b, i, k - 1);
      PaidWithout(b, i, k);
    }
  }

  /** The cycles charged up to `until` are the cycle dates the book replays: strictly after the anchor if
      there is one, else on or after the start date. */
  lemma ChargedCycles(b: Book, until: Day, c: Day)
    requires IsCycleDate(c)
    ensures (exists r :: r in b.Rows(until) && r.cycleDate == c) <==> b.Live(c) && AtOrBefore(c, until)
    ensures forall i, j :: 0 <= i < j < |b.Rows(until)| ==>
      Before(b.Rows(until)[i].cycleDate, b.Rows(until)[j].cycleDate)
  {
    hide CycleIndex, CycleAt, AfterIndex, IsCycleDate, Before, Book.Closing;
    var rows, k := b.Rows(until), CycleIndex(c);
    NumberedAt(c);
    IndexAdjoint(b.terms.start, k);
    AfterAdjoint(until, k);
    if b.anchor.Some? {
      AfterAdjoint(b.anchor.value.date, k);
    }
    if b.Live(c) && AtOrBefore(c, until) {
      assert rows[k - b.First()] == b.Row(k);
    }
    forall r | r in rows && r.cycleDate == c
      ensures b.Live(c) && AtOrBefore(c, until)
    {
      var i :| 0 <= i < |rows| && rows[i] == r;
      assert rows[i] == b.Row(b.First() + i);
      Numbering(b.First() + i);
    }
    forall i, j | 0 <= i < j < |rows|
      ensures Before(rows[i].cycleDate, rows[j].cycleDate)
    {
      assert rows[i] == b.Row(b.First() + i) && rows[j] == b.Row(b.First() + j);
      CycleOrder(b.First() + i, b.First() + j);
    }
  }

  function FindRow(rows: seq<CycleRow>, c: Day): Option<CycleRow> {
    if rows == [] then None
    else if rows[0].cycleDate == c then Some(rows[0])
    else FindRow(rows[1..], c)
  }

  lemma {:induction false} FindRowAt(rows: seq<CycleRow>, c: Day)
    requires forall i, j :: 0 <= i < j < |rows| ==> rows[i].cycleDate != rows[j].cycleDate
    ensures (forall r <- rows :: r.cycleDate != c) ==> FindRow(rows, c).None?
    ensures forall r <- rows :: r.cycleDate == c ==> FindRow(rows, c) == Some(r)
  {
    if rows != [] {
      FindRowAt(rows[1..], c);
      assert rows == [rows[0]] + rows[1..];
    }
  }

  /** The row reported when cycle c closes, taken from the projection up to c itself, is the row any later
      projection shows for c; there is none exactly when c is not charged (on or before the anchor). */
  lemma ReportedRowIsTheProjectedRow(b: Book, c: Day, until: Day)
    requires IsCycleDate(c) && AtOrBefore(c, until)
    ensures FindRow(b.Rows(c), c) == FindRow(b.Rows(until), c)
    ensures FindRow(b.Rows(c), c).None? <==> !b.Live(c)
  {
    hide CycleIndex, CycleAt, AfterIndex, IsCycleDate, AtOrBefore, Book.Live, Book.Rows;
    RowsArePrefix(b, c, until);
    ChargedCycles(b, c, c);
    ChargedCycles(b, until, c);
    NotBeforeItself(c);
    FindRowAt(b.Rows(c), c);
    FindRowAt(b.Rows(until), c);
    assert forall r <- b.Rows(c) :: r in b.Rows(until);
  }

  lemma NotBeforeItself(c: Day)
    ensures AtOrBefore(c, c)
  {
  }

  /** Replay after an import neither charges the imported cycle again nor skips one: the first cycle charged
      is the one following the cycle date nearest to the imported payment, whatever its date. */
  lemma {:induction false} ImportAnchorChargesTheNextCycle(terms: Terms, payments: seq<Entry>, p: Payment)
    ensures var b := Book(terms, payments, Some(ImportAnchor(p)));
      && CycleAt(b.First()) == AdvanceCycle(NearestCycleDate(p.date))
      && (forall c: Day :: IsCycleDate(c) ==> (b.Live(c) <==> AtOrBefore(AdvanceCycle(NearestCycleDate(p.date)), c)))
  {
    hide CycleIndex, CycleAt, AfterIndex, NearestCycleDate, AdvanceCycle, IsCycleDate, Ordinal;
    var b, k, near := Book(terms, payments, Some(ImportAnchor(p))), CycleIndex(p.date), NearestCycleDate(p.date);
    FirstAfterImport(p);
    var n := CycleIndex(near);
    NearestMinimisesDistance(p.date);
    EngineInNumbers(near);
    forall c: Day | IsCycleDate(c)
      ensures b.Live(c) <==> AtOrBefore(CycleAt(n + 1), c)
    {
      NumberedAt(c);
      AfterAdjoint(b.anchor.value.date, CycleIndex(c));
      CycleOrder(CycleIndex(c), n + 1);
    }
  }

  lemma FirstAfterImport(p: Payment)
    ensures AfterIndex(ImportAnchor(p).date) == CycleIndex(NearestCycleDate(p.date)) + 1
  {
    hide CycleAt, NearestCycleDate, Ordinal, CycleIndex, IsCycleDate;
    var k := CycleIndex(p.date);
    NearestInNumbers(p.date);
    Numbering(k - 1);
    Numbering(k);
    IndexAdjoint(p.date, k);
    IndexAdjoint(p.date, k - 1);
    if IsCycleDate(p.date) {
      NumberedAt(p.date);
    }
  }

  // ---------- Rounding drift ----------

  /** The balances without rounding. */
  ghost function Unrounded(b: Book, k: int): real
    decreases k - b.First() + 1
  {
    if k < b.First() then b.Base() as real
    else Unrounded(b, k - 1) * (1.0 + PerCycle(b)) - b.Paid(k) as real
  }

  /** How far rounding has moved the balance after cycle k. */
  ghost function RoundingDrift(b: Book, k: int): real {
    Abs(b.Closing(k) as real - Unrounded(b, k))
  }

  function PerCycle(b: Book): real {
    b.terms.rate as real / 10000.0
  }

  function Power(x: real, n: nat): real {
    if n == 0 then 1.0 else x * Power(x, n - 1)
  }

  function Abs(x: real): real {
    if x < 0.0 then -x else x
  }

  lemma RoundingError(balance: int, b: Book)
    ensures -0.5 <= Interest(balance, b.terms.rate) as real - balance as real * PerCycle(b) <= 0.5
    ensures b.terms.rate == 0 ==> Interest(balance, b.terms.rate) == 0
  {
  }

  /** Half a cent per cycle, compounded. */
  function Drift(r: real, n: nat): real {
    if n == 0 then 0.0 else Drift(r, n - 1) * (1.0 + r) + 0.5
  }

  /** Drift(r, n) is half a cent times ((1 + r)^n - 1) / r. */
  lemma {:induction false} DriftClosedForm(r: real, n: nat)
    ensures Drift(r, n) * r == 0.5 * (Power(1.0 + r, n) - 1.0)
  {
    if n > 0 {
      DriftClosedForm(r, n - 1);
      Expand(Drift(r, n - 1), r, Power(1.0 + r, n - 1));
    }
  }

  lemma Expand(drift: real, r: real, power: real)
    requires drift * r == 0.5 * (power - 1.0)
    ensures (drift * (1.0 + r) + 0.5) * r == 0.5 * ((1.0 + r) * power - 1.0)
  {
  }

  /** After n cycles the rounded balance is within Drift(r, n) of the unrounded one with the same payments;
      at rate 0 the two are equal. */
  lemma {:induction false} DriftIsBounded(b: Book, n: nat)
    ensures var k := b.First() + n - 1;
      && RoundingDrift(b, k) <= Drift(PerCycle(b), n)
      && (b.terms.rate == 0 ==> RoundingDrift(b, k) == 0.0)
  {
    hide PerCycle, RoundingDrift, Drift;
    if n == 0 {
      NoDriftAtBase(b);
    } else {
      DriftIsBounded(b, n - 1);
      DriftStep(b, b.First() + n - 1);
      DriftGrows(RoundingDrift(b, b.First() + n - 1), RoundingDrift(b, b.First() + n - 2), PerCycle(b), n);
    }
  }

  lemma NoDriftAtBase(b: Book)
    ensures RoundingDrift(b, b.First() - 1) == 0.0 == Drift(PerCycle(b), 0)
  {
  }

  lemma DriftGrows(now: real, before: real, r: real, n: nat)
    requires n > 0 && r >= 0.0 && now <= before * (1.0 + r) + 0.5 && before <= Drift(r, n - 1)
    ensures now <= Drift(r, n)
  {
  }

  lemma DriftStep(b: Book, k: int)
    requires k >= b.First()
    ensures RoundingDrift(b, k) <= RoundingDrift(b, k - 1) * (1.0 + PerCycle(b)) + 0.5
    ensures b.terms.rate == 0 && RoundingDrift(b, k - 1) == 0.0 ==> RoundingDrift(b, k) == 0.0
    ensures PerCycle(b) >= 0.0
  {
    hide Interest, CycleIndex, Book.Paid, Abs;
    assert PerCycle(b) >= 0.0 && (b.terms.rate == 0 ==> PerCycle(b) == 0.0);
    hide PerCycle;
    var opening, interest, paid := b.Closing(k - 1), Interest(b.Closing(k - 1), b.terms.rate), b.Paid(k);
    RoundingError(opening, b);
    assert b.Closing(k) as real == opening as real + interest as real - paid as real;
    ErrorStep(opening as real, Unrounded(b, k - 1), interest as real, PerCycle(b), paid as real, b.Closing(k) as real,
      Unrounded(b, k));
  }

  lemma ErrorStep(rounded: real, exact: real, interest: real, r: real, paid: real, nowRounded: real, nowExact: real)
    requires r >= 0.0 && -0.5 <= interest - rounded * r <= 0.5
    requires nowRounded == rounded + interest - paid && nowExact == exact * (1.0 + r) - paid
    ensures Abs(nowRounded - nowExact) <= Abs(rounded - exact) * (1.0 + r) + 0.5
    ensures interest == 0.0 && r == 0.0 && Abs(rounded - exact) == 0.0 ==> Abs(nowRounded - nowExact) == 0.0
  {
    var d := rounded - exact;
    assert nowRounded - nowExact == d * (1.0 + r) + (interest - rounded * r);
    if d < 0.0 {
      NonNegative(-d, 1.0 + r);
      assert (-d) * (1.0 + r) == -(d * (1.0 + r));
    } else {
      NonNegative(d, 1.0 + r);
    }
  }

  lemma NonNegative(x: real, y: real)
    requires x >= 0.0 && y >= 0.0
    ensures x * y >= 0.0
  {
  }

  /** At a rate of at most 1 per cycle and with no overpayment, n cycles at most double the base n times. */
  lemma {:induction false} BalanceAtMostDoubles(b: Book, n: nat)
    requires b.terms.rate <= 10000 && forall e <- b.payments :: e.amount >= 0
    requires forall j :: b.First() - 1 <= j < b.First() + n - 1 ==> b.Closing(j) >= 0
    ensures b.Closing(b.First() + n - 1) <= Doubled(b.Base(), n)
  {
    hide Book.First, Book.Base;
    if n > 0 {
      hide Book.Closing;
      BalanceAtMostDoubles(b, n - 1);
      CycleAtMostDoubles(b, b.First() + n - 1);
    }
  }

  lemma CycleAtMostDoubles(b: Book, k: int)
    requires b.terms.rate <= 10000 && forall e <- b.payments :: e.amount >= 0
    requires k >= b.First() && b.Closing(k - 1) >= 0
    ensures b.Closing(k) <= 2 * b.Closing(k - 1)
  {
    hide Interest, CycleIndex, AfterIndex;
    InterestAtMostPrincipal(b.Closing(k - 1), b.terms.rate);
    NothingNegative(b.payments, (e: Entry) => b.Live(e.date) && CycleIndex(e.date) == k);
  }

  function Doubled(x: int, n: nat): int {
    if n == 0 then x else 2 * Doubled(x, n - 1)
  }

  lemma InterestAtMostPrincipal(balance: int, rate: nat)
    requires balance >= 0 && rate <= 10000
    ensures Interest(balance, rate) <= balance
  {
  }

  lemma {:induction false} NothingNegative(ps: seq<Entry>, keep: Entry -> bool)
    requires forall e <- ps :: e.amount >= 0
    ensures Total(ps, keep) >= 0
  {
    if ps != [] {
      NothingNegative(ps[..|ps| - 1], keep);
    }
  }
}
