/** Gregorian dates and the twice-monthly cycle calendar of the interest engine.

    Cycle dates are the 15th of a month and its 30th (or last day, if the month is shorter).
    They are numbered: `CycleAt(k)` is the k-th one, `CycleIndex(d)` the number of the first
    one on or after `d`, `AfterIndex(d)` that of the first one after `d`.  The numbering is the
    reference the date arithmetic of the engine is proved against, and what the ledger counts in.
 */
module Calendar {

  datatype Date = Date(year: int, month: int, day: int)

  predicate IsLeap(y: int) {
    y % 4 == 0 && (y % 100 != 0 || y % 400 == 0)
  }

  function DaysInMonth(y: int, m: int): (n: int)
    requires 1 <= m <= 12
    ensures 28 <= n <= 31
  {
    if m == 2 then (if IsLeap(y) then 29 else 28)
    else if m == 4 || m == 6 || m == 9 || m == 11 then 30 else 31
  }

  predicate IsDate(d: Date) {
    1 <= d.month <= 12 && 1 <= d.day <= DaysInMonth(d.year, d.month)
  }

  type Day = d: Date | IsDate(d) witness Date(2000, 1, 1)

  /** Date comparison: year, then month, then day. */
  predicate Before(a: Date, b: Date) {
    a.year < b.year ||
    (a.year == b.year && (a.month < b.month || (a.month == b.month && a.day < b.day)))
  }

  predicate AtOrBefore(a: Date, b: Date) {
    !Before(b, a)
  }

  function Later(a: Day, b: Day): Day {
    if Before(a, b) then b else a
  }

  // ---------- Day numbers: what subtracting two dates counts ----------

  function DaysBeforeYear(y: int): int {
    var n := y - 1;
    365 * n + n / 4 - n / 100 + n / 400
  }

  function DaysBeforeMonth(y: int, m: int): int
    requires 1 <= m <= 12
  {
    [0, 31, 59, 90, 120, 151, 181, 212, 243, 273, 304, 334][m - 1] + (if m > 2 && IsLeap(y) then 1 else 0)
  }

  function Ordinal(d: Day): int {
    DaysBeforeYear(d.year) + DaysBeforeMonth(d.year, d.month) + d.day
  }

  function Distance(a: Day, b: Day): nat {
    if Ordinal(a) <= Ordinal(b) then Ordinal(b) - Ordinal(a) else Ordinal(a) - Ordinal(b)
  }

  function NextDay(d: Day): Day {
    if d.day < DaysInMonth(d.year, d.month) then Date(d.year, d.month, d.day + 1)
    else if d.month < 12 then Date(d.year, d.month + 1, 1)
    else Date(d.year + 1, 1, 1)
  }

  function DaysInYear(y: int): int {
    if IsLeap(y) then 366 else 365
  }

  lemma YearStep(y: int)
    ensures DaysBeforeYear(y + 1) == DaysBeforeYear(y) + DaysInYear(y)
  {
    QuotientSteps(y);
  }

  /** Dividing y rather than y - 1 gains one exactly when the divisor divides y. */
  lemma QuotientSteps(y: int)
    ensures y / 4 == (y - 1) / 4 + (if y % 4 == 0 then 1 else 0)
    ensures y / 100 == (y - 1) / 100 + (if y % 100 == 0 then 1 else 0)
    ensures y / 400 == (y - 1) / 400 + (if y % 400 == 0 then 1 else 0)
    ensures y % 400 == 0 ==> y % 100 == 0
    ensures y % 100 == 0 ==> y % 4 == 0
  {
  }

  lemma {:induction false} YearsApart(y: int, z: int)
    requires y < z
    ensures DaysBeforeYear(z) >= DaysBeforeYear(y) + DaysInYear(y)
    decreases z - y
  {
    YearStep(z - 1);
    if z > y + 1 {
      YearsApart(y, z - 1);
    }
  }

  lemma MonthsApart(y: int, m: int, n: int)
    requires 1 <= m < n <= 12
    ensures DaysBeforeMonth(y, n) >= DaysBeforeMonth(y, m) + DaysInMonth(y, m)
    ensures n == m + 1 ==> DaysBeforeMonth(y, n) == DaysBeforeMonth(y, m) + DaysInMonth(y, m)
  {
  }

  /** Comparing dates field by field is comparing their day numbers. */
  lemma {:induction false} OrdinalOrder(a: Day, b: Day)
    ensures Before(a, b) <==> Ordinal(a) < Ordinal(b)
    ensures Ordinal(a) == Ordinal(b) ==> a == b
  {
    OrdinalIncreases(a, b);
    OrdinalIncreases(b, a);
  }

  lemma OrdinalIncreases(a: Day, b: Day)
    ensures Before(a, b) ==> Ordinal(a) < Ordinal(b)
  {
    if a.year < b.year {
      YearsApart(a.year, b.year);
      MonthBounds(a);
      MonthBounds(b);
    } else if a.year == b.year && a.month < b.month {
      MonthsApart(a.year, a.month, b.month);
    }
  }

  lemma MonthBounds(d: Day)
    ensures 1 <= Ordinal(d) - DaysBeforeYear(d.year) <= DaysInYear(d.year)
  {
  }

  /** `NextDay` adds one day. */
  lemma {:induction false} NextDayOrdinal(d: Day)
    ensures Ordinal(NextDay(d)) == Ordinal(d) + 1
  {
    if d.day == DaysInMonth(d.year, d.month) {
      if d.month < 12 {
        MonthsApart(d.year, d.month, d.month + 1);
      } else {
        YearStep(d.year);
      }
    }
  }

  // ---------- The engine's cycle functions ----------

  function MonthThirtieth(y: int, m: int): Day
    requires 1 <= m <= 12
  {
    var last := DaysInMonth(y, m);
    Date(y, m, if last < 30 then last else 30)
  }

  function NextCycleDate(from: Day): Day {
    if from.day <= 15 then Date(from.year, from.month, 15)
    else
      var thirtieth := MonthThirtieth(from.year, from.month);
      if AtOrBefore(from, thirtieth) then thirtieth
      else if from.month == 12 then Date(from.year + 1, 1, 15)
      else Date(from.year, from.month + 1, 15)
  }

  function AdvanceCycle(current: Day): Day {
    if current.day == 15 then MonthThirtieth(current.year, current.month)
    else if current.month == 12 then Date(current.year + 1, 1, 15)
    else Date(current.year, current.month + 1, 15)
  }

  function NearestCycleDate(d: Day): Day {
    var next := NextCycleDate(d);
    var prev :=
      if next.day == 15 then
        if next.month == 1 then MonthThirtieth(next.year - 1, 12) else MonthThirtieth(next.year, next.month - 1)
      else Date(next.year, next.month, 15);
    if Ordinal(d) - Ordinal(prev) < Ordinal(next) - Ordinal(d) then prev else next
  }

  function NextDueDate(reference: Day): Day {
    var candidate := NextCycleDate(reference);
    if candidate == reference then AdvanceCycle(candidate) else candidate
  }

  // ---------- The numbering of cycle dates ----------

  predicate IsCycleDate(d: Day) {
    d.day == 15 || d == MonthThirtieth(d.year, d.month)
  }

  function CycleAt(k: int): Day {
    var months, second := k / 2, k % 2 == 1;
    var y, m := months / 12, months % 12 + 1;
    if second then MonthThirtieth(y, m) else Date(y, m, 15)
  }

  function CycleIndex(d: Day): int {
    24 * d.year + 2 * (d.month - 1) +
    (if d.day <= 15 then 0 else if d.day <= MonthThirtieth(d.year, d.month).day then 1 else 2)
  }

  function AfterIndex(d: Day): int {
    if IsCycleDate(d) then CycleIndex(d) + 1 else CycleIndex(d)
  }

  lemma Parts(k: int)
    ensures var c := CycleAt(k);
      && k == 24 * c.year + 2 * (c.month - 1) + (if c.day == 15 then 0 else 1)
      && (c.day == 15 || c == MonthThirtieth(c.year, c.month))
  {
  }

  /** `CycleIndex` is the lower adjoint of `CycleAt`. */
  lemma IndexAdjoint(d: Day, k: int)
    ensures AtOrBefore(d, CycleAt(k)) <==> CycleIndex(d) <= k
  {
  }

  lemma AfterAdjoint(d: Day, k: int)
    ensures Before(d, CycleAt(k)) <==> AfterIndex(d) <= k
  {
  }

  /** The numbers name cycle dates, all of them, each once. */
  lemma Numbering(k: int)
    ensures IsCycleDate(CycleAt(k)) && CycleIndex(CycleAt(k)) == k && AfterIndex(CycleAt(k)) == k + 1
  {
  }

  lemma NumberedAt(d: Day)
    requires IsCycleDate(d)
    ensures CycleAt(CycleIndex(d)) == d
  {
  }

  lemma CycleOrder(j: int, k: int)
    ensures Before(CycleAt(j), CycleAt(k)) <==> j < k
    ensures CycleAt(j) == CycleAt(k) ==> j == k
  {
  }

  lemma IndexMonotone(a: Day, b: Day)
    requires AtOrBefore(a, b)
    ensures CycleIndex(a) <= CycleIndex(b) && AfterIndex(a) <= AfterIndex(b)
  {
  }

  lemma NextDayIndex(d: Day)
    ensures CycleIndex(NextDay(d)) == AfterIndex(d)
  {
  }

  lemma EngineInNumbers(d: Day)
    ensures NextCycleDate(d) == CycleAt(CycleIndex(d))
    ensures NextDueDate(d) == CycleAt(AfterIndex(d))
    ensures IsCycleDate(d) ==> AdvanceCycle(d) == CycleAt(CycleIndex(d) + 1)
  {
    NumberedAt(NextCycleDate(d));
    NumberedAt(AdvanceCycle(NextCycleDate(d)));
  }

  // ---------- What the cycle functions promise, in terms of dates alone ----------

  /** The cycle dates are the 15th and the 30th of every month, and the last day of February. */
  lemma CycleDatesOfAMonth(d: Day)
    ensures IsCycleDate(d) <==> d.day == 15 || d.day == 30 || (d.month == 2 && NextDay(d).month == 3)
  {
  }

  /** The first cycle date on or after `d`. */
  lemma NextCycleDateIsLeast(d: Day)
    ensures IsCycleDate(NextCycleDate(d)) && AtOrBefore(d, NextCycleDate(d))
    ensures forall c: Day :: IsCycleDate(c) && AtOrBefore(d, c) ==> AtOrBefore(NextCycleDate(d), c)
  {
  }

  /** The first cycle date strictly after `d`. */
  lemma NextDueDateIsLeast(d: Day)
    ensures IsCycleDate(NextDueDate(d)) && Before(d, NextDueDate(d))
    ensures forall c: Day :: IsCycleDate(c) && Before(d, c) ==> AtOrBefore(NextDueDate(d), c)
  {
  }

  lemma NearestInNumbers(d: Day)
    ensures var k := CycleIndex(d);
      && Ordinal(CycleAt(k - 1)) < Ordinal(d) <= Ordinal(CycleAt(k))
      && NearestCycleDate(d) == if Distance(d, CycleAt(k - 1)) < Distance(d, CycleAt(k))
           then CycleAt(k - 1) else CycleAt(k)
  {
    hide Ordinal, CycleAt, CycleIndex, MonthThirtieth, NextCycleDate, Before;
    var k := CycleIndex(d);
    EngineInNumbers(d);
    IndexAdjoint(d, k);
    IndexAdjoint(d, k - 1);
    OrdinalOrder(CycleAt(k), d);
    OrdinalOrder(CycleAt(k - 1), d);
    PreviousInNumbers(k);
  }

  lemma PreviousInNumbers(k: int)
    ensures var next := CycleAt(k);
      CycleAt(k - 1) ==
        if next.day == 15 then
          if next.month == 1 then MonthThirtieth(next.year - 1, 12) else MonthThirtieth(next.year, next.month - 1)
        else Date(next.year, next.month, 15)
  {
    Parts(k);
    Parts(k - 1);
  }

  /** No cycle date is closer to `d` than the nearest one, and of two equally close it is the later. */
  lemma {:induction false} NearestMinimisesDistance(d: Day)
    ensures IsCycleDate(NearestCycleDate(d))
    ensures forall c: Day :: IsCycleDate(c) ==>
      && Distance(d, NearestCycleDate(d)) <= Distance(d, c)
      && (Distance(d, NearestCycleDate(d)) == Distance(d, c) ==> AtOrBefore(c, NearestCycleDate(d)))
  {
    hide Ordinal, CycleAt, CycleIndex, NearestCycleDate, IsCycleDate, Before;
    var k := CycleIndex(d);
    NearestInNumbers(d);
    Numbering(k - 1);
    Numbering(k);
    forall c: Day | IsCycleDate(c)
      ensures && Distance(d, NearestCycleDate(d)) <= Distance(d, c)
              && (Distance(d, NearestCycleDate(d)) == Distance(d, c) ==> AtOrBefore(c, NearestCycleDate(d)))
    {
      FromNumber(c, k - 1);
      FromNumber(c, k);
      OrdinalOrder(NearestCycleDate(d), c);
    }
  }

  lemma FromNumber(c: Day, k: int)
    requires IsCycleDate(c)
    ensures CycleIndex(c) < k <==> Ordinal(c) < Ordinal(CycleAt(k))
    ensures CycleIndex(c) == k <==> Ordinal(c) == Ordinal(CycleAt(k))
    ensures Ordinal(c) == Ordinal(CycleAt(k)) <==> c == CycleAt(k)
  {
    NumberedAt(c);
    Numbering(k);
    CycleOrder(CycleIndex(c), k);
    OrdinalOrder(c, CycleAt(k));
  }

  /** The cycle dates numbered from the first one on or after `start` to the last one on or before `until`. */
  function CycleDates(start: Day, until: Day): seq<Day> {
    var first, end := CycleIndex(start), AfterIndex(until);
    seq<Day>(if end <= first then 0 else end - first, i => CycleAt(first + i))
  }

  method GetCycleDates(start: Day, until: Day) returns (cycles: seq<Day>)
    ensures cycles == CycleDates(start, until)
  {
    hide Ordinal, CycleAt, CycleIndex, AfterIndex, NextCycleDate, AdvanceCycle, Before;
    var first := CycleIndex(start);
    cycles := [];
    var current := NextCycleDate(start);
    EngineInNumbers(start);
    while AtOrBefore(current, until)
      invariant current == CycleAt(first + |cycles|)
      invariant cycles == [] || first + |cycles| <= AfterIndex(until)
      invariant forall i :: 0 <= i < |cycles| ==> cycles[i] == CycleAt(first + i)
      decreases Ordinal(until) - Ordinal(current)
    {
      ghost var k := first + |cycles|;
      AfterAdjoint(until, k);
      Numbering(k);
      EngineInNumbers(current);
      CycleOrder(k, k + 1);
      OrdinalOrder(current, CycleAt(k + 1));
      OrdinalOrder(until, current);
      cycles := cycles + [current];
      current := AdvanceCycle(current);
    }
    AfterAdjoint(until, first + |cycles|);
  }

  /** `GetCycleDates` returns every cycle date in [start, until], nothing else, in strictly increasing order. */
  lemma CycleDatesExact(start: Day, until: Day)
    ensures forall d: Day :: d in CycleDates(start, until) <==>
      IsCycleDate(d) && AtOrBefore(start, d) && AtOrBefore(d, until)
    ensures forall i, j :: 0 <= i < j < |CycleDates(start, until)| ==>
      Before(CycleDates(start, until)[i], CycleDates(start, until)[j])
  {
    var first, cycles := CycleIndex(start), CycleDates(start, until);
    forall d: Day
      ensures d in cycles <==> IsCycleDate(d) && AtOrBefore(start, d) && AtOrBefore(d, until)
    {
      if d in cycles {
        var i :| 0 <= i < |cycles| && cycles[i] == d;
        Numbering(first + i);
      }
      if IsCycleDate(d) {
        var k := CycleIndex(d);
        NumberedAt(d);
        IndexAdjoint(start, k);
        AfterAdjoint(until, k);
        if AtOrBefore(start, d) && AtOrBefore(d, until) {
          assert cycles[k - first] == d;
        }
      }
    }
    forall i, j | 0 <= i < j < |cycles|
      ensures Before(cycles[i], cycles[j])
    {
      CycleOrder(first + i, first + j);
    }
  }
}
