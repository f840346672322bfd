/** What is shown of an account that is marked paid, once its last payment is past. */
module SettledLaws {
  import opened Calendar
  import opened Ledger
  import opened LedgerLaws
  import opened Payments
  import opened SnapshotLaws

  /** The balance an account shows: at today or the last payment if that is later, and no credit once paid. */
  function ShownBalance(a: Account, today: Day): int {
    var b := BookOf(a.terms, a.payments);
    var balance := b.CurrentBalance(BalanceAsOf(b, today));
    if a.status.Paid? && balance < 0 then 0 else balance
  }

  /** It is what replay starts from, plus the interest charged, minus every payment replayed, future ones included; of
      that an account marked paid shows only a debt. */
  lemma {:induction false} ShownBalanceConserves(a: Account, today: Day)
    ensures var b := BookOf(a.terms, a.payments);
      var owed :=
        b.Base() + SumInterest(b.Rows(BalanceAsOf(b, today))) - Total(b.payments, (e: Entry) => b.Live(e.date));
      ShownBalance(a, today) == if a.status == Paid && owed < 0 then 0 else owed
  {
    hide BalanceAsOf, Book.CurrentBalance, Book.Rows, BookOf, Book.Live;
    DisplayedBalanceCountsEveryPayment(BookOf(a.terms, a.payments), today);
  }

  predicate AllPaidBy(b: Book, d: Day) {
    forall e <- b.payments :: AtOrBefore(e.date, d)
  }

  lemma {:induction false} LatestIsToday(today: Day, dates: seq<Day>)
    requires forall d <- dates :: AtOrBefore(d, today)
    ensures LatestOf(today, dates) == today
  {
    if dates != [] {
      LatestIsToday(today, dates[..|dates| - 1]);
      assert dates[|dates| - 1] in dates;
    }
  }

  lemma ShownToday(a: Account, d: Day, today: Day)
    requires AllPaidBy(BookOf(a.terms, a.payments), d) && AtOrBefore(d, today)
    ensures BalanceAsOf(BookOf(a.terms, a.payments), today) == today
  {
    hide AtOrBefore, AnchorOf, LatestOf;
    var b := BookOf(a.terms, a.payments);
    var dates := seq<Day>(|b.payments|, i requires 0 <= i < |b.payments| => b.payments[i].date);
    forall e <- dates
      ensures AtOrBefore(e, today)
    {
      var i :| 0 <= i < |dates| && dates[i] == e;
      assert b.payments[i] in b.payments;
      NoLaterThan(e, d, today);
    }
    LatestIsToday(today, dates);
  }

  lemma NoLaterThan(a: Day, b: Day, c: Day)
    requires AtOrBefore(a, b) && AtOrBefore(b, c)
    ensures AtOrBefore(a, c)
  {
  }

  /** Once no payment is left, a balance that is not positive stays so. */
  lemma {:induction false} StaysSettled(b: Book, d: Day, m: int)
    requires AllPaidBy(b, d) && CycleIndex(d) <= m && b.Closing(CycleIndex(d)) <= 0
    ensures b.Closing(m) <= 0
    decreases m - CycleIndex(d)
  {
    hide CycleIndex, AtOrBefore, Book.Live, Book.First;
    if CycleIndex(d) < m {
      StaysSettled(b, d, m - 1);
      NothingPaidIn(b, d, m);
      InterestMonotone(b.Closing(m - 1), 0, b.terms.rate);
    }
  }

  lemma NothingPaidIn(b: Book, d: Day, m: int)
    requires AllPaidBy(b, d) && CycleIndex(d) < m
    ensures b.Paid(m) == 0
  {
    hide CycleIndex, AtOrBefore, Book.Live;
    forall e <- b.payments
      ensures CycleIndex(e.date) != m
    {
      IndexMonotone(e.date, d);
    }
    TotalNone(b.payments, (e: Entry) => b.Live(e.date) && CycleIndex(e.date) == m);
  }

  /** After the last payment the balance is the last closing balance, or in the cycle of the last payment the balance
      it left. */
  lemma AfterLastPayment(b: Book, d: Day, t: Day)
    requires AllPaidBy(b, d) && AtOrBefore(d, t)
    ensures CycleIndex(d) <= AfterIndex(t) - 1 ==> b.CurrentBalance(t) == b.Closing(AfterIndex(t) - 1)
    ensures CycleIndex(d) > AfterIndex(t) - 1 ==> b.CurrentBalance(t) == b.CurrentBalance(d)
  {
    hide CycleIndex, AfterIndex, IsCycleDate, AtOrBefore, Book.Live, Book.CurrentBalance, Book.Closing;
    BalanceSinceLastCycle(b, t);
    BalanceSinceLastCycle(b, d);
    ClosestCycle(t);
    ClosestCycle(d);
    IndexMonotone(d, t);
    var paidBy := (u: Day) =>
      (e: Entry) => b.Live(e.date) && CycleIndex(e.date) == CycleIndex(u) && AtOrBefore(e.date, u);
    forall e <- b.payments
      ensures AtOrBefore(e.date, t) && CycleIndex(e.date) <= CycleIndex(d)
    {
      NoLaterThan(e.date, d, t);
      IndexMonotone(e.date, d);
    }
    if CycleIndex(d) <= AfterIndex(t) - 1 {
      if !IsCycleDate(t) {
        TotalNone(b.payments, paidBy(t));
        TotalSame(b.payments, paidBy(t),
          (e: Entry) => b.Live(e.date) && CycleIndex(e.date) == CycleIndex(t) && AtOrBefore(e.date, t));
      }
    } else {
      SamePeriod(b, d, t);
    }
  }

  lemma SamePeriod(b: Book, d: Day, t: Day)
    requires AllPaidBy(b, d) && AtOrBefore(d, t) && CycleIndex(d) == CycleIndex(t)
    requires forall e <- b.payments :: AtOrBefore(e.date, t)
    ensures PaidEarlierInPeriod(b, t) == PaidEarlierInPeriod(b, d)
  {
    hide CycleIndex, AtOrBefore, Book.Live;
    TotalSame(b.payments,
      (e: Entry) => b.Live(e.date) && CycleIndex(e.date) == CycleIndex(t) && AtOrBefore(e.date, t),
      (e: Entry) => b.Live(e.date) && CycleIndex(e.date) == CycleIndex(d) && AtOrBefore(e.date, d));
  }

  /** After the last payment nothing is ever owed exactly if nothing is owed on its date nor at the close of its
      cycle, which still charges interest on the balance before it. */
  lemma {:induction false} OwesNothingIff(b: Book, d: Day)
    requires AllPaidBy(b, d)
    ensures (forall t: Day :: AtOrBefore(d, t) ==> b.CurrentBalance(t) <= 0) <==>
      b.CurrentBalance(d) <= 0 && b.Closing(CycleIndex(d)) <= 0
  {
    hide CycleIndex, CycleAt, AfterIndex, IsCycleDate, AtOrBefore, Book.CurrentBalance, Book.Closing;
    var k := CycleIndex(d);
    ClosesOn(d);
    AfterLastPayment(b, d, CycleAt(k));
    if b.CurrentBalance(d) <= 0 && b.Closing(k) <= 0 {
      forall t: Day | AtOrBefore(d, t)
        ensures b.CurrentBalance(t) <= 0
      {
        AfterLastPayment(b, d, t);
        if k <= AfterIndex(t) - 1 {
          StaysSettled(b, d, AfterIndex(t) - 1);
        }
      }
    }
  }

  lemma ClosesOn(d: Day)
    ensures AtOrBefore(d, d) && AtOrBefore(d, CycleAt(CycleIndex(d)))
    ensures AfterIndex(CycleAt(CycleIndex(d))) == CycleIndex(d) + 1
  {
    hide CycleIndex, CycleAt, IsCycleDate, AtOrBefore;
    IndexAdjoint(d, CycleIndex(d));
    Numbering(CycleIndex(d));
    OnItself(d);
  }

  /** So a paid account shows zero from its last payment on exactly if the closing balance of that payment's cycle is
      not positive either. */
  lemma {:induction false} PaidShowsZeroIff(a: Account, d: Day)
    requires a.status.Paid? && AllPaidBy(BookOf(a.terms, a.payments), d)
    ensures (forall today: Day :: AtOrBefore(d, today) ==> ShownBalance(a, today) == 0) <==>
      var b := BookOf(a.terms, a.payments); b.CurrentBalance(d) <= 0 && b.Closing(CycleIndex(d)) <= 0
  {
    hide CycleIndex, AtOrBefore, Book.CurrentBalance, Book.Closing, BookOf, BalanceAsOf;
    OwesNothingIff(BookOf(a.terms, a.payments), d);
    forall today: Day | AtOrBefore(d, today)
      ensures ShownBalance(a, today) == 0 <==> BookOf(a.terms, a.payments).CurrentBalance(today) <= 0
    {
      ShownToday(a, d, today);
    }
  }
}
