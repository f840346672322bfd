/** The scan that notifies closed cycles, by any number of workers at once.

    Per account a scan reads (which cycle dates are not notified yet) and later commits: it inserts one
    notification per such date and one event per date and subscribed webhook, all or nothing, because
    (account, cycle date) is unique in the notification table.
 */
module CycleScan {
  import opened Options
  import opened Calendar
  import opened Ledger
  import LedgerLaws
  import opened Payments

  datatype Notification = Notification(account: nat, cycle: Day)

  datatype CycleEvent = CycleEvent(webhook: nat, account: nat, cycle: Day, row: Option<CycleRow>)

  datatype Config = Config(id: nat, account: Option<nat>, active: bool, cycleClosed: bool)

  /** What a scan of one account has read: the dates to notify, the webhooks to notify, and the book. */
  datatype Scan = Scan(account: nat, start: Day, today: Day, dates: seq<Day>, webhooks: seq<nat>, book: Book)

  datatype Db = Db(notified: seq<Notification>, events: seq<CycleEvent>)

  // ---------- One scan ----------

  /** The cycle dates in [start, until] that are not notified yet, in order. */
  function NewCycleDates(start: Day, notified: set<Day>, until: Day): seq<Day> {
    Fresh(CycleDates(start, until), notified)
  }

  function Fresh(dates: seq<Day>, notified: set<Day>): seq<Day> {
    if dates == [] then []
    else
      var last := dates[|dates| - 1];
      Fresh(dates[..|dates| - 1], notified) + (if last !in notified then [last] else [])
  }

  function NotifiedOf(notified: seq<Notification>, account: nat): set<Day> {
    set n | n in notified && n.account == account :: n.cycle
  }

  /** The active webhooks of the account, or of all accounts, that subscribe to closed cycles. */
  function Subscribed(configs: seq<Config>, account: nat): seq<nat> {
    if configs == [] then []
    else
      var c := configs[|configs| - 1];
      Subscribed(configs[..|configs| - 1], account) +
      (if c.active && (c.account == Some(account) || c.account == None) && c.cycleClosed then [c.id] else [])
  }

  function Read(db: Db, account: nat, start: Day, today: Day, webhooks: seq<nat>, book: Book): Scan {
    Scan(account, start, today, NewCycleDates(start, NotifiedOf(db.notified, account), today), webhooks, book)
  }

  function NotificationsOf(s: Scan, dates: seq<Day>): seq<Notification> {
    seq<Notification>(|dates|, i requires 0 <= i < |dates| => Notification(s.account, dates[i]))
  }

  function EventsOn(s: Scan, d: Day, webhooks: seq<nat>): seq<CycleEvent> {
    seq<CycleEvent>(|webhooks|,
      i requires 0 <= i < |webhooks| => CycleEvent(webhooks[i], s.account, d, LedgerLaws.FindRow(s.book.Rows(d), d)))
  }

  function EventsOf(s: Scan, dates: seq<Day>): seq<CycleEvent> {
    if dates == [] then [] else EventsOf(s, dates[..|dates| - 1]) + EventsOn(s, dates[|dates| - 1], s.webhooks)
  }

  predicate Conflicts(db: Db, s: Scan) {
    exists d :: d in s.dates && Notification(s.account, d) in db.notified
  }

  /** The commit of a scan: refused as a whole if any of its notifications exists by now. */
  function CommitScan(db: Db, s: Scan): Db {
    if Conflicts(db, s) then db
    else Db(db.notified + NotificationsOf(s, s.dates), db.events + EventsOf(s, s.dates))
  }

  // ---------- The service: one worker ----------

  datatype Loan = Loan(status: Status, terms: Terms, payments: seq<Payment>)

  class CycleCloseScanService {
    var notified: seq<Notification>
    var events: seq<CycleEvent>

    function Value(): Db
      reads this
    {
      Db(notified, events)
    }

    constructor ()
      ensures Value() == Db([], [])
    {
      notified, events := [], [];
    }

    method ScanAccount(account: nat, loan: Loan, configs: seq<Config>, today: Day) returns (n: nat)
      modifies this
      ensures var s := Read(old(Value()), account, loan.terms.start, today, Subscribed(configs, account),
        BookOf(loan.terms, loan.payments));
        Value() == CommitScan(old(Value()), s) && n == |s.dates|
    {
      hide NewCycleDates, Book.Rows, LedgerLaws.FindRow, Subscribed, AnchorOf, Entries, NotificationsOf, EventsOf,
        EventsOn;
      hide NotifiedOf, Conflicts;
      ghost var was := Value();
      var already := NotifiedOf(notified, account);
      var webhooks := Subscribed(configs, account);
      var book := BookOf(loan.terms, loan.payments);
      var s := Read(was, account, loan.terms.start, today, webhooks, book);
      var pending := NewCycleDates(loan.terms.start, already, today);
      assert pending == s.dates;
      NoConflictAlone(was, account, loan.terms.start, today, webhooks, book);
      NothingInserted(s);
      assert pending[..0] == [] && pending[..|pending|] == pending;
      var entries := Entries(loan.payments);
      var anchor := LedgerAnchor(loan.payments);
      for i := 0 to |pending|
        invariant notified == was.notified + NotificationsOf(s, pending[..i])
        invariant events == was.events + EventsOf(s, pending[..i])
      {
        var d := pending[i];
        notified := notified + [Notification(account, d)];
        var rows := ProjectLedger(loan.terms, entries, d, anchor);
        var row := LedgerLaws.FindRow(rows, d);
        assert row == LedgerLaws.FindRow(book.Rows(d), d);
        for j := 0 to |webhooks|
          invariant notified == was.notified + NotificationsOf(s, pending[..i]) + [Notification(account, d)]
          invariant events == was.events + EventsOf(s, pending[..i]) + EventsOn(s, d, webhooks[..j])
        {
          OneMoreEvent(s, d, webhooks, j);
          events := events + [CycleEvent(webhooks[j], account, d, row)];
        }
        assert webhooks[..|webhooks|] == webhooks;
        OneMoreDate(s, pending, i);
      }
      n := |pending|;
    }

    /** Every open or active account in turn; one whose scan raises is rolled back to its savepoint alone. */
    method ScanAll(accounts: seq<nat>, loans: map<nat, Loan>, configs: seq<Config>, raises: set<nat>,
        today: Day) returns (closed: nat)
      requires forall a <- accounts :: a in loans
      modifies this
      ensures Value() == ScanEach(old(Value()), accounts, loans, configs, raises, today)
      ensures |notified| == |old(notified)| + closed
      ensures (forall i, j :: 0 <= i < j < |accounts| ==> accounts[i] != accounts[j]) ==>
        |events| == |old(events)| + closed + Surplus(old(Value()), accounts, loans, configs, raises, today)
    {
      hide CommitScan, Read, Scanned, Surplus;
      closed := 0;
      assert accounts[..0] == [];
      for i := 0 to |accounts|
        invariant Value() == ScanEach(old(Value()), accounts[..i], loans, configs, raises, today)
        invariant |notified| == |old(notified)| + closed
      {
        var a := accounts[i];
        assert accounts[..i + 1][..i] == accounts[..i];
        if Scanned(loans[a].status) {
          ghost var db := Value();
          var savedNotified, savedEvents := notified, events;
          var n := ScanAccount(a, loans[a], configs, today);
          if a in raises {
            notified, events := savedNotified, savedEvents;
          } else {
            AloneCommits(db, a, loans[a].terms.start, today, Subscribed(configs, a),
              BookOf(loans[a].terms, loans[a].payments));
            closed := closed + n;
          }
        }
      }
      assert accounts[..|accounts|] == accounts;
      if forall i, j :: 0 <= i < j < |accounts| ==> accounts[i] != accounts[j] {
        EventsOfAPass(old(Value()), accounts, loans, configs, raises, today);
      }
    }
  }

  /** A worker's pass over the accounts, no other worker interfering. */
  function ScanEach(db: Db, accounts: seq<nat>, loans: map<nat, Loan>, configs: seq<Config>, raises: set<nat>,
      today: Day): Db
    requires forall a <- accounts :: a in loans
  {
    if accounts == [] then db
    else
      var before, a := ScanEach(db, accounts[..|accounts| - 1], loans, configs, raises, today),
        accounts[|accounts| - 1];
      if !Scanned(loans[a].status) || a in raises then before
      else CommitScan(before, Read(before, a, loans[a].terms.start, today, Subscribed(configs, a),
        BookOf(loans[a].terms, loans[a].payments)))
  }

  /** After a pass every cycle date up to `today` of every open or active account is notified, except for the
      accounts whose scan raised; those stay as they were and stop no other account. */
  lemma {:induction false} PassNotifiesEveryAccount(db: Db, accounts: seq<nat>, loans: map<nat, Loan>,
      configs: seq<Config>, raises: set<nat>, today: Day)
    requires forall a <- accounts :: a in loans
    ensures var after := ScanEach(db, accounts, loans, configs, raises, today);
      && db.notified <= after.notified && db.events <= after.events
      && (forall a <- accounts :: (loans[a].status == Open || loans[a].status == Active) && a !in raises ==>
            AllNotified(after.notified, a, loans[a].terms.start, today))
      && (forall n <- after.notified[|db.notified|..] ::
            n.account in accounts && n.account !in raises &&
            (loans[n.account].status == Open || loans[n.account].status == Active))
  {
    hide CommitScan, Read, AllNotified;
    if accounts != [] {
      var init, a := accounts[..|accounts| - 1], accounts[|accounts| - 1];
      assert accounts == init + [a];
      PassNotifiesEveryAccount(db, init, loans, configs, raises, today);
      var before, after := ScanEach(db, init, loans, configs, raises, today),
        ScanEach(db, accounts, loans, configs, raises, today);
      if Scanned(loans[a].status) && a !in raises {
        AloneCommits(before, a, loans[a].terms.start, today, Subscribed(configs, a),
          BookOf(loans[a].terms, loans[a].payments));
        NewRows(db.notified, before.notified, after.notified, a);
        forall b <- init | Scanned(loans[b].status) && b !in raises
          ensures AllNotified(after.notified, b, loans[b].terms.start, today)
        {
          StaysNotified(before.notified, after.notified, b, loans[b].terms.start, today);
        }
      }
    }
  }

  predicate Scanned(status: Status) {
    status.Open? || status.Active?
  }

  ghost predicate AllNotified(notified: seq<Notification>, account: nat, start: Day, today: Day) {
    forall d: Day :: IsCycleDate(d) && AtOrBefore(start, d) && AtOrBefore(d, today) ==>
      Notification(account, d) in notified
  }

  lemma NothingInserted(s: Scan)
    ensures NotificationsOf(s, []) == [] && EventsOf(s, []) == []
    ensures forall d :: EventsOn(s, d, s.webhooks[..0]) == []
  {
  }

  lemma OneMoreDate(s: Scan, dates: seq<Day>, i: nat)
    requires i < |dates|
    ensures NotificationsOf(s, dates[..i + 1]) == NotificationsOf(s, dates[..i]) + [Notification(s.account, dates[i])]
    ensures EventsOf(s, dates[..i + 1]) == EventsOf(s, dates[..i]) + EventsOn(s, dates[i], s.webhooks)
  {
    hide EventsOn;
    assert dates[..i + 1][..i] == dates[..i];
  }

  lemma OneMoreEvent(s: Scan, d: Day, webhooks: seq<nat>, j: nat)
    requires j < |webhooks|
    ensures EventsOn(s, d, webhooks[..j + 1]) ==
      EventsOn(s, d, webhooks[..j]) + [CycleEvent(webhooks[j], s.account, d, LedgerLaws.FindRow(s.book.Rows(d), d))]
  {
  }

  lemma {:induction false} FreshIsExact(dates: seq<Day>, notified: set<Day>)
    ensures forall d :: d in Fresh(dates, notified) <==> d in dates && d !in notified
    ensures (forall i, j :: 0 <= i < j < |dates| ==> dates[i] != dates[j]) ==>
      forall i, j :: 0 <= i < j < |Fresh(dates, notified)| ==> Fresh(dates, notified)[i] != Fresh(dates, notified)[j]
  {
    if dates != [] {
      var init := dates[..|dates| - 1];
      FreshIsExact(init, notified);
      assert dates == init + [dates[|dates| - 1]];
    }
  }

  /** The webhooks an event goes to are the active ones of the account, or of all accounts, that subscribe. */
  lemma {:induction false} SubscribedIsExact(configs: seq<Config>, account: nat)
    ensures forall g :: g in Subscribed(configs, account) <==>
      exists c ::
        c in configs && c.id == g && c.active && c.cycleClosed && (c.account == Some(account) || c.account == None)
  {
    if configs != [] {
      var init, last := configs[..|configs| - 1], configs[|configs| - 1];
      assert configs == init + [last];
      SubscribedIsExact(init, account);
    }
  }

  lemma {:induction false} SubscribedAreDistinct(configs: seq<Config>, account: nat)
    requires forall i, j :: 0 <= i < j < |configs| ==> configs[i].id != configs[j].id
    ensures forall i, j :: 0 <= i < j < |Subscribed(configs, account)| ==>
      Subscribed(configs, account)[i] != Subscribed(configs, account)[j]
  {
    if configs != [] {
      var n := |configs| - 1;
      SubscribedAreDistinct(configs[..n], account);
      SubscribedIsExact(configs[..n], account);
      var before := Subscribed(configs[..n], account);
      forall i | 0 <= i < |before|
        ensures before[i] != configs[n].id
      {
        var g := before[i];
        assert g in before;
        var c :| c in configs[..n] && c.id == g;
        var j :| 0 <= j < n && configs[..n][j] == c;
        assert configs[j] == c;
      }
    }
  }

  /** A scan reads exactly the cycle dates of [start, today] that have no notification, each once. */
  lemma ReadIsExact(db: Db, account: nat, start: Day, today: Day, webhooks: seq<nat>, book: Book)
    ensures var dates := Read(db, account, start, today, webhooks, book).dates;
      && (forall d: Day :: d in dates <==>
           IsCycleDate(d) && AtOrBefore(start, d) && AtOrBefore(d, today) && Notification(account, d) !in db.notified)
      && (forall i, j :: 0 <= i < j < |dates| ==> dates[i] != dates[j])
  {
    hide CycleDates, IsCycleDate, AtOrBefore, Before;
    var all, notified := CycleDates(start, today), NotifiedOf(db.notified, account);
    CycleDatesExact(start, today);
    FreshIsExact(all, notified);
    forall i, j | 0 <= i < j < |all|
      ensures all[i] != all[j]
    {
      LedgerLaws.NotBeforeItself(all[i]);
      assert Before(all[i], all[j]);
      EarlierIsDifferent(all[i], all[j]);
    }
    forall d: Day
      ensures d in notified <==> Notification(account, d) in db.notified
    {
      if d in notified {
        var n :| n in db.notified && n.account == account && n.cycle == d;
        assert n == Notification(account, d);
      }
    }
  }

  lemma EarlierIsDifferent(a: Day, b: Day)
    ensures Before(a, b) ==> a != b
  {
  }

  lemma NoConflictAlone(db: Db, account: nat, start: Day, today: Day, webhooks: seq<nat>, book: Book)
    ensures !Conflicts(db, Read(db, account, start, today, webhooks, book))
  {
    hide Read, IsCycleDate, AtOrBefore;
    ReadIsExact(db, account, start, today, webhooks, book);
    ReadAccount(db, account, start, today, webhooks, book);
  }

  lemma ReadAccount(db: Db, account: nat, start: Day, today: Day, webhooks: seq<nat>, book: Book)
    ensures var s := Read(db, account, start, today, webhooks, book);
      s.account == account && s.start == start && s.today == today && s.webhooks == webhooks && s.book == book
  {
  }

  /** With no other worker between its read and its commit, a scan succeeds. */
  lemma AloneCommits(db: Db, account: nat, start: Day, today: Day, webhooks: seq<nat>, book: Book)
    ensures var s := Read(db, account, start, today, webhooks, book);
      var after := CommitScan(db, s);
      && db.notified <= after.notified && db.events <= after.events && |after.notified| == |db.notified| + |s.dates|
      && AllNotified(after.notified, account, start, today)
      && (forall n <- after.notified[|db.notified|..] :: n.account == account)
  {
    hide Read, IsCycleDate, AtOrBefore, Conflicts, EventsOf;
    var s := Read(db, account, start, today, webhooks, book);
    NoConflictAlone(db, account, start, today, webhooks, book);
    ReadIsExact(db, account, start, today, webhooks, book);
    ReadAccount(db, account, start, today, webhooks, book);
    InsertedDates(s);
    var after := CommitScan(db, s);
    assert after.notified[|db.notified|..] == NotificationsOf(s, s.dates);
  }

  lemma InsertedDates(s: Scan)
    ensures forall d: Day :: d in s.dates <==> Notification(s.account, d) in NotificationsOf(s, s.dates)
    ensures forall n <- NotificationsOf(s, s.dates) :: n.account == s.account && n.cycle in s.dates
  {
    var ns := NotificationsOf(s, s.dates);
    forall d: Day | d in s.dates
      ensures Notification(s.account, d) in ns
    {
      var i :| 0 <= i < |s.dates| && s.dates[i] == d;
      assert ns[i] == Notification(s.account, d);
    }
  }

  lemma NewRows(before: seq<Notification>, mid: seq<Notification>, after: seq<Notification>, account: nat)
    requires before <= mid <= after && forall n <- after[|mid|..] :: n.account == account
    ensures forall n <- after[|before|..] :: n in mid[|before|..] || n.account == account
  {
  }

  lemma StaysNotified(a: seq<Notification>, b: seq<Notification>, account: nat, start: Day, today: Day)
    requires a <= b && AllNotified(a, account, start, today)
    ensures AllNotified(b, account, start, today)
  {
  }

  // ---------- How many events a scan enqueues ----------

  /** A scan enqueues one event per date and webhook, whatever it returns. */
  lemma {:induction false} EventsPerScan(s: Scan, dates: seq<Day>)
    ensures |EventsOf(s, dates)| == |dates| * |s.webhooks|
  {
    hide Book.Rows, LedgerLaws.FindRow;
    if dates != [] {
      EventsPerScan(s, dates[..|dates| - 1]);
      OneMoreRowOfEvents(|dates|, |s.webhooks|);
    }
  }

  lemma OneMoreRowOfEvents(n: nat, m: nat)
    requires n > 0
    ensures n * m == (n - 1) * m + m
  {
  }

  /** The number a scan of one account returns (its new cycle dates) is the number of events it enqueues exactly
      if there is no such date or just one webhook. */
  lemma {:induction false} ScanReturnsItsEventsIff(db: Db, s: Scan)
    requires !Conflicts(db, s)
    ensures |CommitScan(db, s).events| - |db.events| == |s.dates| <==> s.dates == [] || |s.webhooks| == 1
  {
    hide Conflicts, EventsOf, NotificationsOf;
    EventsPerScan(s, s.dates);
    SameProduct(|s.dates|, |s.webhooks|);
  }

  lemma SameProduct(n: nat, m: nat)
    ensures n * m == n <==> n == 0 || m == 1
  {
    if n > 0 && m > 1 {
      OneMoreRowOfEvents(m, n);
    }
  }

  /** How many events more than closed cycles a pass enqueues, told from the tables before it. */
  function Surplus(db: Db, accounts: seq<nat>, loans: map<nat, Loan>, configs: seq<Config>, raises: set<nat>,
      today: Day): int
    requires forall a <- accounts :: a in loans
  {
    if accounts == [] then 0
    else
      var a := accounts[|accounts| - 1];
      Surplus(db, accounts[..|accounts| - 1], loans, configs, raises, today) +
      (if !Scanned(loans[a].status) || a in raises then 0
       else |NewCycleDates(loans[a].terms.start, NotifiedOf(db.notified, a), today)| * (|Subscribed(configs, a)| - 1))
  }

  /** The events a pass enqueues are the cycles it closes, which is what it returns, plus its surplus; the surplus
      is zero if every account has one subscribed webhook, but not in general. */
  lemma {:induction false} EventsOfAPass(db: Db, accounts: seq<nat>, loans: map<nat, Loan>,
      configs: seq<Config>, raises: set<nat>, today: Day)
    requires forall i, j :: 0 <= i < j < |accounts| ==> accounts[i] != accounts[j]
    requires forall a <- accounts :: a in loans
    ensures var after := ScanEach(db, accounts, loans, configs, raises, today);
      |after.events| - |db.events| ==
      |after.notified| - |db.notified| + Surplus(db, accounts, loans, configs, raises, today)
    ensures (forall a <- accounts :: |Subscribed(configs, a)| == 1) ==>
      Surplus(db, accounts, loans, configs, raises, today) == 0
  {
    hide CommitScan, NewCycleDates, NotifiedOf, Scanned, Subscribed, BookOf;
    if accounts != [] {
      var init, a := accounts[..|accounts| - 1], accounts[|accounts| - 1];
      assert accounts == init + [a];
      EventsOfAPass(db, init, loans, configs, raises, today);
      if Scanned(loans[a].status) && a !in raises {
        PassNotifiesEveryAccount(db, init, loans, configs, raises, today);
        var before := ScanEach(db, init, loans, configs, raises, today);
        SameNotified(db.notified, before.notified, a);
        ScanCounts(before, a, loans[a].terms.start, today, Subscribed(configs, a),
          BookOf(loans[a].terms, loans[a].payments));
      }
    }
  }

  lemma SameNotified(before: seq<Notification>, after: seq<Notification>, account: nat)
    requires before <= after && forall n <- after[|before|..] :: n.account != account
    ensures NotifiedOf(after, account) == NotifiedOf(before, account)
  {
    assert after == before + after[|before|..];
  }

  lemma ScanCounts(db: Db, account: nat, start: Day, today: Day, webhooks: seq<nat>, book: Book)
    ensures var n := |NewCycleDates(start, NotifiedOf(db.notified, account), today)|;
      var after := CommitScan(db, Read(db, account, start, today, webhooks, book));
      && |after.notified| == |db.notified| + n
      && |after.events| == |db.events| + n + n * (|webhooks| - 1)
  {
    hide NewCycleDates, NotifiedOf, Conflicts, EventsOf;
    NoConflictAlone(db, account, start, today, webhooks, book);
    var s := Read(db, account, start, today, webhooks, book);
    EventsPerScan(s, s.dates);
    assert |s.dates| * |webhooks| == |s.dates| + |s.dates| * (|webhooks| - 1);
  }

  /** The first pass over an account that starts on a cycle date, made on that date, returns 1: without webhooks
      it enqueues nothing, with two for all accounts it enqueues two events. */
  lemma FirstCycleEvents(c: Day, configs: seq<Config>)
    requires IsCycleDate(c)
    requires configs == [] || configs == [Config(1, None, true, true), Config(2, None, true, true)]
    ensures var loans := map[1 := Loan(Open, Terms(10000, 500, c), [])];
      var after := ScanEach(Db([], []), [1], loans, configs, {}, c);
      |after.notified| == 1 && |after.events| == |configs|
  {
    hide IsCycleDate, NewCycleDates, NotifiedOf, CommitScan;
    var terms, db := Terms(10000, 500, c), Db([], []);
    var loans := map[1 := Loan(Open, terms, [])];
    var webhooks := Subscribed(configs, 1);
    BothSubscribed();
    var book := BookOf(terms, []);
    ReadIsExact(db, 1, c, c, webhooks, book);
    ScanCounts(db, 1, c, c, webhooks, book);
    ReadAccount(db, 1, c, c, webhooks, book);
    OnlyItself(NewCycleDates(c, NotifiedOf([], 1), c), c);
    assert [1][..0] == [];
    assert ScanEach(db, [], loans, configs, {}, c) == db;
  }

  lemma BothSubscribed()
    ensures Subscribed([], 1) == []
    ensures |Subscribed([Config(1, None, true, true), Config(2, None, true, true)], 1)| == 2
  {
    var c, d := Config(1, None, true, true), Config(2, None, true, true);
    assert [c, d][..1] == [c] && [c][..0] == [];
    assert Subscribed([c], 1) == [1];
  }

  lemma OnlyItself(dates: seq<Day>, c: Day)
    requires forall d: Day :: d in dates <==> AtOrBefore(c, d) && AtOrBefore(d, c) && IsCycleDate(d)
    requires forall i, j :: 0 <= i < j < |dates| ==> dates[i] != dates[j]
    requires IsCycleDate(c)
    ensures |dates| == 1
  {
    hide IsCycleDate;
    assert c in dates;
    assert |dates| > 1 ==> dates[0] != dates[1];
    forall i | 0 <= i < |dates|
      ensures dates[i] == c
    {
      assert dates[i] in dates;
    }
  }
}
