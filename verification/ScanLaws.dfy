/** Exactly-once notification over every interleaving of concurrent scans. */
module ScanLaws {
  import opened Options
  import opened Calendar
  import opened Ledger
  import opened CycleScan
  import LedgerLaws

  /** The database, the scans between their read and their commit, and the scans that have committed. */
  datatype World = World(db: Db, reading: seq<Scan>, log: seq<Scan>)

  datatype Step =
    | Begin(account: nat, start: Day, today: Day, webhooks: seq<nat>, book: Book)
    | Finish(k: nat)
    | Abort(k: nat)

  function Apply(w: World, step: Step): World {
    match step
    case Begin(account, start, today, webhooks, book) =>
      w.(reading := w.reading + [Read(w.db, account, start, today, webhooks, book)])
    case Finish(k) =>
      if k >= |w.reading| then w
      else
        var s := w.reading[k];
        World(CommitScan(w.db, s), w.reading[..k] + w.reading[k + 1..],
          if Conflicts(w.db, s) then w.log else w.log + [s])
    case Abort(k) => if k >= |w.reading| then w else w.(reading := w.reading[..k] + w.reading[k + 1..])
  }

  function Run(steps: seq<Step>): World {
    if steps == [] then World(Db([], []), [], []) else Apply(Run(steps[..|steps| - 1]), steps[|steps| - 1])
  }

  /** The identifiers of the webhooks a scan reads are those of distinct table rows. */
  predicate ProperSteps(steps: seq<Step>) {
    forall i :: 0 <= i < |steps| && steps[i].Begin? ==> Distinct(steps[i].webhooks)
  }

  predicate Distinct<T(==)>(xs: seq<T>) {
    forall i, j :: 0 <= i < j < |xs| ==> xs[i] != xs[j]
  }

  predicate Covers(s: Scan, account: nat, d: Day) {
    s.account == account && d in s.dates
  }

  /** How many events there are for this webhook, account and cycle. */
  function Count(events: seq<CycleEvent>, webhook: nat, account: nat, d: Day): nat {
    if events == [] then 0
    else
      var e := events[|events| - 1];
      Count(events[..|events| - 1], webhook, account, d) + (if e.webhook == webhook && e.account == account &&
        e.cycle == d then 1 else 0)
  }

  // ---------- The invariant ----------

  /** The notifications are those of the committed scans, each by exactly one of them. */
  ghost predicate NotifiedByLog(w: World) {
    && Distinct(w.db.notified)
    && (forall a, d: Day :: Notification(a, d) in w.db.notified <==> exists s :: s in w.log && Covers(s, a, d))
    && (forall i, j, a, d: Day ::
          0 <= i < |w.log| && 0 <= j < |w.log| && Covers(w.log[i], a, d) && Covers(w.log[j], a, d) ==> i == j)
  }

  /** There is one event per webhook the notifying scan had read, and no other. */
  ghost predicate EventsByLog(w: World) {
    forall s, g, a, d: Day :: s in w.log && Covers(s, a, d) ==>
      Count(w.db.events, g, a, d) == (if g in s.webhooks then 1 else 0)
  }

  ghost predicate NoOtherEvents(w: World) {
    forall g, a, d: Day :: Notification(a, d) !in w.db.notified ==> Count(w.db.events, g, a, d) == 0
  }

  /** What a scan read and what is notified by now cover every cycle date the scan looked at. */
  ghost predicate Complete(db: Db, s: Scan) {
    && Distinct(s.dates) && Distinct(s.webhooks)
    && (forall d: Day :: IsCycleDate(d) && AtOrBefore(s.start, d) && AtOrBefore(d, s.today) ==>
          d in s.dates || Notification(s.account, d) in db.notified)
  }

  ghost predicate Inv(w: World) {
    && NotifiedByLog(w) && EventsByLog(w) && NoOtherEvents(w)
    && (forall k :: 0 <= k < |w.reading| ==> Complete(w.db, w.reading[k]))
  }

  // ---------- Counting the events of one scan ----------

  lemma {:induction false} CountAppend(xs: seq<CycleEvent>, ys: seq<CycleEvent>, g: nat, a: nat, d: Day)
    ensures Count(xs + ys, g, a, d) == Count(xs, g, a, d) + Count(ys, g, a, d)
  {
    if ys == [] {
      assert xs + ys == xs;
    } else {
      CountAppend(xs, ys[..|ys| - 1], g, a, d);
      assert (xs + ys)[..|xs + ys| - 1] == xs + ys[..|ys| - 1];
    }
  }

  lemma {:induction false} CountOn(s: Scan, date: Day, webhooks: seq<nat>, g: nat, a: nat, d: Day)
    requires Distinct(webhooks)
    ensures Count(EventsOn(s, date, webhooks), g, a, d) == if s.account == a && date == d && g in webhooks then 1 else 0
  {
    hide Book.Rows;
    if webhooks != [] {
      var n := |webhooks| - 1;
      CountOn(s, date, webhooks[..n], g, a, d);
      assert EventsOn(s, date, webhooks)[..n] == EventsOn(s, date, webhooks[..n]);
      assert webhooks == webhooks[..n] + [webhooks[n]];
    }
  }

  lemma {:induction false} CountOf(s: Scan, dates: seq<Day>, g: nat, a: nat, d: Day)
    requires Distinct(dates) && Distinct(s.webhooks)
    ensures Count(EventsOf(s, dates), g, a, d) == if s.account == a && d in dates && g in s.webhooks then 1 else 0
  {
    hide EventsOn;
    if dates != [] {
      var n := |dates| - 1;
      CountOf(s, dates[..n], g, a, d);
      CountOn(s, dates[n], s.webhooks, g, a, d);
      CountAppend(EventsOf(s, dates[..n]), EventsOn(s, dates[n], s.webhooks), g, a, d);
      assert dates == dates[..n] + [dates[n]];
    }
  }

  // ---------- Preservation ----------

  lemma CommitKeepsNotified(w: World, s: Scan)
    requires NotifiedByLog(w) && Complete(w.db, s) && !Conflicts(w.db, s)
    ensures NotifiedByLog(World(CommitScan(w.db, s), w.reading, w.log + [s]))
  {
    hide EventsOf, IsCycleDate, AtOrBefore;
    InsertedDates(s);
    var v, ns := World(CommitScan(w.db, s), w.reading, w.log + [s]), NotificationsOf(s, s.dates);
    forall i, j | 0 <= i < j < |v.db.notified|
      ensures v.db.notified[i] != v.db.notified[j]
    {
      if j >= |w.db.notified| {
        assert v.db.notified[j] == ns[j - |w.db.notified|] && ns[j - |w.db.notified|] in ns;
        if i >= |w.db.notified| {
          assert v.db.notified[i] == ns[i - |w.db.notified|];
        }
      }
    }
    forall a, d: Day
      ensures Notification(a, d) in v.db.notified <==> exists t :: t in v.log && Covers(t, a, d)
    {
      assert Notification(a, d) in ns <==> Covers(s, a, d);
      assert s in v.log;
      if t :| t in w.log && Covers(t, a, d) {
        assert t in v.log;
      }
    }
    forall i, j, a, d: Day | 0 <= i < |v.log| && 0 <= j < |v.log| && Covers(v.log[i], a, d) && Covers(v.log[j], a, d)
      ensures i == j
    {
    }
  }

  lemma CommitKeepsEvents(w: World, s: Scan)
    requires NotifiedByLog(w) && EventsByLog(w) && NoOtherEvents(w) && Complete(w.db, s) && !Conflicts(w.db, s)
    ensures var v := World(CommitScan(w.db, s), w.reading, w.log + [s]);
      EventsByLog(v) && NoOtherEvents(v)
  {
    hide EventsOf, IsCycleDate, AtOrBefore, NotificationsOf;
    InsertedDates(s);
    var v := World(CommitScan(w.db, s), w.reading, w.log + [s]);
    forall g, a, d: Day
      ensures Count(v.db.events, g, a, d) ==
        Count(w.db.events, g, a, d) + (if Covers(s, a, d) && g in s.webhooks then 1 else 0)
    {
      CountOf(s, s.dates, g, a, d);
      CountAppend(w.db.events, EventsOf(s, s.dates), g, a, d);
    }
    forall t, g, a, d: Day | t in v.log && Covers(t, a, d)
      ensures Count(v.db.events, g, a, d) == (if g in t.webhooks then 1 else 0)
    {
      if Covers(s, a, d) {
        assert Notification(a, d) !in w.db.notified;
        assert t !in w.log;
        assert t == s;
      } else {
        assert t in w.log;
      }
    }
    forall g, a, d: Day | Notification(a, d) !in v.db.notified
      ensures Count(v.db.events, g, a, d) == 0
    {
      assert !Covers(s, a, d);
    }
  }

  lemma CommitKeepsComplete(db: Db, s: Scan, t: Scan)
    requires Complete(db, t)
    ensures Complete(CommitScan(db, s), t)
  {
  }

  lemma BeginIsComplete(db: Db, account: nat, start: Day, today: Day, webhooks: seq<nat>, book: Book)
    requires Distinct(webhooks)
    ensures Complete(db, Read(db, account, start, today, webhooks, book))
  {
    hide Read, IsCycleDate, AtOrBefore;
    ReadIsExact(db, account, start, today, webhooks, book);
    ReadAccount(db, account, start, today, webhooks, book);
  }

  lemma SameLog(w: World, reading: seq<Scan>)
    requires NotifiedByLog(w) && EventsByLog(w) && NoOtherEvents(w)
    ensures var v := w.(reading := reading); NotifiedByLog(v) && EventsByLog(v) && NoOtherEvents(v)
  {
  }

  lemma StepKeepsInv(w: World, step: Step)
    requires Inv(w) && (step.Begin? ==> Distinct(step.webhooks))
    ensures Inv(Apply(w, step))
  {
    hide NotifiedByLog, EventsByLog, NoOtherEvents, Complete, Read, Conflicts, Distinct;
    var v := Apply(w, step);
    match step
    case Begin(account, start, today, webhooks, book) =>
      BeginIsComplete(w.db, account, start, today, webhooks, book);
      SameLog(w, v.reading);
    case Abort(k) =>
      SameLog(w, v.reading);
    case Finish(k) =>
      if k < |w.reading| {
        var s, rest := w.reading[k], w.reading[..k] + w.reading[k + 1..];
        SameLog(w, rest);
        if !Conflicts(w.db, s) {
          CommitKeepsNotified(w.(reading := rest), s);
          CommitKeepsEvents(w.(reading := rest), s);
        }
        forall j | 0 <= j < |rest|
          ensures Complete(v.db, rest[j])
        {
          CommitKeepsComplete(w.db, s, w.reading[if j < k then j else j + 1]);
        }
      }
  }

  lemma {:induction false} RunKeepsInv(steps: seq<Step>)
    requires ProperSteps(steps)
    ensures Inv(Run(steps))
  {
    hide Apply, Inv, Distinct;
    if steps == [] {
      NothingYet();
    } else {
      RunKeepsInv(steps[..|steps| - 1]);
      StepKeepsInv(Run(steps[..|steps| - 1]), steps[|steps| - 1]);
    }
  }

  lemma NothingYet()
    ensures Inv(World(Db([], []), [], []))
  {
  }

  // ---------- What it means ----------

  /** Whatever the interleaving of scans and their dates, each (account, cycle date) is notified at most once,
      by exactly one committed scan; for it there is exactly one event per webhook that scan had read and none
      for any other; and where nothing is notified there is no event. */
  lemma ExactlyOnce(steps: seq<Step>)
    requires ProperSteps(steps)
    ensures var w := Run(steps);
      && Distinct(w.db.notified)
      && (forall a, d: Day :: Notification(a, d) in w.db.notified ==>
           exists k :: 0 <= k < |w.log| && NotifiedOnlyBy(w, k, a, d))
      && (forall g, a, d: Day :: Notification(a, d) !in w.db.notified ==> Count(w.db.events, g, a, d) == 0)
  {
    hide Run, Distinct;
    RunKeepsInv(steps);
    var w := Run(steps);
    forall a, d: Day | Notification(a, d) in w.db.notified
      ensures exists k :: 0 <= k < |w.log| && NotifiedOnlyBy(w, k, a, d)
    {
      var s :| s in w.log && Covers(s, a, d);
      var k :| 0 <= k < |w.log| && w.log[k] == s;
      assert NotifiedOnlyBy(w, k, a, d);
    }
  }

  ghost predicate NotifiedOnlyBy(w: World, k: nat, a: nat, d: Day) {
    && k < |w.log| && Covers(w.log[k], a, d)
    && (forall j :: 0 <= j < |w.log| && Covers(w.log[j], a, d) ==> j == k)
    && (forall g :: Count(w.db.events, g, a, d) == (if g in w.log[k].webhooks then 1 else 0))
  }

  /** Step i began this scan: it is what the step read of the database as it was then. */
  predicate BegunAt(steps: seq<Step>, i: nat, s: Scan) {
    && i < |steps| && steps[i].Begin?
    && s == Read(Run(steps[..i]).db, steps[i].account, steps[i].start, steps[i].today, steps[i].webhooks, steps[i].book)
  }

  ghost predicate Begun(steps: seq<Step>, s: Scan) {
    exists i: nat :: BegunAt(steps, i, s)
  }

  lemma BegunBefore(steps: seq<Step>, s: Scan)
    requires steps != [] && Begun(steps[..|steps| - 1], s)
    ensures Begun(steps, s)
  {
    hide Run, Read;
    var i: nat :| BegunAt(steps[..|steps| - 1], i, s);
    assert steps[..|steps| - 1][..i] == steps[..i];
    assert BegunAt(steps, i, s);
  }

  /** Every scan that is under way or has committed was begun by some step. */
  lemma {:induction false} ScansWereBegun(steps: seq<Step>)
    ensures forall s <- Run(steps).reading + Run(steps).log :: Begun(steps, s)
  {
    hide Read, Conflicts, CommitScan, Begun;
    if steps != [] {
      var n := |steps| - 1;
      var w := Run(steps[..n]);
      ScansWereBegun(steps[..n]);
      forall s | s in Run(steps).reading + Run(steps).log
        ensures Begun(steps, s)
      {
        if s in w.reading + w.log {
          BegunBefore(steps, s);
        } else {
          NewScanIsBegun(steps, s);
        }
      }
    }
  }

  lemma NewScanIsBegun(steps: seq<Step>, s: Scan)
    requires steps != []
    requires var w := Run(steps[..|steps| - 1]); s !in w.reading + w.log && s in Run(steps).reading + Run(steps).log
    ensures Begun(steps, s)
  {
    hide Read, Apply;
    OnlyBeginReads(Run(steps[..|steps| - 1]), steps[|steps| - 1], s);
    assert BegunAt(steps, |steps| - 1, s);
  }

  lemma OnlyBeginReads(w: World, step: Step, s: Scan)
    requires s in Apply(w, step).reading + Apply(w, step).log
    ensures s in w.reading + w.log ||
      (step.Begin? && s == Read(w.db, step.account, step.start, step.today, step.webhooks, step.book))
  {
    hide Read, Conflicts, CommitScan;
    if !step.Begin? && step.k < |w.reading| {
      assert forall t <- w.reading[..step.k] + w.reading[step.k + 1..] :: t in w.reading;
    }
  }

  /** Every event carries the row of its cycle in the book its scan had read. */
  ghost predicate RowsByLog(w: World) {
    forall e <- w.db.events :: exists s :: s in w.log && Covers(s, e.account, e.cycle) && HasRow(e, s)
  }

  predicate HasRow(e: CycleEvent, s: Scan) {
    e.row == LedgerLaws.FindRow(s.book.Rows(e.cycle), e.cycle)
  }

  lemma {:induction false} EventsHaveRows(s: Scan, dates: seq<Day>)
    ensures forall e <- EventsOf(s, dates) :: e.account == s.account && e.cycle in dates && HasRow(e, s)
  {
    hide Book.Rows, LedgerLaws.FindRow;
    if dates != [] {
      var init, d := dates[..|dates| - 1], dates[|dates| - 1];
      assert dates == init + [d];
      EventsHaveRows(s, init);
    }
  }

  lemma {:induction false} RunKeepsRows(steps: seq<Step>)
    ensures RowsByLog(Run(steps))
  {
    hide HasRow, EventsOf, Conflicts, Read, NotificationsOf;
    if steps != [] {
      var w, v, step := Run(steps[..|steps| - 1]), Run(steps), steps[|steps| - 1];
      RunKeepsRows(steps[..|steps| - 1]);
      if step.Finish? && step.k < |w.reading| {
        var s := w.reading[step.k];
        EventsHaveRows(s, s.dates);
        forall e | e in v.db.events
          ensures exists t :: t in v.log && Covers(t, e.account, e.cycle) && HasRow(e, t)
        {
          if e in w.db.events {
            var t :| t in w.log && Covers(t, e.account, e.cycle) && HasRow(e, t);
            assert t in v.log;
          } else {
            assert s in v.log && Covers(s, e.account, e.cycle);
          }
        }
      }
    }
  }

  /** Each step that begins a scan reads the webhooks to notify from the configurations as they are then. */
  predicate ReadFrom(steps: seq<Step>, tables: seq<seq<Config>>) {
    && |tables| == |steps|
    && (forall i :: 0 <= i < |steps| && steps[i].Begin? ==>
          steps[i].webhooks == Subscribed(tables[i], steps[i].account) && DistinctIds(tables[i]))
  }

  predicate DistinctIds(configs: seq<Config>) {
    forall i, j :: 0 <= i < j < |configs| ==> configs[i].id != configs[j].id
  }

  predicate Matching(configs: seq<Config>, account: nat, g: nat) {
    exists c ::
      c in configs && c.id == g && c.active && c.cycleClosed && (c.account == Some(account) || c.account == None)
  }

  lemma ReadStepsAreProper(steps: seq<Step>, tables: seq<seq<Config>>)
    requires ReadFrom(steps, tables)
    ensures ProperSteps(steps)
  {
    hide Subscribed;
    forall i | 0 <= i < |steps| && steps[i].Begin?
      ensures Distinct(steps[i].webhooks)
    {
      SubscribedAreDistinct(tables[i], steps[i].account);
    }
  }

  /** The one scan that notified this cycle was begun by step i, and all there is of events for it is one per
      matching active configuration of that moment, each with the row of the book read then. */
  ghost predicate NotifiedByStep(steps: seq<Step>, tables: seq<seq<Config>>, i: nat, a: nat, d: Day) {
    var events := Run(steps).db.events;
    && i < |steps| && |tables| == |steps| && steps[i].Begin? && steps[i].account == a
    && (forall g :: Count(events, g, a, d) == (if Matching(tables[i], a, g) then 1 else 0))
    && (forall e <- events :: e.account == a && e.cycle == d ==>
          e.row == LedgerLaws.FindRow(steps[i].book.Rows(d), d))
  }

  /** Whatever the interleaving, and whatever the configurations each scan finds: every notified (account, cycle date)
      has exactly one event per active, subscribed webhook of the account or of all accounts, as the configurations
      were when the scan that notified it began. */
  lemma {:induction false} OneEventPerMatchingConfig(steps: seq<Step>, tables: seq<seq<Config>>, a: nat, d: Day)
    requires ReadFrom(steps, tables) && Notification(a, d) in Run(steps).db.notified
    ensures exists i: nat :: NotifiedByStep(steps, tables, i, a, d)
  {
    hide Run, Distinct, Subscribed, Read, ProperSteps, Matching, Count, Book.Rows, LedgerLaws.FindRow;
    ReadStepsAreProper(steps, tables);
    ExactlyOnce(steps);
    ScansWereBegun(steps);
    RunKeepsRows(steps);
    var w := Run(steps);
    var k :| 0 <= k < |w.log| && NotifiedOnlyBy(w, k, a, d);
    var s := w.log[k];
    assert s in w.reading + w.log;
    var i: nat :| BegunAt(steps, i, s);
    ReadAccount(Run(steps[..i]).db, steps[i].account, steps[i].start, steps[i].today, steps[i].webhooks, steps[i].book);
    SubscribedMatch(tables[i], a);
    forall e | e in w.db.events && e.account == a && e.cycle == d
      ensures e.row == LedgerLaws.FindRow(steps[i].book.Rows(d), d)
    {
      var t :| t in w.log && Covers(t, a, d) && HasRow(e, t);
      var j :| 0 <= j < |w.log| && w.log[j] == t;
      assert j == k;
    }
    assert NotifiedByStep(steps, tables, i, a, d);
  }

  lemma SubscribedMatch(configs: seq<Config>, account: nat)
    ensures forall g :: g in Subscribed(configs, account) <==> Matching(configs, account, g)
  {
    hide Subscribed;
    SubscribedIsExact(configs, account);
  }

  /** A scan that loses the race leaves no notification and no event; one that commits leaves every cycle date
      between its account's start and its `today` notified, whatever other workers did since it read. */
  lemma {:induction false} CommitOrNothing(steps: seq<Step>, k: nat)
    requires ProperSteps(steps) && k < |Run(steps).reading|
    ensures var w, v := Run(steps), Apply(Run(steps), Finish(k));
      var s := w.reading[k];
      && (Conflicts(w.db, s) ==> v.db == w.db && v.log == w.log)
      && (!Conflicts(w.db, s) ==> AllNotified(v.db.notified, s.account, s.start, s.today))
  {
    hide Run, NotifiedByLog, EventsByLog, NoOtherEvents, IsCycleDate, AtOrBefore, EventsOf, Conflicts;
    RunKeepsInv(steps);
    var s := Run(steps).reading[k];
    assert Complete(Run(steps).db, s);
    InsertedDates(s);
  }
}
