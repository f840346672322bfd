/** Deleting a payment of a natively recorded account leaves what never recording it would have left. */
module DeletionLaws {
  import opened Options
  import opened Calendar
  import opened Ledger
  import LedgerLaws
  import opened Payments
  import opened ReplayLaws

  predicate Native(ps: seq<Payment>) {
    forall p <- ps :: !p.kind.Import? && p.amount >= 0
  }

  /** A write of a natively recorded account: a requested payment or a deletion. */
  predicate NativeWrite(w: Write) {
    w.Delete? || (w.Pay? && w.amount >= 0)
  }

  /** A native history built in date order and never closed; requests may be refused and payments deleted. */
  predicate NativeRun(terms: Terms, ws: seq<Write>) {
    RunInOrder(terms, ws) && forall w <- ws :: NativeWrite(w)
  }

  /** None of the requested payments is refused. */
  predicate AllAccepted(terms: Terms, ws: seq<Write>) {
    forall i :: 0 <= i < |ws| ==> Accepted(Run(terms, ws[..i]), ws[i])
  }

  /** The same payments on the same dates, each date now given by hand. */
  function Again(ps: seq<Payment>): seq<Write> {
    seq<Write>(|ps|, i requires 0 <= i < |ps| => Pay(Some(ps[i].date), ps[i].amount, Manual))
  }

  function AsManual(ps: seq<Payment>): seq<Payment> {
    seq<Payment>(|ps|, i requires 0 <= i < |ps| => ps[i].(kind := Manual))
  }

  /** No payment but the last settled the account. */
  predicate OpenUntilLast(ps: seq<Payment>) {
    forall j :: 0 <= j < |ps| - 1 ==> ps[j].after > 0
  }

  function StatusOf(ps: seq<Payment>): Status {
    if ps == [] then Open else if ps[|ps| - 1].after <= 0 then Paid else Active
  }

  // ---------- Native histories ----------

  lemma {:induction false} NativeHasNoAnchor(ps: seq<Payment>)
    requires Native(ps)
    ensures AnchorOf(ps) == None && AnchorOf(AsManual(ps)) == None
    ensures Entries(AsManual(ps)) == Entries(ps)
  {
    if ps != [] {
      NativeHasNoAnchor(ps[..|ps| - 1]);
      assert AsManual(ps)[..|ps| - 1] == AsManual(ps[..|ps| - 1]);
    }
  }

  lemma NativeReplay(terms: Terms, ps: seq<Payment>)
    requires Native(ps)
    ensures Native(Replay(terms, ps)) && Entries(Replay(terms, ps)) == Entries(ps)
  {
    hide Replay;
    ReplayKeepsFacts(terms, ps);
  }

  /** The i-th snapshot of a replayed native history, from the entries before it alone. */
  lemma NativeSnapshot(terms: Terms, ps: seq<Payment>, j: nat)
    requires Native(ps) && j < |ps|
    ensures var b, p := Book(terms, Entries(ps[..j]), None), ps[j];
      Replay(terms, ps)[j].after == BalanceBefore(b, p.date) + InterestOn(b, p.date) - p.amount
  {
    hide Replay, BalanceBefore, InterestOn, NextDueDate;
    ReplayAt(terms, ps, j);
    NativeReplay(terms, ps[..j]);
    NativeHasNoAnchor(Replay(terms, ps[..j]));
  }

  lemma SnapshotRises(b: Book, i: nat, d: Day)
    requires i < |b.payments| && b.payments[i].amount >= 0
    ensures BalanceBefore(LedgerLaws.Removed(b, i), d) >= BalanceBefore(b, d)
    ensures InterestOn(LedgerLaws.Removed(b, i), d) >= InterestOn(b, d)
  {
    hide CycleIndex, IsCycleDate, Interest, Book.First, Book.Closing;
    LedgerLaws.SameLive(b, LedgerLaws.Removed(b, i));
    LedgerLaws.RemovingAPaymentCostsAtLeastItsAmount(b, i, CycleIndex(d) - 1);
    InterestMonotone(BalanceBefore(b, d), BalanceBefore(LedgerLaws.Removed(b, i), d), b.terms.rate);
  }

  function Rest(ps: seq<Payment>, i: nat): seq<Payment>
    requires i < |ps|
  {
    ps[..i] + ps[i + 1..]
  }

  /** After a deletion, no remaining payment leaves a lower balance than it did. */
  lemma DeletionLowersNoBalance(terms: Terms, ps: seq<Payment>, i: nat, j: nat)
    requires Native(ps) && i < |ps| && j < |ps| - 1
    ensures Replay(terms, Rest(ps, i))[j].after >= Replay(terms, ps)[if j < i then j else j + 1].after
  {
    hide Replay, BalanceBefore, InterestOn;
    var rest := Rest(ps, i);
    NativeSnapshot(terms, rest, j);
    if j < i {
      NativeSnapshot(terms, ps, j);
      assert rest[..j] == ps[..j];
    } else {
      NativeSnapshot(terms, ps, j + 1);
      var b := Book(terms, Entries(ps[..j + 1]), None);
      assert Entries(rest[..j]) == Without(b.payments, i);
      SnapshotRises(b, i, ps[j + 1].date);
    }
  }

  // ---------- Recording again ----------

  /** Recording a native history again is never refused exactly if no payment but the last settles the account in
      its replay; and then it gives that replay. */
  lemma {:induction false} RecordingAgain(terms: Terms, ps: seq<Payment>)
    requires Native(ps) && ByDate(ps)
    ensures AllAccepted(terms, Again(ps)) <==> OpenUntilLast(Replay(terms, ps))
    ensures OpenUntilLast(Replay(terms, ps)) ==>
      NativeRun(terms, Again(ps)) && Run(terms, Again(ps)) == AgainRecorded(terms, ps)
  {
    hide Replay, Run, AtOrBefore, InOrder, Accepted, RunInOrder, AllAccepted, AgainRecorded;
    if ps == [] {
      NothingRecorded(terms);
    } else {
      var n := |ps| - 1;
      var init := ps[..n];
      ReplayAt(terms, ps, n);
      RecordingAgain(terms, init);
      assert Again(ps)[..n] == Again(init);
      AcceptedOneMore(terms, Again(ps));
      if OpenUntilLast(Replay(terms, init)) {
        OneMoreAgain(terms, ps);
        RunInOrderOneMore(terms, Again(ps));
        RunOneMore(terms, Again(ps));
      }
    }
  }

  /** The account with these payments replayed, as if given by hand. */
  function AgainRecorded(terms: Terms, ps: seq<Payment>): Account {
    Account(terms, StatusOf(Replay(terms, ps)), AsManual(Replay(terms, ps)))
  }

  lemma NothingRecorded(terms: Terms)
    ensures Replay(terms, []) == [] && Run(terms, Again([])) == AgainRecorded(terms, [])
    ensures Run(terms, []) == Account(terms, Open, []) && RunInOrder(terms, []) && AllAccepted(terms, [])
    ensures Again([]) == [] && NativeAccount(Run(terms, []))
  {
  }

  lemma AcceptedOneMore(terms: Terms, ws: seq<Write>)
    requires ws != []
    ensures var n := |ws| - 1;
      AllAccepted(terms, ws) <==> AllAccepted(terms, ws[..n]) && Accepted(Run(terms, ws[..n]), ws[n])
  {
    hide Run, Accepted;
    var init := ws[..|ws| - 1];
    assert forall i :: 0 <= i < |init| ==> init[..i] == ws[..i] && init[i] == ws[i];
  }

  lemma LastReplayedIsEarlier(terms: Terms, ps: seq<Payment>)
    requires ps != [] && ByDate(ps)
    ensures var n, before := |ps| - 1, Replay(terms, ps[..|ps| - 1]);
      n > 0 ==> AtOrBefore(before[n - 1].date, ps[n].date)
  {
  }

  lemma OneMoreAgain(terms: Terms, ps: seq<Payment>)
    requires ps != [] && Native(ps) && ByDate(ps)
    ensures var n := |ps| - 1;
      var a, w := AgainRecorded(terms, ps[..n]), Again(ps)[n];
      && InOrder(a, w) && (Accepted(a, w) <==> (n > 0 ==> Replay(terms, ps)[n - 1].after > 0))
      && (Accepted(a, w) ==> Step(a, w) == AgainRecorded(terms, ps))
  {
    hide Replay, AtOrBefore, BalanceBefore, InterestOn, NextDueDate, AnchorOf, Insert, Entries, ByDate;
    var n := |ps| - 1;
    var before, p := Replay(terms, ps[..n]), ps[n];
    ReplayAt(terms, ps, n);
    NativeReplay(terms, ps[..n]);
    NativeHasNoAnchor(before);
    LastReplayedIsEarlier(terms, ps);
    var again := RecordNative(terms, AsManual(before), p.date, p.amount, Manual);
    assert again == Rewrite(terms, before, p).(kind := Manual);
    InsertAtEnd(AsManual(before), again);
    assert Replay(terms, ps) == before + [Rewrite(terms, before, p)];
    assert AsManual(Replay(terms, ps)) == AsManual(before) + [again];
  }

  /** Every refused request is missed in the table. */
  lemma {:induction false} AcceptedAreCounted(terms: Terms, ws: seq<Write>)
    requires forall w <- ws :: w.Pay? && !w.kind.Import?
    ensures |Run(terms, ws).payments| <= |ws|
    ensures |Run(terms, ws).payments| == |ws| ==> AllAccepted(terms, ws)
  {
    hide Add, Accepted, AllAccepted;
    if ws == [] {
      NothingRecorded(terms);
    } else {
      var init := ws[..|ws| - 1];
      AcceptedAreCounted(terms, init);
      AcceptedOneMore(terms, ws);
      RefusedChangesNothing(Run(terms, init), ws[|ws| - 1]);
      AddsAtMostOne(Run(terms, init), ws[|ws| - 1]);
    }
  }

  lemma AddsAtMostOne(a: Account, w: Write)
    requires w.Pay?
    ensures |Step(a, w).payments| <= |a.payments| + 1
  {
  }

  // ---------- Native runs ----------

  /** Only the last payment of a native run can have settled the account. */
  predicate NativeAccount(a: Account) {
    Native(a.payments) && OpenUntilLast(a.payments) && a.status == StatusOf(a.payments)
  }

  lemma {:induction false} NativeRunLeaves(terms: Terms, ws: seq<Write>)
    requires NativeRun(terms, ws)
    ensures NativeAccount(Run(terms, ws)) && Consistent(Run(terms, ws)) && Run(terms, ws).terms == terms
  {
    hide Run, Consistent, InOrder, RunInOrder, NativeAccount, Step, Kept;
    RunInOrderIsUndisturbed(terms, ws);
    RunIsConsistent(terms, ws);
    if ws == [] {
      NothingRecorded(terms);
    } else {
      var init, w := ws[..|ws| - 1], ws[|ws| - 1];
      RunInOrderOneMore(terms, ws);
      NativeRunLeaves(terms, init);
      RunOneMore(terms, ws);
      NativeStep(Run(terms, init), w);
    }
  }

  lemma NativeStep(a: Account, w: Write)
    requires NativeAccount(a) && Consistent(a) && InOrder(a, w) && NativeWrite(w)
    ensures NativeAccount(Step(a, w))
  {
    hide NativeAccount, Consistent, Accepted, Add, Deleted;
    if w.Pay? {
      RefusedChangesNothing(a, w);
      if Accepted(a, w) {
        NativePay(a, w);
      }
    } else if w.i < |a.payments| {
      NativeDelete(a, w.i);
    }
  }

  lemma NativePay(a: Account, w: Write)
    requires NativeAccount(a) && InOrder(a, w) && NativeWrite(w) && Accepted(a, w)
    ensures NativeAccount(Step(a, w))
  {
    hide BalanceBefore, InterestOn, NextDueDate, Reference, AnchorOf, AtOrBefore, Insert;
    if a.payments != [] {
      InOrderDate(a, w);
    }
    var p := Recorded(a, w);
    InsertAtEnd(a.payments, p);
    assert Step(a, w).payments == a.payments + [p];
  }

  lemma NativeDelete(a: Account, i: nat)
    requires NativeAccount(a) && Consistent(a) && i < |a.payments|
    ensures NativeAccount(Deleted(a, i))
  {
    hide Replay, OpenUntilLast, Kept;
    RestStaysOpen(a.terms, a.payments, i);
    NativeReplay(a.terms, Rest(a.payments, i));
  }

  lemma RestStaysOpen(terms: Terms, ps: seq<Payment>, i: nat)
    requires Native(ps) && i < |ps| && Replay(terms, ps) == ps && OpenUntilLast(ps)
    ensures OpenUntilLast(Replay(terms, Rest(ps, i)))
  {
    hide Replay, Native;
    forall j | 0 <= j < |ps| - 2
      ensures Replay(terms, Rest(ps, i))[j].after > 0
    {
      DeletionLowersNoBalance(terms, ps, i, j);
    }
  }

  // ---------- Deletion ----------

  /** A native run, whatever was refused or deleted on the way, leaves the snapshots and the status that recording
      only the payments left at its end, on the same dates, gives; and none of those would be refused. */
  lemma {:induction false} OnlyWhatIsLeftMatters(terms: Terms, ws: seq<Write>)
    requires NativeRun(terms, ws)
    ensures var a := Run(terms, ws);
      var others := Again(a.payments);
      && AllAccepted(terms, others) && NativeRun(terms, others)
      && Run(terms, others) == Account(terms, a.status, AsManual(a.payments))
  {
    hide Run, Replay, ByDate, AllAccepted, NativeRun, Again, AsManual, OpenUntilLast;
    NativeRunLeaves(terms, ws);
    RecordingAgain(terms, Run(terms, ws).payments);
  }

  /** Deleting a payment, also after others were deleted or refused, leaves the snapshots and the status that
      recording only the others, on the same dates, would have given; and none of those would be refused. */
  lemma {:induction false} DeletingEqualsNeverRecording(terms: Terms, ws: seq<Write>, i: nat)
    requires NativeRun(terms, ws) && i < |Run(terms, ws).payments|
    ensures var a := Run(terms, ws);
      var deleted, others := Deleted(a, i), Again(Rest(a.payments, i));
      && AllAccepted(terms, others) && NativeRun(terms, others)
      && Run(terms, others) == Account(terms, deleted.status, AsManual(deleted.payments))
  {
    hide Run, Replay, AtOrBefore, AllAccepted, NativeRun, Again, AsManual, OpenUntilLast;
    NativeRunLeaves(terms, ws);
    var a := Run(terms, ws);
    RestStaysOpen(terms, a.payments, i);
    assert ByDate(Rest(a.payments, i)) && Native(Rest(a.payments, i));
    RecordingAgain(terms, Rest(a.payments, i));
  }

  /** Told from dates and amounts alone: no payment but the last covers what is owed when it is replayed. */
  predicate NoneSettlesEarly(terms: Terms, ps: seq<Payment>) {
    forall j :: 0 <= j < |ps| - 1 ==> LeavesDebt(terms, ps[..j], ps[j])
  }

  predicate LeavesDebt(terms: Terms, earlier: seq<Payment>, p: Payment) {
    var b := Book(terms, Entries(earlier), None);
    BalanceBefore(b, p.date) + InterestOn(b, p.date) > p.amount
  }

  lemma NoneSettlesEarlyIff(terms: Terms, ps: seq<Payment>)
    requires Native(ps)
    ensures NoneSettlesEarly(terms, ps) <==> OpenUntilLast(Replay(terms, ps))
  {
    hide Replay, BalanceBefore, InterestOn, Entries;
    forall j | 0 <= j < |ps| - 1
      ensures LeavesDebt(terms, ps[..j], ps[j]) <==> Replay(terms, ps)[j].after > 0
    {
      NativeSnapshot(terms, ps, j);
    }
  }

  /** For a native account in any state but closed, backdated payments and whatever snapshots included: the deletion
      leaves what recording only the others, by date, would have given, exactly if of the others none but the last
      covers what is owed on its date. */
  lemma {:induction false} DeletingEqualsNeverRecordingIff(a: Account, i: nat)
    requires Native(a.payments) && ByDate(a.payments) && !a.status.Closed? && i < |a.payments|
    ensures var deleted, rest := Deleted(a, i), Rest(a.payments, i);
      Run(a.terms, Again(rest)) == Account(a.terms, deleted.status, AsManual(deleted.payments)) <==>
        NoneSettlesEarly(a.terms, rest)
  {
    hide Run, Replay, AtOrBefore, AllAccepted, NativeRun, OpenUntilLast, NoneSettlesEarly;
    var rest := Rest(a.payments, i);
    assert ByDate(rest) && Native(rest);
    NoneSettlesEarlyIff(a.terms, rest);
    RecordingAgain(a.terms, rest);
    AcceptedAreCounted(a.terms, Again(rest));
  }
}
