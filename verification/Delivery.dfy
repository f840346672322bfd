/** Delivery of webhook events: a bounded number of attempts by one worker, whatever the receivers reply. */
module Delivery {

  datatype Status = Pending | Delivered | Failed

  datatype Event = Event(status: Status, attempts: nat)

  /** What happens to one attempt: the webhook is gone, its target is unsafe, the receiver answers with a
      success or another status, or the request raises. */
  datatype Reply = NoWebhook | UnsafeTarget | Success | OtherStatus | Raised

  predicate Selectable(e: Event, max: nat) {
    e.status.Pending? && e.attempts < max
  }

  /** One attempt. */
  function Attempt(e: Event, r: Reply, max: nat): Event {
    match r
    case NoWebhook => e.(status := Failed)
    case UnsafeTarget => Event(Failed, e.attempts + 1)
    case Success => Event(Delivered, e.attempts + 1)
    case OtherStatus => Event(Pending, e.attempts + 1)
    case Raised => Event(if e.attempts + 1 >= max then Failed else Pending, e.attempts + 1)
  }

  /** One pass over the table: every selectable event is attempted once. */
  function Pass(events: seq<Event>, replies: seq<Reply>, max: nat): seq<Event>
    requires |replies| == |events|
  {
    seq<Event>(|events|, i requires 0 <= i < |events| =>
      if Selectable(events[i], max) then Attempt(events[i], replies[i], max) else events[i])
  }

  predicate Fits(events: seq<Event>, rounds: seq<seq<Reply>>) {
    forall k :: 0 <= k < |rounds| ==> |rounds[k]| == |events|
  }

  function Passes(events: seq<Event>, rounds: seq<seq<Reply>>, max: nat): (out: seq<Event>)
    requires Fits(events, rounds)
    ensures |out| == |events|
  {
    if rounds == [] then events
    else Pass(Passes(events, rounds[..|rounds| - 1], max), rounds[|rounds| - 1], max)
  }

  class WebhookDeliveryService {
    const max: nat
    var events: seq<Event>

    constructor (max: nat, events: seq<Event>)
      ensures this.max == max && this.events == events
    {
      this.max, this.events := max, events;
    }

    /** One attempt on the i-th event; the attempt is counted before the target is checked or called. */
    method Deliver(i: nat, reply: Reply)
      requires i < |events|
      modifies this`events
      ensures events == old(events)[i := Attempt(old(events)[i], reply, max)]
    {
      var event := events[i];
      if reply.NoWebhook? {
        events := events[i := event.(status := Failed)];
        return;
      }
      event := event.(attempts := event.attempts + 1);
      if reply.UnsafeTarget? {
        events := events[i := event.(status := Failed)];
        return;
      }
      if reply.Raised? {
        event := event.(status := if event.attempts >= max then Failed else Pending);
      } else {
        event := event.(status := if reply.Success? then Delivered else Pending);
      }
      events := events[i := event];
    }

    method DeliverPending(replies: seq<Reply>)
      requires |replies| == |events|
      modifies this`events
      ensures events == Pass(old(events), replies, max)
    {
      var selected: seq<nat> := [];
      for i := 0 to |events|
        invariant forall j :: 0 <= j < |selected| ==> selected[j] < i && Selectable(events[selected[j]], max)
        invariant forall k :: 0 <= k < i && Selectable(events[k], max) ==> k in selected
        invariant forall j, k :: 0 <= j < k < |selected| ==> selected[j] < selected[k]
      {
        if events[i].status.Pending? && events[i].attempts < max {
          selected := selected + [i];
        }
      }
      ghost var was := events;
      for j := 0 to |selected|
        invariant |events| == |was|
        invariant forall k :: 0 <= k < |was| ==>
          events[k] == if k in selected[..j] then Attempt(was[k], replies[k], max) else was[k]
      {
        var i := selected[j];
        assert i !in selected[..j];
        assert selected[..j + 1] == selected[..j] + [i];
        Deliver(i, replies[i]);
      }
      assert selected[..|selected|] == selected;
    }
  }

  // ---------- Laws ----------

  /** Delivered and failed are final, and the attempts of an event never exceed the maximum. */
  lemma {:induction false} FinalStatusesAndBoundedAttempts(events: seq<Event>, rounds: seq<seq<Reply>>, max: nat,
      i: nat)
    requires Fits(events, rounds) && i < |events|
    ensures !events[i].status.Pending? ==> Passes(events, rounds, max)[i] == events[i]
    ensures events[i].attempts <= max ==> Passes(events, rounds, max)[i].attempts <= max
  {
    hide Attempt;
    if rounds != [] {
      FinalStatusesAndBoundedAttempts(events, rounds[..|rounds| - 1], max, i);
      AttemptCounts(Passes(events, rounds[..|rounds| - 1], max)[i], rounds[|rounds| - 1][i], max);
    }
  }

  lemma AttemptCounts(e: Event, r: Reply, max: nat)
    ensures Attempt(e, r, max).attempts <= e.attempts + 1
    ensures Attempt(e, r, max).status.Pending? ==> Attempt(e, r, max).attempts == e.attempts + 1
  {
  }

  /** The reply that used up the last attempt of an event that is still pending. */
  predicate LastReplyWasOtherStatus(events: seq<Event>, rounds: seq<seq<Reply>>, max: nat, i: nat, k: nat)
    requires Fits(events, rounds)
  {
    && k < |rounds| && i < |events|
    && Fits(events, rounds[..k])
    && var e := Passes(events, rounds[..k], max)[i];
    && e.status.Pending? && e.attempts + 1 == max
    && rounds[k][i] == OtherStatus
  }

  lemma {:induction false} Progress(events: seq<Event>, rounds: seq<seq<Reply>>, max: nat, i: nat)
    requires Fits(events, rounds) && i < |events| && Selectable(events[i], max)
    ensures var e := Passes(events, rounds, max)[i];
      && (Selectable(e, max) ==> e.attempts == events[i].attempts + |rounds|)
      && (e.status.Pending? && e.attempts >= max ==>
            exists k: nat :: LastReplyWasOtherStatus(events, rounds, max, i, k))
  {
    hide Attempt;
    if rounds != [] {
      var n := |rounds| - 1;
      Progress(events, rounds[..n], max, i);
      var before, after := Passes(events, rounds[..n], max)[i], Passes(events, rounds, max)[i];
      AttemptCounts(before, rounds[n][i], max);
      if after.status.Pending? && after.attempts >= max {
        if before.attempts >= max {
          FinalOrSelectable(before, max);
          var k: nat :| LastReplyWasOtherStatus(events, rounds[..n], max, i, k);
          assert rounds[..n][..k] == rounds[..k];
          assert LastReplyWasOtherStatus(events, rounds, max, i, k);
        } else {
          LastAttempt(before, rounds[n][i], max);
          assert LastReplyWasOtherStatus(events, rounds, max, i, n);
        }
      }
    }
  }

  lemma FinalOrSelectable(e: Event, max: nat)
    ensures e.attempts >= max ==> !Selectable(e, max)
  {
  }

  lemma LastAttempt(e: Event, r: Reply, max: nat)
    requires e.attempts < max && Attempt(e, r, max).status.Pending? && Attempt(e, r, max).attempts >= max
    ensures e.attempts == max - 1 && r == OtherStatus
  {
  }

  /** Delivery drains: after as many passes as there are attempts, whatever the replies, nothing is selectable.
      Each event is delivered, failed, or pending with all attempts used, in which case the reply to its last
      attempt was a status other than success (it is never sent again and never marked failed). */
  lemma DeliveryDrains(events: seq<Event>, rounds: seq<seq<Reply>>, max: nat, i: nat)
    requires Fits(events, rounds) && |rounds| >= max && i < |events| && Selectable(events[i], max)
    ensures var e := Passes(events, rounds, max)[i];
      && !Selectable(e, max)
      && (e.status.Delivered? || e.status.Failed? ||
          (e.attempts == max && exists k: nat :: LastReplyWasOtherStatus(events, rounds, max, i, k)))
  {
    hide Passes;
    Progress(events, rounds, max, i);
    FinalStatusesAndBoundedAttempts(events, rounds, max, i);
  }

  predicate Unsuccessful(r: Reply) {
    r.OtherStatus? || r.Raised?
  }

  lemma {:induction false} PendingAfter(events: seq<Event>, rounds: seq<seq<Reply>>, max: nat, i: nat)
    requires Fits(events, rounds) && |rounds| <= max && max > 0 && i < |events| && events[i] == Event(Pending, 0)
    ensures var e := Passes(events, rounds, max)[i];
      && (e.status.Pending? <==>
           (forall k :: 0 <= k < |rounds| ==> Unsuccessful(rounds[k][i])) &&
           (|rounds| == max ==> rounds[max - 1][i] == OtherStatus))
      && (e.status.Pending? ==> e.attempts == |rounds|)
  {
    if rounds != [] {
      var n := |rounds| - 1;
      PendingAfter(events, rounds[..n], max, i);
      assert forall k :: 0 <= k < n ==> rounds[..n][k] == rounds[k];
    }
  }

  lemma {:induction false} Settled(events: seq<Event>, rounds: seq<seq<Reply>>, max: nat, i: nat, n: nat)
    requires Fits(events, rounds) && i < |events| && n <= |rounds| &&
      !Selectable(Passes(events, rounds[..n], max)[i], max)
    ensures Passes(events, rounds, max)[i] == Passes(events, rounds[..n], max)[i]
  {
    hide Attempt;
    if n < |rounds| {
      var m := |rounds| - 1;
      assert rounds[..m][..n] == rounds[..n];
      Settled(events, rounds[..m], max, i, n);
    } else {
      assert rounds[..n] == rounds;
    }
  }

  /** A new event is left pending for good exactly when each of its attempts raised or got a status other than
      success, and the last one got such a status: only a raising last attempt marks it failed. */
  lemma LeftPendingIff(events: seq<Event>, rounds: seq<seq<Reply>>, max: nat, i: nat)
    requires Fits(events, rounds) && |rounds| >= max > 0 && i < |events| && events[i] == Event(Pending, 0)
    ensures Passes(events, rounds, max)[i].status.Pending? <==>
      (forall k :: 0 <= k < max ==> Unsuccessful(rounds[k][i])) && rounds[max - 1][i] == OtherStatus
  {
    hide Passes;
    var first := rounds[..max];
    PendingAfter(events, first, max, i);
    assert forall k :: 0 <= k < max ==> first[k] == rounds[k];
    DeliveryDrains(events, first, max, i);
    Settled(events, rounds, max, i, max);
  }

  /** The attempts before the k-th were all answered without success or raised. */
  predicate UnsuccessfulUntil(rounds: seq<seq<Reply>>, i: nat, k: nat)
    requires k <= |rounds| && forall j :: 0 <= j < |rounds| ==> i < |rounds[j]|
  {
    forall j :: 0 <= j < k ==> Unsuccessful(rounds[j][i])
  }

  /** What becomes of a new event: the first attempt that does not end in another status or an exception decides.  A
      success delivers it, a missing webhook or an unsafe target fails it; the missing webhook alone is no attempt.
      If all attempts were unsuccessful, it is failed if the last one raised, and else left pending. */
  lemma {:induction false} Outcome(events: seq<Event>, rounds: seq<seq<Reply>>, max: nat, i: nat, k: nat)
    requires Fits(events, rounds) && |rounds| >= max > k && i < |events| && events[i] == Event(Pending, 0)
    requires UnsuccessfulUntil(rounds, i, k)
    ensures var e := Passes(events, rounds, max)[i];
      && (rounds[k][i] == Success ==> e == Event(Delivered, k + 1))
      && (rounds[k][i] == UnsafeTarget ==> e == Event(Failed, k + 1))
      && (rounds[k][i] == NoWebhook ==> e == Event(Failed, k))
      && (k + 1 == max && rounds[k][i] == Raised ==> e == Event(Failed, max))
      && (k + 1 == max && rounds[k][i] == OtherStatus ==> e == Event(Pending, max))
  {
    hide Passes;
    if Unsuccessful(rounds[k][i]) ==> k == max - 1 {
      DecidedAt(events, rounds, max, i, k);
    }
  }

  /** The attempt that decides settles the event. */
  lemma DecidedAt(events: seq<Event>, rounds: seq<seq<Reply>>, max: nat, i: nat, k: nat)
    requires Fits(events, rounds) && |rounds| >= max > k && i < |events| && events[i] == Event(Pending, 0)
    requires UnsuccessfulUntil(rounds, i, k) && (Unsuccessful(rounds[k][i]) ==> k == max - 1)
    ensures Passes(events, rounds, max)[i] == Attempt(Event(Pending, k), rounds[k][i], max)
  {
    var first, more := rounds[..k], rounds[..k + 1];
    assert more[..k] == first && more[k] == rounds[k];
    PendingAfter(events, first, max, i);
    assert Passes(events, more, max)[i] == Attempt(Event(Pending, k), rounds[k][i], max);
    Settled(events, rounds, max, i, k + 1);
  }

  /** A new event is delivered exactly if one of its attempts succeeded and the earlier ones were unsuccessful; it is
      failed exactly if the first attempt that was not unsuccessful found no webhook or an unsafe target, or all were
      unsuccessful and the last one raised. */
  lemma {:induction false} DeliveredOrFailedIff(events: seq<Event>, rounds: seq<seq<Reply>>, max: nat, i: nat)
    requires Fits(events, rounds) && |rounds| >= max > 0 && i < |events| && events[i] == Event(Pending, 0)
    ensures Passes(events, rounds, max)[i].status == Delivered <==>
      exists k: nat :: k < max && UnsuccessfulUntil(rounds, i, k) && rounds[k][i] == Success
    ensures Passes(events, rounds, max)[i].status == Failed <==>
      (exists k: nat :: k < max && UnsuccessfulUntil(rounds, i, k) && rounds[k][i] in {NoWebhook, UnsafeTarget}) ||
      (UnsuccessfulUntil(rounds, i, max) && rounds[max - 1][i] == Raised)
  {
    hide Passes;
    if UnsuccessfulUntil(rounds, i, max) {
      Outcome(events, rounds, max, i, max - 1);
    } else {
      FirstDecision(rounds, i, max);
      var k: nat :| k < max && UnsuccessfulUntil(rounds, i, k) && !Unsuccessful(rounds[k][i]);
      Outcome(events, rounds, max, i, k);
      assert forall l: nat :: l < max && UnsuccessfulUntil(rounds, i, l) && !Unsuccessful(rounds[l][i]) ==> l == k;
    }
  }

  lemma {:induction false} FirstDecision(rounds: seq<seq<Reply>>, i: nat, n: nat)
    requires n <= |rounds| && forall j :: 0 <= j < |rounds| ==> i < |rounds[j]|
    ensures UnsuccessfulUntil(rounds, i, n) ||
      exists k: nat :: k < n && UnsuccessfulUntil(rounds, i, k) && !Unsuccessful(rounds[k][i])
  {
    if n > 0 {
      FirstDecision(rounds, i, n - 1);
    }
  }

  function Always(r: Reply, n: nat): seq<seq<Reply>> {
    seq<seq<Reply>>(n, i => [r])
  }

  lemma {:induction false} AlwaysAfter(r: Reply, n: nat, max: nat)
    requires Unsuccessful(r) && n <= max && max > 0
    ensures Passes([Event(Pending, 0)], Always(r, n), max)[0] ==
      Event(if r.Raised? && n == max then Failed else Pending, n)
  {
    if n > 0 {
      AlwaysAfter(r, n - 1, max);
      assert Always(r, n)[..n - 1] == Always(r, n - 1);
    }
  }

  /** A new event whose receiver answers every attempt, but without success, stays pending whatever would be
      answered later; had every attempt raised, it would have been marked failed. */
  lemma AnsweredEventIsNeverFailed(max: nat, later: seq<seq<Reply>>)
    requires max > 0 && forall k :: 0 <= k < |later| ==> |later[k]| == 1
    ensures var answered, raised := Always(OtherStatus, max) + later, Always(Raised, max) + later;
      && Passes([Event(Pending, 0)], answered, max)[0] == Event(Pending, max)
      && Passes([Event(Pending, 0)], raised, max)[0] == Event(Failed, max)
  {
    hide Passes;
    AlwaysAfter(OtherStatus, max, max);
    AlwaysAfter(Raised, max, max);
    var answered, raised := Always(OtherStatus, max) + later, Always(Raised, max) + later;
    assert answered[..max] == Always(OtherStatus, max) && raised[..max] == Always(Raised, max);
    Settled([Event(Pending, 0)], answered, max, 0, max);
    Settled([Event(Pending, 0)], raised, max, 0, max);
  }
}
