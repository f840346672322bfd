/** Safety of the refresh protocol over every interleaving of its steps. */
module TokenLaws {
  import opened Options
  import opened RefreshTokens

  // ---------- The invariant ----------

  /** A token carries a time and a reason of revocation exactly when it is revoked. */
  predicate Columns(t: Token) {
    (t.revoked <==> t.revokedAt.Some?) && (t.revoked <==> t.reason.Some?)
  }

  predicate Exchanged(t: Token) {
    t.reason == Some(Rotated)
  }

  /** No later token is of its family. */
  predicate NewestOfFamily(tokens: seq<Token>, j: nat)
    requires j < |tokens|
  {
    forall k :: j < k < |tokens| ==> tokens[k].family != tokens[j].family
  }

  /** Of two tokens of a family the older has been exchanged, and only a token with a successor has been. */
  predicate Chains(tokens: seq<Token>) {
    && (forall i, j :: 0 <= i < j < |tokens| && tokens[i].family == tokens[j].family ==>
          Exchanged(tokens[i]) && tokens[i].user == tokens[j].user)
    && (forall i :: 0 <= i < |tokens| && Exchanged(tokens[i]) ==> HasSuccessor(tokens, i))
  }

  predicate HasSuccessor(tokens: seq<Token>, i: nat)
    requires i < |tokens|
  {
    exists j :: i < j < |tokens| && tokens[j].family == tokens[i].family
  }

  predicate PassedFits(s: Store, p: Passed) {
    p.token < |s.tokens| && s.tokens[p.token].user == p.user
  }

  predicate Inv(s: Store) {
    && (forall i :: 0 <= i < |s.tokens| ==> Columns(s.tokens[i]) && s.tokens[i].family < s.nextFamily)
    && Chains(s.tokens)
    && (forall k :: 0 <= k < |s.passed| ==> PassedFits(s, s.passed[k]))
    && (forall i :: 0 <= i < |s.tokens| && !s.tokens[i].revoked ==> IsActive(s.active, s.tokens[i].user))
  }

  // ---------- Every step only ever revokes, and issues at the end ----------

  /** The table grows, identities stay, and a revoked token keeps its revocation for good. */
  predicate Grows(a: seq<Token>, b: seq<Token>) {
    |a| <= |b| && forall i :: 0 <= i < |a| ==> Keeps(a[i], b[i])
  }

  predicate Keeps(t: Token, u: Token) {
    t.user == u.user && t.family == u.family && t.expires == u.expires && (t.revoked ==> t == u)
  }

  lemma GrowsTransitive(a: seq<Token>, b: seq<Token>, c: seq<Token>)
    requires Grows(a, b) && Grows(b, c)
    ensures Grows(a, c)
  {
  }

  lemma StepGrows(s: Store, step: Step)
    ensures Grows(s.tokens, Apply(s, step).0.tokens)
  {
  }

  /** Revocations are written once: over any run, no token changes owner, family or expiry, and revoked,
      revoked-at and reason never change once a token is revoked. */
  lemma {:induction false} RevocationIsWrittenOnce(s: Store, steps: seq<Step>)
    ensures Grows(s.tokens, Run(s, steps).tokens)
  {
    hide Apply, Grows;
    if steps == [] {
      GrowsItself(s.tokens);
    } else {
      var t := Run(s, steps[..|steps| - 1]);
      RevocationIsWrittenOnce(s, steps[..|steps| - 1]);
      StepGrows(t, steps[|steps| - 1]);
      GrowsTransitive(s.tokens, t.tokens, Run(s, steps).tokens);
    }
  }

  lemma GrowsItself(a: seq<Token>)
    ensures Grows(a, a)
  {
  }

  // ---------- Preservation ----------

  /** `b` is `a` with some live tokens revoked for a reason other than rotation. */
  predicate OnlyRevokes(a: seq<Token>, b: seq<Token>) {
    |a| == |b| && forall i :: 0 <= i < |a| ==> RevokedOrSame(a[i], b[i])
  }

  predicate RevokedOrSame(t: Token, u: Token) {
    t == u || (!t.revoked && u.revoked && !Exchanged(u) && Columns(u) && u.user == t.user && u.family == t.family)
  }

  lemma RevokingKeepsInv(s: Store, tokens: seq<Token>)
    requires Inv(s) && OnlyRevokes(s.tokens, tokens)
    ensures Inv(s.(tokens := tokens))
  {
  }

  /** A token of a new family for an active user. */
  lemma NewSessionKeepsInv(s: Store, user: nat, expires: int)
    requires Inv(s) && IsActive(s.active, user)
    ensures Inv(NewSession(s, user, expires).0)
  {
    var t := NewSession(s, user, expires).0;
    forall i | 0 <= i < |t.tokens| && Exchanged(t.tokens[i])
      ensures HasSuccessor(t.tokens, i)
    {
      assert HasSuccessor(s.tokens, i);
      var j :| i < j < |s.tokens| && s.tokens[j].family == s.tokens[i].family;
      assert t.tokens[j] == s.tokens[j];
    }
    forall k | 0 <= k < |t.passed|
      ensures PassedFits(t, t.passed[k])
    {
      assert PassedFits(s, s.passed[k]);
    }
  }

  /** Only a live token is claimed, and a live token is the newest of its family. */
  lemma LiveIsNewest(s: Store, i: nat, j: nat)
    requires Inv(s) && i < |s.tokens| && j < |s.tokens|
    requires !s.tokens[i].revoked && s.tokens[i].family == s.tokens[j].family
    ensures j <= i
    ensures j != i ==> Exchanged(s.tokens[j])
  {
  }

  lemma ClaimKeepsChains(s: Store, i: nat, at: int, expires: int)
    requires Inv(s) && i < |s.tokens| && !s.tokens[i].revoked
    ensures var t := s.tokens[i];
      Chains(s.tokens[i := Revoke(t, at, Rotated)] + [NewToken(t.user, t.family, expires)])
  {
    var a, t := s.tokens, s.tokens[i];
    var b := a[i := Revoke(t, at, Rotated)] + [NewToken(t.user, t.family, expires)];
    forall j, k | 0 <= j < k < |b| && b[j].family == b[k].family
      ensures Exchanged(b[j]) && b[j].user == b[k].user
    {
      if k == |a| {
        LiveIsNewest(s, i, j);
      } else if j == i {
        LiveIsNewest(s, i, k);
      }
    }
    forall j | 0 <= j < |b| && Exchanged(b[j])
      ensures HasSuccessor(b, j)
    {
      if j == i {
        assert b[|a|].family == b[j].family;
      } else {
        assert HasSuccessor(a, j);
        var k :| j < k < |a| && a[k].family == a[j].family;
        assert b[k].family == b[j].family;
      }
    }
  }

  lemma ClaimKeepsInv(s: Store, request: nat, expires: int)
    requires Inv(s)
    ensures Inv(DoClaim(s, request, expires).0)
  {
    hide Chains;
    var u := DoClaim(s, request, expires).0;
    if request < |s.passed| {
      var p := s.passed[request];
      assert PassedFits(s, p);
      forall k | 0 <= k < |u.passed|
        ensures PassedFits(u, u.passed[k])
      {
        assert PassedFits(s, s.passed[if k < request then k else k + 1]);
      }
      if !s.tokens[p.token].revoked {
        ClaimKeepsChains(s, p.token, p.now, expires);
      }
    }
  }

  lemma DeactivateKeepsInv(s: Store, user: nat, clock: int)
    requires Inv(s)
    ensures Inv(Apply(s, Deactivate(user, clock)).0)
  {
    hide Chains;
    var tokens := RevokeUser(s.tokens, user, clock, Deactivated);
    assert OnlyRevokes(s.tokens, tokens);
    RevokingKeepsInv(s, tokens);
  }

  lemma CheckKeepsInv(s: Store, presented: Option<nat>, now: int, clock: int)
    requires Inv(s)
    ensures Inv(DoCheck(s, presented, now, clock).0)
  {
    hide Chains;
    if presented.Some? && presented.value < |s.tokens| {
      var stored := s.tokens[presented.value];
      var family := RevokeFamily(s.tokens, stored.family, clock, Reuse);
      var user := RevokeUser(s.tokens, stored.user, clock, Deactivated);
      assert OnlyRevokes(s.tokens, family) && OnlyRevokes(s.tokens, user);
      RevokingKeepsInv(s, family);
      RevokingKeepsInv(s, user);
      OneMorePassed(s, Passed(presented.value, stored.user, now));
    }
  }

  lemma OneMorePassed(s: Store, p: Passed)
    requires Inv(s) && PassedFits(s, p)
    ensures Inv(s.(passed := s.passed + [p]))
  {
  }

  lemma RevokeUserKeepsInv(s: Store, user: nat, clock: int, reason: Reason)
    requires Inv(s) && reason != Rotated
    ensures Inv(s.(tokens := RevokeUser(s.tokens, user, clock, reason)))
  {
    hide Inv;
    assert OnlyRevokes(s.tokens, RevokeUser(s.tokens, user, clock, reason));
    RevokingKeepsInv(s, RevokeUser(s.tokens, user, clock, reason));
  }

  lemma ActivateKeepsInv(s: Store, user: nat)
    requires Inv(s)
    ensures Inv(s.(active := s.active[user := true]))
  {
  }

  lemma StepKeepsInv(s: Store, step: Step)
    requires Inv(s)
    ensures Inv(Apply(s, step).0)
  {
    hide Inv, DoCheck, DoClaim, NewSession, RevokeUser;
    match step
    case Login(user, _, expires) =>
      if IsActive(s.active, user) { NewSessionKeepsInv(s, user, expires); }
    case Check(presented, now, clock) => CheckKeepsInv(s, presented, now, clock);
    case Claim(request, expires) => ClaimKeepsInv(s, request, expires);
    case SignOut(presented, caller, clock) =>
      var tokens := RevokeUsers(s.tokens, SignedOutUsers(s, presented, caller), clock, Reason.Logout);
      assert OnlyRevokes(s.tokens, tokens);
      RevokingKeepsInv(s, tokens);
    case ChangePassword(user, _, clock, expires) =>
      RevokeUserKeepsInv(s, user, clock, Password);
      if IsActive(s.active, user) {
        NewSessionKeepsInv(s.(tokens := RevokeUser(s.tokens, user, clock, Password)), user, expires);
      }
    case ResetPassword(user, clock) => RevokeUserKeepsInv(s, user, clock, Password);
    case Deactivate(user, clock) => DeactivateKeepsInv(s, user, clock);
    case Activate(user) => ActivateKeepsInv(s, user);
  }

  lemma {:induction false} RunKeepsInv(s: Store, steps: seq<Step>)
    requires Inv(s)
    ensures Inv(Run(s, steps))
  {
    hide Apply, Inv;
    if steps != [] {
      RunKeepsInv(s, steps[..|steps| - 1]);
      StepKeepsInv(Run(s, steps[..|steps| - 1]), steps[|steps| - 1]);
    }
  }

  // ---------- What it means for sessions ----------

  predicate Reachable(s: Store, steps: seq<Step>) {
    s == Run(INITIAL, steps)
  }

  /** The same token, revoked. */
  function Ended(t: Token, at: int, reason: Reason): Token {
    Token(t.user, t.family, t.expires, true, Some(at), Some(reason))
  }

  /** What revoking users' tokens does: their live tokens are revoked at this time for this reason, and every other
      token stays as it is. */
  predicate EndsExactly(before: seq<Token>, after: seq<Token>, of: nat -> bool, at: int, reason: Reason) {
    |before| <= |after| &&
    forall j :: 0 <= j < |before| ==>
      after[j] == if of(before[j].user) && !before[j].revoked then Ended(before[j], at, reason) else before[j]
  }

  predicate LiveTogether(t: Token, u: Token) {
    t.family == u.family && !t.revoked && !u.revoked
  }

  /** In every reachable state of every interleaving, each family is a linear chain: all its tokens but the
      newest have been exchanged, the newest has not, so at most one token of a family is live; and only
      active users have live tokens at all. */
  lemma EveryFamilyIsAChain(s: Store, steps: seq<Step>)
    requires Reachable(s, steps)
    ensures Inv(s)
    ensures forall i, j :: 0 <= i < j < |s.tokens| && s.tokens[i].family == s.tokens[j].family ==>
      Exchanged(s.tokens[i])
    ensures forall j :: 0 <= j < |s.tokens| && NewestOfFamily(s.tokens, j) ==> !Exchanged(s.tokens[j])
    ensures forall i, j :: 0 <= i < |s.tokens| && 0 <= j < |s.tokens| && LiveTogether(s.tokens[i], s.tokens[j]) ==>
      i == j
    ensures forall i :: 0 <= i < |s.tokens| && !s.tokens[i].revoked ==>
      s.tokens[i].user in s.active && s.active[s.tokens[i].user]
  {
    hide Run;
    assert Inv(INITIAL);
    RunKeepsInv(INITIAL, steps);
    forall i, j | 0 <= i < |s.tokens| && 0 <= j < |s.tokens| && LiveTogether(s.tokens[i], s.tokens[j])
      ensures i == j
    {
      LiveIsNewest(s, i, j);
      LiveIsNewest(s, j, i);
    }
  }

  predicate Dead(s: Store, family: nat) {
    family < s.nextFamily && forall i :: 0 <= i < |s.tokens| && s.tokens[i].family == family ==> s.tokens[i].revoked
  }

  lemma StepKeepsDead(s: Store, step: Step, family: nat)
    requires Inv(s) && Dead(s, family)
    ensures Dead(Apply(s, step).0, family)
  {
  }

  /** A family without a live token never gains one. */
  lemma {:induction false} DeadFamilyStaysDead(s: Store, steps: seq<Step>, family: nat)
    requires Inv(s) && Dead(s, family)
    ensures Dead(Run(s, steps), family)
  {
    hide Apply, Inv, Dead;
    if steps != [] {
      DeadFamilyStaysDead(s, steps[..|steps| - 1], family);
      RunKeepsInv(s, steps[..|steps| - 1]);
      StepKeepsDead(Run(s, steps[..|steps| - 1]), steps[|steps| - 1], family);
    }
  }

  /** Replaying an exchanged token more than ten seconds after its exchange ends its whole session for good; within
      the ten seconds it changes nothing. */
  lemma {:induction false} ReplayAfterGraceEndsTheSession(s: Store, i: nat, now: int, clock: int, steps: seq<Step>)
    requires Inv(s) && i < |s.tokens| && Exchanged(s.tokens[i])
    ensures DoCheck(s, Some(i), now, clock).1 == Rejected && s.tokens[i].revokedAt.Some?
    ensures now - s.tokens[i].revokedAt.value <= 10 ==> DoCheck(s, Some(i), now, clock).0 == s
    ensures now - s.tokens[i].revokedAt.value > 10 ==>
      Dead(Run(DoCheck(s, Some(i), now, clock).0, steps), s.tokens[i].family)
  {
    hide Chains, Run;
    assert Columns(s.tokens[i]);
    if now - s.tokens[i].revokedAt.value > 10 {
      var t := DoCheck(s, Some(i), now, clock).0;
      CheckKeepsInv(s, Some(i), now, clock);
      assert Dead(t, s.tokens[i].family);
      DeadFamilyStaysDead(t, steps, s.tokens[i].family);
    }
  }

  /** The presented token was exchanged before and is replayed more than ten seconds later. */
  predicate ReplayedLate(s: Store, presented: Option<nat>, now: int) {
    presented.Some? && presented.value < |s.tokens| &&
    var stored := s.tokens[presented.value];
    stored.revoked && Exchanged(stored) && (stored.revokedAt.None? || now - stored.revokedAt.value > 10)
  }

  /** The presented token is live and unexpired, but its owner is not active. */
  predicate OwnerInactive(s: Store, presented: Option<nat>, now: int) {
    presented.Some? && presented.value < |s.tokens| && !s.tokens[presented.value].revoked &&
    now < s.tokens[presented.value].expires &&
    !(s.tokens[presented.value].user in s.active && s.active[s.tokens[presented.value].user])
  }

  /** A rejected check leaves everything as it was, except in the two cases that commit first: an exchanged token
      replayed after the grace window revokes exactly the live tokens of its family, and a live unexpired token of
      an inactive user exactly that user's; and in those two cases the check is rejected. */
  lemma {:induction false} RejectionRollsBackExceptRevocations(s: Store, presented: Option<nat>, now: int, clock: int)
    ensures var (t, r) := DoCheck(s, presented, now, clock);
      var late, inactive := ReplayedLate(s, presented, now), OwnerInactive(s, presented, now);
      && (late || inactive ==> r == Rejected)
      && (r == Rejected ==>
           && t == s.(tokens := t.tokens) && |t.tokens| == |s.tokens|
           && (forall j :: 0 <= j < |s.tokens| ==>
                 var was := s.tokens[j];
                 t.tokens[j] ==
                   if was.revoked then was
                   else if late && was.family == s.tokens[presented.value].family then Ended(was, clock, Reuse)
                   else if inactive && was.user == s.tokens[presented.value].user then Ended(was, clock, Deactivated)
                   else was))
  {
  }

  /** Which token a step exchanged. */
  function ExchangedBy(s: Store, step: Step): Option<nat> {
    if step.Claim? && step.request < |s.passed| && Apply(s, step).1.Issued?
    then Some(s.passed[step.request].token)
    else None
  }

  /** No token is exchanged twice, even if two requests passed their checks with it before either claimed it. */
  lemma {:induction false} NoTokenIsExchangedTwice(s: Store, first: Step, between: seq<Step>, second: Step)
    requires Inv(s) && ExchangedBy(s, first).Some?
    ensures ExchangedBy(Run(Apply(s, first).0, between), second) != ExchangedBy(s, first)
  {
    hide Chains, Run;
    var t := Apply(s, first).0;
    var i := ExchangedBy(s, first).value;
    assert t.tokens[i].revoked;
    RevocationIsWrittenOnce(t, between);
    assert Keeps(t.tokens[i], Run(t, between).tokens[i]);
  }

  /** Two requests that passed their checks with the same token: exactly one of the two claims succeeds, in
      whichever order they come, and the session survives with the winner's new token. */
  lemma RaceHasOneWinner(s: Store, k: nat, l: nat, e1: int, e2: int)
    requires Inv(s) && k < l < |s.passed| && s.passed[k].token == s.passed[l].token
    requires !s.tokens[s.passed[k].token].revoked
    ensures var (t, r1) := DoClaim(s, k, e1);
      var (u, r2) := DoClaim(t, l - 1, e2);
      && r1 == Issued(|s.tokens|) && r2 == Rejected && u.tokens == t.tokens
      && !u.tokens[|s.tokens|].revoked && u.tokens[|s.tokens|].family == s.tokens[s.passed[k].token].family
    ensures var (t, r1) := DoClaim(s, l, e1);
      var (u, r2) := DoClaim(t, k, e2);
      && r1 == Issued(|s.tokens|) && r2 == Rejected && u.tokens == t.tokens
      && !u.tokens[|s.tokens|].revoked && u.tokens[|s.tokens|].family == s.tokens[s.passed[k].token].family
  {
  }

  /** Revoking a user's tokens also stops the refreshes that had already passed their checks: no later run
      makes a live token out of a session the user had. */
  lemma {:induction false} RevokedUserKeepsNoSession(s: Store, user: nat, clock: int, reason: Reason, steps: seq<Step>,
      i: nat)
    requires Inv(s) && i < |s.tokens| && s.tokens[i].user == user && reason != Rotated
    ensures Dead(Run(s.(tokens := RevokeUser(s.tokens, user, clock, reason)), steps), s.tokens[i].family)
  {
    hide Run;
    var t := s.(tokens := RevokeUser(s.tokens, user, clock, reason));
    RevokeUserKeepsInv(s, user, clock, reason);
    forall j | 0 <= j < |t.tokens| && t.tokens[j].family == s.tokens[i].family
      ensures t.tokens[j].revoked
    {
      SameOwner(s, i, j);
    }
    DeadFamilyStaysDead(t, steps, s.tokens[i].family);
  }

  /** A refresh gets past its checks exactly with a known, live, unexpired token of an active user, changing no
      token; its claim then succeeds exactly if the token is still live, whatever happened in between. */
  lemma {:induction false} RefreshSucceedsExactlyIf(s: Store, presented: Option<nat>, now: int, clock: int,
      between: seq<Step>, request: nat, expires: int)
    requires Inv(s)
    ensures var (t, r) := DoCheck(s, presented, now, clock);
      && (r == InProgress <==>
           presented.Some? && presented.value < |s.tokens| && !s.tokens[presented.value].revoked &&
           now < s.tokens[presented.value].expires && s.tokens[presented.value].user in s.active &&
           s.active[s.tokens[presented.value].user])
      && (r == InProgress ==>
            t == s.(passed := s.passed + [Passed(presented.value, s.tokens[presented.value].user, now)]))
    ensures var u := Run(s, between);
      DoClaim(u, request, expires).1.Issued? <==>
        request < |u.passed| && u.passed[request].token < |u.tokens| && !u.tokens[u.passed[request].token].revoked
    ensures var u := Run(s, between);
      request < |u.passed| ==>
        (u.passed[request].token < |u.tokens| && u.tokens[u.passed[request].token].user == u.passed[request].user)
  {
    hide Chains, Run, RevokeFamily, RevokeUser;
    RunKeepsInv(s, between);
    var u := Run(s, between);
    if request < |u.passed| {
      assert PassedFits(u, u.passed[request]);
    }
  }

  /** Without interference a live, unexpired token of an active user is rotated: it is spent at the time of the
      check, and its successor is the live token of the same session. */
  lemma RotationSucceeds(s: Store, i: nat, now: int, clock: int, expires: int)
    requires Inv(s) && i < |s.tokens| && !s.tokens[i].revoked && now < s.tokens[i].expires
    ensures var (t, r) := DoCheck(s, Some(i), now, clock);
      var (u, q) := DoClaim(t, |s.passed|, expires);
      && r == InProgress && t.tokens == s.tokens
      && q == Issued(|s.tokens|) && |u.tokens| == |s.tokens| + 1 && u.passed == s.passed
      && u.tokens[i] == Ended(s.tokens[i], now, Rotated)
      && u.tokens[|s.tokens|] == Token(s.tokens[i].user, s.tokens[i].family, expires, false, None, None)
      && (forall j :: 0 <= j < |s.tokens| && j != i ==> u.tokens[j] == s.tokens[j])
  {
  }

  /** A login, and a password change, start a session of a family no token had; a password change ends every other
      session of the user and nobody else's. */
  lemma NewSessionsAreApart(s: Store, user: nat, clock: int, expires: int)
    requires Inv(s) && user in s.active && s.active[user]
    ensures forall j :: 0 <= j < |s.tokens| ==> s.tokens[j].family != s.nextFamily
    ensures Apply(s, Login(user, true, expires)) == (
      s.(tokens := s.tokens + [Token(user, s.nextFamily, expires, false, None, None)], nextFamily := s.nextFamily + 1),
      Issued(|s.tokens|))
    ensures var (t, r) := Apply(s, ChangePassword(user, true, clock, expires));
      && r == Issued(|s.tokens|) && t == s.(tokens := t.tokens, nextFamily := s.nextFamily + 1)
      && |t.tokens| == |s.tokens| + 1
      && t.tokens[|s.tokens|] == Token(user, s.nextFamily, expires, false, None, None)
      && EndsExactly(s.tokens, t.tokens, u => u == user, clock, Password)
  {
  }

  /** A login or password change that is not verified, or of a user not active, is rejected and changes nothing. */
  lemma OnlyActiveUsersSignIn(s: Store, user: nat, verified: bool, clock: int, expires: int)
    requires !verified || user !in s.active || !s.active[user]
    ensures Apply(s, Login(user, verified, expires)) == (s, Rejected)
    ensures Apply(s, ChangePassword(user, verified, clock, expires)) == (s, Rejected)
  {
  }

  /** Signing out ends every session of the caller and of the presented token's owner, for good, and no one else's. */
  lemma {:induction false} SignOutEndsTheirSessions(s: Store, presented: Option<nat>, caller: Option<nat>, clock: int,
      steps: seq<Step>)
    requires Inv(s)
    ensures var t := Apply(s, SignOut(presented, caller, clock)).0;
      var theirs := (u: nat) =>
        caller == Some(u) || (presented.Some? && presented.value < |s.tokens| && s.tokens[presented.value].user == u);
      && t == s.(tokens := t.tokens) && |t.tokens| == |s.tokens|
      && EndsExactly(s.tokens, t.tokens, theirs, clock, Logout)
      && (forall j :: 0 <= j < |s.tokens| && theirs(s.tokens[j].user) ==> Dead(Run(t, steps), s.tokens[j].family))
  {
    hide Run, Chains;
    var t := Apply(s, SignOut(presented, caller, clock)).0;
    StepKeepsInv(s, SignOut(presented, caller, clock));
    forall j | 0 <= j < |s.tokens| && s.tokens[j].user in SignedOutUsers(s, presented, caller)
      ensures Dead(Run(t, steps), s.tokens[j].family)
    {
      EndedFamilyIsDead(s, t, u => u in SignedOutUsers(s, presented, caller), clock, Logout, j);
      DeadFamilyStaysDead(t, steps, s.tokens[j].family);
    }
  }

  lemma EndedFamilyIsDead(s: Store, t: Store, of: nat -> bool, clock: int, reason: Reason, i: nat)
    requires Inv(s) && t.nextFamily == s.nextFamily && |t.tokens| == |s.tokens|
    requires EndsExactly(s.tokens, t.tokens, of, clock, reason) && i < |s.tokens| && of(s.tokens[i].user)
    ensures Dead(t, s.tokens[i].family)
  {
    hide Chains;
    forall j | 0 <= j < |t.tokens| && t.tokens[j].family == s.tokens[i].family
      ensures t.tokens[j].revoked
    {
      SameOwner(s, i, j);
    }
  }

  /** Setting a user's password and deactivating a user revoke exactly the user's live tokens, each with its own
      reason, and end every session the user had for good, refreshes already past their checks included. */
  lemma {:induction false} AdministratorEndsSessions(s: Store, user: nat, clock: int, steps: seq<Step>)
    requires Inv(s)
    ensures var t := Apply(s, ResetPassword(user, clock)).0;
      && t == s.(tokens := t.tokens) && |t.tokens| == |s.tokens|
      && EndsExactly(s.tokens, t.tokens, u => u == user, clock, Password)
      && (forall i :: 0 <= i < |s.tokens| && s.tokens[i].user == user ==> Dead(Run(t, steps), s.tokens[i].family))
    ensures var t := Apply(s, Deactivate(user, clock)).0;
      && t == s.(tokens := t.tokens, active := s.active[user := false]) && |t.tokens| == |s.tokens|
      && EndsExactly(s.tokens, t.tokens, u => u == user, clock, Deactivated)
      && (forall i :: 0 <= i < |s.tokens| && s.tokens[i].user == user ==> Dead(Run(t, steps), s.tokens[i].family))
    ensures Apply(s, Activate(user)).0 == s.(active := s.active[user := true])
  {
    hide Run, Chains;
    var r, d := Apply(s, ResetPassword(user, clock)).0, Apply(s, Deactivate(user, clock)).0;
    StepKeepsInv(s, ResetPassword(user, clock));
    StepKeepsInv(s, Deactivate(user, clock));
    forall i | 0 <= i < |s.tokens| && s.tokens[i].user == user
      ensures Dead(Run(r, steps), s.tokens[i].family) && Dead(Run(d, steps), s.tokens[i].family)
    {
      EndedFamilyIsDead(s, r, u => u == user, clock, Password, i);
      EndedFamilyIsDead(s, d, u => u == user, clock, Deactivated, i);
      DeadFamilyStaysDead(r, steps, s.tokens[i].family);
      DeadFamilyStaysDead(d, steps, s.tokens[i].family);
    }
  }

  lemma SameOwner(s: Store, i: nat, j: nat)
    requires Inv(s) && i < |s.tokens| && j < |s.tokens| && s.tokens[i].family == s.tokens[j].family
    ensures s.tokens[i].user == s.tokens[j].user
  {
  }
}
