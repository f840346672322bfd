/** Refresh-token rotation with reuse detection.

    The token table is a sequence in order of insertion; a token is its position.  A refresh is two steps,
    between which anything may happen: `Check` reads the presented token and lets the request pass or rejects
    it, `Claim` spends the token atomically and issues its successor.  Every other operation is one step.
 */
module RefreshTokens {
  import opened Options

  datatype Reason = Rotated | Reuse | Logout | Password | Deactivated

  datatype Token = Token(user: nat, family: nat, expires: int, revoked: bool, revokedAt: Option<int>,
      reason: Option<Reason>)

  /** A refresh that has passed its checks and has not claimed its token yet. */
  datatype Passed = Passed(token: nat, user: nat, now: int)

  datatype Store = Store(tokens: seq<Token>, nextFamily: nat, active: map<nat, bool>, passed: seq<Passed>)

  datatype Outcome = Issued(token: nat) | InProgress | Done | Rejected

  const GRACE_SECONDS := 10

  // ---------- Statements on the table ----------

  function Revoke(t: Token, at: int, reason: Reason): Token {
    t.(revoked := true, revokedAt := Some(at), reason := Some(reason))
  }

  /** UPDATE ... WHERE family_id = family AND NOT revoked. */
  function RevokeFamily(tokens: seq<Token>, family: nat, at: int, reason: Reason): seq<Token> {
    seq<Token>(|tokens|, i requires 0 <= i < |tokens| =>
      if tokens[i].family == family && !tokens[i].revoked then Revoke(tokens[i], at, reason) else tokens[i])
  }

  /** UPDATE ... WHERE user_id = user AND NOT revoked. */
  function RevokeUser(tokens: seq<Token>, user: nat, at: int, reason: Reason): seq<Token> {
    seq<Token>(|tokens|, i requires 0 <= i < |tokens| =>
      if tokens[i].user == user && !tokens[i].revoked then Revoke(tokens[i], at, reason) else tokens[i])
  }

  function NewToken(user: nat, family: nat, expires: int): Token {
    Token(user, family, expires, false, None, None)
  }

  predicate InGrace(t: Token, now: int) {
    t.revokedAt.Some? && now - t.revokedAt.value <= GRACE_SECONDS
  }

  predicate IsActive(active: map<nat, bool>, user: nat) {
    user in active && active[user]
  }

  // ---------- Steps ----------

  datatype Step =
    | Login(user: nat, verified: bool, expires: int)
    | Check(presented: Option<nat>, now: int, clock: int)
    | Claim(request: nat, expires: int)
    | SignOut(presented: Option<nat>, caller: Option<nat>, clock: int)
    | ChangePassword(user: nat, verified: bool, clock: int, expires: int)
    | ResetPassword(user: nat, clock: int)
    | Deactivate(user: nat, clock: int)
    | Activate(user: nat)

  function Issue(s: Store, user: nat, family: nat, expires: int): (Store, Outcome) {
    (s.(tokens := s.tokens + [NewToken(user, family, expires)]), Issued(|s.tokens|))
  }

  /** A session of its own family, as a login starts one. */
  function NewSession(s: Store, user: nat, expires: int): (Store, Outcome) {
    Issue(s.(nextFamily := s.nextFamily + 1), user, s.nextFamily, expires)
  }

  function DoCheck(s: Store, presented: Option<nat>, now: int, clock: int): (Store, Outcome) {
    if presented.None? || presented.value >= |s.tokens| then (s, Rejected)
    else
      var stored := s.tokens[presented.value];
      if stored.revoked then
        if stored.reason == Some(Rotated) && !InGrace(stored, now)
        then (s.(tokens := RevokeFamily(s.tokens, stored.family, clock, Reuse)), Rejected)
        else (s, Rejected)
      else if stored.expires <= now then (s, Rejected)
      else if !IsActive(s.active, stored.user)
      then (s.(tokens := RevokeUser(s.tokens, stored.user, clock, Deactivated)), Rejected)
      else (s.(passed := s.passed + [Passed(presented.value, stored.user, now)]), InProgress)
  }

  function DoClaim(s: Store, request: nat, expires: int): (Store, Outcome) {
    if request >= |s.passed| then (s, Rejected)
    else
      var p := s.passed[request];
      var rest := s.(passed := s.passed[..request] + s.passed[request + 1..]);
      if p.token >= |s.tokens| || s.tokens[p.token].revoked then (rest, Rejected)
      else
        var t := s.tokens[p.token];
        Issue(rest.(tokens := s.tokens[p.token := Revoke(t, p.now, Rotated)]), p.user, t.family, expires)
  }

  function SignedOutUsers(s: Store, presented: Option<nat>, user: Option<nat>): set<nat> {
    (if user.Some? then {user.value} else {}) +
    (if presented.Some? && presented.value < |s.tokens| then {s.tokens[presented.value].user} else {})
  }

  function RevokeUsers(tokens: seq<Token>, users: set<nat>, at: int, reason: Reason): seq<Token> {
    seq<Token>(|tokens|, i requires 0 <= i < |tokens| =>
      if tokens[i].user in users && !tokens[i].revoked then Revoke(tokens[i], at, reason) else tokens[i])
  }

  function Apply(s: Store, step: Step): (Store, Outcome) {
    match step
    case Login(user, verified, expires) =>
      if !verified || !IsActive(s.active, user) then (s, Rejected) else NewSession(s, user, expires)
    case Check(presented, now, clock) => DoCheck(s, presented, now, clock)
    case Claim(request, expires) => DoClaim(s, request, expires)
    case SignOut(presented, user, clock) =>
      (s.(tokens := RevokeUsers(s.tokens, SignedOutUsers(s, presented, user), clock, Logout)), Done)
    case ChangePassword(user, verified, clock, expires) =>
      if !verified || !IsActive(s.active, user) then (s, Rejected)
      else NewSession(s.(tokens := RevokeUser(s.tokens, user, clock, Password)), user, expires)
    case ResetPassword(user, clock) => (s.(tokens := RevokeUser(s.tokens, user, clock, Password)), Done)
    case Deactivate(user, clock) =>
      (s.(tokens := RevokeUser(s.tokens, user, clock, Deactivated), active := s.active[user := false]), Done)
    case Activate(user) => (s.(active := s.active[user := true]), Done)
  }

  function Run(s: Store, steps: seq<Step>): Store {
    if steps == [] then s else Apply(Run(s, steps[..|steps| - 1]), steps[|steps| - 1]).0
  }

  /** An empty table; nobody is active before being activated. */
  const INITIAL := Store([], 0, map[], [])

  // ---------- The service ----------

  /** The service over one database session.  `table` is what is committed, `session` the request's own view:
      a request that raises is rolled back to `table`, one that returns is committed. */
  class AuthService {
    var table: seq<Token>
    var session: seq<Token>
    var nextFamily: nat
    var active: map<nat, bool>
    var passed: seq<Passed>

    ghost predicate Valid()
      reads this
    {
      session == table
    }

    function Value(): Store
      reads this
    {
      Store(table, nextFamily, active, passed)
    }

    constructor ()
      ensures Valid() && Value() == INITIAL
    {
      table, session, nextFamily, active, passed := [], [], 0, map[], [];
    }

    method Commit()
      modifies this`table
      ensures table == session
    {
      table := session;
    }

    method Rollback()
      modifies this`session
      ensures session == table
    {
      session := table;
    }

    /** The revocation is committed before the request is rejected and its session rolled back. */
    method CommitThenReject() returns (r: Outcome)
      modifies this`table, this`session
      ensures table == session == old(session) && r == Rejected
    {
      Commit();
      Rollback();
      return Rejected;
    }

    method IssueToken(user: nat, family: nat, expires: int) returns (r: Outcome)
      modifies this`session
      ensures session == old(session) + [NewToken(user, family, expires)] && r == Issued(|old(session)|)
    {
      session := session + [NewToken(user, family, expires)];
      return Issued(|session| - 1);
    }

    /** `refresh` up to the claim. */
    method CheckRefresh(presented: Option<nat>, now: int, clock: int) returns (r: Outcome)
      requires Valid()
      modifies this
      ensures Valid()
      ensures (Value(), r) == DoCheck(old(Value()), presented, now, clock)
    {
      if presented.None? || presented.value >= |session| {
        Rollback();
        return Rejected;
      }
      var stored := session[presented.value];
      if stored.revoked {
        if stored.reason == Some(Rotated) && !InGrace(stored, now) {
          session := RevokeFamily(session, stored.family, clock, Reuse);
          r := CommitThenReject();
          return r;
        }
        Rollback();
        return Rejected;
      }
      if stored.expires <= now {
        Rollback();
        return Rejected;
      }
      if stored.user !in active || !active[stored.user] {
        session := RevokeUser(session, stored.user, clock, Deactivated);
        r := CommitThenReject();
        return r;
      }
      passed := passed + [Passed(presented.value, stored.user, now)];
      return InProgress;
    }

    /** `refresh` from the claim on: the conditional update, the successor, and the commit of both. */
    method ClaimRefresh(request: nat, expires: int) returns (r: Outcome)
      requires Valid()
      modifies this
      ensures Valid()
      ensures (Value(), r) == DoClaim(old(Value()), request, expires)
    {
      if request >= |passed| {
        return Rejected;
      }
      var p := passed[request];
      passed := passed[..request] + passed[request + 1..];
      if p.token >= |session| || session[p.token].revoked {
        Rollback();
        return Rejected;
      }
      var t := session[p.token];
      session := session[p.token := t.(revoked := true, revokedAt := Some(p.now), reason := Some(Rotated))];
      r := IssueToken(p.user, t.family, expires);
      Commit();
    }

    method LogIn(user: nat, verified: bool, expires: int) returns (r: Outcome)
      requires Valid()
      modifies this
      ensures Valid()
      ensures (Value(), r) == Apply(old(Value()), Login(user, verified, expires))
    {
      if !verified || user !in active || !active[user] {
        Rollback();
        return Rejected;
      }
      var family := nextFamily;
      nextFamily := nextFamily + 1;
      r := IssueToken(user, family, expires);
      Commit();
    }

    /** Logout: of the caller, of the presented token's owner, or of both. */
    method LogOut(presented: Option<nat>, user: Option<nat>, clock: int)
      requires Valid()
      modifies this
      ensures Valid()
      ensures Value() == Apply(old(Value()), SignOut(presented, user, clock)).0
    {
      var users: set<nat> := if user.Some? then {user.value} else {};
      if presented.Some? && presented.value < |session| {
        users := users + {session[presented.value].user};
      }
      ghost var all := users;
      assert session == RevokeUsers(session, {}, clock, Logout);
      while users != {}
        invariant users <= all && session == RevokeUsers(table, all - users, clock, Logout)
        invariant table == old(table) && nextFamily == old(nextFamily) && active == old(active) && passed == old(passed)
        decreases users
      {
        var uid :| uid in users;
        session := RevokeUser(session, uid, clock, Logout);
        users := users - {uid};
      }
      assert all - users == all;
      Commit();
    }

    /** A self-service password change: every other session ends, this device gets a fresh one. */
    method UpdateSelf(user: nat, verified: bool, clock: int, expires: int) returns (r: Outcome)
      requires Valid()
      modifies this
      ensures Valid()
      ensures (Value(), r) == Apply(old(Value()), ChangePassword(user, verified, clock, expires))
    {
      if user !in active || !active[user] || !verified {
        Rollback();
        return Rejected;
      }
      session := RevokeUser(session, user, clock, Password);
      var family := nextFamily;
      nextFamily := nextFamily + 1;
      r := IssueToken(user, family, expires);
      Commit();
    }

    /** An administrator sets a password, deactivates or reactivates a user. */
    method UpdateUser(user: nat, newPassword: bool, setActive: Option<bool>, clock: int)
      requires Valid()
      modifies this
      ensures Valid()
      ensures Value() == Run(old(Value()),
        (if newPassword then [ResetPassword(user, clock)] else []) +
        (if setActive.None? then [] else if setActive.value then [Activate(user)] else [Deactivate(user, clock)]))
    {
      ghost var first := if newPassword then [ResetPassword(user, clock)] else [];
      ghost var second := if setActive.None? then []
        else if setActive.value then [Activate(user)] else [Deactivate(user, clock)];
      RunTwo(old(Value()), first, second);
      if setActive.Some? {
        active := active[user := setActive.value];
      }
      if newPassword {
        session := RevokeUser(session, user, clock, Password);
      }
      if setActive == Some(false) {
        session := RevokeUser(session, user, clock, Deactivated);
      }
      Commit();
    }
  }

  lemma RunTwo(s: Store, first: seq<Step>, second: seq<Step>)
    requires |first| <= 1 && |second| <= 1
    ensures var t := if first == [] then s else Apply(s, first[0]).0;
      Run(s, first + second) == if second == [] then t else Apply(t, second[0]).0
  {
    hide Apply;
    if first != [] {
      assert first[..0] == [];
      assert Run(s, first) == Apply(s, first[0]).0;
    }
    if second != [] {
      assert (first + second)[..|first|] == first;
    } else {
      assert first + second == first;
    }
  }
}
