/** Committing an import batch: parsed accounts are mapped to accounts, then the parsed payments of each
    reference are replayed in date order onto the mapped account, with one import row per parsed item. */
module Imports {
  import opened Options
  import opened Calendar
  import opened Ledger
  import opened Payments

  datatype Action = Create | Existing | Skip

  datatype Mapping = Mapping(ref: string, action: Action, existingId: Option<nat>, userId: Option<nat>,
      rate: Option<nat>)

  datatype ParsedAccount = ParsedAccount(ref: string, borrow: int, start: Day, rate: Option<nat>, rowNumber: nat)

  datatype ParsedPayment = ParsedPayment(ref: string, date: Day, amount: int, interest: int, rows: seq<nat>)

  datatype Interpretation =
    | AccountError | AccountSkipped | AccountMatched | AccountCreated | PaymentError | PaymentCreated

  datatype ImportRow = ImportRow(rowNumber: Option<nat>, what: Interpretation, accountId: Option<nat>)

  /** What one commit works on: the account table, the accounts mapped so far, the rows and the counters. */
  datatype Session = Session(
    accounts: map<nat, Account>, nextId: nat, byRef: map<string, nat>, rows: seq<ImportRow>,
    created: nat, matched: nat, skipped: nat, paid: nat, errored: nat)

  /** The mapping of each reference; of several for one reference the last counts. */
  function MappingByRef(mappings: seq<Mapping>): map<string, Mapping> {
    if mappings == [] then map[]
    else
      var last := mappings[|mappings| - 1];
      MappingByRef(mappings[..|mappings| - 1])[last.ref := last]
  }

  function NewTerms(pa: ParsedAccount, m: Mapping): Terms {
    Terms(pa.borrow, if m.rate.Some? then m.rate.value else if pa.rate.Some? then pa.rate.value else 0, pa.start)
  }

  function WithRow(s: Session, rowNumber: Option<nat>, what: Interpretation, accountId: Option<nat>): Session {
    s.(rows := s.rows + [ImportRow(rowNumber, what, accountId)])
  }

  function MapAccount(s: Session, pa: ParsedAccount, m: map<string, Mapping>, users: set<nat>): Session {
    var n := Some(pa.rowNumber);
    if pa.ref !in m then WithRow(s, n, AccountError, None)
    else
      var it := m[pa.ref];
      match it.action
      case Skip => WithRow(s, n, AccountSkipped, None).(skipped := s.skipped + 1)
      case Existing =>
        if it.existingId.None? || it.existingId.value !in s.accounts then WithRow(s, n, AccountError, None)
        else
          WithRow(s, n, AccountMatched, it.existingId)
            .(byRef := s.byRef[pa.ref := it.existingId.value], matched := s.matched + 1)
      case Create =>
        if it.userId.None? || it.userId.value !in users then WithRow(s, n, AccountError, None)
        else
          WithRow(s, n, AccountCreated, Some(s.nextId))
            .(accounts := s.accounts[s.nextId := Account(NewTerms(pa, it), Open, [])], nextId := s.nextId + 1,
              byRef := s.byRef[pa.ref := s.nextId], created := s.created + 1)
  }

  function MapAccounts(s: Session, pas: seq<ParsedAccount>, m: map<string, Mapping>, users: set<nat>): Session {
    if pas == [] then s
    else MapAccount(MapAccounts(s, pas[..|pas| - 1], m, users), pas[|pas| - 1], m, users)
  }

  // ---------- Grouping by reference and sorting by date ----------

  function GroupOf(ps: seq<ParsedPayment>, ref: string): seq<ParsedPayment> {
    if ps == [] then []
    else
      var last := ps[|ps| - 1];
      GroupOf(ps[..|ps| - 1], ref) + (if last.ref == ref then [last] else [])
  }

  /** The references, each once, in order of first appearance. */
  function Refs(ps: seq<ParsedPayment>): seq<string> {
    if ps == [] then []
    else
      var before, ref := Refs(ps[..|ps| - 1]), ps[|ps| - 1].ref;
      if ref in before then before else before + [ref]
  }

  /** Stable insertion by date. */
  function InsertByDate(ps: seq<ParsedPayment>, p: ParsedPayment): seq<ParsedPayment> {
    if ps != [] && Before(p.date, ps[|ps| - 1].date) then InsertByDate(ps[..|ps| - 1], p) + [ps[|ps| - 1]]
    else ps + [p]
  }

  function SortByDate(ps: seq<ParsedPayment>): seq<ParsedPayment> {
    if ps == [] then [] else InsertByDate(SortByDate(ps[..|ps| - 1]), ps[|ps| - 1])
  }

  // ---------- Replay of one reference ----------

  function ItemsOf(ps: seq<ParsedPayment>): seq<ImportItem> {
    seq<ImportItem>(|ps|, i requires 0 <= i < |ps| => ImportItem(ps[i].date, ps[i].amount, ps[i].interest))
  }

  function FirstRow(p: ParsedPayment): Option<nat> {
    if p.rows == [] then None else Some(p.rows[0])
  }

  function UnmappedRows(ps: seq<ParsedPayment>): seq<ImportRow> {
    seq<ImportRow>(|ps|, i requires 0 <= i < |ps| => ImportRow(FirstRow(ps[i]), PaymentError, None))
  }

  /** One row per payment: an error for one that predates the history it would be chained onto. */
  function PaymentRows(a: Account, id: nat, ps: seq<ParsedPayment>): seq<ImportRow> {
    if ps == [] then []
    else
      var init, p := ps[..|ps| - 1], ps[|ps| - 1];
      PaymentRows(a, id, init) +
      (if Before(p.date, LastDate(a.terms, AppendImports(a.terms, a.payments, ItemsOf(init))))
       then [ImportRow(FirstRow(p), PaymentError, None)]
       else [ImportRow(FirstRow(p), PaymentCreated, Some(id))])
  }

  function ReplayRef(s: Session, ref: string, plist: seq<ParsedPayment>): Session
    requires ref in s.byRef ==> s.byRef[ref] in s.accounts
  {
    if ref !in s.byRef then s.(rows := s.rows + UnmappedRows(plist), errored := s.errored + |plist|)
    else
      var id := s.byRef[ref];
      var a := s.accounts[id];
      var after := Imported(a, ItemsOf(plist));
      var added := |after.payments| - |a.payments|;
      AppendedAtMost(a.terms, a.payments, ItemsOf(plist));
      s.(accounts := s.accounts[id := after], rows := s.rows + PaymentRows(a, id, plist),
         paid := s.paid + added, errored := s.errored + |plist| - added)
  }

  lemma {:induction false} AppendedAtMost(terms: Terms, ps: seq<Payment>, items: seq<ImportItem>)
    ensures |ps| <= |AppendImports(terms, ps, items)| <= |ps| + |items|
  {
    if items != [] {
      AppendedAtMost(terms, ps, items[..|items| - 1]);
    }
  }

  ghost predicate Mapped(s: Session) {
    forall ref :: ref in s.byRef ==> s.byRef[ref] in s.accounts
  }

  function ReplayRefs(s: Session, refs: seq<string>, ps: seq<ParsedPayment>): (r: Session)
    requires Mapped(s)
    ensures Mapped(r) && r.byRef == s.byRef
  {
    if refs == [] then s
    else
      var ref := refs[|refs| - 1];
      ReplayRef(ReplayRefs(s, refs[..|refs| - 1], ps), ref, SortByDate(GroupOf(ps, ref)))
  }

  /** The identifiers the database hands out are new: larger than any in the table or in a mapping. */
  ghost predicate FreshIds(accounts: map<nat, Account>, nextId: nat, m: map<string, Mapping>) {
    && (forall id :: id in accounts ==> id < nextId)
    && (forall ref :: ref in m && m[ref].existingId.Some? ==> m[ref].existingId.value < nextId)
  }

  predicate UniqueRefs(pas: seq<ParsedAccount>) {
    forall i, j :: 0 <= i < j < |pas| ==> pas[i].ref != pas[j].ref
  }

  function Start(accounts: map<nat, Account>, nextId: nat): Session {
    Session(accounts, nextId, map[], [], 0, 0, 0, 0, 0)
  }

  /** A reference mapped to a new account has that account to itself. */
  ghost predicate CreatedApart(s: Session, m: map<string, Mapping>, first: nat) {
    && Mapped(s)
    && first <= s.nextId
    && (forall id :: id in s.accounts ==> id < s.nextId)
    && (forall ref :: ref in s.byRef ==> ref in m && !m[ref].action.Skip? && s.byRef[ref] < s.nextId)
    && (forall ref :: ref in s.byRef ==> (m[ref].action.Create? <==> first <= s.byRef[ref]))
    && (forall q, r :: q in s.byRef && r in s.byRef && q != r && m[q].action.Create? ==> s.byRef[q] != s.byRef[r])
  }

  lemma {:induction false} MappingKeepsApart(s: Session, pas: seq<ParsedAccount>, m: map<string, Mapping>,
      users: set<nat>)
    requires UniqueRefs(pas) && s.byRef == map[] && FreshIds(s.accounts, s.nextId, m)
    ensures var t := MapAccounts(s, pas, m, users);
      && CreatedApart(t, m, s.nextId)
      && (forall ref :: ref in t.byRef ==> exists i :: 0 <= i < |pas| && pas[i].ref == ref)
      && (forall ref :: ref in t.byRef && m[ref].action.Create? ==> t.accounts[t.byRef[ref]].payments == [])
  {
    if pas != [] {
      var n := |pas| - 1;
      var t := MapAccounts(s, pas[..n], m, users);
      MappingKeepsApart(s, pas[..n], m, users);
      MapAccountKeepsApart(t, pas[n], m, users, s.nextId);
      forall ref | ref in MapAccounts(s, pas, m, users).byRef
        ensures exists i :: 0 <= i < |pas| && pas[i].ref == ref
      {
        if ref == pas[n].ref {
        } else {
          var i :| 0 <= i < n && pas[..n][i].ref == ref;
          assert pas[i].ref == ref;
        }
      }
    }
  }

  lemma MapAccountKeepsApart(t: Session, pa: ParsedAccount, m: map<string, Mapping>, users: set<nat>, first: nat)
    requires CreatedApart(t, m, first) && pa.ref !in t.byRef
    requires forall ref :: ref in m && m[ref].existingId.Some? ==> m[ref].existingId.value < first
    requires forall ref :: ref in t.byRef && m[ref].action.Create? ==> t.accounts[t.byRef[ref]].payments == []
    ensures var u := MapAccount(t, pa, m, users);
      && CreatedApart(u, m, first)
      && (forall ref :: ref in u.byRef ==> ref == pa.ref || ref in t.byRef)
      && (forall ref :: ref in u.byRef && m[ref].action.Create? ==> u.accounts[u.byRef[ref]].payments == [])
  {
    ApartIsMapped(t, m, first);
    hide CreatedApart, NewTerms;
    var u := MapAccount(t, pa, m, users);
    if u.byRef == t.byRef {
      SameTables(t, u, m, first);
    } else if m[pa.ref].action.Existing? {
      MatchedApart(t, u, pa.ref, m, first);
    } else {
      CreatedStaysApart(t, u, pa.ref, m, first);
    }
  }

  lemma SameTables(t: Session, u: Session, m: map<string, Mapping>, first: nat)
    requires CreatedApart(t, m, first)
    requires u.byRef == t.byRef && u.accounts == t.accounts && u.nextId == t.nextId
    ensures CreatedApart(u, m, first)
  {
  }

  lemma MatchedApart(t: Session, u: Session, ref: string, m: map<string, Mapping>, first: nat)
    requires CreatedApart(t, m, first) && ref !in t.byRef && ref in m && m[ref].action.Existing?
    requires m[ref].existingId.Some? && m[ref].existingId.value < first && m[ref].existingId.value in t.accounts
    requires u.byRef == t.byRef[ref := m[ref].existingId.value] && u.accounts == t.accounts && u.nextId == t.nextId
    ensures CreatedApart(u, m, first)
  {
  }

  lemma CreatedStaysApart(t: Session, u: Session, ref: string, m: map<string, Mapping>, first: nat)
    requires CreatedApart(t, m, first) && ref !in t.byRef && ref in m && m[ref].action.Create?
    requires forall r :: r in t.byRef && m[r].action.Create? ==>
      r in t.byRef && t.byRef[r] in t.accounts && t.accounts[t.byRef[r]].payments == []
    requires t.nextId in u.accounts && u.accounts == t.accounts[t.nextId := u.accounts[t.nextId]] &&
      u.accounts[t.nextId].payments == []
    requires u.byRef == t.byRef[ref := t.nextId] && u.nextId == t.nextId + 1
    ensures CreatedApart(u, m, first)
    ensures forall r :: r in u.byRef && m[r].action.Create? ==> u.accounts[u.byRef[r]].payments == []
  {
  }

  datatype Parsed = Parsed(accounts: seq<ParsedAccount>, payments: seq<ParsedPayment>)

  datatype Summary = Summary(created: nat, matched: nat, skipped: nat, paid: nat, errored: nat)

  datatype Outcome = Committed(summary: Summary, rows: seq<ImportRow>) | AlreadyCommitted

  function AfterCommit(accounts: map<nat, Account>, nextId: nat, parsed: Parsed, m: map<string, Mapping>,
      users: set<nat>): Session
    requires Mapped(MapAccounts(Start(accounts, nextId), parsed.accounts, m, users))
  {
    ReplayRefs(MapAccounts(Start(accounts, nextId), parsed.accounts, m, users), Refs(parsed.payments), parsed.payments)
  }

  /** One batch and the account table its commit writes to. */
  class ImportService {
    const users: set<nat>
    var accounts: map<nat, Account>
    var nextId: nat
    var committed: bool

    var byRef: map<string, nat>
    var rows: seq<ImportRow>
    var created: nat
    var matched: nat
    var skipped: nat
    var paid: nat
    var errored: nat

    function Value(): Session
      reads this
    {
      Session(accounts, nextId, byRef, rows, created, matched, skipped, paid, errored)
    }

    constructor (users: set<nat>, accounts: map<nat, Account>, nextId: nat)
      ensures !committed && this.users == users && Value() == Start(accounts, nextId)
    {
      this.users, this.accounts, this.nextId, committed := users, accounts, nextId, false;
      byRef, rows, created, matched, skipped, paid, errored := map[], [], 0, 0, 0, 0, 0;
    }

    method MapParsedAccount(pa: ParsedAccount, mappingByRef: map<string, Mapping>)
      modifies this`accounts, this`nextId, this`byRef, this`rows, this`created, this`matched, this`skipped
      ensures Value() == MapAccount(old(Value()), pa, mappingByRef, users)
    {
      hide NewTerms;
      var n := Some(pa.rowNumber);
      if pa.ref !in mappingByRef {
        rows := rows + [ImportRow(n, AccountError, None)];
        return;
      }
      var mapping := mappingByRef[pa.ref];
      if mapping.action.Skip? {
        rows := rows + [ImportRow(n, AccountSkipped, None)];
        skipped := skipped + 1;
        return;
      }
      if mapping.action.Existing? {
        if mapping.existingId.None? {
          rows := rows + [ImportRow(n, AccountError, None)];
          return;
        }
        if mapping.existingId.value !in accounts {
          rows := rows + [ImportRow(n, AccountError, None)];
          return;
        }
        byRef := byRef[pa.ref := mapping.existingId.value];
        matched := matched + 1;
        rows := rows + [ImportRow(n, AccountMatched, mapping.existingId)];
        return;
      }
      if mapping.userId.None? {
        rows := rows + [ImportRow(n, AccountError, None)];
        return;
      }
      if mapping.userId.value !in users {
        rows := rows + [ImportRow(n, AccountError, None)];
        return;
      }
      var id := nextId;
      nextId := nextId + 1;
      accounts := accounts[id := Account(NewTerms(pa, mapping), Open, [])];
      byRef := byRef[pa.ref := id];
      created := created + 1;
      rows := rows + [ImportRow(n, AccountCreated, Some(id))];
    }

    method MapParsedAccounts(pas: seq<ParsedAccount>, mappingByRef: map<string, Mapping>)
      modifies this`accounts, this`nextId, this`byRef, this`rows, this`created, this`matched, this`skipped
      ensures Value() == MapAccounts(old(Value()), pas, mappingByRef, users)
    {
      hide MapAccount;
      ghost var was := Value();
      for i := 0 to |pas|
        invariant Value() == MapAccounts(was, pas[..i], mappingByRef, users)
      {
        assert pas[..i + 1][..i] == pas[..i];
        MapParsedAccount(pas[i], mappingByRef);
      }
      assert pas[..|pas|] == pas;
    }

    static method GroupPayments(ps: seq<ParsedPayment>)
        returns (refs: seq<string>, groups: map<string, seq<ParsedPayment>>)
      ensures refs == Refs(ps)
      ensures forall ref :: ref in refs <==> ref in groups
      ensures forall ref :: ref in groups ==> groups[ref] == GroupOf(ps, ref)
    {
      refs, groups := [], map[];
      for i := 0 to |ps|
        invariant refs == Refs(ps[..i])
        invariant forall ref :: ref in refs <==> ref in groups
        invariant forall ref :: ref in groups ==> groups[ref] == GroupOf(ps[..i], ref)
        invariant forall ref :: ref !in groups ==> GroupOf(ps[..i], ref) == []
      {
        var p := ps[i];
        assert ps[..i + 1][..i] == ps[..i];
        if p.ref !in groups {
          refs := refs + [p.ref];
          groups := groups[p.ref := []];
        }
        groups := groups[p.ref := groups[p.ref] + [p]];
      }
      assert ps[..|ps|] == ps;
    }

    /** The payments of a reference that was mapped to no account. */
    method RejectAll(plist: seq<ParsedPayment>)
      modifies this`rows, this`errored
      ensures rows == old(rows) + UnmappedRows(plist) && errored == old(errored) + |plist|
    {
      for i := 0 to |plist|
        invariant rows == old(rows) + UnmappedRows(plist)[..i] && errored == old(errored) + i
      {
        rows := rows + [ImportRow(FirstRow(plist[i]), PaymentError, None)];
        errored := errored + 1;
      }
    }

    /** The payments of a mapped reference, chained onto its account's history. */
    method ReplayMapped(ref: string, existing: bool, plist: seq<ParsedPayment>)
      requires ref in byRef && byRef[ref] in accounts && (!existing ==> accounts[byRef[ref]].payments == [])
      modifies this`accounts, this`rows, this`paid, this`errored
      ensures Value() == ReplayRef(old(Value()), ref, plist)
    {
      hide NextDueDate, Before, ItemsOf, AppendImports, PaymentRows;
      var id := byRef[ref];
      var a := accounts[id];
      var payments, lastDate, running := a.payments, a.terms.start, a.terms.borrow;
      if existing && payments != [] {
        lastDate, running := payments[|payments| - 1].date, payments[|payments| - 1].after;
      }
      NoItems(a, id, plist);
      for i := 0 to |plist|
        invariant accounts == old(accounts)
        invariant payments == AppendImports(a.terms, a.payments, ItemsOf(plist[..i]))
        invariant lastDate == LastDate(a.terms, payments) && running == RunningBalance(a.terms, payments)
        invariant rows == old(rows) + PaymentRows(a, id, plist[..i])
        invariant paid == old(paid) + |payments| - |a.payments| && errored + paid == old(errored) + old(paid) + i
        invariant |payments| >= |a.payments|
      {
        var p := plist[i];
        OneMoreItem(a, id, plist, i);
        if Before(p.date, lastDate) {
          rows := rows + [ImportRow(FirstRow(p), PaymentError, None)];
          errored := errored + 1;
        } else {
          var after := running + p.interest - p.amount;
          payments := payments + [Payment(p.date, p.amount, Import, running, p.interest, after, NextDueDate(p.date))];
          running, lastDate := after, p.date;
          paid := paid + 1;
          rows := rows + [ImportRow(FirstRow(p), PaymentCreated, Some(id))];
        }
      }
      assert plist[..|plist|] == plist;
      var status := a.status;
      if running <= 0 {
        status := Paid;
      } else if status.Open? {
        status := Active;
      }
      accounts := accounts[id := Account(a.terms, status, payments)];
    }

    /** Every reference in turn. */
    method ReplayGroups(refs: seq<string>, groups: map<string, seq<ParsedPayment>>, ghost ps: seq<ParsedPayment>,
                        mappingByRef: map<string, Mapping>, ghost first: nat)
      requires forall i, j :: 0 <= i < j < |refs| ==> refs[i] != refs[j]
      requires forall ref <- refs :: ref in groups && groups[ref] == GroupOf(ps, ref)
      requires CreatedApart(Value(), mappingByRef, first) && Unreplayed(Value(), refs, mappingByRef)
      modifies this`accounts, this`rows, this`paid, this`errored
      ensures Value() == ReplayRefs(old(Value()), refs, ps)
    {
      hide ReplayRef, CreatedApart, Unreplayed, Mapped, SortByDate, GroupOf;
      ghost var was := Value();
      ApartIsMapped(was, mappingByRef, first);
      assert refs[0..] == refs;
      for i := 0 to |refs|
        invariant Mapped(was)
        invariant Value() == ReplayRefs(was, refs[..i], ps)
        invariant CreatedApart(Value(), mappingByRef, first) && Unreplayed(Value(), refs[i..], mappingByRef)
      {
        var ref := refs[i];
        ghost var s := Value();
        assert refs[..i + 1][..i] == refs[..i];
        assert refs[i..] == [ref] + refs[i + 1..];
        assert groups[ref] == GroupOf(ps, ref);
        var plist := SortByDate(groups[ref]);
        NextIsUnreplayed(s, ref, refs[i + 1..], mappingByRef, first, plist);
        if ref !in byRef {
          RejectAll(plist);
          RejectedIsReplayRef(s, ref, plist);
        } else {
          ReplayMapped(ref, mappingByRef[ref].action.Existing?, plist);
        }
      }
      assert refs[..|refs|] == refs;
    }

    method Commit(parsed: Parsed, mappings: seq<Mapping>) returns (r: Outcome)
      requires UniqueRefs(parsed.accounts)
      requires !committed ==> Value() == Start(accounts, nextId) && FreshIds(accounts, nextId, MappingByRef(mappings))
      modifies this
      ensures old(committed) ==> r == AlreadyCommitted && committed && Value() == old(Value())
      ensures !old(committed) ==>
        && committed
        && Mapped(MapAccounts(old(Value()), parsed.accounts, MappingByRef(mappings), users))
        && var s := AfterCommit(old(accounts), old(nextId), parsed, MappingByRef(mappings), users);
        && Value() == s
        && r == Committed(Summary(s.created, s.matched, s.skipped, s.paid, s.errored), s.rows)
    {
      hide MapAccounts, ReplayRefs, CreatedApart, Unreplayed, Mapped, GroupOf, Refs, FreshIds, UniqueRefs;
      if committed {
        return AlreadyCommitted;
      }
      var mappingByRef := MappingByRef(mappings);
      ghost var was := Value();
      MappingKeepsApart(was, parsed.accounts, mappingByRef, users);
      MapParsedAccounts(parsed.accounts, mappingByRef);
      ApartIsMapped(Value(), mappingByRef, was.nextId);
      var refs, groups := GroupPayments(parsed.payments);
      RefsAreUnique(parsed.payments);
      NothingReplayed(Value(), refs, mappingByRef);
      ReplayGroups(refs, groups, parsed.payments, mappingByRef, was.nextId);
      committed := true;
      return Committed(Summary(created, matched, skipped, paid, errored), rows);
    }
  }

  /** The accounts created for references still to come hold no payment yet. */
  ghost predicate Unreplayed(s: Session, refs: seq<string>, m: map<string, Mapping>) {
    forall ref <- refs :: ref in s.byRef && ref in m && m[ref].action.Create? ==>
      s.byRef[ref] in s.accounts && s.accounts[s.byRef[ref]].payments == []
  }

  lemma ApartIsMapped(s: Session, m: map<string, Mapping>, first: nat)
    requires CreatedApart(s, m, first)
    ensures Mapped(s)
  {
  }

  lemma NothingReplayed(s: Session, refs: seq<string>, m: map<string, Mapping>)
    requires Mapped(s)
    requires forall ref :: ref in s.byRef && ref in m && m[ref].action.Create? ==>
      s.byRef[ref] in s.accounts && s.accounts[s.byRef[ref]].payments == []
    ensures Unreplayed(s, refs, m)
  {
  }

  lemma NextIsUnreplayed(s: Session, ref: string, later: seq<string>, m: map<string, Mapping>, first: nat,
      plist: seq<ParsedPayment>)
    requires CreatedApart(s, m, first) && Unreplayed(s, [ref] + later, m) && ref !in later
    ensures ref in s.byRef ==> ref in m && s.byRef[ref] in s.accounts
    ensures ref in s.byRef && !m[ref].action.Existing? ==> s.accounts[s.byRef[ref]].payments == []
    ensures CreatedApart(ReplayRef(s, ref, plist), m, first)
    ensures Unreplayed(ReplayRef(s, ref, plist), later, m)
  {
  }

  lemma RejectedIsReplayRef(s: Session, ref: string, plist: seq<ParsedPayment>)
    requires ref !in s.byRef
    ensures ReplayRef(s, ref, plist) == s.(rows := s.rows + UnmappedRows(plist), errored := s.errored + |plist|)
  {
  }

  lemma NoItems(a: Account, id: nat, plist: seq<ParsedPayment>)
    ensures AppendImports(a.terms, a.payments, ItemsOf(plist[..0])) == a.payments
    ensures PaymentRows(a, id, plist[..0]) == []
  {
  }

  lemma OneMoreItem(a: Account, id: nat, ps: seq<ParsedPayment>, i: nat)
    requires i < |ps|
    ensures var p, before := ps[i], AppendImports(a.terms, a.payments, ItemsOf(ps[..i]));
      var late := Before(p.date, LastDate(a.terms, before));
      && AppendImports(a.terms, a.payments, ItemsOf(ps[..i + 1])) ==
         (if late then before else before + [RecordImport(a.terms, before, p.date, p.amount, p.interest)])
      && PaymentRows(a, id, ps[..i + 1]) ==
         PaymentRows(a, id, ps[..i]) +
         [ImportRow(FirstRow(p), if late then PaymentError else PaymentCreated, if late then None else Some(id))]
  {
    hide LastDate, Before, RecordImport;
    assert ps[..i + 1][..i] == ps[..i];
    assert ItemsOf(ps[..i + 1])[..i] == ItemsOf(ps[..i]);
  }

  lemma {:induction false} RefsAreUnique(ps: seq<ParsedPayment>)
    ensures forall i, j :: 0 <= i < j < |Refs(ps)| ==> Refs(ps)[i] != Refs(ps)[j]
  {
    if ps != [] {
      RefsAreUnique(ps[..|ps| - 1]);
    }
  }
}
