/** What a commit of an import does to whole accounts: it extends their runs by imports, and only references with a
    parsed account bring payments into one. */
module CommitLaws {
  import opened Options
  import opened Calendar
  import opened Imports
  import opened ImportLaws
  import opened Ledger
  import opened Payments
  import opened ReplayLaws

  // ---------- A commit extends runs ----------

  /** The imports that a commit replays onto an account: those of the references mapped to it, in order. */
  function ImportsOf(byRef: map<string, nat>, refs: seq<string>, ps: seq<ParsedPayment>, id: nat): seq<Write> {
    if refs == [] then []
    else
      var ref := refs[|refs| - 1];
      ImportsOf(byRef, refs[..|refs| - 1], ps, id) +
      (if ref in byRef && byRef[ref] == id then [ImportItems(ItemsOf(SortByDate(GroupOf(ps, ref))))] else [])
  }

  lemma {:induction false} ImportsAreProper(byRef: map<string, nat>, refs: seq<string>, ps: seq<ParsedPayment>, id: nat)
    ensures forall w <- ImportsOf(byRef, refs, ps, id) :: w.ImportItems?
  {
    hide ItemsOf, SortByDate, GroupOf;
    if refs != [] {
      ImportsAreProper(byRef, refs[..|refs| - 1], ps, id);
    }
  }

  lemma OneMoreStep(terms: Terms, ws: seq<Write>, more: seq<Write>, w: Write)
    ensures Run(terms, ws + (more + [w])) == Step(Run(terms, ws + more), w)
  {
    hide Step;
    assert ws + (more + [w]) == (ws + more) + [w];
    RunOneMore(terms, (ws + more) + [w]);
    assert ((ws + more) + [w])[..|ws + more|] == ws + more;
  }

  /** The replay of the references continues the run of every account, however many of them are mapped to it. */
  lemma {:induction false} ReplayExtendsRuns(s: Session, refs: seq<string>, ps: seq<ParsedPayment>, id: nat,
      terms: Terms, ws: seq<Write>)
    requires Mapped(s) && id in s.accounts && s.accounts[id] == Run(terms, ws)
    ensures var t := ReplayRefs(s, refs, ps);
      id in t.accounts && t.accounts[id] == Run(terms, ws + ImportsOf(s.byRef, refs, ps, id))
  {
    hide Run, Step, ReplayRef, SortByDate, GroupOf, ItemsOf;
    if refs == [] {
      assert ws + [] == ws;
    } else {
      var init, ref := refs[..|refs| - 1], refs[|refs| - 1];
      var plist := SortByDate(GroupOf(ps, ref));
      ReplayExtendsRuns(s, init, ps, id, terms, ws);
      ImportKeepsTerms(ReplayRefs(s, init, ps), ref, plist, id);
      var more := ImportsOf(s.byRef, init, ps, id);
      OneMoreStep(terms, ws, more, ImportItems(ItemsOf(plist)));
      ImportIsAStep(Run(terms, ws + more), ItemsOf(plist));
      assert more + [] == more;
    }
  }

  lemma ImportIsAStep(a: Account, items: seq<ImportItem>)
    ensures Step(a, ImportItems(items)) == Imported(a, items)
  {
  }

  /** Imports disturb no ledger, and repair none. */
  lemma {:induction false} ImportsDisturbNothing(terms: Terms, ws: seq<Write>, more: seq<Write>)
    requires forall w <- more :: w.ImportItems?
    ensures Disturbed(terms, ws + more) == Disturbed(terms, ws)
    ensures Requests(ws) ==> Requests(ws + more)
  {
    hide Run, Disturbs;
    if more == [] {
      assert ws + more == ws;
    } else {
      var init, w := more[..|more| - 1], more[|more| - 1];
      ImportsDisturbNothing(terms, ws, init);
      assert (ws + more)[..|ws + more| - 1] == ws + init;
      ImportIsNoPayment(Run(terms, ws + init), w);
    }
  }

  lemma ImportIsNoPayment(a: Account, w: Write)
    ensures w.ImportItems? ==> !Disturbs(a, w)
  {
  }

  lemma {:induction false} NewAccountsAreOpen(s: Session, pas: seq<ParsedAccount>, m: map<string, Mapping>,
      users: set<nat>)
    ensures forall id :: id in MapAccounts(s, pas, m, users).accounts && id !in s.accounts ==>
      var a := MapAccounts(s, pas, m, users).accounts[id]; a == Account(a.terms, Open, [])
  {
    hide NewTerms;
    if pas != [] {
      NewAccountsAreOpen(s, pas[..|pas| - 1], m, users);
    }
  }

  /** A commit continues the run of every account it finds by the imports of the references mapped to it, and
      every account it creates is a run of such imports alone; so the laws of runs hold after it. */
  lemma {:induction false} CommitExtendsRuns(accounts: map<nat, Account>, nextId: nat, parsed: Parsed,
      m: map<string, Mapping>, users: set<nat>, id: nat, terms: Terms, ws: seq<Write>)
    requires UniqueRefs(parsed.accounts) && FreshIds(accounts, nextId, m)
    requires id in accounts ==> accounts[id] == Run(terms, ws)
    ensures Mapped(MapAccounts(Start(accounts, nextId), parsed.accounts, m, users))
    ensures var s := AfterCommit(accounts, nextId, parsed, m, users);
      var byRef := MapAccounts(Start(accounts, nextId), parsed.accounts, m, users).byRef;
      var imports := ImportsOf(byRef, Refs(parsed.payments), parsed.payments, id);
      && (id in accounts ==>
            && id in s.accounts && s.accounts[id] == Run(terms, ws + imports)
            && Disturbed(terms, ws + imports) == Disturbed(terms, ws))
      && (id !in accounts && id in s.accounts ==>
            var t := s.accounts[id].terms; s.accounts[id] == Run(t, imports) && !Disturbed(t, imports))
  {
    hide Run, Step, MapAccounts, ReplayRefs, Refs, ImportsOf, Disturbed, CreatedApart, UniqueRefs;
    var start := Start(accounts, nextId);
    MappingKeepsApart(start, parsed.accounts, m, users);
    var mapped := MapAccounts(start, parsed.accounts, m, users);
    ApartIsMapped(mapped, m, nextId);
    MappingIsExact(start, parsed.accounts, m, users);
    var refs, ps := Refs(parsed.payments), parsed.payments;
    var imports := ImportsOf(mapped.byRef, refs, ps, id);
    ImportsAreProper(mapped.byRef, refs, ps, id);
    if id in accounts {
      ReplayExtendsRuns(mapped, refs, ps, id, terms, ws);
      ImportsDisturbNothing(terms, ws, imports);
    } else if id in mapped.accounts {
      NewAccountsAreOpen(start, parsed.accounts, m, users);
      var t := mapped.accounts[id].terms;
      Nothing(t);
      ReplayTouchesOnlyMapped(mapped, refs, ps, id);
      ReplayExtendsRuns(mapped, refs, ps, id, t, []);
      ImportsDisturbNothing(t, [], imports);
      assert [] + imports == imports;
    } else {
      NoOtherAccounts(mapped, refs, ps);
    }
  }

  lemma {:induction false} NoOtherAccounts(s: Session, refs: seq<string>, ps: seq<ParsedPayment>)
    requires Mapped(s)
    ensures ReplayRefs(s, refs, ps).accounts.Keys == s.accounts.Keys
  {
    hide Imported, PaymentRows, SortByDate, GroupOf, ItemsOf;
    if refs != [] {
      NoOtherAccounts(s, refs[..|refs| - 1], ps);
    }
  }

  // ---------- What one reference records ----------

  /** The group of a reference holds exactly its payments. */
  lemma {:induction false} GroupIsExact(ps: seq<ParsedPayment>, ref: string, p: ParsedPayment)
    ensures multiset(GroupOf(ps, ref))[p] == if p.ref == ref then multiset(ps)[p] else 0
  {
    hide GroupOf;
    GroupOneMore(ps, ref);
    if ps != [] {
      var init, last := ps[..|ps| - 1], ps[|ps| - 1];
      GroupIsExact(init, ref, p);
      assert ps == init + [last];
      CountOneMore(init, last, p);
      CountOneMore(GroupOf(init, ref), last, p);
    }
  }

  lemma GroupOneMore(ps: seq<ParsedPayment>, ref: string)
    ensures ps == [] ==> GroupOf(ps, ref) == []
    ensures ps != [] ==>
      var before, last := GroupOf(ps[..|ps| - 1], ref), ps[|ps| - 1];
      GroupOf(ps, ref) == if last.ref == ref then before + [last] else before
  {
  }

  lemma CountOneMore(ps: seq<ParsedPayment>, last: ParsedPayment, p: ParsedPayment)
    ensures multiset(ps + [last])[p] == multiset(ps)[p] + (if last == p then 1 else 0)
  {
  }

  /** Payment j of an account is this parsed payment, chained onto the one before it or else onto the loan. */
  predicate RecordedAs(terms: Terms, out: seq<Payment>, j: nat, p: ParsedPayment) {
    j < |out| &&
    var q := out[j];
    && q.date == p.date && q.amount == p.amount && q.interest == p.interest && q.kind == Import
    && q.before == (if j == 0 then terms.borrow else out[j - 1].after)
    && q.after == q.before + p.interest - p.amount && q.nextDue == NextDueDate(p.date)
  }

  /** The first payment of this reference in the file. */
  predicate FirstAt(ps: seq<ParsedPayment>, ref: string, p: nat) {
    p < |ps| && ps[p].ref == ref && forall q :: 0 <= q < p ==> ps[q].ref != ref
  }

  /** References are replayed in the order in which the file first names them, exactly those that have a payment. */
  lemma {:induction false} RefsInFileOrder(ps: seq<ParsedPayment>)
    ensures forall ref :: ref in Refs(ps) <==> Named(ps, ref)
    ensures forall i, j :: 0 <= i < j < |Refs(ps)| ==> NamedBefore(ps, Refs(ps)[i], Refs(ps)[j])
  {
    hide Refs, NamedBefore, FirstAt, Named;
    if ps == [] {
      NoPaymentsNoRefs();
    } else {
      var n := |ps| - 1;
      RefsInFileOrder(ps[..n]);
      OneMoreRef(ps);
      forall ref
        ensures Named(ps, ref) <==> Named(ps[..n], ref) || ref == ps[n].ref
      {
        FirstOneMore(ps, ref);
      }
      var before, ref := Refs(ps[..n]), ps[n].ref;
      forall i, j | 0 <= i < j < |Refs(ps)|
        ensures NamedBefore(ps, Refs(ps)[i], Refs(ps)[j])
      {
        assert before[i] in before;
        FirstOneMore(ps, before[i]);
        if j < |before| {
          assert before[j] in before;
          FirstOneMore(ps, before[j]);
          StaysBefore(ps, before[i], before[j]);
        } else {
          NewIsAfter(ps, before[i]);
        }
      }
    }
  }

  /** The file has a payment of this reference. */
  ghost predicate Named(ps: seq<ParsedPayment>, ref: string) {
    exists p: nat :: FirstAt(ps, ref, p)
  }

  /** The file names one reference before the other. */
  ghost predicate NamedBefore(ps: seq<ParsedPayment>, ref: string, later: string) {
    forall p: nat, q: nat :: FirstAt(ps, ref, p) && FirstAt(ps, later, q) ==> p < q
  }

  lemma NoPaymentsNoRefs()
    ensures Refs([]) == [] && forall ref :: !Named([], ref)
  {
  }

  lemma OneMoreRef(ps: seq<ParsedPayment>)
    requires ps != []
    ensures var before, ref := Refs(ps[..|ps| - 1]), ps[|ps| - 1].ref;
      Refs(ps) == if ref in before then before else before + [ref]
  {
  }

  /** Where a reference is named first does not change; one not named before may be named by the last payment. */
  lemma FirstOneMore(ps: seq<ParsedPayment>, ref: string)
    requires ps != []
    ensures var n := |ps| - 1;
      && (Named(ps, ref) <==> Named(ps[..n], ref) || ref == ps[n].ref)
      && if Named(ps[..n], ref) then forall p: nat :: FirstAt(ps, ref, p) <==> FirstAt(ps[..n], ref, p)
         else forall p: nat :: FirstAt(ps, ref, p) <==> p == n && ps[n].ref == ref
  {
    var n := |ps| - 1;
    var init := ps[..n];
    assert forall q :: 0 <= q < n ==> init[q] == ps[q];
    forall q: nat | q < n && ps[q].ref == ref
      ensures Named(init, ref)
    {
      SomeFirst(init, ref, q);
    }
    forall p: nat | FirstAt(init, ref, p)
      ensures FirstAt(ps, ref, p)
    {
    }
    assert ref == ps[n].ref && !Named(init, ref) ==> FirstAt(ps, ref, n);
  }

  lemma StaysBefore(ps: seq<ParsedPayment>, ref: string, later: string)
    requires ps != [] && NamedBefore(ps[..|ps| - 1], ref, later)
    requires forall p: nat :: FirstAt(ps, ref, p) <==> FirstAt(ps[..|ps| - 1], ref, p)
    requires forall p: nat :: FirstAt(ps, later, p) <==> FirstAt(ps[..|ps| - 1], later, p)
    ensures NamedBefore(ps, ref, later)
  {
    hide FirstAt;
  }

  lemma NewIsAfter(ps: seq<ParsedPayment>, ref: string)
    requires ps != [] && forall p: nat :: FirstAt(ps, ref, p) ==> FirstAt(ps[..|ps| - 1], ref, p)
    requires !Named(ps[..|ps| - 1], ps[|ps| - 1].ref)
    ensures NamedBefore(ps, ref, ps[|ps| - 1].ref)
  {
    FirstOneMore(ps, ps[|ps| - 1].ref);
  }

  lemma {:induction false} SomeFirst(ps: seq<ParsedPayment>, ref: string, q: nat)
    requires q < |ps| && ps[q].ref == ref
    ensures Named(ps, ref)
  {
    if r: nat :| r < q && ps[r].ref == ref {
      SomeFirst(ps, ref, r);
    } else {
      assert FirstAt(ps, ref, q);
    }
  }

  /** What is owed after a history, as it is stored. */
  function Owed(a: Account): int {
    if a.payments == [] then a.terms.borrow else a.payments[|a.payments| - 1].after
  }

  /** The import of a reference's payments in date order: those dated before the history (or before the start, if there
      is none) are left out, the others are recorded one after the other with their own amounts and interest; the
      account is paid exactly if nothing is owed then, an open one becomes active, and any other status stays. */
  lemma {:induction false} ImportedPaymentsAreTheParsed(a: Account, ps: seq<ParsedPayment>)
    requires Sorted(ps)
    ensures var after := Imported(a, ItemsOf(ps));
      var from := if a.payments == [] then a.terms.start else a.payments[|a.payments| - 1].date;
      && after.terms == a.terms && a.payments <= after.payments && |after.payments| <= |a.payments| + |ps|
      && var r := |a.payments| + |ps| - |after.payments|;
      && (forall i :: 0 <= i < |ps| ==> (i < r <==> Before(ps[i].date, from)))
      && (forall i :: r <= i < |ps| ==> RecordedAs(a.terms, after.payments, |a.payments| + i - r, ps[i]))
      && (after.status == if Owed(after) <= 0 then Paid else if a.status == Open then Active else a.status)
  {
    hide AppendImports, Leading, ItemsByDate, Sorted, Before, NextDueDate, RecordedAs;
    var items := ItemsOf(ps);
    SortedItems(ps);
    ReplayAcceptsASuffix(a.terms, a.payments, items);
    var out, r := AppendImports(a.terms, a.payments, items), Leading(items, LastDate(a.terms, a.payments));
    assert forall i :: 0 <= i < |ps| ==> items[i].date == ps[i].date;
    forall i | r <= i < |ps|
      ensures RecordedAs(a.terms, out, |a.payments| + i - r, ps[i])
    {
      assert ChainedAt(a.terms, out, |a.payments|, items[r..], i - r);
      AsParsed(a.terms, out, |a.payments|, ps, r, i);
    }
  }

  lemma AsParsed(terms: Terms, out: seq<Payment>, base: nat, ps: seq<ParsedPayment>, r: nat, i: nat)
    requires r <= i < |ps| && ChainedAt(terms, out, base, ItemsOf(ps)[r..], i - r)
    ensures RecordedAs(terms, out, base + i - r, ps[i])
  {
    hide NextDueDate;
  }

  // ---------- Which references a commit records ----------

  /** The mapping that counts for a reference: the last one confirmed for it. */
  predicate LastFor(mappings: seq<Mapping>, ref: string, k: nat) {
    k < |mappings| && mappings[k].ref == ref && forall l :: k < l < |mappings| ==> mappings[l].ref != ref
  }

  lemma {:induction false} LastMappingCounts(mappings: seq<Mapping>, ref: string)
    ensures ref in MappingByRef(mappings) <==> exists k: nat :: LastFor(mappings, ref, k)
    ensures forall k: nat :: LastFor(mappings, ref, k) ==> MappingByRef(mappings)[ref] == mappings[k]
  {
    if mappings != [] {
      var n := |mappings| - 1;
      LastMappingCounts(mappings[..n], ref);
      if mappings[n].ref == ref {
        assert LastFor(mappings, ref, n);
      } else {
        forall k: nat
          ensures LastFor(mappings, ref, k) <==> LastFor(mappings[..n], ref, k)
        {
          assert k < n ==> forall l :: k < l < n ==> mappings[..n][l] == mappings[l];
        }
      }
    }
  }

  /** The mapping sends the reference to an account that exists, or to a new one of a user that exists. */
  predicate Usable(it: Mapping, known: map<nat, Account>, users: set<nat>) {
    match it.action
    case Skip => false
    case Existing => it.existingId.Some? && it.existingId.value in known
    case Create => it.userId.Some? && it.userId.value in users
  }

  /** Payments of a reference reach an account exactly if the file has an account row for the reference and the last
      mapping confirmed for it is usable; being mapped to an existing account is not enough. */
  lemma {:induction false} MappedExactlyIf(accounts: map<nat, Account>, nextId: nat, pas: seq<ParsedAccount>,
      mappings: seq<Mapping>, users: set<nat>, ref: string)
    requires UniqueRefs(pas) && FreshIds(accounts, nextId, MappingByRef(mappings))
    ensures ref in MapAccounts(Start(accounts, nextId), pas, MappingByRef(mappings), users).byRef <==>
      && (exists i :: 0 <= i < |pas| && pas[i].ref == ref)
      && (exists k: nat :: LastFor(mappings, ref, k) && Usable(mappings[k], accounts, users))
  {
    hide MapAccounts, MappingByRef, LastFor;
    var start, m := Start(accounts, nextId), MappingByRef(mappings);
    LastMappingCounts(mappings, ref);
    MappingIsExact(start, pas, m, users);
    var t := MapAccounts(start, pas, m, users);
    if exists i :: 0 <= i < |pas| && pas[i].ref == ref {
      var i :| 0 <= i < |pas| && pas[i].ref == ref;
      assert MappedAs(t, pas[i], t.rows[i], start.accounts, m, users);
    }
  }

  /** What a commit makes of a parsed account with the mapping that counts for it, if any: its row, and in the end the
      account it names. */
  ghost predicate Follows(s: Session, row: ImportRow, pa: ParsedAccount, confirmed: Option<Mapping>,
      known: map<nat, Account>, users: set<nat>) {
    && row.rowNumber == Some(pa.rowNumber)
    && if confirmed.None? then row.what == AccountError && pa.ref !in s.byRef
       else
         var it := confirmed.value;
         if it.action.Skip? then row.what == AccountSkipped && pa.ref !in s.byRef
         else if !Usable(it, known, users) then row.what == AccountError && pa.ref !in s.byRef
         else
           && pa.ref in s.byRef && row.accountId == Some(s.byRef[pa.ref]) && s.byRef[pa.ref] in s.accounts
           && if it.action.Existing? then row.what == AccountMatched && row.accountId == it.existingId
              else
                var terms := s.accounts[s.byRef[pa.ref]].terms;
                && row.what == AccountCreated && s.byRef[pa.ref] !in known
                && terms.borrow == pa.borrow && terms.start == pa.start
                && terms.rate == if it.rate.Some? then it.rate.value else if pa.rate.Some? then pa.rate.value else 0
  }

  /** Every parsed account follows the last mapping confirmed for its reference: an error without one. */
  lemma {:induction false} CommitFollowsTheMappings(accounts: map<nat, Account>, nextId: nat, parsed: Parsed,
      mappings: seq<Mapping>, users: set<nat>, i: nat)
    requires UniqueRefs(parsed.accounts) && FreshIds(accounts, nextId, MappingByRef(mappings)) && i < |parsed.accounts|
    ensures Mapped(MapAccounts(Start(accounts, nextId), parsed.accounts, MappingByRef(mappings), users))
    ensures var s, pa := AfterCommit(accounts, nextId, parsed, MappingByRef(mappings), users), parsed.accounts[i];
      && |s.rows| > i
      && (forall k: nat :: LastFor(mappings, pa.ref, k) ==>
            Follows(s, s.rows[i], pa, Some(mappings[k]), accounts, users))
      && ((forall k :: 0 <= k < |mappings| ==> mappings[k].ref != pa.ref) ==>
            Follows(s, s.rows[i], pa, None, accounts, users))
  {
    hide MapAccounts, ReplayRefs, Refs, MappingByRef, CreatedApart, UniqueRefs, Reports, Counts, CountOf;
    var start, m, pa := Start(accounts, nextId), MappingByRef(mappings), parsed.accounts[i];
    MappingKeepsApart(start, parsed.accounts, m, users);
    var t := MapAccounts(start, parsed.accounts, m, users);
    ApartIsMapped(t, m, nextId);
    MappingIsExact(start, parsed.accounts, m, users);
    EveryAccountHasOneRow(start, parsed.accounts, m, users);
    ReplayReports(t, Refs(parsed.payments), parsed.payments);
    LastMappingCounts(mappings, pa.ref);
    assert MappedAs(t, pa, t.rows[i], start.accounts, m, users);
    if pa.ref in t.byRef {
      ReplayTouchesOnlyMapped(t, Refs(parsed.payments), parsed.payments, t.byRef[pa.ref]);
    }
    FollowsMapped(t, ReplayRefs(t, Refs(parsed.payments), parsed.payments), t.rows[i], pa, m, accounts, users);
  }

  lemma FollowsMapped(t: Session, s: Session, row: ImportRow, pa: ParsedAccount, m: map<string, Mapping>,
      known: map<nat, Account>, users: set<nat>)
    requires MappedAs(t, pa, row, known, m, users) && row.rowNumber == Some(pa.rowNumber) && Mapped(t)
    requires s.byRef == t.byRef
    requires pa.ref in t.byRef ==>
      t.byRef[pa.ref] in s.accounts && s.accounts[t.byRef[pa.ref]].terms == t.accounts[t.byRef[pa.ref]].terms
    ensures Follows(s, row, pa, if pa.ref in m then Some(m[pa.ref]) else None, known, users)
  {
  }

  /** Every payment of a reference without an account row becomes an error, whatever the mappings say of it. */
  lemma {:induction false} PaymentsWithoutAccountAreErrors(accounts: map<nat, Account>, nextId: nat, parsed: Parsed,
      mappings: seq<Mapping>, users: set<nat>, k: nat)
    requires UniqueRefs(parsed.accounts) && FreshIds(accounts, nextId, MappingByRef(mappings))
    requires k < |Refs(parsed.payments)| && forall pa <- parsed.accounts :: pa.ref != Refs(parsed.payments)[k]
    ensures Mapped(MapAccounts(Start(accounts, nextId), parsed.accounts, MappingByRef(mappings), users))
    ensures var s := AfterCommit(accounts, nextId, parsed, MappingByRef(mappings), users);
      var refs, ps := Refs(parsed.payments), parsed.payments;
      var from, plist := |parsed.accounts| + |Reported(refs[..k], ps)|, SortByDate(GroupOf(ps, refs[k]));
      && from + |plist| <= |s.rows|
      && (forall i :: 0 <= i < |plist| ==> RowIs(s.rows[from + i], plist[i], true, None))
  {
    hide MapAccounts, ReplayRefs, SortByDate, GroupOf, Reported, Refs, UniqueRefs, Usable, MappingByRef;
    RowsOfAReference(accounts, nextId, parsed, MappingByRef(mappings), users, k);
    MappedExactlyIf(accounts, nextId, parsed.accounts, mappings, users, Refs(parsed.payments)[k]);
  }

  /** So a file with one payment and no account row, its reference mapped to an existing account, records nothing. */
  lemma {:induction false} UnmatchedReferenceIsNotMapped(p: ParsedPayment, a: Account)
    ensures var m := MappingByRef([Mapping(p.ref, Existing, Some(1), None, None)]);
      && p.ref in m && m[p.ref].existingId == Some(1)
      && var s := AfterCommit(map[1 := a], 2, Parsed([], [p]), m, {});
      s.accounts == map[1 := a] && |s.rows| == 1 && RowIs(s.rows[0], p, true, None)
  {
    hide SortByDate, GroupOf;
    var start, ps := Start(map[1 := a], 2), [p];
    assert ps[..0] == [] && [p.ref][..0] == [];
    assert Refs([]) == [];
    assert Refs(ps) == [p.ref];
    assert ReplayRefs(start, [], ps) == start;
    OnlyPayment(p);
    LastMappingCounts([Mapping(p.ref, Existing, Some(1), None, None)], p.ref);
    assert LastFor([Mapping(p.ref, Existing, Some(1), None, None)], p.ref, 0);
  }

  lemma OnlyPayment(p: ParsedPayment)
    ensures SortByDate(GroupOf([p], p.ref)) == [p]
  {
    assert [p][..0] == [];
    assert GroupOf([], p.ref) == [] && GroupOf([p], p.ref) == [p];
    SortOne(p);
  }
}
