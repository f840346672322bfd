/** Laws of an import commit: nothing parsed goes unreported, what is rejected for its date is a prefix,
    and what is recorded chains and conserves the balance. */
module ImportLaws {
  import opened Options
  import opened Calendar
  import opened Ledger
  import opened Payments
  import opened Imports

  // ---------- One row per parsed account ----------

  function CountOf(rows: seq<ImportRow>, what: Interpretation): nat {
    if rows == [] then 0 else CountOf(rows[..|rows| - 1], what) + (if rows[|rows| - 1].what == what then 1 else 0)
  }

  lemma {:induction false} CountAppend(xs: seq<ImportRow>, ys: seq<ImportRow>, what: Interpretation)
    ensures CountOf(xs + ys, what) == CountOf(xs, what) + CountOf(ys, what)
  {
    if ys == [] {
      assert xs + ys == xs;
    } else {
      CountAppend(xs, ys[..|ys| - 1], what);
      assert (xs + ys)[..|xs + ys| - 1] == xs + ys[..|ys| - 1];
    }
  }

  lemma MapAccountOneRow(s: Session, pa: ParsedAccount, m: map<string, Mapping>, users: set<nat>)
    ensures var t := MapAccount(s, pa, m, users);
      exists row: ImportRow ::
        && t.rows == s.rows + [row] && row.rowNumber == Some(pa.rowNumber)
        && !row.what.PaymentError? && !row.what.PaymentCreated?
        && t.paid == s.paid && t.errored == s.errored
        && t.created == s.created + (if row.what == AccountCreated then 1 else 0)
        && t.matched == s.matched + (if row.what == AccountMatched then 1 else 0)
        && t.skipped == s.skipped + (if row.what == AccountSkipped then 1 else 0)
  {
    hide NewTerms;
    var t := MapAccount(s, pa, m, users);
    var row := t.rows[|t.rows| - 1];
    assert t.rows == s.rows + [row];
  }

  /** How far the counters of t are ahead of those of s. */
  predicate Counts(s: Session, t: Session, mine: seq<ImportRow>) {
    && t.created == s.created + CountOf(mine, AccountCreated)
    && t.matched == s.matched + CountOf(mine, AccountMatched)
    && t.skipped == s.skipped + CountOf(mine, AccountSkipped)
    && CountOf(mine, AccountCreated) + CountOf(mine, AccountMatched) + CountOf(mine, AccountSkipped) +
       CountOf(mine, AccountError) == |mine|
    && t.paid == s.paid && t.errored == s.errored
  }

  /** Every parsed account gets exactly one row, in order, under its own row number, and the counters count
      those rows, which with the erroneous ones are all of them. */
  lemma {:induction false} EveryAccountHasOneRow(s: Session, pas: seq<ParsedAccount>, m: map<string, Mapping>,
      users: set<nat>)
    ensures var t := MapAccounts(s, pas, m, users);
      && |t.rows| == |s.rows| + |pas| && s.rows <= t.rows
      && (forall i :: 0 <= i < |pas| ==> t.rows[|s.rows| + i].rowNumber == Some(pas[i].rowNumber))
      && Counts(s, t, t.rows[|s.rows|..])
  {
    hide MapAccount, Counts;
    if pas == [] {
      assert s.rows[|s.rows|..] == [];
      NothingCounted(s);
    } else {
      var n := |pas| - 1;
      EveryAccountHasOneRow(s, pas[..n], m, users);
      var t := MapAccounts(s, pas[..n], m, users);
      MapAccountOneRow(t, pas[n], m, users);
      var u := MapAccount(t, pas[n], m, users);
      var row := u.rows[|u.rows| - 1];
      assert u.rows[|s.rows|..] == t.rows[|s.rows|..] + [row];
      CountsOneMore(s, t, u, t.rows[|s.rows|..], row);
    }
  }

  lemma NothingCounted(s: Session)
    ensures Counts(s, s, [])
  {
  }

  lemma CountsOneMore(s: Session, t: Session, u: Session, mine: seq<ImportRow>, row: ImportRow)
    requires Counts(s, t, mine)
    requires u.paid == t.paid && u.errored == t.errored && !row.what.PaymentError? && !row.what.PaymentCreated?
    requires u.created == t.created + (if row.what == AccountCreated then 1 else 0)
    requires u.matched == t.matched + (if row.what == AccountMatched then 1 else 0)
    requires u.skipped == t.skipped + (if row.what == AccountSkipped then 1 else 0)
    ensures Counts(s, u, mine + [row])
  {
  }

  /** What becomes of one parsed account: the row it gets, and the account its reference is mapped to. */
  ghost predicate MappedAs(t: Session, pa: ParsedAccount, row: ImportRow, known: map<nat, Account>,
      m: map<string, Mapping>, users: set<nat>) {
    if pa.ref !in m then row.what == AccountError && pa.ref !in t.byRef
    else
      var it := m[pa.ref];
      match it.action
      case Skip => row.what == AccountSkipped && pa.ref !in t.byRef
      case Existing =>
        if it.existingId.Some? && it.existingId.value in known
        then row.what == AccountMatched && row.accountId == it.existingId && pa.ref in t.byRef &&
          t.byRef[pa.ref] == it.existingId.value
        else row.what == AccountError && pa.ref !in t.byRef
      case Create =>
        if it.userId.Some? && it.userId.value in users
        then
          && row.what == AccountCreated && pa.ref in t.byRef && row.accountId == Some(t.byRef[pa.ref])
          && t.byRef[pa.ref] in t.accounts && t.byRef[pa.ref] !in known
          && var a := t.accounts[t.byRef[pa.ref]];
          && a.status == Open && a.payments == [] && a.terms.borrow == pa.borrow && a.terms.start == pa.start
          && a.terms.rate ==
               (if it.rate.Some? then it.rate.value else if pa.rate.Some? then pa.rate.value else 0)
        else row.what == AccountError && pa.ref !in t.byRef
  }

  /** Each parsed account is mapped as the confirmed mapping says: to the existing account it names, or to a new
      open account with the parsed amount and start date; no account that was there before is changed. */
  lemma {:induction false} MappingIsExact(s: Session, pas: seq<ParsedAccount>, m: map<string, Mapping>, users: set<nat>)
    requires UniqueRefs(pas) && s.byRef == map[] && s.rows == [] && FreshIds(s.accounts, s.nextId, m)
    ensures var t := MapAccounts(s, pas, m, users);
      && |t.rows| == |pas| && t.nextId >= s.nextId
      && (forall i :: 0 <= i < |pas| ==> MappedAs(t, pas[i], t.rows[i], s.accounts, m, users))
      && (forall ref :: ref in t.byRef ==> exists i :: 0 <= i < |pas| && pas[i].ref == ref)
      && (forall id :: id in s.accounts ==> id in t.accounts && t.accounts[id] == s.accounts[id])
      && (forall id :: id in t.accounts ==> id < t.nextId && (id in s.accounts || id >= s.nextId))
  {
    hide MapAccount, MappedAs;
    if pas != [] {
      var n := |pas| - 1;
      var t, u := MapAccounts(s, pas[..n], m, users), MapAccounts(s, pas, m, users);
      MappingIsExact(s, pas[..n], m, users);
      MapAccountIsExact(s, t, pas[n], m, users);
      forall i | 0 <= i < n
        ensures MappedAs(u, pas[i], u.rows[i], s.accounts, m, users)
      {
        assert MappedAs(t, pas[..n][i], t.rows[i], s.accounts, m, users);
        StaysMapped(s, t, pas[i], t.rows[i], pas[n], m, users);
      }
      forall ref | ref in u.byRef
        ensures exists i :: 0 <= i < |pas| && pas[i].ref == ref
      {
        if ref != pas[n].ref {
          var i :| 0 <= i < n && pas[..n][i].ref == ref;
          assert pas[i].ref == ref;
        }
      }
    }
  }

  lemma MapAccountIsExact(s: Session, t: Session, pa: ParsedAccount, m: map<string, Mapping>, users: set<nat>)
    requires FreshIds(s.accounts, s.nextId, m) && pa.ref !in t.byRef && t.nextId >= s.nextId
    requires forall id :: id in s.accounts ==> id in t.accounts && t.accounts[id] == s.accounts[id]
    requires forall id :: id in t.accounts ==> id < t.nextId && (id in s.accounts || id >= s.nextId)
    ensures var u := MapAccount(t, pa, m, users);
      && |u.rows| == |t.rows| + 1 && t.rows <= u.rows && u.nextId >= t.nextId
      && MappedAs(u, pa, u.rows[|t.rows|], s.accounts, m, users)
      && (forall ref :: ref in u.byRef ==> ref == pa.ref || ref in t.byRef)
      && (forall id :: id in s.accounts ==> id in u.accounts && u.accounts[id] == s.accounts[id])
      && (forall id :: id in u.accounts ==> id < u.nextId && (id in s.accounts || id >= s.nextId))
  {
    hide NewTerms, MappedAs;
    MapAccountRow(s, t, pa, m, users);
  }

  lemma MapAccountRow(s: Session, t: Session, pa: ParsedAccount, m: map<string, Mapping>, users: set<nat>)
    requires FreshIds(s.accounts, s.nextId, m) && pa.ref !in t.byRef && t.nextId >= s.nextId
    requires forall id :: id in s.accounts ==> id in t.accounts
    requires forall id :: id in t.accounts ==> id in s.accounts || id >= s.nextId
    ensures var u := MapAccount(t, pa, m, users);
      |u.rows| == |t.rows| + 1 && MappedAs(u, pa, u.rows[|t.rows|], s.accounts, m, users)
  {
  }

  lemma StaysMapped(s: Session, t: Session, pa: ParsedAccount, row: ImportRow, other: ParsedAccount,
      m: map<string, Mapping>, users: set<nat>)
    requires MappedAs(t, pa, row, s.accounts, m, users) && pa.ref != other.ref
    requires forall id :: id in t.accounts ==> id < t.nextId
    ensures MappedAs(MapAccount(t, other, m, users), pa, row, s.accounts, m, users)
  {
  }

  // ---------- Sorting ----------

  predicate Sorted(ps: seq<ParsedPayment>) {
    forall i, j :: 0 <= i < j < |ps| ==> AtOrBefore(ps[i].date, ps[j].date)
  }

  function OnDate(ps: seq<ParsedPayment>, d: Day): seq<ParsedPayment> {
    if ps == [] then []
    else OnDate(ps[..|ps| - 1], d) + (if ps[|ps| - 1].date == d then [ps[|ps| - 1]] else [])
  }

  lemma {:induction false} InsertAdds(ps: seq<ParsedPayment>, p: ParsedPayment)
    ensures multiset(InsertByDate(ps, p)) == multiset(ps) + multiset{p}
  {
    hide Before;
    if ps != [] && Before(p.date, ps[|ps| - 1].date) {
      InsertAdds(ps[..|ps| - 1], p);
      assert ps == ps[..|ps| - 1] + [ps[|ps| - 1]];
    }
  }

  lemma {:induction false} InsertSorted(ps: seq<ParsedPayment>, p: ParsedPayment)
    requires Sorted(ps)
    ensures Sorted(InsertByDate(ps, p))
  {
    if ps != [] && Before(p.date, ps[|ps| - 1].date) {
      var init, last := ps[..|ps| - 1], ps[|ps| - 1];
      InsertSorted(init, p);
      InsertAdds(init, p);
      BoundedSorted(ps, p, InsertByDate(init, p));
    } else if ps != [] {
      ReachesEnd(ps, p);
    }
  }

  lemma BoundedSorted(ps: seq<ParsedPayment>, p: ParsedPayment, out: seq<ParsedPayment>)
    requires ps != [] && Sorted(ps) && Before(p.date, ps[|ps| - 1].date)
    requires Sorted(out) && multiset(out) == multiset(ps[..|ps| - 1]) + multiset{p}
    ensures Sorted(out + [ps[|ps| - 1]])
  {
    var init, last := ps[..|ps| - 1], ps[|ps| - 1];
    forall i | 0 <= i < |out|
      ensures AtOrBefore(out[i].date, last.date)
    {
      assert out[i] in multiset(out);
      if out[i] != p {
        assert out[i] in multiset(init);
      }
    }
  }

  lemma ReachesEnd(ps: seq<ParsedPayment>, p: ParsedPayment)
    requires Sorted(ps) && ps != [] && !Before(p.date, ps[|ps| - 1].date)
    ensures forall i :: 0 <= i < |ps| ==> AtOrBefore(ps[i].date, p.date)
    ensures Sorted(ps + [p])
  {
  }

  lemma {:induction false} InsertStable(ps: seq<ParsedPayment>, p: ParsedPayment, d: Day)
    requires Sorted(ps)
    ensures OnDate(InsertByDate(ps, p), d) == OnDate(ps, d) + (if p.date == d then [p] else [])
  {
    if ps != [] && Before(p.date, ps[|ps| - 1].date) {
      var init, last := ps[..|ps| - 1], ps[|ps| - 1];
      InsertStable(init, p, d);
      assert (InsertByDate(init, p) + [last])[..|InsertByDate(init, p)|] == InsertByDate(init, p);
      if p.date == d {
        assert last.date != d;
      }
    } else {
      assert (ps + [p])[..|ps|] == ps;
    }
  }

  /** The payments of a reference are replayed in date order, none added or lost, equal dates in file order. */
  lemma {:induction false} SortIsStable(ps: seq<ParsedPayment>)
    ensures Sorted(SortByDate(ps)) && multiset(SortByDate(ps)) == multiset(ps)
    ensures forall d: Day :: OnDate(SortByDate(ps), d) == OnDate(ps, d)
  {
    hide Before, AtOrBefore, InsertByDate;
    if ps != [] {
      var init, last := ps[..|ps| - 1], ps[|ps| - 1];
      assert ps == init + [last];
      SortIsStable(init);
      InsertSorted(SortByDate(init), last);
      InsertAdds(SortByDate(init), last);
      forall d: Day {
        InsertStable(SortByDate(init), last, d);
      }
    }
  }

  // ---------- One row per parsed payment ----------

  /** The order in which the payments are reported: by reference, then by date. */
  function Reported(refs: seq<string>, ps: seq<ParsedPayment>): seq<ParsedPayment> {
    if refs == [] then []
    else Reported(refs[..|refs| - 1], ps) + SortByDate(GroupOf(ps, refs[|refs| - 1]))
  }

  lemma {:induction false} GroupOfOneMore(refs: seq<string>, ps: seq<ParsedPayment>, p: ParsedPayment)
    requires forall i, j :: 0 <= i < j < |refs| ==> refs[i] != refs[j]
    ensures multiset(Reported(refs, ps + [p])) ==
      multiset(Reported(refs, ps)) + (if p.ref in refs then multiset{p} else multiset{})
  {
    hide SortByDate;
    if refs != [] {
      var init, ref := refs[..|refs| - 1], refs[|refs| - 1];
      GroupOfOneMore(init, ps, p);
      assert refs == init + [ref];
      assert (ps + [p])[..|ps|] == ps;
      SortIsStable(GroupOf(ps + [p], ref));
      SortIsStable(GroupOf(ps, ref));
    }
  }

  lemma {:induction false} ReportedIsEverything(ps: seq<ParsedPayment>)
    ensures multiset(Reported(Refs(ps), ps)) == multiset(ps)
    ensures forall p <- ps :: p.ref in Refs(ps)
  {
    hide SortByDate, Reported, GroupOf;
    if ps == [] {
      NothingReported();
    } else {
      var init, p := ps[..|ps| - 1], ps[|ps| - 1];
      assert ps == init + [p];
      ReportedIsEverything(init);
      RefsAreUnique(init);
      GroupOfOneMore(Refs(init), init, p);
      if p.ref !in Refs(init) {
        NewReference(Refs(init), init, p);
      }
    }
  }

  lemma NothingReported()
    ensures Reported(Refs([]), []) == []
  {
  }

  lemma NewReference(refs: seq<string>, ps: seq<ParsedPayment>, p: ParsedPayment)
    requires forall q <- ps :: q.ref != p.ref
    ensures Reported(refs + [p.ref], ps + [p]) == Reported(refs, ps + [p]) + [p]
  {
    hide SortByDate;
    assert (refs + [p.ref])[..|refs|] == refs;
    assert (ps + [p])[..|ps|] == ps;
    NoGroup(ps, p.ref);
    assert GroupOf(ps + [p], p.ref) == [p];
    SortOne(p);
  }

  lemma SortOne(p: ParsedPayment)
    ensures SortByDate([p]) == [p]
  {
  }

  lemma {:induction false} NoGroup(ps: seq<ParsedPayment>, ref: string)
    requires forall p <- ps :: p.ref != ref
    ensures GroupOf(ps, ref) == []
  {
    if ps != [] {
      NoGroup(ps[..|ps| - 1], ref);
    }
  }

  /** The rows report these payments one by one. */
  predicate Reports(rows: seq<ImportRow>, ps: seq<ParsedPayment>) {
    |rows| == |ps| && forall i :: 0 <= i < |ps| ==> ReportsOne(rows[i], ps[i])
  }

  predicate ReportsOne(row: ImportRow, p: ParsedPayment) {
    row.rowNumber == FirstRow(p) && (row.what.PaymentError? || row.what.PaymentCreated?)
  }

  lemma {:induction false} RowsOfOneReference(a: Account, id: nat, ps: seq<ParsedPayment>)
    ensures Reports(PaymentRows(a, id, ps), ps)
    ensures CountOf(PaymentRows(a, id, ps), PaymentCreated) ==
      |AppendImports(a.terms, a.payments, ItemsOf(ps))| - |a.payments|
  {
    hide RecordImport, LastDate, Before, Reports, AppendImports, ItemsOf, PaymentRows, CountOf;
    if ps == [] {
      NoItems(a, id, ps);
      assert ps[..0] == ps;
      NoRows();
    } else {
      var n := |ps| - 1;
      RowsOfOneReference(a, id, ps[..n]);
      OneMoreItem(a, id, ps, n);
      assert ps[..n + 1] == ps && ps == ps[..n] + [ps[n]];
      var late := Before(ps[n].date, LastDate(a.terms, AppendImports(a.terms, a.payments, ItemsOf(ps[..n]))));
      ReportsOneMore(PaymentRows(a, id, ps[..n]),
        ImportRow(FirstRow(ps[n]), if late then PaymentError else PaymentCreated, if late then None else Some(id)),
        ps[..n], ps[n]);
    }
  }

  lemma ReportsOneMore(rows: seq<ImportRow>, row: ImportRow, ps: seq<ParsedPayment>, p: ParsedPayment)
    requires Reports(rows, ps) && ReportsOne(row, p)
    ensures Reports(rows + [row], ps + [p])
    ensures CountOf(rows + [row], PaymentCreated) ==
      CountOf(rows, PaymentCreated) + (if row.what.PaymentCreated? then 1 else 0)
  {
  }

  lemma {:induction false} AllUnmapped(ps: seq<ParsedPayment>)
    ensures CountOf(UnmappedRows(ps), PaymentCreated) == 0
  {
    if ps != [] {
      AllUnmapped(ps[..|ps| - 1]);
      assert UnmappedRows(ps)[..|ps| - 1] == UnmappedRows(ps[..|ps| - 1]);
    }
  }

  lemma ReplayRefReports(s: Session, ref: string, plist: seq<ParsedPayment>)
    requires Mapped(s)
    ensures var t := ReplayRef(s, ref, plist);
      && s.rows <= t.rows && Reports(t.rows[|s.rows|..], plist)
      && t.paid == s.paid + CountOf(t.rows[|s.rows|..], PaymentCreated)
      && t.paid + t.errored == s.paid + s.errored + |plist|
  {
    hide AppendImports;
    var t := ReplayRef(s, ref, plist);
    if ref in s.byRef {
      var a := s.accounts[s.byRef[ref]];
      RowsOfOneReference(a, s.byRef[ref], plist);
      assert t.rows[|s.rows|..] == PaymentRows(a, s.byRef[ref], plist);
    } else {
      AllUnmapped(plist);
      assert t.rows[|s.rows|..] == UnmappedRows(plist);
    }
  }

  lemma NoRows()
    ensures CountOf([], PaymentCreated) == 0 && Reports([], [])
  {
  }

  lemma {:induction false} ReplayReports(s: Session, refs: seq<string>, ps: seq<ParsedPayment>)
    requires Mapped(s)
    ensures var t := ReplayRefs(s, refs, ps);
      && s.rows <= t.rows && Reports(t.rows[|s.rows|..], Reported(refs, ps))
      && t.paid == s.paid + CountOf(t.rows[|s.rows|..], PaymentCreated)
      && t.paid + t.errored == s.paid + s.errored + |Reported(refs, ps)|
  {
    hide ReplayRef, SortByDate, GroupOf, ReportsOne, CountOf;
    if refs == [] {
      assert s.rows[|s.rows|..] == [];
      NoRows();
    } else {
      var init, ref := refs[..|refs| - 1], refs[|refs| - 1];
      ReplayReports(s, init, ps);
      var t, plist := ReplayRefs(s, init, ps), SortByDate(GroupOf(ps, ref));
      var u := ReplayRef(t, ref, plist);
      ReplayRefReports(t, ref, plist);
      assert u.rows[|s.rows|..] == t.rows[|s.rows|..] + u.rows[|t.rows|..];
      CountAppend(t.rows[|s.rows|..], u.rows[|t.rows|..], PaymentCreated);
    }
  }

  /** After a commit, the rows are one per parsed account followed by one per parsed payment (each payment once,
      in the order they were replayed), and created plus errored payments are all that were parsed. */
  lemma EveryPaymentHasOneRow(accounts: map<nat, Account>, nextId: nat, parsed: Parsed, m: map<string, Mapping>,
      users: set<nat>)
    requires UniqueRefs(parsed.accounts) && FreshIds(accounts, nextId, m)
    ensures Mapped(MapAccounts(Start(accounts, nextId), parsed.accounts, m, users))
    ensures var s, order := AfterCommit(accounts, nextId, parsed, m, users),
      Reported(Refs(parsed.payments), parsed.payments);
      && multiset(order) == multiset(parsed.payments)
      && |s.rows| >= |parsed.accounts| && Reports(s.rows[|parsed.accounts|..], order)
      && s.paid == CountOf(s.rows[|parsed.accounts|..], PaymentCreated)
      && s.paid + s.errored == |parsed.payments|
  {
    hide Reports, Reported, Refs, CountOf, ReplayRefs, MapAccounts, CreatedApart;
    var start := Start(accounts, nextId);
    MappingKeepsApart(start, parsed.accounts, m, users);
    var mapped := MapAccounts(start, parsed.accounts, m, users);
    ApartIsMapped(mapped, m, nextId);
    EveryAccountHasOneRow(start, parsed.accounts, m, users);
    ReplayReports(mapped, Refs(parsed.payments), parsed.payments);
    ReportedIsEverything(parsed.payments);
    SameSize(Reported(Refs(parsed.payments), parsed.payments), parsed.payments);
  }

  lemma SameSize(xs: seq<ParsedPayment>, ys: seq<ParsedPayment>)
    requires multiset(xs) == multiset(ys)
    ensures |xs| == |ys|
  {
    assert |multiset(xs)| == |xs| && |multiset(ys)| == |ys|;
  }

  // ---------- What one reference's replay does to its account ----------

  predicate ItemsByDate(items: seq<ImportItem>) {
    forall i, j :: 0 <= i < j < |items| ==> AtOrBefore(items[i].date, items[j].date)
  }

  /** How many leading items are dated before d. */
  function Leading(items: seq<ImportItem>, d: Day): (n: nat)
    ensures n <= |items|
  {
    if items == [] then 0
    else
      var n := Leading(items[..|items| - 1], d);
      if n == |items| - 1 && Before(items[|items| - 1].date, d) then n + 1 else n
  }

  function Net(items: seq<ImportItem>): int {
    if items == [] then 0 else Net(items[..|items| - 1]) + items[|items| - 1].interest - items[|items| - 1].amount
  }

  lemma {:induction false} LeadingIsExact(items: seq<ImportItem>, d: Day)
    requires ItemsByDate(items)
    ensures forall i :: 0 <= i < |items| ==> (i < Leading(items, d) <==> Before(items[i].date, d))
  {
    if items != [] {
      var init := items[..|items| - 1];
      LeadingIsExact(init, d);
      if Leading(init, d) < |init| {
        assert AtOrBefore(items[Leading(init, d)].date, items[|items| - 1].date);
      }
    }
  }

  /** Item j of `items` is the payment at `base + j`: it starts from the balance the payment before it left, or from
      the loan if it is the first of the account. */
  predicate ChainedAt(terms: Terms, out: seq<Payment>, base: nat, items: seq<ImportItem>, j: nat) {
    j < |items| && base + j < |out| &&
    var p, it := out[base + j], items[j];
    && p.date == it.date && p.amount == it.amount && p.interest == it.interest && p.kind == Import
    && p.before == (if base + j == 0 then terms.borrow else out[base + j - 1].after)
    && p.after == p.before + it.interest - it.amount && p.nextDue == NextDueDate(it.date)
  }

  lemma LaterIsNotBefore(items: seq<ImportItem>, i: nat, j: nat)
    requires ItemsByDate(items) && i < j < |items|
    ensures !Before(items[j].date, items[i].date)
  {
  }

  lemma {:induction false} AcceptedSuffix(terms: Terms, ps: seq<Payment>, items: seq<ImportItem>)
    requires ItemsByDate(items)
    ensures var out, r := AppendImports(terms, ps, items), Leading(items, LastDate(terms, ps));
      && ps <= out && |out| == |ps| + |items| - r
      && LastDate(terms, out) == (if r == |items| then LastDate(terms, ps) else items[|items| - 1].date)
  {
    hide NextDueDate, Before, AtOrBefore;
    if items != [] {
      var n := |items| - 1;
      AcceptedSuffix(terms, ps, items[..n]);
      if Leading(items[..n], LastDate(terms, ps)) < n {
        LaterIsNotBefore(items, n - 1, n);
      }
    }
  }

  lemma {:induction false} AcceptedAreChained(terms: Terms, ps: seq<Payment>, items: seq<ImportItem>)
    requires ItemsByDate(items)
    ensures var out, r := AppendImports(terms, ps, items), Leading(items, LastDate(terms, ps));
      && |out| == |ps| + |items| - r
      && (forall j :: 0 <= j < |items| - r ==> ChainedAt(terms, out, |ps|, items[r..], j))
  {
    hide RecordImport, LastDate, Before, AtOrBefore, ChainedAt;
    AcceptedSuffix(terms, ps, items);
    if items != [] {
      var n := |items| - 1;
      var init := items[..n];
      AcceptedAreChained(terms, ps, init);
      var before, r := AppendImports(terms, ps, init), Leading(init, LastDate(terms, ps));
      if |AppendImports(terms, ps, items)| > |before| {
        assert items[r..] == init[r..] + [items[n]];
        ChainOneMore(terms, before, |ps|, init[r..], items[n]);
      }
    }
  }

  /** Of items in date order, the rejected ones are exactly a prefix: those dated before the end of the
      recorded history.  The others are recorded one after the other, each starting from the balance the
      previous one left. */
  lemma ReplayAcceptsASuffix(terms: Terms, ps: seq<Payment>, items: seq<ImportItem>)
    requires ItemsByDate(items)
    ensures var out, r := AppendImports(terms, ps, items), Leading(items, LastDate(terms, ps));
      && ps <= out && |out| == |ps| + |items| - r
      && (forall i :: 0 <= i < |items| ==> (i < r <==> Before(items[i].date, LastDate(terms, ps))))
      && (forall j :: 0 <= j < |items| - r ==> ChainedAt(terms, out, |ps|, items[r..], j))
  {
    hide LastDate, Before, AppendImports, Leading, ChainedAt, ItemsByDate;
    LeadingIsExact(items, LastDate(terms, ps));
    AcceptedSuffix(terms, ps, items);
    AcceptedAreChained(terms, ps, items);
  }

  lemma ChainOneMore(terms: Terms, out: seq<Payment>, base: nat, items: seq<ImportItem>, it: ImportItem)
    requires |out| == base + |items| && forall j :: 0 <= j < |items| ==> ChainedAt(terms, out, base, items, j)
    ensures var more := out + [RecordImport(terms, out, it.date, it.amount, it.interest)];
      forall j :: 0 <= j <= |items| ==> ChainedAt(terms, more, base, items + [it], j)
  {
    hide NextDueDate;
    var more := out + [RecordImport(terms, out, it.date, it.amount, it.interest)];
    forall j | 0 <= j <= |items|
      ensures ChainedAt(terms, more, base, items + [it], j)
    {
      assert j < |items| ==> ChainedAt(terms, out, base, items, j);
    }
  }

  /** The account's balance moves by the interest less the amounts of the accepted items, and by nothing else. */
  lemma {:induction false} ReplayConserves(terms: Terms, ps: seq<Payment>, items: seq<ImportItem>)
    requires ItemsByDate(items)
    ensures RunningBalance(terms, AppendImports(terms, ps, items)) ==
      RunningBalance(terms, ps) + Net(items[Leading(items, LastDate(terms, ps))..])
  {
    hide RecordImport, AtOrBefore, Before, LastDate;
    if items != [] {
      var n, d := |items| - 1, LastDate(terms, ps);
      var init := items[..n];
      ReplayConserves(terms, ps, init);
      AcceptedSuffix(terms, ps, init);
      AcceptedSuffix(terms, ps, items);
      var r, before := Leading(init, d), AppendImports(terms, ps, init);
      ImportMovesBalance(terms, before, items[n]);
      if Leading(items, d) <= n {
        assert items[r..][..n - r] == init[r..];
      } else {
        assert items[n + 1..] == [] && init[n..] == [];
      }
    }
  }

  lemma ImportMovesBalance(terms: Terms, ps: seq<Payment>, it: ImportItem)
    ensures RunningBalance(terms, ps + [RecordImport(terms, ps, it.date, it.amount, it.interest)]) ==
      RunningBalance(terms, ps) + it.interest - it.amount
  {
  }

  /** Appending imports keeps the payments in query order, so the importer inserts where the query puts them. */
  lemma {:induction false} AppendKeepsOrder(terms: Terms, ps: seq<Payment>, items: seq<ImportItem>)
    requires ByDate(ps)
    ensures ByDate(AppendImports(terms, ps, items))
  {
    if items != [] {
      AppendKeepsOrder(terms, ps, items[..|items| - 1]);
    }
  }

  // ---------- Which rows report an error ----------

  /** The import row of the i-th payment of a reference of which the first r are rejected. */
  predicate RowIs(row: ImportRow, p: ParsedPayment, rejected: bool, id: Option<nat>) {
    var first := if p.rows == [] then None else Some(p.rows[0]);
    row == if rejected then ImportRow(first, PaymentError, None) else ImportRow(first, PaymentCreated, id)
  }

  /** How many of a reference's payments, in date order, are rejected: all without an account, else those dated
      before the history of the account they are replayed onto. */
  function RejectedOf(s: Session, ref: string, plist: seq<ParsedPayment>): nat
    requires Mapped(s)
  {
    if ref !in s.byRef then |plist|
    else
      var a := s.accounts[s.byRef[ref]];
      Leading(ItemsOf(plist), LastDate(a.terms, a.payments))
  }

  lemma {:induction false} RowsAreErrorsThenCreated(a: Account, id: nat, ps: seq<ParsedPayment>)
    requires ItemsByDate(ItemsOf(ps))
    ensures var rows, r := PaymentRows(a, id, ps), Leading(ItemsOf(ps), LastDate(a.terms, a.payments));
      |rows| == |ps| && forall i :: 0 <= i < |ps| ==> RowIs(rows[i], ps[i], i < r, Some(id))
  {
    hide RecordImport, LastDate, AtOrBefore, Before, AppendImports, ItemsOf, PaymentRows, ItemsByDate, Leading, RowIs;
    if ps == [] {
      NoItems(a, id, ps);
      assert ps[..0] == ps;
    } else {
      var n := |ps| - 1;
      var d := LastDate(a.terms, a.payments);
      ItemsOneMore(ps, n, d);
      RowsAreErrorsThenCreated(a, id, ps[..n]);
      OneMoreItem(a, id, ps, n);
      AcceptedSuffix(a.terms, a.payments, ItemsOf(ps[..n]));
      LastIsLate(a, ps, n);
      assert ps[..n + 1] == ps;
      LastRowIs(ps[n], Leading(ItemsOf(ps), d) == |ps|, id);
      forall i | 0 <= i < n
        ensures RowIs(PaymentRows(a, id, ps)[i], ps[i], i < Leading(ItemsOf(ps), d), Some(id))
      {
        assert RowIs(PaymentRows(a, id, ps[..n])[i], ps[..n][i], i < Leading(ItemsOf(ps[..n]), d), Some(id));
      }
    }
  }

  lemma LastRowIs(p: ParsedPayment, late: bool, id: nat)
    ensures var what, account := if late then PaymentError else PaymentCreated, if late then None else Some(id);
      RowIs(ImportRow(FirstRow(p), what, account), p, late, Some(id))
  {
  }

  lemma ItemsOneMore(ps: seq<ParsedPayment>, n: nat, d: Day)
    requires |ps| == n + 1 && ItemsByDate(ItemsOf(ps))
    ensures ItemsByDate(ItemsOf(ps[..n])) && |ItemsOf(ps)| == n + 1 && |ItemsOf(ps[..n])| == n
    ensures var r := Leading(ItemsOf(ps[..n]), d);
      Leading(ItemsOf(ps), d) == if r == n && Before(ps[n].date, d) then n + 1 else r
  {
    hide Before, AtOrBefore;
    assert ItemsOf(ps)[..n] == ItemsOf(ps[..n]);
  }

  /** The last payment is late exactly if all before it were and it predates the recorded history. */
  lemma LastIsLate(a: Account, ps: seq<ParsedPayment>, n: nat)
    requires |ps| == n + 1 && ItemsByDate(ItemsOf(ps))
    ensures var d, out := LastDate(a.terms, a.payments), AppendImports(a.terms, a.payments, ItemsOf(ps[..n]));
      Before(ps[n].date, LastDate(a.terms, out)) <==> Leading(ItemsOf(ps[..n]), d) == n && Before(ps[n].date, d)
  {
    hide RecordImport, AppendImports, Leading, LastDate, Before, AtOrBefore;
    var d := LastDate(a.terms, a.payments);
    ItemsOneMore(ps, n, d);
    AcceptedSuffix(a.terms, a.payments, ItemsOf(ps[..n]));
    if Leading(ItemsOf(ps[..n]), d) < n {
      LaterIsNotBefore(ItemsOf(ps), n - 1, n);
    }
  }

  lemma ReplayRefRows(s: Session, ref: string, plist: seq<ParsedPayment>)
    requires Mapped(s) && Sorted(plist)
    ensures var t, r := ReplayRef(s, ref, plist), RejectedOf(s, ref, plist);
      && |t.rows| == |s.rows| + |plist| && s.rows <= t.rows
      && (forall i :: 0 <= i < |plist| ==>
            RowIs(t.rows[|s.rows| + i], plist[i], i < r, if ref in s.byRef then Some(s.byRef[ref]) else None))
  {
    hide AppendImports, PaymentRows, Leading, LastDate, Sorted, ItemsByDate, ItemsOf, Imported, UnmappedRows, RowIs;
    if ref in s.byRef {
      SortedItems(plist);
      RowsAreErrorsThenCreated(s.accounts[s.byRef[ref]], s.byRef[ref], plist);
    } else {
      UnmappedAreErrors(plist);
    }
  }

  lemma SortedItems(ps: seq<ParsedPayment>)
    requires Sorted(ps)
    ensures ItemsByDate(ItemsOf(ps))
  {
    hide AtOrBefore;
  }

  lemma UnmappedAreErrors(ps: seq<ParsedPayment>)
    ensures |UnmappedRows(ps)| == |ps| && forall i :: 0 <= i < |ps| ==> RowIs(UnmappedRows(ps)[i], ps[i], true, None)
  {
  }

  lemma {:induction false} RowsOnlyGrow(s: Session, refs: seq<string>, k: nat, ps: seq<ParsedPayment>)
    requires Mapped(s) && k <= |refs|
    ensures Mapped(ReplayRefs(s, refs[..k], ps)) && ReplayRefs(s, refs[..k], ps).byRef == s.byRef
    ensures ReplayRefs(s, refs[..k], ps).rows <= ReplayRefs(s, refs, ps).rows
  {
    hide ReplayRef, SortByDate, GroupOf;
    if k < |refs| {
      var n := |refs| - 1;
      RowsOnlyGrow(s, refs[..n], k, ps);
      assert refs[..n][..k] == refs[..k];
      ReplayRefReports(ReplayRefs(s, refs[..n], ps), refs[n], SortByDate(GroupOf(ps, refs[n])));
    } else {
      assert refs[..k] == refs;
    }
  }

  /** After a commit the rows of each reference stand together, in date order: first an error for each payment that
      is rejected (all of them without an account, else those dated before the account's history when its turn
      came), then only created payments of the mapped account. */
  lemma {:induction false} RowsOfAReference(accounts: map<nat, Account>, nextId: nat, parsed: Parsed,
      m: map<string, Mapping>, users: set<nat>, k: nat)
    requires UniqueRefs(parsed.accounts) && FreshIds(accounts, nextId, m) && k < |Refs(parsed.payments)|
    ensures Mapped(MapAccounts(Start(accounts, nextId), parsed.accounts, m, users))
    ensures var s, refs := AfterCommit(accounts, nextId, parsed, m, users), Refs(parsed.payments);
      var mapped := MapAccounts(Start(accounts, nextId), parsed.accounts, m, users);
      var t, plist := ReplayRefs(mapped, refs[..k], parsed.payments), SortByDate(GroupOf(parsed.payments, refs[k]));
      && Mapped(t) && t.byRef == mapped.byRef
      && |t.rows| == |parsed.accounts| + |Reported(refs[..k], parsed.payments)|
      && |t.rows| + |plist| <= |s.rows|
      && (forall i :: 0 <= i < |plist| ==>
            RowIs(s.rows[|t.rows| + i], plist[i], i < RejectedOf(t, refs[k], plist),
                  if refs[k] in mapped.byRef then Some(mapped.byRef[refs[k]]) else None))
  {
    hide ReportsOne, Reported, Refs, CountOf, MapAccounts, CreatedApart, RowIs, RejectedOf, ReplayRef, SortByDate,
      GroupOf;
    var start, refs, ps := Start(accounts, nextId), Refs(parsed.payments), parsed.payments;
    MappingKeepsApart(start, parsed.accounts, m, users);
    var mapped := MapAccounts(start, parsed.accounts, m, users);
    ApartIsMapped(mapped, m, nextId);
    EveryAccountHasOneRow(start, parsed.accounts, m, users);
    ReplayReports(mapped, refs[..k], ps);
    RowsOnlyGrow(mapped, refs, k, ps);
    RowsOnlyGrow(mapped, refs, k + 1, ps);
    assert refs[..k + 1][..k] == refs[..k];
    SortIsStable(GroupOf(ps, refs[k]));
    ReplayRefRows(ReplayRefs(mapped, refs[..k], ps), refs[k], SortByDate(GroupOf(ps, refs[k])));
  }

  // ---------- Which accounts a commit touches ----------

  /** The replay leaves the terms of every account, and the whole of each account that no replayed reference is
      mapped to; an account mapped to by exactly one of them gets that reference's import. */
  lemma {:induction false} ReplayTouchesOnlyMapped(s: Session, refs: seq<string>, ps: seq<ParsedPayment>, id: nat)
    requires Mapped(s) && id in s.accounts
    ensures var t := ReplayRefs(s, refs, ps);
      && t.accounts.Keys == s.accounts.Keys && t.accounts[id].terms == s.accounts[id].terms
      && ((forall ref <- refs :: ref in s.byRef ==> s.byRef[ref] != id) ==> t.accounts[id] == s.accounts[id])
      && (forall k :: 0 <= k < |refs| && OnlyAt(s, refs, k, id) ==>
            t.accounts[id] == Imported(s.accounts[id], ItemsOf(SortByDate(GroupOf(ps, refs[k])))))
  {
    hide Imported, SortByDate, GroupOf, ItemsOf, PaymentRows;
    if refs != [] {
      var n := |refs| - 1;
      var init := refs[..n];
      ReplayTouchesOnlyMapped(s, init, ps, id);
      ImportKeepsTerms(ReplayRefs(s, init, ps), refs[n], SortByDate(GroupOf(ps, refs[n])), id);
      forall k | 0 <= k < |refs| && OnlyAt(s, refs, k, id)
        ensures ReplayRefs(s, refs, ps).accounts[id] ==
          Imported(s.accounts[id], ItemsOf(SortByDate(GroupOf(ps, refs[k]))))
      {
        if k < n {
          assert OnlyAt(s, init, k, id);
        } else {
          forall ref <- init
            ensures ref in s.byRef ==> s.byRef[ref] != id
          {
            var i :| 0 <= i < n && init[i] == ref;
            assert refs[i] == ref;
          }
        }
      }
    }
  }

  predicate OnlyAt(s: Session, refs: seq<string>, k: nat, id: nat) {
    && k < |refs| && refs[k] in s.byRef && s.byRef[refs[k]] == id
    && forall i :: 0 <= i < |refs| && i != k && refs[i] in s.byRef ==> s.byRef[refs[i]] != id
  }

  lemma ImportKeepsTerms(s: Session, ref: string, plist: seq<ParsedPayment>, id: nat)
    requires Mapped(s) && id in s.accounts
    ensures var t := ReplayRef(s, ref, plist);
      && t.accounts.Keys == s.accounts.Keys && t.accounts[id].terms == s.accounts[id].terms
      && t.accounts[id] ==
           if ref in s.byRef && s.byRef[ref] == id then Imported(s.accounts[id], ItemsOf(plist)) else s.accounts[id]
  {
  }
}
