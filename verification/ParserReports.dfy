/** What the parser reports, told from the rows: the reason of every error, and the payment of every group. */
module ParserReports {
  import opened Calendar
  import opened Imports
  import opened LegacyParser
  import opened Options
  import opened ParserLaws

  // ---------- Errors ----------

  /** Why row i is rejected, given the rows before it: its reference, else its date, else its kind or its amount, else
      a disbursement of its reference before it. */
  function ReasonOf(rows: seq<Row>, i: nat): set<ParseError>
    requires i < |rows|
  {
    var row, n := rows[i], i + 2;
    if row.ref == "" then {NoReference(n)}
    else if row.date.None? then {BadDate(n)}
    else if row.kind.Unrecognised? then {NotRecognised(n)}
    else if (if row.kind.PaymentRow? then row.credit else row.debit).None? then {NoAmount(n)}
    else if row.kind.Disbursement? then Duplicates(rows, i)
    else {}
  }

  function Duplicates(rows: seq<Row>, i: nat): set<ParseError>
    requires i < |rows|
  {
    set j | 0 <= j < i && FirstDisbursement(rows, j) && rows[j].ref == rows[i].ref ::
      DuplicateDisbursement(i + 2, j + 2)
  }

  lemma {:induction false} AccountForRow(rows: seq<Row>, ref: string, j: nat)
    requires j < |rows| && FirstDisbursement(rows, j) && rows[j].ref == ref
    ensures AccountFor(Accounts(rows), ref).Some? && AccountFor(Accounts(rows), ref).value.rowNumber == j + 2
  {
    hide Accounts, AccountFor, FirstDisbursement, NewAccount, UniqueRefs;
    EveryDisbursementHasAnAccountOf(rows, j);
    AccountForIsExact(Accounts(rows), ref);
    var a := AccountFor(Accounts(rows), ref).value;
    AccountsComeFromFirstRows(rows, a);
    FirstIsUnique(rows, j, a.rowNumber - 2, a);
  }

  lemma EveryDisbursementHasAnAccountOf(rows: seq<Row>, j: nat)
    requires FirstDisbursement(rows, j)
    ensures exists a :: a in Accounts(rows) && a.ref == rows[j].ref
  {
    EveryDisbursementHasAnAccount(rows, j);
  }

  lemma FirstIsUnique(rows: seq<Row>, i: nat, j: nat, a: ParsedAccount)
    requires FirstDisbursement(rows, i) && FirstDisbursement(rows, j)
    requires a == NewAccount(rows[j], j + 2) && a.ref == rows[i].ref
    ensures i == j
  {
  }

  lemma ErrorIsItsReason(rows: seq<Row>)
    requires rows != []
    ensures var n := |rows| - 1;
      var e := ErrorOf(Accounts(rows[..n]), rows[n], n + 2);
      ReasonOf(rows, n) == if e.Some? then {e.value} else {}
  {
    hide Accounts, AccountFor, FirstDisbursement, Duplicates;
    DuplicatesOfLast(rows);
  }

  lemma {:induction false} DuplicatesOfLast(rows: seq<Row>)
    requires rows != []
    ensures var n := |rows| - 1;
      var first := AccountFor(Accounts(rows[..n]), rows[n].ref);
      Duplicates(rows, n) == if first.Some? then {DuplicateDisbursement(n + 2, first.value.rowNumber)} else {}
  {
    hide Accounts, AccountFor, FirstDisbursement;
    var n := |rows| - 1;
    var init, row := rows[..n], rows[n];
    var first := AccountFor(Accounts(init), row.ref);
    forall j | 0 <= j < n
      ensures FirstDisbursement(init, j) == FirstDisbursement(rows, j) && init[j] == rows[j]
    {
      SameFirst(rows, j);
    }
    forall j | 0 <= j < n && FirstDisbursement(rows, j) && rows[j].ref == row.ref
      ensures first.Some? && first.value.rowNumber == j + 2
    {
      AccountForRow(init, row.ref, j);
    }
    if first.Some? {
      AccountForIsExact(Accounts(init), row.ref);
      AccountsComeFromFirstRows(init, first.value);
      FirstHasRef(init, first.value);
      assert FirstDisbursement(rows, first.value.rowNumber - 2);
      assert DuplicateDisbursement(n + 2, first.value.rowNumber) in Duplicates(rows, n);
    }
  }

  lemma FirstHasRef(rows: seq<Row>, a: ParsedAccount)
    requires a.rowNumber >= 2 && FirstDisbursement(rows, a.rowNumber - 2)
    requires a == NewAccount(rows[a.rowNumber - 2], a.rowNumber)
    ensures a.rowNumber - 2 < |rows| && rows[a.rowNumber - 2].ref == a.ref
  {
  }

  lemma {:induction false} RowErrorsSayWhy(rows: seq<Row>, e: ParseError)
    ensures e in RowErrors(rows) <==> exists i :: 0 <= i < |rows| && e in ReasonOf(rows, i)
  {
    hide Accounts, ErrorOf, ReasonOf;
    if rows != [] {
      var n := |rows| - 1;
      RowErrorsSayWhy(rows[..n], e);
      ErrorIsItsReason(rows);
      forall i | 0 <= i < n
        ensures ReasonOf(rows[..n], i) == ReasonOf(rows, i)
      {
        SameReason(rows, i);
      }
    }
  }

  lemma SameReason(rows: seq<Row>, i: nat)
    requires i < |rows| - 1
    ensures ReasonOf(rows[..|rows| - 1], i) == ReasonOf(rows, i)
  {
    hide FirstDisbursement;
    var init := rows[..|rows| - 1];
    forall j | 0 <= j <= i
      ensures FirstDisbursement(init, j) == FirstDisbursement(rows, j) && init[j] == rows[j]
    {
      SameFirst(rows, j);
    }
  }

  // ---------- Groups ----------

  /** The file has an accepted amount of this kind for this reference and date. */
  predicate HasAmount(rows: seq<Row>, k: Key, money: Money) {
    exists i :: 0 <= i < |rows| && Placed(rows[i]) && KeyOf(rows[i]) == k &&
      if money.Paid? then IsPayment(rows[i]) else IsInterest(rows[i])
  }

  lemma {:induction false} GroupHasAmounts(rows: seq<Row>, k: Key)
    ensures GroupAt(rows, k).payment.Some? <==> HasAmount(rows, k, Paid)
    ensures GroupAt(rows, k).interest.Some? <==> HasAmount(rows, k, Charged)
  {
    hide IsPayment, IsInterest;
    if rows != [] {
      var init := rows[..|rows| - 1];
      GroupHasAmounts(init, k);
      HasAmountOneMore(init, rows[|rows| - 1], k, Paid);
      HasAmountOneMore(init, rows[|rows| - 1], k, Charged);
      assert rows == init + [rows[|rows| - 1]];
    }
  }

  lemma HasAmountOneMore(rows: seq<Row>, row: Row, k: Key, money: Money)
    ensures HasAmount(rows + [row], k, money) <==>
      || HasAmount(rows, k, money)
      || (Placed(row) && KeyOf(row) == k && if money.Paid? then IsPayment(row) else IsInterest(row))
  {
    hide IsPayment, IsInterest, Placed;
    var more := rows + [row];
    assert more[|rows|] == row;
    assert forall i :: 0 <= i < |rows| ==> more[i] == rows[i];
  }

  lemma HasKey(rows: seq<Row>, k: Key, money: Money)
    requires HasAmount(rows, k, money)
    ensures k in Keys(rows)
  {
    hide Keys, IsPayment, IsInterest, Placed;
    KeysAreUnique(rows);
  }

  /** The payment that a reference and date amount to. */
  predicate PaymentFor(rows: seq<Row>, k: Key, p: ParsedPayment) {
    && p.ref == k.ref && p.date == k.date && p.amount == OnKey(rows, k, Paid) && p.interest == OnKey(rows, k, Charged)
    && p.rows == GroupAt(rows, k).rows
  }

  lemma {:induction false} PaymentsOfAre(rows: seq<Row>, keys: seq<Key>, p: ParsedPayment)
    ensures p in PaymentsOf(rows, keys) <==> exists k :: k in keys && HasAmount(rows, k, Paid) && PaymentFor(rows, k, p)
  {
    hide GroupAt, HasAmount, OnKey;
    if keys != [] {
      var init, k := keys[..|keys| - 1], keys[|keys| - 1];
      PaymentsOfAre(rows, init, p);
      GroupHasAmounts(rows, k);
      GroupSums(rows, k);
      assert keys == init + [k];
    }
  }

  /** The parsed payments are exactly those of the references and dates that have an accepted payment row, each with
      the sum of its payment rows, the sum of its interest rows, and the numbers of its rows. */
  lemma {:induction false} PaymentsAreTheGroups(rows: seq<Row>, p: ParsedPayment)
    ensures p in LedgerOf(rows).payments <==>
      exists k :: HasAmount(rows, k, Paid) && PaymentFor(rows, k, p)
  {
    hide Keys, PaymentsOf, Sort, Accounts, RowErrors, OrphanErrors, HasAmount, PaymentFor;
    KeysAreUnique(rows);
    PaymentsHaveDistinctKeys(rows, Keys(rows));
    SortIsStrict(PaymentsOf(rows, Keys(rows)));
    SameMembers(LedgerOf(rows).payments, PaymentsOf(rows, Keys(rows)), p);
    PaymentsOfAre(rows, Keys(rows), p);
    forall k | HasAmount(rows, k, Paid)
      ensures k in Keys(rows)
    {
      HasKey(rows, k, Paid);
    }
  }

  lemma SameMembers(xs: seq<ParsedPayment>, ys: seq<ParsedPayment>, p: ParsedPayment)
    requires multiset(xs) == multiset(ys)
    ensures p in xs <==> p in ys
  {
    assert p in xs <==> p in multiset(xs);
    assert p in ys <==> p in multiset(ys);
  }

  /** The error for a reference and date with interest but no payment names its first row. */
  predicate OrphanFor(rows: seq<Row>, k: Key, e: ParseError) {
    && HasAmount(rows, k, Charged) && !HasAmount(rows, k, Paid)
    && GroupAt(rows, k).rows != [] && e == InterestWithoutPayment(Some(GroupAt(rows, k).rows[0]), k)
  }

  lemma GroupHasRows(rows: seq<Row>, k: Key)
    requires HasAmount(rows, k, Charged)
    ensures GroupAt(rows, k).rows != []
  {
    hide IsPayment, IsInterest, Placed;
    GroupRowsAreExact(rows, k);
    var i :| 0 <= i < |rows| && Placed(rows[i]) && KeyOf(rows[i]) == k;
    assert rows[i + 2 - 2] == rows[i];
    assert i + 2 in GroupAt(rows, k).rows;
  }

  lemma {:induction false} OrphansAre(rows: seq<Row>, keys: seq<Key>, e: ParseError)
    ensures e in OrphanErrors(rows, keys) <==> exists k :: k in keys && OrphanFor(rows, k, e)
  {
    hide GroupAt, HasAmount, OrphanErrors;
    if keys == [] {
      NoKeys(rows);
    } else {
      var n := |keys| - 1;
      OrphansAre(rows, keys[..n], e);
      OneMoreKey(rows, keys, n);
      assert keys[..n + 1] == keys && keys == keys[..n] + [keys[n]];
      OrphanOfKey(rows, keys[n], e);
    }
  }

  lemma OrphanOfKey(rows: seq<Row>, k: Key, e: ParseError)
    ensures var g := GroupAt(rows, k);
      OrphanFor(rows, k, e) <==>
        g.payment.None? && g.interest.Some? && e == InterestWithoutPayment(FirstOf(g.rows), k)
  {
    hide GroupAt, HasAmount;
    GroupHasAmounts(rows, k);
    if HasAmount(rows, k, Charged) {
      GroupHasRows(rows, k);
    }
  }

  /** The errors are exactly the reasons of the rejected rows, and one for each reference and date that has interest
      but no payment. */
  lemma {:induction false} ErrorsSayWhy(rows: seq<Row>, e: ParseError)
    ensures e in LedgerOf(rows).errors <==>
      (exists i :: 0 <= i < |rows| && e in ReasonOf(rows, i)) || (exists k :: OrphanFor(rows, k, e))
  {
    hide Keys, PaymentsOf, Sort, Accounts, RowErrors, OrphanErrors, HasAmount, ReasonOf;
    RowErrorsSayWhy(rows, e);
    OrphansAre(rows, Keys(rows), e);
    forall k | OrphanFor(rows, k, e)
      ensures k in Keys(rows)
    {
      HasKey(rows, k, Charged);
    }
  }

  // ---------- Order ----------

  /** The accounts come in the order of their rows. */
  lemma {:induction false} AccountsInFileOrder(rows: seq<Row>)
    ensures var accounts := LedgerOf(rows).accounts;
      && (forall i :: 0 <= i < |accounts| ==> accounts[i].rowNumber <= RowNumber(rows))
      && (forall i, j :: 0 <= i < j < |accounts| ==> accounts[i].rowNumber < accounts[j].rowNumber)
  {
    hide AccountFor, IsDisbursement, NewAccount, Sort, PaymentsOf, Keys, RowErrors, OrphanErrors;
    if rows != [] {
      var row := rows[|rows| - 1];
      AccountsInFileOrder(rows[..|rows| - 1]);
      if IsDisbursement(row) {
        NewAccountRef(row, RowNumber(rows));
      }
    }
  }

  /** The row an error names as rejected, or the first row of the group it is about. */
  function RowOf(e: ParseError): nat {
    if e.InterestWithoutPayment? then (if e.firstRow.Some? then e.firstRow.value else 0) else e.row
  }

  predicate Ascending(es: seq<ParseError>) {
    forall i, j :: 0 <= i < j < |es| ==> RowOf(es[i]) < RowOf(es[j])
  }

  lemma {:induction false} RowErrorsAscend(rows: seq<Row>)
    ensures Ascending(RowErrors(rows))
    ensures forall e <- RowErrors(rows) :: RowOf(e) <= RowNumber(rows) && !e.InterestWithoutPayment?
  {
    hide ErrorOf, RowErrors, Accounts;
    if rows == [] {
      NoRows();
    } else {
      var init, row := rows[..|rows| - 1], rows[|rows| - 1];
      assert rows == init + [row];
      RowErrorsAscend(init);
      OneMoreRow(init, row);
      ErrorNamesRow(Accounts(init), row, RowNumber(rows));
      var before := RowErrors(init);
      forall i | 0 <= i < |before|
        ensures RowOf(before[i]) <= RowNumber(init)
      {
        assert before[i] in before;
      }
    }
  }

  lemma ErrorNamesRow(accounts: seq<ParsedAccount>, row: Row, n: nat)
    ensures var e := ErrorOf(accounts, row, n);
      e.Some? ==> !e.value.InterestWithoutPayment? && RowOf(e.value) == n
  {
    hide AccountFor;
  }

  /** The keys come in the order of the first rows of their groups. */
  lemma {:induction false} KeysInFileOrder(rows: seq<Row>)
    ensures forall k <- Keys(rows) :: GroupAt(rows, k).rows != [] && GroupAt(rows, k).rows[0] <= RowNumber(rows)
    ensures forall i, j :: 0 <= i < j < |Keys(rows)| ==>
      GroupAt(rows, Keys(rows)[i]).rows != [] && GroupAt(rows, Keys(rows)[j]).rows != [] &&
      GroupAt(rows, Keys(rows)[i]).rows[0] < GroupAt(rows, Keys(rows)[j]).rows[0]
  {
    hide Keys, GroupAt, Placed, KeyOf;
    if rows == [] {
      NoRows();
    } else {
      var init, row := rows[..|rows| - 1], rows[|rows| - 1];
      assert rows == init + [row];
      KeysInFileOrder(init);
      OneMoreRow(init, row);
      KeysAreUnique(rows);
      forall k: Key
        ensures k in Keys(init) ==> GroupAt(rows, k).rows != [] && GroupAt(rows, k).rows[0] == GroupAt(init, k).rows[0]
        ensures k !in Keys(init) && k in Keys(rows) ==> GroupAt(rows, k).rows == [RowNumber(rows)]
      {
        FirstRowStays(init, row, k);
      }
      KeysAscend(rows, init);
    }
  }

  lemma FirstRowStays(rows: seq<Row>, row: Row, k: Key)
    requires k in Keys(rows) ==> GroupAt(rows, k).rows != []
    ensures k in Keys(rows) ==>
      GroupAt(rows + [row], k).rows != [] && GroupAt(rows + [row], k).rows[0] == GroupAt(rows, k).rows[0]
    ensures k !in Keys(rows) && k in Keys(rows + [row]) ==> GroupAt(rows + [row], k).rows == [|rows| + 2]
  {
    hide Keys, GroupAt, IsPayment, IsInterest;
    GroupOneMore(rows, row, k);
    OneMoreRow(rows, row);
    if k !in Keys(rows) {
      LegacyParser.NoGroup(rows, k);
    }
  }

  lemma KeysAscend(rows: seq<Row>, init: seq<Row>)
    requires |rows| == |init| + 1 && Keys(init) <= Keys(rows) && |Keys(rows)| <= |Keys(init)| + 1 && Unique(Keys(rows))
    requires forall k <- Keys(init) :: GroupAt(init, k).rows != [] && GroupAt(init, k).rows[0] <= RowNumber(init)
    requires forall i, j :: 0 <= i < j < |Keys(init)| ==>
      GroupAt(init, Keys(init)[i]).rows != [] && GroupAt(init, Keys(init)[j]).rows != [] &&
      GroupAt(init, Keys(init)[i]).rows[0] < GroupAt(init, Keys(init)[j]).rows[0]
    requires forall k <- Keys(init) ::
      GroupAt(rows, k).rows != [] && GroupAt(rows, k).rows[0] == GroupAt(init, k).rows[0]
    requires forall k <- Keys(rows) :: k !in Keys(init) ==> GroupAt(rows, k).rows == [RowNumber(rows)]
    ensures forall i, j :: 0 <= i < j < |Keys(rows)| ==>
      GroupAt(rows, Keys(rows)[i]).rows != [] && GroupAt(rows, Keys(rows)[j]).rows != [] &&
      GroupAt(rows, Keys(rows)[i]).rows[0] < GroupAt(rows, Keys(rows)[j]).rows[0]
  {
    hide Keys, GroupAt;
    var ks, n := Keys(rows), |Keys(init)|;
    forall i, j | 0 <= i < j < |ks|
      ensures GroupAt(rows, ks[i]).rows != [] && GroupAt(rows, ks[j]).rows != []
      ensures GroupAt(rows, ks[i]).rows[0] < GroupAt(rows, ks[j]).rows[0]
    {
      assert ks[i] == Keys(init)[i] && ks[i] in Keys(init);
      if j < n {
        assert ks[j] == Keys(init)[j] && ks[j] in Keys(init);
      } else {
        assert ks[j] in ks && ks[j] !in Keys(init);
      }
    }
  }

  /** Errors of rows come first, in file order; those of groups follow, by the first row of the group. */
  lemma {:induction false} ErrorsInFileOrder(rows: seq<Row>)
    ensures exists n: nat :: n <= |LedgerOf(rows).errors| && OrderedFrom(LedgerOf(rows).errors, n)
  {
    hide Keys, PaymentsOf, Sort, Accounts, RowErrors, OrphanErrors, Ascending, GroupAt;
    RowErrorsAscend(rows);
    KeysInFileOrder(rows);
    OrphansAscend(rows, Keys(rows));
    var es, n := LedgerOf(rows).errors, |RowErrors(rows)|;
    assert es[..n] == RowErrors(rows) && es[n..] == OrphanErrors(rows, Keys(rows));
    forall e <- es[..n]
      ensures !e.InterestWithoutPayment?
    {
      assert e in RowErrors(rows);
    }
    assert OrderedFrom(es, n);
  }

  predicate OrderedFrom(es: seq<ParseError>, n: nat) {
    && n <= |es| && Ascending(es[..n]) && Ascending(es[n..])
    && (forall e <- es[..n] :: !e.InterestWithoutPayment?) && (forall e <- es[n..] :: e.InterestWithoutPayment?)
  }

  lemma {:induction false} OrphansAscend(rows: seq<Row>, keys: seq<Key>)
    requires forall i :: 0 <= i < |keys| ==> GroupAt(rows, keys[i]).rows != []
    requires forall i, j :: 0 <= i < j < |keys| ==> GroupAt(rows, keys[i]).rows[0] < GroupAt(rows, keys[j]).rows[0]
    ensures Ascending(OrphanErrors(rows, keys))
    ensures forall e <- OrphanErrors(rows, keys) :: e.InterestWithoutPayment?
    ensures forall e <- OrphanErrors(rows, keys) :: keys != [] && RowOf(e) <= GroupAt(rows, keys[|keys| - 1]).rows[0]
  {
    hide GroupAt, OrphanErrors;
    if keys == [] {
      NoKeys(rows);
    } else {
      var n := |keys| - 1;
      OrphansAscend(rows, keys[..n]);
      OneMoreKey(rows, keys, n);
      assert keys[..n + 1] == keys;
      var before := OrphanErrors(rows, keys[..n]);
      forall i | 0 <= i < |before|
        ensures n > 0 && RowOf(before[i]) < GroupAt(rows, keys[n]).rows[0]
      {
        assert before[i] in before;
      }
    }
  }
}
