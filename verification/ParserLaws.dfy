/** Laws of the legacy parser, for every file: no money vanishes, no row goes unaccounted for, one payment
    per reference and date, one account per reference. */
module ParserLaws {
  import Calendar
  import opened Imports
  import opened LegacyParser
  import opened Options

  // ---------- Money in the file and in the result ----------

  datatype Money = Paid | Charged

  /** The amount a row contributes: the credit of an accepted payment row, the debit of an accepted interest row. */
  function Amount(row: Row, money: Money): int {
    match money
    case Paid => if IsPayment(row) then row.credit.value else 0
    case Charged => if IsInterest(row) then row.debit.value else 0
  }

  function InFile(rows: seq<Row>, money: Money): int {
    if rows == [] then 0 else InFile(rows[..|rows| - 1], money) + Amount(rows[|rows| - 1], money)
  }

  function OnKey(rows: seq<Row>, k: Key, money: Money): int {
    if rows == [] then 0
    else
      var last := rows[|rows| - 1];
      OnKey(rows[..|rows| - 1], k, money) + (if Placed(last) && KeyOf(last) == k then Amount(last, money) else 0)
  }

  function OnKeys(rows: seq<Row>, keys: seq<Key>, money: Money): int {
    if keys == [] then 0 else OnKeys(rows, keys[..|keys| - 1], money) + OnKey(rows, keys[|keys| - 1], money)
  }

  predicate Unique(keys: seq<Key>) {
    forall i, j :: 0 <= i < j < |keys| ==> keys[i] != keys[j]
  }

  lemma {:induction false} KeysAreUnique(rows: seq<Row>)
    ensures Unique(Keys(rows))
    ensures forall i :: 0 <= i < |rows| && Placed(rows[i]) ==> KeyOf(rows[i]) in Keys(rows)
  {
    if rows != [] {
      var init, row := rows[..|rows| - 1], rows[|rows| - 1];
      KeysAreUnique(init);
      forall i | 0 <= i < |rows| && Placed(rows[i])
        ensures KeyOf(rows[i]) in Keys(rows)
      {
        if i < |init| {
          assert KeyOf(init[i]) in Keys(init);
        }
      }
    }
  }

  lemma {:induction false} OneMoreOnKeys(rows: seq<Row>, row: Row, keys: seq<Key>, money: Money)
    requires Unique(keys)
    ensures OnKeys(rows + [row], keys, money) ==
      OnKeys(rows, keys, money) + (if Placed(row) && KeyOf(row) in keys then Amount(row, money) else 0)
  {
    hide Amount;
    if keys != [] {
      var init := keys[..|keys| - 1];
      OneMoreOnKeys(rows, row, init, money);
      assert keys == init + [keys[|keys| - 1]];
      assert (rows + [row])[..|rows|] == rows;
    }
  }

  lemma {:induction false} NothingOnKey(rows: seq<Row>, k: Key, money: Money)
    requires k !in Keys(rows)
    ensures OnKey(rows, k, money) == 0
  {
    if rows != [] {
      NothingOnKey(rows[..|rows| - 1], k, money);
    }
  }

  /** The groups partition the accepted amounts. */
  lemma {:induction false} KeysPartitionTheFile(rows: seq<Row>, money: Money)
    ensures OnKeys(rows, Keys(rows), money) == InFile(rows, money)
  {
    hide Amount, OnKey, OnKeys, Keys;
    if rows == [] {
      NoRows();
      NoSum(rows, money);
    } else {
      var init, row := rows[..|rows| - 1], rows[|rows| - 1];
      assert rows == init + [row];
      KeysPartitionTheFile(init, money);
      KeysAreUnique(init);
      OneMoreOnKeys(init, row, Keys(init), money);
      OneMoreRow(init, row);
      assert Keys(init) + [] == Keys(init);
      if !Placed(row) {
        NothingUnplaced(row, money);
      } else if KeyOf(row) !in Keys(init) {
        NewKey(init, row, Keys(init), money);
      }
    }
  }

  lemma NoSum(rows: seq<Row>, money: Money)
    ensures OnKeys(rows, [], money) == 0
  {
  }

  lemma NewKey(rows: seq<Row>, row: Row, keys: seq<Key>, money: Money)
    requires Placed(row) && KeyOf(row) !in Keys(rows)
    ensures OnKeys(rows + [row], keys + [KeyOf(row)], money) == OnKeys(rows + [row], keys, money) + Amount(row, money)
  {
    hide Amount, Keys, OnKey, OnKeys;
    NothingOnKey(rows, KeyOf(row), money);
    OnKeyOneMore(rows, row, money);
    OnKeysOneMore(rows + [row], keys, KeyOf(row), money);
  }

  lemma OnKeyOneMore(rows: seq<Row>, row: Row, money: Money)
    requires Placed(row)
    ensures OnKey(rows + [row], KeyOf(row), money) == OnKey(rows, KeyOf(row), money) + Amount(row, money)
  {
  }

  lemma OnKeysOneMore(rows: seq<Row>, keys: seq<Key>, k: Key, money: Money)
    ensures OnKeys(rows, keys + [k], money) == OnKeys(rows, keys, money) + OnKey(rows, k, money)
  {
  }

  lemma NothingUnplaced(row: Row, money: Money)
    ensures !Placed(row) ==> Amount(row, money) == 0
  {
  }

  /** What a group has accumulated is what its rows contribute. */
  lemma {:induction false} GroupSums(rows: seq<Row>, k: Key)
    ensures OrZero(GroupAt(rows, k).payment) == OnKey(rows, k, Paid)
    ensures OrZero(GroupAt(rows, k).interest) == OnKey(rows, k, Charged)
  {
    if rows != [] {
      GroupSums(rows[..|rows| - 1], k);
    }
  }

  /** The rows a group lists are those of its reference and date, in file order. */
  lemma {:induction false} GroupRowsAreExact(rows: seq<Row>, k: Key)
    ensures forall n :: n in GroupAt(rows, k).rows <==>
      2 <= n < |rows| + 2 && Placed(rows[n - 2]) && KeyOf(rows[n - 2]) == k
    ensures forall i, j :: 0 <= i < j < |GroupAt(rows, k).rows| ==> GroupAt(rows, k).rows[i] < GroupAt(rows, k).rows[j]
  {
    hide IsPayment, IsInterest, Plus, Placed;
    if rows != [] {
      var init := rows[..|rows| - 1];
      GroupRowsAreExact(init, k);
      var before := GroupAt(init, k).rows;
      forall i | 0 <= i < |before|
        ensures before[i] < |rows| + 1
      {
        assert before[i] in before;
      }
    }
  }

  function SumAmounts(ps: seq<ParsedPayment>): int {
    if ps == [] then 0 else SumAmounts(ps[..|ps| - 1]) + ps[|ps| - 1].amount
  }

  function SumInterests(ps: seq<ParsedPayment>): int {
    if ps == [] then 0 else SumInterests(ps[..|ps| - 1]) + ps[|ps| - 1].interest
  }

  /** The interest rows of the groups reported as having interest but no payment. */
  function Reported(rows: seq<Row>, errors: seq<ParseError>): int {
    if errors == [] then 0
    else
      var e := errors[|errors| - 1];
      Reported(rows, errors[..|errors| - 1]) + (if e.InterestWithoutPayment? then OnKey(rows, e.key, Charged) else 0)
  }

  lemma {:induction false} SumsOfKeys(rows: seq<Row>, keys: seq<Key>)
    ensures SumAmounts(PaymentsOf(rows, keys)) == OnKeys(rows, keys, Paid)
    ensures SumInterests(PaymentsOf(rows, keys)) + Reported(rows, OrphanErrors(rows, keys)) ==
      OnKeys(rows, keys, Charged)
  {
    hide GroupAt, OnKey, PaymentsOf, OrphanErrors, SumAmounts, SumInterests, Reported;
    if keys == [] {
      NoKeys(rows);
      NoPayments(rows);
    } else {
      var n := |keys| - 1;
      var k := keys[n];
      SumsOfKeys(rows, keys[..n]);
      GroupSums(rows, k);
      OneMoreKey(rows, keys, n);
      assert keys[..n + 1] == keys;
      var g, ps, es := GroupAt(rows, k), PaymentsOf(rows, keys[..n]), OrphanErrors(rows, keys[..n]);
      if g.payment.Some? {
        PaymentSum(ps, ParsedPayment(k.ref, k.date, g.payment.value, OrZero(g.interest), g.rows));
        assert es + [] == es;
      } else if g.interest.Some? {
        OrphanSum(rows, es, InterestWithoutPayment(FirstOf(g.rows), k));
        assert ps + [] == ps;
      } else {
        assert es + [] == es && ps + [] == ps;
      }
    }
  }

  lemma NoPayments(rows: seq<Row>)
    ensures SumAmounts([]) == 0 && SumInterests([]) == 0 && Reported(rows, []) == 0
  {
  }

  lemma PaymentSum(ps: seq<ParsedPayment>, p: ParsedPayment)
    ensures SumAmounts(ps + [p]) == SumAmounts(ps) + p.amount && SumInterests(ps + [p]) == SumInterests(ps) + p.interest
  {
  }

  lemma OrphanSum(rows: seq<Row>, es: seq<ParseError>, e: ParseError)
    requires e.InterestWithoutPayment?
    ensures Reported(rows, es + [e]) == Reported(rows, es) + OnKey(rows, e.key, Charged)
  {
  }

  lemma {:induction false} RowErrorsReportNoGroup(rows: seq<Row>, file: seq<Row>, more: seq<ParseError>)
    ensures Reported(file, RowErrors(rows) + more) == Reported(file, more)
    decreases |more|, |rows|
  {
    hide OnKey;
    var all := RowErrors(rows) + more;
    if more != [] {
      RowErrorsReportNoGroup(rows, file, more[..|more| - 1]);
      assert all[..|all| - 1] == RowErrors(rows) + more[..|more| - 1];
    } else if rows != [] {
      RowErrorsReportNoGroup(rows[..|rows| - 1], file, []);
      assert RowErrors(rows) + more == RowErrors(rows);
      assert RowErrors(rows[..|rows| - 1]) + [] == RowErrors(rows[..|rows| - 1]);
    }
  }

  // ---------- Order ----------

  lemma {:induction false} TextOrder(a: string, b: string)
    ensures TextBefore(a, b) || a == b || TextBefore(b, a)
    ensures !(TextBefore(a, b) && TextBefore(b, a))
    ensures TextBefore(a, b) ==> a != b
  {
    if a != "" && b != "" && a[0] == b[0] {
      TextOrder(a[1..], b[1..]);
      assert a == [a[0]] + a[1..] && b == [b[0]] + b[1..];
    }
  }

  /** One text comes before another if it continues a common beginning with a smaller character, or ends there. */
  lemma {:induction false} TextOrderIsLexicographic(a: string, b: string)
    ensures TextBefore(a, b) <==> exists i: nat :: FirstDifference(a, b, i)
  {
    if a != "" && b != "" && a[0] == b[0] {
      TextOrderIsLexicographic(a[1..], b[1..]);
      if i: nat :| FirstDifference(a[1..], b[1..], i) {
        assert a == [a[0]] + a[1..] && b == [b[0]] + b[1..];
        assert FirstDifference(a, b, i + 1);
      }
      if j: nat :| FirstDifference(a, b, j) {
        assert j > 0;
        assert a[1..][..j - 1] == a[..j][1..] && b[1..][..j - 1] == b[..j][1..];
        assert FirstDifference(a[1..], b[1..], j - 1);
      }
    } else {
      assert TextBefore(a, b) ==> FirstDifference(a, b, 0);
      forall j: nat | FirstDifference(a, b, j) {
        StartsAlike(a, b, j);
      }
    }
  }

  lemma StartsAlike(a: string, b: string, j: nat)
    requires FirstDifference(a, b, j)
    ensures j > 0 ==> a != "" && b != "" && a[0] == b[0]
  {
    assert j > 0 ==> a[..j][0] == b[..j][0];
  }

  predicate FirstDifference(a: string, b: string, i: nat) {
    i <= |a| && i < |b| && a[..i] == b[..i] && (i == |a| || a[i] < b[i])
  }

  lemma {:induction false} TextTransitive(a: string, b: string, c: string)
    requires TextBefore(a, b) && TextBefore(b, c)
    ensures TextBefore(a, c)
  {
    if a != "" && b != "" && c != "" && a[0] == b[0] && b[0] == c[0] {
      TextTransitive(a[1..], b[1..], c[1..]);
    }
  }

  lemma PaymentOrder(p: ParsedPayment, q: ParsedPayment, r: ParsedPayment)
    ensures PaymentBefore(p, q) || PaymentBefore(q, p) || (p.ref == q.ref && p.date == q.date)
    ensures PaymentBefore(p, q) && PaymentBefore(q, r) ==> PaymentBefore(p, r)
    ensures PaymentBefore(p, q) ==> !(p.ref == q.ref && p.date == q.date)
  {
    hide TextBefore;
    TextOrder(p.ref, q.ref);
    if TextBefore(p.ref, q.ref) && TextBefore(q.ref, r.ref) {
      TextTransitive(p.ref, q.ref, r.ref);
    }
  }

  predicate StrictlySorted(ps: seq<ParsedPayment>) {
    forall i, j :: 0 <= i < j < |ps| ==> PaymentBefore(ps[i], ps[j])
  }

  predicate SameKey(p: ParsedPayment, q: ParsedPayment) {
    p.ref == q.ref && p.date == q.date
  }

  lemma {:induction false} InsertIsStrict(ps: seq<ParsedPayment>, p: ParsedPayment)
    requires StrictlySorted(ps) && forall q <- ps :: !SameKey(q, p)
    ensures StrictlySorted(Insert(ps, p)) && multiset(Insert(ps, p)) == multiset(ps) + multiset{p}
  {
    hide PaymentBefore;
    if ps != [] {
      var init, last := ps[..|ps| - 1], ps[|ps| - 1];
      assert ps == init + [last];
      if PaymentBefore(p, last) {
        InsertIsStrict(init, p);
        AppendLast(ps, p, Insert(init, p));
      } else {
        assert !SameKey(last, p);
        PaymentOrder(p, last, p);
        forall q <- init {
          PaymentOrder(q, last, p);
        }
      }
    }
  }

  lemma AppendLast(ps: seq<ParsedPayment>, p: ParsedPayment, out: seq<ParsedPayment>)
    requires ps != [] && StrictlySorted(ps) && PaymentBefore(p, ps[|ps| - 1])
    requires StrictlySorted(out) && multiset(out) == multiset(ps[..|ps| - 1]) + multiset{p}
    ensures StrictlySorted(out + [ps[|ps| - 1]])
  {
    hide PaymentBefore;
    var init, last := ps[..|ps| - 1], ps[|ps| - 1];
    forall i | 0 <= i < |out|
      ensures PaymentBefore(out[i], last)
    {
      assert out[i] in multiset(out);
      if out[i] != p {
        assert out[i] in multiset(init);
        var j :| 0 <= j < |init| && init[j] == out[i];
        assert ps[j] == init[j];
      }
    }
  }

  predicate DistinctKeys(ps: seq<ParsedPayment>) {
    forall i, j :: 0 <= i < j < |ps| ==> !SameKey(ps[i], ps[j])
  }

  lemma {:induction false} SortIsStrict(ps: seq<ParsedPayment>)
    requires DistinctKeys(ps)
    ensures StrictlySorted(Sort(ps)) && multiset(Sort(ps)) == multiset(ps)
  {
    hide SameKey, Insert;
    if ps != [] {
      var init, p := ps[..|ps| - 1], ps[|ps| - 1];
      SortIsStrict(init);
      assert ps == init + [p];
      forall q <- Sort(init)
        ensures !SameKey(q, p)
      {
        assert q in multiset(Sort(init));
        assert q in init;
      }
      InsertIsStrict(Sort(init), p);
    }
  }

  lemma {:induction false} PaymentsHaveDistinctKeys(rows: seq<Row>, keys: seq<Key>)
    requires Unique(keys)
    ensures DistinctKeys(PaymentsOf(rows, keys))
    ensures forall p <- PaymentsOf(rows, keys) :: Key(p.ref, p.date) in keys
  {
    hide GroupAt;
    if keys != [] {
      var init := keys[..|keys| - 1];
      PaymentsHaveDistinctKeys(rows, init);
      assert keys == init + [keys[|keys| - 1]];
    }
  }

  /** The payments come out strictly ordered by reference and date: one per reference and date. */
  lemma OnePaymentPerReferenceAndDate(rows: seq<Row>)
    ensures var ps := LedgerOf(rows).payments;
      forall i, j :: 0 <= i < j < |ps| ==>
        && !SameKey(ps[i], ps[j])
        && (TextBefore(ps[i].ref, ps[j].ref) || (ps[i].ref == ps[j].ref && Calendar.Before(ps[i].date, ps[j].date)))
  {
    hide Keys, PaymentsOf, TextBefore, Sort, Accounts, RowErrors, OrphanErrors;
    KeysAreUnique(rows);
    PaymentsHaveDistinctKeys(rows, Keys(rows));
    SortIsStrict(PaymentsOf(rows, Keys(rows)));
    var ps := LedgerOf(rows).payments;
    forall i, j | 0 <= i < j < |ps|
      ensures !SameKey(ps[i], ps[j])
    {
      PaymentOrder(ps[i], ps[j], ps[j]);
    }
  }

  lemma {:induction false} SumsIgnoreOrder(ps: seq<ParsedPayment>, p: ParsedPayment)
    ensures SumAmounts(Insert(ps, p)) == SumAmounts(ps) + p.amount
    ensures SumInterests(Insert(ps, p)) == SumInterests(ps) + p.interest
  {
    hide PaymentBefore;
    if ps != [] && PaymentBefore(p, ps[|ps| - 1]) {
      var init := ps[..|ps| - 1];
      SumsIgnoreOrder(init, p);
      assert (Insert(init, p) + [ps[|ps| - 1]])[..|Insert(init, p)|] == Insert(init, p);
    } else {
      assert (ps + [p])[..|ps|] == ps;
    }
  }

  lemma {:induction false} SortKeepsSums(ps: seq<ParsedPayment>)
    ensures SumAmounts(Sort(ps)) == SumAmounts(ps) && SumInterests(Sort(ps)) == SumInterests(ps)
  {
    hide Insert;
    if ps != [] {
      SortKeepsSums(ps[..|ps| - 1]);
      SumsIgnoreOrder(Sort(ps[..|ps| - 1]), ps[|ps| - 1]);
    }
  }

  /** No money vanishes: the payments carry every accepted payment amount, and every accepted interest amount
      is either on a payment or in a group reported as an error. */
  lemma NoMoneyVanishes(rows: seq<Row>)
    ensures SumAmounts(LedgerOf(rows).payments) == InFile(rows, Paid)
    ensures SumInterests(LedgerOf(rows).payments) + Reported(rows, LedgerOf(rows).errors) == InFile(rows, Charged)
  {
    hide Keys, PaymentsOf, Sort, Accounts, RowErrors, OrphanErrors, Reported, InFile, OnKeys;
    SortKeepsSums(PaymentsOf(rows, Keys(rows)));
    SumsOfKeys(rows, Keys(rows));
    KeysPartitionTheFile(rows, Paid);
    KeysPartitionTheFile(rows, Charged);
    RowErrorsReportNoGroup(rows, rows, OrphanErrors(rows, Keys(rows)));
  }

  // ---------- Accounts and rows ----------

  /** Row i is the first valid disbursement of its reference. */
  predicate FirstDisbursement(rows: seq<Row>, i: nat) {
    i < |rows| && IsDisbursement(rows[i]) &&
    forall j :: 0 <= j < i && IsDisbursement(rows[j]) ==> rows[j].ref != rows[i].ref
  }

  lemma {:induction false} AccountForIsExact(accounts: seq<ParsedAccount>, ref: string)
    ensures AccountFor(accounts, ref).Some? <==> exists a :: a in accounts && a.ref == ref
    ensures AccountFor(accounts, ref).Some? ==>
      AccountFor(accounts, ref).value in accounts && AccountFor(accounts, ref).value.ref == ref
  {
    if accounts != [] {
      var init := accounts[..|accounts| - 1];
      AccountForIsExact(init, ref);
      assert accounts == init + [accounts[|accounts| - 1]];
    }
  }

  lemma {:induction false} AccountsHaveUniqueRefs(rows: seq<Row>)
    ensures UniqueRefs(Accounts(rows))
  {
    hide IsDisbursement, AccountFor;
    if rows != [] {
      var init, row := rows[..|rows| - 1], rows[|rows| - 1];
      AccountsHaveUniqueRefs(init);
      AccountForIsExact(Accounts(init), row.ref);
    }
  }

  lemma {:induction false} EveryDisbursementHasAnAccount(rows: seq<Row>, i: nat)
    requires i < |rows| && IsDisbursement(rows[i])
    ensures exists a :: a in Accounts(rows) && a.ref == rows[i].ref
  {
    hide IsDisbursement, AccountFor, NewAccount;
    var init, row := rows[..|rows| - 1], rows[|rows| - 1];
    if i < |init| {
      EveryDisbursementHasAnAccount(init, i);
      var a :| a in Accounts(init) && a.ref == init[i].ref;
      assert a in Accounts(rows);
    } else {
      AccountForIsExact(Accounts(init), row.ref);
      NewAccountRef(row, RowNumber(rows));
      if AccountFor(Accounts(init), row.ref).Some? {
        var a :| a in Accounts(init) && a.ref == row.ref;
        assert a in Accounts(rows);
      } else {
        assert NewAccount(row, RowNumber(rows)) in Accounts(rows);
      }
    }
  }

  lemma {:induction false} AccountsComeFromFirstRows(rows: seq<Row>, a: ParsedAccount)
    requires a in Accounts(rows)
    ensures a.rowNumber >= 2 && FirstDisbursement(rows, a.rowNumber - 2)
    ensures a == NewAccount(rows[a.rowNumber - 2], a.rowNumber)
  {
    hide IsDisbursement, AccountFor, NewAccount;
    var init, row := rows[..|rows| - 1], rows[|rows| - 1];
    if a in Accounts(init) {
      AccountsComeFromFirstRows(init, a);
    } else {
      NewAccountRef(row, RowNumber(rows));
      AccountForIsExact(Accounts(init), row.ref);
      forall j | 0 <= j < |init| && IsDisbursement(rows[j])
        ensures rows[j].ref != row.ref
      {
        assert init[j] == rows[j];
        EveryDisbursementHasAnAccount(init, j);
      }
    }
  }

  /** There is one account per reference that has a valid disbursement, with the amount, date and row of the
      first such row: what a commit requires of the parsed accounts. */
  lemma AccountsAreFirstDisbursements(rows: seq<Row>)
    ensures UniqueRefs(LedgerOf(rows).accounts)
    ensures forall a <- LedgerOf(rows).accounts ::
      && a.rowNumber >= 2 && FirstDisbursement(rows, a.rowNumber - 2)
      && AccountFields(rows[a.rowNumber - 2], a)
    ensures forall i :: 0 <= i < |rows| && IsDisbursement(rows[i]) ==>
      exists a :: a in LedgerOf(rows).accounts && a.ref == rows[i].ref
  {
    hide IsDisbursement, Accounts, NewAccount, FirstDisbursement, UniqueRefs;
    AccountsHaveUniqueRefs(rows);
    forall a <- Accounts(rows)
      ensures a.rowNumber >= 2 && FirstDisbursement(rows, a.rowNumber - 2)
      ensures a.rowNumber - 2 < |rows| && AccountFields(rows[a.rowNumber - 2], a)
    {
      AccountIsItsRow(rows, a);
    }
    forall i | 0 <= i < |rows| && IsDisbursement(rows[i])
      ensures exists a :: a in Accounts(rows) && a.ref == rows[i].ref
    {
      EveryDisbursementHasAnAccount(rows, i);
    }
  }

  predicate AccountFields(row: Row, a: ParsedAccount) {
    a.ref == row.ref && row.debit == Some(a.borrow) && row.date == Some(a.start) && a.rate == None
  }

  lemma AccountIsItsRow(rows: seq<Row>, a: ParsedAccount)
    requires a in Accounts(rows)
    ensures a.rowNumber >= 2 && a.rowNumber - 2 < |rows| && FirstDisbursement(rows, a.rowNumber - 2)
    ensures AccountFields(rows[a.rowNumber - 2], a)
  {
    hide Accounts;
    AccountsComeFromFirstRows(rows, a);
  }

  lemma NewAccountRef(row: Row, n: nat)
    requires IsDisbursement(row)
    ensures NewAccount(row, n).ref == row.ref && NewAccount(row, n).rowNumber == n
  {
  }

  /** How many accounts come from row n. */
  function AccountsFrom(accounts: seq<ParsedAccount>, n: nat): nat {
    if accounts == [] then 0
    else AccountsFrom(accounts[..|accounts| - 1], n) + (if accounts[|accounts| - 1].rowNumber == n then 1 else 0)
  }

  /** How many errors name row n as the rejected one. */
  function ErrorsAt(errors: seq<ParseError>, n: nat): nat {
    if errors == [] then 0
    else ErrorsAt(errors[..|errors| - 1], n) + (if Rejects(errors[|errors| - 1], n) then 1 else 0)
  }

  predicate Rejects(e: ParseError, n: nat) {
    !e.InterestWithoutPayment? && e.row == n
  }

  /** Row i, numbered i + 2, is the source of one account if it is the first disbursement of its reference, and
      of none otherwise; its amount is accepted if it is a payment or interest; and it is rejected by exactly
      one error if it is neither, and by none otherwise. */
  lemma {:induction false} EveryRowIsAccountedFor(rows: seq<Row>, i: nat)
    requires i < |rows|
    ensures AccountsFrom(LedgerOf(rows).accounts, i + 2) == if FirstDisbursement(rows, i) then 1 else 0
    ensures ErrorsAt(LedgerOf(rows).errors, i + 2) ==
      if FirstDisbursement(rows, i) || IsPayment(rows[i]) || IsInterest(rows[i]) then 0 else 1
    ensures !(IsPayment(rows[i]) && IsInterest(rows[i]))
    ensures FirstDisbursement(rows, i) ==> !IsPayment(rows[i]) && !IsInterest(rows[i])
  {
    hide Accounts, RowErrors, OrphanErrors, Sort, PaymentsOf, Keys, FirstDisbursement;
    RowIsAccountedFor(rows, i);
    OrphansRejectNoRow(rows, Keys(rows), i + 2);
    ErrorsAtAppend(RowErrors(rows), OrphanErrors(rows, Keys(rows)), i + 2);
    OneKind(rows, i);
  }

  lemma OneKind(rows: seq<Row>, i: nat)
    requires i < |rows|
    ensures FirstDisbursement(rows, i) ==> !IsPayment(rows[i]) && !IsInterest(rows[i])
  {
  }

  lemma {:induction false} RowIsAccountedFor(rows: seq<Row>, i: nat)
    requires i < |rows|
    ensures AccountsFrom(Accounts(rows), i + 2) == if FirstDisbursement(rows, i) then 1 else 0
    ensures ErrorsAt(RowErrors(rows), i + 2) ==
      if FirstDisbursement(rows, i) || IsPayment(rows[i]) || IsInterest(rows[i]) then 0 else 1
  {
    hide AccountFor, IsDisbursement, IsPayment, IsInterest, Accounts, RowErrors, FirstDisbursement;
    var n := |rows| - 1;
    var init, row := rows[..n], rows[n];
    LastRow(init, row, i + 2);
    if i < n {
      RowIsAccountedFor(init, i);
      SameFirst(rows, i);
    } else {
      NothingFromLaterRows(init, n + 2);
      FirstIfNoAccount(rows);
    }
    assert rows == init + [row];
  }

  /** What the last row adds. */
  lemma LastRow(rows: seq<Row>, row: Row, m: nat)
    ensures var more, n := rows + [row], |rows| + 2;
      var first := IsDisbursement(row) && AccountFor(Accounts(rows), row.ref).None?;
      && AccountsFrom(Accounts(more), m) == AccountsFrom(Accounts(rows), m) + (if first && m == n then 1 else 0)
      && ErrorsAt(RowErrors(more), m) == ErrorsAt(RowErrors(rows), m) +
         (if !first && !IsPayment(row) && !IsInterest(row) && m == n then 1 else 0)
  {
    hide AccountFor, IsDisbursement, IsPayment, IsInterest, NewAccount, Accounts, RowErrors, ErrorsAt, AccountsFrom,
      ErrorOf;
    var n := |rows| + 2;
    OneMoreRow(rows, row);
    ItsError(rows, row);
    var e := ErrorOf(Accounts(rows), row, n);
    if e.Some? {
      ErrorsAtOneMore(RowErrors(rows), e.value, m);
    } else {
      ErrorsAtOneMore(RowErrors(rows), NotRecognised(n), m);
    }
    if IsDisbursement(row) {
      NewAccountRef(row, n);
      AccountsFromOneMore(Accounts(rows), NewAccount(row, n), m);
    }
    assert Accounts(rows) + [] == Accounts(rows);
  }

  lemma ItsError(rows: seq<Row>, row: Row)
    ensures var e := ErrorOf(Accounts(rows), row, |rows| + 2);
      var first := IsDisbursement(row) && AccountFor(Accounts(rows), row.ref).None?;
      && (e.None? <==> first || IsPayment(row) || IsInterest(row))
      && (e.Some? ==> forall m: nat :: Rejects(e.value, m) <==> m == |rows| + 2)
  {
    hide AccountFor, Accounts;
  }

  lemma SameFirst(rows: seq<Row>, i: nat)
    requires i < |rows| - 1
    ensures FirstDisbursement(rows[..|rows| - 1], i) == FirstDisbursement(rows, i)
  {
    hide IsDisbursement;
    var init := rows[..|rows| - 1];
    assert forall j :: 0 <= j <= i ==> init[j] == rows[j];
  }

  lemma {:induction false} NothingFromLaterRows(rows: seq<Row>, n: nat)
    requires n > RowNumber(rows)
    ensures AccountsFrom(Accounts(rows), n) == 0 && ErrorsAt(RowErrors(rows), n) == 0
  {
    hide AccountFor, IsDisbursement, IsPayment, IsInterest, Accounts, RowErrors;
    if rows == [] {
      NoErrors(n);
      NoRows();
    } else {
      var init := rows[..|rows| - 1];
      NothingFromLaterRows(init, n);
      LastRow(init, rows[|rows| - 1], n);
      assert rows == init + [rows[|rows| - 1]];
    }
  }

  /** The accounts before a disbursement decide whether it is the first of its reference. */
  lemma FirstIfNoAccount(rows: seq<Row>)
    requires rows != []
    ensures var n := |rows| - 1;
      FirstDisbursement(rows, n) <==> IsDisbursement(rows[n]) && AccountFor(Accounts(rows[..n]), rows[n].ref).None?
  {
    hide IsDisbursement, Accounts, AccountFor, NewAccount;
    var n := |rows| - 1;
    var init := rows[..n];
    AccountForIsExact(Accounts(init), rows[n].ref);
    AccountsAreFirstDisbursements(init);
    if AccountFor(Accounts(init), rows[n].ref).Some? {
      var a := AccountFor(Accounts(init), rows[n].ref).value;
      NewAccountRef(init[a.rowNumber - 2], a.rowNumber);
      assert init[a.rowNumber - 2] == rows[a.rowNumber - 2];
    } else {
      forall j | 0 <= j < n && IsDisbursement(rows[j])
        ensures rows[j].ref != rows[n].ref
      {
        assert init[j] == rows[j];
      }
    }
  }

  lemma {:induction false} OrphansRejectNoRow(rows: seq<Row>, keys: seq<Key>, n: nat)
    ensures ErrorsAt(OrphanErrors(rows, keys), n) == 0
  {
    hide GroupAt, OrphanErrors, ErrorsAt;
    if keys == [] {
      NoKeys(rows);
      NoErrors(n);
    } else {
      var m := |keys| - 1;
      OrphansRejectNoRow(rows, keys[..m], n);
      OneMoreKey(rows, keys, m);
      assert keys[..m + 1] == keys;
      ErrorsAtOneMore(OrphanErrors(rows, keys[..m]),
        InterestWithoutPayment(FirstOf(GroupAt(rows, keys[m]).rows), keys[m]), n);
    }
  }

  lemma NoErrors(n: nat)
    ensures ErrorsAt([], n) == 0
  {
  }

  lemma ErrorsAtOneMore(xs: seq<ParseError>, e: ParseError, n: nat)
    ensures ErrorsAt(xs + [], n) == ErrorsAt(xs, n)
    ensures ErrorsAt(xs + [e], n) == ErrorsAt(xs, n) + (if Rejects(e, n) then 1 else 0)
  {
    assert xs + [] == xs;
  }

  lemma AccountsFromOneMore(xs: seq<ParsedAccount>, a: ParsedAccount, n: nat)
    ensures AccountsFrom(xs + [a], n) == AccountsFrom(xs, n) + (if a.rowNumber == n then 1 else 0)
  {
  }

  lemma {:induction false} ErrorsAtAppend(xs: seq<ParseError>, ys: seq<ParseError>, n: nat)
    ensures ErrorsAt(xs + ys, n) == ErrorsAt(xs, n) + ErrorsAt(ys, n)
  {
    if ys == [] {
      assert xs + ys == xs;
    } else {
      ErrorsAtAppend(xs, ys[..|ys| - 1], n);
      assert (xs + ys)[..|xs + ys| - 1] == xs + ys[..|ys| - 1];
    }
  }
}
