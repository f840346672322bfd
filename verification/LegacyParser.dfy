/** The parser of the external ledger CSV: classified rows are grouped by reference and date, amounts of the
    same kind accumulate, and everything that is not accepted is reported as an error. */
module LegacyParser {
  import opened Options
  import opened Calendar
  import opened Imports

  datatype RowKind = Disbursement | InterestRow | PaymentRow | Unrecognised

  /** One CSV row with its reference trimmed, its date and amounts parsed and its description classified. */
  datatype Row = Row(ref: string, date: Option<Day>, kind: RowKind, debit: Option<int>, credit: Option<int>)

  datatype Key = Key(ref: string, date: Day)

  datatype Group = Group(interest: Option<int>, payment: Option<int>, rows: seq<nat>)

  datatype ParseError =
    | NoReference(row: nat) | BadDate(row: nat) | NoAmount(row: nat) | NotRecognised(row: nat)
    | DuplicateDisbursement(row: nat, first: nat) | InterestWithoutPayment(firstRow: Option<nat>, key: Key)

  datatype ParsedLedger = ParsedLedger(accounts: seq<ParsedAccount>, payments: seq<ParsedPayment>,
      errors: seq<ParseError>)

  const EMPTY := Group(None, None, [])

  // ---------- What the rows say ----------

  predicate Placed(row: Row) {
    row.ref != "" && row.date.Some?
  }

  function KeyOf(row: Row): Key
    requires Placed(row)
  {
    Key(row.ref, row.date.value)
  }

  predicate IsPayment(row: Row) {
    Placed(row) && row.kind.PaymentRow? && row.credit.Some?
  }

  predicate IsInterest(row: Row) {
    Placed(row) && row.kind.InterestRow? && row.debit.Some?
  }

  predicate IsDisbursement(row: Row) {
    Placed(row) && row.kind.Disbursement? && row.debit.Some?
  }

  function Plus(sum: Option<int>, amount: int): Option<int> {
    Some((if sum.Some? then sum.value else 0) + amount)
  }

  function OrZero(sum: Option<int>): int {
    if sum.Some? then sum.value else 0
  }

  /** The number of the last row of a file with these data rows; the header is row 1. */
  function RowNumber(rows: seq<Row>): nat {
    |rows| + 1
  }

  function AddRow(g: Group, row: Row, n: nat): Group {
    Group(if IsInterest(row) then Plus(g.interest, row.debit.value) else g.interest,
          if IsPayment(row) then Plus(g.payment, row.credit.value) else g.payment,
          g.rows + [n])
  }

  function GroupAt(rows: seq<Row>, k: Key): Group {
    if rows == [] then EMPTY
    else
      var g, last := GroupAt(rows[..|rows| - 1], k), rows[|rows| - 1];
      if Placed(last) && KeyOf(last) == k then AddRow(g, last, RowNumber(rows)) else g
  }

  /** The keys in order of first appearance. */
  function Keys(rows: seq<Row>): seq<Key> {
    if rows == [] then []
    else
      var before, last := Keys(rows[..|rows| - 1]), rows[|rows| - 1];
      if Placed(last) && KeyOf(last) !in before then before + [KeyOf(last)] else before
  }

  function NewAccount(row: Row, n: nat): ParsedAccount
    requires IsDisbursement(row)
  {
    ParsedAccount(row.ref, row.debit.value, row.date.value, None, n)
  }

  function AccountFor(accounts: seq<ParsedAccount>, ref: string): Option<ParsedAccount> {
    if accounts == [] then None
    else if accounts[|accounts| - 1].ref == ref then Some(accounts[|accounts| - 1])
    else AccountFor(accounts[..|accounts| - 1], ref)
  }

  /** The first valid disbursement of each reference. */
  function Accounts(rows: seq<Row>): seq<ParsedAccount> {
    if rows == [] then []
    else
      var before, last := Accounts(rows[..|rows| - 1]), rows[|rows| - 1];
      if IsDisbursement(last) && AccountFor(before, last.ref).None?
      then before + [NewAccount(last, RowNumber(rows))] else before
  }

  /** The error of one row, given the accounts found before it. */
  function ErrorOf(accounts: seq<ParsedAccount>, row: Row, n: nat): Option<ParseError> {
    if row.ref == "" then Some(NoReference(n))
    else if row.date.None? then Some(BadDate(n))
    else
      match row.kind
      case Disbursement =>
        if row.debit.None? then Some(NoAmount(n))
        else
          var first := AccountFor(accounts, row.ref);
          if first.Some? then Some(DuplicateDisbursement(n, first.value.rowNumber)) else None
      case InterestRow => if row.debit.None? then Some(NoAmount(n)) else None
      case PaymentRow => if row.credit.None? then Some(NoAmount(n)) else None
      case Unrecognised => Some(NotRecognised(n))
  }

  function RowErrors(rows: seq<Row>): seq<ParseError> {
    if rows == [] then []
    else
      var init := rows[..|rows| - 1];
      var e := ErrorOf(Accounts(init), rows[|rows| - 1], RowNumber(rows));
      RowErrors(init) + (if e.Some? then [e.value] else [])
  }

  function FirstOf(rows: seq<nat>): Option<nat> {
    if rows == [] then None else Some(rows[0])
  }

  function OrphanErrors(rows: seq<Row>, keys: seq<Key>): seq<ParseError> {
    if keys == [] then []
    else
      var k := keys[|keys| - 1];
      var g := GroupAt(rows, k);
      OrphanErrors(rows, keys[..|keys| - 1]) +
      (if g.payment.None? && g.interest.Some? then [InterestWithoutPayment(FirstOf(g.rows), k)] else [])
  }

  function PaymentsOf(rows: seq<Row>, keys: seq<Key>): seq<ParsedPayment> {
    if keys == [] then []
    else
      var k := keys[|keys| - 1];
      var g := GroupAt(rows, k);
      PaymentsOf(rows, keys[..|keys| - 1]) +
      (if g.payment.Some? then [ParsedPayment(k.ref, k.date, g.payment.value, OrZero(g.interest), g.rows)] else [])
  }

  // ---------- Order of the result: by reference, then by date ----------

  /** String comparison, character by character. */
  predicate TextBefore(a: string, b: string) {
    b != "" && (a == "" || a[0] < b[0] || (a[0] == b[0] && TextBefore(a[1..], b[1..])))
  }

  predicate PaymentBefore(p: ParsedPayment, q: ParsedPayment) {
    TextBefore(p.ref, q.ref) || (p.ref == q.ref && Before(p.date, q.date))
  }

  function Insert(ps: seq<ParsedPayment>, p: ParsedPayment): seq<ParsedPayment> {
    if ps != [] && PaymentBefore(p, ps[|ps| - 1]) then Insert(ps[..|ps| - 1], p) + [ps[|ps| - 1]] else ps + [p]
  }

  function Sort(ps: seq<ParsedPayment>): seq<ParsedPayment> {
    if ps == [] then [] else Insert(Sort(ps[..|ps| - 1]), ps[|ps| - 1])
  }

  function LedgerOf(rows: seq<Row>): ParsedLedger {
    ParsedLedger(Accounts(rows), Sort(PaymentsOf(rows, Keys(rows))), RowErrors(rows) + OrphanErrors(rows, Keys(rows)))
  }

  // ---------- The parser ----------

  method Parse(rows: seq<Row>) returns (ledger: ParsedLedger)
    ensures ledger == LedgerOf(rows)
  {
    hide Keys, GroupAt, Accounts, RowErrors, Sort, PaymentsOf, OrphanErrors, Grouped, AccountFor;
    var errors: seq<ParseError>, disbursements: seq<ParsedAccount> := [], [];
    var order: seq<Key>, groups: map<Key, Group> := [], map[];
    NoRows();
    assert rows[..0] == [];
    for i := 0 to |rows|
      invariant order == Keys(rows[..i]) && Grouped(rows[..i], order, groups)
      invariant disbursements == Accounts(rows[..i]) && errors == RowErrors(rows[..i])
    {
      var row, n := rows[i], i + 2;
      ghost var was := groups;
      OneMoreRow(rows[..i], row);
      GroupsOneMore(rows[..i], row, order, groups);
      assert rows[..i + 1] == rows[..i] + [row];
      if row.ref == "" {
        errors := errors + [NoReference(n)];
        continue;
      }
      if row.date.None? {
        errors := errors + [BadDate(n)];
        continue;
      }
      var key := KeyOf(row);
      if key !in groups {
        order := order + [key];
        groups := groups[key := EMPTY];
      }
      var info := groups[key];
      info := info.(rows := info.rows + [n]);
      match row.kind {
        case Disbursement =>
          if row.debit.None? {
            errors := errors + [NoAmount(n)];
          } else {
            var first := AccountFor(disbursements, row.ref);
            if first.Some? {
              errors := errors + [DuplicateDisbursement(n, first.value.rowNumber)];
            } else {
              disbursements := disbursements + [ParsedAccount(row.ref, row.debit.value, row.date.value, None, n)];
            }
          }
        case InterestRow =>
          if row.debit.None? {
            errors := errors + [NoAmount(n)];
          } else {
            info := info.(interest := Plus(info.interest, row.debit.value));
          }
        case PaymentRow =>
          if row.credit.None? {
            errors := errors + [NoAmount(n)];
          } else {
            info := info.(payment := Plus(info.payment, row.credit.value));
          }
        case Unrecognised =>
          errors := errors + [NotRecognised(n)];
      }
      groups := groups[key := info];
      assert groups == was[key := info];
    }
    assert rows[..|rows|] == rows;
    GroupsOfKeys(rows, order, groups);
    var payments: seq<ParsedPayment> := [];
    NoKeys(rows);
    for i := 0 to |order|
      invariant payments == PaymentsOf(rows, order[..i])
      invariant errors == RowErrors(rows) + OrphanErrors(rows, order[..i])
    {
      var k := order[i];
      OneMoreKey(rows, order, i);
      var info := groups[k];
      if info.payment.None? {
        if info.interest.Some? {
          errors := errors + [InterestWithoutPayment(FirstOf(info.rows), k)];
        }
        continue;
      }
      payments := payments + [ParsedPayment(k.ref, k.date, info.payment.value, OrZero(info.interest), info.rows)];
    }
    assert order[..|order|] == order;
    ledger := ParsedLedger(disbursements, Sort(payments), errors);
  }

  ghost predicate Grouped(rows: seq<Row>, order: seq<Key>, groups: map<Key, Group>) {
    (forall k :: k in order <==> k in groups) && (forall k :: k in groups ==> groups[k] == GroupAt(rows, k))
  }

  lemma NoRows()
    ensures Keys([]) == [] && Grouped([], [], map[]) && Accounts([]) == [] && RowErrors([]) == []
  {
  }

  lemma NoKeys(rows: seq<Row>)
    ensures PaymentsOf(rows, []) == [] && OrphanErrors(rows, []) == []
  {
  }

  lemma GroupsOfKeys(rows: seq<Row>, order: seq<Key>, groups: map<Key, Group>)
    requires Grouped(rows, order, groups)
    ensures forall k <- order :: k in groups && groups[k] == GroupAt(rows, k)
  {
  }

  lemma {:induction false} NoGroup(rows: seq<Row>, k: Key)
    requires k !in Keys(rows)
    ensures GroupAt(rows, k) == EMPTY
  {
    if rows != [] {
      NoGroup(rows[..|rows| - 1], k);
    }
  }

  /** What one more row does to the errors, the accounts and the keys. */
  lemma OneMoreRow(rows: seq<Row>, row: Row)
    ensures var e := ErrorOf(Accounts(rows), row, |rows| + 2);
      RowErrors(rows + [row]) == RowErrors(rows) + (if e.Some? then [e.value] else [])
    ensures Accounts(rows + [row]) == Accounts(rows) +
      (if IsDisbursement(row) && AccountFor(Accounts(rows), row.ref).None? then [NewAccount(row, |rows| + 2)] else [])
    ensures Keys(rows + [row]) == Keys(rows) + (if Placed(row) && KeyOf(row) !in Keys(rows) then [KeyOf(row)] else [])
  {
    hide ErrorOf, AccountFor;
    var more := rows + [row];
    assert more[..|more| - 1] == rows;
    assert Accounts(rows) + [] == Accounts(rows) && Keys(rows) + [] == Keys(rows);
  }

  /** What it does to the groups. */
  lemma GroupsOneMore(rows: seq<Row>, row: Row, order: seq<Key>, groups: map<Key, Group>)
    requires order == Keys(rows) && Grouped(rows, order, groups)
    ensures !Placed(row) ==> Grouped(rows + [row], order, groups)
    ensures Placed(row) ==>
      var k := KeyOf(row);
      && (k in order <==> k in groups)
      && Grouped(rows + [row], if k in groups then order else order + [k],
                 groups[k := AddRow(if k in groups then groups[k] else EMPTY, row, |rows| + 2)])
  {
    hide AddRow, Keys, GroupAt;
    forall k: Key
      ensures GroupAt(rows + [row], k) ==
        if Placed(row) && KeyOf(row) == k then AddRow(GroupAt(rows, k), row, |rows| + 2) else GroupAt(rows, k)
    {
      GroupOneMore(rows, row, k);
    }
    if Placed(row) && KeyOf(row) !in groups {
      NoGroup(rows, KeyOf(row));
    }
  }

  lemma GroupOneMore(rows: seq<Row>, row: Row, k: Key)
    ensures GroupAt(rows + [row], k) ==
      if Placed(row) && KeyOf(row) == k then AddRow(GroupAt(rows, k), row, |rows| + 2) else GroupAt(rows, k)
  {
  }

  lemma OneMoreKey(rows: seq<Row>, keys: seq<Key>, i: nat)
    requires i < |keys|
    ensures var k := keys[i];
      var g := GroupAt(rows, k);
      && PaymentsOf(rows, keys[..i + 1]) == PaymentsOf(rows, keys[..i]) +
         (if g.payment.Some? then [ParsedPayment(k.ref, k.date, g.payment.value, OrZero(g.interest), g.rows)] else [])
      && OrphanErrors(rows, keys[..i + 1]) == OrphanErrors(rows, keys[..i]) +
         (if g.payment.None? && g.interest.Some? then [InterestWithoutPayment(FirstOf(g.rows), k)] else [])
  {
    hide GroupAt;
    assert keys[..i + 1][..i] == keys[..i];
  }
}
