/**
 * The business rules of src/business_rules.py, applied to cleaned tables:
 * sign/type coherence of amounts, balances recomputed from transactions, the
 * high-risk alert built through two left merges, the removal of transactions
 * of closed accounts, and the size bands of amounts.
 *
 * A column the source adds to a table (`recalculated_balance`,
 * `customer_id`/`risk_segment`/`high_risk_alert`, `transaction_size`) is
 * modelled by a row type that wraps the original row with the new columns.
 */
module BusinessRules {
  import opened Cells
  import opened Frames
  import opened Tables

  // ---------------------------------------------------------------------------
  // Sign coherence (src/business_rules.py:6-18)

  /** `Series.abs()` on one cell of a float column; NaN stays NaN. */
  function AbsCell(c: Cell): (r: Cell)
    ensures IsNumeric(c) ==> IsNumeric(r) && (r.Null? <==> c.Null?)
    ensures c.Number? ==> r.Number? && r.number.Value() == if c.number.Value() < 0.0 then -c.number.Value() else c.number.Value()
  {
    match c
    case Number(d) => AbsValue(d); Number(d.Abs())
    case _ => c
  }

  /** Unary minus on one cell of a float column; NaN stays NaN. */
  function NegateCell(c: Cell): Cell
  {
    match c
    case Number(d) => Number(Decimal(-d.units, d.scale))
    case _ => c
  }

  /** src/business_rules.py:10-12: a debit amount becomes minus its absolute value. */
  function EnforceDebitSign(x: Transaction): Transaction
  {
    if IsText(x.transactionType, "debit") then x.(amount := NegateCell(AbsCell(x.amount))) else x
  }

  /** src/business_rules.py:14-16: a credit amount becomes its absolute value. */
  function EnforceCreditSign(x: Transaction): Transaction
  {
    if IsText(x.transactionType, "credit") then x.(amount := AbsCell(x.amount)) else x
  }

  /** Both assignments of `enforce_transaction_sign` on one row. */
  function EnforceSign(x: Transaction): Transaction
  {
    EnforceCreditSign(EnforceDebitSign(x))
  }

  /** The rows whose amount the two `abs()` calls read: those are numbers or NaN. */
  predicate SignableAmounts(t: seq<Transaction>)
  {
    forall i :: 0 <= i < |t| ==>
      (IsText(t[i].transactionType, "debit") || IsText(t[i].transactionType, "credit")) ==> IsNumeric(t[i].amount)
  }

  /** A sign/type mismatch: a positive debit or a negative credit (src/validation.py:27-32). */
  predicate SignMismatch(x: Transaction)
    requires IsNumeric(x.amount)
  {
    (IsText(x.transactionType, "debit") && Above(x.amount, 0.0))
    || (IsText(x.transactionType, "credit") && Below(x.amount, 0.0))
  }

  /**
   * What `enforce_transaction_sign` promises of one row: only the amount
   * changes; its absolute value is kept; a debit ends up at or below zero and
   * a credit at or above; a row with a null amount or a type other than debit
   * and credit is untouched.
   */
  lemma EnforceSignSpec(x: Transaction)
    ensures EnforceSign(x) == x.(amount := EnforceSign(x).amount)
    ensures AbsCell(EnforceSign(x).amount) == AbsCell(x.amount)
    ensures IsNumeric(x.amount) ==> IsNumeric(EnforceSign(x).amount)
    ensures x.amount.Null? ==> EnforceSign(x) == x
    ensures !IsText(x.transactionType, "debit") && !IsText(x.transactionType, "credit") ==> EnforceSign(x) == x
    ensures IsText(x.transactionType, "debit") && x.amount.Number? ==>
              EnforceSign(x).amount.Number? && EnforceSign(x).amount.number.Value() <= 0.0
    ensures IsText(x.transactionType, "credit") && x.amount.Number? ==>
              EnforceSign(x).amount.Number? && EnforceSign(x).amount.number.Value() >= 0.0
  {
    if x.amount.Number? {
      var d := x.amount.number;
      ValueSign(d);
      ValueSign(d.Abs());
      ValueSign(Decimal(-d.Abs().units, d.scale));
    }
  }

  /**
   * On a row with a numeric amount, enforcing the sign changes nothing
   * exactly when the row has no sign/type mismatch.
   */
  lemma EnforceSignFixesExactlyCoherentRows(x: Transaction)
    requires IsNumeric(x.amount)
    ensures EnforceSign(x) == x <==> !SignMismatch(x)
  {
    if x.amount.Number? {
      var d := x.amount.number;
      ValueSign(d);
      if IsText(x.transactionType, "debit") {
        assert EnforceSign(x).amount == Number(Decimal(-d.Abs().units, d.scale));
      } else if IsText(x.transactionType, "credit") {
        assert EnforceSign(x).amount == Number(d.Abs());
      }
    }
  }

  /** After enforcement no row has a sign/type mismatch. */
  lemma EnforceSignRemovesMismatch(x: Transaction)
    requires IsNumeric(x.amount)
    ensures IsNumeric(EnforceSign(x).amount)
    ensures !SignMismatch(EnforceSign(x))
  {
    EnforceSignSpec(x);
    var y := EnforceSign(x);
    if y.amount.Number? {
      ValueSign(y.amount.number);
    }
  }

  /** `enforce_transaction_sign` is idempotent. */
  lemma EnforceSignIdempotent(x: Transaction)
    requires IsNumeric(x.amount)
    ensures EnforceSign(EnforceSign(x)) == EnforceSign(x)
  {
    EnforceSignRemovesMismatch(x);
    EnforceSignFixesExactlyCoherentRows(EnforceSign(x));
  }

  /** `enforce_transaction_sign` on a whole table. */
  function SignEnforced(t: seq<Transaction>): (r: seq<Transaction>)
    requires SignableAmounts(t)
    ensures |r| == |t|
    ensures NumericAmounts(t) ==> NumericAmounts(r)
    ensures forall i :: 0 <= i < |t| ==> r[i] == t[i].(amount := r[i].amount)
    ensures forall i :: 0 <= i < |t| ==> AbsCell(r[i].amount) == AbsCell(t[i].amount)
    ensures forall i :: 0 <= i < |t| && IsNumeric(t[i].amount) ==> IsNumeric(r[i].amount) && !SignMismatch(r[i])
    ensures forall i :: 0 <= i < |t| && (t[i].amount.Null? || (!IsText(t[i].transactionType, "debit") && !IsText(t[i].transactionType, "credit")))
              ==> r[i] == t[i]
    ensures forall i :: 0 <= i < |t| && IsText(t[i].transactionType, "debit") && t[i].amount.Number? ==>
              r[i].amount.Number? && r[i].amount.number.Value() <= 0.0
    ensures forall i :: 0 <= i < |t| && IsText(t[i].transactionType, "credit") && t[i].amount.Number? ==>
              r[i].amount.Number? && r[i].amount.number.Value() >= 0.0
    ensures forall i :: 0 <= i < |t| ==> r[i] == EnforceSign(t[i])
  {
    var r := MapRows(t, EnforceSign);
    forall i | 0 <= i < |t|
      ensures r[i] == t[i].(amount := r[i].amount)
      ensures AbsCell(r[i].amount) == AbsCell(t[i].amount)
      ensures IsNumeric(t[i].amount) ==> IsNumeric(r[i].amount) && !SignMismatch(r[i])
      ensures t[i].amount.Null? || (!IsText(t[i].transactionType, "debit") && !IsText(t[i].transactionType, "credit")) ==> r[i] == t[i]
      ensures IsText(t[i].transactionType, "debit") && t[i].amount.Number? ==>
                r[i].amount.Number? && r[i].amount.number.Value() <= 0.0
      ensures IsText(t[i].transactionType, "credit") && t[i].amount.Number? ==>
                r[i].amount.Number? && r[i].amount.number.Value() >= 0.0
    {
      EnforceSignSpec(t[i]);
      if IsNumeric(t[i].amount) {
        EnforceSignRemovesMismatch(t[i]);
      }
    }
    r
  }

  /** `enforce_transaction_sign` twice is `enforce_transaction_sign` once. */
  lemma SignEnforcedIdempotent(t: seq<Transaction>)
    requires NumericAmounts(t)
    ensures SignEnforced(SignEnforced(t)) == SignEnforced(t)
  {
    var r := SignEnforced(t);
    forall i | 0 <= i < |t| ensures SignEnforced(r)[i] == r[i] {
      EnforceSignIdempotent(t[i]);
    }
  }

  /**
   * `enforce_transaction_sign`: on a copy of the table, the debit amounts are
   * overwritten, then the credit amounts.
   */
  method EnforceTransactionSign(t: seq<Transaction>) returns (r: seq<Transaction>)
    requires SignableAmounts(t)
    ensures r == SignEnforced(t)
  {
    var df := new Transaction[|t|](i requires 0 <= i < |t| => t[i]);
    ghost var s0 := df[..];
    AssignColumn(df, EnforceDebitSign);
    AssignColumn(df, EnforceCreditSign);
    r := df[..];
    assert s0 == t;
  }

  // ---------------------------------------------------------------------------
  // Recomputed balances (src/business_rules.py:21-44)

  /** The part of one transaction in the balance of account `id`: its amount, or 0 when NaN. */
  function AmountFor(x: Transaction, id: Cell): real
  {
    if x.accountId == id && x.amount.Number? then x.amount.number.Value() else 0.0
  }

  /** `groupby("account_id")["amount"].sum()` for the group `id`: NaN amounts are skipped. */
  function AmountSum(t: seq<Transaction>, id: Cell): real
  {
    if t == [] then 0.0 else AmountSum(t[..|t| - 1], id) + AmountFor(t[|t| - 1], id)
  }

  /**
   * The balance the left merge and `fillna(0)` give account `id`: its group
   * sum, and 0 for an account with no transactions or a NaN id (groupby
   * drops NaN keys).
   */
  function BalanceFor(t: seq<Transaction>, id: Cell): real
  {
    if id.Null? then 0.0 else AmountSum(t, id)
  }

  /** An account row with the added `recalculated_balance` column. */
  datatype BalancedAccount = BalancedAccount(account: Account, recalculatedBalance: real)

  /** The sum over an account with no transaction is 0. */
  lemma {:induction false} AmountSumAbsent(t: seq<Transaction>, id: Cell)
    requires id !in KeySet(t, TransactionAccount)
    ensures AmountSum(t, id) == 0.0
  {
    if t != [] {
      var init := t[..|t| - 1];
      assert t == init + [t[|t| - 1]];
      KeySetSnoc(init, t[|t| - 1], TransactionAccount);
      AmountSumAbsent(init, id);
    }
  }

  /** Group sums add up over a table split in two. */
  lemma {:induction false} AmountSumAppend(t1: seq<Transaction>, t2: seq<Transaction>, id: Cell)
    ensures AmountSum(t1 + t2, id) == AmountSum(t1, id) + AmountSum(t2, id)
    decreases |t2|
  {
    if t2 == [] {
      assert t1 + t2 == t1;
    } else {
      var init := t2[..|t2| - 1];
      assert (t1 + t2)[..|t1 + t2| - 1] == t1 + init;
      assert (t1 + t2)[|t1 + t2| - 1] == t2[|t2| - 1];
      AmountSumAppend(t1, init, id);
    }
  }

  /** `recalculate_account_balance`. */
  function RecalculateAccountBalance(accounts: seq<Account>, t: seq<Transaction>): (r: seq<BalancedAccount>)
    requires NumericAmounts(t)
    ensures |r| == |accounts|
    ensures forall i :: 0 <= i < |accounts| ==> r[i].account == accounts[i]
    ensures forall i :: 0 <= i < |accounts| && accounts[i].accountId.Null? ==> r[i].recalculatedBalance == 0.0
    ensures forall i :: 0 <= i < |accounts| && accounts[i].accountId !in KeySet(t, TransactionAccount) ==>
              r[i].recalculatedBalance == 0.0
    ensures forall i :: 0 <= i < |accounts| && !accounts[i].accountId.Null? ==>
              r[i].recalculatedBalance == AmountSum(t, accounts[i].accountId)
  {
    forall i | 0 <= i < |accounts| && accounts[i].accountId !in KeySet(t, TransactionAccount)
      ensures BalanceFor(t, accounts[i].accountId) == 0.0
    {
      AmountSumAbsent(t, accounts[i].accountId);
    }
    MapRows(accounts, (a: Account) => BalancedAccount(a, BalanceFor(t, a.accountId)))
  }

  /** The amounts of the transactions whose account is one of `ids`. */
  function AmountSumIn(t: seq<Transaction>, ids: set<Cell>): real
  {
    if t == [] then 0.0
    else
      var x := t[|t| - 1];
      AmountSumIn(t[..|t| - 1], ids) + (if x.accountId in ids && x.amount.Number? then x.amount.number.Value() else 0.0)
  }

  lemma {:induction false} AmountSumInAdd(t: seq<Transaction>, ids: set<Cell>, k: Cell)
    requires k !in ids
    ensures AmountSumIn(t, ids + {k}) == AmountSumIn(t, ids) + AmountSum(t, k)
  {
    if t != [] {
      AmountSumInAdd(t[..|t| - 1], ids, k);
    }
  }

  lemma {:induction false} AmountSumInNone(t: seq<Transaction>)
    ensures AmountSumIn(t, {}) == 0.0
  {
    if t != [] {
      AmountSumInNone(t[..|t| - 1]);
    }
  }

  /** The sum of the `recalculated_balance` column. */
  function TotalRecalculated(r: seq<BalancedAccount>): real
  {
    if r == [] then 0.0 else TotalRecalculated(r[..|r| - 1]) + r[|r| - 1].recalculatedBalance
  }

  /**
   * Reconciliation: when account ids are unique and not null, the recomputed
   * balances add up to the amounts of exactly the transactions that belong to
   * one of the accounts; orphan transactions count nowhere.
   */
  lemma {:induction false} BalancesReconcile(accounts: seq<Account>, t: seq<Transaction>)
    requires NumericAmounts(t)
    requires UniqueKeys(accounts, AccountKey)
    requires Null !in KeySet(accounts, AccountKey)
    ensures TotalRecalculated(RecalculateAccountBalance(accounts, t)) == AmountSumIn(t, KeySet(accounts, AccountKey))
  {
    if accounts == [] {
      AmountSumInNone(t);
      assert KeySet(accounts, AccountKey) == {};
    } else {
      var init, last := accounts[..|accounts| - 1], accounts[|accounts| - 1];
      assert accounts == init + [last];
      KeySetSnoc(init, last, AccountKey);
      UniqueKeysSnoc(init, last, AccountKey);
      BalancesReconcile(init, t);
      var r := RecalculateAccountBalance(accounts, t);
      assert r[..|r| - 1] == RecalculateAccountBalance(init, t);
      AmountSumInAdd(t, KeySet(init, AccountKey), last.accountId);
    }
  }

  // ---------------------------------------------------------------------------
  // High-risk alert (src/business_rules.py:47-74)

  /** The default `threshold` of `flag_high_risk_large_transactions`. */
  const AlertThreshold: real := 50000.0

  /** A transaction row with the columns the two merges and the alert add. */
  datatype FlaggedTransaction = FlaggedTransaction(
    txn: Transaction,
    customerId: Cell,
    riskSegment: Cell,
    highRiskAlert: bool)

  /** The first merge: the `customer_id` of the account, or NaN without one. */
  function JoinedCustomer(accounts: seq<Account>, accountId: Cell): Cell
  {
    match Lookup(accounts, AccountKey, accountId)
    case Some(a) => a.customerId
    case None => Null
  }

  /** The second merge: the `risk_segment` of the customer, or NaN without one. */
  function JoinedSegment(customers: seq<Customer>, customerId: Cell): Cell
  {
    match Lookup(customers, CustomerKey, customerId)
    case Some(c) => c.riskSegment
    case None => Null
  }

  /** `is_fraud_flag == 0`: only a number equal to zero; NaN compares false. */
  predicate FraudFlagIsZero(c: Cell)
  {
    c.Number? && c.number.Value() == 0.0
  }

  /** The alert expression of src/business_rules.py:68-72 on one merged row. */
  predicate HighRiskAlert(riskSegment: Cell, amount: Cell, isFraudFlag: Cell, threshold: real)
    requires IsNumeric(amount)
  {
    IsText(riskSegment, "high") && Above(AbsCell(amount), threshold) && FraudFlagIsZero(isFraudFlag)
  }

  function FlagRow(x: Transaction, accounts: seq<Account>, customers: seq<Customer>, threshold: real): FlaggedTransaction
    requires IsNumeric(x.amount)
  {
    var customerId := JoinedCustomer(accounts, x.accountId);
    var segment := JoinedSegment(customers, customerId);
    FlaggedTransaction(x, customerId, segment, HighRiskAlert(segment, x.amount, x.isFraudFlag, threshold))
  }

  /**
   * `flag_high_risk_large_transactions`: every transaction, in order, with
   * the `customer_id` of its account, that customer's `risk_segment` and the
   * alert. The merges are on unique keys, so they neither drop nor repeat
   * rows.
   */
  function FlagHighRiskLargeTransactions(t: seq<Transaction>, accounts: seq<Account>, customers: seq<Customer>,
                                         threshold: real): (r: seq<FlaggedTransaction>)
    requires NumericAmounts(t)
    requires UniqueKeys(accounts, AccountKey) && UniqueKeys(customers, CustomerKey)
    ensures |r| == |t|
    ensures forall i :: 0 <= i < |t| ==> r[i].txn == t[i]
    ensures forall i, j :: 0 <= i < |t| && 0 <= j < |accounts| && accounts[j].accountId == t[i].accountId ==>
              r[i].customerId == accounts[j].customerId
    ensures forall i :: 0 <= i < |t| && t[i].accountId !in KeySet(accounts, AccountKey) ==> r[i].customerId == Null
    ensures forall i, k :: 0 <= i < |t| && 0 <= k < |customers| && customers[k].customerId == r[i].customerId ==>
              r[i].riskSegment == customers[k].riskSegment
    ensures forall i :: 0 <= i < |t| && r[i].customerId !in KeySet(customers, CustomerKey) ==> r[i].riskSegment == Null
    ensures forall i :: 0 <= i < |t| ==>
              (r[i].highRiskAlert <==> HighRiskAlert(r[i].riskSegment, t[i].amount, t[i].isFraudFlag, threshold))
  {
    var r := seq(|t|, i requires 0 <= i < |t| => FlagRow(t[i], accounts, customers, threshold));
    forall i | 0 <= i < |t|
      ensures forall j :: 0 <= j < |accounts| && accounts[j].accountId == t[i].accountId ==>
                r[i].customerId == accounts[j].customerId
      ensures t[i].accountId !in KeySet(accounts, AccountKey) ==> r[i].customerId == Null
      ensures forall k :: 0 <= k < |customers| && customers[k].customerId == r[i].customerId ==>
                r[i].riskSegment == customers[k].riskSegment
      ensures r[i].customerId !in KeySet(customers, CustomerKey) ==> r[i].riskSegment == Null
    {
      LookupFinds(accounts, AccountKey, t[i].accountId);
      LookupFinds(customers, CustomerKey, r[i].customerId);
    }
    r
  }

  /**
   * A transaction whose account is unknown gets no alert, as long as no
   * customer has a null id (pandas would join a null to a null).
   */
  lemma OrphanNeverAlerts(t: seq<Transaction>, accounts: seq<Account>, customers: seq<Customer>, threshold: real, i: int)
    requires NumericAmounts(t)
    requires UniqueKeys(accounts, AccountKey) && UniqueKeys(customers, CustomerKey)
    requires 0 <= i < |t| && t[i].accountId !in KeySet(accounts, AccountKey)
    requires Null !in KeySet(customers, CustomerKey)
    ensures !FlagHighRiskLargeTransactions(t, accounts, customers, threshold)[i].highRiskAlert
  {
    var r := FlagHighRiskLargeTransactions(t, accounts, customers, threshold);
    assert r[i].customerId == Null;
  }

  /** A null fraud flag, or an amount whose absolute value does not exceed the threshold, gives no alert. */
  lemma AlertNeedsFlagAndStrictExcess(segment: Cell, amount: Cell, isFraudFlag: Cell, threshold: real)
    requires IsNumeric(amount)
    ensures isFraudFlag.Null? ==> !HighRiskAlert(segment, amount, isFraudFlag, threshold)
    ensures amount.Null? ==> !HighRiskAlert(segment, amount, isFraudFlag, threshold)
    ensures isFraudFlag.Number? && isFraudFlag.number.Value() != 0.0 ==> !HighRiskAlert(segment, amount, isFraudFlag, threshold)
    ensures amount.Number? && -threshold <= amount.number.Value() <= threshold ==> !HighRiskAlert(segment, amount, isFraudFlag, threshold)
    ensures threshold >= 0.0 && amount.Number? && (amount.number.Value() == threshold || amount.number.Value() == -threshold) ==>
              !HighRiskAlert(segment, amount, isFraudFlag, threshold)
  {
  }

  /** At the default threshold, 50000 gives no alert and -60000 does. */
  lemma AlertThresholdExamples()
    ensures !HighRiskAlert(Text("high"), Number(Decimal(50000, 0)), Number(Decimal(0, 0)), AlertThreshold)
    ensures HighRiskAlert(Text("high"), Number(Decimal(-60000, 0)), Number(Decimal(0, 0)), AlertThreshold)
    ensures !HighRiskAlert(Text("high"), Number(Decimal(-60000, 0)), Number(Decimal(1, 0)), AlertThreshold)
  {
    assert Pow10(0) == 1;
  }

  // ---------------------------------------------------------------------------
  // Transactions after closure (src/business_rules.py:77-101)

  datatype Result<T> = Success(value: T) | Failure(missingColumn: string)

  /** The columns of the transactions table. */
  const TransactionColumns: set<string> :=
    {"transaction_id", "account_id", "transaction_date", "amount", "transaction_type",
     "merchant_name", "category", "is_fraud_flag"}

  /**
   * `remove_transactions_after_account_closure` as written: the merge adds
   * only `opened_date` to the transaction columns, so indexing `status`
   * raises `KeyError`, whatever the tables hold.
   */
  function RemoveTransactionsAfterAccountClosureAsWritten(t: seq<Transaction>, accounts: seq<Account>)
    : Result<seq<Transaction>>
  {
    var merged := TransactionColumns + {"opened_date"};
    if "status" !in merged then Failure("status")
    else Success(t)
  }

  /** The function as written fails on every input, the empty tables included. */
  lemma AsWrittenAlwaysFails(t: seq<Transaction>, accounts: seq<Account>)
    ensures RemoveTransactionsAfterAccountClosureAsWritten(t, accounts) == Failure("status")
  {
    assert "status" != "opened_date";
    assert "status" !in TransactionColumns;
  }

  predicate IsClosed(a: Account)
  {
    IsText(a.status, "closed")
  }

  /** `accounts_df[accounts_df["status"] == "closed"]`. */
  function ClosedAccounts(accounts: seq<Account>): (r: seq<Account>)
    ensures IsSubsequence(r, accounts)
    ensures forall a :: a in r <==> a in accounts && IsClosed(a)
    ensures |r| == |set i | 0 <= i < |accounts| && IsClosed(accounts[i])|
  {
    FilterSelects(accounts, IsClosed);
    assert Selected(accounts, IsClosed) == set i | 0 <= i < |accounts| && IsClosed(accounts[i]);
    Filter(accounts, IsClosed)
  }

  /** datetime `>`: NaT compares false. */
  predicate Later(c: Cell, than: Cell)
  {
    c.Time? && than.Time? && c.ns > than.ns
  }

  /** The intended mask: the transaction joins a closed account and is dated after its `opened_date`. */
  predicate AfterClosure(x: Transaction, closed: seq<Account>)
  {
    match Lookup(closed, AccountKey, x.accountId)
    case Some(a) => Later(x.transactionDate, a.openedDate)
    case None => false
  }

  /**
   * `remove_transactions_after_account_closure` with the `status` column
   * carried through the merge: the transactions that are not dated after the
   * `opened_date` of a closed account they belong to.
   */
  function RemoveTransactionsAfterAccountClosure(t: seq<Transaction>, accounts: seq<Account>): (r: seq<Transaction>)
    requires ParsedTransactionDates(t)
    requires UniqueKeys(ClosedAccounts(accounts), AccountKey)
    ensures IsSubsequence(r, t)
    ensures forall x :: x in r <==> x in t && !AfterClosure(x, ClosedAccounts(accounts))
    ensures forall i :: 0 <= i < |t| && t[i].transactionDate.Null? ==> t[i] in r
    ensures forall i :: 0 <= i < |t| && t[i].accountId !in KeySet(ClosedAccounts(accounts), AccountKey) ==> t[i] in r
    ensures |r| == |set i | 0 <= i < |t| && !AfterClosure(t[i], ClosedAccounts(accounts))|
  {
    var closed := ClosedAccounts(accounts);
    var keep := (x: Transaction) => !AfterClosure(x, closed);
    var r := Filter(t, keep);
    FilterSelects(t, keep);
    assert Selected(t, keep) == set i | 0 <= i < |t| && !AfterClosure(t[i], closed) by {
      forall i | 0 <= i < |t| ensures keep(t[i]) == !AfterClosure(t[i], closed) { }
    }
    forall i | 0 <= i < |t| && t[i].accountId !in KeySet(closed, AccountKey) ensures t[i] in r {
      LookupFinds(closed, AccountKey, t[i].accountId);
    }
    r
  }

  /**
   * A transaction of a closed account is removed exactly when it is dated
   * after that account's `opened_date`.
   */
  lemma ClosedAccountRule(t: seq<Transaction>, accounts: seq<Account>, i: int, j: int)
    requires ParsedTransactionDates(t)
    requires UniqueKeys(ClosedAccounts(accounts), AccountKey)
    requires 0 <= i < |t| && 0 <= j < |accounts|
    requires IsClosed(accounts[j]) && accounts[j].accountId == t[i].accountId
    ensures t[i] in RemoveTransactionsAfterAccountClosure(t, accounts) <==>
              !Later(t[i].transactionDate, accounts[j].openedDate)
  {
    var closed := ClosedAccounts(accounts);
    assert accounts[j] in closed;
    var k :| 0 <= k < |closed| && closed[k] == accounts[j];
    LookupFinds(closed, AccountKey, t[i].accountId);
  }

  // ---------------------------------------------------------------------------
  // Size bands (src/business_rules.py:104-122)

  datatype Size = Small | Medium | Large | Unknown

  /**
   * `np.select` over the three conditions on `amount.abs()`, in order, with
   * `unknown` as the default (every condition is false for NaN).
   */
  function SizeOf(amount: Cell): Size
  {
    match amount
    case Number(d) =>
      var m := d.Abs().Value();
      if m < 100.0 then Small
      else if 100.0 <= m <= 1000.0 then Medium
      else if m > 1000.0 then Large
      else Unknown
    case _ => Unknown
  }

  /**
   * The bands: below 100 is small, 100 to 1000 inclusive is medium, above
   * 1000 is large, and `unknown` is exactly a NaN amount.
   */
  lemma SizeBands(c: Cell)
    requires IsNumeric(c)
    ensures SizeOf(c) == Small <==> c.Number? && -100.0 < c.number.Value() < 100.0
    ensures SizeOf(c) == Medium <==> c.Number? && (100.0 <= c.number.Value() <= 1000.0 || -1000.0 <= c.number.Value() <= -100.0)
    ensures SizeOf(c) == Large <==> c.Number? && (c.number.Value() > 1000.0 || c.number.Value() < -1000.0)
    ensures SizeOf(c) == Unknown <==> c.Null?
  {
    if c.Number? {
      AbsValue(c.number);
    }
  }

  /** The band depends on the absolute value only, so sign enforcement keeps it. */
  lemma SizeIgnoresSign(x: Transaction)
    ensures SizeOf(AbsCell(x.amount)) == SizeOf(x.amount)
    ensures SizeOf(EnforceSign(x).amount) == SizeOf(x.amount)
  {
    EnforceSignSpec(x);
    if x.amount.Number? {
      AbsValue(x.amount.number);
      var y := EnforceSign(x).amount;
      if y.Number? {
        AbsValue(y.number);
      }
    }
  }

  /** -100 and 1000 are both medium; 99.99 is small and 1000.01 large. */
  lemma SizeExamples()
    ensures SizeOf(Number(Decimal(-100, 0))) == Medium
    ensures SizeOf(Number(Decimal(1000, 0))) == Medium
    ensures SizeOf(Number(Decimal(9999, 2))) == Small
    ensures SizeOf(Number(Decimal(100001, 2))) == Large
  {
    assert Pow10(0) == 1;
    assert Pow10(2) == 100;
  }

  /** A row with the added `transaction_size` column. */
  datatype Sized<R> = Sized(row: R, transactionSize: Size)

  /**
   * `classify_transaction_size` on any table with an `amount` column: every
   * row, in order, with its band.
   */
  function ClassifyTransactionSize<R>(rows: seq<R>, amount: R -> Cell): (r: seq<Sized<R>>)
    requires forall i :: 0 <= i < |rows| ==> IsNumeric(amount(rows[i]))
    ensures |r| == |rows|
    ensures forall i :: 0 <= i < |rows| ==> r[i].row == rows[i]
    ensures forall i :: 0 <= i < |rows| ==> (r[i].transactionSize == Unknown <==> amount(rows[i]).Null?)
    ensures forall i :: 0 <= i < |rows| && amount(rows[i]).Number? ==>
              (r[i].transactionSize == Small <==> -100.0 < amount(rows[i]).number.Value() < 100.0)
              && (r[i].transactionSize == Large <==>
                    amount(rows[i]).number.Value() > 1000.0 || amount(rows[i]).number.Value() < -1000.0)
  {
    var r := MapRows(rows, (x: R) => Sized(x, SizeOf(amount(x))));
    forall i | 0 <= i < |rows| ensures (r[i].transactionSize == Unknown <==> amount(rows[i]).Null?)
      ensures amount(rows[i]).Number? ==>
              (r[i].transactionSize == Small <==> -100.0 < amount(rows[i]).number.Value() < 100.0)
              && (r[i].transactionSize == Large <==>
                    amount(rows[i]).number.Value() > 1000.0 || amount(rows[i]).number.Value() < -1000.0)
    {
      SizeBands(amount(rows[i]));
    }
    r
  }
}
