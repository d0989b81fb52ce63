/**
 * The validators of src/validation.py: boolean-mask selections that return
 * the offending rows unmodified and in order, and the quality report that
 * counts them. The clock read by `validate_future_transactions` is the
 * parameter `today`, in nanoseconds since the epoch.
 */
module Validation {
  import opened Cells
  import opened Frames
  import opened Tables
  import opened Cleaning
  import opened BusinessRules

  // ---------------------------------------------------------------------------
  // Relationships (src/validation.py:6-21)

  predicate IsOrphanAccount(a: Account, customerIds: set<Cell>)
  {
    a.customerId !in customerIds
  }

  /** `validate_account_customer_relationship`: accounts whose owner is not a customer. */
  function InvalidAccountLinks(accounts: seq<Account>, customers: seq<Customer>): (r: seq<Account>)
    ensures IsSubsequence(r, accounts)
    ensures forall i :: 0 <= i < |accounts| ==>
              (accounts[i] in r <==> accounts[i].customerId !in KeySet(customers, CustomerKey))
    ensures forall a :: a in r ==> a in accounts
    ensures |r| == |set i | 0 <= i < |accounts| && accounts[i].customerId !in KeySet(customers, CustomerKey)|
  {
    var ids := KeySet(customers, CustomerKey);
    FilterSelects(accounts, (a: Account) => IsOrphanAccount(a, ids));
    assert Selected(accounts, (a: Account) => IsOrphanAccount(a, ids))
        == set i | 0 <= i < |accounts| && accounts[i].customerId !in ids;
    Filter(accounts, (a: Account) => IsOrphanAccount(a, ids))
  }

  predicate IsOrphanTransaction(x: Transaction, accountIds: set<Cell>)
  {
    x.accountId !in accountIds
  }

  /** `validate_transaction_account_relationship`: transactions whose account does not exist. */
  function InvalidTransactionLinks(t: seq<Transaction>, accounts: seq<Account>): (r: seq<Transaction>)
    ensures IsSubsequence(r, t)
    ensures forall i :: 0 <= i < |t| ==> (t[i] in r <==> t[i].accountId !in KeySet(accounts, AccountKey))
    ensures forall x :: x in r ==> x in t
    ensures |r| == |set i | 0 <= i < |t| && t[i].accountId !in KeySet(accounts, AccountKey)|
  {
    var ids := KeySet(accounts, AccountKey);
    FilterSelects(t, (x: Transaction) => IsOrphanTransaction(x, ids));
    assert Selected(t, (x: Transaction) => IsOrphanTransaction(x, ids))
        == set i | 0 <= i < |t| && t[i].accountId !in ids;
    Filter(t, (x: Transaction) => IsOrphanTransaction(x, ids))
  }

  // ---------------------------------------------------------------------------
  // Financial rules (src/validation.py:25-41)

  /** A positive debit or a negative credit; NaN is neither. */
  predicate IsSignInconsistent(x: Transaction)
  {
    IsNumeric(x.amount) && SignMismatch(x)
  }

  /** `validate_transaction_sign`: positive debits and negative credits. */
  function SignInconsistencies(t: seq<Transaction>): (r: seq<Transaction>)
    requires NumericAmounts(t)
    ensures IsSubsequence(r, t)
    ensures forall i :: 0 <= i < |t| ==>
              (t[i] in r <==>
                 (IsText(t[i].transactionType, "debit") && t[i].amount.Number? && t[i].amount.number.Value() > 0.0)
                 || (IsText(t[i].transactionType, "credit") && t[i].amount.Number? && t[i].amount.number.Value() < 0.0))
    ensures |r| == |set i | 0 <= i < |t| && IsSignInconsistent(t[i])|
  {
    var keep := (x: Transaction) => IsSignInconsistent(x);
    FilterSelects(t, keep);
    assert Selected(t, keep) == set i | 0 <= i < |t| && IsSignInconsistent(t[i]) by {
      forall i | 0 <= i < |t| ensures keep(t[i]) == IsSignInconsistent(t[i]) { }
    }
    Filter(t, keep)
  }

  /** A zero amount, a null amount and a type other than debit or credit are never reported. */
  lemma SignInconsistenciesSkip(t: seq<Transaction>, i: int)
    requires NumericAmounts(t) && 0 <= i < |t|
    requires t[i].amount.Null? || (t[i].amount.Number? && t[i].amount.number.units == 0)
             || (!IsText(t[i].transactionType, "debit") && !IsText(t[i].transactionType, "credit"))
    ensures t[i] !in SignInconsistencies(t)
  {
    if t[i].amount.Number? {
      ValueSign(t[i].amount.number);
    }
  }

  /** After `enforce_transaction_sign` the sign validator finds nothing. */
  lemma NoSignInconsistenciesAfterEnforcement(t: seq<Transaction>)
    requires NumericAmounts(t)
    ensures SignInconsistencies(SignEnforced(t)) == []
  {
    var r := SignEnforced(t);
    FilterNone(r, (x: Transaction) => IsSignInconsistent(x));
  }

  /** The default `threshold` of `detect_extreme_outliers`. */
  const OutlierThreshold: real := 100000.0

  /** An amount whose absolute value exceeds the threshold; NaN never does. */
  predicate IsOutlier(x: Transaction, threshold: real)
  {
    IsNumeric(x.amount) && Above(AbsCell(x.amount), threshold)
  }

  /** `detect_extreme_outliers`: the rows whose absolute amount exceeds the threshold. */
  function ExtremeOutliers(t: seq<Transaction>, threshold: real): (r: seq<Transaction>)
    requires NumericAmounts(t)
    ensures IsSubsequence(r, t)
    ensures forall i :: 0 <= i < |t| ==>
              (t[i] in r <==> t[i].amount.Number? && (t[i].amount.number.Value() > threshold || t[i].amount.number.Value() < -threshold))
    ensures |r| == |set i | 0 <= i < |t| && IsOutlier(t[i], threshold)|
  {
    var keep := (x: Transaction) => IsOutlier(x, threshold);
    FilterSelects(t, keep);
    assert Selected(t, keep) == set i | 0 <= i < |t| && IsOutlier(t[i], threshold) by {
      forall i | 0 <= i < |t| ensures keep(t[i]) == IsOutlier(t[i], threshold) { }
    }
    Filter(t, keep)
  }

  /** At the default threshold, 100000 and -100000 are not outliers; 100000.01 is. */
  lemma OutlierThresholdIsStrict()
    ensures ExtremeOutliers([Transaction(Null, Null, Null, Number(Decimal(100000, 0)), Null, Null, Null, Null)], OutlierThreshold) == []
    ensures ExtremeOutliers([Transaction(Null, Null, Null, Number(Decimal(-100000, 0)), Null, Null, Null, Null)], OutlierThreshold) == []
    ensures |ExtremeOutliers([Transaction(Null, Null, Null, Number(Decimal(10000001, 2)), Null, Null, Null, Null)], OutlierThreshold)| == 1
  {
    assert Pow10(0) == 1;
    assert Pow10(2) == 100;
    var a := Transaction(Null, Null, Null, Number(Decimal(100000, 0)), Null, Null, Null, Null);
    var b := Transaction(Null, Null, Null, Number(Decimal(-100000, 0)), Null, Null, Null, Null);
    var c := Transaction(Null, Null, Null, Number(Decimal(10000001, 2)), Null, Null, Null, Null);
    assert a !in ExtremeOutliers([a], OutlierThreshold);
    assert b !in ExtremeOutliers([b], OutlierThreshold);
    assert c in ExtremeOutliers([c], OutlierThreshold);
    SubsequenceElements(ExtremeOutliers([c], OutlierThreshold), [c]);
  }

  // ---------------------------------------------------------------------------
  // Dates (src/validation.py:45-54)

  /** `validate_future_transactions`: the rows dated strictly after `today`. */
  function FutureTransactions(t: seq<Transaction>, today: int): (r: seq<Transaction>)
    requires ParsedTransactionDates(t)
    ensures IsSubsequence(r, t)
    ensures forall i :: 0 <= i < |t| ==>
              (t[i] in r <==> t[i].transactionDate.Time? && t[i].transactionDate.ns > today)
    ensures forall x :: x in r ==> x in t && !x.transactionDate.Null?
    ensures |r| == |set i | 0 <= i < |t| && t[i].transactionDate.Time? && t[i].transactionDate.ns > today|
  {
    var keep := (x: Transaction) => Later(x.transactionDate, Time(today));
    FilterSelects(t, keep);
    assert Selected(t, keep) == set i | 0 <= i < |t| && t[i].transactionDate.Time? && t[i].transactionDate.ns > today;
    Filter(t, keep)
  }

  /** `validate_invalid_dates`: the rows whose named column is NaT/NaN, for any table and column. */
  function InvalidDates<R(!new)>(rows: seq<R>, column: R -> Cell): (r: seq<R>)
    ensures IsSubsequence(r, rows)
    ensures forall i :: 0 <= i < |rows| ==> (rows[i] in r <==> column(rows[i]).Null?)
    ensures |r| == |set i | 0 <= i < |rows| && column(rows[i]).Null?|
  {
    FilterSelects(rows, NullIn(column));
    assert Selected(rows, NullIn(column)) == set i | 0 <= i < |rows| && column(rows[i]).Null?;
    Filter(rows, NullIn(column))
  }

  /** The mask `df[column].isna()`. */
  function NullIn<R(!new)>(column: R -> Cell): (keep: R -> bool)
    ensures forall x :: keep(x) <==> column(x).Null?
  {
    (x: R) => column(x).Null?
  }

  /** The mask `~df[column].isin(domain)`: NaN is never in the domain. */
  function OutsideDomain<R(!new)>(column: R -> Cell, domain: set<string>): (keep: R -> bool)
    ensures forall x :: keep(x) <==> !InDomain(column(x), domain)
  {
    (x: R) => !InDomain(column(x), domain)
  }

  function AccountStatus(a: Account): Cell { a.status }
  function CustomerSegment(c: Customer): Cell { c.riskSegment }

  // ---------------------------------------------------------------------------
  // Domains (src/validation.py:58-73)

  /** `validate_account_status`: accounts whose status is not a valid status, NaN included. */
  function InvalidAccountStatus(accounts: seq<Account>): (r: seq<Account>)
    ensures IsSubsequence(r, accounts)
    ensures forall i :: 0 <= i < |accounts| ==> (accounts[i] in r <==> !InDomain(accounts[i].status, AccountStatuses))
    ensures forall i :: 0 <= i < |accounts| && accounts[i].status.Null? ==> accounts[i] in r
    ensures |r| == |set i | 0 <= i < |accounts| && !InDomain(accounts[i].status, AccountStatuses)|
  {
    FilterSelects(accounts, OutsideDomain(AccountStatus, AccountStatuses));
    assert Selected(accounts, OutsideDomain(AccountStatus, AccountStatuses))
        == set i | 0 <= i < |accounts| && !InDomain(accounts[i].status, AccountStatuses);
    Filter(accounts, OutsideDomain(AccountStatus, AccountStatuses))
  }

  /** `validate_risk_segment`: customers whose segment is not a valid segment, NaN included. */
  function InvalidRiskSegment(customers: seq<Customer>): (r: seq<Customer>)
    ensures IsSubsequence(r, customers)
    ensures forall i :: 0 <= i < |customers| ==> (customers[i] in r <==> !InDomain(customers[i].riskSegment, RiskSegments))
    ensures forall i :: 0 <= i < |customers| && customers[i].riskSegment.Null? ==> customers[i] in r
    ensures |r| == |set i | 0 <= i < |customers| && !InDomain(customers[i].riskSegment, RiskSegments)|
  {
    FilterSelects(customers, OutsideDomain(CustomerSegment, RiskSegments));
    assert Selected(customers, OutsideDomain(CustomerSegment, RiskSegments))
        == set i | 0 <= i < |customers| && !InDomain(customers[i].riskSegment, RiskSegments);
    Filter(customers, OutsideDomain(CustomerSegment, RiskSegments))
  }

  /** On cleaned accounts the status validator reports exactly the rows whose status is NaN. */
  lemma CleanAccountStatusOnlyNull(accounts: seq<Account>)
    requires forall i :: 0 <= i < |accounts| ==> IsCleanAccount(accounts[i])
    ensures forall i :: 0 <= i < |accounts| ==> (accounts[i] in InvalidAccountStatus(accounts) <==> accounts[i].status.Null?)
    ensures InvalidAccountStatus(accounts) == InvalidDates(accounts, AccountStatus)
  {
    FilterSame(accounts, OutsideDomain(AccountStatus, AccountStatuses), NullIn(AccountStatus));
  }

  /** On cleaned customers the segment validator reports exactly the rows whose segment is NaN. */
  lemma CleanRiskSegmentOnlyNull(customers: seq<Customer>)
    requires forall i :: 0 <= i < |customers| ==> IsCleanCustomer(customers[i])
    ensures forall i :: 0 <= i < |customers| ==> (customers[i] in InvalidRiskSegment(customers) <==> customers[i].riskSegment.Null?)
    ensures InvalidRiskSegment(customers) == InvalidDates(customers, CustomerSegment)
  {
    FilterSame(customers, OutsideDomain(CustomerSegment, RiskSegments), NullIn(CustomerSegment));
  }

  /** Two masks that agree on every row of a table select the same rows. */
  lemma {:induction false} FilterSame<R>(s: seq<R>, p: R -> bool, q: R -> bool)
    requires forall i :: 0 <= i < |s| ==> p(s[i]) == q(s[i])
    ensures Filter(s, p) == Filter(s, q)
  {
    if s != [] {
      FilterSame(s[..|s| - 1], p, q);
    }
  }

  // ---------------------------------------------------------------------------
  // Quality report (src/validation.py:76-96)

  datatype QualityReport = QualityReport(
    duplicateCustomers: nat,
    duplicateAccounts: nat,
    duplicateTransactions: nat,
    invalidAccountLinks: nat,
    invalidTransactionLinks: nat,
    futureTransactions: nat,
    signInconsistencies: nat)

  /** Every count of the report is zero. */
  predicate IsClean(q: QualityReport)
  {
    q == QualityReport(0, 0, 0, 0, 0, 0, 0)
  }

  /** `build_quality_report`, with the clock as `today`. */
  function BuildQualityReport(customers: seq<Customer>, accounts: seq<Account>, t: seq<Transaction>, today: int)
    : (r: QualityReport)
    requires NumericAmounts(t) && ParsedTransactionDates(t)
    ensures r.duplicateCustomers == |customers| - |KeySet(customers, CustomerKey)|
    ensures r.duplicateAccounts == |accounts| - |KeySet(accounts, AccountKey)|
    ensures r.duplicateTransactions == |t| - |KeySet(t, TransactionKey)|
    ensures r.duplicateCustomers == 0 <==> UniqueKeys(customers, CustomerKey)
    ensures r.duplicateAccounts == 0 <==> UniqueKeys(accounts, AccountKey)
    ensures r.duplicateTransactions == 0 <==> UniqueKeys(t, TransactionKey)
    ensures r.invalidAccountLinks == |set i | 0 <= i < |accounts| && accounts[i].customerId !in KeySet(customers, CustomerKey)|
    ensures r.invalidTransactionLinks == |set i | 0 <= i < |t| && t[i].accountId !in KeySet(accounts, AccountKey)|
    ensures r.futureTransactions == |set i | 0 <= i < |t| && t[i].transactionDate.Time? && t[i].transactionDate.ns > today|
    ensures r.signInconsistencies == |set i | 0 <= i < |t| && IsSignInconsistent(t[i])|
    ensures r.invalidAccountLinks <= |accounts|
    ensures r.invalidTransactionLinks <= |t|
    ensures r.futureTransactions <= |t|
    ensures r.signInconsistencies <= |t|
  {
    DuplicateCountIsSurplus(customers, CustomerKey);
    DuplicateCountIsSurplus(accounts, AccountKey);
    DuplicateCountIsSurplus(t, TransactionKey);
    SubsequenceElements(InvalidAccountLinks(accounts, customers), accounts);
    SubsequenceElements(InvalidTransactionLinks(t, accounts), t);
    SubsequenceElements(FutureTransactions(t, today), t);
    SubsequenceElements(SignInconsistencies(t), t);
    QualityReport(
      DuplicateCount(customers, CustomerKey),
      DuplicateCount(accounts, AccountKey),
      DuplicateCount(t, TransactionKey),
      |InvalidAccountLinks(accounts, customers)|,
      |InvalidTransactionLinks(t, accounts)|,
      |FutureTransactions(t, today)|,
      |SignInconsistencies(t)|)
  }

  /** On empty tables every count is zero. */
  lemma EmptyTablesReportNothing(today: int)
    ensures IsClean(BuildQualityReport([], [], [], today))
  {
  }

  /** The report counts no duplicates, orphans, future or inconsistent rows exactly when there are none. */
  lemma ReportIsCleanExactly(customers: seq<Customer>, accounts: seq<Account>, t: seq<Transaction>, today: int)
    requires NumericAmounts(t) && ParsedTransactionDates(t)
    ensures IsClean(BuildQualityReport(customers, accounts, t, today)) <==>
              && UniqueKeys(customers, CustomerKey)
              && UniqueKeys(accounts, AccountKey)
              && UniqueKeys(t, TransactionKey)
              && (forall i :: 0 <= i < |accounts| ==> accounts[i].customerId in KeySet(customers, CustomerKey))
              && (forall i :: 0 <= i < |t| ==> t[i].accountId in KeySet(accounts, AccountKey))
              && (forall i :: 0 <= i < |t| ==> !(t[i].transactionDate.Time? && t[i].transactionDate.ns > today))
              && (forall i :: 0 <= i < |t| ==> t[i] !in SignInconsistencies(t))
  {
    EmptyIffNoMember(InvalidAccountLinks(accounts, customers), accounts);
    EmptyIffNoMember(InvalidTransactionLinks(t, accounts), t);
    EmptyIffNoMember(FutureTransactions(t, today), t);
    EmptyIffNoMember(SignInconsistencies(t), t);
  }

  /** A subsequence is empty exactly when no row of the table is in it. */
  lemma EmptyIffNoMember<R>(r: seq<R>, s: seq<R>)
    requires IsSubsequence(r, s)
    ensures |r| == 0 <==> forall i :: 0 <= i < |s| ==> s[i] !in r
  {
    SubsequenceElements(r, s);
    if |r| != 0 {
      assert r[0] in s;
    }
  }
}
