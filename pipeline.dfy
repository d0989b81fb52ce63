/**
 * The order in which `run_pipeline` (src/pipeline.py:35-55) composes the
 * cleaners, the business rules and the quality report, without the CSV
 * reading and writing around it. The report reads only columns the rules do
 * not add, so it is computed on the tables with the added columns projected
 * away.
 */
module Pipeline {
  import opened Cells
  import opened Frames
  import opened Tables
  import opened Cleaning
  import opened BusinessRules
  import opened Validation

  /** What the pipeline writes out and reports. */
  datatype PipelineOutput = PipelineOutput(
    customers: seq<Customer>,
    accounts: seq<BalancedAccount>,
    transactions: seq<Sized<FlaggedTransaction>>,
    report: QualityReport)

  function BaseAccount(b: BalancedAccount): Account { b.account }
  function BaseTransaction(s: Sized<FlaggedTransaction>): Transaction { s.row.txn }
  function FlaggedAmount(f: FlaggedTransaction): Cell { f.txn.amount }

  /** The cleaned transactions have numeric amounts and parsed dates. */
  lemma CleanedTransactionColumns(raw: seq<Transaction>)
    ensures NumericAmounts(CleanedTransactions(raw))
    ensures ParsedTransactionDates(CleanedTransactions(raw))
    ensures SignableAmounts(CleanedTransactions(raw))
  {
    var t := CleanedTransactions(raw);
    assert forall i :: 0 <= i < |t| ==> IsCleanTransaction(t[i]);
  }

  /** Sign enforcement keeps the key, the dates and the numeric amounts. */
  lemma SignEnforcedColumns(t: seq<Transaction>)
    requires NumericAmounts(t) && ParsedTransactionDates(t)
    ensures NumericAmounts(SignEnforced(t)) && ParsedTransactionDates(SignEnforced(t))
    ensures UniqueKeys(t, TransactionKey) ==> UniqueKeys(SignEnforced(t), TransactionKey)
    ensures KeySet(SignEnforced(t), TransactionKey) == KeySet(t, TransactionKey)
  {
    var r := SignEnforced(t);
    assert forall i :: 0 <= i < |t| ==> r[i].transactionId == t[i].transactionId;
    assert forall i :: 0 <= i < |t| ==> r[i].transactionDate == t[i].transactionDate;
    assert forall i :: 0 <= i < |t| ==> TransactionKey(r[i]) == TransactionKey(t[i]);
  }

  /** The recomputed-balance table still holds the accounts it was computed from. */
  lemma BalancedKeepsAccounts(accounts: seq<Account>, t: seq<Transaction>)
    requires NumericAmounts(t)
    ensures MapRows(RecalculateAccountBalance(accounts, t), BaseAccount) == accounts
  {
    var r := RecalculateAccountBalance(accounts, t);
    assert forall i :: 0 <= i < |accounts| ==> BaseAccount(r[i]) == accounts[i];
  }

  /**
   * Steps 3b and 3c of the pipeline on the sign-enforced transactions: the
   * alert columns, then the size band. The transaction columns are those of
   * the input, row for row.
   */
  function EnrichTransactions(t: seq<Transaction>, accounts: seq<Account>, customers: seq<Customer>)
    : (r: seq<Sized<FlaggedTransaction>>)
    requires NumericAmounts(t)
    requires UniqueKeys(accounts, AccountKey) && UniqueKeys(customers, CustomerKey)
    ensures MapRows(r, BaseTransaction) == t
    ensures forall i :: 0 <= i < |t| ==> (r[i].transactionSize == Unknown <==> t[i].amount.Null?)
  {
    var flagged := FlagHighRiskLargeTransactions(t, accounts, customers, AlertThreshold);
    assert forall i :: 0 <= i < |flagged| ==> FlaggedAmount(flagged[i]) == t[i].amount;
    var r := ClassifyTransactionSize(flagged, FlaggedAmount);
    assert forall i :: 0 <= i < |t| ==> BaseTransaction(r[i]) == t[i];
    r
  }

  /** What the pipeline promises of the transactions it writes out. */
  predicate GoodTransactions(out: seq<Sized<FlaggedTransaction>>)
  {
    && UniqueKeys(MapRows(out, BaseTransaction), TransactionKey)
    && forall i :: 0 <= i < |out| ==>
         IsNumeric(BaseTransaction(out[i]).amount)
         && !SignMismatch(BaseTransaction(out[i]))
         && (out[i].transactionSize == Unknown <==> BaseTransaction(out[i]).amount.Null?)
  }

  /** Sign-enforced, flagged and sized transactions with unique ids meet `GoodTransactions`. */
  lemma EnrichedTransactionsAreGood(cleaned: seq<Transaction>, signed: seq<Transaction>,
                                    enriched: seq<Sized<FlaggedTransaction>>)
    requires NumericAmounts(cleaned) && UniqueKeys(cleaned, TransactionKey)
    requires signed == SignEnforced(cleaned)
    requires MapRows(enriched, BaseTransaction) == signed
    requires forall i :: 0 <= i < |signed| ==> (enriched[i].transactionSize == Unknown <==> signed[i].amount.Null?)
    ensures GoodTransactions(enriched)
  {
    forall i | 0 <= i < |enriched|
      ensures BaseTransaction(enriched[i]) == signed[i]
    {
      assert MapRows(enriched, BaseTransaction)[i] == BaseTransaction(enriched[i]);
    }
    forall i, j | 0 <= i < j < |cleaned| ensures signed[i].transactionId != signed[j].transactionId {
      assert TransactionKey(cleaned[i]) != TransactionKey(cleaned[j]);
    }
  }

  /** The report of the pipeline counts no duplicates and no sign inconsistencies. */
  lemma PipelineReportCounts(customers: seq<Customer>, accounts: seq<Account>, raw: seq<Transaction>, today: int)
    requires UniqueKeys(customers, CustomerKey) && UniqueKeys(accounts, AccountKey)
    requires NumericAmounts(CleanedTransactions(raw)) && ParsedTransactionDates(CleanedTransactions(raw))
    ensures var t := SignEnforced(CleanedTransactions(raw));
            && NumericAmounts(t) && ParsedTransactionDates(t)
            && var report := BuildQualityReport(customers, accounts, t, today);
               report.duplicateCustomers == 0 && report.duplicateAccounts == 0
               && report.duplicateTransactions == 0 && report.signInconsistencies == 0
  {
    var cleaned := CleanedTransactions(raw);
    SignEnforcedColumns(cleaned);
    NoSignInconsistenciesAfterEnforcement(cleaned);
  }

  /**
   * `run_pipeline`, steps 2 to 4, with the clock as `today`: clean the three
   * tables, enforce signs, recompute balances, flag and size the
   * transactions, and build the report.
   */
  method RunPipeline(rawCustomers: seq<Customer>, rawAccounts: seq<Account>, rawTransactions: seq<Transaction>,
                     today: int) returns (out: PipelineOutput)
    ensures out.customers == CleanedCustomers(rawCustomers)
    ensures MapRows(out.accounts, BaseAccount) == CleanedAccounts(rawAccounts)
    ensures |out.customers| == |KeySet(rawCustomers, CustomerKey)|
    ensures |out.accounts| == |KeySet(rawAccounts, AccountKey)|
    ensures MapRows(out.transactions, BaseTransaction) == SignEnforced(CleanedTransactions(rawTransactions))
    ensures |out.transactions| == |KeySet(rawTransactions, TransactionKey)|
    ensures GoodTransactions(out.transactions)
    ensures Null !in KeySet(rawAccounts, AccountKey) ==>
              TotalRecalculated(out.accounts)
              == AmountSumIn(MapRows(out.transactions, BaseTransaction), KeySet(rawAccounts, AccountKey))
    ensures out.report.duplicateCustomers == 0
    ensures out.report.duplicateAccounts == 0
    ensures out.report.duplicateTransactions == 0
    ensures out.report.signInconsistencies == 0
  {
    CleanedTransactionColumns(rawTransactions);
    var customers := CleanedCustomers(rawCustomers);
    var accounts := CleanedAccounts(rawAccounts);
    var cleaned := CleanedTransactions(rawTransactions);
    var signed := EnforceTransactionSign(cleaned);
    SignEnforcedColumns(cleaned);
    var balanced := RecalculateAccountBalance(accounts, signed);
    BalancedKeepsAccounts(accounts, signed);
    if Null !in KeySet(rawAccounts, AccountKey) {
      BalancesReconcile(accounts, signed);
    }
    var enriched := EnrichTransactions(signed, accounts, customers);
    EnrichedTransactionsAreGood(cleaned, signed, enriched);
    PipelineReportCounts(customers, accounts, rawTransactions, today);
    var report := BuildQualityReport(customers, MapRows(balanced, BaseAccount), MapRows(enriched, BaseTransaction), today);
    out := PipelineOutput(customers, balanced, enriched, report);
  }
}
