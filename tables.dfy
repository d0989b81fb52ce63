/**
 * The three tables of the pipeline, one datatype per row, and the
 * enumerated domains the cleaners and validators check against. Every
 * column is a `Cell`, as every column read from CSV starts as an untyped
 * object column.
 */
module Tables {
  import opened Cells

  /** A row of customers.csv. */
  datatype Customer = Customer(
    customerId: Cell,
    fullName: Cell,
    email: Cell,
    country: Cell,
    signupDate: Cell,
    riskSegment: Cell)

  /** A row of accounts.csv. */
  datatype Account = Account(
    accountId: Cell,
    customerId: Cell,
    accountType: Cell,
    currency: Cell,
    balance: Cell,
    openedDate: Cell,
    status: Cell)

  /** A row of transactions.csv. */
  datatype Transaction = Transaction(
    transactionId: Cell,
    accountId: Cell,
    transactionDate: Cell,
    amount: Cell,
    transactionType: Cell,
    merchantName: Cell,
    category: Cell,
    isFraudFlag: Cell)

  // Primary and foreign key columns, as functions a whole-table operation takes.

  function CustomerKey(c: Customer): Cell { c.customerId }
  function AccountKey(a: Account): Cell { a.accountId }
  function AccountOwner(a: Account): Cell { a.customerId }
  function TransactionKey(t: Transaction): Cell { t.transactionId }
  function TransactionAccount(t: Transaction): Cell { t.accountId }

  // Enumerated domains (src/cleaning.py:53, 74, 80, 100 and src/validation.py:60, 69).

  const RiskSegments: set<string> := {"low", "medium", "high"}
  const AccountStatuses: set<string> := {"active", "closed", "suspended"}
  const AccountTypes: set<string> := {"savings", "checking"}
  const TransactionTypes: set<string> := {"debit", "credit"}

  /** `"nan"`, the text of a missing value, belongs to no domain. */
  lemma NanInNoDomain()
    ensures "nan" !in RiskSegments && "nan" !in AccountStatuses
    ensures "nan" !in AccountTypes && "nan" !in TransactionTypes
  {
  }

  /** `col.isin(domain)` on one cell: only a text cell can be a member. */
  predicate InDomain(c: Cell, domain: set<string>)
  {
    c.Text? && c.text in domain
  }

  /** The `amount` column is a float column (numbers and NaN only). */
  predicate NumericAmounts(t: seq<Transaction>)
  {
    forall i :: 0 <= i < |t| ==> IsNumeric(t[i].amount)
  }

  /** The `transaction_date` column is a datetime column (timestamps and NaT only). */
  predicate ParsedTransactionDates(t: seq<Transaction>)
  {
    forall i :: 0 <= i < |t| ==> IsDateTime(t[i].transactionDate)
  }
}
