/**
 * The record cleaners of src/cleaning.py: each drops later rows that repeat
 * the primary key, then rewrites its columns one at a time (standardise,
 * check the email, parse dates and money, restrict enumerations to their
 * domain).
 *
 * Each cleaner is a method that copies the deduplicated rows into a fresh
 * array and assigns one column per step, as the source does with
 * `df[col] = ...` and `df.loc[mask, col] = np.nan`. It is proved equal to a
 * specification function: deduplicate, then apply one row cleaner to every
 * row.
 */
module Cleaning {
  import opened Cells
  import opened Frames
  import opened Normalizers
  import opened Tables

  // ---------------------------------------------------------------------------
  // The email pattern `^[\w\.-]+@[\w\.-]+\.\w+$` (src/cleaning.py:43)

  /** `\w` on ASCII: a letter, a digit or `_`. */
  predicate IsWordChar(c: char)
  {
    'a' <= c <= 'z' || 'A' <= c <= 'Z' || '0' <= c <= '9' || c == '_'
  }

  /** The class `[\w\.-]`. */
  predicate IsEmailChar(c: char)
  {
    IsWordChar(c) || c == '.' || c == '-'
  }

  predicate AllEmailChars(s: string)
  {
    forall i :: 0 <= i < |s| ==> IsEmailChar(s[i])
  }

  predicate AllWordChars(s: string)
  {
    forall i :: 0 <= i < |s| ==> IsWordChar(s[i])
  }

  /**
   * `s` matches the pattern with its `@` at index `at` and the `.` before the
   * final `\w+` at index `dot`: a non-empty local part, a non-empty domain
   * part and a non-empty word suffix.
   */
  predicate EmailSplit(s: string, at: int, dot: int)
  {
    0 < at && at + 1 < dot && dot + 1 < |s|
    && s[at] == '@' && s[dot] == '.'
    && AllEmailChars(s[..at]) && AllEmailChars(s[at + 1..dot]) && AllWordChars(s[dot + 1..])
  }

  /** `re.match` of the email pattern against the whole of `s`. */
  predicate EmailMatches(s: string)
  {
    exists at, dot | 0 < at && at + 1 < dot && dot + 1 < |s| :: EmailSplit(s, at, dot)
  }

  /** A string without `@` never matches. */
  lemma NoAtNoMatch(s: string)
    requires '@' !in s
    ensures !EmailMatches(s)
  {
    forall at, dot | 0 < at && at + 1 < dot && dot + 1 < |s| ensures !EmailSplit(s, at, dot) {
      assert s[at] in s;
    }
  }

  /** `"invalid_email"`, injected by the data generator, does not match. */
  lemma InvalidEmailRejected()
    ensures !EmailMatches("invalid_email")
  {
    NoAtNoMatch("invalid_email");
  }

  /** A local part, `@`, a domain, `.` and a word suffix match the pattern. */
  lemma EmailOfParts(local: string, domain: string, suffix: string)
    requires local != [] && domain != [] && suffix != []
    requires AllEmailChars(local) && AllEmailChars(domain) && AllWordChars(suffix)
    ensures EmailMatches(local + "@" + domain + "." + suffix)
  {
    var s := local + "@" + domain + "." + suffix;
    var at, dot := |local|, |local| + 1 + |domain|;
    assert s[..at] == local;
    assert s[at + 1..dot] == domain;
    assert s[dot + 1..] == suffix;
    assert EmailSplit(s, at, dot);
  }

  // ---------------------------------------------------------------------------
  // Cell rewrites used by the cleaners

  /**
   * `df.loc[~df[col].str.match(pattern, na=False), col] = np.nan`: a cell that
   * is not text matching the email pattern becomes null.
   */
  function NullUnlessEmail(c: Cell): (r: Cell)
    ensures r == c || r.Null?
    ensures r.Text? <==> c.Text? && EmailMatches(c.text)
  {
    if c.Text? && EmailMatches(c.text) then c else Null
  }

  /** `df.loc[~df[col].isin(domain), col] = np.nan`. */
  function RestrictToDomain(c: Cell, domain: set<string>): (r: Cell)
    ensures r == c || r.Null?
    ensures InDomain(r, domain) <==> InDomain(c, domain)
    ensures r.Null? <==> !InDomain(c, domain)
  {
    if InDomain(c, domain) then c else Null
  }

  /** Standardise, then restrict to a domain: the enum cleaning of src/cleaning.py. */
  function CleanEnum(c: Cell, domain: set<string>): (r: Cell)
    ensures r.Null? || (InDomain(r, domain) && IsStandard(r.text))
  {
    RestrictToDomain(StandardiseCell(c), domain)
  }

  /** The text of a missing value is not a valid email. */
  lemma NanNotEmail()
    ensures !EmailMatches("nan")
  {
    NoAtNoMatch("nan");
  }

  /** A missing value stays missing through the enum cleaning. */
  lemma CleanEnumNull(domain: set<string>)
    requires "nan" !in domain
    ensures CleanEnum(Null, domain) == Null
  {
    StandardiseNull();
  }

  /**
   * Cleaning an enum cell keeps a value of the domain and nulls a missing
   * value: it is the identity on its own output.
   */
  lemma CleanEnumFixes(c: Cell, domain: set<string>)
    requires "nan" !in domain
    requires c.Null? || (InDomain(c, domain) && IsStandard(c.text))
    ensures CleanEnum(c, domain) == c
  {
    if c.Null? {
      CleanEnumNull(domain);
    } else {
      StandardiseIdempotent(c.text);
    }
  }

  /** Matching ignores case and surrounding whitespace: `" HIGH "` is kept as `high`. */
  lemma CleanEnumIgnoresCase()
    ensures CleanEnum(Text(" HIGH "), RiskSegments) == Text("high")
  {
    StandardiseHigh();
    assert StandardiseCell(Text(" HIGH ")) == Text("high");
  }

  /**
   * Matching ignores case and surrounding whitespace in general: a cell
   * cleans exactly as its lower-cased, stripped text does.
   */
  lemma CleanEnumStandardises(s: string, domain: set<string>)
    ensures CleanEnum(Text(s), domain) == CleanEnum(Text(Standardise(s)), domain)
  {
    StandardiseIdempotent(s);
  }

  // ---------------------------------------------------------------------------
  // Customers (src/cleaning.py:32-56)

  /** What a cleaned customer row looks like. */
  predicate IsCleanCustomer(c: Customer)
  {
    && (c.email.Null? || (c.email.Text? && IsStandard(c.email.text) && EmailMatches(c.email.text)))
    && IsDateTime(c.signupDate)
    && (c.riskSegment.Null? || (InDomain(c.riskSegment, RiskSegments) && IsStandard(c.riskSegment.text)))
  }

  /**
   * The column rewrites of `clean_customers` on one row: the email is
   * standardised and nulled unless it matches, the signup date parsed, the
   * risk segment standardised and restricted to its domain. The key, the
   * name and the country are carried through.
   */
  function CleanCustomer(c: Customer): (r: Customer)
    ensures r.customerId == c.customerId && r.fullName == c.fullName && r.country == c.country
    ensures IsCleanCustomer(r)
  {
    c.(email := NullUnlessEmail(StandardiseCell(c.email)),
       signupDate := ParseDates(c.signupDate),
       riskSegment := CleanEnum(c.riskSegment, RiskSegments))
  }

  /** The email rewrite keeps a standard matching address and a null. */
  lemma EmailFixed(email: Cell)
    requires email.Null? || (email.Text? && IsStandard(email.text) && EmailMatches(email.text))
    ensures NullUnlessEmail(StandardiseCell(email)) == email
  {
    if email.Null? {
      StandardiseNull();
      NanNotEmail();
    } else {
      StandardiseIdempotent(email.text);
    }
  }

  /** A clean customer row is left as it is by a second cleaning. */
  lemma CleanCustomerFixes(c: Customer)
    requires IsCleanCustomer(c)
    ensures CleanCustomer(c) == c
  {
    EmailFixed(c.email);
    NanInNoDomain();
    CleanEnumFixes(c.riskSegment, RiskSegments);
    CleanCustomerOfFixedCells(c);
  }

  lemma CleanCustomerOfFixedCells(c: Customer)
    requires NullUnlessEmail(StandardiseCell(c.email)) == c.email
    requires IsDateTime(c.signupDate)
    requires CleanEnum(c.riskSegment, RiskSegments) == c.riskSegment
    ensures CleanCustomer(c) == c
  {
  }

  /** `clean_customers`: the first row of every `customer_id`, cleaned, in input order. */
  function CleanedCustomers(raw: seq<Customer>): (r: seq<Customer>)
    ensures UniqueKeys(r, CustomerKey)
    ensures KeySet(r, CustomerKey) == KeySet(raw, CustomerKey)
    ensures |r| == |KeySet(raw, CustomerKey)| <= |raw|
    ensures IsSubsequence(r, MapRows(raw, CleanCustomer))
    ensures forall j :: 0 <= j < |raw| && IsFirstOccurrence(raw, CustomerKey, j) ==> CleanCustomer(raw[j]) in r
    ensures forall i :: 0 <= i < |r| ==> IsCleanCustomer(r[i])
  {
    DedupThenMap(raw, CustomerKey, CleanCustomer);
    MapRows(DedupBy(raw, CustomerKey), CleanCustomer)
  }

  /**
   * The rows of `clean_customers` are the cleaned first occurrences of their
   * ids, in input order: row `k` is the cleaned input row at the `k`-th
   * first-occurrence position.
   */
  lemma CleanedCustomersInOrder(raw: seq<Customer>)
    ensures exists idx :: FirstOccurrencePositions(raw, CustomerKey, idx) && |idx| == |CleanedCustomers(raw)|
                          && forall k :: 0 <= k < |idx| ==> CleanedCustomers(raw)[k] == CleanCustomer(raw[idx[k]])
  {
    DedupThenMapOrder(raw, CustomerKey, CleanCustomer);
  }

  /** `clean_customers` is idempotent. */
  lemma CleanedCustomersIdempotent(raw: seq<Customer>)
    ensures CleanedCustomers(CleanedCustomers(raw)) == CleanedCustomers(raw)
  {
    forall c ensures CleanCustomer(CleanCustomer(c)) == CleanCustomer(c) {
      CleanCustomerFixes(CleanCustomer(c));
    }
    DedupThenMapIdempotent(raw, CustomerKey, CleanCustomer);
  }

  // The column assignments of `clean_customers`, one function per statement.

  /** src/cleaning.py:40 */
  function StandardiseEmail(c: Customer): Customer { c.(email := StandardiseCell(c.email)) }
  /** src/cleaning.py:43-45 */
  function NullInvalidEmail(c: Customer): Customer { c.(email := NullUnlessEmail(c.email)) }
  /** src/cleaning.py:48 */
  function ParseSignupDate(c: Customer): Customer { c.(signupDate := ParseDates(c.signupDate)) }
  /** src/cleaning.py:51 */
  function StandardiseRiskSegment(c: Customer): Customer { c.(riskSegment := StandardiseCell(c.riskSegment)) }
  /** src/cleaning.py:53-54 */
  function RestrictRiskSegment(c: Customer): Customer { c.(riskSegment := RestrictToDomain(c.riskSegment, RiskSegments)) }

  lemma CleanCustomerSteps(c: Customer)
    ensures CleanCustomer(c)
         == RestrictRiskSegment(StandardiseRiskSegment(ParseSignupDate(NullInvalidEmail(StandardiseEmail(c)))))
  {
  }

  /** `clean_customers`, one column assignment after another on a copy of the deduplicated rows. */
  method CleanCustomers(raw: seq<Customer>) returns (r: seq<Customer>)
    ensures r == CleanedCustomers(raw)
  {
    var rows := DedupBy(raw, CustomerKey);
    var df := new Customer[|rows|](i requires 0 <= i < |rows| => rows[i]);
    ghost var s0 := df[..];
    AssignColumn(df, StandardiseEmail);
    ghost var s1 := df[..];
    AssignColumn(df, NullInvalidEmail);
    ghost var s2 := df[..];
    AssignColumn(df, ParseSignupDate);
    ghost var s3 := df[..];
    AssignColumn(df, StandardiseRiskSegment);
    ghost var s4 := df[..];
    AssignColumn(df, RestrictRiskSegment);
    r := df[..];
    forall i | 0 <= i < |rows| ensures r[i] == CleanCustomer(rows[i]) {
      assert s0[i] == rows[i];
      CleanCustomerSteps(rows[i]);
    }
  }

  // ---------------------------------------------------------------------------
  // Accounts (src/cleaning.py:59-83)

  /** What a cleaned account row looks like. */
  predicate IsCleanAccount(a: Account)
  {
    && IsNumeric(a.balance)
    && IsDateTime(a.openedDate)
    && (a.status.Null? || (InDomain(a.status, AccountStatuses) && IsStandard(a.status.text)))
    && (a.accountType.Null? || (InDomain(a.accountType, AccountTypes) && IsStandard(a.accountType.text)))
  }

  /**
   * The column rewrites of `clean_accounts` on one row: the balance is
   * cleaned as money, the opening date parsed, status and account type
   * standardised and restricted. Key, owner and currency are carried through.
   */
  function CleanAccount(a: Account): (r: Account)
    ensures r.accountId == a.accountId && r.customerId == a.customerId && r.currency == a.currency
    ensures IsCleanAccount(r)
  {
    a.(balance := CleanCurrency(a.balance),
       openedDate := ParseDates(a.openedDate),
       status := CleanEnum(a.status, AccountStatuses),
       accountType := CleanEnum(a.accountType, AccountTypes))
  }

  /** A clean account row is left as it is by a second cleaning. */
  lemma CleanAccountFixes(a: Account)
    requires IsCleanAccount(a)
    ensures CleanAccount(a) == a
  {
    AccountEnumsFixed(a.status, a.accountType);
    CleanCurrencyFixes(a.balance);
    CleanAccountOfFixedCells(a);
  }

  lemma AccountEnumsFixed(status: Cell, accountType: Cell)
    requires status.Null? || (InDomain(status, AccountStatuses) && IsStandard(status.text))
    requires accountType.Null? || (InDomain(accountType, AccountTypes) && IsStandard(accountType.text))
    ensures CleanEnum(status, AccountStatuses) == status
    ensures CleanEnum(accountType, AccountTypes) == accountType
  {
    NanInNoDomain();
    CleanEnumFixes(status, AccountStatuses);
    CleanEnumFixes(accountType, AccountTypes);
  }

  lemma CleanAccountOfFixedCells(a: Account)
    requires CleanCurrency(a.balance) == a.balance
    requires IsDateTime(a.openedDate)
    requires CleanEnum(a.status, AccountStatuses) == a.status
    requires CleanEnum(a.accountType, AccountTypes) == a.accountType
    ensures CleanAccount(a) == a
  {
  }

  /** `clean_accounts`: the first row of every `account_id`, cleaned, in input order. */
  function CleanedAccounts(raw: seq<Account>): (r: seq<Account>)
    ensures UniqueKeys(r, AccountKey)
    ensures KeySet(r, AccountKey) == KeySet(raw, AccountKey)
    ensures |r| == |KeySet(raw, AccountKey)| <= |raw|
    ensures IsSubsequence(r, MapRows(raw, CleanAccount))
    ensures forall j :: 0 <= j < |raw| && IsFirstOccurrence(raw, AccountKey, j) ==> CleanAccount(raw[j]) in r
    ensures forall i :: 0 <= i < |r| ==> IsCleanAccount(r[i])
  {
    DedupThenMap(raw, AccountKey, CleanAccount);
    MapRows(DedupBy(raw, AccountKey), CleanAccount)
  }

  /**
   * The rows of `clean_accounts` are the cleaned first occurrences of their
   * ids, in input order: row `k` is the cleaned input row at the `k`-th
   * first-occurrence position.
   */
  lemma CleanedAccountsInOrder(raw: seq<Account>)
    ensures exists idx :: FirstOccurrencePositions(raw, AccountKey, idx) && |idx| == |CleanedAccounts(raw)|
                          && forall k :: 0 <= k < |idx| ==> CleanedAccounts(raw)[k] == CleanAccount(raw[idx[k]])
  {
    DedupThenMapOrder(raw, AccountKey, CleanAccount);
  }

  /** `clean_accounts` is idempotent. */
  lemma CleanedAccountsIdempotent(raw: seq<Account>)
    ensures CleanedAccounts(CleanedAccounts(raw)) == CleanedAccounts(raw)
  {
    forall a ensures CleanAccount(CleanAccount(a)) == CleanAccount(a) {
      CleanAccountFixes(CleanAccount(a));
    }
    DedupThenMapIdempotent(raw, AccountKey, CleanAccount);
  }

  // The column assignments of `clean_accounts`, one function per statement.

  /** src/cleaning.py:66 */
  function CleanBalance(a: Account): Account { a.(balance := CleanCurrency(a.balance)) }
  /** src/cleaning.py:69 */
  function ParseOpenedDate(a: Account): Account { a.(openedDate := ParseDates(a.openedDate)) }
  /** src/cleaning.py:72 */
  function StandardiseStatus(a: Account): Account { a.(status := StandardiseCell(a.status)) }
  /** src/cleaning.py:74-75 */
  function RestrictStatus(a: Account): Account { a.(status := RestrictToDomain(a.status, AccountStatuses)) }
  /** src/cleaning.py:78 */
  function StandardiseAccountType(a: Account): Account { a.(accountType := StandardiseCell(a.accountType)) }
  /** src/cleaning.py:80-81 */
  function RestrictAccountType(a: Account): Account { a.(accountType := RestrictToDomain(a.accountType, AccountTypes)) }

  lemma CleanAccountSteps(a: Account)
    ensures CleanAccount(a)
         == RestrictAccountType(StandardiseAccountType(RestrictStatus(StandardiseStatus(ParseOpenedDate(CleanBalance(a))))))
  {
  }

  /** `clean_accounts`, one column assignment after another on a copy of the deduplicated rows. */
  method CleanAccounts(raw: seq<Account>) returns (r: seq<Account>)
    ensures r == CleanedAccounts(raw)
  {
    var rows := DedupBy(raw, AccountKey);
    var df := new Account[|rows|](i requires 0 <= i < |rows| => rows[i]);
    ghost var s0 := df[..];
    AssignColumn(df, CleanBalance);
    ghost var s1 := df[..];
    AssignColumn(df, ParseOpenedDate);
    ghost var s2 := df[..];
    AssignColumn(df, StandardiseStatus);
    ghost var s3 := df[..];
    AssignColumn(df, RestrictStatus);
    ghost var s4 := df[..];
    AssignColumn(df, StandardiseAccountType);
    ghost var s5 := df[..];
    AssignColumn(df, RestrictAccountType);
    r := df[..];
    forall i | 0 <= i < |rows| ensures r[i] == CleanAccount(rows[i]) {
      assert s0[i] == rows[i];
      CleanAccountSteps(rows[i]);
    }
  }

  // ---------------------------------------------------------------------------
  // Transactions (src/cleaning.py:85-106)

  /** What a cleaned transaction row looks like. */
  predicate IsCleanTransaction(t: Transaction)
  {
    && IsNumeric(t.amount)
    && IsDateTime(t.transactionDate)
    && (t.transactionType.Null? || (InDomain(t.transactionType, TransactionTypes) && IsStandard(t.transactionType.text)))
    && IsNumeric(t.isFraudFlag)
  }

  /**
   * The column rewrites of `clean_transactions` on one row: the amount is
   * cleaned as money, the date parsed, the type standardised and restricted,
   * the fraud flag made numeric. Key, account, merchant and category are
   * carried through.
   */
  function CleanTransaction(t: Transaction): (r: Transaction)
    ensures r.transactionId == t.transactionId && r.accountId == t.accountId
    ensures r.merchantName == t.merchantName && r.category == t.category
    ensures IsCleanTransaction(r)
  {
    t.(amount := CleanCurrency(t.amount),
       transactionDate := ParseDates(t.transactionDate),
       transactionType := CleanEnum(t.transactionType, TransactionTypes),
       isFraudFlag := ToNumeric(t.isFraudFlag))
  }

  /** A clean transaction row is left as it is by a second cleaning. */
  lemma CleanTransactionFixes(t: Transaction)
    requires IsCleanTransaction(t)
    ensures CleanTransaction(t) == t
  {
    assert CleanEnum(t.transactionType, TransactionTypes) == t.transactionType by {
      NanInNoDomain();
      CleanEnumFixes(t.transactionType, TransactionTypes);
    }
    CleanCurrencyFixes(t.amount);
    CleanTransactionOfFixedCells(t);
  }

  lemma CleanTransactionOfFixedCells(t: Transaction)
    requires CleanCurrency(t.amount) == t.amount
    requires IsDateTime(t.transactionDate)
    requires CleanEnum(t.transactionType, TransactionTypes) == t.transactionType
    requires IsNumeric(t.isFraudFlag)
    ensures CleanTransaction(t) == t
  {
  }

  /** `clean_transactions`: the first row of every `transaction_id`, cleaned, in input order. */
  function CleanedTransactions(raw: seq<Transaction>): (r: seq<Transaction>)
    ensures UniqueKeys(r, TransactionKey)
    ensures KeySet(r, TransactionKey) == KeySet(raw, TransactionKey)
    ensures |r| == |KeySet(raw, TransactionKey)| <= |raw|
    ensures IsSubsequence(r, MapRows(raw, CleanTransaction))
    ensures forall j :: 0 <= j < |raw| && IsFirstOccurrence(raw, TransactionKey, j) ==> CleanTransaction(raw[j]) in r
    ensures forall i :: 0 <= i < |r| ==> IsCleanTransaction(r[i])
  {
    DedupThenMap(raw, TransactionKey, CleanTransaction);
    MapRows(DedupBy(raw, TransactionKey), CleanTransaction)
  }

  /**
   * The rows of `clean_transactions` are the cleaned first occurrences of their
   * ids, in input order: row `k` is the cleaned input row at the `k`-th
   * first-occurrence position.
   */
  lemma CleanedTransactionsInOrder(raw: seq<Transaction>)
    ensures exists idx :: FirstOccurrencePositions(raw, TransactionKey, idx) && |idx| == |CleanedTransactions(raw)|
                          && forall k :: 0 <= k < |idx| ==> CleanedTransactions(raw)[k] == CleanTransaction(raw[idx[k]])
  {
    DedupThenMapOrder(raw, TransactionKey, CleanTransaction);
  }

  /** `clean_transactions` is idempotent. */
  lemma CleanedTransactionsIdempotent(raw: seq<Transaction>)
    ensures CleanedTransactions(CleanedTransactions(raw)) == CleanedTransactions(raw)
  {
    forall t ensures CleanTransaction(CleanTransaction(t)) == CleanTransaction(t) {
      CleanTransactionFixes(CleanTransaction(t));
    }
    DedupThenMapIdempotent(raw, TransactionKey, CleanTransaction);
  }

  // The column assignments of `clean_transactions`, one function per statement.

  /** src/cleaning.py:92 */
  function CleanAmount(t: Transaction): Transaction { t.(amount := CleanCurrency(t.amount)) }
  /** src/cleaning.py:95 */
  function ParseTransactionDate(t: Transaction): Transaction { t.(transactionDate := ParseDates(t.transactionDate)) }
  /** src/cleaning.py:98 */
  function StandardiseTransactionType(t: Transaction): Transaction { t.(transactionType := StandardiseCell(t.transactionType)) }
  /** src/cleaning.py:100-101 */
  function RestrictTransactionType(t: Transaction): Transaction { t.(transactionType := RestrictToDomain(t.transactionType, TransactionTypes)) }
  /** src/cleaning.py:104 */
  function FraudFlagToNumeric(t: Transaction): Transaction { t.(isFraudFlag := ToNumeric(t.isFraudFlag)) }

  lemma CleanTransactionSteps(t: Transaction)
    ensures CleanTransaction(t)
         == FraudFlagToNumeric(RestrictTransactionType(StandardiseTransactionType(ParseTransactionDate(CleanAmount(t)))))
  {
  }

  /** `clean_transactions`, one column assignment after another on a copy of the deduplicated rows. */
  method CleanTransactions(raw: seq<Transaction>) returns (r: seq<Transaction>)
    ensures r == CleanedTransactions(raw)
  {
    var rows := DedupBy(raw, TransactionKey);
    var df := new Transaction[|rows|](i requires 0 <= i < |rows| => rows[i]);
    ghost var s0 := df[..];
    AssignColumn(df, CleanAmount);
    ghost var s1 := df[..];
    AssignColumn(df, ParseTransactionDate);
    ghost var s2 := df[..];
    AssignColumn(df, StandardiseTransactionType);
    ghost var s3 := df[..];
    AssignColumn(df, RestrictTransactionType);
    ghost var s4 := df[..];
    AssignColumn(df, FraudFlagToNumeric);
    r := df[..];
    forall i | 0 <= i < |rows| ensures r[i] == CleanTransaction(rows[i]) {
      assert s0[i] == rows[i];
      CleanTransactionSteps(rows[i]);
    }
  }

  /** A cleaned transaction table has a float `amount` column. */
  lemma CleanedAmountsNumeric(raw: seq<Transaction>)
    ensures NumericAmounts(CleanedTransactions(raw))
    ensures ParsedTransactionDates(CleanedTransactions(raw))
  {
  }
}
