# Banking data-quality pipeline: cleaning, business rules and validation

This project models the part of the pipeline that does the work on its three
tables: customers, accounts and transactions.

- **Record cleaners.** They drop later repeats of each primary key and
  normalise strings (strip, then lower-case). They remove `£` and `,` from
  money before reading it as a number, parse dates, null an email that does
  not match the address pattern, and null an enumeration value outside its
  domain.
- **Business rules.** They make the sign of `amount` agree with debit or
  credit and recompute account balances from the transactions. They raise a
  high-risk alert through two left merges, remove transactions of closed
  accounts dated after the account was opened, and band amounts by size.
- **Validators and quality report.** The validators are row selections
  (orphan keys, sign/type mismatches, outliers, future and missing dates,
  out-of-domain enumerations). The report counts what they select.

How the pandas semantics are represented:

- **Cells.** A cell is dynamically typed, like a pandas object column: text,
  an exact decimal number, a timestamp in nanoseconds, or missing (NaN and
  NaT are both `Null`).
- **Missing values and keys.**
  - `astype(str)` turns a missing value into `"nan"`.
  - `drop_duplicates`, `isin` and `merge` match a missing key with a missing
    key.
  - `groupby` drops missing keys.
- **Tables.** A table is a sequence of row records.
- **Column assignments.** The cleaners and the sign rule are methods. Each
  copies the rows into a fresh array and assigns one column per source
  statement (`df[col] = ...`, `df.loc[mask, col] = np.nan`). Each method is
  proved equal to a specification function, and the properties are proved
  as lemmas about those functions.
- **Added columns.** A column a rule adds to a table (`recalculated_balance`,
  the alert columns, `transaction_size`) is a wrapper row type around the
  original row.
- **Pipeline.** The order in which `run_pipeline` composes these steps is
  modelled too, with the clock as a parameter, so that properties of the
  whole pipeline can be stated.

Modules, one file each:

| file | module | contents |
|---|---|---|
| `cells.dfy` | `Cells` | cells and exact decimals |
| `frames.dfy` | `Frames` | column assignment, boolean-mask selection, key sets, first-occurrence deduplication, unique-key lookup |
| `normalizers.dfy` | `Normalizers` | `str.strip`, `str.lower`, `str.replace`, number parsing and rendering, timestamp parsing, `astype(str)` |
| `tables.dfy` | `Tables` | the three record types and their enumeration domains |
| `cleaning.dfy` | `Cleaning` | the cleaners |
| `business_rules.dfy` | `BusinessRules` | the business rules |
| `validation.dfy` | `Validation` | the validators and the quality report |
| `pipeline.dfy` | `Pipeline` | the composition |

## Model

| member | source | states |
|---|---|---|
| Normalizers.Trim | src/cleaning.py:27 | `str.strip()` leaves no whitespace at either end |
| Normalizers.TrimSlice | src/cleaning.py:27 | the stripped string is a middle slice of the input; everything removed before and after it is whitespace |
| Normalizers.TrimTrimmed | src/cleaning.py:27 | stripping a string with no surrounding whitespace returns it unchanged |
| Normalizers.TrimPadded | src/cleaning.py:18 | stripping whitespace padding on both sides of a non-empty string without surrounding whitespace gives back that string |
| Normalizers.Lower | src/cleaning.py:28 | `str.lower()` keeps the length and lower-cases each character in place |
| Normalizers.Standardise | src/cleaning.py:24-29 | the result has no leading or trailing whitespace and no upper-case letter |
| Normalizers.StandardiseIdempotent | src/cleaning.py:24-29 | standardising twice equals standardising once; a string that is already standard is unchanged |
| Normalizers.StandardiseCell | src/cleaning.py:24-29 | `astype(str)` then standardise always yields standard text |
| Normalizers.StandardiseNull | src/cleaning.py:26 | a missing value becomes the text `"nan"` |
| Normalizers.StandardiseHigh | src/cleaning.py:24-29 | `" HIGH "` becomes `"high"` |
| Normalizers.RemoveChar | src/cleaning.py:16-17 | `str.replace(ch, "")` leaves no `ch`, and returns a string without `ch` unchanged |
| Normalizers.RemoveCharMembers | src/cleaning.py:16-17 | a character is in the result exactly when it is in the input and is not the removed one |
| Normalizers.RemoveCharAppend | src/cleaning.py:16-17 | removing a character distributes over concatenation |
| Normalizers.StripMoney | src/cleaning.py:15-17 | after the two replacements no pound sign and no comma remain |
| Normalizers.ParseRenderMagnitude | src/cleaning.py:21 | the digits of an unsigned decimal parse back to that decimal |
| Normalizers.ParseRenderNumber | src/cleaning.py:21 | `to_numeric(str(x)) == x` for every decimal `x` |
| Normalizers.RenderNumberChars | src/cleaning.py:15 | a rendered number is non-empty, ends in a digit, and has only digits, `-` and `.` |
| Normalizers.RenderNumberPlain | src/cleaning.py:15-18 | a rendered number has no pound sign, no comma and no surrounding whitespace |
| Normalizers.NanIsNotNumber | src/cleaning.py:21 | the text `"nan"` does not parse as a number |
| Normalizers.CleanCurrency | src/cleaning.py:12-21 | the result is always a number or NaN: the cleaner never raises |
| Normalizers.CleanCurrencyNumber | src/cleaning.py:12-21 | a number passes through unchanged |
| Normalizers.CleanCurrencyNull | src/cleaning.py:12-21 | NaN stays NaN |
| Normalizers.CleanCurrencyFixes | src/cleaning.py:12-21 | every cell of a float column is a fixed point |
| Normalizers.CleanCurrencyIdempotent | src/cleaning.py:12-21 | cleaning money twice equals cleaning it once |
| Normalizers.CleanCurrencyIgnoresPound | src/cleaning.py:16 | inserting a pound sign anywhere does not change the result |
| Normalizers.CleanCurrencyIgnoresComma | src/cleaning.py:17 | inserting a comma anywhere does not change the result |
| Normalizers.CleanCurrencyPoundAmount | src/cleaning.py:12-21 | a pound sign followed by a number reads as that number |
| Normalizers.CleanCurrencyPadded | src/cleaning.py:12-21 | a rendered number, with or without a pound sign in front and with any whitespace on either side, reads as that number; with `CleanCurrencyIgnoresComma` this covers amounts such as `" £1,250.50 "` |
| Normalizers.ParseNumberRejects | src/cleaning.py:21 | text that does not start with a digit, a sign or a point is not a number |
| Normalizers.CleanCurrencyRejects | src/cleaning.py:12-21 | money text whose first character is none of blank, digit, sign, point, comma or pound sign becomes NaN |
| Normalizers.CleanCurrencyDollar | src/cleaning.py:16-17 | every `$`-prefixed amount becomes NaN, because `$` is not removed |
| Normalizers.ToNumeric | src/cleaning.py:104 | the result is a number or NaN, and a cell that already is one is unchanged |
| Normalizers.ParseDates | src/cleaning.py:8-9 | the result is a timestamp or NaT, and a cell that already is one is unchanged |
| Cleaning.NoAtNoMatch | src/cleaning.py:43-44 | a string without `@` never matches the email pattern |
| Cleaning.InvalidEmailRejected | src/cleaning.py:43-45 | `"invalid_email"` does not match the pattern |
| Cleaning.EmailOfParts | src/cleaning.py:43 | any non-empty local part, `@`, non-empty domain, `.` and non-empty word suffix match the pattern |
| Cleaning.NanNotEmail | src/cleaning.py:40-45 | the `"nan"` of a missing email does not match, so the email stays null |
| Cleaning.NullUnlessEmail | src/cleaning.py:44-45 | the cell becomes text exactly when it was text matching the pattern; otherwise it becomes null |
| Cleaning.RestrictToDomain | src/cleaning.py:54 | the cell is kept when it is in the domain and nulled exactly when it is not |
| Cleaning.CleanEnum | src/cleaning.py:51-54 | the result is null, or a standard member of the domain |
| Cleaning.CleanEnumFixes | src/cleaning.py:51-54 | a null cell and a standard member of the domain are fixed points |
| Cleaning.CleanEnumIgnoresCase | src/cleaning.py:51-54 | `" HIGH "` is kept as the risk segment `"high"` |
| Cleaning.CleanEnumStandardises | src/cleaning.py:51-54 | any text cleans exactly as its stripped, lower-cased form does, so case and surrounding whitespace never decide membership |
| Cleaning.CleanCustomer | src/cleaning.py:40-54 | the key, name and country are kept; the cleaned row is clean: a null or matching standard email, a parsed date, and a null or in-domain segment |
| Cleaning.EmailFixed | src/cleaning.py:40-45 | the email rewrite keeps a null and a standard matching address |
| Cleaning.CleanCustomerFixes | src/cleaning.py:40-54 | a clean customer row is a fixed point |
| Cleaning.CleanedCustomers | src/cleaning.py:32-56 | the ids are unique and are those of the input; the length is the number of distinct ids; the rows are a subsequence of the cleaned input; the first row of every id is present; every row is clean |
| Cleaning.CleanedCustomersInOrder | src/cleaning.py:32-56 | row `k` of the result is the cleaned input row at the `k`-th position holding the first row of its `customer_id`, so the kept rows are in input order |
| Cleaning.CleanedCustomersIdempotent | src/cleaning.py:32-56 | `clean_customers(clean_customers(t)) == clean_customers(t)` |
| Cleaning.CleanCustomerSteps | src/cleaning.py:40-54 | the five column assignments compose to the row cleaner |
| Cleaning.CleanCustomers | src/cleaning.py:32-56 | the column-by-column rewrite of the deduplicated copy equals `CleanedCustomers` |
| Cleaning.CleanAccount | src/cleaning.py:66-81 | the key, owner and currency are kept; the balance is numeric, the date parsed, and status and type are null or in their domains |
| Cleaning.AccountEnumsFixed | src/cleaning.py:72-81 | clean status and account type cells are fixed points |
| Cleaning.CleanAccountFixes | src/cleaning.py:66-81 | a clean account row is a fixed point |
| Cleaning.CleanedAccounts | src/cleaning.py:59-83 | unique ids, equal to those of the input; length = number of distinct ids; subsequence of the cleaned input; first occurrences kept; every row clean |
| Cleaning.CleanedAccountsInOrder | src/cleaning.py:59-83 | row `k` of the result is the cleaned input row at the `k`-th first-occurrence position of `account_id` |
| Cleaning.CleanedAccountsIdempotent | src/cleaning.py:59-83 | `clean_accounts` is idempotent |
| Cleaning.CleanAccountSteps | src/cleaning.py:66-81 | the six column assignments compose to the row cleaner |
| Cleaning.CleanAccounts | src/cleaning.py:59-83 | the column-by-column rewrite equals `CleanedAccounts` |
| Cleaning.CleanTransaction | src/cleaning.py:92-104 | the key, account, merchant and category are kept; the amount is numeric, the date parsed, the type null or in domain, the fraud flag numeric |
| Cleaning.CleanTransactionFixes | src/cleaning.py:92-104 | a clean transaction row is a fixed point |
| Cleaning.CleanedTransactions | src/cleaning.py:85-106 | unique ids, equal to those of the input; length = number of distinct ids; subsequence of the cleaned input; first occurrences kept; every row clean |
| Cleaning.CleanedTransactionsInOrder | src/cleaning.py:85-106 | row `k` of the result is the cleaned input row at the `k`-th first-occurrence position of `transaction_id` |
| Cleaning.CleanedTransactionsIdempotent | src/cleaning.py:85-106 | `clean_transactions` is idempotent |
| Cleaning.CleanTransactionSteps | src/cleaning.py:92-104 | the five column assignments compose to the row cleaner |
| Cleaning.CleanTransactions | src/cleaning.py:85-106 | the column-by-column rewrite equals `CleanedTransactions` |
| Frames.AssignColumn | src/cleaning.py:40 | assigning a column rewrites every row in place by the given row function |
| Frames.FilterCount | src/validation.py:8-10 | `len(df[mask])` is the number of positions whose row the mask accepts, so repeated rows are counted each time |
| Frames.FilterSelects | src/validation.py:8-10 | `df[mask]` is a subsequence of `df`; a row is in it exactly when it is in `df` and the mask accepts it; its length is the number of accepted positions |
| Frames.DedupByKeeps | src/cleaning.py:37 | `drop_duplicates(subset=key)` leaves unique keys, the same key set, one row per key, as a subsequence of the input |
| Frames.DedupBySubsequence | src/cleaning.py:37 | `drop_duplicates` keeps input rows, unmodified and in input order |
| Frames.DedupByFirstOccurrences | src/cleaning.py:37 | the rows kept are exactly the first occurrences of their keys; row `k` is the input row at the `k`-th first-occurrence position, in increasing order of position |
| Frames.DedupByOrder | src/cleaning.py:37 | the result is the input read at an increasing list of positions that holds exactly the first occurrence of every key |
| Frames.FirstPositionsAreFirst | src/cleaning.py:37 | the positions the dedup keeps are increasing, each is the first row of its key, and no first row is missed |
| Frames.DedupByUnique | src/cleaning.py:37 | a table whose keys are already unique is unchanged |
| Frames.DuplicateCountIsSurplus | src/validation.py:79-81 | `duplicated().sum()` is the length minus the number of distinct keys, and is 0 exactly when keys are unique |
| Frames.LookupFinds | src/business_rules.py:56-66 | a left-merge lookup finds a row exactly when the key occurs, and on unique keys it finds the row with that key |
| Frames.DedupThenMapIdempotent | src/cleaning.py:32-106 | deduplicating then applying an idempotent, key-preserving row cleaner is idempotent |
| Frames.DedupThenMapOrder | src/cleaning.py:32-106 | after deduplicating and rewriting, row `k` is the rewritten input row at the `k`-th first-occurrence position |
| BusinessRules.AbsCell | src/business_rules.py:11-16 | `abs()` keeps NaN and gives the absolute value of a number |
| BusinessRules.EnforceSignSpec | src/business_rules.py:6-18 | only `amount` changes and its absolute value is kept; a null amount and a type other than debit or credit leave the row untouched; a debit ends at or below zero and a credit at or above |
| BusinessRules.EnforceSignFixesExactlyCoherentRows | src/business_rules.py:10-16 | a row is unchanged exactly when it has no sign/type mismatch |
| BusinessRules.EnforceSignRemovesMismatch | src/business_rules.py:10-16 | after enforcement the row has no mismatch |
| BusinessRules.EnforceSignIdempotent | src/business_rules.py:10-16 | enforcing twice equals enforcing once |
| BusinessRules.SignEnforced | src/business_rules.py:6-18 | same length; every other column kept row for row; the absolute value kept; a row with a null amount or a type other than debit and credit is unchanged; debits end at or below zero and credits at or above; no mismatch in any row; each row is the one-row rule `EnforceSign` applied to the input row |
| BusinessRules.SignEnforcedIdempotent | src/business_rules.py:6-18 | the whole-table rule is idempotent |
| BusinessRules.EnforceTransactionSign | src/business_rules.py:6-18 | the in-place rewrite of the copy equals `SignEnforced` |
| BusinessRules.AmountSumAbsent | src/business_rules.py:26-29 | an account with no transactions sums to 0 |
| BusinessRules.AmountSumAppend | src/business_rules.py:26-29 | the per-account sum is additive over concatenated tables |
| BusinessRules.RecalculateAccountBalance | src/business_rules.py:21-44 | the same accounts in the same order; the recalculated balance is the sum of the account's non-null amounts, and 0 for an account without transactions or with a missing id |
| BusinessRules.AmountSumInAdd | src/business_rules.py:26-29 | the sum over a set of accounts grows by the sum of an added account |
| BusinessRules.BalancesReconcile | src/business_rules.py:21-44 | with unique, non-missing account ids, the recalculated balances total the amounts of all transactions on those accounts |
| BusinessRules.FlagHighRiskLargeTransactions | src/business_rules.py:47-74 | same rows in the same order; the joined customer and segment are those of the matching account and customer, and null for orphans; the alert holds exactly when the segment is `"high"`, \|amount\| > threshold and the fraud flag is 0 |
| BusinessRules.OrphanNeverAlerts | src/business_rules.py:56-72 | a transaction whose account does not exist never raises the alert |
| BusinessRules.AlertNeedsFlagAndStrictExcess | src/business_rules.py:68-72 | a null or non-zero fraud flag, a null amount, or an amount from -threshold to threshold inclusive (so exactly ±threshold too) gives no alert |
| BusinessRules.AlertThresholdExamples | src/business_rules.py:51-72 | 50000 raises no alert at the default threshold; -60000 does with fraud flag 0 and does not with fraud flag 1 |
| BusinessRules.AsWrittenAlwaysFails | src/business_rules.py:84-96 | as written, the rule fails on the missing `status` column for every input |
| BusinessRules.ClosedAccounts | src/business_rules.py:84-86 | the closed accounts are a subsequence holding exactly the accounts with status `"closed"`, one row per closed position, so repeated rows stay repeated |
| BusinessRules.RemoveTransactionsAfterAccountClosure | src/business_rules.py:77-101 | a subsequence of the input holding exactly the rows not dated after the opening of their closed account; rows with a null date, and rows of accounts that are not closed, are kept; its length is the number of positions not dated after closure, so repeated rows stay repeated |
| BusinessRules.ClosedAccountRule | src/business_rules.py:94-99 | a transaction of a closed account is removed exactly when its date is after the account's opening date |
| BusinessRules.SizeBands | src/business_rules.py:108-120 | small below 100, medium from 100 to 1000 inclusive, large above 1000 (all in absolute value), unknown exactly when the amount is NaN |
| BusinessRules.SizeIgnoresSign | src/business_rules.py:108-112 | the band depends only on \|amount\|, so sign enforcement does not change it |
| BusinessRules.SizeExamples | src/business_rules.py:108-120 | -100 and 1000 are medium, 99.99 small, 1000.01 large |
| BusinessRules.ClassifyTransactionSize | src/business_rules.py:104-122 | every row, in order, with its band; unknown exactly for NaN; the small and large bands by value |
| Validation.InvalidAccountLinks | src/validation.py:6-12 | a subsequence; an account is in it exactly when its `customer_id` is not a customer id; its length is the number of accounts whose `customer_id` is not a customer id |
| Validation.InvalidTransactionLinks | src/validation.py:15-21 | a subsequence; a transaction is in it exactly when its `account_id` is not an account id; its length is the number of transactions whose `account_id` is not an account id |
| Validation.SignInconsistencies | src/validation.py:25-34 | a subsequence; a row is in it exactly when it is a debit with amount > 0 or a credit with amount < 0; its length is the number of positions holding a positive debit or a negative credit |
| Validation.SignInconsistenciesSkip | src/validation.py:25-34 | a zero or null amount is never reported |
| Validation.NoSignInconsistenciesAfterEnforcement | src/validation.py:25-34 | after `enforce_transaction_sign` nothing is reported |
| Validation.ExtremeOutliers | src/validation.py:37-41 | a subsequence; a row is in it exactly when \|amount\| > threshold; its length is the number of positions whose \|amount\| exceeds the threshold |
| Validation.OutlierThresholdIsStrict | src/validation.py:37-41 | amounts of exactly ±100000 are not reported; 100000.01 is |
| Validation.FutureTransactions | src/validation.py:45-49 | a subsequence; a row is in it exactly when its date is after `today`; null dates never are; its length is the number of positions dated after `today` |
| Validation.InvalidDates | src/validation.py:52-54 | a subsequence; a row is in it exactly when the named column is null; its length is the number of positions where the named column is null |
| Validation.InvalidAccountStatus | src/validation.py:58-64 | a subsequence; a row is in it exactly when `status` is outside the domain, so null statuses are reported; its length is the number of positions whose status is outside the domain |
| Validation.InvalidRiskSegment | src/validation.py:67-73 | a subsequence; a row is in it exactly when `risk_segment` is outside the domain, so null segments are reported; its length is the number of positions whose segment is outside the domain |
| Validation.CleanAccountStatusOnlyNull | src/validation.py:58-64 | on cleaned accounts, the rows reported are exactly those with a null status |
| Validation.CleanRiskSegmentOnlyNull | src/validation.py:67-73 | on cleaned customers, the rows reported are exactly those with a null segment |
| Validation.BuildQualityReport | src/validation.py:76-96 | each duplicate count is the length minus the number of distinct keys, and is 0 exactly when keys are unique; the orphan-account, orphan-transaction, future-transaction and sign-inconsistency counts are the numbers of positions holding such a row, so a repeated row is counted each time |
| Validation.EmptyTablesReportNothing | src/validation.py:76-96 | empty tables give an all-zero report |
| Validation.ReportIsCleanExactly | src/validation.py:76-96 | the report is all zero exactly when keys are unique, every foreign key resolves, and no transaction is in the future or sign-inconsistent |
| Pipeline.EnrichTransactions | src/pipeline.py:44-47 | flagging then sizing keeps the transactions row for row, and the band is unknown exactly for NaN |
| Pipeline.EnrichedTransactionsAreGood | src/pipeline.py:42-47 | the final transactions have unique ids, numeric amounts, no sign mismatch, and an unknown band exactly for NaN |
| Pipeline.PipelineReportCounts | src/pipeline.py:42-55 | the report on the pipeline's tables counts no duplicates and no sign inconsistencies |
| Pipeline.RunPipeline | src/pipeline.py:35-55 | the customers are `CleanedCustomers` of the input and the accounts, without their added balance, are `CleanedAccounts`; one row per distinct key in each table; the transactions are the sign-enforced cleaned ones and meet `GoodTransactions`; the balances reconcile with the transactions; the report has zero duplicates and zero sign inconsistencies |

## Left out

- src/generate_data.py is not part of this model. It fabricates random data and writes CSV files.
- The CSV reading and writing, the `print` calls and the directory creation of src/pipeline.py are left out. Only its order of calls is modelled, in `Pipeline.RunPipeline`.
- The clock `pd.Timestamp.today()` is the parameter `today` of `Validation.FutureTransactions` and `Validation.BuildQualityReport`.
- `\w` in the email pattern is ASCII letters, digits and `_`. Whitespace for `str.strip()` is Python's whitespace set (ASCII whitespace, U+001C to U+001F, U+0085, U+00A0, U+1680, U+2000 to U+200A, U+2028, U+2029, U+202F, U+205F and U+3000), and `str.lower()` lower-cases ASCII letters only. The pattern itself is not built from a regular-expression engine.
- Normalizers.ParseNumber: `pd.to_numeric` is modelled as an optional sign, digits and an optional point with digits. Exponents, `inf`, `nan` spelled as a number and surrounding whitespace are not accepted.
- Normalizers.ParseTimestamp: `pd.to_datetime` is modelled as the ISO forms `YYYY-MM-DD` and `YYYY-MM-DD HH:MM:SS`, with a space or `T` before the time and an optional fraction of one to nine digits. Other date formats become NaT. `pd.to_datetime` on a whole column infers one format from the first value and applies it to every row, so a column mixing dates with and without a time can coerce some rows to NaT that the model, which parses each cell on its own, reads as timestamps.
- Normalizers.ParseDates: a number in a date column counts nanoseconds since the epoch, and a number with a fraction is truncated toward zero.
- Normalizers.RenderNumber: `str()` of a float is modelled as the exact decimal with its own number of fraction digits, not Python's shortest round-trip form.
- Normalizers.ToNumeric: a timestamp in `is_fraud_flag` becomes NaN rather than its integer value.
- Amounts are exact decimals, not IEEE doubles. `BusinessRules.RecalculateAccountBalance` sums exact reals, so float rounding in the per-account sums is not modelled.
- BusinessRules.SignEnforced: requires every debit or credit amount to be a number or NaN, because `abs()` of a text amount raises in pandas. That error path is not modelled.
- BusinessRules.ClassifyTransactionSize: requires numeric amounts, because `abs()` of a text amount raises.
- Validation.SignInconsistencies and Validation.ExtremeOutliers require a numeric `amount` column. Comparing text with a number raises.
- Validation.FutureTransactions requires a datetime `transaction_date` column. Comparing text with a timestamp raises.
- BusinessRules.RecalculateAccountBalance: requires a numeric `amount` column. `groupby(...).sum()` of a text column concatenates the strings instead of adding, and that result is not modelled.
- BusinessRules.FlagHighRiskLargeTransactions: requires a numeric `amount` column, because `abs()` of a text amount raises.
- BusinessRules.RemoveTransactionsAfterAccountClosure: requires a datetime `transaction_date` column, because comparing a text date with the `opened_date` timestamp raises. The error path is not modelled.
- BusinessRules.FlagHighRiskLargeTransactions: requires unique account and customer ids. A left merge on a duplicated right-hand key repeats rows, and that is not modelled.
- BusinessRules.RemoveTransactionsAfterAccountClosure: requires unique ids among the closed accounts, for the same reason.
- Key cells compare by their representation: `Number(Decimal(1, 0))` and `Number(Decimal(10, 1))` are different keys in `Frames.KeySet`, `Frames.DedupBy`, `Frames.Lookup` and the `isin` validators, while pandas sees `1.0 == 1.0`. The ids of the data are strings, where the two agree.
- Added columns are wrapper row types (`BalancedAccount`, `FlaggedTransaction`, `Sized`), not columns assigned in place on a copy. The column order of the written tables is not modelled.
- The `opened_date` column that the merge adds and `drop` removes again never exists in the model: the result has the transaction row type.

## Findings

| source | as written | input that shows it | evidently intended | confidence | as-written member | corrected member |
|---|---|---|---|---|---|---|
| src/business_rules.py:84-96 | `closed_accounts` keeps only `account_id` and `opened_date`, so the merged frame has no `status` column and `df["status"]` raises `KeyError` | any tables, the empty ones included | drop the transactions of closed accounts dated after the account's `opened_date`, keeping every other row | not executed | BusinessRules.AsWrittenAlwaysFails | BusinessRules.RemoveTransactionsAfterAccountClosure |
