# PayPal dashboard — a verified model of its core

This project models the decision and data rules of a small PayPal dashboard. The backend
handlers and the page logic are modelled; the HTTP plumbing and the rendering are not.

- **Balance.** `getBalance` picks the stored credentials and computes a transaction-search window
  of at most 31 days. When PayPal refuses a read it falls back to demo data. It maps PayPal's
  JSON into the response, with a default for every missing field, and records a `balance_check` row.
- **Credentials.** The credential vault stores client id/secret pairs as `hex(iv) ":" hex(ciphertext)`.
  It covers key derivation and the save checks. Saving is an upsert keyed by (environment, remark).
  It also covers delete by id, listing, and choosing by remark or earliest creation time.
- **History.** `getHistory` keeps the caller's rows, optionally for one environment, newest first.
  It reports the total, one page of `limit` rows from `offset`, and `hasMore`.
- **Register.** `register` runs its checks in order: invitation code, e-mail pattern, password
  length, unused e-mail. It then inserts the user.
- **Payment.** `createPayment` applies the amount guard and builds the request body with its
  defaults. It picks the approval link and writes the `payment` audit row.
- **Pages and contexts.**
  - The transaction-history pager: reset, load more and the environment filter.
  - The dashboard page: the `id:environment` credential selector, the recent-transactions and
    balance loads with their fallbacks, and the amount formatting.
  - The language context.
  - The credentials form: per-environment counts, and trimming the fields before sending them.

Mutable state is a `class` whose methods say what they change: the credential, user and
transaction tables, and the state of the pager, dashboard, form and language provider. Each
method is proved against a function of the old state. Lookups, filters, mappings and validators
are functions, and lemmas state what the source promises about them.

Modelling choices:

- Time is integer milliseconds, with a day of exactly 86 400 000 ms.
- JavaScript `||` defaults are modelled with `Option`: an absent value, `""` and `0` are all falsy.
- SQL queries are functions over row sequences: `WHERE` is `Filter`, `ORDER BY … DESC` is
  `SortDesc`, and `LIMIT/OFFSET` is `Page`.
- The network calls, the cipher, the IVs, the clock and the bcrypt hash are all parameters.

Module layout: `Wrappers` (Option, Result, errors), `Text` (the JavaScript string built-ins the
code relies on), `Common` (environments and the SQL row operations), then one module per source
file.

## Model

| member | source | states |
|---|---|---|
| Wrappers.OrElse | backend/paypal/balance.ts:264 | (with the predicate `Wrappers.Truthy`) `s \|\| fallback` for strings: the value when present and non-empty, the fallback otherwise |
| Wrappers.IntOrElse | backend/paypal/balance.ts:66 | `n \|\| fallback` for numbers: absent and 0 both give the fallback |
| Text.LeadingSpaceSpec | backend/paypal/credentials.ts:64 | the leading run that `trim` drops is white space and stops at the first other character |
| Text.TrailingSpaceSpec | backend/paypal/credentials.ts:64 | the trailing run that `trim` drops is white space and starts after the last other character |
| Text.TrimSpec | backend/paypal/credentials.ts:64-70 | `Text.Trim`: `trim` keeps the stretch between the leading and trailing white space, and that stretch neither starts nor ends with white space |
| Text.TrimTail | backend/paypal/credentials.ts:64-70 | what `trim` drops at the end is white space, and what it keeps does not end with any |
| Text.TrimEmptyIffAllSpace | backend/paypal/credentials.ts:64-70 | `!s.trim()` holds exactly when every character of `s` is white space |
| Text.TrimIdempotent | frontend/components/CredentialsManager.tsx:53-55 | trimming an already trimmed field changes nothing |
| Text.Split | frontend/pages/Dashboard.tsx:143 | `split` yields at least one part, and no part contains the separator |
| Text.JoinSplit | backend/paypal/credentials.ts:48-50 | joining the parts of a split with the same separator gives the text back |
| Text.SplitWithoutSeparator | frontend/pages/Dashboard.tsx:143 | a text without the separator splits into itself alone |
| Text.SplitAtFirst | backend/paypal/credentials.ts:48-50 | the first part is the text before the first separator; the rest split what follows |
| Text.DecimalString | backend/paypal/credentials.ts:125 | `id.toString()` is a non-empty run of decimal digits without a leading zero |
| Text.DigitRun | backend/paypal/balance.ts:74 | `Text.ParseInt`: `parseInt` reads exactly the longest run of digits at the front |
| Text.ParseIntDecimal | backend/paypal/balance.ts:74 | `parseInt(n.toString())` is `n` for every non-negative id |
| Text.DecimalStringHasNo | frontend/pages/Dashboard.tsx:274 | a rendered id contains no ':' |
| Text.Utf16Length | backend/auth/register.ts:37 | `length` counts UTF-16 code units: between one and two per character |
| Common.EnvironmentFilter | backend/transaction/history.ts:40 | the filter applies exactly when the parameter is "sandbox" or "live", and to that environment |
| Common.FilterSpec | backend/transaction/history.ts:66-68 | `Common.Filter`: a `WHERE` keeps exactly the rows satisfying it, and nothing else |
| Common.ComplementaryFiltersPartition | backend/paypal/credentials.ts:115-117 | two complementary filters split the rows between them, as a multiset |
| Common.InsertDescSorted | backend/transaction/history.ts:69 | inserting a row into a newest-first sequence keeps it newest first |
| Common.InsertDescPermutes | backend/transaction/history.ts:69 | inserting adds that row and loses none |
| Common.SortDescSpec | backend/transaction/history.ts:69 | `Common.SortDesc`: `ORDER BY … DESC` yields the same rows, as a multiset, in descending key order |
| Common.PageSpec | backend/transaction/history.ts:70 | `Common.Page`: `LIMIT l OFFSET o` has min(l, n − o) rows (none past the end), each the row at o + k |
| Common.PagesConcatenate | backend/transaction/history.ts:70 | the page of a rows at o followed by the page of b rows at o + a is the page of a + b rows at o |
| Credentials.Utf8OfAscii | backend/paypal/credentials.ts:38 | an ASCII secret encodes to one byte per character |
| Credentials.CipherKey | backend/paypal/credentials.ts:38 | the key is the first min(32, \|utf8(secret)\|) bytes of the secret |
| Credentials.DevelopmentCipherKey | backend/paypal/credentials.ts:9-17 | the development default secret yields a full 32-byte key |
| Credentials.ShortAsciiSecretRejected | backend/paypal/credentials.ts:38-40 | a configured ASCII secret under 32 characters yields a key shorter than AES-256 needs |
| Credentials.HexEncode | backend/paypal/credentials.ts:43 | hex output has two characters per byte |
| Credentials.HexDecode | backend/paypal/credentials.ts:49 | hex decoding reads at most one byte per two characters |
| Credentials.HexByteDecodes | backend/paypal/credentials.ts:49 | the two hex digits of a byte read back as that byte |
| Credentials.HexPairDecodes | backend/paypal/credentials.ts:49 | a byte's hex pair, followed by anything, decodes to that byte first |
| Credentials.HexRoundTrip | backend/paypal/credentials.ts:43-49 | hex-decoding the hex of a byte string gives the bytes back |
| Credentials.HexHasNoSeparator | backend/paypal/credentials.ts:43-48 | hex text never contains the ':' separator |
| Credentials.ParsePayload | backend/paypal/credentials.ts:48-50 | the IV part has no ':'; a text without ':' is all IV with an empty ciphertext part (`[].join(':')` is ""); otherwise the text is the IV part, ':' and the ciphertext part |
| Credentials.ParseFrame | backend/paypal/credentials.ts:43-50 | splitting a stored frame gives back the hex of the IV and the hex of the ciphertext |
| Credentials.Encrypt | backend/paypal/credentials.ts:37-44 | encryption succeeds exactly when the key is 32 bytes; the frame starts with the 32 hex characters of the IV, then ':' |
| Credentials.Decrypt | backend/paypal/credentials.ts:46-55 | an IV that is not 16 bytes is refused first, then a key that is not 32 bytes, then a ciphertext text of odd length (which `decipher.update` rejects as hex); every decryption failure is an internal error |
| Credentials.HexEncodeEven | backend/paypal/credentials.ts:42-43 | hex output always has an even length, so the stored ciphertext passes the odd-length check |
| Credentials.DecryptEncrypt | backend/paypal/credentials.ts:37-55 | decrypt(encrypt(p)) == p for an invertible cipher |
| Credentials.DistinctIvsDistinctPayloads | backend/paypal/credentials.ts:39-43 | different IVs give different stored texts, even for the same plain text |
| Credentials.DecryptWithoutSeparatorFails | backend/paypal/credentials.ts:46-54 | a stored text without ':' has an empty ciphertext and never decrypts |
| Credentials.ValidateSave | backend/paypal/credentials.ts:64-70 | a blank client id or secret fails first, then a blank remark; otherwise the request passes |
| Credentials.FindPair | backend/paypal/credentials.ts:78 | finds the row holding (environment, remark), or shows that none does |
| Credentials.Upsert | backend/paypal/credentials.ts:75-83 | a new pair appends a row with the next id; a conflict replaces only the two ciphertexts and `updated_at`; the key constraint is kept |
| Credentials.UpsertNamesOneRow | backend/paypal/credentials.ts:75-83 | after an upsert the pair names exactly one row, which holds the new ciphertexts; the table grows only for a new pair |
| Credentials.WithoutId | backend/paypal/credentials.ts:158-161 | the delete keeps every row with another id and only those |
| Credentials.WithoutIdRemovesOne | backend/paypal/credentials.ts:148-161 | deleting an existing id from a keyed table removes exactly one row |
| Credentials.WithoutIdKeepsAll | backend/paypal/credentials.ts:158-161 | deleting an absent id changes nothing |
| Credentials.KeyedAfterDelete | backend/paypal/credentials.ts:158-161 | a delete keeps the unique id and (environment, remark) constraints |
| Credentials.Earliest | backend/paypal/credentials.ts:183-187 | `ORDER BY created_at ASC LIMIT 1` finds a row of the environment created no later than any other, and finds one whenever there is one |
| Credentials.FindCredential | backend/paypal/credentials.ts:165-189 | with a remark, the row of that (environment, remark); without one, the earliest of the environment; none exactly when no row qualifies |
| Credentials.GetDecrypted | backend/paypal/credentials.ts:165-198 | NotFound exactly when no row is chosen; for the chosen row, a failing client-id decryption gives its error, else a failing secret decryption gives its error, else Ok with both decryptions; Ok exactly when a row is found and both decrypt |
| Credentials.OfEnvironment | backend/paypal/credentials.ts:102-105 | as many rows as the environment has |
| Credentials.OfEnvironmentSpec | backend/paypal/credentials.ts:102-105 | the environment's rows, exactly those (as a multiset), ordered by `created_at` descending |
| Credentials.PartitionByEnvironment | backend/paypal/credentials.ts:115-117 | the live rows and the sandbox rows together are the whole table |
| Credentials.ListedRows | backend/paypal/credentials.ts:94-119 | with an exact environment, exactly its rows, newest first; otherwise every row exactly once, the live rows before the sandbox rows, each group newest first |
| Credentials.DescribeAll | backend/paypal/credentials.ts:121-132 | succeeds exactly when every client id decrypts; then one entry per row, in order, each with `hasClientSecret`; otherwise the error is that of the first row whose client id fails |
| Credentials.ListCredentials | backend/paypal/credentials.ts:88-137 | `getCredentials` lists the selected rows with their decrypted client ids; otherwise it fails with the (internal) error of the first listed row whose client id does not decrypt |
| Credentials.CredentialTable.constructor | backend/paypal/credentials.ts:75-77 | an empty table whose id sequence starts at 1 |
| Credentials.CredentialTable.Save | backend/paypal/credentials.ts:58-85 | validation failures and a bad key leave the table unchanged; otherwise the untrimmed inputs are encrypted and upserted |
| Credentials.CredentialTable.Delete | backend/paypal/credentials.ts:141-163 | an id that parses to no row gives NotFound and no change; otherwise exactly that row goes |
| History.TransactionLog.Append | backend/paypal/balance.ts:256-260 | an insert appends one row with the next id, keeping ids below the sequence and pairwise distinct |
| History.MatchingSpec | backend/transaction/history.ts:39-50 | `History.Matching`: the counted rows are exactly the caller's rows that pass the environment filter |
| History.Newest | backend/transaction/history.ts:69 | `ORDER BY created_at DESC` keeps every row (the same multiset and length) and orders them by `created_at` descending |
| History.ToTransaction | backend/transaction/history.ts:93-102 | the id becomes a string; a zero amount and an empty currency are dropped; transaction id, type, status, environment and creation time are kept |
| History.ToTransactionsSpec | backend/transaction/history.ts:91-103 | one transaction per row, in the rows' order |
| History.ToTransactionsConcat | backend/transaction/history.ts:91-103 | mapping two pages one after the other is mapping them joined |
| History.PageRowsSpec | backend/transaction/history.ts:54-89 | a page has exactly min(limit, total − offset) rows (none past the end), the k-th being the (offset + k)-th newest of the caller's filtered rows; all are the caller's, newest first |
| History.HistoryContract | backend/transaction/history.ts:32-109 | `History.HistoryOf`: Ok exactly when the effective limit and offset are non-negative; `total` counts every matching row; the page has exactly min(limit, total − offset) entries (none past the end), entry k being the mapping of the (offset + k)-th newest matching row, newest first; `hasMore` = offset + limit < total |
| History.TotalIgnoresPaging | backend/transaction/history.ts:39-51 | `total` does not depend on limit or offset |
| History.ExplicitWindow | backend/transaction/history.ts:35-36 | an explicit positive limit and an explicit offset are used as given |
| History.PageRowsConcatenate | backend/transaction/history.ts:66-87 | two adjacent windows of the caller's rows together are the window spanning both |
| History.ConsecutiveWindows | backend/transaction/history.ts:66-103 | the transactions of two adjacent windows together are those of the window spanning both |
| History.ConsecutivePages | backend/transaction/history.ts:35-108 | on an unchanged table, requesting the page right after a page continues it: those two pages neither skip nor repeat a row |
| History.MapRows | backend/transaction/history.ts:91-103 | the `for await` loop yields the mapping of each row of the page, in order |
| History.GetHistory | backend/transaction/history.ts:32-109 | the handler's steps compute exactly the answer described by `HistoryContract` |
| Balance.EffectiveLookback | backend/paypal/balance.ts:66 | the lookback is the requested count unless absent or 0, then 30; it is never clamped |
| Balance.CeilDaysAtMost | backend/paypal/balance.ts:155-157 | ceil(span / day) ≤ k exactly when the span is at most k whole days |
| Balance.ExplicitWindowBounded | backend/paypal/balance.ts:143-160 | `Balance.SearchWindow`: with both dates, the end is min(end, now) and the window is at most 31 days, with the start kept or pulled to end − 31 days |
| Balance.ExplicitStartKept | backend/paypal/balance.ts:154-160 | the requested start is kept exactly when the clamped span is at most 31 days |
| Balance.LookbackWindow | backend/paypal/balance.ts:161-166 | `Balance.SearchWindow`: without both dates the window ends now and spans min(lookback, 31) days |
| Balance.ComputeWindow | backend/paypal/balance.ts:139-166 | the statements that reassign `startDate`/`endDate` produce the window described above |
| Balance.CredentialById | backend/paypal/balance.ts:72-79 | finds a row with that id in that environment, or shows there is none |
| Balance.SelectCredentials | backend/paypal/balance.ts:69-85 | an id naming no row of the environment gives NotFound; an id naming a row gives the credentials selected by that row's remark; without an id the environment's default credentials are used |
| Balance.SelectedIdIsUsed | backend/paypal/balance.ts:70-81 | in a keyed table the remark lookup returns the very row the id named; the result is that row's decrypted pair, Ok exactly when both of its fields decrypt |
| Balance.MapBalance | backend/paypal/balance.ts:263-266 | each field takes the first truthy value of its fallback chain, ending in "USD" and "0.00" |
| Balance.ListOrEmpty | backend/paypal/balance.ts:182 | an absent list reads as empty |
| Balance.MapBalances | backend/paypal/balance.ts:263-266 | one entry per reported balance, in order |
| Balance.MapTransaction | backend/paypal/balance.ts:269-285 | type is "credit" exactly when the amount reads as non-negative; every field has its default |
| Balance.MissingInfoDefaults | backend/paypal/balance.ts:270-283 | a result without `transaction_info` is all defaults |
| Balance.BalancesOrDemo | backend/paypal/balance.ts:108-136 | PayPal's balances report, or the demo balance when it is refused |
| Balance.TransactionsOrDemo | backend/paypal/balance.ts:180-242 | the search's `transaction_details` (empty when absent), or the three demo transactions when it is refused |
| Balance.Respond | backend/paypal/balance.ts:262-286 | echoes the lookback; `transactionCount` is the number of mapped transactions, each mapped from the raw one at its position |
| Balance.DemoResponse | backend/paypal/balance.ts:108-242 | with both reads refused the answer is 3564.89 USD and the three demo transactions: debit, credit, debit |
| Balance.AuditRow | backend/paypal/balance.ts:256-260 | the recorded row is a completed `balance_check` of the environment, with id `balance_<now>` |
| Balance.BalanceContract | backend/paypal/balance.ts:63-287 | a credential failure or a failed token exchange is an error, and only those; a success echoes the lookback and counts its transactions |
| Balance.GetBalance | backend/paypal/balance.ts:63-287 | the handler computes `BalanceOf` and appends exactly one audit row on success, none on failure |
| Payment.BodyOf | backend/paypal/payment.ts:73-89 | a PayPal-funded sale of the requested amount and currency; an absent or empty description gets the default |
| Payment.FirstApproval | backend/paypal/payment.ts:108 | the position of the first link whose rel is "approval_url", or none |
| Payment.ApprovalUrl | backend/paypal/payment.ts:108 | without links there is no URL; a URL is the href of an approval link |
| Payment.ApprovalUrlIsFirst | backend/paypal/payment.ts:108 | the first approval link wins; later ones are ignored |
| Payment.PaymentContract | backend/paypal/payment.ts:38-122 | amount ≤ 0 is refused first; then a credentials error, "PayPal authentication failed" or "PayPal payment creation failed", in that order; Ok exactly when the amount is positive, the default credentials decrypt and both PayPal calls succeed; a success echoes amount and currency, with PayPal's id, state and approval link |
| Payment.PaymentRefusedWithoutCredentials | backend/paypal/payment.ts:54-62 | a positive payment is refused as not configured exactly when the environment has no credentials |
| Payment.PaymentUsesEarliestCredentials | backend/paypal/payment.ts:59-62 | when the environment has credentials, the token exchange is given the decrypted pair of the environment's earliest row |
| Payment.PaymentRow | backend/paypal/payment.ts:111-114 | the audit row is a `payment` with PayPal's id and state and the requested amount and currency |
| Payment.PaymentRowListed | backend/paypal/payment.ts:113 | a recorded (positive) payment amount is kept when the history lists it |
| Payment.CreatePayment | backend/paypal/payment.ts:50-123 | the handler computes `PaymentOf` and writes the audit row only after PayPal created the payment |
| Register.IndexOf | backend/auth/register.ts:31 | the first position of a character, or proof of its absence |
| Register.EmailOkMatchesPattern | backend/auth/register.ts:31-34 | `Register.EmailOk`: the e-mail check accepts exactly the strings of the form a@b.c, each part a non-empty run without white space or '@' |
| Register.EmailOkSound | backend/auth/register.ts:31 | an accepted e-mail matches the pattern |
| Register.EmailOkComplete | backend/auth/register.ts:31 | an e-mail matching the pattern is accepted |
| Register.CheckRequest | backend/auth/register.ts:24-48 | the checks run in order (invitation, e-mail, password, duplicate), the first failure decides the error, and only a request passing all four passes |
| Register.BmpLength | backend/auth/register.ts:37 | a string of Basic Multilingual Plane characters has `length` equal to its character count |
| Register.EightCharactersSuffice | backend/auth/register.ts:37-39 | a password of exactly eight such characters passes the length check |
| Register.ResponseOf | backend/auth/register.ts:70-75 | the response echoes the row, with an id string that parses back to the row's id |
| Register.UserTable.constructor | backend/auth/register.ts:61 | an empty users table whose id sequence starts at 1 |
| Register.UserTable.Register | backend/auth/register.ts:23-76 | a failed check inserts nothing; a pass appends exactly one row, keeps e-mails unique and answers with it |
| TransactionHistoryView.EnvParam | frontend/components/TransactionHistory.tsx:39-41 | the environment is sent exactly when the filter is not 'all' |
| TransactionHistoryView.RequestFor | frontend/components/TransactionHistory.tsx:29-41 | limit 20, offset 0 for a reset, else the current offset |
| TransactionHistoryView.AfterLoad | frontend/components/TransactionHistory.tsx:43-65 | a failure changes nothing; a reset replaces the list and sets offset 20; a load-more appends and adds 20; `total` and `hasMore` are copied |
| TransactionHistoryView.ResetShowsFirstPage | frontend/components/TransactionHistory.tsx:45-47 | against the real backend a reset shows the 20 newest matching rows |
| TransactionHistoryView.LoadMoreExtends | frontend/components/TransactionHistory.tsx:48-51 | on an unchanged table, a load-more after the newest n rows shows the newest n + 20, with `hasMore` = n + 20 < total |
| TransactionHistoryView.FirstPageShows | frontend/components/TransactionHistory.tsx:45-47 | a reset leaves the pager showing exactly one page |
| TransactionHistoryView.LoadMoreAfterPages | frontend/components/TransactionHistory.tsx:72-74 | a load-more after k pages shows k + 1 pages |
| TransactionHistoryView.LoadPagesStep | frontend/components/TransactionHistory.tsx:72-74 | one more load-more in a sequence of them adds one page |
| TransactionHistoryView.LoadPagesShowsPrefix | frontend/components/TransactionHistory.tsx:29-74 | on an unchanged table, after a reset and k load-mores the pager shows exactly the newest 20·(k + 1) matching rows |
| TransactionHistoryView.Pager.constructor | frontend/components/TransactionHistory.tsx:13-18 | nothing shown, filter 'all', offset 0 |
| TransactionHistoryView.Pager.Load | frontend/components/TransactionHistory.tsx:29-65 | `loadTransactions` moves the state as `AfterLoad` says |
| TransactionHistoryView.Pager.Refresh | frontend/components/TransactionHistory.tsx:67-70 | the offset is cleared, then a reset load |
| TransactionHistoryView.Pager.LoadMore | frontend/components/TransactionHistory.tsx:72-74 | a load from the current offset, appending |
| TransactionHistoryView.Pager.SetEnvironment | frontend/components/TransactionHistory.tsx:25-27 | a changed filter triggers a reset load; the same value does nothing |
| TransactionHistoryView.StatusBadge | frontend/components/TransactionHistory.tsx:76-90 | known statuses get their colour; a status gets gray exactly when it is unknown |
| TransactionHistoryView.TypeBadge | frontend/components/TransactionHistory.tsx:92-98 | "Payment" exactly for type 'payment', "Balance Check" for every other type |
| Dashboard.SelectorValue | frontend/pages/Dashboard.tsx:274 | the entry value is the id, then ':' at position \|id\|, then the environment |
| Dashboard.SplitSelector | frontend/pages/Dashboard.tsx:143 | the id part has no ':'; without a ':' there is no environment part |
| Dashboard.SelectorRoundTrip | frontend/pages/Dashboard.tsx:143 | splitting a selector value gives back its colon-free id and environment |
| Dashboard.SelectorNamesCredential | frontend/pages/Dashboard.tsx:127 | the entry of a listed credential parses back to its numeric id and its environment |
| Dashboard.CustomRangeDays | frontend/pages/Dashboard.tsx:149-155 | min(ceil(\|end − start\| / day), 31) |
| Dashboard.CustomRangeDaysSymmetric | frontend/pages/Dashboard.tsx:152 | the custom-range day count does not depend on which date is earlier |
| Dashboard.RecentQuery | frontend/pages/Dashboard.tsx:143-168 | both custom dates are sent without a day count; otherwise only the day count, `customDays` or else the parsed preset |
| Dashboard.CurrentBalanceQuery | frontend/pages/Dashboard.tsx:202-207 | the current balance is always asked for the last 30 days of the selected credential |
| Dashboard.FormatAmount | frontend/pages/Dashboard.tsx:217-221 | 'N/A' exactly when amount or currency is missing; otherwise sign, magnitude, a space and the currency |
| Dashboard.AmountColor | frontend/pages/Dashboard.tsx:227-230 | gray exactly for `null`, green exactly for a number ≥ 0, red exactly for `undefined` or a number < 0 |
| Dashboard.AmountCell | frontend/pages/Dashboard.tsx:674-675 | a history entry's colour is never gray and is red exactly when its amount is missing or negative; its text is 'N/A' exactly when the amount is missing or zero, else `formatAmount` with a missing currency read as "undefined" |
| Dashboard.UnpricedRowShownRed | frontend/pages/Dashboard.tsx:674-675 | a logged row without an amount, or with a zero one, is listed in red as 'N/A' |
| Dashboard.DashboardPage.constructor | frontend/pages/Dashboard.tsx:23-32 | no credentials, nothing selected, no balance, preset "5" |
| Dashboard.DashboardPage.LoadAvailableCredentials | frontend/pages/Dashboard.tsx:122-133 | the list is replaced (emptied on failure); the first credential is selected only when none is and the list is non-empty |
| Dashboard.DashboardPage.LoadRecentTransactions | frontend/pages/Dashboard.tsx:135-192 | nothing without a selection; a balance answer replaces the balance; a failed one falls back to the 10 newest logged rows, or to none |
| Dashboard.DashboardPage.LoadCurrentBalance | frontend/pages/Dashboard.tsx:194-215 | nothing without a selection; a failed call clears the balance |
| Language.ParseLang | frontend/contexts/LanguageContext.tsx:300-301 | a saved value is a language exactly when it is "en" or "cn" |
| Language.Translate | frontend/contexts/LanguageContext.tsx:311-313 | the current table's non-empty text for the key, otherwise the key itself |
| Language.Restored | frontend/contexts/LanguageContext.tsx:299-304 | a valid saved choice wins; anything else keeps the current language |
| Language.SavedChoiceRestored | frontend/contexts/LanguageContext.tsx:299-309 | a language saved by `setLanguage` is restored as the same language |
| Language.LanguageProvider.constructor | frontend/contexts/LanguageContext.tsx:297 | the initial language is 'en' |
| Language.LanguageProvider.Restore | frontend/contexts/LanguageContext.tsx:299-304 | the mount effect moves to the restored language and leaves storage alone |
| Language.LanguageProvider.SetLanguage | frontend/contexts/LanguageContext.tsx:306-309 | switches to the language and saves it |
| CredentialsManager.SandboxCount | frontend/components/CredentialsManager.tsx:29-31 | the number of loaded sandbox credentials, 0 before a load |
| CredentialsManager.LiveCount | frontend/components/CredentialsManager.tsx:33-35 | the number of loaded live credentials, 0 before a load |
| CredentialsManager.CountsPartition | frontend/components/CredentialsManager.tsx:29-35 | the sandbox and live counts add up to the whole list |
| CredentialsManager.SentFieldsTrimmed | frontend/components/CredentialsManager.tsx:51-56 | every sent field is already trimmed |
| CredentialsManager.FormTrimAgreesWithServer | frontend/components/CredentialsManager.tsx:51-56 | trimming in the form does not change what the server's checks decide |
| CredentialsManager.CredentialsForm.constructor | frontend/components/CredentialsManager.tsx:14-20 | sandbox, empty fields, nothing loaded |
| CredentialsManager.CredentialsForm.LoadExisting | frontend/components/CredentialsManager.tsx:37-44 | the loaded list, or an empty one when the load fails; the form is untouched |
| CredentialsManager.CredentialsForm.Save | frontend/components/CredentialsManager.tsx:46-79 | sends the trimmed fields; success clears the three fields and reloads, failure changes nothing |

## Left out

- The cipher itself is not modelled: AES-256-CBC with PKCS#7 padding is a parameter. Round trips
  are proved only for a cipher whose decryption inverts its encryption. The IVs from
  `crypto.randomBytes(16)` are parameters.
- The OAuth token exchange and every `fetch` to PayPal are inputs (a failure, or a body).
  Whatever the PayPal answer holds beyond the fields that are read is not modelled.
- Error messages are modelled without their dynamic suffixes: the status text of a refused token
  exchange and the JSON body of a refused payment. The database's own error text for a negative
  LIMIT or OFFSET is a stand-in; when both are negative, OFFSET is reported, because PostgreSQL
  checks it first. Node's message for an odd-length hex ciphertext is also a stand-in
  ("Invalid hex encoding").
- Floating point is not modelled. `toFixed(2)`, `Math.abs` on display and `parseFloat(amount) >= 0`
  are parameters or `real` arithmetic. Amounts are `real`.
- Calendar arithmetic is not modelled: `setDate` in local time, DST, `toISOString` and parsing
  date strings. Instants are integer milliseconds with fixed 24-hour days, and the page's date
  strings are passed through untouched.
- History.ConsecutivePages, TransactionHistoryView.LoadMoreExtends and TransactionHistoryView.LoadPagesShowsPrefix
  hold for one unchanged table. Rows that a balance check or a payment inserts between two page loads
  have the newest `created_at`, so they shift every later window and a load-more can repeat a row.
  A database that orders equal `created_at` differently from one query to the next has the same effect.
  Neither case is modelled.
- Ties under `ORDER BY`: SQL leaves the order of rows with equal `created_at` open. The model fixes
  one admissible order (a stable sort), and `Earliest` picks the first of equal earliest rows.
- Balance.GetBalance: the `COUNT(*)` query for the lookback period is not modelled, because its
  result is never used; the response counts the mapped transactions. The `response_data` JSON
  column of the transaction log is not stored.
- Balance.SelectCredentials: a `credentialId` that does not parse as a number matches no row
  (SQL would compare with NaN), so it gives NotFound.
- The authenticated user id (`parseInt(auth.userID)`) is an input, and the unreachable
  "Failed to create user" error of `register` is left out.
- bcrypt hashing is an input.
- Login and JWT handling are not part of this model.
- Lookups of keys such as `__proto__` in JavaScript objects, which reach the prototype, are not
  modelled. This affects `t` and the status colours.
- UI-only state is left out: loading flags, toasts, rendering and React effect scheduling.
  `loadRecentTransactions` is modelled as called with the page's current selection.
- `validateSelectedCredentials` and its `Math.random` capability flag are left out: it is a demo
  that reuses the modelled balance request.
- `handleDeleteCredentials` and `getTodaysTransactions` are left out: each is one backend call
  (`deleteCredentials`, `loadRecentTransactions`) that is modelled elsewhere.
- `parseInt` precision: digits beyond 2^53 are read exactly rather than rounded to the nearest double.
- Dashboard.RecentQuery: the custom-range day count is computed (`CustomRangeDays`) but not
  sent, as in the page. The preset is read with `parseInt`, and NaN is modelled as an absent
  count, which the server treats as absent.
- Dashboard.FormatAmount: the page's `formatAmount` only ever sees a truthy amount (line 675 guards
  the call), so its `undefined` amount case is not modelled; an `undefined` currency is modelled in
  `AmountCell`, where it renders as "undefined".
- CredentialTable.Delete: an id that does not parse as a number (`parseInt` gives NaN, which is
  bound into `WHERE id = …`) is modelled as matching no row, so it gives NotFound; the database's
  own handling of NaN is not modelled.
