# Prop-firm tracker ledger, modelled in Dafny

The prop-firm tracker keeps one spreadsheet of rows
`{Date, Account, Firm, Initial, Target, Balance, User}`: one row per trading
evaluation account per day, every account and every user interleaved. A user
creates an account with an initial capital and a profit target, logs each day's
gain or loss, and watches a dashboard of the current balance, the progress
toward the target and the day-by-day history. Deleting an account rewrites the
whole spreadsheet without that account's rows.

This project models the ledger logic of `app.py` as pure functions over an
immutable `Row` datatype and proves what each operation promises:

- `ledger.dfy` (module `Ledgers`): the `Row` datatype, the ledger as `seq<Row>`,
  the header columns, the "Inconnu" placeholder owner, one row filter used by
  every selection, and the store invariant (an account has one owner, one firm,
  one initial capital and one target).
- `loader.dfy` (module `Loader`): the store as a header plus records, loading it
  into a ledger (`load_data`) and writing a ledger back (the delete rewrite).
- `accounts.dfy` (module `Accounts`): the selected user's rows, their distinct
  account names in first-seen order, an account's date-sorted history and its
  current snapshot. As in the source, the history of the selected account is
  taken from the whole ledger, not only from the user's rows.
- `metrics.dfy` (module `Metrics`): total P&L, distance to target and clamped progress.
- `gains.dfy` (module `Gains`): the daily-gain column (first difference of the
  sorted balances) and the newest-first history table.
- `mutations.dfy` (module `Mutations`): create account, append daily entry,
  delete account, and the store invariant each preserves.
- `scenario.dfy` (module `Scenario`): one session (create, +800, -1000) with
  the dashboard metrics after each step.

Dates are day numbers, money is an exact `real`, the current user, the form
values and today's date are parameters, and the spreadsheet is a value.

In three places the model follows the code rather than what one might expect:

- A daily entry is written with the current user as owner. It does not copy the
  snapshot's owner. The two agree whenever the store invariant holds and the
  account is one of the current user's; `Mutations.AppendPreservesWellFormed`
  proves this.
- Rows get the owner "Inconnu" only when the store has no User column at all.
  A store with the column keeps each row's User cell as it is, even a blank one.
- Same-day rows are not promised to keep their store order: `sort_values("Date")`
  (app.py:103) uses pandas' default sort, which is not stable. So the model
  promises only a date-ordered permutation, and a snapshot dated no earlier
  than any row of the account.

## Model

| member | source | states |
|---|---|---|
| `Loader.Load` | app.py:35-48 | an empty store loads as an empty ledger; each record becomes one row in store order with every cell unchanged; without a User column every owner is "Inconnu", with one each owner is the record's User cell |
| `Loader.LoadSave` | app.py:35-48 | writing a ledger as header plus records and loading it back gives the same ledger |
| `Loader.LoadAppend` | app.py:83-84 | appending one record to a store headed by the seven columns in their fixed order makes the reloaded ledger grow by exactly that row, at the end |
| `Ledgers.Filter` | app.py:91 | a selection keeps only matching rows, and every matching row as many times as it occurs in the ledger |
| `Ledgers.FilterConcat` | app.py:167 | selecting from a concatenation selects from each part in turn, so kept rows stay in store order |
| `Ledgers.FilterIdempotent` | app.py:167 | selecting twice by the same criterion is the same as selecting once |
| `Accounts.UserView` | app.py:90-93 | the user view has exactly the rows owned by the selected user, with their multiplicities |
| `Accounts.AccountNames` | app.py:99 | the account list has no duplicates, names exactly the accounts occurring in the view, and orders them by the position of each account's first row |
| `Accounts.UserAccounts` | app.py:91-99 | an account is listed for a user exactly when some row of that account is owned by that user |
| `Accounts.History` | app.py:103 | an account's history is a permutation of exactly its rows, in non-decreasing date order |
| `Accounts.Snapshot` | app.py:103-106 | there is no snapshot exactly when the account has no row; otherwise the snapshot is a row of that account dated no earlier than any of its rows |
| `Metrics.Progress` | app.py:114 | progress always lies in [0, 1]; it is exactly 0 when the target does not exceed the initial capital, and otherwise the profit over the target gap clamped to [0, 1] |
| `Metrics.ComputeMetrics` | app.py:107-114 | the dashboard shows the snapshot balance and target, P&L as balance minus initial, distance as target minus balance, and a progress in [0, 1] |
| `Metrics.ProgressCompleteIff` | app.py:114 | with a positive target gap, progress is 1 exactly when the balance has reached the target |
| `Metrics.ProgressNilIff` | app.py:114 | with a positive target gap, progress is 0 exactly when the balance is at or below the initial capital |
| `Metrics.ProgressExact` | app.py:114 | between the initial capital and the target, progress times the target gap is exactly the profit made, so no clamping happens there |
| `Metrics.ProgressMonotonic` | app.py:114 | a higher balance never shows less progress |
| `Gains.DailyGains` | app.py:142-143 | the gain table keeps each history row's date and balance; the earliest row gains 0 and every later row gains its balance minus the previous one |
| `Gains.PrefixSums` | app.py:143 | adding the gains up to any row, starting from the first balance, gives back that row's balance |
| `Gains.GainsTelescope` | app.py:143 | the gains of a history add up to its last balance minus its first |
| `Gains.HistoryTable` | app.py:142-144 | the displayed table has exactly the lines of the gain table, each with its date, balance and gain, in reverse order: newest first, with non-increasing dates when the history is date-ordered |
| `Mutations.CreateAccount` | app.py:77-84 | a name used by any row of any owner is refused with a duplicate error and the ledger is unchanged; otherwise exactly one row is appended after the untouched old rows, dated today, owned by the current user, with balance equal to the initial capital |
| `Mutations.CreatePreservesWellFormed` | app.py:79-84 | creating an account keeps every account's owner, firm, initial capital and target consistent |
| `Mutations.CreateThenSnapshot` | app.py:83-106 | after creation, the new account's snapshot is its seed row and the account is listed for its creator |
| `Mutations.AppendDaily` | app.py:153-157 | an account with a snapshot gets exactly one new row after the untouched old rows, with balance equal to the snapshot balance plus the day's delta and the snapshot's account, firm, initial capital and target; an account without rows is refused and nothing changes |
| `Mutations.AppendPreservesWellFormed` | app.py:154-157 | appending to an account the current user owns a row of keeps the store invariant (by `Accounts.UserAccounts` these are exactly the accounts the dashboard lists) |
| `Mutations.LatestRowIsSnapshot` | app.py:103-106 | a row of an account dated strictly after every other row of that account is its snapshot |
| `Mutations.AppendLaterBecomesSnapshot` | app.py:103-107 | an entry dated after every existing row of its account becomes the new snapshot, with the old snapshot balance plus the delta |
| `Mutations.DeleteAccount` | app.py:165-173 | the rewritten store has the full header and only records of other accounts, no more than before |
| `Mutations.DeleteReload` | app.py:167-173 | reloading after a delete gives exactly the prior rows of other accounts, in their original order |
| `Mutations.DeleteRemovesOnlyThatAccount` | app.py:167 | after a delete no row of the deleted account remains and every other row is kept as often as before |
| `Mutations.DeleteIdempotent` | app.py:167-173 | deleting the same account again rewrites the same store |
| `Mutations.DeletePreservesWellFormed` | app.py:167 | deleting an account keeps the store invariant |
| `Scenario.EvalSession` | app.py:104-157 | account Eval1 (25000 to 26600) shows 0 P&L, 1600 to go and 0 progress; after +800 it shows 25800, 800 P&L, 800 to go and progress 0.5; after -1000 it shows 24800, -200 P&L, 1800 to go and progress 0 |

## Left out

- Streamlit widgets, forms, the sidebar, the user radio button and page reruns (app.py:51-75, 116-152) are interface plumbing. The selected user and the form values are parameters.
- The Google Sheets connection and credentials (`get_google_sheet`, app.py:12-32) and the `sheet.*` calls are remote I/O. The store is a value, and each mutation returns the new ledger or the rewritten store.
- The delete rewrite is not atomic: the store is cleared, then the header and the rows are written in separate calls (app.py:168-173). The model treats the rewrite as one step, because a failure between those calls depends on the remote store.
- Charting and number formatting (app.py:119-145) are presentation only.
- Date parsing with `errors='coerce'`, where unparseable dates become NaT and are placed during the sort, and the clock (`datetime.now()`) are left out. Dates are already-parsed day numbers, and "today" is a parameter.
- Float rounding in the progress division and the balance sum is not modelled. Money is an exact `real`.
- Accounts.History: does not promise which of two same-day rows comes first, because the source's sort is not stable.
- Accounts.Snapshot: does not promise which same-day row is the snapshot, for the same reason.
- Gains.HistoryTable: the newest-first table is the exact reverse of the ascending one. The source re-sorts in descending order, which may order same-day rows differently.
- Mutations.CreateAccount: compares account names as text. The store reader (`get_all_records`, app.py:36) turns number-like cells into numbers, so in the code a stored account "1" is read as the number 1 and the duplicate check at app.py:79 lets a new "1" through; the model refuses it. The reader's conversion belongs to the spreadsheet library, which is not part of this model.
- A record's User cell is read only when the header names a User column. A row appended to a store whose header row lacks that column therefore loads with the owner "Inconnu".
- Mutations.CreateAccount: assumes row 1 of the store already holds the header. The code never writes a header when it creates an account: the empty-store columns of app.py:40 exist only in memory, and the only header write is the delete rewrite at app.py:170. The store reader (`get_all_records`, app.py:36) takes row 1 as the header, so on a store with no rows at all the first `append_row` (app.py:84) puts the seed row in row 1, where it becomes the header and the account never loads. The model instead loads it as a one-row ledger, so `Mutations.CreateThenSnapshot` and `Scenario.EvalSession` describe a store that starts with a header row.
- Mutations.DeleteAccount: assumes the store's header is exactly the seven columns Date, Account, Firm, Initial, Target, Balance, User in that order, or their first six for a store written before the User column existed. The code writes rows by position (app.py:84, app.py:157, app.py:173) while it reads cells by header name (app.py:36), so under any other header an appended or rewritten row puts its cells under the wrong names. `Loader.LoadAppend` is stated for the full header only.
- The model describes one session at a time: the store is read once per run (app.py:55), checked and changed against that read, and written back. Concurrent sessions are not modelled. In the code the last write wins: two sessions that both create the same name between their read and their `append_row` (app.py:84) both succeed, breaking the name uniqueness `Mutations.CreateAccount` promises and the one-owner rule of `Ledgers.WellFormed`, and a delete (app.py:167-173) drops rows another session appended after its read.
