# Net-worth tracker backend, modelled in Dafny

The tracker keeps three SQLite tables: `accounts` (an integer key, a unique
name and a type string), `balance_history` (dated balance observations, each
pointing at an account) and `networth_history` (one net-worth total per
date). The model covers the database schema and its constraints, the FastAPI
endpoints that read and write the tables, the net-worth query, and the daily
snapshot job.

- `wrappers.dfy` (module `Wrappers`): `Option` and `Result`.
- `schema.dfy` (module `Schema`, database.py): the row datatypes; the schema
  constraints as predicates (`Consistent`); SQLite's key choice for new rows
  (`NextId`); what deleting an account does to both tables (`Without`,
  `Detach`); a `Database` class whose fields are the three tables and whose
  `Valid()` is `Consistent`. `account_type` is declared non-null; in the model
  it is a `string`, which cannot be null, so no predicate is needed for it.
- `net_worth.dfy` (module `NetWorth`): the net-worth query shared by
  main.py and take_networth_snapshot.py. It is written once, as SQL runs it:
  a max-date subquery per `account_id`, a join on (account, date), and SUM,
  which is NULL on no rows and then becomes 0. A second definition computes the
  same figure account by account (`Contribution`, `AccountsTotal`), and the
  lemmas connect the two.
- `api.dfy` (module `Api`, main.py): the write endpoints are methods on a
  `Database`. `get_accounts` is a method, because it builds its answer in a
  loop. The other read endpoints are functions of the tables.
- `snapshot.dfy` (module `Snapshot`, take_networth_snapshot.py): the job as a
  method on a `Database`. A function `Step` gives the table after one run, and
  lemmas cover any number of runs on the same day.
- `scenarios.dfy` (module `Scenarios`): two client methods that use only the
  contracts above. `CheckingAccountDay` adds a checking account, is refused a
  second add of the same name, records two balances, reads a net worth of
  1200 and takes the day's snapshot twice, which records it once.
  `DeletedAccountIsUnknown` adds account "X" with one balance, deletes it,
  and then gets 404 for its balances and for a new balance, and a net
  worth of 0.

Dates are day numbers (`int`). Amounts are `real`.

The model follows the code as written; in particular:
- Deleting an account does not delete its balance rows. The relationship at
  database.py:16 declares no delete cascade, so the ORM sets their
  `account_id` to NULL and keeps them. Such rows never join in the net-worth
  query, because NULL = NULL is not true in SQL.
- On an account's latest date the net worth adds up every row for that date;
  it does not pick the row inserted last. `get_accounts` reports one row with
  the latest date, and which one among ties is left open. So the net worth
  equals the sum of the listed balances only when no account has two rows on
  its latest date (`Api.NetWorthIsListedTotal`, `Api.TieBreaksListedTotal`).
- `get_net_worth_history` and `get_balances` have no ORDER BY, so no order is
  promised.
- The snapshot job raises nothing to its caller. An error in the lookup or
  the commit is logged and rolled back. An error in the net-worth query is
  logged and turned into 0, so that run records a total of 0, and later runs
  that day keep that row (`Snapshot.ReplayKeepsFirst`).
- The backend accepts any name and any type string. The non-empty-name check
  is in the UI only.
- New keys follow SQLite's rule for an INTEGER PRIMARY KEY without
  AUTOINCREMENT: one more than the largest key in the table. A deleted
  account's key can therefore be given to a new account. Its detached rows
  still do not count for it (`NetWorth.NetWorthAfterDetach`).

## Model

| member | source | states |
|---|---|---|
| `Schema.NextId` | database.py:13 | the key SQLite gives a new row is larger than every key in the table: one more than the largest, or 1 for an empty table |
| `Schema.Without` | main.py:101-102 | after the delete, the accounts table holds exactly the accounts whose key differs from the deleted one |
| `Schema.Detach` | database.py:16-25 | deleting account `id` keeps every balance row with its key, date and amount. Rows of `id` get a NULL owner, and every other row stays as it was. |
| `Schema.DeleteKeepsConsistent` | database.py:13-25 | removing an account and detaching its rows keeps unique names, unique keys and valid references; the set of account keys loses exactly the deleted key |
| `Schema.WithoutKeepsUnique` | database.py:13-14 | removing an account keeps account keys and names unique |
| `Schema.Database.constructor` | database.py:32 | a fresh database has three empty tables and satisfies every schema constraint |
| `NetWorth.MaxDate` | main.py:74-78 | the subquery's `max(date)` for an account is the date of one of its rows, not below any of its rows' dates; NULL exactly when the account has no rows |
| `NetWorth.JoinedEmptyIff` | main.py:79-87 | the join yields no rows, so SUM is NULL, exactly when no balance row has a non-NULL account |
| `NetWorth.NetWorthByAccount` | main.py:71-88 | the net worth is the sum over accounts of the amounts of all the account's rows on its latest date. Accounts without rows add nothing. |
| `NetWorth.NoRowsNoWorth` | main.py:88 | with no owned balance rows the net worth is 0, not an error |
| `NetWorth.NetWorthAfterDetach` | main.py:95-104 | after a delete, the net worth drops by exactly the deleted account's contribution, and that account (or a new account given its key) contributes 0 |
| `NetWorth.ContributionAfterDetach` | database.py:16 | deleting one account leaves every other account's contribution unchanged |
| `NetWorth.MaxDateDetach` | database.py:16 | deleting one account leaves every other account's latest date unchanged |
| `NetWorth.SumOnSingle` | main.py:79-87 | if an account has exactly one row on a date, the joined sum for that account and date is that row's amount |
| `Api.FindAccount` | main.py:23 | the name lookup finds an account with that name exactly when one exists |
| `Api.FindUnique` | database.py:14 | under unique names, the lookup returns the one account with that name |
| `Api.AddAccount` | main.py:21-30 | a taken name changes nothing and answers "already exists" (not an error). A new name appends exactly one account with that name, that type and a fresh key. The other tables stay unchanged and the schema constraints still hold. |
| `Api.UpdateBalance` | main.py:32-40 | an unknown name answers 404 and changes nothing. Otherwise exactly one row is appended: a fresh key, that account, the given date and amount. The account's balance list then gains exactly that (date, amount) entry. |
| `Api.DeleteAccount` | main.py:95-104 | an unknown name answers 404 and changes nothing. Otherwise the account is removed and its rows detached. The name is then unknown, and the snapshot table is untouched. |
| `Api.DeleteForgetsName` | main.py:97-104 | after deleting an account, looking up its name finds nothing, and `get_balances` for it answers 404 |
| `Api.LatestRow` | main.py:48-53 | the "latest balance" query returns a row of the account with no later-dated row of that account, or nothing when the account has no rows |
| `Api.LatestRowOnMaxDate` | main.py:48-78 | the row `get_accounts` picks lies on the date the net-worth subquery computes for that account |
| `Api.GetAccounts` | main.py:42-61 | one entry per account, in table order, with its name and type. The balance is the amount of some row on the account's latest date, or 0 when it has none. |
| `Api.ListedTotalIsAccountsTotal` | main.py:44-58 | if no account has a tie on its latest date, the listed balances add up to the account-by-account net worth |
| `Api.NetWorthIsListedTotal` | main.py:44-88 | if no account has two rows on its latest date, the net worth equals the sum of the balances `get_accounts` lists |
| `Api.TieBreaksListedTotal` | main.py:48-85 | with two rows on an account's latest date, a valid `get_accounts` answer lists 2 while the net worth is 3 |
| `Api.OwnedBy` | main.py:68-69 | a (date, amount) pair occurs in the list exactly when some balance row of the account carries it |
| `Api.OwnedByOnePerRow` | main.py:68-69 | the list has one entry per balance row of the account: its length is the number of the account's rows |
| `Api.OwnedByAppend` | main.py:37-38 | appending a row adds exactly one entry to its own account's balance list and none to any other account's |
| `Api.CarryingAppend` | main.py:68-69 | appending a row adds its position to the rows carrying its (date, amount) pair when it belongs to the account, and adds nothing otherwise |
| `Api.OwnedByCounts` | main.py:68-69 | each (date, amount) pair occurs in the account's list as many times as the account has rows carrying it |
| `Api.GetBalances` | main.py:63-69 | an unknown name answers 404. Otherwise the answer holds exactly the (date, amount) pairs of that account's rows, one entry per row, each pair as many times as the account has rows carrying it. |
| `Api.GetNetWorthHistory` | main.py:90-93 | one (date, total) entry per snapshot row, holding exactly the table's pairs; dates are distinct because the table's dates are |
| `Snapshot.SnapshotNetWorthByAccount` | take_networth_snapshot.py:44-63 | if the query raises, the job's figure is 0; otherwise it is the account-by-account net worth |
| `Snapshot.FindSnapshot` | take_networth_snapshot.py:74 | the lookup of today's row finds a row dated today exactly when one exists |
| `Snapshot.Step` | take_networth_snapshot.py:65-93 | see below |
| `Snapshot.TakeSnapshot` | take_networth_snapshot.py:65-93 | the snapshot table afterwards is the one `Step` gives, the other tables are untouched, and the schema constraints still hold |
| `Snapshot.ReplayAfterSnapshot` | take_networth_snapshot.py:74-78 | once today has a row, any further runs for today change nothing |
| `Snapshot.ReplayKeepsFirst` | take_networth_snapshot.py:74-86 | any number of runs for one day leave the table unchanged if it already had a row for that day. Otherwise they add at most one row, holding the total of the first run that reached its insert. Dates stay unique. |
| `Snapshot.ReplayHasToday` | take_networth_snapshot.py:74-91 | after any number of runs for today, a row for today exists exactly when one existed before or some run got past its failure points |

`Snapshot.Step` states what one run of the job does:
- If a row for today exists, the run performs no write.
- A failed lookup or commit leaves the table unchanged.
- Otherwise the run appends exactly one row for today, holding the job's net-worth figure.
- Dates stay unique.

## Left out

- Logging, `sys.exit`, engine and session creation (`get_db`, `get_db_session`), and FastAPI routing and pydantic parsing are left out. They hold no logic of the core.
- `date.today()` is replaced by a parameter.
- Which storage step raises is a `Fault` parameter. The `Outcome` a run returns is extra: the job itself returns nothing.
- Float rounding is left out: amounts are exact reals.
- Concurrency is left out. The existence check before the snapshot insert is racy between processes. The model runs one call at a time, and the date key keeps the table's dates unique.
- HTTP status codes and messages are reduced to `Added`/`AlreadyExists`, `Success`/`NotFound`.
- Storage errors inside the endpoints are left out. A failing query or `db.commit()` in `add_account`, `update_balance` or `delete_account` raises: the request fails with 500 and the session commits nothing. This includes a commit refused by the unique index on names when two requests race. The writer methods model the successful paths only.
- Schema.NextId: keys are unbounded naturals. SQLite's rowid is 64-bit, and once the largest key is in use SQLite picks a random unused key instead of max+1; that case is not modelled.
- Schema.Without: the contract states which accounts remain, not that they keep their table order; the body keeps it, and `get_accounts` after a delete relies on that.
- app.py (the Streamlit interface, its time-frame filter and its empty-name check) is not part of this model.
