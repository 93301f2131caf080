/**
 * The three tables of the tracker's SQLite database and the constraints the
 * schema declares on them: unique account names, an integer primary key on
 * accounts and on balance rows, a reference from each balance row to an
 * account, and the snapshot date as primary key of the net-worth history.
 */
module Schema {
  import opened Wrappers

  /** A calendar date, as a day number. */
  type Day = int

  /** A row of `accounts`. `kind` is the non-null `account_type` string. */
  datatype Account = Account(id: nat, name: string, kind: string)

  /**
   * A row of `balance_history`. `owner` is the `account_id` column; it is
   * `None` (NULL) once the owning account has been deleted.
   */
  datatype BalanceRow = BalanceRow(id: nat, owner: Option<nat>, date: Day, amount: real)

  /** A row of `networth_history`, keyed by its date. */
  datatype NetWorthRow = NetWorthRow(date: Day, total: real)

  predicate UniqueAccountIds(accounts: seq<Account>) {
    forall i, j | 0 <= i < j < |accounts| :: accounts[i].id != accounts[j].id
  }

  /** The `unique=True` constraint on `account_name`. */
  predicate UniqueNames(accounts: seq<Account>) {
    forall i, j | 0 <= i < j < |accounts| :: accounts[i].name != accounts[j].name
  }

  predicate UniqueRowIds(rows: seq<BalanceRow>) {
    forall i, j | 0 <= i < j < |rows| :: rows[i].id != rows[j].id
  }

  /** `date` is the primary key of `networth_history`. */
  predicate UniqueDates(history: seq<NetWorthRow>) {
    forall i, j | 0 <= i < j < |history| :: history[i].date != history[j].date
  }

  function IdSet(accounts: seq<Account>): set<nat> {
    set a | a in accounts :: a.id
  }

  /** Every non-NULL `account_id` refers to an existing account. */
  predicate OwnersExist(rows: seq<BalanceRow>, accounts: seq<Account>) {
    forall k | 0 <= k < |rows| :: rows[k].owner.Some? ==> rows[k].owner.value in IdSet(accounts)
  }

  /** All schema constraints together. */
  predicate Consistent(accounts: seq<Account>, balances: seq<BalanceRow>, history: seq<NetWorthRow>) {
    && UniqueAccountIds(accounts)
    && UniqueNames(accounts)
    && UniqueRowIds(balances)
    && OwnersExist(balances, accounts)
    && UniqueDates(history)
  }

  function AccountIds(accounts: seq<Account>): seq<nat> {
    seq(|accounts|, k requires 0 <= k < |accounts| => accounts[k].id)
  }

  function RowIds(rows: seq<BalanceRow>): seq<nat> {
    seq(|rows|, k requires 0 <= k < |rows| => rows[k].id)
  }

  /**
   * The key SQLite gives a row inserted without one into a table whose key is
   * an INTEGER PRIMARY KEY (no AUTOINCREMENT): one more than the largest key
   * present, or 1 in an empty table.
   */
  function NextId(ids: seq<nat>): (r: nat)
    ensures r >= 1
    ensures forall k | 0 <= k < |ids| :: ids[k] < r
    ensures ids == [] ==> r == 1
    ensures ids != [] ==> r - 1 in ids
  {
    if ids == [] then 1
    else
      var rest := NextId(ids[1..]);
      if ids[0] + 1 >= rest then ids[0] + 1 else rest
  }

  /**
   * The accounts table after `db.delete` of the account with key `id`. The
   * remaining accounts keep their table order (by the body; the contract
   * states membership only).
   */
  function Without(accounts: seq<Account>, id: nat): (r: seq<Account>)
    ensures forall a :: a in r <==> a in accounts && a.id != id
    ensures |r| <= |accounts|
  {
    if accounts == [] then []
    else if accounts[0].id == id then Without(accounts[1..], id)
    else [accounts[0]] + Without(accounts[1..], id)
  }

  /**
   * The balance table after its account `id` is deleted. The relationship
   * `Account.balances` declares no delete cascade, so the ORM's default
   * nulls the `account_id` of the account's rows and keeps them.
   */
  function Detach(rows: seq<BalanceRow>, id: nat): (r: seq<BalanceRow>)
    ensures |r| == |rows|
    ensures forall k | 0 <= k < |r| ::
      r[k].owner != Some(id) && r[k].id == rows[k].id && r[k].date == rows[k].date && r[k].amount == rows[k].amount
    ensures forall k | 0 <= k < |r| :: rows[k].owner != Some(id) ==> r[k] == rows[k]
    ensures forall k | 0 <= k < |r| :: rows[k].owner == Some(id) ==> r[k].owner.None?
  {
    if rows == [] then []
    else [if rows[0].owner == Some(id) then rows[0].(owner := None) else rows[0]] + Detach(rows[1..], id)
  }

  /** Deleting an account and detaching its rows keeps every schema constraint. */
  lemma {:induction false} DeleteKeepsConsistent(accounts: seq<Account>, rows: seq<BalanceRow>, history: seq<NetWorthRow>, id: nat)
    requires Consistent(accounts, rows, history)
    ensures Consistent(Without(accounts, id), Detach(rows, id), history)
    ensures IdSet(Without(accounts, id)) == IdSet(accounts) - {id}
  {
    WithoutKeepsUnique(accounts, id);
    var rest := Without(accounts, id);
    assert IdSet(rest) == IdSet(accounts) - {id} by {
      forall x | x in IdSet(accounts) - {id} ensures x in IdSet(rest) {
        var a :| a in accounts && a.id == x;
        assert a in rest;
      }
    }
    var detached := Detach(rows, id);
    assert RowIds(detached) == RowIds(rows);
    forall i, j | 0 <= i < j < |detached| ensures detached[i].id != detached[j].id {
      assert rows[i].id != rows[j].id;
    }
  }

  lemma {:induction false} WithoutKeepsUnique(accounts: seq<Account>, id: nat)
    requires UniqueAccountIds(accounts) && UniqueNames(accounts)
    ensures UniqueAccountIds(Without(accounts, id)) && UniqueNames(Without(accounts, id))
  {
    if accounts != [] {
      var tail := accounts[1..];
      assert UniqueAccountIds(tail) && UniqueNames(tail) by {
        forall i, j | 0 <= i < j < |tail|
          ensures tail[i].id != tail[j].id && tail[i].name != tail[j].name
        {
          assert tail[i] == accounts[i + 1] && tail[j] == accounts[j + 1];
        }
      }
      WithoutKeepsUnique(tail, id);
      if accounts[0].id != id {
        var w := Without(tail, id);
        var r := [accounts[0]] + w;
        forall j | 1 <= j < |r| ensures r[0].id != r[j].id && r[0].name != r[j].name {
          assert r[j] in tail;
          var m :| 0 <= m < |tail| && tail[m] == r[j];
          assert accounts[m + 1] == r[j];
        }
        forall i, j | 0 <= i < j < |r| ensures r[i].id != r[j].id && r[i].name != r[j].name {
          if i > 0 {
            assert r[i] == w[i - 1] && r[j] == w[j - 1];
          }
        }
      }
    }
  }

  /**
   * The database: the three tables as sequences of rows, in the order a
   * full-table scan returns them.
   */
  class Database {
    var accounts: seq<Account>
    var balances: seq<BalanceRow>
    var history: seq<NetWorthRow>

    ghost predicate Valid()
      reads this
    {
      Consistent(accounts, balances, history)
    }

    /** `Base.metadata.create_all`: three empty tables. */
    constructor ()
      ensures Valid()
      ensures accounts == [] && balances == [] && history == []
    {
      accounts := [];
      balances := [];
      history := [];
    }
  }
}
