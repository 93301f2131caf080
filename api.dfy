/**
 * The HTTP endpoints of the tracker's backend, over the database of module
 * Schema. Endpoints that write take the database and change it; endpoints
 * that only read are functions of the tables, or a method when the endpoint
 * builds its answer in a loop.
 */
module Api {
  import opened Wrappers
  import opened Schema
  import NetWorth

  /** `add_account` answers 200 either way, with one of two messages. */
  datatype AddReply = Added | AlreadyExists

  /** The HTTP error the endpoints raise: 404 "Account not found". */
  datatype HttpError = NotFound

  /** One entry of the `get_accounts` answer. */
  datatype AccountEntry = AccountEntry(name: string, kind: string, balance: real)

  /** One entry of the `get_balances` answer. */
  datatype DatedAmount = DatedAmount(date: Day, amount: real)

  /** One entry of the `get_net_worth_history` answer. */
  datatype DatedTotal = DatedTotal(date: Day, total: real)

  /** `query(Account).filter(account_name == name).first()`. */
  function FindAccount(accounts: seq<Account>, name: string): (r: Option<Account>)
    ensures r.None? <==> forall k | 0 <= k < |accounts| :: accounts[k].name != name
    ensures r.Some? ==> r.value in accounts && r.value.name == name
  {
    if accounts == [] then None
    else if accounts[0].name == name then Some(accounts[0])
    else FindAccount(accounts[1..], name)
  }

  /** Under unique names the lookup finds the one account carrying the name. */
  lemma FindUnique(accounts: seq<Account>, a: Account)
    requires UniqueNames(accounts) && a in accounts
    ensures FindAccount(accounts, a.name) == Some(a)
  {
  }

  // ---------------------------------------------------------------------------
  // Writers

  /** `add_account`: insert an account unless its name is taken. */
  method AddAccount(db: Database, name: string, kind: string) returns (reply: AddReply)
    requires db.Valid()
    modifies db
    ensures db.Valid()
    ensures reply == AlreadyExists <==> FindAccount(old(db.accounts), name).Some?
    ensures reply == AlreadyExists ==> db.accounts == old(db.accounts)
    ensures reply == Added ==>
      db.accounts == old(db.accounts) + [Account(NextId(AccountIds(old(db.accounts))), name, kind)]
    ensures reply == Added ==> FindAccount(db.accounts, name) == Some(db.accounts[|db.accounts| - 1])
    ensures db.balances == old(db.balances) && db.history == old(db.history)
  {
    var existing := FindAccount(db.accounts, name);
    if existing.Some? {
      return AlreadyExists;
    }
    var account := Account(NextId(AccountIds(db.accounts)), name, kind);
    var before := db.accounts;
    db.accounts := db.accounts + [account];
    assert forall k | 0 <= k < |before| :: before[k].id < account.id by {
      assert forall k | 0 <= k < |before| :: AccountIds(before)[k] == before[k].id;
    }
    assert IdSet(before) <= IdSet(db.accounts);
    FindUnique(db.accounts, account);
    reply := Added;
  }

  /** `update_balance`: append a dated balance row for a known account. */
  method UpdateBalance(db: Database, name: string, date: Day, amount: real) returns (r: Result<(), HttpError>)
    requires db.Valid()
    modifies db
    ensures db.Valid()
    ensures r.Failure? <==> FindAccount(old(db.accounts), name).None?
    ensures r.Failure? ==> r.error == NotFound && db.balances == old(db.balances)
    ensures r.Success? ==>
      db.balances == old(db.balances) +
        [BalanceRow(NextId(RowIds(old(db.balances))), Some(FindAccount(old(db.accounts), name).value.id), date, amount)]
    ensures r.Success? ==>
      GetBalances(db.accounts, db.balances, name) ==
      Success(GetBalances(old(db.accounts), old(db.balances), name).value + [DatedAmount(date, amount)])
    ensures db.accounts == old(db.accounts) && db.history == old(db.history)
  {
    var account := FindAccount(db.accounts, name);
    if account.None? {
      return Failure(NotFound);
    }
    var before := db.balances;
    var row := BalanceRow(NextId(RowIds(before)), Some(account.value.id), date, amount);
    db.balances := db.balances + [row];
    assert forall k | 0 <= k < |before| :: before[k].id < row.id by {
      assert forall k | 0 <= k < |before| :: RowIds(before)[k] == before[k].id;
    }
    OwnedByAppend(before, row, account.value.id);
    r := Success(());
  }

  /** `delete_account`: remove a known account, detaching its balance rows. */
  method DeleteAccount(db: Database, name: string) returns (r: Result<(), HttpError>)
    requires db.Valid()
    modifies db
    ensures db.Valid()
    ensures r.Failure? <==> FindAccount(old(db.accounts), name).None?
    ensures r.Failure? ==> r.error == NotFound && db.accounts == old(db.accounts) && db.balances == old(db.balances)
    ensures r.Success? ==>
      var id := FindAccount(old(db.accounts), name).value.id;
      db.accounts == Without(old(db.accounts), id) && db.balances == Detach(old(db.balances), id)
    ensures FindAccount(db.accounts, name).None?
    ensures db.history == old(db.history)
  {
    var account := FindAccount(db.accounts, name);
    if account.None? {
      return Failure(NotFound);
    }
    DeleteKeepsConsistent(db.accounts, db.balances, db.history, account.value.id);
    DeleteForgetsName(db.accounts, db.balances, name);
    db.accounts := Without(db.accounts, account.value.id);
    db.balances := Detach(db.balances, account.value.id);
    r := Success(());
  }

  /**
   * Once an account is deleted its name is unknown: `get_balances` and
   * `update_balance` for it answer 404.
   */
  lemma DeleteForgetsName(accounts: seq<Account>, rows: seq<BalanceRow>, name: string)
    requires UniqueNames(accounts)
    requires FindAccount(accounts, name).Some?
    ensures var id := FindAccount(accounts, name).value.id;
      && FindAccount(Without(accounts, id), name).None?
      && GetBalances(Without(accounts, id), Detach(rows, id), name) == Failure(NotFound)
  {
  }

  // ---------------------------------------------------------------------------
  // get_accounts

  /**
   * `query(BalanceHistory).filter(account_id == id).order_by(date.desc()).first()`:
   * some row of the account with the greatest date. Among rows sharing that
   * date the database may return any; this one returns the first in table order.
   */
  function LatestRow(rows: seq<BalanceRow>, id: nat): (r: Option<BalanceRow>)
    ensures r.None? <==> forall k | 0 <= k < |rows| :: rows[k].owner != Some(id)
    ensures r.Some? ==> r.value in rows && r.value.owner == Some(id)
    ensures r.Some? ==> forall k | 0 <= k < |rows| :: rows[k].owner == Some(id) ==> rows[k].date <= r.value.date
  {
    if rows == [] then None
    else
      var rest := LatestRow(rows[1..], id);
      if rows[0].owner != Some(id) then rest
      else if rest.Some? && rest.value.date > rows[0].date then rest
      else Some(rows[0])
  }

  /** The row `get_accounts` picks lies on the date the net-worth subquery computes. */
  lemma LatestRowOnMaxDate(rows: seq<BalanceRow>, id: nat)
    ensures LatestRow(rows, id).None? <==> NetWorth.MaxDate(rows, id).None?
    ensures LatestRow(rows, id).Some? ==> NetWorth.MaxDate(rows, id) == Some(LatestRow(rows, id).value.date)
  {
  }

  /**
   * `b` is a balance `get_accounts` may report for account `id`: the amount
   * of some row of the account on its latest date, or 0 when it has no rows.
   */
  predicate IsLatestBalance(rows: seq<BalanceRow>, id: nat, b: real) {
    match NetWorth.MaxDate(rows, id)
    case None => b == 0.0
    case Some(d) => exists k | 0 <= k < |rows| :: rows[k].owner == Some(id) && rows[k].date == d && rows[k].amount == b
  }

  /** `list` has one entry per account, in table order, each with a latest balance. */
  predicate ListsLatest(list: seq<AccountEntry>, accounts: seq<Account>, rows: seq<BalanceRow>) {
    && |list| == |accounts|
    && forall i | 0 <= i < |list| ::
      && list[i].name == accounts[i].name
      && list[i].kind == accounts[i].kind
      && IsLatestBalance(rows, accounts[i].id, list[i].balance)
  }

  /** `get_accounts`: every account with its most recent balance, defaulting to 0. */
  method GetAccounts(accounts: seq<Account>, rows: seq<BalanceRow>) returns (list: seq<AccountEntry>)
    ensures ListsLatest(list, accounts, rows)
  {
    list := [];
    for i := 0 to |accounts|
      invariant ListsLatest(list, accounts[..i], rows)
    {
      var latest := LatestRow(rows, accounts[i].id);
      var balance := if latest.Some? then latest.value.amount else 0.0;
      LatestRowOnMaxDate(rows, accounts[i].id);
      list := list + [AccountEntry(accounts[i].name, accounts[i].kind, balance)];
    }
  }

  function ListedTotal(list: seq<AccountEntry>): real {
    if list == [] then 0.0 else list[0].balance + ListedTotal(list[1..])
  }

  lemma {:induction false} ListedTotalIsAccountsTotal(list: seq<AccountEntry>, accounts: seq<Account>, rows: seq<BalanceRow>)
    requires ListsLatest(list, accounts, rows)
    requires forall i | 0 <= i < |accounts| :: NetWorth.NoTieOnLatest(rows, accounts[i].id)
    ensures ListedTotal(list) == NetWorth.AccountsTotal(accounts, rows)
  {
    if accounts != [] {
      var id := accounts[0].id;
      assert ListsLatest(list[1..], accounts[1..], rows) by {
        forall i | 0 <= i < |list[1..]|
          ensures IsLatestBalance(rows, accounts[1..][i].id, list[1..][i].balance)
        {
          assert list[1..][i] == list[i + 1] && accounts[1..][i] == accounts[i + 1];
        }
      }
      assert forall i | 0 <= i < |accounts[1..]| :: accounts[1..][i] == accounts[i + 1];
      ListedTotalIsAccountsTotal(list[1..], accounts[1..], rows);
      assert IsLatestBalance(rows, id, list[0].balance) && NetWorth.NoTieOnLatest(rows, id);
      match NetWorth.MaxDate(rows, id)
      case None =>
      case Some(d) =>
        var k :| 0 <= k < |rows| && rows[k].owner == Some(id) && rows[k].date == d && rows[k].amount == list[0].balance;
        NetWorth.SumOnSingle(rows, id, d, k);
    }
  }

  /**
   * When no account has two rows on its latest date, the net worth is the sum
   * of the balances `get_accounts` reports.
   */
  lemma NetWorthIsListedTotal(list: seq<AccountEntry>, accounts: seq<Account>, rows: seq<BalanceRow>)
    requires UniqueAccountIds(accounts) && OwnersExist(rows, accounts)
    requires ListsLatest(list, accounts, rows)
    requires forall i | 0 <= i < |accounts| :: NetWorth.NoTieOnLatest(rows, accounts[i].id)
    ensures NetWorth.Current(rows) == ListedTotal(list)
  {
    ListedTotalIsAccountsTotal(list, accounts, rows);
    NetWorth.NetWorthByAccount(accounts, rows);
  }

  /**
   * With two rows on an account's latest date the equality fails: the net
   * worth adds both, while `get_accounts` reports one of them.
   */
  lemma TieBreaksListedTotal()
    ensures var accounts := [Account(1, "Checking", "asset")];
      var rows := [BalanceRow(1, Some(1), 10, 1.0), BalanceRow(2, Some(1), 10, 2.0)];
      var list := [AccountEntry("Checking", "asset", 2.0)];
      && ListsLatest(list, accounts, rows)
      && NetWorth.Current(rows) == 3.0
      && ListedTotal(list) == 2.0
  {
  }

  // ---------------------------------------------------------------------------
  // get_balances and get_net_worth_history

  /** The (date, amount) pairs of the rows of account `id`, in table order. */
  function OwnedBy(rows: seq<BalanceRow>, id: nat): (r: seq<DatedAmount>)
    ensures forall p :: p in r <==> exists k | 0 <= k < |rows| :: rows[k].owner == Some(id) && p == DatedAmount(rows[k].date, rows[k].amount)
  {
    if rows == [] then []
    else if rows[0].owner == Some(id) then [DatedAmount(rows[0].date, rows[0].amount)] + OwnedBy(rows[1..], id)
    else OwnedBy(rows[1..], id)
  }

  /** Appending a row adds exactly one entry to its owner's list and none to any other's. */
  lemma {:induction false} OwnedByAppend(rows: seq<BalanceRow>, row: BalanceRow, id: nat)
    ensures OwnedBy(rows + [row], id) ==
      OwnedBy(rows, id) + (if row.owner == Some(id) then [DatedAmount(row.date, row.amount)] else [])
  {
    if rows != [] {
      assert (rows + [row])[1..] == rows[1..] + [row];
      OwnedByAppend(rows[1..], row, id);
    }
  }

  /** One entry per row of the account: the list is exactly as long as the account has rows. */
  lemma {:induction false} OwnedByOnePerRow(rows: seq<BalanceRow>, id: nat)
    ensures |OwnedBy(rows, id)| == |set k | 0 <= k < |rows| && rows[k].owner == Some(id)|
    decreases |rows|
  {
    var s := set k | 0 <= k < |rows| && rows[k].owner == Some(id);
    if rows == [] {
      assert s == {};
    } else {
      var n := |rows| - 1;
      var init := rows[..n];
      assert rows == init + [rows[n]];
      OwnedByAppend(init, rows[n], id);
      OwnedByOnePerRow(init, id);
      var s0 := set k | 0 <= k < |init| && init[k].owner == Some(id);
      assert n !in s0;
      if rows[n].owner == Some(id) {
        assert s == s0 + {n};
      } else {
        assert s == s0;
      }
    }
  }

  /** The positions of the rows of account `id` that carry the (date, amount) pair `p`. */
  ghost function Carrying(rows: seq<BalanceRow>, id: nat, p: DatedAmount): set<int>
  {
    set k | 0 <= k < |rows| && rows[k].owner == Some(id) && DatedAmount(rows[k].date, rows[k].amount) == p
  }

  /** Appending a row adds its position to the pair it carries, if it belongs to the account. */
  lemma CarryingAppend(rows: seq<BalanceRow>, row: BalanceRow, id: nat, p: DatedAmount)
    ensures Carrying(rows + [row], id, p) ==
      Carrying(rows, id, p) + (if row.owner == Some(id) && DatedAmount(row.date, row.amount) == p then {|rows|} else {})
    ensures |rows| !in Carrying(rows, id, p)
  {
    var all := rows + [row];
    assert forall k | 0 <= k < |rows| :: all[k] == rows[k];
  }

  /** Each (date, amount) pair occurs in the list once for every row of the account carrying it. */
  lemma {:induction false} OwnedByCounts(rows: seq<BalanceRow>, id: nat)
    ensures forall p :: multiset(OwnedBy(rows, id))[p] == |Carrying(rows, id, p)|
    decreases |rows|
  {
    if rows == [] {
      forall p ensures multiset(OwnedBy(rows, id))[p] == |Carrying(rows, id, p)| {
        assert Carrying(rows, id, p) == {};
      }
    } else {
      var init, last := rows[..|rows| - 1], rows[|rows| - 1];
      assert rows == init + [last];
      var tail := if last.owner == Some(id) then [DatedAmount(last.date, last.amount)] else [];
      OwnedByAppend(init, last, id);
      assert multiset(OwnedBy(rows, id)) == multiset(OwnedBy(init, id)) + multiset(tail);
      OwnedByCounts(init, id);
      forall p ensures multiset(OwnedBy(rows, id))[p] == |Carrying(rows, id, p)| {
        CarryingAppend(init, last, id, p);
      }
    }
  }

  /** `get_balances`: the rows of a known account as (date, amount) pairs, else 404. */
  function GetBalances(accounts: seq<Account>, rows: seq<BalanceRow>, name: string): (r: Result<seq<DatedAmount>, HttpError>)
    ensures r.Failure? <==> FindAccount(accounts, name).None?
    ensures r.Success? ==> forall p :: p in r.value <==>
      exists k | 0 <= k < |rows| :: rows[k].owner == Some(FindAccount(accounts, name).value.id) &&
                                   p == DatedAmount(rows[k].date, rows[k].amount)
    ensures r.Success? ==>
      |r.value| == |set k | 0 <= k < |rows| && rows[k].owner == Some(FindAccount(accounts, name).value.id)|
    ensures r.Success? ==>
      forall p :: multiset(r.value)[p] == |Carrying(rows, FindAccount(accounts, name).value.id, p)|
  {
    match FindAccount(accounts, name)
    case None => Failure(NotFound)
    case Some(a) =>
      OwnedByOnePerRow(rows, a.id);
      OwnedByCounts(rows, a.id);
      Success(OwnedBy(rows, a.id))
  }

  /** `get_net_worth_history`: every snapshot row as a (date, total) pair; no order is promised. */
  function GetNetWorthHistory(history: seq<NetWorthRow>): (r: seq<DatedTotal>)
    ensures |r| == |history|
    ensures forall p :: p in r <==> exists k | 0 <= k < |history| :: p == DatedTotal(history[k].date, history[k].total)
    ensures UniqueDates(history) ==> forall i, j | 0 <= i < j < |r| :: r[i].date != r[j].date
  {
    var r := seq(|history|, k requires 0 <= k < |history| => DatedTotal(history[k].date, history[k].total));
    assert forall k | 0 <= k < |history| :: DatedTotal(history[k].date, history[k].total) in r by {
      forall k | 0 <= k < |history| ensures DatedTotal(history[k].date, history[k].total) in r {
        assert r[k] == DatedTotal(history[k].date, history[k].total);
      }
    }
    assert forall p | p in r :: exists k | 0 <= k < |history| :: p == DatedTotal(history[k].date, history[k].total) by {
      forall p | p in r ensures exists k | 0 <= k < |history| :: p == DatedTotal(history[k].date, history[k].total) {
        var i :| 0 <= i < |r| && r[i] == p;
        assert p == DatedTotal(history[i].date, history[i].total);
      }
    }
    r
  }
}
