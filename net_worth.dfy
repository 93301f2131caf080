/**
 * The net-worth query: a subquery that groups balance rows by `account_id`
 * and takes each group's maximum date, joined back to the balance rows on
 * (account_id, date), and the SQL SUM of the joined amounts, NULL (here: 0)
 * when nothing joins. Rows whose `account_id` is NULL never join, because
 * NULL = NULL is not true in SQL.
 */
module NetWorth {
  import opened Wrappers
  import opened Schema

  /** `max(date)` over the balance rows of account `id`; `None` when it has none. */
  function MaxDate(rows: seq<BalanceRow>, id: nat): (r: Option<Day>)
    ensures r.None? <==> forall k | 0 <= k < |rows| :: rows[k].owner != Some(id)
    ensures r.Some? ==> exists k | 0 <= k < |rows| :: rows[k].owner == Some(id) && rows[k].date == r.value
    ensures r.Some? ==> forall k | 0 <= k < |rows| :: rows[k].owner == Some(id) ==> rows[k].date <= r.value
  {
    if rows == [] then None
    else
      var rest := MaxDate(rows[1..], id);
      if rows[0].owner != Some(id) then rest
      else match rest
        case None => Some(rows[0].date)
        case Some(d) => Some(if d < rows[0].date then rows[0].date else d)
  }

  /** The join condition: `row` is owned and lies on its owner's maximum date. */
  predicate OnLatest(row: BalanceRow, all: seq<BalanceRow>) {
    row.owner.Some? && MaxDate(all, row.owner.value) == Some(row.date)
  }

  /** The rows of `rows` that survive the join against the subquery computed on `all`. */
  function Joined(rows: seq<BalanceRow>, all: seq<BalanceRow>): seq<BalanceRow> {
    if rows == [] then []
    else if OnLatest(rows[0], all) then [rows[0]] + Joined(rows[1..], all)
    else Joined(rows[1..], all)
  }

  function Total(rows: seq<BalanceRow>): real {
    if rows == [] then 0.0 else rows[0].amount + Total(rows[1..])
  }

  /** SQL `SUM`: NULL over no rows. */
  function SqlSum(rows: seq<BalanceRow>): Option<real> {
    if rows == [] then None else Some(Total(rows))
  }

  /** The net worth of the balance table: the joined sum, or 0 when it is NULL. */
  function Current(rows: seq<BalanceRow>): real {
    match SqlSum(Joined(rows, rows))
    case None => 0.0
    case Some(s) => s
  }

  // ---------------------------------------------------------------------------
  // Reference definition: the net worth account by account.

  /** The sum of the amounts of the rows of account `id` dated `d`. */
  function SumOn(rows: seq<BalanceRow>, id: nat, d: Day): real {
    if rows == [] then 0.0
    else (if rows[0].owner == Some(id) && rows[0].date == d then rows[0].amount else 0.0) + SumOn(rows[1..], id, d)
  }

  /** What one account adds: all its rows on its latest date, or nothing when it has no rows. */
  function Contribution(rows: seq<BalanceRow>, id: nat): real {
    match MaxDate(rows, id)
    case None => 0.0
    case Some(d) => SumOn(rows, id, d)
  }

  /** The contributions of the given accounts, added up. */
  function AccountsTotal(accounts: seq<Account>, rows: seq<BalanceRow>): real {
    if accounts == [] then 0.0 else Contribution(rows, accounts[0].id) + AccountsTotal(accounts[1..], rows)
  }

  // ---------------------------------------------------------------------------
  // The joined sum, restricted to a set of owners.

  function PartSum(rows: seq<BalanceRow>, all: seq<BalanceRow>, s: set<nat>): real {
    if rows == [] then 0.0
    else (if OnLatest(rows[0], all) && rows[0].owner.value in s then rows[0].amount else 0.0)
         + PartSum(rows[1..], all, s)
  }

  lemma {:induction false} PartSumAll(rows: seq<BalanceRow>, all: seq<BalanceRow>, s: set<nat>)
    requires forall k | 0 <= k < |rows| :: rows[k].owner.Some? ==> rows[k].owner.value in s
    ensures PartSum(rows, all, s) == Total(Joined(rows, all))
  {
    if rows != [] {
      PartSumAll(rows[1..], all, s);
    }
  }

  lemma {:induction false} PartSumEmpty(rows: seq<BalanceRow>, all: seq<BalanceRow>)
    ensures PartSum(rows, all, {}) == 0.0
  {
    if rows != [] {
      PartSumEmpty(rows[1..], all);
    }
  }

  lemma {:induction false} PartSumSplit(rows: seq<BalanceRow>, all: seq<BalanceRow>, a: set<nat>, b: set<nat>)
    requires a !! b
    ensures PartSum(rows, all, a + b) == PartSum(rows, all, a) + PartSum(rows, all, b)
  {
    if rows != [] {
      PartSumSplit(rows[1..], all, a, b);
    }
  }

  lemma {:induction false} PartSumOne(rows: seq<BalanceRow>, all: seq<BalanceRow>, id: nat)
    ensures PartSum(rows, all, {id}) == match MaxDate(all, id) case None => 0.0 case Some(d) => SumOn(rows, id, d)
  {
    if rows != [] {
      PartSumOne(rows[1..], all, id);
    }
  }

  lemma ContributionIsPart(rows: seq<BalanceRow>, id: nat)
    ensures Contribution(rows, id) == PartSum(rows, rows, {id})
  {
    PartSumOne(rows, rows, id);
  }

  lemma {:induction false} AccountsTotalIsPart(accounts: seq<Account>, rows: seq<BalanceRow>)
    requires UniqueAccountIds(accounts)
    ensures AccountsTotal(accounts, rows) == PartSum(rows, rows, IdSet(accounts))
  {
    if accounts == [] {
      assert IdSet(accounts) == {};
      PartSumEmpty(rows, rows);
    } else {
      var tail := accounts[1..];
      assert IdSet(accounts) == {accounts[0].id} + IdSet(tail) by {
        assert accounts == [accounts[0]] + tail;
      }
      assert accounts[0].id !in IdSet(tail) by {
        forall a | a in tail ensures a.id != accounts[0].id {
          var m :| 0 <= m < |tail| && tail[m] == a;
          assert accounts[m + 1] == a;
        }
      }
      AccountsTotalIsPart(tail, rows);
      ContributionIsPart(rows, accounts[0].id);
      PartSumSplit(rows, rows, {accounts[0].id}, IdSet(tail));
    }
  }

  // ---------------------------------------------------------------------------
  // Properties of the net-worth query.

  lemma {:induction false} JoinedHasLatest(rows: seq<BalanceRow>, all: seq<BalanceRow>, k: nat)
    requires k < |rows| && OnLatest(rows[k], all)
    ensures Joined(rows, all) != []
  {
    if k > 0 && !OnLatest(rows[0], all) {
      JoinedHasLatest(rows[1..], all, k - 1);
    }
  }

  lemma {:induction false} JoinedNoOwners(rows: seq<BalanceRow>, all: seq<BalanceRow>)
    requires forall k | 0 <= k < |rows| :: rows[k].owner.None?
    ensures Joined(rows, all) == []
  {
    if rows != [] {
      JoinedNoOwners(rows[1..], all);
    }
  }

  /** The SQL SUM is NULL exactly when no balance row has an owner. */
  lemma JoinedEmptyIff(rows: seq<BalanceRow>)
    ensures Joined(rows, rows) == [] <==> forall k | 0 <= k < |rows| :: rows[k].owner.None?
  {
    if k :| 0 <= k < |rows| && rows[k].owner.Some? {
      // the owner's latest row joins
      var id := rows[k].owner.value;
      var d := MaxDate(rows, id).value;
      var m :| 0 <= m < |rows| && rows[m].owner == Some(id) && rows[m].date == d;
      JoinedHasLatest(rows, rows, m);
    } else {
      JoinedNoOwners(rows, rows);
    }
  }

  /**
   * The query's answer for a consistent table is the sum, over the accounts,
   * of each account's rows on its latest date.
   */
  lemma NetWorthByAccount(accounts: seq<Account>, rows: seq<BalanceRow>)
    requires UniqueAccountIds(accounts)
    requires OwnersExist(rows, accounts)
    ensures Current(rows) == AccountsTotal(accounts, rows)
  {
    AccountsTotalIsPart(accounts, rows);
    PartSumAll(rows, rows, IdSet(accounts));
  }

  /** No owned rows at all: the net worth is 0 rather than an error. */
  lemma NoRowsNoWorth(rows: seq<BalanceRow>)
    requires forall k | 0 <= k < |rows| :: rows[k].owner.None?
    ensures Current(rows) == 0.0
  {
    JoinedEmptyIff(rows);
  }

  // ---------------------------------------------------------------------------
  // Deleting an account.

  lemma {:induction false} MaxDateDetach(rows: seq<BalanceRow>, id: nat, other: nat)
    requires other != id
    ensures MaxDate(Detach(rows, id), other) == MaxDate(rows, other)
  {
    if rows != [] {
      MaxDateDetach(rows[1..], id, other);
      assert Detach(rows, id)[1..] == Detach(rows[1..], id);
    }
  }

  lemma {:induction false} JoinedDetach(rows: seq<BalanceRow>, all: seq<BalanceRow>, id: nat)
    ensures Total(Joined(Detach(rows, id), Detach(all, id))) == Total(Joined(rows, all)) - PartSum(rows, all, {id})
  {
    if rows != [] {
      JoinedDetach(rows[1..], all, id);
      var d := Detach(rows, id);
      assert d[1..] == Detach(rows[1..], id);
      match rows[0].owner
      case None =>
      case Some(j) =>
        if j != id {
          MaxDateDetach(all, id, j);
        }
    }
  }

  /**
   * After an account is deleted its rows no longer count: the net worth drops
   * by exactly that account's contribution, and the account (or a later one
   * reusing its key) has no rows left.
   */
  lemma NetWorthAfterDetach(rows: seq<BalanceRow>, id: nat)
    ensures Current(Detach(rows, id)) == Current(rows) - Contribution(rows, id)
    ensures Contribution(Detach(rows, id), id) == 0.0
  {
    JoinedDetach(rows, rows, id);
    ContributionIsPart(rows, id);
  }

  /** Deleting one account leaves every other account's contribution as it was. */
  lemma ContributionAfterDetach(rows: seq<BalanceRow>, id: nat, other: nat)
    requires other != id
    ensures Contribution(Detach(rows, id), other) == Contribution(rows, other)
  {
    MaxDateDetach(rows, id, other);
    SumOnDetach(rows, id, other);
  }

  lemma {:induction false} SumOnDetach(rows: seq<BalanceRow>, id: nat, other: nat)
    requires other != id
    ensures forall d :: SumOn(Detach(rows, id), other, d) == SumOn(rows, other, d)
  {
    if rows != [] {
      SumOnDetach(rows[1..], id, other);
      assert Detach(rows, id)[1..] == Detach(rows[1..], id);
    }
  }

  // ---------------------------------------------------------------------------
  // Accounts with a single row on their latest date.

  /** At most one row of account `id` is dated `d`. */
  predicate AtMostOneOn(rows: seq<BalanceRow>, id: nat, d: Day) {
    forall i, j | 0 <= i < j < |rows| ::
      !(rows[i].owner == Some(id) && rows[i].date == d && rows[j].owner == Some(id) && rows[j].date == d)
  }

  /** Account `id` does not have two rows on its latest date. */
  predicate NoTieOnLatest(rows: seq<BalanceRow>, id: nat) {
    match MaxDate(rows, id)
    case None => true
    case Some(d) => AtMostOneOn(rows, id, d)
  }

  lemma {:induction false} SumOnNone(rows: seq<BalanceRow>, id: nat, d: Day)
    requires forall k | 0 <= k < |rows| :: !(rows[k].owner == Some(id) && rows[k].date == d)
    ensures SumOn(rows, id, d) == 0.0
  {
    if rows != [] {
      SumOnNone(rows[1..], id, d);
    }
  }

  /** With a single row of `id` on date `d`, the sum on that date is that row's amount. */
  lemma {:induction false} SumOnSingle(rows: seq<BalanceRow>, id: nat, d: Day, k: nat)
    requires k < |rows| && rows[k].owner == Some(id) && rows[k].date == d
    requires AtMostOneOn(rows, id, d)
    ensures SumOn(rows, id, d) == rows[k].amount
  {
    var tail := rows[1..];
    if k == 0 {
      forall m | 0 <= m < |tail| ensures !(tail[m].owner == Some(id) && tail[m].date == d) {
        assert tail[m] == rows[m + 1];
      }
      SumOnNone(tail, id, d);
    } else {
      assert !(rows[0].owner == Some(id) && rows[0].date == d);
      forall i, j | 0 <= i < j < |tail|
        ensures !(tail[i].owner == Some(id) && tail[i].date == d && tail[j].owner == Some(id) && tail[j].date == d)
      {
        assert tail[i] == rows[i + 1] && tail[j] == rows[j + 1];
      }
      SumOnSingle(tail, id, d, k - 1);
    }
  }
}
