/**
 * Client code driving the endpoints and the snapshot job in sequence, using
 * only their contracts: one checking account with two balances, a snapshot,
 * a repeated snapshot for the same day, and a deletion.
 */
module Scenarios {
  import opened Wrappers
  import opened Schema
  import NetWorth
  import Api
  import Snapshot

  method CheckingAccountDay(jan1: Day, jan5: Day)
    requires jan1 < jan5
  {
    var db := new Database();
    var added := Api.AddAccount(db, "Checking", "asset");
    assert added == Api.Added;
    var again := Api.AddAccount(db, "Checking", "debt");
    assert again == Api.AlreadyExists;
    assert db.accounts == [Account(1, "Checking", "asset")];

    var u1 := Api.UpdateBalance(db, "Checking", jan1, 1000.0);
    assert u1.Success?;
    var u2 := Api.UpdateBalance(db, "Checking", jan5, 1200.0);
    assert u2.Success?;
    var rows := db.balances;
    assert rows == [BalanceRow(1, Some(1), jan1, 1000.0), BalanceRow(2, Some(1), jan5, 1200.0)];
    assert NetWorth.MaxDate(rows, 1) == Some(jan5) by {
      assert NetWorth.MaxDate(rows[1..], 1) == Some(jan5);
    }
    assert NetWorth.Current(rows) == 1200.0 by {
      assert !NetWorth.OnLatest(rows[0], rows) && NetWorth.OnLatest(rows[1], rows);
      assert rows[1..][0] == rows[1] && rows[1..][1..] == [];
      assert NetWorth.Joined(rows[1..], rows) == [rows[1]];
      assert NetWorth.Joined(rows, rows) == [rows[1]];
      assert NetWorth.Total([rows[1]]) == 1200.0;
    }

    var first := Snapshot.TakeSnapshot(db, jan5, Snapshot.NoFault);
    assert first == Snapshot.Recorded(1200.0);
    assert db.history == [NetWorthRow(jan5, 1200.0)];
    var second := Snapshot.TakeSnapshot(db, jan5, Snapshot.NoFault);
    assert second == Snapshot.AlreadyTaken;
    assert db.history == [NetWorthRow(jan5, 1200.0)];
  }

  method DeletedAccountIsUnknown(day: Day)
  {
    var db := new Database();
    var added := Api.AddAccount(db, "X", "asset");
    assert added == Api.Added;
    var u := Api.UpdateBalance(db, "X", day, 10.0);
    assert u.Success?;
    var deleted := Api.DeleteAccount(db, "X");
    assert deleted.Success?;
    assert Api.GetBalances(db.accounts, db.balances, "X") == Failure(Api.NotFound);
    var late := Api.UpdateBalance(db, "X", day, 5.0);
    assert late == Failure(Api.NotFound);
    NetWorth.NoRowsNoWorth(db.balances);
    assert NetWorth.Current(db.balances) == 0.0;
  }
}
