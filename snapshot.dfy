/**
 * The daily snapshot job: look for a snapshot row dated today; if there is
 * none, compute the net worth and insert one row for today. Storage errors
 * are caught, logged and rolled back; an error inside the net-worth query is
 * caught there and yields 0. "Today" is a parameter, and which storage step
 * fails is given by a `Fault`.
 */
module Snapshot {
  import opened Wrappers
  import opened Schema
  import NetWorth

  /** Which step of one run raises, if any. */
  datatype Fault =
    | NoFault
    | LookupFails      // the query for today's row raises
    | NetWorthFails    // the net-worth query raises (caught inside it)
    | CommitFails      // the insert's commit raises

  /** How a run ended. The job itself returns nothing; this records which path it took. */
  datatype Outcome = AlreadyTaken | Recorded(total: real) | RolledBack

  /** A fault that still lets the run insert its row. */
  predicate Records(fault: Fault) {
    fault == NoFault || fault == NetWorthFails
  }

  /**
   * The job's own copy of the net-worth query, which answers 0 instead of
   * raising. Its query text is the same as the API's, so the model uses the
   * one definition `NetWorth.Current`; what the figure means is proved in
   * `SnapshotNetWorthByAccount`.
   */
  function SnapshotNetWorth(rows: seq<BalanceRow>, queryFails: bool): real
  {
    if queryFails then 0.0 else NetWorth.Current(rows)
  }

  /**
   * If the query raises, the job's figure is 0; otherwise it is the
   * account-by-account net worth.
   */
  lemma SnapshotNetWorthByAccount(accounts: seq<Account>, rows: seq<BalanceRow>)
    requires UniqueAccountIds(accounts) && OwnersExist(rows, accounts)
    ensures SnapshotNetWorth(rows, true) == 0.0
    ensures SnapshotNetWorth(rows, false) == NetWorth.AccountsTotal(accounts, rows)
  {
    NetWorth.NetWorthByAccount(accounts, rows);
  }

  /** `query(NetWorthHistory).filter(date == today).first()`. */
  function FindSnapshot(history: seq<NetWorthRow>, today: Day): (r: Option<NetWorthRow>)
    ensures r.None? <==> forall k | 0 <= k < |history| :: history[k].date != today
    ensures r.Some? ==> r.value in history && r.value.date == today
  {
    if history == [] then None
    else if history[0].date == today then Some(history[0])
    else FindSnapshot(history[1..], today)
  }

  /** One run of the job on the snapshot table `history`: how it ends and the table after it. */
  function Step(history: seq<NetWorthRow>, rows: seq<BalanceRow>, today: Day, fault: Fault): (r: (Outcome, seq<NetWorthRow>))
    ensures !r.0.Recorded? ==> r.1 == history
    ensures r.0 == AlreadyTaken <==> fault != LookupFails && FindSnapshot(history, today).Some?
    ensures r.0.Recorded? <==> Records(fault) && FindSnapshot(history, today).None?
    ensures r.0.Recorded? ==>
      && r.0.total == SnapshotNetWorth(rows, fault == NetWorthFails)
      && r.1 == history + [NetWorthRow(today, r.0.total)]
    ensures UniqueDates(history) ==> UniqueDates(r.1)
    ensures FindSnapshot(history, today).Some? ==> FindSnapshot(r.1, today) == FindSnapshot(history, today)
    ensures FindSnapshot(r.1, today).Some? <==> FindSnapshot(history, today).Some? || r.0.Recorded?
  {
    if fault == LookupFails then (RolledBack, history)
    else if FindSnapshot(history, today).Some? then (AlreadyTaken, history)
    else
      var total := SnapshotNetWorth(rows, fault == NetWorthFails);
      if fault == CommitFails then (RolledBack, history)
      else
        var after := history + [NetWorthRow(today, total)];
        assert after[|history|].date == today;
        (Recorded(total), after)
  }

  /** `take_snapshot`, with today's date and the failing step as parameters. */
  method TakeSnapshot(db: Database, today: Day, fault: Fault) returns (outcome: Outcome)
    requires db.Valid()
    modifies db
    ensures db.Valid()
    ensures (outcome, db.history) == Step(old(db.history), old(db.balances), today, fault)
    ensures db.accounts == old(db.accounts) && db.balances == old(db.balances)
  {
    if fault == LookupFails {
      return RolledBack;
    }
    var existing := FindSnapshot(db.history, today);
    if existing.Some? {
      return AlreadyTaken;
    }
    var total := SnapshotNetWorth(db.balances, fault == NetWorthFails);
    var pending := db.history + [NetWorthRow(today, total)];
    if fault == CommitFails {
      // the rollback discards the pending insert
      return RolledBack;
    }
    db.history := pending;
    outcome := Recorded(total);
  }

  // ---------------------------------------------------------------------------
  // Repeated runs for the same day.

  /** One run of the job: the balance table it sees and the step that fails. */
  datatype Run = Run(rows: seq<BalanceRow>, fault: Fault)

  /** The snapshot table after the given runs, all for `today`, in order. */
  function Replay(history: seq<NetWorthRow>, today: Day, runs: seq<Run>): seq<NetWorthRow>
    decreases |runs|
  {
    if runs == [] then history
    else Replay(Step(history, runs[0].rows, today, runs[0].fault).1, today, runs[1..])
  }

  /** The index of the first run that gets as far as inserting its row. */
  function FirstRecording(runs: seq<Run>): (r: Option<nat>)
    ensures r.None? <==> forall i | 0 <= i < |runs| :: !Records(runs[i].fault)
    ensures r.Some? ==> r.value < |runs| && Records(runs[r.value].fault)
    ensures r.Some? ==> forall i | 0 <= i < r.value :: !Records(runs[i].fault)
  {
    if runs == [] then None
    else if Records(runs[0].fault) then Some(0)
    else match FirstRecording(runs[1..])
      case None => None
      case Some(i) => Some(i + 1)
  }

  lemma {:induction false} ReplayAfterSnapshot(history: seq<NetWorthRow>, today: Day, runs: seq<Run>)
    requires FindSnapshot(history, today).Some?
    ensures Replay(history, today, runs) == history
  {
    if runs != [] {
      ReplayAfterSnapshot(history, today, runs[1..]);
    }
  }

  /**
   * Any number of runs for one day leave the table as it was when it already
   * held a row for that day, and otherwise add at most one row: the one
   * computed by the first run that reaches its insert. Snapshot dates stay
   * unique throughout.
   */
  lemma {:induction false} ReplayKeepsFirst(history: seq<NetWorthRow>, today: Day, runs: seq<Run>)
    requires UniqueDates(history)
    ensures UniqueDates(Replay(history, today, runs))
    ensures FindSnapshot(history, today).Some? ==> Replay(history, today, runs) == history
    ensures FindSnapshot(history, today).None? && FirstRecording(runs).None? ==> Replay(history, today, runs) == history
    ensures FindSnapshot(history, today).None? && FirstRecording(runs).Some? ==>
      var first := runs[FirstRecording(runs).value];
      Replay(history, today, runs) ==
        history + [NetWorthRow(today, SnapshotNetWorth(first.rows, first.fault == NetWorthFails))]
  {
    if runs != [] {
      var next := Step(history, runs[0].rows, today, runs[0].fault).1;
      if FindSnapshot(history, today).Some? {
        ReplayAfterSnapshot(history, today, runs);
      } else if Records(runs[0].fault) {
        ReplayAfterSnapshot(next, today, runs[1..]);
      } else {
        ReplayKeepsFirst(history, today, runs[1..]);
      }
    }
  }

  /** After runs for `today`, there is a row for `today` exactly when there was one or some run inserted it. */
  lemma ReplayHasToday(history: seq<NetWorthRow>, today: Day, runs: seq<Run>)
    requires UniqueDates(history)
    ensures FindSnapshot(Replay(history, today, runs), today).Some? <==>
      FindSnapshot(history, today).Some? || FirstRecording(runs).Some?
  {
    ReplayKeepsFirst(history, today, runs);
    if FindSnapshot(history, today).None? && FirstRecording(runs).Some? {
      var r := Replay(history, today, runs);
      assert r[|r| - 1].date == today;
    }
  }
}
