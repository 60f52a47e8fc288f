/** The worker's durable outbox: a bounded, evicting queue and the records kept beside it. */
module OutboxStore {
  import opened Wrappers

  datatype Row = Row(id: nat, kind: string, instanceName: string, payload: string, createdAt: int)

  datatype SyncState = SyncState(historyMark: int, agentLogMark: Option<int>)

  datatype AppliedCommand = AppliedCommand(appliedAt: int, success: bool, result: Option<string>)

  const APPLIED_COMMAND_RETENTION_MS := 24 * 60 * 60 * 1000
  const APPLIED_COMMAND_PRUNE_INTERVAL_MS := 60 * 60 * 1000

  ghost predicate InInsertionOrder(rows: seq<Row>) {
    forall i, j :: 0 <= i < j < |rows| ==> rows[i].id < rows[j].id
  }

  /** `DELETE FROM outbox WHERE id = ?`. */
  function WithoutId(rows: seq<Row>, id: int): (r: seq<Row>)
    ensures forall row :: row in r <==> row in rows && row.id != id
    ensures |r| <= |rows|
  {
    if rows == [] then []
    else (if rows[0].id == id then [] else [rows[0]]) + WithoutId(rows[1..], id)
  }

  /** The rows left once every listed id is deleted. */
  function Without(rows: seq<Row>, ids: seq<int>): (r: seq<Row>)
    ensures forall row :: row in r <==> row in rows && row.id !in ids
    ensures |r| <= |rows|
  {
    if ids == [] then rows else
      assert ids == ids[..|ids| - 1] + [ids[|ids| - 1]];
      WithoutId(Without(rows, ids[..|ids| - 1]), ids[|ids| - 1])
  }

  lemma {:induction false} WithoutIdAbsent(rows: seq<Row>, id: int)
    requires forall i :: 0 <= i < |rows| ==> rows[i].id != id
    ensures WithoutId(rows, id) == rows
  {
    if rows != [] { WithoutIdAbsent(rows[1..], id); }
  }

  lemma {:induction false} WithoutIdKeepsOrder(rows: seq<Row>, id: int)
    requires InInsertionOrder(rows)
    ensures InInsertionOrder(WithoutId(rows, id))
  {
    if rows != [] {
      var rest := WithoutId(rows[1..], id);
      WithoutIdKeepsOrder(rows[1..], id);
      forall j | 0 <= j < |rest| ensures rows[0].id < rest[j].id {
        assert rest[j] in rows[1..];
      }
    }
  }

  /** One delete removes at most one row. */
  lemma WithoutIdCount(rows: seq<Row>, id: int)
    requires InInsertionOrder(rows)
    ensures |rows| - 1 <= |WithoutId(rows, id)| <= |rows|
    ensures |WithoutId(rows, id)| == |rows| <==> forall i :: 0 <= i < |rows| ==> rows[i].id != id
  {
    if rows != [] {
      if rows[0].id == id { WithoutIdAbsent(rows[1..], id); } else { WithoutIdCount(rows[1..], id); }
    }
  }

  lemma {:induction false} WithoutKeepsOrder(rows: seq<Row>, ids: seq<int>)
    requires InInsertionOrder(rows)
    ensures InInsertionOrder(Without(rows, ids))
  {
    if ids != [] {
      WithoutKeepsOrder(rows, ids[..|ids| - 1]);
      WithoutIdKeepsOrder(Without(rows, ids[..|ids| - 1]), ids[|ids| - 1]);
    }
  }

  function Ids(rows: seq<Row>): (r: seq<int>)
    ensures |r| == |rows| && forall i :: 0 <= i < |r| ==> r[i] == rows[i].id
  {
    seq(|rows|, i requires 0 <= i < |rows| => rows[i].id)
  }

  lemma SplitRows(rows: seq<Row>, n: nat, row: Row)
    requires InInsertionOrder(rows) && n <= |rows|
    ensures row in rows && row.id !in Ids(rows[..n]) <==> row in rows[n..]
  {
    if row in rows {
      var i :| 0 <= i < |rows| && rows[i] == row;
      if i < n { assert Ids(rows[..n])[i] == row.id; } else { assert rows[n..][i - n] == row; }
    }
    if row in rows[n..] {
      var j :| 0 <= j < |rows[n..]| && rows[n..][j] == row;
      assert rows[n + j] == row;
    }
  }

  /** Deleting the oldest rows leaves the rest as they are. */
  lemma WithoutPrefix(rows: seq<Row>, n: nat)
    requires InInsertionOrder(rows) && n <= |rows|
    ensures Without(rows, Ids(rows[..n])) == rows[n..]
  {
    WithoutKeepsOrder(rows, Ids(rows[..n]));
    var left, tail := Without(rows, Ids(rows[..n])), rows[n..];
    forall row ensures row in left <==> row in tail { SplitRows(rows, n, row); }
    OrderedRowsEqual(left, tail);
  }

  lemma {:induction false} OrderedRowsEqual(a: seq<Row>, b: seq<Row>)
    requires InInsertionOrder(a) && InInsertionOrder(b)
    requires forall row :: row in a <==> row in b
    ensures a == b
  {
    if a != [] { assert a[0] in b; }
    if b != [] { assert b[0] in a; }
    if a != [] && b != [] {
      assert a[0] == b[0];
      assert a == [a[0]] + a[1..] && b == [b[0]] + b[1..];
      forall row ensures row in a[1..] <==> row in b[1..] {
        assert row in a[1..] ==> row in a && row.id > a[0].id;
        assert row in b[1..] ==> row in b && row.id > b[0].id;
      }
      OrderedRowsEqual(a[1..], b[1..]);
    }
  }

  lemma AppendKeepsOrder(rows: seq<Row>, row: Row)
    requires InInsertionOrder(rows) && forall r :: r in rows ==> r.id < row.id
    ensures InInsertionOrder(rows + [row]) && forall r :: r in rows + [row] ==> r.id <= row.id
  {}

  lemma SuffixKeepsOrder(rows: seq<Row>, n: nat)
    requires InInsertionOrder(rows) && n <= |rows|
    ensures InInsertionOrder(rows[n..]) && forall r :: r in rows[n..] ==> r in rows
  {}

  class Outbox {
    const maxRows: nat
    /** The table, in id order, and the next AUTOINCREMENT id. */
    var rows: seq<Row>
    var nextId: nat
    var depth: int
    var evicted: nat
    var syncState: map<string, SyncState>
    var applied: map<string, AppliedCommand>
    var lastAppliedCommandPruneAt: int
    /** Bookkeeping for the conservation law. */
    ghost const openedWith: nat
    ghost var enqueued: nat
    ghost var acknowledged: nat

    ghost predicate Valid()
      reads this
    {
      && depth == |rows|
      && InInsertionOrder(rows)
      && (forall row :: row in rows ==> row.id < nextId)
      && openedWith + enqueued == |rows| + acknowledged + evicted
    }

    constructor (maxRows: nat, rows: seq<Row>, nextId: nat, syncState: map<string, SyncState>,
                 applied: map<string, AppliedCommand>)
      requires InInsertionOrder(rows) && forall row :: row in rows ==> row.id < nextId
      ensures Valid() && this.maxRows == maxRows && this.rows == rows && this.nextId == nextId
      ensures this.syncState == syncState && this.applied == applied && lastAppliedCommandPruneAt == 0
      ensures openedWith == |rows| && enqueued == 0 && acknowledged == 0 && evicted == 0
    {
      this.maxRows, this.rows, this.nextId, this.syncState, this.applied := maxRows, rows, nextId, syncState, applied;
      depth, evicted, lastAppliedCommandPruneAt := |rows|, 0, 0;
      openedWith, enqueued, acknowledged := |rows|, 0, 0;
    }

    /** The newest `maxRows` rows stay, in order; only the oldest go, and they are counted. */
    method Enqueue(kind: string, instanceName: string, payload: string, now: int)
      requires Valid()
      modifies this`rows, this`nextId, this`depth, this`evicted, this`enqueued
      ensures Valid() && nextId == old(nextId) + 1 && enqueued == old(enqueued) + 1
      ensures var all := old(rows) + [Row(old(nextId), kind, instanceName, payload, now)];
        var excess := if |all| <= maxRows then 0 else |all| - maxRows;
        rows == all[excess..] && evicted == old(evicted) + excess
      ensures |rows| <= maxRows
    {
      hide InInsertionOrder;
      AppendKeepsOrder(rows, Row(nextId, kind, instanceName, payload, now));
      rows := rows + [Row(nextId, kind, instanceName, payload, now)];
      nextId := nextId + 1;
      enqueued := enqueued + 1;
      depth := depth + 1;
      SuffixKeepsOrder(rows, if |rows| <= maxRows then 0 else |rows| - maxRows);
      EvictIfNeeded();
    }

    method EvictIfNeeded()
      requires depth == |rows| && InInsertionOrder(rows)
      modifies this`rows, this`depth, this`evicted
      ensures depth == |rows|
      ensures var excess := if |old(rows)| <= maxRows then 0 else |old(rows)| - maxRows;
        rows == old(rows)[excess..] && evicted == old(evicted) + excess
    {
      if depth <= maxRows { return; }
      var excess := depth - maxRows;
      var oldest := Ids(rows[..excess]);
      WithoutPrefix(rows, excess);
      var removed := |rows| - |Without(rows, oldest)|;
      rows := Without(rows, oldest);
      evicted := evicted + removed;
      depth := depth - removed;
    }

    /** Fewer rows than asked for only if there are no more; every row left out is younger than every row read. */
    method Peek(limit: nat) returns (batch: seq<Row>)
      requires Valid()
      ensures batch <= rows && |batch| <= limit && (|batch| < limit ==> batch == rows)
      ensures forall read, left :: read in batch && left in rows && left !in batch ==> read.id < left.id
    {
      var n := if limit < |rows| then limit else |rows|;
      batch := rows[..n];
      forall read, left | read in batch && left in rows && left !in batch ensures read.id < left.id {
        var i :| 0 <= i < n && rows[i] == read;
        var j :| 0 <= j < |rows| && rows[j] == left;
        assert rows[j] !in rows[..n];
      }
    }

    /** Deletes the listed rows that are still there; ids listed twice or already gone count once or not at all. */
    method Acknowledge(ids: seq<int>)
      requires Valid()
      modifies this`rows, this`depth, this`acknowledged
      ensures Valid()
      ensures rows == Without(old(rows), ids)
      ensures acknowledged == old(acknowledged) + (|old(rows)| - |rows|)
    {
      if |ids| == 0 { return; }
      var removed := 0;
      for i := 0 to |ids|
        invariant rows == Without(old(rows), ids[..i])
        invariant removed == |old(rows)| - |rows|
        invariant InInsertionOrder(rows) && depth == |old(rows)| && acknowledged == old(acknowledged)
      {
        assert ids[..i + 1][..i] == ids[..i];
        WithoutIdKeepsOrder(rows, ids[i]);
        var left := WithoutId(rows, ids[i]);
        removed := removed + (|rows| - |left|);
        rows := left;
      }
      assert ids[..|ids|] == ids;
      depth := depth - removed;
      acknowledged := acknowledged + removed;
    }

    method Stats() returns (depthNow: int, evictedNow: nat)
      requires Valid()
      ensures depthNow == |rows| && evictedNow == evicted
    {
      depthNow, evictedNow := depth, evicted;
    }

    // ---- sync bookmarks ----------------------------------------------------

    function HistoryMark(instanceName: string): int
      reads this`syncState
    {
      if instanceName in syncState then syncState[instanceName].historyMark else 0
    }

    /** A bookmark never moves back once it is set. */
    method SetHistoryMark(instanceName: string, value: int)
      modifies this`syncState
      ensures HistoryMark(instanceName) ==
        if instanceName in old(syncState) && old(HistoryMark(instanceName)) > value
        then old(HistoryMark(instanceName)) else value
      ensures forall other :: other != instanceName ==> HistoryMark(other) == old(HistoryMark(other))
    {
      if instanceName in syncState {
        var was := syncState[instanceName];
        var mark := if was.historyMark > value then was.historyMark else value;
        syncState := syncState[instanceName := was.(historyMark := mark)];
      } else {
        syncState := syncState[instanceName := SyncState(value, None)];
      }
    }

    // ---- command idempotency -----------------------------------------------

    function Outcome(commandId: string): Option<AppliedCommand>
      reads this`applied
    {
      if commandId in applied then Some(applied[commandId]) else None
    }

    /** ON CONFLICT DO NOTHING: the first record of a command stands. */
    method RecordApplied(commandId: string, success: bool, result: Option<string>, now: int)
      modifies this`applied
      ensures applied == Recorded(old(applied), commandId, AppliedCommand(now, success, result))
    {
      if commandId !in applied {
        applied := applied[commandId := AppliedCommand(now, success, result)];
      }
    }

    method PruneApplied(maxAgeMs: int, now: int)
      modifies this`applied, this`lastAppliedCommandPruneAt
      ensures if now - old(lastAppliedCommandPruneAt) < APPLIED_COMMAND_PRUNE_INTERVAL_MS
              then applied == old(applied) && lastAppliedCommandPruneAt == old(lastAppliedCommandPruneAt)
              else applied == Unexpired(old(applied), now - maxAgeMs) && lastAppliedCommandPruneAt == now
    {
      if now - lastAppliedCommandPruneAt < APPLIED_COMMAND_PRUNE_INTERVAL_MS { return; }
      lastAppliedCommandPruneAt := now;
      applied := Unexpired(applied, now - maxAgeMs);
    }
  }

  function Recorded(applied: map<string, AppliedCommand>, id: string, record: AppliedCommand)
    : map<string, AppliedCommand>
  {
    if id in applied then applied else applied[id := record]
  }

  /** `DELETE FROM applied_commands WHERE applied_at < ?`. */
  function Unexpired(applied: map<string, AppliedCommand>, before: int): map<string, AppliedCommand> {
    map id | id in applied && applied[id].appliedAt >= before :: applied[id]
  }
}
