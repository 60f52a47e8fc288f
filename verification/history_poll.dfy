/** One undisturbed run of the history poller's loop. */
module HistoryPoll {
  import opened OutboxStore
  import HistorySync

  /** A history row; its date reads as NULL where the run date and time make none. */
  datatype Logged = Logged(id: int, dated: bool)

  ghost predicate Rising(rows: seq<Logged>) {
    forall i, j :: 0 <= i < j < |rows| ==> rows[i].id < rows[j].id
  }

  /** The rows above the mark, in id order. */
  function Above(rows: seq<Logged>, mark: int): seq<Logged> {
    if rows == [] then [] else (if rows[0].id > mark then [rows[0]] else []) + Above(rows[1..], mark)
  }

  function Dated(rows: seq<Logged>): (r: seq<Logged>)
    ensures |r| <= |rows|
  {
    if rows == [] then []
    else Dated(rows[..|rows| - 1]) + if rows[|rows| - 1].dated then [rows[|rows| - 1]] else []
  }

  function First(rows: seq<Logged>, limit: nat): seq<Logged> { rows[..if limit < |rows| then limit else |rows|] }

  /** `readHistorySince`: the dated ones among the first `limit` rows above the mark. */
  function ReadSince(rows: seq<Logged>, mark: int, limit: nat): seq<Logged> {
    Dated(First(Above(rows, mark), limit))
  }

  // ---- rows and marks ------------------------------------------------------

  lemma {:induction false} AboveHolds(rows: seq<Logged>, mark: int, row: Logged)
    ensures row in Above(rows, mark) <==> row in rows && row.id > mark
  {
    if rows != [] { AboveHolds(rows[1..], mark, row); }
  }

  lemma {:induction false} DatedHolds(rows: seq<Logged>, row: Logged)
    ensures row in Dated(rows) <==> row in rows && row.dated
  {
    if rows != [] {
      DatedHolds(rows[..|rows| - 1], row);
      assert rows == rows[..|rows| - 1] + [rows[|rows| - 1]];
    }
  }

  lemma {:induction false} AboveAll(rows: seq<Logged>, mark: int)
    requires forall i :: 0 <= i < |rows| ==> rows[i].id > mark
    ensures Above(rows, mark) == rows
  {
    if rows != [] { AboveAll(rows[1..], mark); }
  }

  lemma {:induction false} AboveRises(rows: seq<Logged>, mark: int)
    requires Rising(rows)
    ensures Rising(Above(rows, mark))
  {
    if rows != [] {
      AboveRises(rows[1..], mark);
      var rest := Above(rows[1..], mark);
      forall j | 0 <= j < |rest| ensures rows[0].id < rest[j].id { AboveHolds(rows[1..], mark, rest[j]); }
    }
  }

  lemma AboveFirst(rows: seq<Logged>, mark: int)
    requires Rising(rows) && rows != [] && rows[0].id > mark
    ensures Above(rows, mark) == rows && Above(rows, rows[0].id) == rows[1..]
  {
    assert forall i :: 0 <= i < |rows[1..]| ==> rows[1..][i].id > rows[0].id;
    AboveAll(rows, mark);
    AboveAll(rows[1..], rows[0].id);
  }

  /** Moving the mark to a row above it leaves exactly the rows after that row. */
  lemma {:induction false} AboveBatch(rows: seq<Logged>, mark: int, n: nat)
    requires Rising(rows) && 0 < n <= |Above(rows, mark)|
    ensures Above(rows, Above(rows, mark)[n - 1].id) == Above(rows, mark)[n..]
  {
    var all := Above(rows, mark);
    if rows[0].id <= mark {
      assert all == Above(rows[1..], mark);
      AboveHolds(rows[1..], mark, all[n - 1]);
      AboveBatch(rows[1..], mark, n);
    } else {
      AboveFirst(rows, mark);
      if n > 1 {
        AboveAll(rows[1..], mark);
        AboveBatch(rows[1..], mark, n - 1);
        assert all[n - 1] == rows[1..][n - 2] && all[n..] == rows[1..][n - 1..];
      }
    }
  }

  lemma {:induction false} DatedConcat(a: seq<Logged>, b: seq<Logged>)
    ensures Dated(a + b) == Dated(a) + Dated(b)
    decreases |b|
  {
    if b == [] {
      assert a + b == a;
    } else {
      var init := b[..|b| - 1];
      DatedConcat(a, init);
      var ab := a + b;
      assert ab[..|ab| - 1] == a + init && ab[|ab| - 1] == b[|b| - 1];
    }
  }

  lemma {:induction false} DatedRises(rows: seq<Logged>)
    requires Rising(rows)
    ensures Rising(Dated(rows))
  {
    if rows != [] {
      var init := rows[..|rows| - 1];
      DatedRises(init);
      forall i | 0 <= i < |Dated(init)| ensures Dated(init)[i].id < rows[|rows| - 1].id {
        DatedHolds(init, Dated(init)[i]);
      }
    }
  }

  /** The last dated row, and nothing dated behind it. */
  lemma {:induction false} LastDated(rows: seq<Logged>) returns (k: nat)
    requires Dated(rows) != []
    ensures 0 < k <= |rows| && rows[k - 1].dated && Dated(rows)[|Dated(rows)| - 1] == rows[k - 1]
    ensures Dated(rows[k..]) == []
    ensures |Dated(rows)| == |rows| ==> k == |rows|
  {
    var init, last := rows[..|rows| - 1], rows[|rows| - 1];
    if last.dated {
      k := |rows|;
    } else {
      k := LastDated(init);
      var tail := rows[k..];
      assert tail[..|tail| - 1] == init[k..] && tail[|tail| - 1] == last;
    }
  }

  // ---- how far one poll gets -----------------------------------------------

  /** How many rows a poll emits: batch after batch, until a window is not full of dated rows. */
  function Emitted(rows: seq<Logged>, limit: nat): nat
    decreases |rows|
  {
    var window := First(rows, limit);
    if window != [] && |Dated(window)| == limit then limit + Emitted(rows[limit..], limit) else |Dated(window)|
  }

  lemma {:induction false} AllDated(rows: seq<Logged>)
    requires forall row :: row in rows ==> row.dated
    ensures Dated(rows) == rows
  {
    if rows != [] { AllDated(rows[..|rows| - 1]); }
  }

  lemma {:induction false} FullyDated(rows: seq<Logged>)
    requires |Dated(rows)| == |rows|
    ensures forall i :: 0 <= i < |rows| ==> rows[i].dated
  {
    if rows != [] { FullyDated(rows[..|rows| - 1]); }
  }

  /** Which window of `limit` rows a row falls in. */
  function Window(i: nat, limit: nat): nat
    requires limit > 0
  {
    if i < limit then 0 else 1 + Window(i - limit, limit)
  }

  /** An undated row sits in an earlier window than a dated one. */
  ghost predicate CutsOff(rows: seq<Logged>, limit: nat, i: nat, j: nat)
    requires limit > 0 && i < j < |rows|
  {
    !rows[i].dated && rows[j].dated && Window(i, limit) < Window(j, limit)
  }

  lemma RestCutsOff(rows: seq<Logged>, limit: nat)
    requires 0 < limit <= |rows| && forall i :: 0 <= i < limit ==> rows[i].dated
    ensures (exists i, j :: 0 <= i < j < |rows| && CutsOff(rows, limit, i, j)) <==>
            (exists i, j :: 0 <= i < j < |rows[limit..]| && CutsOff(rows[limit..], limit, i, j))
  {
    var rest := rows[limit..];
    if i, j :| 0 <= i < j < |rows| && CutsOff(rows, limit, i, j) {
      assert i >= limit;
      assert CutsOff(rest, limit, i - limit, j - limit);
    }
    if i, j :| 0 <= i < j < |rest| && CutsOff(rest, limit, i, j) {
      assert CutsOff(rows, limit, i + limit, j + limit);
    }
  }

  lemma FirstUndated(rows: seq<Logged>, limit: nat) returns (i: nat)
    requires |Dated(First(rows, limit))| < |First(rows, limit)|
    ensures i < |First(rows, limit)| && !rows[i].dated
  {
    var window := First(rows, limit);
    if forall k :: 0 <= k < |window| ==> window[k].dated { AllDated(window); }
    i :| 0 <= i < |window| && !window[i].dated;
  }

  /** A poll leaves a dated row behind exactly when an undated one sits in an earlier window of `limit` rows. */
  lemma {:induction false} EmittedExactly(rows: seq<Logged>, limit: nat)
    requires limit > 0
    ensures Emitted(rows, limit) < |Dated(rows)| <==>
            exists i, j :: 0 <= i < j < |rows| && CutsOff(rows, limit, i, j)
    ensures Emitted(rows, limit) <= |Dated(rows)|
    decreases |rows|
  {
    var window := First(rows, limit);
    var rest := rows[|window|..];
    assert rows == window + rest;
    DatedConcat(window, rest);
    if window != [] && |Dated(window)| == limit {
      FullyDated(window);
      EmittedExactly(rest, limit);
      RestCutsOff(rows, limit);
    } else if Dated(rest) == [] {
      forall i, j | 0 <= i < j < |rows| && CutsOff(rows, limit, i, j) ensures false {
        if j >= limit { DatedHolds(rest, rest[j - |window|]); }
      }
    } else {
      CutOff(rows, limit);
    }
  }

  lemma CutOff(rows: seq<Logged>, limit: nat)
    requires limit > 0 && |Dated(First(rows, limit))| < limit && Dated(rows[|First(rows, limit)|..]) != []
    ensures exists i, j :: 0 <= i < j < |rows| && CutsOff(rows, limit, i, j)
  {
    var rest := rows[limit..];
    var row := Dated(rest)[0];
    DatedHolds(rest, row);
    var j :| 0 <= j < |rest| && rest[j] == row;
    var i := FirstUndated(rows, limit);
    assert Window(i, limit) == 0 && Window(j + limit, limit) > 0;
    assert CutsOff(rows, limit, i, j + limit);
  }

  /** A whole window of undated rows stops every poll at the same mark, whatever comes later. */
  lemma UndatedWindowBlocks(rows: seq<Logged>, limit: nat, later: seq<Logged>)
    requires limit <= |rows| && Dated(rows[..limit]) == []
    ensures Emitted(rows + later, limit) == 0
  {
    assert First(rows + later, limit) == rows[..limit];
  }

  // ---- poll after poll -----------------------------------------------------

  /** Just behind the last dated row; 0 when there is none. */
  function BehindLastDated(rows: seq<Logged>): (k: nat)
    ensures k <= |rows| && (k > 0 ==> rows[k - 1].dated)
    ensures forall i :: k <= i < |rows| ==> !rows[i].dated
  {
    if rows == [] || rows[|rows| - 1].dated then |rows| else BehindLastDated(rows[..|rows| - 1])
  }

  /** How many rows one poll puts behind the bookmark. */
  function Reached(rows: seq<Logged>, limit: nat): (at: nat)
    ensures at <= |rows| && (at > 0 ==> rows[at - 1].dated)
    decreases |rows|
  {
    var window := First(rows, limit);
    if window != [] && |Dated(window)| == limit then
      FullyDated(window);
      limit + Reached(rows[limit..], limit)
    else BehindLastDated(window)
  }

  /** The rows above the bookmark after so many polls. */
  function Left(rows: seq<Logged>, limit: nat, polls: nat): seq<Logged> {
    if polls == 0 then rows else Left(rows[Reached(rows, limit)..], limit, polls - 1)
  }

  /** `limit` undated rows in a row, at `i`. */
  ghost predicate Gap(rows: seq<Logged>, limit: nat, i: nat) {
    i + limit <= |rows| && forall k :: i <= k < i + limit ==> !rows[k].dated
  }

  /** A dated row stands behind such a gap. */
  ghost predicate Blocked(rows: seq<Logged>, limit: nat) {
    exists i, j :: 0 <= i && i + limit <= j < |rows| && Gap(rows, limit, i) && rows[j].dated
  }

  /** No poll passes a gap. */
  lemma {:induction false} GapIsNotPassed(rows: seq<Logged>, limit: nat, i: nat)
    requires limit > 0 && Gap(rows, limit, i)
    ensures Reached(rows, limit) <= i
    decreases |rows|
  {
    var window := First(rows, limit);
    assert !rows[i].dated;
    if |Dated(window)| == limit {
      FullyDated(window);
      assert i >= limit;
      assert Gap(rows[limit..], limit, i - limit);
      GapIsNotPassed(rows[limit..], limit, i - limit);
    } else {
      var k := BehindLastDated(window);
      assert k > 0 ==> window[k - 1] == rows[k - 1];
    }
  }

  lemma StuckIsBlocked(rows: seq<Logged>, limit: nat)
    requires limit > 0 && Dated(rows) != [] && Reached(rows, limit) == 0
    ensures Blocked(rows, limit)
  {
    var window := First(rows, limit);
    DatedHolds(rows, Dated(rows)[0]);
    var j :| 0 <= j < |rows| && rows[j] == Dated(rows)[0];
    assert BehindLastDated(window) == 0;
    assert forall k :: 0 <= k < |window| ==> !window[k].dated && rows[k] == window[k];
    assert Gap(rows, limit, 0);
  }

  /** Where nothing is blocked, a poll gets past a dated row while there is one. */
  lemma PollMoves(rows: seq<Logged>, limit: nat)
    requires limit > 0 && !Blocked(rows, limit) && Dated(rows) != []
    ensures Reached(rows, limit) > 0
  {
    if Reached(rows, limit) == 0 { StuckIsBlocked(rows, limit); }
  }

  lemma GapBehind(rows: seq<Logged>, at: nat, limit: nat, i: nat)
    requires at <= |rows|
    ensures Gap(rows[at..], limit, i) <==> Gap(rows, limit, at + i)
  {
    var rest := rows[at..];
    if Gap(rest, limit, i) {
      forall k | at + i <= k < at + i + limit ensures !rows[k].dated { assert rows[k] == rest[k - at]; }
    }
  }

  lemma BlockedStays(rows: seq<Logged>, limit: nat)
    requires limit > 0
    ensures Blocked(rows[Reached(rows, limit)..], limit) <==> Blocked(rows, limit)
  {
    hide Reached, Gap;
    var at := Reached(rows, limit);
    var rest := rows[at..];
    if Blocked(rows, limit) {
      var i, j :| 0 <= i && i + limit <= j < |rows| && Gap(rows, limit, i) && rows[j].dated;
      GapIsNotPassed(rows, limit, i);
      GapBehind(rows, at, limit, i - at);
      assert rest[j - at].dated;
    }
    if Blocked(rest, limit) {
      var i, j :| 0 <= i && i + limit <= j < |rest| && Gap(rest, limit, i) && rest[j].dated;
      GapBehind(rows, at, limit, i);
      assert rows[at + j].dated;
    }
  }

  lemma {:induction false} BlockedForGood(rows: seq<Logged>, limit: nat, polls: nat)
    requires limit > 0 && Blocked(rows, limit)
    ensures Dated(Left(rows, limit, polls)) != []
    decreases polls
  {
    if polls == 0 {
      var i, j :| 0 <= i && i + limit <= j < |rows| && Gap(rows, limit, i) && rows[j].dated;
      DatedHolds(rows, rows[j]);
    } else {
      BlockedStays(rows, limit);
      BlockedForGood(rows[Reached(rows, limit)..], limit, polls - 1);
    }
  }

  lemma {:induction false} CaughtUp(rows: seq<Logged>, limit: nat, polls: nat)
    requires limit > 0 && !Blocked(rows, limit) && polls >= |rows|
    ensures Dated(Left(rows, limit, polls)) == []
    decreases polls
  {
    if polls > 0 {
      var at := Reached(rows, limit);
      BlockedStays(rows, limit);
      if Dated(rows) != [] {
        PollMoves(rows, limit);
        CaughtUp(rows[at..], limit, polls - 1);
      } else {
        StaysCaughtUp(rows, limit, polls);
      }
    }
  }

  lemma {:induction false} StaysCaughtUp(rows: seq<Logged>, limit: nat, polls: nat)
    requires Dated(rows) == []
    ensures Dated(Left(rows, limit, polls)) == []
    decreases polls
  {
    if polls > 0 {
      var rest := rows[Reached(rows, limit)..];
      if Dated(rest) != [] {
        DatedHolds(rest, Dated(rest)[0]);
        DatedHolds(rows, Dated(rest)[0]);
      }
      StaysCaughtUp(rest, limit, polls - 1);
    }
  }

  /** Polling over and over leaves a dated row behind for ever exactly when `limit` undated rows stand before one. */
  lemma NeverCaughtUpExactly(rows: seq<Logged>, limit: nat)
    requires limit > 0
    ensures (forall polls :: Dated(Left(rows, limit, polls)) != []) <==> Blocked(rows, limit)
  {
    if Blocked(rows, limit) {
      forall polls ensures Dated(Left(rows, limit, polls)) != [] { BlockedForGood(rows, limit, polls); }
    } else {
      CaughtUp(rows, limit, |rows|);
    }
  }

  /** With a batch size of 2, two undated rows keep the dated one behind them from ever being sent. */
  lemma TwoUndatedRowsBlock(polls: nat)
    ensures Dated(Left([Logged(1, false), Logged(2, false), Logged(3, true)], 2, polls)) != []
  {
    var rows := [Logged(1, false), Logged(2, false), Logged(3, true)];
    assert Gap(rows, 2, 0) && rows[2].dated;
    BlockedForGood(rows, 2, polls);
  }

  // ---- the loop ------------------------------------------------------------

  /** Messages given to `emit`, each the rows it carries. */
  class Channel {
    var emitted: seq<seq<Logged>>

    constructor ()
      ensures emitted == []
    {
      emitted := [];
    }

    method Emit(rows: seq<Logged>)
      modifies this
      ensures emitted == old(emitted) + [rows]
    {
      emitted := emitted + [rows];
    }
  }

  function Flat(batches: seq<seq<Logged>>): seq<Logged> {
    if batches == [] then [] else Flat(batches[..|batches| - 1]) + batches[|batches| - 1]
  }

  method MaxOf(rows: seq<Logged>) returns (m: int)
    requires rows != [] && Rising(rows)
    ensures m == rows[|rows| - 1].id
  {
    m := rows[0].id;
    for i := 0 to |rows|
      invariant m == rows[if i == 0 then 0 else i - 1].id
    {
      if rows[i].id > m { m := rows[i].id; }
    }
  }

  /**
   * The first `at` rows above the old bookmark are dealt with: the dated ones
   * among them are out, in batches, and the bookmark stands at the last row of
   * them, which is dated.
   */
  ghost predicate Polled(history: seq<Logged>, first: int, before: seq<seq<Logged>>, at: nat,
                         emitted: seq<seq<Logged>>, mark: int)
  {
    var rows := Above(history, first);
    && at <= |rows|
    && Above(history, mark) == rows[at..]
    && Flat(emitted) == Flat(before) + Dated(rows[..at])
    && (if at == 0 then mark == first && emitted == before else rows[at - 1].dated && mark == rows[at - 1].id)
  }

  lemma FlatAppend(batches: seq<seq<Logged>>, batch: seq<Logged>)
    ensures Flat(batches + [batch]) == Flat(batches) + batch
  {
    assert (batches + [batch])[..|batches|] == batches;
  }

  lemma NextRows(rows: seq<Logged>, at: nat, left: seq<Logged>, n: nat)
    requires at <= |rows| && left == rows[at..] && 0 < n <= |left|
    ensures left[n..] == rows[at + n..] && left[n - 1] == rows[at + n - 1]
    ensures Dated(rows[..at + n]) == Dated(rows[..at]) + Dated(left[..n])
  {
    assert rows[..at + n] == rows[..at] + left[..n];
    DatedConcat(rows[..at], left[..n]);
  }

  /** One batch moves the bookmark to its last row; the rest of its window holds nothing dated. */
  lemma PolledBatch(history: seq<Logged>, first: int, before: seq<seq<Logged>>, at: nat, emitted: seq<seq<Logged>>,
                    mark: int, limit: nat) returns (n: nat)
    requires Rising(history) && Polled(history, first, before, at, emitted, mark)
    requires ReadSince(history, mark, limit) != []
    ensures var records, window := ReadSince(history, mark, limit), First(Above(history, mark), limit);
      && 0 < n <= |window| && window[n - 1].dated && Dated(window[n..]) == []
      && (|records| == |window| ==> n == |window|)
      && Rising(records) && records[|records| - 1].id > mark
      && Polled(history, first, before, at + n, emitted + [records], records[|records| - 1].id)
  {
    hide Above, Dated, Flat;
    var left := Above(history, mark);
    var window := First(left, limit);
    n := LastDated(window);
    AboveRises(history, mark);
    DatedRises(window);
    AboveHolds(history, mark, left[n - 1]);
    BatchOut(Above(history, first), before, at, emitted, left, window, n);
    AboveBatch(history, mark, n);
  }

  lemma WindowDated(left: seq<Logged>, window: seq<Logged>, n: nat)
    requires window <= left && n <= |window| && Dated(window[n..]) == []
    ensures Dated(left[..n]) == Dated(window)
  {
    assert left[..n] == window[..n] && window == window[..n] + window[n..];
    DatedConcat(window[..n], window[n..]);
    assert Dated(window[..n]) + [] == Dated(window[..n]);
  }

  lemma BatchOut(rows: seq<Logged>, before: seq<seq<Logged>>, at: nat, emitted: seq<seq<Logged>>, left: seq<Logged>,
                 window: seq<Logged>, n: nat)
    requires at <= |rows| && left == rows[at..] && window <= left && 0 < n <= |window| && Dated(window[n..]) == []
    requires Flat(emitted) == Flat(before) + Dated(rows[..at])
    ensures Flat(emitted + [Dated(window)]) == Flat(before) + Dated(rows[..at + n])
    ensures left[n..] == rows[at + n..] && left[n - 1] == rows[at + n - 1]
  {
    NextRows(rows, at, left, n);
    WindowDated(left, window, n);
    FlatAppend(emitted, Dated(window));
    assert Flat(before) + Dated(rows[..at]) + Dated(window) == Flat(before) + (Dated(rows[..at]) + Dated(window));
  }

  /** What is left to emit after a full window, and after the last one. */
  lemma EmittedSoFar(rows: seq<Logged>, at: nat, limit: nat, n: nat)
    requires at <= |rows| && limit > 0
    requires var window := First(rows[at..], limit);
      0 < n <= |window| && Dated(window[n..]) == [] && (|Dated(window)| == |window| ==> n == |window|)
    ensures |Dated(rows[..at])| + Emitted(rows[at..], limit) ==
            |Dated(rows[..at + n])| + if |Dated(First(rows[at..], limit))| == limit
                                      then Emitted(rows[at + n..], limit) else 0
  {
    var left := rows[at..];
    var window := First(left, limit);
    NextRows(rows, at, left, n);
    WindowDated(left, window, n);
  }

  lemma BehindWindow(window: seq<Logged>, n: nat)
    requires n <= |window| && (n > 0 ==> window[n - 1].dated) && Dated(window[n..]) == []
    ensures BehindLastDated(window) == n
  {
    var k := BehindLastDated(window);
    if k > n {
      assert window[n..][k - 1 - n] == window[k - 1];
      DatedHolds(window[n..], window[k - 1]);
    }
  }

  /** How far a poll gets, window by window. */
  lemma ReachedSoFar(left: seq<Logged>, limit: nat, n: nat)
    requires var window := First(left, limit);
      0 < n <= |window| && window[n - 1].dated && Dated(window[n..]) == [] &&
      (|Dated(window)| == |window| ==> n == |window|)
    ensures Reached(left, limit) ==
            n + if |Dated(First(left, limit))| == limit then Reached(left[n..], limit) else 0
  {
    BehindWindow(First(left, limit), n);
  }

  lemma NothingEmitted(left: seq<Logged>, limit: nat)
    requires Dated(First(left, limit)) == []
    ensures limit > 0 ==> Emitted(left, limit) == 0
    ensures Reached(left, limit) == 0
  {
    var window := First(left, limit);
    assert window[0..] == window;
    BehindWindow(window, 0);
  }

  lemma NothingYet(history: seq<Logged>, first: int, before: seq<seq<Logged>>)
    ensures Polled(history, first, before, 0, before, first) && |Dated(Above(history, first)[..0])| == 0
    ensures Above(history, first)[0..] == Above(history, first)
  {}

  /**
   * The dated rows above the bookmark go out once each and in order, as many as
   * `Emitted` says, and the bookmark ends at the last of them.
   */
  method PollHistory(history: seq<Logged>, outbox: Outbox, channel: Channel, instanceName: string, batchSize: nat)
    returns (ghost at: nat)
    requires Rising(history)
    modifies outbox`syncState, channel
    ensures Polled(history, old(outbox.HistoryMark(instanceName)), old(channel.emitted), at, channel.emitted,
                   outbox.HistoryMark(instanceName))
    ensures var rows := Above(history, old(outbox.HistoryMark(instanceName)));
      && at == Reached(rows, batchSize) && Above(history, outbox.HistoryMark(instanceName)) == rows[at..]
      && (batchSize > 0 ==> |Dated(rows[..at])| == Emitted(rows, batchSize))
  {
    hide Above, Dated, Emitted, Reached, Flat;
    ghost var first, before := outbox.HistoryMark(instanceName), channel.emitted;
    ghost var rows := Above(history, first);
    at := 0;
    NothingYet(history, first, before);
    while true
      invariant Polled(history, first, before, at, channel.emitted, outbox.HistoryMark(instanceName))
      invariant batchSize == 0 ==> at == 0
      invariant Reached(rows, batchSize) == at + Reached(rows[at..], batchSize)
      invariant batchSize > 0 ==> Emitted(rows, batchSize) == |Dated(rows[..at])| + Emitted(rows[at..], batchSize)
      decreases |rows| - at
    {
      var hwm := outbox.HistoryMark(instanceName);
      var records := ReadSince(history, hwm, batchSize);
      if |records| == 0 {
        NothingEmitted(rows[at..], batchSize);
        return;
      }
      ghost var n := PolledBatch(history, first, before, at, channel.emitted, hwm, batchSize);
      EmittedSoFar(rows, at, batchSize, n);
      ReachedSoFar(rows[at..], batchSize, n);
      assert rows[at..][n..] == rows[at + n..];
      channel.Emit(records);
      var maxId := MaxOf(records);
      outbox.SetHistoryMark(instanceName, maxId);
      at := at + n;
      if |records| < batchSize { return; }
    }
  }

  // ---- the same query in the state machine ---------------------------------

  ghost function IdsOf(rows: seq<Logged>): (r: set<int>)
    ensures forall id :: id in r <==> exists i :: 0 <= i < |rows| && rows[i].id == id
  {
    set i | 0 <= i < |rows| :: rows[i].id
  }

  lemma {:induction false} AsManyIds(rows: seq<Logged>)
    requires Rising(rows)
    ensures |IdsOf(rows)| == |rows|
  {
    if rows != [] {
      var init, last := rows[..|rows| - 1], rows[|rows| - 1];
      AsManyIds(init);
      assert IdsOf(rows) == IdsOf(init) + {last.id};
      assert last.id !in IdsOf(init);
    }
  }

  lemma IdAbove(rows: seq<Logged>, mark: int, i: nat) returns (k: nat)
    requires i < |rows| && rows[i].id > mark
    ensures k < |Above(rows, mark)| && Above(rows, mark)[k] == rows[i]
  {
    AboveHolds(rows, mark, rows[i]);
    k :| 0 <= k < |Above(rows, mark)| && Above(rows, mark)[k] == rows[i];
  }

  lemma AboveInHistory(rows: seq<Logged>, mark: int, k: nat)
    requires k < |Above(rows, mark)|
    ensures Above(rows, mark)[k].id in IdsOf(rows) && Above(rows, mark)[k].id > mark
  {
    var row := Above(rows, mark)[k];
    AboveHolds(rows, mark, row);
    var i :| 0 <= i < |rows| && rows[i] == row;
  }

  lemma WindowTakesFirst(rows: seq<Logged>, mark: int, limit: nat, id: int)
    requires Rising(rows) && id in IdsOf(rows) && id > mark
    ensures var window := First(Above(rows, mark), limit);
      id in IdsOf(window) || (|window| == limit && forall i :: 0 <= i < |window| ==> window[i].id < id)
  {
    var all := Above(rows, mark);
    var window := First(all, limit);
    AboveRises(rows, mark);
    var i :| 0 <= i < |rows| && rows[i].id == id;
    var k := IdAbove(rows, mark, i);
    if k < |window| {
      assert window[k].id == id;
    } else {
      forall m | 0 <= m < |window| ensures window[m].id < id { assert all[m].id < all[k].id; }
    }
  }

  /** The window the loop reads is the one the state machine's poll reads. */
  lemma WindowIsBatch(rows: seq<Logged>, mark: int, limit: nat)
    requires Rising(rows)
    ensures HistorySync.IsBatch(IdsOf(rows), mark, limit, IdsOf(First(Above(rows, mark), limit)))
  {
    hide Above;
    var window := First(Above(rows, mark), limit);
    AboveRises(rows, mark);
    AsManyIds(window);
    forall id | id in IdsOf(window) ensures id in IdsOf(rows) && id > mark {
      var k :| 0 <= k < |window| && window[k].id == id;
      AboveInHistory(rows, mark, k);
    }
    forall id | id in IdsOf(rows) && id > mark
      ensures id in IdsOf(window) || (|window| == limit && forall later :: later in IdsOf(window) ==> later < id)
    {
      WindowTakesFirst(rows, mark, limit, id);
    }
  }

  /** And what it emits of that window is what the state machine's poll emits. */
  lemma DatedIsBatch(window: seq<Logged>, undated: set<int>)
    requires forall i :: 0 <= i < |window| ==> (window[i].id in undated <==> !window[i].dated)
    ensures IdsOf(Dated(window)) == IdsOf(window) - undated
  {
    forall id ensures id in IdsOf(Dated(window)) <==> id in IdsOf(window) - undated {
      if id in IdsOf(Dated(window)) {
        var k :| 0 <= k < |Dated(window)| && Dated(window)[k].id == id;
        DatedHolds(window, Dated(window)[k]);
      } else if id in IdsOf(window) - undated {
        var i :| 0 <= i < |window| && window[i].id == id;
        DatedHolds(window, window[i]);
      }
    }
  }
}
