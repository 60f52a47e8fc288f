/**
 * Shipping job history: pollers advancing a stored bookmark, with crashes,
 * overlapping polls, evictions and drains in between.
 */
module HistorySync {
  import opened Wrappers

  // ---- the state -----------------------------------------------------------

  /** One queued message and the history rows it carries (none for other kinds). */
  datatype Queued = Queued(key: nat, ids: set<int>)

  /** Where one run of the polling loop stands between two statements. */
  datatype Poll =
    | AtMark(hwm: int)
    | AtRows(hwm: int, batch: set<int>)
    | AtEmitted(hwm: int, batch: set<int>)

  datatype State = State(
    history: set<int>,        // sysjobhistory on the SQL host
    used: set<int>,           // every id given out so far, purged rows included
    undated: set<int>,        // rows whose date reads as NULL, which the query's caller drops
    late: set<int>,           // rows that became visible when a poll had already read past their place
    mark: int,                // the stored bookmark; 0 when there is none
    seed: int,                // where the bookmark was last seeded
    seeding: Option<int>,     // a connect between reading the maximum and storing it
    queue: seq<Queued>,       // the outbox
    nextKey: nat,
    maxRows: nat,
    handed: set<int>,         // rows handed to the stream
    evicted: set<int>,        // rows the outbox dropped
    inFlight: set<nat>,       // drained, not yet acknowledged
    polls: map<nat, Poll>)

  datatype Step =
    | NewRow(id: int, dated: bool)
    | PurgeHistory(gone: set<int>)
    | SeedRead(maxId: int)
    | SeedWrite
    | PollBegin(poll: nat)
    | PollRead(poll: nat, rows: set<int>, limit: nat)
    | PollEmit(poll: nat, accepted: bool)
    | PollAdvance(poll: nat, maxId: int)
    | EnqueueOther
    | Evict
    | DrainSend(i: nat)
    | DrainAck(key: nat)
    | Crash

  // ---- the steps -----------------------------------------------------------

  function AllIds(queue: seq<Queued>): set<int> {
    if queue == [] then {} else queue[0].ids + AllIds(queue[1..])
  }

  /** The INSERT of `enqueue`. */
  function Enqueued(s: State, ids: set<int>): State {
    s.(queue := s.queue + [Queued(s.nextKey, ids)], nextKey := s.nextKey + 1)
  }

  /** The DELETE that follows it: the oldest beyond the bound go. */
  function Evicted(s: State): State {
    var excess := if |s.queue| <= s.maxRows then 0 else |s.queue| - s.maxRows;
    s.(queue := s.queue[excess..], evicted := s.evicted + AllIds(s.queue[..excess]))
  }

  /** The history query: the first `limit` rows above the mark, in id order. */
  ghost predicate IsBatch(history: set<int>, hwm: int, limit: nat, batch: set<int>) {
    && (forall id :: id in batch ==> id in history && id > hwm)
    && (forall id, later :: id in history && hwm < id && later in batch && id <= later ==> id in batch)
    && |batch| <= limit
    && (|batch| == limit || forall id :: id in history && id > hwm ==> id in batch)
  }

  /** `readMaxHistoryId`: 0 when there is no history at all. */
  ghost predicate IsMaxId(history: set<int>, maxId: int) {
    if history == {} then maxId == 0 else maxId in history && forall id :: id in history ==> id <= maxId
  }

  function Remove<K, V>(m: map<K, V>, key: K): map<K, V> {
    map k | k in m && k != key :: m[k]
  }

  function Batch(poll: Poll): set<int> {
    match poll case AtMark(_) => {} case AtRows(_, batch) => batch case AtEmitted(_, batch) => batch
  }

  /** The bookmark, or the batch some poll holds, is already past the place of the id. */
  ghost predicate PassedBy(s: State, id: int) {
    id <= s.mark || exists p, later :: p in s.polls && later in Batch(s.polls[p]) && id <= later
  }

  ghost predicate Enabled(s: State, step: Step) {
    match step
    case NewRow(id, _) => id >= 1 && id !in s.used
    case PurgeHistory(_) => true
    case SeedRead(maxId) => s.mark == 0 && IsMaxId(s.history, maxId)
    case SeedWrite => s.seeding.Some?
    case PollBegin(p) => p !in s.polls
    case PollRead(p, rows, limit) =>
      p in s.polls && s.polls[p].AtMark? && IsBatch(s.history, s.polls[p].hwm, limit, rows)
    case PollEmit(p, _) => p in s.polls && s.polls[p].AtRows?
    case PollAdvance(p, maxId) =>
      p in s.polls && s.polls[p].AtEmitted? &&
      maxId in s.polls[p].batch && forall id :: id in s.polls[p].batch ==> id <= maxId
    case EnqueueOther => true
    case Evict => true
    case DrainSend(i) => i < |s.queue|
    case DrainAck(key) => key in s.inFlight
    case Crash => true
  }

  /** A loop that goes round again begins another poll, so one iteration ends by leaving `polls`. */
  ghost function Next(s: State, step: Step): State
    requires Enabled(s, step)
  {
    match step
    case NewRow(id, dated) =>
      s.(history := s.history + {id}, used := s.used + {id},
         undated := if dated then s.undated else s.undated + {id},
         late := if PassedBy(s, id) then s.late + {id} else s.late)
    case PurgeHistory(gone) => s.(history := s.history - gone)
    case SeedRead(maxId) => s.(seeding := Some(if maxId > 100 then maxId - 100 else 0))
    case SeedWrite =>
      var v := s.seeding.value;
      s.(mark := if s.mark > v then s.mark else v, seed := if s.seed > v then s.seed else v, seeding := None)
    case PollBegin(p) => s.(polls := s.polls[p := AtMark(s.mark)])
    case PollRead(p, rows, _) =>
      var batch := rows - s.undated;
      if batch == {} then s.(polls := Remove(s.polls, p))
      else s.(polls := s.polls[p := AtRows(s.polls[p].hwm, batch)])
    case PollEmit(p, accepted) =>
      var batch := s.polls[p].batch;
      var emitted := if accepted then s.(handed := s.handed + batch) else Enqueued(s, batch);
      emitted.(polls := s.polls[p := AtEmitted(s.polls[p].hwm, batch)])
    case PollAdvance(p, maxId) =>
      s.(mark := if s.mark > maxId then s.mark else maxId, polls := Remove(s.polls, p))
    case EnqueueOther => Enqueued(s, {})
    case Evict => Evicted(s)
    case DrainSend(i) =>
      s.(handed := s.handed + s.queue[i].ids, inFlight := s.inFlight + {s.queue[i].key})
    case DrainAck(key) => s.(queue := Kept(s.queue, key))
    case Crash => s.(polls := map[], inFlight := {}, seeding := None)
  }

  function Kept(queue: seq<Queued>, key: nat): (r: seq<Queued>)
    ensures forall q :: q in r <==> q in queue && q.key != key
  {
    if queue == [] then []
    else (if queue[0].key == key then [] else [queue[0]]) + Kept(queue[1..], key)
  }

  // ---- safety --------------------------------------------------------------

  /** The row was handed to the stream, waits in the outbox, or was evicted from it. */
  ghost predicate Accounted(s: State, id: int) {
    id in s.handed || id in s.evicted || exists q :: q in s.queue && id in q.ids
  }

  /** Dated, and visible before any poll had read past its place. */
  predicate Timely(s: State, id: int) { id in s.history && id !in s.undated && id !in s.late }

  /** No timely row is silently skipped. */
  ghost predicate NoneSkipped(s: State) {
    forall id :: Timely(s, id) && s.seed < id <= s.mark ==> Accounted(s, id)
  }

  /** What has been read is dated. */
  ghost predicate OnlyDated(s: State) {
    && s.history <= s.used && s.undated <= s.used
    && (forall id :: Accounted(s, id) ==> id in s.used && id !in s.undated)
    && (forall p :: p in s.polls ==> Batch(s.polls[p]) <= s.used && Batch(s.polls[p]) !! s.undated)
  }

  ghost predicate KeysRise(queue: seq<Queued>) {
    forall i, j :: 0 <= i < j < |queue| ==> queue[i].key < queue[j].key
  }

  lemma {:induction false} KeptKeysRise(queue: seq<Queued>, key: nat)
    requires KeysRise(queue)
    ensures KeysRise(Kept(queue, key))
  {
    if queue != [] {
      var rest := Kept(queue[1..], key);
      KeptKeysRise(queue[1..], key);
      forall j | 0 <= j < |rest| ensures queue[0].key < rest[j].key {
        assert rest[j] in queue[1..];
      }
    }
  }

  /** Every timely row from just above `hwm` up to the last one read was read. */
  ghost predicate ReadThrough(s: State, hwm: int, batch: set<int>) {
    && hwm <= s.mark
    && (forall id, later :: Timely(s, id) && hwm < id && later in batch && id <= later ==> id in batch)
  }

  ghost predicate PollOk(s: State, poll: Poll) {
    match poll
    case AtMark(hwm) => hwm <= s.mark
    case AtRows(hwm, batch) => ReadThrough(s, hwm, batch)
    case AtEmitted(hwm, batch) => ReadThrough(s, hwm, batch) && forall id :: id in batch ==> Accounted(s, id)
  }

  ghost predicate Invariant(s: State) {
    && NoneSkipped(s) && OnlyDated(s)
    && KeysRise(s.queue)
    && (forall p :: p in s.polls ==> PollOk(s, s.polls[p]))
    && (forall q :: q in s.queue ==> q.key < s.nextKey)
    && (forall k :: k in s.inFlight ==> k < s.nextKey)
    && (forall q :: q in s.queue && q.key in s.inFlight ==> q.ids <= s.handed)
  }

  /** A worker that has never run: no bookmark, nothing queued or sent. */
  ghost predicate Initial(s: State) {
    && s.mark == 0 && s.seed == 0 && s.seeding == None && s.queue == [] && s.nextKey == 0
    && s.handed == {} && s.evicted == {} && s.inFlight == {} && s.polls == map[]
    && (forall id :: id in s.history ==> id >= 1) && s.undated <= s.history <= s.used && s.late == {}
  }

  lemma {:induction false} AllIdsHolds(queue: seq<Queued>, q: Queued)
    requires q in queue
    ensures q.ids <= AllIds(queue)
  {
    if queue[0] != q { AllIdsHolds(queue[1..], q); }
  }

  lemma EnqueueKeepsQueue(s: State, ids: set<int>)
    requires Invariant(s)
    ensures var t := Enqueued(s, ids);
      && KeysRise(t.queue)
      && (forall q :: q in t.queue ==> q.key < t.nextKey)
      && (forall q :: q in t.queue && q.key in s.inFlight ==> q.ids <= s.handed)
  {}

  lemma EnqueueKeepsAccount(s: State, ids: set<int>, id: int)
    requires Accounted(s, id) || id in ids
    ensures Accounted(Enqueued(s, ids), id)
  {
    var t := Enqueued(s, ids);
    if id !in s.handed && id !in s.evicted {
      if id in ids {
        assert t.queue[|s.queue|].ids == ids;
      } else {
        var q :| q in s.queue && id in q.ids;
        assert q in t.queue;
      }
    }
  }

  lemma {:induction false} AllIdsFrom(queue: seq<Queued>, id: int)
    requires id in AllIds(queue)
    ensures exists q :: q in queue && id in q.ids
  {
    if id in queue[0].ids {
      assert queue[0] in queue;
    } else {
      AllIdsFrom(queue[1..], id);
      var q :| q in queue[1..] && id in q.ids;
      assert q in queue;
    }
  }

  /** Evicting loses track of nothing, and of nothing new. */
  lemma EvictKeepsAccount(s: State, id: int)
    ensures Accounted(Evicted(s), id) <==> Accounted(s, id)
  {
    var t := Evicted(s);
    var excess := |s.queue| - |t.queue|;
    if Accounted(s, id) { EvictCounts(s, id); }
    if id in t.evicted && id !in s.evicted {
      AllIdsFrom(s.queue[..excess], id);
      var q :| q in s.queue[..excess] && id in q.ids;
      assert q in s.queue;
    }
  }

  lemma EvictCounts(s: State, id: int)
    requires Accounted(s, id)
    ensures Accounted(Evicted(s), id)
  {
    var t := Evicted(s);
    var excess := |s.queue| - |t.queue|;
    if id !in s.handed && id !in s.evicted {
      var q :| q in s.queue && id in q.ids;
      var i :| 0 <= i < |s.queue| && s.queue[i] == q;
      if i < excess {
        assert s.queue[..excess][i] == q;
        AllIdsHolds(s.queue[..excess], q);
      } else {
        assert t.queue[i - excess] == q;
      }
    }
  }

  /** What every step that only adds to the account keeps. */
  ghost predicate Extends(s: State, t: State) {
    && t.history == s.history && t.undated == s.undated && t.late == s.late && t.used == s.used
    && t.mark == s.mark && t.seed == s.seed && t.seeding == s.seeding
    && forall id :: Accounted(s, id) ==> Accounted(t, id)
  }

  lemma ExtendedPolls(s: State, t: State)
    requires Invariant(s) && Extends(s, t)
    ensures NoneSkipped(t) && forall p :: p in s.polls ==> PollOk(t, s.polls[p])
  {
    forall p | p in s.polls ensures PollOk(t, s.polls[p]) {
      assert PollOk(s, s.polls[p]);
    }
  }

  lemma EmitKeepsInvariant(s: State, p: nat, accepted: bool)
    requires Invariant(s) && Enabled(s, PollEmit(p, accepted))
    ensures Invariant(Next(s, PollEmit(p, accepted)))
  {
    var t, batch := Next(s, PollEmit(p, accepted)), s.polls[p].batch;
    EnqueueKeepsQueue(s, batch);
    forall id | Accounted(s, id) || id in batch ensures Accounted(t, id) {
      if !accepted {
        EnqueueKeepsAccount(s, batch, id);
        assert Accounted(Enqueued(s, batch), id);
      }
    }
    ExtendedPolls(s, t);
    assert PollOk(s, s.polls[p]);
  }

  /** Moving the mark up to the last row read passes over nothing that is not accounted for. */
  lemma AdvanceKeepsInvariant(s: State, p: nat, maxId: int)
    requires Invariant(s) && Enabled(s, PollAdvance(p, maxId))
    ensures Invariant(Next(s, PollAdvance(p, maxId)))
  {
    var t := Next(s, PollAdvance(p, maxId));
    assert PollOk(s, s.polls[p]);
    forall id | Timely(t, id) && t.seed < id <= t.mark ensures Accounted(t, id) {
      assert id > s.mark ==> id in s.polls[p].batch;
      assert Accounted(s, id);
    }
    forall q | q in t.polls ensures PollOk(t, t.polls[q]) { assert PollOk(s, s.polls[q]); }
  }

  lemma EnqueueKeepsInvariant(s: State)
    requires Invariant(s)
    ensures Invariant(Enqueued(s, {}))
  {
    EnqueueKeepsQueue(s, {});
    forall id | Accounted(s, id) ensures Accounted(Enqueued(s, {}), id) { EnqueueKeepsAccount(s, {}, id); }
    ExtendedPolls(s, Enqueued(s, {}));
  }

  lemma EvictKeepsInvariant(s: State)
    requires Invariant(s)
    ensures Invariant(Evicted(s))
  {
    forall id ensures Accounted(Evicted(s), id) <==> Accounted(s, id) { EvictKeepsAccount(s, id); }
    ExtendedPolls(s, Evicted(s));
  }

  lemma DrainKeepsInvariant(s: State, step: Step)
    requires Invariant(s) && Enabled(s, step) && (step.DrainSend? || step.DrainAck?)
    ensures Invariant(Next(s, step))
  {
    var t := Next(s, step);
    forall id | Accounted(s, id) ensures Accounted(t, id) {
      if id !in s.handed && id !in s.evicted {
        var q :| q in s.queue && id in q.ids;
        assert q in t.queue;
      }
    }
    ExtendedPolls(s, t);
    if step.DrainSend? { DrainedIsHanded(s, step.i); }
    if step.DrainAck? { KeptKeysRise(s.queue, step.key); }
  }

  lemma DrainedIsHanded(s: State, i: nat)
    requires Invariant(s) && i < |s.queue|
    ensures var t := Next(s, DrainSend(i)); forall q :: q in t.queue && q.key in t.inFlight ==> q.ids <= t.handed
  {}

  /** A row that is not late is ahead of the bookmark and of all that is being read. */
  lemma NewRowKeepsInvariant(s: State, id: int, dated: bool)
    requires Invariant(s) && Enabled(s, NewRow(id, dated))
    ensures Invariant(Next(s, NewRow(id, dated)))
  {
    var t := Next(s, NewRow(id, dated));
    forall other ensures Accounted(t, other) <==> Accounted(s, other) {}
    forall q | q in t.polls ensures PollOk(t, t.polls[q]) {
      assert PollOk(s, s.polls[q]);
      assert forall later :: later in Batch(s.polls[q]) && id <= later ==> PassedBy(s, id);
    }
  }

  lemma BatchInHistory(history: set<int>, hwm: int, limit: nat, batch: set<int>)
    requires IsBatch(history, hwm, limit, batch)
    ensures batch <= history
  {
    forall id | id in batch ensures id in history { assert IsBatch(history, hwm, limit, batch); }
  }

  lemma PollReadKeepsInvariant(s: State, p: nat, rows: set<int>, limit: nat)
    requires Invariant(s) && Enabled(s, PollRead(p, rows, limit))
    ensures Invariant(Next(s, PollRead(p, rows, limit)))
  {
    var t := Next(s, PollRead(p, rows, limit));
    forall other ensures Accounted(t, other) <==> Accounted(s, other) {}
    assert IsBatch(s.history, s.polls[p].hwm, limit, rows) && PollOk(s, s.polls[p]);
    BatchInHistory(s.history, s.polls[p].hwm, limit, rows);
    forall q | q in t.polls
      ensures PollOk(t, t.polls[q]) && Batch(t.polls[q]) <= t.used && Batch(t.polls[q]) !! t.undated
    {
      if q != p { assert q in s.polls && PollOk(s, s.polls[q]); }
    }
  }

  lemma HistoryStepKeepsInvariant(s: State, step: Step)
    requires Invariant(s) && Enabled(s, step)
    requires step.PurgeHistory? || step.SeedRead? || step.SeedWrite? || step.PollBegin? || step.Crash?
    ensures Invariant(Next(s, step))
  {
    var t := Next(s, step);
    forall id | Accounted(s, id) ensures Accounted(t, id) {}
    forall q | q in t.polls ensures PollOk(t, t.polls[q]) {
      if q in s.polls { assert PollOk(s, s.polls[q]); }
    }
  }

  lemma StepKeepsInvariant(s: State, step: Step)
    requires Invariant(s) && Enabled(s, step)
    ensures Invariant(Next(s, step))
  {
    match step {
      case NewRow(id, dated) => NewRowKeepsInvariant(s, id, dated);
      case PollRead(p, rows, limit) => PollReadKeepsInvariant(s, p, rows, limit);
      case PollEmit(p, accepted) => EmitKeepsInvariant(s, p, accepted);
      case PollAdvance(p, maxId) => AdvanceKeepsInvariant(s, p, maxId);
      case EnqueueOther => EnqueueKeepsInvariant(s);
      case Evict => EvictKeepsInvariant(s);
      case DrainSend(_) => DrainKeepsInvariant(s, step);
      case DrainAck(_) => DrainKeepsInvariant(s, step);
      case _ => HistoryStepKeepsInvariant(s, step);
    }
  }

  ghost predicate IsRun(states: seq<State>, steps: seq<Step>) {
    && |states| == |steps| + 1 && Initial(states[0])
    && forall i :: 0 <= i < |steps| ==> Enabled(states[i], steps[i]) && states[i + 1] == Next(states[i], steps[i])
  }

  lemma {:induction false} RunKeepsInvariant(states: seq<State>, steps: seq<Step>, n: nat)
    requires IsRun(states, steps) && n < |states|
    ensures Invariant(states[n])
  {
    if n > 0 {
      RunKeepsInvariant(states, steps, n - 1);
      StepKeepsInvariant(states[n - 1], steps[n - 1]);
    }
  }

  /**
   * In every state of every run: an undated row is never handed over, queued or
   * evicted, and a timely one between the seed and the bookmark always is.
   */
  lemma NoRowIsSkipped(states: seq<State>, steps: seq<Step>, n: nat, id: int)
    requires IsRun(states, steps) && n < |states|
    requires id in states[n].history && states[n].seed < id <= states[n].mark
    ensures id in states[n].undated ==> !Accounted(states[n], id)
    ensures id !in states[n].late ==> (Accounted(states[n], id) <==> id !in states[n].undated)
  {
    RunKeepsInvariant(states, steps, n);
  }

  // ---- rows that are lost --------------------------------------------------

  ghost predicate EndsIn(states: seq<State>, steps: seq<Step>, s: State) {
    IsRun(states, steps) && states[|states| - 1] == s
  }

  lemma OneMore(states: seq<State>, steps: seq<Step>, s: State, step: Step)
    returns (states': seq<State>, steps': seq<Step>)
    requires EndsIn(states, steps, s) && Enabled(s, step)
    ensures EndsIn(states', steps', Next(s, step))
  {
    states', steps' := states + [Next(s, step)], steps + [step];
  }

  function Fresh(): State { State({}, {}, {}, {}, 0, 0, None, [], 0, 1000, {}, {}, {}, map[]) }

  /** A poll that began at 0 reads and hands over everything there is. */
  lemma ReadAll(states: seq<State>, steps: seq<Step>, s: State, p: nat)
    returns (states': seq<State>, steps': seq<Step>)
    requires EndsIn(states, steps, s) && p in s.polls && s.polls[p] == AtMark(0) && s.history - s.undated != {}
    requires forall id :: id in s.history ==> id >= 1
    ensures var batch := s.history - s.undated;
      EndsIn(states', steps', s.(handed := s.handed + batch, polls := s.polls[p := AtEmitted(0, batch)]))
  {
    var batch := s.history - s.undated;
    assert IsBatch(s.history, 0, |s.history|, s.history);
    var read := Next(s, PollRead(p, s.history, |s.history|));
    states', steps' := OneMore(states, steps, s, PollRead(p, s.history, |s.history|));
    states', steps' := OneMore(states', steps', read, PollEmit(p, true));
    assert s.polls[p := AtRows(0, batch)][p := AtEmitted(0, batch)] == s.polls[p := AtEmitted(0, batch)];
  }

  /** Poll 0 from beginning to end. */
  lemma PolledAll(states: seq<State>, steps: seq<Step>, s: State, last: int)
    returns (states': seq<State>, steps': seq<Step>)
    requires EndsIn(states, steps, s) && s.mark == 0 && 0 !in s.polls && last in s.history - s.undated
    requires forall id :: id in s.history ==> 1 <= id <= last
    ensures EndsIn(states', steps', s.(mark := last, handed := s.handed + (s.history - s.undated)))
  {
    var batch := s.history - s.undated;
    states', steps' := OneMore(states, steps, s, PollBegin(0));
    var begun := Next(s, PollBegin(0));
    states', steps' := ReadAll(states', steps', begun, 0);
    var emitted := states'[|states'| - 1];
    states', steps' := OneMore(states', steps', emitted, PollAdvance(0, last));
    assert Remove(emitted.polls, 0) == s.polls;
  }

  /** An undated row with a dated one after it. */
  lemma UndatedRowIsLost()
    ensures exists states, steps, s :: EndsIn(states, steps, s) && 1 in s.history && s.seed < 1 <= s.mark &&
              1 !in s.late && !Accounted(s, 1)
  {
    var s0 := Fresh();
    var s1 := Next(s0, NewRow(1, false));
    var s2 := Next(s1, NewRow(2, true));
    var states, steps := OneMore([s0], [], s0, NewRow(1, false));
    states, steps := OneMore(states, steps, s1, NewRow(2, true));
    states, steps := PolledAll(states, steps, s2, 2);
  }

  /** A dated row that becomes visible after a later one was read. */
  lemma LateRowIsLost()
    ensures exists states, steps, s :: EndsIn(states, steps, s) && 1 in s.history && s.seed < 1 <= s.mark &&
              1 !in s.undated && !Accounted(s, 1)
  {
    var s0 := Fresh();
    var s1 := Next(s0, NewRow(2, true));
    var states, steps := OneMore([s0], [], s0, NewRow(2, true));
    states, steps := PolledAll(states, steps, s1, 2);
    var s2 := states[|states| - 1];
    states, steps := OneMore(states, steps, s2, NewRow(1, true));
  }

  /** Or is read after all, by a poll that began before the bookmark moved. */
  lemma LateRowIsRead()
    ensures exists states, steps, s :: EndsIn(states, steps, s) && 1 in s.history && s.seed < 1 <= s.mark &&
              1 in s.late && Accounted(s, 1)
  {
    var s0 := Fresh();
    var s1 := Next(s0, NewRow(2, true));
    var s2 := Next(s1, PollBegin(1));
    var states, steps := OneMore([s0], [], s0, NewRow(2, true));
    states, steps := OneMore(states, steps, s1, PollBegin(1));
    states, steps := PolledAll(states, steps, s2, 2);
    var s3 := states[|states| - 1];
    states, steps := OneMore(states, steps, s3, NewRow(1, true));
    var s4 := Next(s3, NewRow(1, true));
    states, steps := ReadAll(states, steps, s4, 1);
  }

  /** The bookmark only ever rises, crash or not. */
  lemma {:induction false} MarkNeverFalls(states: seq<State>, steps: seq<Step>, m: nat, n: nat)
    requires IsRun(states, steps) && m <= n < |states|
    ensures states[m].mark <= states[n].mark
    decreases n - m
  {
    if m < n {
      MarkNeverFalls(states, steps, m, n - 1);
      assert states[n] == Next(states[n - 1], steps[n - 1]);
    }
  }
}
