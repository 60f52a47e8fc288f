/** Applying commands on the worker: the ordered gates, the conflict check, and at-most-once. */
module Commands {
  import opened Wrappers
  import opened OutboxStore

  const MAX_COMMAND_AGE_MS := 15 * 60 * 1000
  const MAX_COMMAND_CLOCK_SKEW_MS := 60 * 1000

  datatype Payload =
    | ToggleJob(jobUuid: string, enabled: bool, baseDefinitionHash: string)
    | RunJob(jobUuid: string, stepName: string)
    | StopJob(jobUuid: string)
    | UpsertJob(jobUuid: string, canonicalJson: string, baseDefinitionHash: string, allowOverwrite: bool)
    | DeleteJob(jobUuid: string, baseDefinitionHash: string)
    | UpsertSchedule(canonicalJson: string)
    | DeleteSchedule(scheduleName: string)
    | UpsertOperator(canonicalJson: string)
    | DeleteOperator(operatorId: string)
    | SetJobWriteAllowed(jobName: string, allowed: bool)

  datatype Capability = OBSERVE | JOB_TOGGLE | JOB_RUN | SCHEDULE_WRITE | JOB_WRITE | OPERATOR_WRITE

  /** `COMMAND_CAPABILITY`, total over the payloads this worker models. */
  function RequiredCapability(p: Payload): Capability {
    match p
    case ToggleJob(_, _, _) => JOB_TOGGLE
    case RunJob(_, _) => JOB_RUN
    case StopJob(_) => JOB_RUN
    case UpsertJob(_, _, _, _) => JOB_WRITE
    case DeleteJob(_, _) => JOB_WRITE
    case UpsertSchedule(_) => SCHEDULE_WRITE
    case DeleteSchedule(_) => SCHEDULE_WRITE
    case UpsertOperator(_) => OPERATOR_WRITE
    case DeleteOperator(_) => OPERATOR_WRITE
    case SetJobWriteAllowed(_, _) => JOB_WRITE
  }

  datatype Command = Command(
    id: string,
    issuedAt: Option<int>,
    instanceName: string,
    signature: string,
    payload: Option<Payload>)

  datatype Outcome = Outcome(success: bool, errorCode: string)

  /** What SQL Server does with a procedure call; `SqlApplyError` may leave partial changes. */
  datatype SqlResult<Db> = Done(db: Db) | SqlError(db: Db)

  /** The systems the handler calls: signature check, msdb reads, parsers, procedures. */
  datatype Host<!Db> = Host(
    verify: (Command, string) -> bool,
    liveHash: (Db, string) -> Option<string>,
    isJob: string -> bool,
    isSchedule: string -> bool,
    isOperator: string -> bool,
    execute: (Db, Payload) -> SqlResult<Db>)

  function IsCommandFresh(issuedAt: int, now: int): bool {
    var age := now - issuedAt;
    age <= MAX_COMMAND_AGE_MS && age >= -MAX_COMMAND_CLOCK_SKEW_MS
  }

  // ---- the gates -----------------------------------------------------------

  datatype Context<!Db> = Context(host: Host<Db>, signingKey: string, capabilities: set<Capability>)

  datatype Gate = Refused(code: string) | Replayed(outcome: Outcome) | Admitted

  /** The recorded outcome as a redelivery reports it. */
  function Replay(record: AppliedCommand): Outcome {
    Outcome(record.success,
            if record.success then "" else if record.result.Some? then record.result.value else "Unknown")
  }

  /** Gates 1 to 4, in order. */
  function Gates<Db>(ctx: Context<Db>, cmd: Command, now: int, applied: map<string, AppliedCommand>): Gate {
    if ctx.signingKey == "" then Refused("NoSigningKey")
    else if !ctx.host.verify(cmd, ctx.signingKey) then Refused("BadSignature")
    else if cmd.issuedAt.None? || !IsCommandFresh(cmd.issuedAt.value, now) then Refused("Stale")
    else if cmd.payload.None? then Refused("UnknownCommand")
    else if RequiredCapability(cmd.payload.value) !in ctx.capabilities then Refused("CapabilityDenied")
    else if cmd.id in applied then Replayed(Replay(applied[cmd.id]))
    else Admitted
  }

  /** Gate 5: does live state still match what the operator edited? */
  function CheckConflict<Db>(host: Host<Db>, db: Db, jobUuid: string, baseHash: string, allowOverwrite: bool): bool {
    if baseHash == "" then false
    else
      match host.liveHash(db, jobUuid)
      case None => true
      case Some(hash) => if allowOverwrite then false else hash != baseHash
  }

  /** A payload the handler turns down itself, before any procedure runs. */
  function Declined<Db>(host: Host<Db>, db: Db, p: Payload): Option<string> {
    match p
    case ToggleJob(uuid, _, base) => if CheckConflict(host, db, uuid, base, false) then Some("Conflict") else None
    case UpsertJob(uuid, json, base, overwrite) =>
      if !host.isJob(json) then Some("Invalid")
      else if uuid != "" && CheckConflict(host, db, uuid, base, overwrite) then Some("Conflict")
      else None
    case DeleteJob(uuid, base) => if CheckConflict(host, db, uuid, base, false) then Some("Conflict") else None
    case UpsertSchedule(json) => if host.isSchedule(json) then None else Some("Invalid")
    case UpsertOperator(json) => if host.isOperator(json) then None else Some("Invalid")
    case DeleteOperator(_) => Some("Unsupported")
    case _ => None
  }

  /** `apply`, with a thrown `SqlApplyError` already turned into its outcome. */
  function ApplyPayload<Db>(host: Host<Db>, db: Db, p: Payload): (Db, Outcome) {
    match Declined(host, db, p)
    case Some(code) => (db, Outcome(false, code))
    case None =>
      match host.execute(db, p)
      case Done(after) => (after, Outcome(true, ""))
      case SqlError(after) => (after, Outcome(false, "SqlError"))
  }

  function RecordOf(now: int, outcome: Outcome): AppliedCommand {
    AppliedCommand(now, outcome.success, if outcome.errorCode == "" then None else Some(outcome.errorCode))
  }

  // ---- the handler ---------------------------------------------------------

  class Msdb<Db> {
    var db: Db

    constructor (db: Db)
      ensures this.db == db
    {
      this.db := db;
    }
  }

  /** `checkConflict`, with its early returns: true means the command is refused. */
  method ConflictCheck<Db>(host: Host<Db>, msdb: Msdb<Db>, jobUuid: string, baseHash: string, allowOverwrite: bool)
    returns (conflict: bool)
    ensures conflict == CheckConflict(host, msdb.db, jobUuid, baseHash, allowOverwrite)
  {
    if baseHash == "" { return false; }
    var blob := host.liveHash(msdb.db, jobUuid);
    if blob.None? { return true; }
    if allowOverwrite { return false; }
    if blob.value != baseHash { return true; }
    return false;
  }

  method ApplyCommand<Db>(host: Host<Db>, msdb: Msdb<Db>, p: Payload) returns (outcome: Outcome)
    modifies msdb
    ensures (msdb.db, outcome) == ApplyPayload(host, old(msdb.db), p)
  {
    var declined: Option<string> := None;
    match p {
      case ToggleJob(uuid, _, base) =>
        var conflict := ConflictCheck(host, msdb, uuid, base, false);
        if conflict { return Outcome(false, "Conflict"); }
      case UpsertJob(uuid, json, base, overwrite) =>
        if !host.isJob(json) { return Outcome(false, "Invalid"); }
        if uuid != "" {
          var conflict := ConflictCheck(host, msdb, uuid, base, overwrite);
          if conflict { return Outcome(false, "Conflict"); }
        }
      case DeleteJob(uuid, base) =>
        var conflict := ConflictCheck(host, msdb, uuid, base, false);
        if conflict { return Outcome(false, "Conflict"); }
      case UpsertSchedule(json) => if !host.isSchedule(json) { return Outcome(false, "Invalid"); }
      case UpsertOperator(json) => if !host.isOperator(json) { return Outcome(false, "Invalid"); }
      case DeleteOperator(_) => return Outcome(false, "Unsupported");
      case _ =>
    }
    match host.execute(msdb.db, p) {
      case Done(after) =>
        msdb.db := after;
        outcome := Outcome(true, "");
      case SqlError(after) =>
        msdb.db := after;
        outcome := Outcome(false, "SqlError");
    }
  }

  /** `evaluateAndApply`: msdb and the record change only once every gate is passed. */
  method EvaluateAndApply<Db>(ctx: Context<Db>, cmd: Command, outbox: Outbox, msdb: Msdb<Db>, now: int, later: int)
    returns (outcome: Outcome)
    requires now <= later
    modifies msdb, outbox`applied
    ensures match Gates(ctx, cmd, now, old(outbox.applied))
      case Refused(code) =>
        outcome == Outcome(false, code) && msdb.db == old(msdb.db) && outbox.applied == old(outbox.applied)
      case Replayed(first) => outcome == first && msdb.db == old(msdb.db) && outbox.applied == old(outbox.applied)
      case Admitted =>
        && cmd.payload.Some?
        && (msdb.db, outcome) == ApplyPayload(ctx.host, old(msdb.db), cmd.payload.value)
        && outbox.applied == old(outbox.applied)[cmd.id := RecordOf(later, outcome)]
  {
    if ctx.signingKey == "" { return Outcome(false, "NoSigningKey"); }
    if !ctx.host.verify(cmd, ctx.signingKey) { return Outcome(false, "BadSignature"); }
    if cmd.issuedAt.None? || !IsCommandFresh(cmd.issuedAt.value, now) { return Outcome(false, "Stale"); }
    if cmd.payload.None? { return Outcome(false, "UnknownCommand"); }
    if RequiredCapability(cmd.payload.value) !in ctx.capabilities { return Outcome(false, "CapabilityDenied"); }
    var previous := outbox.Outcome(cmd.id);
    if previous.Some? {
      return Outcome(previous.value.success,
                     if previous.value.success then ""
                     else if previous.value.result.Some? then previous.value.result.value else "Unknown");
    }
    outcome := ApplyCommand(ctx.host, msdb, cmd.payload.value);
    var result := if outcome.errorCode == "" then None else Some(outcome.errorCode);
    outbox.RecordApplied(cmd.id, outcome.success, result, later);
  }

  /** A command is admitted exactly when every gate agrees. */
  lemma AdmittedExactly<Db>(ctx: Context<Db>, cmd: Command, now: int, applied: map<string, AppliedCommand>)
    ensures Gates(ctx, cmd, now, applied) == Admitted <==>
      && ctx.signingKey != "" && ctx.host.verify(cmd, ctx.signingKey)
      && cmd.issuedAt.Some? && -MAX_COMMAND_CLOCK_SKEW_MS <= now - cmd.issuedAt.value <= MAX_COMMAND_AGE_MS
      && cmd.payload.Some? && RequiredCapability(cmd.payload.value) in ctx.capabilities
      && cmd.id !in applied
  {}

  /** An edit conflicts unless it creates, or the job is there and unchanged or overwriting is allowed. */
  lemma ConflictExactly<Db>(host: Host<Db>, db: Db, jobUuid: string, baseHash: string, allowOverwrite: bool)
    ensures !CheckConflict(host, db, jobUuid, baseHash, allowOverwrite) <==>
      baseHash == "" ||
      (host.liveHash(db, jobUuid).Some? && (allowOverwrite || host.liveHash(db, jobUuid) == Some(baseHash)))
  {}

  /** Success carries no code and failure always carries one, so the record replays the outcome exactly. */
  lemma RecordReplaysOutcome<Db>(host: Host<Db>, db: Db, p: Payload, now: int)
    ensures Replay(RecordOf(now, ApplyPayload(host, db, p).1)) == ApplyPayload(host, db, p).1
  {}

  // ---- any run -------------------------------------------------------------

  /** A command between `apply` and the idempotency record. */
  datatype Pending = Pending(cmd: Command, startedAt: int, outcome: Outcome)

  /** A command whose handler returned from the apply stage. */
  datatype Returned = Returned(id: string, issuedAt: int, outcome: Outcome)

  datatype Worker<Db> = Worker(
    now: int,
    db: Db,
    applied: map<string, AppliedCommand>,
    lastPruneAt: int,
    pending: Option<Pending>,
    returned: seq<Returned>)

  datatype Step<!Db> =
    | Tick(elapsed: nat)
    | Deliver(cmd: Command, ctx: Context<Db>)
    | Finish
    | Prune
    | MsdbChanges(db: Db)
    | Crash

  /** Commands are handled one at a time; everything else may happen in between. */
  ghost predicate Enabled<Db(!new)>(w: Worker<Db>, step: Step<Db>) {
    match step
    case Deliver(_, _) => w.pending.None?
    case Finish => w.pending.Some?
    case _ => true
  }

  /** Does this delivery reach `apply`? */
  ghost predicate ReachesApply<Db(!new)>(w: Worker<Db>, step: Step<Db>) {
    step.Deliver? && Gates(step.ctx, step.cmd, w.now, w.applied) == Admitted
  }

  ghost function Next<Db(!new)>(w: Worker<Db>, step: Step<Db>): Worker<Db>
    requires Enabled(w, step)
  {
    match step
    case Tick(elapsed) => w.(now := w.now + elapsed)
    case Deliver(cmd, ctx) =>
      if !ReachesApply(w, step) then w
      else
        var (db, outcome) := ApplyPayload(ctx.host, w.db, cmd.payload.value);
        w.(db := db, pending := Some(Pending(cmd, w.now, outcome)))
    case Finish =>
      var p := w.pending.value;
      w.(applied := Recorded(w.applied, p.cmd.id, RecordOf(w.now, p.outcome)), pending := None,
         returned := w.returned + [Returned(p.cmd.id, p.cmd.issuedAt.GetOr(0), p.outcome)])
    case Prune =>
      if w.now - w.lastPruneAt < APPLIED_COMMAND_PRUNE_INTERVAL_MS then w
      else w.(applied := Unexpired(w.applied, w.now - APPLIED_COMMAND_RETENTION_MS), lastPruneAt := w.now)
    case MsdbChanges(db) => w.(db := db)
    case Crash => w.(pending := None, lastPruneAt := 0)
  }

  /** The replay window of the command has closed for good. */
  ghost predicate Expired(now: int, r: Returned) {
    now - r.issuedAt > MAX_COMMAND_AGE_MS
  }

  /** A returned command is on record with its outcome, or too old to pass the freshness gate. */
  ghost predicate Remembered<Db>(w: Worker<Db>, r: Returned) {
    Expired(w.now, r) ||
    (r.id in w.applied && Replay(w.applied[r.id]) == r.outcome &&
     w.applied[r.id].appliedAt >= r.issuedAt - MAX_COMMAND_CLOCK_SKEW_MS)
  }

  ghost predicate Invariant<Db>(w: Worker<Db>) {
    && (forall r :: r in w.returned ==> Remembered(w, r))
    && (w.pending.Some? ==>
          var p := w.pending.value;
          && p.cmd.id !in w.applied && p.cmd.issuedAt.Some?
          && p.cmd.issuedAt.value - MAX_COMMAND_CLOCK_SKEW_MS <= p.startedAt <= w.now
          && Replay(RecordOf(0, p.outcome)) == p.outcome)
  }

  lemma FinishKeepsInvariant<Db(!new)>(w: Worker<Db>)
    requires Invariant(w) && w.pending.Some?
    ensures Invariant(Next(w, Finish))
  {
    var t, p := Next(w, Finish), w.pending.value;
    forall r | r in t.returned ensures Remembered(t, r) {
      if r in w.returned { assert Remembered(w, r); }
    }
  }

  /** A record is only pruned after its command's replay window has closed. */
  lemma PruneKeepsInvariant<Db(!new)>(w: Worker<Db>)
    requires Invariant(w)
    ensures Invariant(Next(w, Prune))
  {
    var t := Next(w, Prune);
    forall r | r in t.returned ensures Remembered(t, r) {
      assert Remembered(w, r);
    }
  }

  lemma StepKeepsInvariant<Db(!new)>(w: Worker<Db>, step: Step<Db>)
    requires Invariant(w) && Enabled(w, step)
    ensures Invariant(Next(w, step))
  {
    match step {
      case Finish => FinishKeepsInvariant(w);
      case Prune => PruneKeepsInvariant(w);
      case Deliver(cmd, ctx) =>
        if ReachesApply(w, step) { RecordReplaysOutcome(ctx.host, w.db, cmd.payload.value, 0); }
        forall r | r in w.returned ensures Remembered(Next(w, step), r) { assert Remembered(w, r); }
      case _ =>
        forall r | r in w.returned ensures Remembered(Next(w, step), r) { assert Remembered(w, r); }
    }
  }

  ghost predicate IsRun<Db(!new)>(states: seq<Worker<Db>>, steps: seq<Step<Db>>) {
    && |states| == |steps| + 1 && states[0].pending.None? && states[0].returned == []
    && forall i :: 0 <= i < |steps| ==> Enabled(states[i], steps[i]) && states[i + 1] == Next(states[i], steps[i])
  }

  lemma {:induction false} RunKeepsInvariant<Db(!new)>(states: seq<Worker<Db>>, steps: seq<Step<Db>>, n: nat)
    requires IsRun(states, steps) && n < |states|
    ensures Invariant(states[n])
  {
    if n > 0 {
      RunKeepsInvariant(states, steps, n - 1);
      StepKeepsInvariant(states[n - 1], steps[n - 1]);
    }
  }

  lemma {:induction false} ReturnedStays<Db(!new)>(states: seq<Worker<Db>>, steps: seq<Step<Db>>, m: nat, n: nat,
                                                   r: Returned)
    requires IsRun(states, steps) && m <= n < |states| && r in states[m].returned
    ensures r in states[n].returned
    decreases n - m
  {
    if m < n {
      ReturnedStays(states, steps, m, n - 1, r);
      assert states[n] == Next(states[n - 1], steps[n - 1]);
    }
  }

  /**
   * Once the handler has returned from the apply stage for a command, no later
   * delivery of it reaches `apply`, however often records are pruned and the
   * worker restarts; one that passes gates 1 to 3 replays the first outcome.
   */
  lemma AppliedAtMostOnce<Db(!new)>(states: seq<Worker<Db>>, steps: seq<Step<Db>>, m: nat, n: nat, r: Returned)
    requires IsRun(states, steps) && m <= n < |steps| && r in states[m].returned
    requires steps[n].Deliver? && steps[n].cmd.id == r.id && steps[n].cmd.issuedAt == Some(r.issuedAt)
    ensures !ReachesApply(states[n], steps[n])
    ensures var gate := Gates(steps[n].ctx, steps[n].cmd, states[n].now, states[n].applied);
      gate.Refused? || gate == Replayed(r.outcome)
  {
    RunKeepsInvariant(states, steps, n);
    ReturnedStays(states, steps, m, n, r);
    assert Remembered(states[n], r);
  }

  /** Counting: a command with one issue time returns from the apply stage at most once in a run. */
  lemma ReturnsOnce<Db(!new)>(states: seq<Worker<Db>>, steps: seq<Step<Db>>, n: nat, i: nat, j: nat)
    requires IsRun(states, steps) && n < |states| && i < j < |states[n].returned|
    ensures states[n].returned[i].id != states[n].returned[j].id ||
            states[n].returned[i].issuedAt != states[n].returned[j].issuedAt
  {
    ReturnedApart(states, steps, n);
  }

  /** No two returned commands agree on id and issue time, and none agrees with the one in flight. */
  ghost predicate Apart<Db>(w: Worker<Db>) {
    && (forall i, j :: 0 <= i < j < |w.returned| ==>
          w.returned[i].id != w.returned[j].id || w.returned[i].issuedAt != w.returned[j].issuedAt)
    && (w.pending.Some? ==> forall i :: 0 <= i < |w.returned| ==>
          w.returned[i].id != w.pending.value.cmd.id || Some(w.returned[i].issuedAt) != w.pending.value.cmd.issuedAt)
  }

  lemma {:induction false} ReturnedApart<Db(!new)>(states: seq<Worker<Db>>, steps: seq<Step<Db>>, n: nat)
    requires IsRun(states, steps) && n < |states|
    ensures Apart(states[n])
  {
    if n > 0 {
      var w, step := states[n - 1], steps[n - 1];
      ReturnedApart(states, steps, n - 1);
      RunKeepsInvariant(states, steps, n - 1);
      if ReachesApply(w, step) {
        forall i | 0 <= i < |w.returned|
          ensures w.returned[i].id != step.cmd.id || Some(w.returned[i].issuedAt) != step.cmd.issuedAt
        {
          assert Remembered(w, w.returned[i]);
        }
      }
      assert states[n] == Next(w, step);
    }
  }
}
