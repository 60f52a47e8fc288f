/**
 * The step edits as functions of the job definition.
 *
 * SQL Agent names steps by position, so each edit resolves the positional
 * jumps, rearranges the list, and writes positions back.
 */
module JobEdit {
  import opened Wrappers
  import opened JobModel
  import opened Utf16
  import opened JobFlow
  import Decimal

  /** What the operator is told, by kind; the sentences themselves are not modelled. */
  datatype Warning =
    | InsertPointUnknown(requested: int)
    | LastStepNotRemoved
    | SuccessTargetGone(stepId: int)
    | FailTargetGone(stepId: int)
    | NowLastOnSuccess(stepId: int)
    | NowLastOnFail(stepId: int)
    | NoLongerLast(stepId: int)
    | StartStepRemoved
    | OnlyStepNotDisabled
    | ExplicitBranchRepointed(name: Text, onSuccess: bool)
    | NothingLeftToRun
    | StartStepMoved(bypass: int)

  datatype EditResult = EditResult(definition: JobDefinition, warnings: seq<Warning>)

  // ---- the graph -----------------------------------------------------------

  /**
   * The value of a graph node. `key` stands for the object's identity: a step's
   * index in the ordered list, or any other number for a new node.
   */
  datatype Vertex = Vertex(
    key: nat,
    step: JobStep,
    onSuccessTarget: Option<nat>,
    onFailTarget: Option<nat>,
    wasLast: bool)

  function FirstIndex(steps: seq<JobStep>, id: int): (r: Option<nat>)
    ensures r.Some? ==> r.value < |steps| && steps[r.value].stepId == id
                        && forall i :: 0 <= i < r.value ==> steps[i].stepId != id
    ensures r.None? ==> forall i :: 0 <= i < |steps| ==> steps[i].stepId != id
  {
    if steps == [] then None
    else if steps[0].stepId == id then Some(0)
    else
      match FirstIndex(steps[1..], id)
      case None =>
        assert forall i :: 0 < i < |steps| ==> steps[i] == steps[1..][i - 1];
        None
      case Some(k) =>
        assert forall i :: 0 < i < |steps| ==> steps[i] == steps[1..][i - 1];
        Some(k + 1)
  }

  function LastIndex(steps: seq<JobStep>, id: int): (r: Option<nat>)
    ensures r.Some? ==> r.value < |steps| && steps[r.value].stepId == id
                        && forall i :: r.value < i < |steps| ==> steps[i].stepId != id
    ensures r.None? ==> forall i :: 0 <= i < |steps| ==> steps[i].stepId != id
  {
    if steps == [] then None
    else if steps[|steps| - 1].stepId == id then Some(|steps| - 1)
    else LastIndex(steps[..|steps| - 1], id)
  }

  function ResolveJump(ordered: seq<JobStep>, step: JobStep, onSuccess: bool): Option<nat> {
    if step.Action(onSuccess) == GO_TO_STEP then LastIndex(ordered, step.Target(onSuccess)) else None
  }

  function VertexAt(o: seq<JobStep>, i: nat): Vertex
    requires i < |o|
  {
    Vertex(i, o[i], ResolveJump(o, o[i], true), ResolveJump(o, o[i], false), i == |o| - 1)
  }

  /** `toNodes`: positional jumps resolved to the nodes they mean. */
  function ToVertices(def: JobDefinition): (r: seq<Vertex>)
    ensures |r| == |Ordered(def.steps)|
    ensures forall i :: 0 <= i < |r| ==> r[i] == VertexAt(Ordered(def.steps), i)
  {
    var o := Ordered(def.steps);
    seq(|o|, i requires 0 <= i < |o| => VertexAt(o, i))
  }

  function StepsOf(nodes: seq<Vertex>): (r: seq<JobStep>)
    ensures |r| == |nodes| && forall i :: 0 <= i < |r| ==> r[i] == nodes[i].step
  {
    seq(|nodes|, i requires 0 <= i < |nodes| => nodes[i].step)
  }

  /** `positionOf`, for a target that may be null or gone. */
  function PositionOf(nodes: seq<Vertex>, target: Option<nat>): (r: Option<nat>)
    ensures r.Some? ==> r.value < |nodes| && target == Some(nodes[r.value].key)
    ensures r.None? && target.Some? ==> forall i :: 0 <= i < |nodes| ==> nodes[i].key != target.value
  {
    if nodes == [] then None
    else if target == Some(nodes[|nodes| - 1].key) then Some(|nodes| - 1)
    else PositionOf(nodes[..|nodes| - 1], target)
  }

  // ---- rebuild -------------------------------------------------------------

  function RepairSuccess(nodes: seq<Vertex>, index: nat, step: JobStep): JobStep
    requires index < |nodes|
  {
    if step.onSuccessAction != GO_TO_STEP then step.(onSuccessStepId := 0)
    else
      match PositionOf(nodes, nodes[index].onSuccessTarget)
      case Some(p) => step.(onSuccessStepId := p + 1)
      case None =>
        step.(onSuccessAction := if index < |nodes| - 1 then GO_TO_NEXT_STEP else QUIT_WITH_SUCCESS,
              onSuccessStepId := 0)
  }

  function RepairFail(nodes: seq<Vertex>, index: nat, step: JobStep): JobStep
    requires index < |nodes|
  {
    if step.onFailAction != GO_TO_STEP then step.(onFailStepId := 0)
    else
      match PositionOf(nodes, nodes[index].onFailTarget)
      case Some(p) => step.(onFailStepId := p + 1)
      case None => step.(onFailAction := QUIT_WITH_FAILURE, onFailStepId := 0)
  }

  predicate EndsAutomatically(step: JobStep) {
    step.onSuccessAction == QUIT_WITH_SUCCESS && step.onFailAction == QUIT_WITH_FAILURE
  }

  function EndOfListDefaults(step: JobStep, isLast: bool, wasLast: bool): (JobStep, seq<Warning>) {
    if isLast && !wasLast then
      var (s1, w1) :=
        if step.onSuccessAction == GO_TO_NEXT_STEP
        then (step.(onSuccessAction := QUIT_WITH_SUCCESS, onSuccessStepId := 0), [NowLastOnSuccess(step.stepId)])
        else (step, []);
      if s1.onFailAction == GO_TO_NEXT_STEP
      then (s1.(onFailAction := QUIT_WITH_FAILURE, onFailStepId := 0), w1 + [NowLastOnFail(step.stepId)])
      else (s1, w1)
    else if wasLast && !isLast && EndsAutomatically(step) then
      (step.(onSuccessAction := GO_TO_NEXT_STEP, onSuccessStepId := 0), [NoLongerLast(step.stepId)])
    else (step, [])
  }

  function RebuildStep(nodes: seq<Vertex>, index: nat): (JobStep, seq<Warning>)
    requires index < |nodes|
  {
    var node := nodes[index];
    var s0 := node.step.(stepId := index + 1);
    var s1 := RepairSuccess(nodes, index, s0);
    var w1 := if s0.onSuccessAction == GO_TO_STEP && PositionOf(nodes, node.onSuccessTarget).None?
              then [SuccessTargetGone(index + 1)] else [];
    var s2 := RepairFail(nodes, index, s1);
    var w2 := if s1.onFailAction == GO_TO_STEP && PositionOf(nodes, node.onFailTarget).None?
              then [FailTargetGone(index + 1)] else [];
    var (s3, w3) := EndOfListDefaults(s2, index == |nodes| - 1, node.wasLast);
    (s3, w1 + w2 + w3)
  }

  function RebuildWarnings(nodes: seq<Vertex>, upTo: nat): seq<Warning>
    requires upTo <= |nodes|
  {
    if upTo == 0 then [] else RebuildWarnings(nodes, upTo - 1) + RebuildStep(nodes, upTo - 1).1
  }

  function RebuildUpTo(nodes: seq<Vertex>, upTo: nat): (r: seq<JobStep>)
    requires upTo <= |nodes|
    ensures |r| == upTo
    ensures forall i {:trigger RebuildStep(nodes, i)} :: 0 <= i < upTo ==> r[i] == RebuildStep(nodes, i).0
  {
    if upTo == 0 then [] else RebuildUpTo(nodes, upTo - 1) + [RebuildStep(nodes, upTo - 1).0]
  }

  /** `rebuild`: renumber by position, write the jumps back, follow the start step. */
  function Rebuild(def: JobDefinition, nodes: seq<Vertex>, removed: seq<Vertex>): EditResult {
    var removedStart := FirstIndex(StepsOf(removed), def.startStepId).Some?;
    var start := FirstIndex(StepsOf(nodes), def.startStepId);
    EditResult(
      def.(steps := RebuildUpTo(nodes, |nodes|),
           startStepId := if removedStart || start.None? then 1 else start.value + 1),
      RebuildWarnings(nodes, |nodes|) + if removedStart then [StartStepRemoved] else [])
  }

  // ---- new steps -----------------------------------------------------------

  function NewStepTemplate(name: Text): JobStep {
    JobStep(
      1, name, Units("TSQL"), [], Some(Units("master")), None, GO_TO_NEXT_STEP, 0, QUIT_WITH_FAILURE, 0, 0, 0, None, 0,
      None)
  }

  /** `Partial<JobStep>`: a field that is `None` is not in the patch. */
  datatype StepPatch = StepPatch(
    stepId: Option<int> := None,
    name: Option<Text> := None,
    subsystem: Option<Text> := None,
    command: Option<Text> := None,
    databaseName: Option<Option<Text>> := None,
    databaseUserName: Option<Option<Text>> := None,
    onSuccessAction: Option<int> := None,
    onSuccessStepId: Option<int> := None,
    onFailAction: Option<int> := None,
    onFailStepId: Option<int> := None,
    retryAttempts: Option<int> := None,
    retryIntervalMinutes: Option<int> := None,
    outputFileName: Option<Option<Text>> := None,
    flags: Option<int> := None,
    proxyName: Option<Option<Text>> := None)

  function Or<T>(patched: Option<T>, current: T): T {
    if patched.Some? then patched.value else current
  }

  /** `{ ...step, ...patch }`. */
  function Patched(s: JobStep, p: StepPatch): JobStep {
    JobStep(
      Or(p.stepId, s.stepId), Or(p.name, s.name), Or(p.subsystem, s.subsystem), Or(p.command, s.command),
      Or(p.databaseName, s.databaseName), Or(p.databaseUserName, s.databaseUserName),
      Or(p.onSuccessAction, s.onSuccessAction), Or(p.onSuccessStepId, s.onSuccessStepId),
      Or(p.onFailAction, s.onFailAction), Or(p.onFailStepId, s.onFailStepId),
      Or(p.retryAttempts, s.retryAttempts), Or(p.retryIntervalMinutes, s.retryIntervalMinutes),
      Or(p.outputFileName, s.outputFileName), Or(p.flags, s.flags), Or(p.proxyName, s.proxyName))
  }

  function StepName(n: nat): Text {
    Units("Step " + Decimal.NatToString(n))
  }

  ghost predicate IsStepNameFrom(name: Text, n: nat) {
    exists k: nat :: k >= n && name == StepName(k)
  }

  lemma StepNamesDiffer(m: nat, n: nat)
    requires StepName(m) == StepName(n)
    ensures m == n
  {
    var s, t := "Step " + Decimal.NatToString(m), "Step " + Decimal.NatToString(n);
    UnitsInjective(s, t);
    assert s[5..] == Decimal.NatToString(m) && t[5..] == Decimal.NatToString(n);
    Decimal.NatToStringInjective(m, n);
  }

  function Names(steps: seq<JobStep>): (r: set<Text>)
    ensures forall i :: 0 <= i < |steps| ==> steps[i].name in r
    ensures forall x :: x in r ==> exists i :: 0 <= i < |steps| && steps[i].name == x
  {
    set i | 0 <= i < |steps| :: steps[i].name
  }

  ghost function StepNamesFrom(taken: set<Text>, n: nat): set<Text> {
    set name | name in taken && IsStepNameFrom(name, n)
  }

  lemma FewerStepNames(taken: set<Text>, n: nat)
    requires StepName(n) in taken
    ensures StepNamesFrom(taken, n + 1) < StepNamesFrom(taken, n)
  {
    assert IsStepNameFrom(StepName(n), n);
    if IsStepNameFrom(StepName(n), n + 1) {
      var k: nat :| k >= n + 1 && StepName(n) == StepName(k);
      StepNamesDiffer(n, k);
    }
    assert StepName(n) in StepNamesFrom(taken, n);
    forall name | IsStepNameFrom(name, n + 1) ensures IsStepNameFrom(name, n) {
      var k: nat :| k >= n + 1 && name == StepName(k);
    }
  }

  /** The first "Step k" from `n` on that is not taken. */
  function FreeStepName(taken: set<Text>, n: nat): (r: Text)
    ensures r !in taken
    ensures exists k: nat :: k >= n && r == StepName(k) && forall j: nat :: n <= j < k ==> StepName(j) in taken
    decreases StepNamesFrom(taken, n)
  {
    if StepName(n) !in taken then StepName(n)
    else
      FewerStepNames(taken, n);
      FreeStepName(taken, n + 1)
  }

  // ---- the edits -----------------------------------------------------------

  function AddIndex(def: JobDefinition, afterStepId: Option<int>): (r: nat)
    ensures r <= |Ordered(def.steps)|
  {
    var o := Ordered(def.steps);
    if afterStepId.None? || FirstIndex(o, afterStepId.value).None? then |o|
    else FirstIndex(o, afterStepId.value).value + 1
  }

  /** `addStep`, given the step it creates. */
  function AddStep(def: JobDefinition, afterStepId: Option<int>, created: JobStep): EditResult {
    var nodes := ToVertices(def);
    var at := AddIndex(def, afterStepId);
    var node := Vertex(|nodes|, created, None, None, false);
    var result := Rebuild(def, nodes[..at] + [node] + nodes[at..], []);
    var unknown := afterStepId.Some? && FirstIndex(Ordered(def.steps), afterStepId.value).None?;
    result.(warnings := (if unknown then [InsertPointUnknown(afterStepId.value)] else []) + result.warnings)
  }

  /** The step `addStep` creates from its options. */
  function CreatedStep(def: JobDefinition, patch: StepPatch): JobStep {
    Patched(NewStepTemplate(FreeStepName(Names(def.steps), |def.steps| + 1)), patch)
  }

  function RemoveStep(def: JobDefinition, stepId: int): EditResult {
    var nodes := ToVertices(def);
    match FirstIndex(Ordered(def.steps), stepId)
    case None => EditResult(def, [])
    case Some(index) =>
      if |nodes| == 1 then EditResult(def, [LastStepNotRemoved])
      else Rebuild(def, nodes[..index] + nodes[index + 1..], [nodes[index]])
  }

  function MoveStep(def: JobDefinition, stepId: int, up: bool): EditResult {
    var nodes := ToVertices(def);
    match FirstIndex(Ordered(def.steps), stepId)
    case None => EditResult(def, [])
    case Some(index) =>
      var target: int := if up then index - 1 else index + 1;
      if target < 0 || target >= |nodes| then EditResult(def, [])
      else Rebuild(def, nodes[index := nodes[target]][target := nodes[index]], [])
  }

  /** `Math.trunc`. */
  function Trunc(x: real): int {
    if x >= 0.0 then x.Floor else -((-x).Floor)
  }

  function Clamp(x: int, low: int, high: int): (r: int)
    ensures low <= high ==> low <= r <= high
  {
    if x < low then low else if x > high then high else x
  }

  /** The step at index `from`, lifted out and dropped at index `to`. */
  function Dropped(def: JobDefinition, from: nat, to: nat): EditResult
    requires from < |ToVertices(def)| && to < |ToVertices(def)|
  {
    if to == from then EditResult(def, []) else Rebuild(def, Shifted(ToVertices(def), from, to), [])
  }

  /** `from` and the clamped `to` of `reorderStep`. */
  function ReorderIndices(def: JobDefinition, stepId: int, toIndex: real): (r: Option<(nat, nat)>)
    ensures r.Some? ==> r.value.0 < |ToVertices(def)| && r.value.1 < |ToVertices(def)|
  {
    match FirstIndex(Ordered(def.steps), stepId)
    case None => None
    case Some(from) => Some((from, Clamp(Trunc(toIndex), 0, |ToVertices(def)| - 1)))
  }

  function ReorderStep(def: JobDefinition, stepId: int, toIndex: real): EditResult {
    match ReorderIndices(def, stepId, toIndex)
    case None => EditResult(def, [])
    case Some((from, to)) => Dropped(def, from, to)
  }

  /** The list with the element at `from` lifted out and dropped at `to`. */
  function Shifted<T>(s: seq<T>, from: nat, to: nat): (r: seq<T>)
    requires from < |s| && to < |s|
    ensures |r| == |s|
  {
    var rest := s[..from] + s[from + 1..];
    rest[..to] + [s[from]] + rest[to..]
  }

  // ---- disabling -----------------------------------------------------------

  predicate ArrivesAt(def: JobDefinition, s: JobStep, onSuccess: bool, id: int) {
    (s.Action(onSuccess) == GO_TO_STEP && s.Target(onSuccess) == id) ||
    (s.Action(onSuccess) == GO_TO_NEXT_STEP && NextStepAfter(def, s, onSuccess) == Some(id))
  }

  /** One branch of another step, routed past the disabled one if it led there. */
  function RouteBranch(def: JobDefinition, s: JobStep, step: JobStep, onSuccess: bool, id: int,
                       bypass: Option<int>): JobStep
  {
    if !ArrivesAt(def, s, onSuccess, id) then step
    else if bypass.None? then
      step.WithBranch(onSuccess, if onSuccess then QUIT_WITH_SUCCESS else QUIT_WITH_FAILURE, 0)
    else step.WithBranch(onSuccess, GO_TO_STEP, bypass.value)
  }

  function RouteStep(def: JobDefinition, s: JobStep, id: int, bypass: Option<int>): JobStep {
    if s.stepId == id then s
    else RouteBranch(def, s, RouteBranch(def, s, s, true, id, bypass), false, id, bypass)
  }

  function RouteWarnings(def: JobDefinition, s: JobStep, id: int): seq<Warning> {
    if s.stepId == id then []
    else
      (if s.onSuccessAction == GO_TO_STEP && s.onSuccessStepId == id
       then [ExplicitBranchRepointed(s.name, true)] else []) +
      (if s.onFailAction == GO_TO_STEP && s.onFailStepId == id
       then [ExplicitBranchRepointed(s.name, false)] else [])
  }

  function AllRouteWarnings(def: JobDefinition, id: int, upTo: nat): seq<Warning>
    requires upTo <= |def.steps|
  {
    if upTo == 0 then [] else AllRouteWarnings(def, id, upTo - 1) + RouteWarnings(def, def.steps[upTo - 1], id)
  }

  function Bypass(def: JobDefinition, id: int): Option<int> {
    match FindStep(def.steps, id)
    case None => None
    case Some(target) => NextStepAfter(def, target, true)
  }

  /** The guards `disableStep` passes before it changes anything. */
  predicate Disables(def: JobDefinition, id: int) {
    FindStep(def.steps, id).Some? && |def.steps| != 1 && !(def.startStepId == id && Bypass(def, id).None?)
  }

  function Routed(def: JobDefinition, id: int): (r: seq<JobStep>)
    ensures |r| == |def.steps|
    ensures forall i :: 0 <= i < |r| ==> r[i] == RouteStep(def, def.steps[i], id, Bypass(def, id))
  {
    seq(|def.steps|, i requires 0 <= i < |def.steps| => RouteStep(def, def.steps[i], id, Bypass(def, id)))
  }

  function DisableStep(def: JobDefinition, id: int): EditResult {
    if FindStep(def.steps, id).None? then EditResult(def, [])
    else if |def.steps| == 1 then EditResult(def, [OnlyStepNotDisabled])
    else
      var bypass := Bypass(def, id);
      var warnings := AllRouteWarnings(def, id, |def.steps|);
      if def.startStepId != id then EditResult(def.(steps := Routed(def, id)), warnings)
      else if bypass.None? then EditResult(def, [NothingLeftToRun])
      else EditResult(def.(steps := Routed(def, id), startStepId := bypass.value),
                      warnings + [StartStepMoved(bypass.value)])
  }

  // ---- enabling ------------------------------------------------------------

  /** One branch of the step above, put back to falling through if it jumps over the step. */
  function RestoreBranch(def: JobDefinition, s: JobStep, step: JobStep, onSuccess: bool, id: int,
                         bypass: Option<int>): JobStep
  {
    if NextStepAfter(def, s, onSuccess) == Some(id) then step
    else if (step.Action(onSuccess) == GO_TO_STEP && bypass == Some(step.Target(onSuccess))) ||
            (onSuccess && bypass.None? && step.onSuccessAction == QUIT_WITH_SUCCESS)
    then step.WithBranch(onSuccess, GO_TO_NEXT_STEP, 0)
    else step
  }

  function RestoreStep(def: JobDefinition, s: JobStep, id: int, previous: Option<int>, bypass: Option<int>): JobStep {
    if s.stepId != id then
      if previous != Some(s.stepId) then s
      else RestoreBranch(def, s, RestoreBranch(def, s, s, true, id, bypass), false, id, bypass)
    else if s.onSuccessAction == GO_TO_NEXT_STEP && bypass.None? then
      s.(onSuccessAction := QUIT_WITH_SUCCESS, onSuccessStepId := 0)
    else s
  }

  /** The step listed just above the one at `index`, if any. */
  function PreviousId(o: seq<JobStep>, index: nat): Option<int>
    requires index < |o|
  {
    if index > 0 then Some(o[index - 1].stepId) else None
  }

  function FollowingId(o: seq<JobStep>, index: nat): Option<int>
    requires index < |o|
  {
    if index + 1 < |o| then Some(o[index + 1].stepId) else None
  }

  /** `enableStep` past its guards. */
  function Restored(def: JobDefinition, id: int, index: nat): JobDefinition
    requires index < |Ordered(def.steps)|
  {
    var o := Ordered(def.steps);
    var previous, bypass := PreviousId(o, index), FollowingId(o, index);
    def.(steps := seq(|def.steps|, i requires 0 <= i < |def.steps| =>
           RestoreStep(def, def.steps[i], id, previous, bypass)),
         startStepId := if previous.Some? then def.startStepId else id)
  }

  ghost function EnableStep(def: JobDefinition, id: int): EditResult {
    match FirstIndex(Ordered(def.steps), id)
    case None => EditResult(def, [])
    case Some(index) =>
      if Reachable(def, id) then EditResult(def, []) else EditResult(Restored(def, id, index), [])
  }

  // ---- sequences of edits --------------------------------------------------

  datatype Edit =
    | Add(afterStepId: Option<int>, patch: StepPatch)
    | Remove(stepId: int)
    | Move(stepId: int, up: bool)
    | Reorder(stepId: int, toIndex: real)
    | Disable(stepId: int)
    | Enable(stepId: int)

  ghost function Apply(def: JobDefinition, edit: Edit): EditResult {
    match edit
    case Add(after, patch) => AddStep(def, after, CreatedStep(def, patch))
    case Remove(id) => RemoveStep(def, id)
    case Move(id, up) => MoveStep(def, id, up)
    case Reorder(id, toIndex) => ReorderStep(def, id, toIndex)
    case Disable(id) => DisableStep(def, id)
    case Enable(id) => EnableStep(def, id)
  }

  ghost function ApplyAll(def: JobDefinition, edits: seq<Edit>): JobDefinition {
    if edits == [] then def else Apply(ApplyAll(def, edits[..|edits| - 1]), edits[|edits| - 1]).definition
  }
}
