/**
 * The editor as it runs: a graph of node objects spliced and swapped in place,
 * step copies assigned field by field. Every method computes exactly the edit
 * of `JobEdit`.
 */
module JobEditor {
  import opened Wrappers
  import opened JobModel
  import opened Utf16
  import opened JobFlow
  import opened JobEdit

  class Node {
    var step: JobStep
    var onSuccessTarget: Node?
    var onFailTarget: Node?
    const wasLast: bool

    constructor (step: JobStep, wasLast: bool)
      ensures this.step == step && this.wasLast == wasLast
      ensures onSuccessTarget == null && onFailTarget == null
    {
      this.step := step;
      this.wasLast := wasLast;
      onSuccessTarget := null;
      onFailTarget := null;
    }
  }

  /** Numbers standing for object identity. */
  type Keys = map<Node, nat>

  ghost predicate Identifies(keys: Keys) {
    forall a, b :: a in keys && b in keys && keys[a] == keys[b] ==> a == b
  }

  ghost predicate TargetIs(target: Node?, keys: Keys, view: Option<nat>) {
    if target == null then view.None? else target in keys && view == Some(keys[target])
  }

  ghost predicate NodeIs(node: Node, keys: Keys, view: Vertex)
    reads node
  {
    && node in keys && view.key == keys[node]
    && view.step == node.step && view.wasLast == node.wasLast
    && TargetIs(node.onSuccessTarget, keys, view.onSuccessTarget)
    && TargetIs(node.onFailTarget, keys, view.onFailTarget)
  }

  /** The objects carry exactly the graph `views`. */
  ghost predicate Carries(nodes: seq<Node>, keys: Keys, views: seq<Vertex>)
    reads nodes
  {
    && Identifies(keys)
    && |nodes| == |views|
    && forall i :: 0 <= i < |nodes| ==> NodeIs(nodes[i], keys, views[i])
  }

  // ---- toNodes -------------------------------------------------------------

  method NewNodes(ordered: seq<JobStep>) returns (nodes: seq<Node>, ghost keys: Keys)
    ensures |nodes| == |ordered| && Identifies(keys)
    ensures forall i :: 0 <= i < |nodes| ==> fresh(nodes[i])
    ensures forall i :: 0 <= i < |nodes| ==> nodes[i] in keys && keys[nodes[i]] == i
    ensures forall i :: 0 <= i < |nodes| ==>
      nodes[i].step == ordered[i] && nodes[i].wasLast == (i == |ordered| - 1) &&
      nodes[i].onSuccessTarget == null && nodes[i].onFailTarget == null
    ensures forall n :: n in keys ==> n in nodes
  {
    nodes, keys := [], map[];
    for i := 0 to |ordered|
      invariant |nodes| == i && Identifies(keys)
      invariant forall k :: 0 <= k < i ==> fresh(nodes[k])
      invariant forall k :: 0 <= k < i ==> nodes[k] in keys && keys[nodes[k]] == k
      invariant forall k :: 0 <= k < i ==>
        nodes[k].step == ordered[k] && nodes[k].wasLast == (k == |ordered| - 1) &&
        nodes[k].onSuccessTarget == null && nodes[k].onFailTarget == null
      invariant forall n :: n in keys ==> n in nodes
    {
      var node := new Node(ordered[i], i == |ordered| - 1);
      nodes := nodes + [node];
      keys := keys[node := i];
    }
  }

  /** `new Map(nodes.map((n) => [n.step.stepId, n]))`. */
  method NodesById(nodes: seq<Node>, ordered: seq<JobStep>) returns (byStepId: map<int, Node>)
    requires |nodes| == |ordered| && forall i :: 0 <= i < |nodes| ==> nodes[i].step == ordered[i]
    ensures forall id :: id in byStepId <==> LastIndex(ordered, id).Some?
    ensures forall id :: id in byStepId ==> byStepId[id] == nodes[LastIndex(ordered, id).value]
  {
    byStepId := map[];
    for i := 0 to |nodes|
      invariant forall id :: id in byStepId <==> LastIndex(ordered[..i], id).Some?
      invariant forall id :: id in byStepId ==> byStepId[id] == nodes[LastIndex(ordered[..i], id).value]
    {
      assert ordered[..i + 1][..i] == ordered[..i];
      byStepId := byStepId[nodes[i].step.stepId := nodes[i]];
    }
    assert ordered[..|nodes|] == ordered;
  }

  method ResolveTargets(node: Node, byStepId: map<int, Node>, ghost ordered: seq<JobStep>, ghost i: nat,
                        ghost nodes: seq<Node>, ghost keys: Keys)
    requires i < |ordered| == |nodes| && node == nodes[i]
    requires node.step == ordered[i] && node.wasLast == (i == |ordered| - 1)
    requires node.onSuccessTarget == null && node.onFailTarget == null
    requires forall k :: 0 <= k < |nodes| ==> nodes[k] in keys && keys[nodes[k]] == k
    requires forall id :: id in byStepId <==> LastIndex(ordered, id).Some?
    requires forall id :: id in byStepId ==> byStepId[id] == nodes[LastIndex(ordered, id).value]
    modifies node
    ensures NodeIs(node, keys, VertexAt(ordered, i))
  {
    if node.step.onSuccessAction == GO_TO_STEP {
      var id := node.step.onSuccessStepId;
      node.onSuccessTarget := if id in byStepId then byStepId[id] else null;
    }
    if node.step.onFailAction == GO_TO_STEP {
      var id := node.step.onFailStepId;
      node.onFailTarget := if id in byStepId then byStepId[id] else null;
    }
  }

  method ToNodes(def: JobDefinition) returns (nodes: seq<Node>, ghost keys: Keys)
    ensures Carries(nodes, keys, ToVertices(def))
    ensures |nodes| == |Ordered(def.steps)|
    ensures forall n :: n in keys ==> n in nodes
    ensures forall n :: n in keys ==> keys[n] < |nodes|
  {
    hide NodeIs, VertexAt, LastIndex;
    var ordered := Ordered(def.steps);
    nodes, keys := NewNodes(ordered);
    var byStepId := NodesById(nodes, ordered);
    for i := 0 to |nodes|
      invariant forall k :: i <= k < |nodes| ==>
        nodes[k].step == ordered[k] && nodes[k].onSuccessTarget == null && nodes[k].onFailTarget == null
      invariant forall k :: 0 <= k < i ==> NodeIs(nodes[k], keys, VertexAt(ordered, k))
    {
      ResolveTargets(nodes[i], byStepId, ordered, i, nodes, keys);
    }
  }

  /** `nodes.findIndex((n) => n.step.stepId === id)`. */
  method FindIndex(nodes: seq<Node>, ghost keys: Keys, ghost views: seq<Vertex>, id: int) returns (index: int)
    requires Carries(nodes, keys, views)
    ensures -1 <= index < |nodes|
    ensures FirstIndex(StepsOf(views), id) == if index == -1 then None else Some(index)
  {
    index := 0;
    while index < |nodes|
      invariant 0 <= index <= |nodes|
      invariant forall k :: 0 <= k < index ==> views[k].step.stepId != id
    {
      assert NodeIs(nodes[index], keys, views[index]);
      if nodes[index].step.stepId == id { return; }
      index := index + 1;
    }
    index := -1;
  }

  // ---- rebuild -------------------------------------------------------------

  /** `positionOf`: each surviving node's new number; its keys are `surviving`. */
  ghost predicate PositionsOf(positionOf: map<Node, nat>, keys: Keys, views: seq<Vertex>) {
    forall n :: n in keys ==>
      && (n in positionOf <==> PositionOf(views, Some(keys[n])).Some?)
      && (n in positionOf ==> positionOf[n] == PositionOf(views, Some(keys[n])).value + 1)
  }

  method NumberNodes(nodes: seq<Node>, ghost keys: Keys, ghost views: seq<Vertex>)
    returns (positionOf: map<Node, nat>)
    requires Carries(nodes, keys, views)
    ensures PositionsOf(positionOf, keys, views)
  {
    positionOf := map[];
    for i := 0 to |nodes|
      invariant PositionsOf(positionOf, keys, views[..i])
    {
      assert views[..i + 1][..i] == views[..i];
      assert NodeIs(nodes[i], keys, views[i]);
      positionOf := positionOf[nodes[i] := i + 1];
    }
    assert views[..|nodes|] == views;
  }

  method ApplyEndOfListDefaults(given: JobStep, isLast: bool, wasLast: bool)
    returns (step: JobStep, warnings: seq<Warning>)
    ensures step == EndOfListDefaults(given, isLast, wasLast).0
    ensures warnings == EndOfListDefaults(given, isLast, wasLast).1
  {
    step, warnings := given, [];
    if isLast && !wasLast {
      if step.onSuccessAction == GO_TO_NEXT_STEP {
        step := step.(onSuccessAction := QUIT_WITH_SUCCESS, onSuccessStepId := 0);
        warnings := warnings + [NowLastOnSuccess(step.stepId)];
      }
      if step.onFailAction == GO_TO_NEXT_STEP {
        step := step.(onFailAction := QUIT_WITH_FAILURE, onFailStepId := 0);
        warnings := warnings + [NowLastOnFail(step.stepId)];
      }
    }
    if wasLast && !isLast {
      var wasAutomaticEnding := step.onSuccessAction == QUIT_WITH_SUCCESS && step.onFailAction == QUIT_WITH_FAILURE;
      if wasAutomaticEnding {
        step := step.(onSuccessAction := GO_TO_NEXT_STEP, onSuccessStepId := 0);
        warnings := warnings + [NoLongerLast(step.stepId)];
      }
    }
  }

  method RepairSuccessOf(node: Node, given: JobStep, last: bool, positionOf: map<Node, nat>, ghost keys: Keys,
                         ghost views: seq<Vertex>, ghost index: nat)
    returns (step: JobStep, warnings: seq<Warning>)
    requires index < |views| && NodeIs(node, keys, views[index]) && PositionsOf(positionOf, keys, views)
    requires last == (index == |views| - 1)
    ensures step == RepairSuccess(views, index, given)
    ensures warnings == if given.onSuccessAction == GO_TO_STEP && PositionOf(views, views[index].onSuccessTarget).None?
                        then [SuccessTargetGone(given.stepId)] else []
  {
    assert PositionOf(views, None).None?;
    step, warnings := given, [];
    if step.onSuccessAction == GO_TO_STEP {
      if node.onSuccessTarget != null && node.onSuccessTarget in positionOf {
        step := step.(onSuccessStepId := positionOf[node.onSuccessTarget]);
      } else {
        step := step.(onSuccessAction := if !last then GO_TO_NEXT_STEP else QUIT_WITH_SUCCESS, onSuccessStepId := 0);
        warnings := warnings + [SuccessTargetGone(step.stepId)];
      }
    } else {
      step := step.(onSuccessStepId := 0);
    }
  }

  method RepairFailOf(node: Node, given: JobStep, positionOf: map<Node, nat>, ghost keys: Keys,
                      ghost views: seq<Vertex>, ghost index: nat)
    returns (step: JobStep, warnings: seq<Warning>)
    requires index < |views| && NodeIs(node, keys, views[index]) && PositionsOf(positionOf, keys, views)
    ensures step == RepairFail(views, index, given)
    ensures warnings == if given.onFailAction == GO_TO_STEP && PositionOf(views, views[index].onFailTarget).None?
                        then [FailTargetGone(given.stepId)] else []
  {
    assert PositionOf(views, None).None?;
    step, warnings := given, [];
    if step.onFailAction == GO_TO_STEP {
      if node.onFailTarget != null && node.onFailTarget in positionOf {
        step := step.(onFailStepId := positionOf[node.onFailTarget]);
      } else {
        step := step.(onFailAction := QUIT_WITH_FAILURE, onFailStepId := 0);
        warnings := warnings + [FailTargetGone(step.stepId)];
      }
    } else {
      step := step.(onFailStepId := 0);
    }
  }

  method RebuildNode(nodes: seq<Node>, index: nat, positionOf: map<Node, nat>, ghost keys: Keys,
                     ghost views: seq<Vertex>)
    returns (step: JobStep, warnings: seq<Warning>)
    requires Carries(nodes, keys, views) && index < |nodes| && PositionsOf(positionOf, keys, views)
    ensures step == RebuildStep(views, index).0
    ensures warnings == RebuildStep(views, index).1
  {
    var node := nodes[index];
    assert NodeIs(node, keys, views[index]);
    var isLast := index == |nodes| - 1;
    var onSuccess, onFail, ending;
    step := node.step.(stepId := index + 1);
    step, onSuccess := RepairSuccessOf(node, step, isLast, positionOf, keys, views, index);
    step, onFail := RepairFailOf(node, step, positionOf, keys, views, index);
    step, ending := ApplyEndOfListDefaults(step, isLast, node.wasLast);
    warnings := onSuccess + onFail + ending;
  }

  method StartAfter(def: JobDefinition, nodes: seq<Node>, removed: seq<Node>, ghost keys: Keys,
                    ghost views: seq<Vertex>, ghost removedViews: seq<Vertex>)
    returns (startStepId: int, removedStart: bool)
    requires Carries(nodes, keys, views) && Carries(removed, keys, removedViews)
    ensures removedStart == FirstIndex(StepsOf(removedViews), def.startStepId).Some?
    ensures var start := FirstIndex(StepsOf(views), def.startStepId);
      startStepId == if removedStart || start.None? then 1 else start.value + 1
  {
    var start := FindIndex(nodes, keys, views, def.startStepId);
    var gone := FindIndex(removed, keys, removedViews, def.startStepId);
    removedStart := gone != -1;
    if removedStart || start == -1 {
      startStepId := 1;
    } else {
      startStepId := start + 1;
    }
  }

  method RebuildJob(def: JobDefinition, nodes: seq<Node>, removed: seq<Node>, ghost keys: Keys,
                    ghost views: seq<Vertex>, ghost removedViews: seq<Vertex>)
    returns (r: EditResult)
    requires Carries(nodes, keys, views) && Carries(removed, keys, removedViews)
    ensures r == Rebuild(def, views, removedViews)
  {
    assert |nodes| == |views|;
    hide Rebuild, RebuildStep, PositionOf, PositionsOf, Carries, FirstIndex, NodeIs, Identifies, StepsOf;
    var positionOf := NumberNodes(nodes, keys, views);
    var steps: seq<JobStep>, warnings: seq<Warning> := [], [];
    for index := 0 to |nodes|
      invariant steps == RebuildUpTo(views, index) && warnings == RebuildWarnings(views, index)
    {
      var step, more := RebuildNode(nodes, index, positionOf, keys, views);
      steps, warnings := steps + [step], warnings + more;
    }
    var startStepId, removedStart := StartAfter(def, nodes, removed, keys, views, removedViews);
    if removedStart { warnings := warnings + [StartStepRemoved]; }
    r := EditResult(def.(steps := steps, startStepId := startStepId), warnings);
    RebuiltAs(def, views, removedViews, startStepId, removedStart);
  }

  lemma {:induction false} RebuiltAs(def: JobDefinition, views: seq<Vertex>, removedViews: seq<Vertex>,
                                     startStepId: int, removedStart: bool)
    requires removedStart == FirstIndex(StepsOf(removedViews), def.startStepId).Some?
    requires var start := FirstIndex(StepsOf(views), def.startStepId);
      startStepId == if removedStart || start.None? then 1 else start.value + 1
    ensures Rebuild(def, views, removedViews).definition ==
            def.(steps := RebuildUpTo(views, |views|), startStepId := startStepId)
    ensures Rebuild(def, views, removedViews).warnings ==
            RebuildWarnings(views, |views|) + if removedStart then [StartStepRemoved] else []
  {}

  /** Part of a list carries that part of its graph; two lists side by side carry both. */
  lemma CarriesSlice(nodes: seq<Node>, keys: Keys, views: seq<Vertex>, i: nat, j: nat)
    requires Carries(nodes, keys, views) && i <= j <= |nodes|
    ensures Carries(nodes[i..j], keys, views[i..j])
  {
    forall k | 0 <= k < j - i ensures NodeIs(nodes[i..j][k], keys, views[i..j][k]) {
      assert NodeIs(nodes[i + k], keys, views[i + k]);
    }
  }

  lemma CarriesConcat(a: seq<Node>, b: seq<Node>, keys: Keys, va: seq<Vertex>, vb: seq<Vertex>)
    requires Carries(a, keys, va) && Carries(b, keys, vb)
    ensures Carries(a + b, keys, va + vb)
  {
    forall k | 0 <= k < |a + b| ensures NodeIs((a + b)[k], keys, (va + vb)[k]) {
      if k < |a| { assert NodeIs(a[k], keys, va[k]); } else { assert NodeIs(b[k - |a|], keys, vb[k - |a|]); }
    }
  }

  lemma CarriesOne(nodes: seq<Node>, keys: Keys, views: seq<Vertex>, i: nat)
    requires Carries(nodes, keys, views) && i < |nodes|
    ensures Carries([nodes[i]], keys, [views[i]])
  {
    assert NodeIs(nodes[i], keys, views[i]);
  }

  /** `splice(index, 1)`. */
  lemma CarriesRemoved(nodes: seq<Node>, keys: Keys, views: seq<Vertex>, i: nat)
    requires Carries(nodes, keys, views) && i < |nodes|
    ensures Carries(nodes[..i] + nodes[i + 1..], keys, views[..i] + views[i + 1..])
  {
    CarriesSlice(nodes, keys, views, 0, i);
    CarriesSlice(nodes, keys, views, i + 1, |nodes|);
    assert nodes[i + 1..|nodes|] == nodes[i + 1..] && views[i + 1..|views|] == views[i + 1..];
    assert nodes[0..i] == nodes[..i] && views[0..i] == views[..i];
    CarriesConcat(nodes[..i], nodes[i + 1..], keys, views[..i], views[i + 1..]);
  }

  /** `splice(index, 0, node)`. */
  lemma CarriesInserted(nodes: seq<Node>, keys: Keys, views: seq<Vertex>, i: nat, node: Node, view: Vertex)
    requires Carries(nodes, keys, views) && i <= |nodes| && NodeIs(node, keys, view)
    ensures Carries(nodes[..i] + [node] + nodes[i..], keys, views[..i] + [view] + views[i..])
  {
    CarriesSlice(nodes, keys, views, 0, i);
    CarriesSlice(nodes, keys, views, i, |nodes|);
    assert nodes[i..|nodes|] == nodes[i..] && views[i..|views|] == views[i..];
    assert nodes[0..i] == nodes[..i] && views[0..i] == views[..i];
    CarriesConcat(nodes[..i], [node], keys, views[..i], [view]);
    CarriesConcat(nodes[..i] + [node], nodes[i..], keys, views[..i] + [view], views[i..]);
  }

  /** A node the graph has never seen can be given a number of its own. */
  lemma CarriesWithNew(nodes: seq<Node>, keys: Keys, views: seq<Vertex>, node: Node, key: nat)
    requires Carries(nodes, keys, views) && node !in keys && forall n :: n in keys ==> keys[n] != key
    ensures Carries(nodes, keys[node := key], views)
  {
    forall k | 0 <= k < |nodes| ensures NodeIs(nodes[k], keys[node := key], views[k]) {
      assert NodeIs(nodes[k], keys, views[k]);
    }
  }

  // ---- the edits -----------------------------------------------------------

  method NextStepName(def: JobDefinition) returns (name: Text)
    ensures name == FreeStepName(Names(def.steps), |def.steps| + 1)
  {
    var taken := Names(def.steps);
    var n: nat := |def.steps| + 1;
    while StepName(n) in taken
      invariant FreeStepName(taken, n) == FreeStepName(taken, |def.steps| + 1)
      decreases StepNamesFrom(taken, n)
    {
      FewerStepNames(taken, n);
      n := n + 1;
    }
    name := StepName(n);
  }

  /** `toNodes` and the `findIndex` every edit starts with. */
  method FindNode(def: JobDefinition, stepId: int) returns (nodes: seq<Node>, index: int, ghost keys: Keys)
    ensures Carries(nodes, keys, ToVertices(def))
    ensures forall n :: n in keys ==> keys[n] < |nodes| && n in nodes
    ensures -1 <= index < |nodes|
    ensures FirstIndex(Ordered(def.steps), stepId) == if index == -1 then None else Some(index)
  {
    nodes, keys := ToNodes(def);
    index := FindIndex(nodes, keys, ToVertices(def), stepId);
    assert StepsOf(ToVertices(def)) == Ordered(def.steps);
  }

  /** `nodes.splice(at, 0, created)`, then `rebuild`. */
  method InsertNode(def: JobDefinition, nodes: seq<Node>, at: nat, created: Node, ghost keys: Keys)
    returns (r: EditResult)
    requires Carries(nodes, keys, ToVertices(def)) && at <= |nodes| && created !in keys
    requires forall n :: n in keys ==> keys[n] < |nodes|
    requires created.onSuccessTarget == null && created.onFailTarget == null && !created.wasLast
    ensures r == Rebuild(def, ToVertices(def)[..at] + [Vertex(|nodes|, created.step, None, None, false)]
                              + ToVertices(def)[at..], [])
  {
    ghost var views := ToVertices(def);
    ghost var view := Vertex(|nodes|, created.step, None, None, false);
    ghost var more := keys[created := |nodes|];
    CarriesWithNew(nodes, keys, views, created, |nodes|);
    CarriesInserted(nodes, more, views, at, created, view);
    r := RebuildJob(def, nodes[..at] + [created] + nodes[at..], [], more, views[..at] + [view] + views[at..], []);
  }

  method AddStepTo(def: JobDefinition, afterStepId: Option<int>, patch: StepPatch) returns (r: EditResult)
    ensures r == AddStep(def, afterStepId, CreatedStep(def, patch))
  {
    hide Rebuild, NodeIs, Identifies, FreeStepName, Units;
    var nodes, found, keys := FindNode(def, if afterStepId.Some? then afterStepId.value else 0);
    var name := NextStepName(def);
    var created := new Node(Patched(NewStepTemplate(name), patch), false);
    var afterIndex := if afterStepId.None? || found == -1 then |nodes| - 1 else found;
    var warnings := if afterStepId.Some? && found == -1 then [InsertPointUnknown(afterStepId.value)] else [];
    var result := InsertNode(def, nodes, afterIndex + 1, created, keys);
    r := EditResult(result.definition, warnings + result.warnings);
  }

  method RemoveStepFrom(def: JobDefinition, stepId: int) returns (r: EditResult)
    ensures r == RemoveStep(def, stepId)
  {
    var nodes, index, keys := FindNode(def, stepId);
    ghost var views := ToVertices(def);
    if index == -1 { return EditResult(def, []); }
    if |nodes| == 1 { return EditResult(def, [LastStepNotRemoved]); }
    var removed := nodes[index];
    CarriesOne(nodes, keys, views, index);
    CarriesRemoved(nodes, keys, views, index);
    nodes := nodes[..index] + nodes[index + 1..];
    r := RebuildJob(def, nodes, [removed], keys, views[..index] + views[index + 1..], [views[index]]);
  }

  lemma CarriesSwapped(nodes: seq<Node>, keys: Keys, views: seq<Vertex>, i: nat, j: nat)
    requires Carries(nodes, keys, views) && i < |nodes| && j < |nodes|
    ensures Carries(nodes[i := nodes[j]][j := nodes[i]], keys, views[i := views[j]][j := views[i]])
  {
    var swapped, swappedViews := nodes[i := nodes[j]][j := nodes[i]], views[i := views[j]][j := views[i]];
    assert NodeIs(nodes[i], keys, views[i]) && NodeIs(nodes[j], keys, views[j]);
    forall k | 0 <= k < |swapped| ensures NodeIs(swapped[k], keys, swappedViews[k]) {
      assert NodeIs(nodes[k], keys, views[k]);
    }
  }

  method MoveStepBy(def: JobDefinition, stepId: int, up: bool) returns (r: EditResult)
    ensures r == MoveStep(def, stepId, up)
  {
    hide Rebuild, NodeIs, Identifies;
    var nodes, index, keys := FindNode(def, stepId);
    ghost var views := ToVertices(def);
    var target := if up then index - 1 else index + 1;
    if index == -1 || target < 0 || target >= |nodes| { return EditResult(def, []); }
    CarriesSwapped(nodes, keys, views, index, target);
    var moved := nodes[index];
    nodes := nodes[index := nodes[target]];
    nodes := nodes[target := moved];
    r := RebuildJob(def, nodes, [], keys, views[index := views[target]][target := views[index]], []);
  }

  lemma CarriesShifted(nodes: seq<Node>, keys: Keys, views: seq<Vertex>, from: nat, to: nat)
    requires Carries(nodes, keys, views) && from < |nodes| && to < |nodes|
    ensures Carries(Shifted(nodes, from, to), keys, Shifted(views, from, to))
  {
    CarriesRemoved(nodes, keys, views, from);
    assert NodeIs(nodes[from], keys, views[from]);
    var rest, restViews := nodes[..from] + nodes[from + 1..], views[..from] + views[from + 1..];
    CarriesInserted(rest, keys, restViews, to, nodes[from], views[from]);
  }

  method ReorderStepTo(def: JobDefinition, stepId: int, toIndex: real) returns (r: EditResult)
    ensures r == ReorderStep(def, stepId, toIndex)
  {
    hide Rebuild, NodeIs, Identifies;
    var nodes, from, keys := FindNode(def, stepId);
    ghost var views := ToVertices(def);
    assert from == -1 ==> ReorderIndices(def, stepId, toIndex).None?;
    if from == -1 { return EditResult(def, []); }
    var to := Clamp(Trunc(toIndex), 0, |nodes| - 1);
    assert ReorderIndices(def, stepId, toIndex) == Some((from, to));
    if to == from { return EditResult(def, []); }
    CarriesShifted(nodes, keys, views, from, to);
    var moved := nodes[from];
    nodes := nodes[..from] + nodes[from + 1..];
    nodes := nodes[..to] + [moved] + nodes[to..];
    var result := RebuildJob(def, nodes, [], keys, Shifted(views, from, to), []);
    r := result;
  }

  // ---- disable and enable --------------------------------------------------

  /** The branch loop of `disableStep` on one step copy. */
  method RouteCopy(def: JobDefinition, s: JobStep, stepId: int, bypass: Option<int>)
    returns (step: JobStep, warnings: seq<Warning>)
    requires s.stepId != stepId
    ensures step == RouteStep(def, s, stepId, bypass)
    ensures warnings == RouteWarnings(def, s, stepId)
  {
    step, warnings := s, [];
    for k := 0 to 2
      invariant step == (if k == 0 then s
                         else if k == 1 then RouteBranch(def, s, s, true, stepId, bypass)
                         else RouteStep(def, s, stepId, bypass))
      invariant warnings == (if k == 0 then []
                             else if k == 1 && JumpsInto(s, true, stepId) then [ExplicitBranchRepointed(s.name, true)]
                             else if k == 1 then []
                             else RouteWarnings(def, s, stepId))
    {
      var onSuccess := k == 0;
      var arrivesHere :=
        (step.Action(onSuccess) == GO_TO_STEP && step.Target(onSuccess) == stepId) ||
        (step.Action(onSuccess) == GO_TO_NEXT_STEP && NextStepAfter(def, s, onSuccess) == Some(stepId));
      if !arrivesHere { continue; }
      if step.Action(onSuccess) == GO_TO_STEP {
        warnings := warnings + [ExplicitBranchRepointed(s.name, onSuccess)];
      }
      if bypass.None? {
        step := step.WithBranch(onSuccess, if onSuccess then QUIT_WITH_SUCCESS else QUIT_WITH_FAILURE, 0);
      } else {
        step := step.WithBranch(onSuccess, GO_TO_STEP, bypass.value);
      }
    }
  }

  predicate JumpsInto(s: JobStep, onSuccess: bool, stepId: int) {
    s.Action(onSuccess) == GO_TO_STEP && s.Target(onSuccess) == stepId
  }

  /** The loop of `disableStep` over the other steps. */
  lemma OwnRoute(def: JobDefinition, s: JobStep, id: int, bypass: Option<int>)
    requires s.stepId == id
    ensures RouteStep(def, s, id, bypass) == s && RouteWarnings(def, s, id) == []
  {}

  method RouteCopies(def: JobDefinition, stepId: int, bypass: Option<int>)
    returns (steps: seq<JobStep>, warnings: seq<Warning>)
    ensures |steps| == |def.steps|
    ensures forall i :: 0 <= i < |steps| ==> steps[i] == RouteStep(def, def.steps[i], stepId, bypass)
    ensures warnings == AllRouteWarnings(def, stepId, |def.steps|)
  {
    hide RouteStep, RouteWarnings;
    steps, warnings := [], [];
    for i := 0 to |def.steps|
      invariant |steps| == i
      invariant forall k :: 0 <= k < i ==> steps[k] == RouteStep(def, def.steps[k], stepId, bypass)
      invariant warnings == AllRouteWarnings(def, stepId, i)
    {
      var s := def.steps[i];
      if s.stepId == stepId {
        OwnRoute(def, s, stepId, bypass);
        steps := steps + [s];
      } else {
        var step, more := RouteCopy(def, s, stepId, bypass);
        steps, warnings := steps + [step], warnings + more;
      }
    }
  }

  method DisableStepIn(def: JobDefinition, stepId: int) returns (r: EditResult)
    ensures r == DisableStep(def, stepId)
  {
    var target := FindStep(def.steps, stepId);
    if target.None? { return EditResult(def, []); }
    if |def.steps| == 1 { return EditResult(def, [OnlyStepNotDisabled]); }
    var bypass := NextStepAfter(def, target.value, true);
    var steps, warnings := RouteCopies(def, stepId, bypass);
    assert steps == Routed(def, stepId);
    var startStepId := def.startStepId;
    if startStepId == stepId {
      if bypass.None? { return EditResult(def, [NothingLeftToRun]); }
      startStepId := bypass.value;
      warnings := warnings + [StartStepMoved(bypass.value)];
    }
    r := EditResult(def.(steps := steps, startStepId := startStepId), warnings);
  }

  /** The branch loop of `enableStep` on the step above. */
  method RestoreCopy(def: JobDefinition, s: JobStep, stepId: int, bypass: Option<int>) returns (step: JobStep)
    requires s.stepId != stepId
    ensures step == RestoreStep(def, s, stepId, Some(s.stepId), bypass)
  {
    step := s;
    for k := 0 to 2
      invariant step == (if k == 0 then s
                         else if k == 1 then RestoreBranch(def, s, s, true, stepId, bypass)
                         else RestoreStep(def, s, stepId, Some(s.stepId), bypass))
    {
      var onSuccess := k == 0;
      if NextStepAfter(def, s, onSuccess) == Some(stepId) { continue; }
      var jumpedOver := step.Action(onSuccess) == GO_TO_STEP && bypass.Some? && step.Target(onSuccess) == bypass.value;
      var endedInstead := onSuccess && bypass.None? && step.Action(onSuccess) == QUIT_WITH_SUCCESS;
      if !jumpedOver && !endedInstead { continue; }
      step := step.WithBranch(onSuccess, GO_TO_NEXT_STEP, 0);
    }
  }

  /** The loop of `enableStep` over the steps. */
  method RestoreCopies(def: JobDefinition, stepId: int, previous: Option<int>, bypass: Option<int>)
    returns (steps: seq<JobStep>)
    ensures |steps| == |def.steps|
    ensures forall i :: 0 <= i < |steps| ==> steps[i] == RestoreStep(def, def.steps[i], stepId, previous, bypass)
  {
    steps := [];
    for i := 0 to |def.steps|
      invariant |steps| == i
      invariant forall k :: 0 <= k < i ==> steps[k] == RestoreStep(def, def.steps[k], stepId, previous, bypass)
    {
      var s := def.steps[i];
      var step := s;
      if s.stepId != stepId {
        if previous.Some? && s.stepId == previous.value {
          step := RestoreCopy(def, s, stepId, bypass);
        }
      } else if step.onSuccessAction == GO_TO_NEXT_STEP && bypass.None? {
        step := step.(onSuccessAction := QUIT_WITH_SUCCESS, onSuccessStepId := 0);
      }
      steps := steps + [step];
    }
  }

  method EnableStepIn(def: JobDefinition, stepId: int) returns (r: EditResult)
    ensures r == EnableStep(def, stepId)
  {
    var ordered := Ordered(def.steps);
    var index := FirstIndex(ordered, stepId);
    if index.None? { return EditResult(def, []); }
    var reachable := ReachableSteps(def);
    if stepId in reachable { return EditResult(def, []); }

    var previous, bypass := PreviousId(ordered, index.value), FollowingId(ordered, index.value);
    var steps := RestoreCopies(def, stepId, previous, bypass);
    assert steps == Restored(def, stepId, index.value).steps;
    var startStepId := if previous.Some? then def.startStepId else stepId;
    r := EditResult(def.(steps := steps, startStepId := startStepId), []);
  }
}
