/** Each structural edit, as the renaming it performs on a job numbered 1..n. */
module JobRenaming {
  import opened Wrappers
  import opened JobModel
  import opened Utf16
  import opened JobEdit
  import opened JobGraph

  ghost predicate StartExists(def: JobDefinition) {
    1 <= def.startStepId <= |def.steps|
  }

  ghost predicate AllNodes(o: seq<JobStep>, all: seq<Vertex>) {
    |all| == |o| && forall i :: 0 <= i < |o| ==> all[i] == VertexAt(o, i)
  }

  /** The list handed to `rebuild` has the start step's node first at `p`. */
  lemma StartAt(def: JobDefinition, nodes: seq<Vertex>, removed: seq<Vertex>, p: nat)
    requires p < |nodes| && nodes[p].step.stepId == def.startStepId
    requires forall i :: 0 <= i < p ==> nodes[i].step.stepId != def.startStepId
    requires forall i :: 0 <= i < |removed| ==> removed[i].step.stepId != def.startStepId
    ensures Rebuild(def, nodes, removed).definition.startStepId == p + 1
  {
    var steps := StepsOf(nodes);
    var found := FirstIndex(steps, def.startStepId);
    assert steps[p].stepId == def.startStepId;
    assert found == Some(p);
    assert FirstIndex(StepsOf(removed), def.startStepId).None?;
  }

  /** Where a node of the list came from, read off its position map. */
  lemma NodeStepIds(o: seq<JobStep>, nodes: seq<Vertex>)
    requires InOrder(o) && Arranged(o, nodes)
    ensures forall k :: 0 <= k < |nodes| && nodes[k].key < |o| ==> nodes[k].step.stepId == nodes[k].key + 1
  {
    forall k | 0 <= k < |nodes| && nodes[k].key < |o| ensures nodes[k].step.stepId == nodes[k].key + 1 {
      assert IsNode(o, nodes[k]);
    }
  }

  /** When every node is one of the job's own, the start step follows its position. */
  lemma OwnStartFollows(def: JobDefinition, nodes: seq<Vertex>, removed: seq<Vertex>, pos: Numbering)
    requires Numbered(def.steps) && StartExists(def)
    requires Arranged(Ordered(def.steps), nodes) && Positions(|def.steps|, nodes, pos)
    requires forall k :: 0 <= k < |nodes| ==> nodes[k].key < |def.steps|
    requires pos(def.startStepId).Some?
    requires forall i :: 0 <= i < |removed| ==> removed[i].step.stepId != def.startStepId
    ensures Rebuild(def, nodes, removed).definition.startStepId == pos(def.startStepId).value
  {
    OrderedNumbered(def.steps);
    NodeStepIds(Ordered(def.steps), nodes);
    StartAt(def, nodes, removed, pos(def.startStepId).value - 1);
  }

  // ---- add -----------------------------------------------------------------

  /** A step inserted at index `at` pushes everything below it down by one. */
  function AddedPositions(n: nat, at: nat): Numbering {
    (id: int) => if !(1 <= id <= n) then None else if id <= at then Some(id) else Some(id + 1)
  }

  function NoPositions(): Numbering {
    (id: int) => None
  }

  lemma AddIndexOf(def: JobDefinition, afterStepId: Option<int>)
    requires Numbered(def.steps)
    ensures AddIndex(def, afterStepId) ==
            if afterStepId.Some? && 1 <= afterStepId.value <= |def.steps| then afterStepId.value else |def.steps|
  {
    OrderedNumbered(def.steps);
    if afterStepId.Some? { IndexOfNumbered(Ordered(def.steps), afterStepId.value); }
  }

  ghost function AddedNodes(def: JobDefinition, at: nat, created: JobStep): seq<Vertex>
    requires at <= |Ordered(def.steps)|
  {
    var all := ToVertices(def);
    all[..at] + [Vertex(|all|, created, None, None, false)] + all[at..]
  }

  lemma AddedKeys(o: seq<JobStep>, all: seq<Vertex>, at: nat, node: Vertex)
    requires AllNodes(o, all) && at <= |o|
    requires node.key == |o| && IsNode(o, node)
    ensures var nodes := all[..at] + [node] + all[at..];
      && (forall k :: 0 <= k < |nodes| ==> nodes[k].key == if k < at then k else if k == at then |o| else k - 1)
      && (forall k :: 0 <= k < |nodes| ==> IsNode(o, nodes[k]))
  {}

  lemma AddedArranged(o: seq<JobStep>, nodes: seq<Vertex>, at: nat)
    requires at <= |o| && |nodes| == |o| + 1
    requires forall k :: 0 <= k < |nodes| ==> nodes[k].key == if k < at then k else if k == at then |o| else k - 1
    requires forall k :: 0 <= k < |nodes| ==> IsNode(o, nodes[k])
    ensures Arranged(o, nodes)
    ensures Positions(|o|, nodes, AddedPositions(|o|, at))
  {}

  lemma AddedArrangement(def: JobDefinition, at: nat, created: JobStep)
    requires Numbered(def.steps) && at <= |def.steps|
    ensures |Ordered(def.steps)| == |def.steps|
    ensures var nodes := AddedNodes(def, at, created);
      && |nodes| == |def.steps| + 1 && nodes[at].step == created && nodes[at].key == |def.steps|
      && (forall k :: 0 <= k < |nodes| && k != at ==> nodes[k].key < |def.steps|)
      && Arranged(Ordered(def.steps), nodes)
      && Positions(|def.steps|, nodes, AddedPositions(|def.steps|, at))
  {
    OrderedNumbered(def.steps);
    var o := Ordered(def.steps);
    AddedKeys(o, ToVertices(def), at, Vertex(|o|, created, None, None, false));
    AddedArranged(o, AddedNodes(def, at, created), at);
  }

  /** `addStep` renames the job and puts the new step, with no resolved jump, where it was asked for. */
  lemma AddStepRenames(def: JobDefinition, afterStepId: Option<int>, created: JobStep)
    requires Numbered(def.steps)
    ensures var after, at := AddStep(def, afterStepId, created).definition, AddIndex(def, afterStepId);
      && at == (if afterStepId.Some? && 1 <= afterStepId.value <= |def.steps| then afterStepId.value else |def.steps|)
      && |after.steps| == |def.steps| + 1
      && Renames(def, after, AddedPositions(|def.steps|, at))
      && SameStep(created, after.steps[at], NoPositions(), at == |def.steps|, false)
  {
    var at := AddIndex(def, afterStepId);
    AddIndexOf(def, afterStepId);
    AddedArrangement(def, at, created);
    var nodes := AddedNodes(def, at, created);
    RebuildRenames(def, nodes, [], AddedPositions(|def.steps|, at));
    assert IsNode(Ordered(def.steps), nodes[at]);
    RebuiltBranches(nodes, at, created, NoPositions(), false);
  }

  lemma AddStepIsRebuild(def: JobDefinition, afterStepId: Option<int>, created: JobStep)
    ensures AddStep(def, afterStepId, created).definition ==
            Rebuild(def, AddedNodes(def, AddIndex(def, afterStepId), created), []).definition
  {}

  lemma AddedStart(def: JobDefinition, nodes: seq<Vertex>, o: seq<JobStep>, at: nat, created: JobStep)
    requires InOrder(o) && Arranged(o, nodes) && StartExists(def) && |o| == |def.steps|
    requires at < |nodes| && nodes[at].step == created
    requires forall k :: 0 <= k < |nodes| && k != at ==> nodes[k].key < |o|
    requires Positions(|o|, nodes, AddedPositions(|o|, at))
    ensures var start := Rebuild(def, nodes, []).definition.startStepId;
      start == if created.stepId == def.startStepId && at < def.startStepId then at + 1
               else AddedPositions(|o|, at)(def.startStepId).value
  {
    NodeStepIds(o, nodes);
    var p := AddedPositions(|o|, at)(def.startStepId).value - 1;
    assert nodes[p].key == def.startStepId - 1;
    forall i | 0 <= i < |nodes| && i != p && i != at ensures nodes[i].step.stepId != def.startStepId {
      assert nodes[i].key != nodes[p].key;
    }
    StartAt(def, nodes, [], if created.stepId == def.startStepId && at < def.startStepId then at else p);
  }

  /**
   * The start step follows, except when the options gave the new step the start
   * step's own number and put it above: `rebuild` then finds the new step first.
   */
  lemma AddStepStart(def: JobDefinition, afterStepId: Option<int>, created: JobStep)
    requires Numbered(def.steps) && StartExists(def)
    ensures var after, at := AddStep(def, afterStepId, created).definition, AddIndex(def, afterStepId);
      StartFollows(def, after, AddedPositions(|def.steps|, at)) <==>
      !(created.stepId == def.startStepId && at < def.startStepId)
  {
    hide AddStep, AddIndex, Rebuild, AddedNodes, Arranged, Positions;
    var at := AddIndex(def, afterStepId);
    AddIndexOf(def, afterStepId);
    AddStepIsRebuild(def, afterStepId, created);
    AddedArrangement(def, at, created);
    OrderedNumbered(def.steps);
    AddedStart(def, AddedNodes(def, at, created), Ordered(def.steps), at, created);
  }

  /** With no `stepId` among the options the start step always follows. */
  lemma PlainAddKeepsStart(def: JobDefinition, afterStepId: Option<int>, patch: StepPatch)
    requires Numbered(def.steps) && StartExists(def) && patch.stepId.None?
    ensures var after, at := AddStep(def, afterStepId, CreatedStep(def, patch)).definition, AddIndex(def, afterStepId);
      StartFollows(def, after, AddedPositions(|def.steps|, at))
  {
    AddStepStart(def, afterStepId, CreatedStep(def, patch));
    AddIndexOf(def, afterStepId);
  }

  /** A job that starts at step 2; a step patched to be number 2, added after step 1, becomes the start. */
  lemma AddStepStartTaken()
    ensures exists def: JobDefinition, created: JobStep ::
      Numbered(def.steps) && StartExists(def) &&
      !StartFollows(def, AddStep(def, Some(1), created).definition,
                    AddedPositions(|def.steps|, AddIndex(def, Some(1))))
  {
    hide Units;
    var one := NewStepTemplate(Units("one"));
    var two := one.(stepId := 2, name := Units("two"), onSuccessAction := QUIT_WITH_SUCCESS);
    var def := JobDefinition(Units("job"), None, true, None, None, 2, Notifications(None, 0, None, 0, None, 0, 0, 0),
                             [one, two], [], []);
    AddStepStart(def, Some(1), one.(stepId := 2));
    AddIndexOf(def, Some(1));
  }

  // ---- remove --------------------------------------------------------------

  function RemovedPositions(n: nat, gone: int): Numbering {
    (id: int) => if !(1 <= id <= n) || id == gone then None else if id < gone then Some(id) else Some(id - 1)
  }

  lemma RemovedKeys(o: seq<JobStep>, all: seq<Vertex>, gone: int)
    requires AllNodes(o, all) && 1 <= gone <= |o|
    ensures var nodes := all[..gone - 1] + all[gone..];
      && (forall k :: 0 <= k < |nodes| ==> nodes[k].key == if k < gone - 1 then k else k + 1)
      && (forall k :: 0 <= k < |nodes| ==> IsNode(o, nodes[k]))
  {}

  lemma RemovedArranged(o: seq<JobStep>, nodes: seq<Vertex>, gone: int)
    requires 1 <= gone <= |o| && |nodes| == |o| - 1
    requires forall k :: 0 <= k < |nodes| ==> nodes[k].key == if k < gone - 1 then k else k + 1
    requires forall k :: 0 <= k < |nodes| ==> IsNode(o, nodes[k])
    ensures Arranged(o, nodes)
    ensures Positions(|o|, nodes, RemovedPositions(|o|, gone))
  {}

  lemma RemovedArrangement(def: JobDefinition, gone: int)
    requires Numbered(def.steps) && 1 <= gone <= |def.steps|
    ensures |Ordered(def.steps)| == |def.steps|
    ensures var all := ToVertices(def); var nodes := all[..gone - 1] + all[gone..];
      && |nodes| == |def.steps| - 1
      && (forall k :: 0 <= k < |nodes| ==> nodes[k].key < |def.steps|)
      && Arranged(Ordered(def.steps), nodes)
      && Positions(|def.steps|, nodes, RemovedPositions(|def.steps|, gone))
  {
    OrderedNumbered(def.steps);
    var o, all := Ordered(def.steps), ToVertices(def);
    RemovedKeys(o, all, gone);
    RemovedArranged(o, all[..gone - 1] + all[gone..], gone);
  }

  ghost function RemovedNodes(def: JobDefinition, gone: int): seq<Vertex>
    requires 1 <= gone <= |ToVertices(def)|
  {
    ToVertices(def)[..gone - 1] + ToVertices(def)[gone..]
  }

  lemma FoundStep(def: JobDefinition, id: int)
    requires Numbered(def.steps) && 1 <= id <= |def.steps|
    ensures |ToVertices(def)| == |Ordered(def.steps)| == |def.steps| && ToVertices(def)[id - 1].step.stepId == id
    ensures FirstIndex(Ordered(def.steps), id) == Some(id - 1)
  {
    OrderedNumbered(def.steps);
    IndexOfNumbered(Ordered(def.steps), id);
  }

  lemma RemoveStepIsRebuild(def: JobDefinition, gone: int)
    requires Numbered(def.steps) && 1 <= gone <= |def.steps| && |def.steps| > 1
    ensures |ToVertices(def)| == |def.steps| && ToVertices(def)[gone - 1].step.stepId == gone
    ensures RemoveStep(def, gone) == Rebuild(def, RemovedNodes(def, gone), [ToVertices(def)[gone - 1]])
  {
    hide Rebuild, Numbered, Ordered, FirstIndex, ToVertices;
    FoundStep(def, gone);
  }

  lemma RemovedStart(def: JobDefinition, nodes: seq<Vertex>, node: Vertex)
    requires node.step.stepId == def.startStepId
    ensures Rebuild(def, nodes, [node]).definition.startStepId == 1
  {
    assert StepsOf([node])[0].stepId == def.startStepId;
  }

  /** `removeStep` renames the job onto the remaining steps; a removed start step gives way to step 1. */
  lemma RemoveStepRenames(def: JobDefinition, gone: int)
    requires Numbered(def.steps) && StartExists(def) && 1 <= gone <= |def.steps| && |def.steps| > 1
    ensures var after, pos := RemoveStep(def, gone).definition, RemovedPositions(|def.steps|, gone);
      && |after.steps| == |def.steps| - 1
      && Renames(def, after, pos) && StartFollows(def, after, pos)
  {
    hide RebuildStep, RebuildUpTo, RebuildWarnings, PositionOf, Renames, Arranged, Positions;
    RemoveStepIsRebuild(def, gone);
    RemovedArrangement(def, gone);
    var nodes, pos := RemovedNodes(def, gone), RemovedPositions(|def.steps|, gone);
    var node := ToVertices(def)[gone - 1];
    RebuildRenames(def, nodes, [node], pos);
    if def.startStepId != gone {
      OwnStartFollows(def, nodes, [node], pos);
    } else {
      RemovedStart(def, nodes, node);
    }
  }

  /** Removing the only step, or one that is not there, changes nothing. */
  lemma RemoveStepRefuses(def: JobDefinition, gone: int)
    requires Numbered(def.steps) && (!(1 <= gone <= |def.steps|) || |def.steps| == 1)
    ensures RemoveStep(def, gone).definition == def
  {
    OrderedNumbered(def.steps);
    IndexOfNumbered(Ordered(def.steps), gone);
  }

  // ---- move and reorder ----------------------------------------------------

  /** Index of the element that starts at `i`, once the one at `from` is dropped at `to`. */
  function ShiftedIndex(from: int, to: int, i: int): int {
    if i == from then to
    else if from < i <= to then i - 1
    else if to <= i < from then i + 1
    else i
  }

  function ShiftedPositions(n: nat, from: nat, to: nat): Numbering {
    (id: int) => if !(1 <= id <= n) then None else Some(ShiftedIndex(from, to, id - 1) + 1)
  }

  lemma ShiftedAt<T>(s: seq<T>, from: nat, to: nat, i: nat)
    requires from < |s| && to < |s| && i < |s|
    ensures 0 <= ShiftedIndex(from, to, i) < |s|
    ensures Shifted(s, from, to)[ShiftedIndex(from, to, i)] == s[i]
  {
    var rest := s[..from] + s[from + 1..];
    assert Shifted(s, from, to) == rest[..to] + [s[from]] + rest[to..];
  }

  lemma ShiftedBack(from: int, to: int, i: int)
    ensures ShiftedIndex(to, from, ShiftedIndex(from, to, i)) == i
  {}

  lemma ShiftedKeys(o: seq<JobStep>, all: seq<Vertex>, from: nat, to: nat)
    requires AllNodes(o, all) && from < |o| && to < |o|
    ensures var nodes := Shifted(all, from, to);
      && (forall k :: 0 <= k < |nodes| ==>
            0 <= ShiftedIndex(to, from, k) < |o| && nodes[k].key == ShiftedIndex(to, from, k))
      && (forall k :: 0 <= k < |nodes| ==> IsNode(o, nodes[k]))
  {
    var nodes := Shifted(all, from, to);
    forall k | 0 <= k < |nodes|
      ensures 0 <= ShiftedIndex(to, from, k) < |all| && nodes[k] == all[ShiftedIndex(to, from, k)]
    {
      ShiftedBack(to, from, k);
      ShiftedAt(all, from, to, ShiftedIndex(to, from, k));
    }
  }

  lemma ShiftedArranged(o: seq<JobStep>, nodes: seq<Vertex>, from: nat, to: nat)
    requires from < |o| && to < |o| && |nodes| == |o|
    requires forall k :: 0 <= k < |nodes| ==> nodes[k].key == ShiftedIndex(to, from, k)
    requires forall k :: 0 <= k < |nodes| ==> IsNode(o, nodes[k])
    ensures Arranged(o, nodes)
    ensures Positions(|o|, nodes, ShiftedPositions(|o|, from, to))
  {}

  lemma ShiftedArrangement(def: JobDefinition, from: nat, to: nat)
    requires Numbered(def.steps) && from < |def.steps| && to < |def.steps|
    ensures |Ordered(def.steps)| == |def.steps|
    ensures var nodes := Shifted(ToVertices(def), from, to);
      && (forall k :: 0 <= k < |nodes| ==> nodes[k].key < |def.steps|)
      && Arranged(Ordered(def.steps), nodes)
      && Positions(|def.steps|, nodes, ShiftedPositions(|def.steps|, from, to))
  {
    OrderedNumbered(def.steps);
    var o := Ordered(def.steps);
    ShiftedKeys(o, ToVertices(def), from, to);
    ShiftedArranged(o, Shifted(ToVertices(def), from, to), from, to);
  }

  lemma ShiftRenames(def: JobDefinition, from: nat, to: nat)
    requires Numbered(def.steps) && StartExists(def) && from < |def.steps| && to < |def.steps|
    ensures |Ordered(def.steps)| == |def.steps|
    ensures var after := Rebuild(def, Shifted(ToVertices(def), from, to), []).definition;
      var pos := ShiftedPositions(|def.steps|, from, to);
      |after.steps| == |def.steps| && Renames(def, after, pos) && StartFollows(def, after, pos)
  {
    ShiftedArrangement(def, from, to);
    var nodes, pos := Shifted(ToVertices(def), from, to), ShiftedPositions(|def.steps|, from, to);
    RebuildRenames(def, nodes, [], pos);
    OwnStartFollows(def, nodes, [], pos);
  }

  lemma DroppedRenames(def: JobDefinition, from: nat, to: nat)
    requires Numbered(def.steps) && StartExists(def) && from < |def.steps| && to < |def.steps|
    ensures |ToVertices(def)| == |def.steps|
    ensures var after, pos := Dropped(def, from, to).definition, ShiftedPositions(|def.steps|, from, to);
      if to == from then after == def
      else |after.steps| == |def.steps| && Renames(def, after, pos) && StartFollows(def, after, pos)
  {
    ShiftRenames(def, from, to);
  }

  lemma ReorderedIndices(def: JobDefinition, stepId: int, toIndex: real)
    requires Numbered(def.steps)
    ensures |ToVertices(def)| == |def.steps|
    ensures ReorderIndices(def, stepId, toIndex) ==
            if 1 <= stepId <= |def.steps| then Some((stepId - 1, Clamp(Trunc(toIndex), 0, |def.steps| - 1))) else None
  {
    OrderedNumbered(def.steps);
    IndexOfNumbered(Ordered(def.steps), stepId);
  }

  /** `reorderStep` is the renaming that drops the step at the clamped slot. */
  lemma ReorderStepRenames(def: JobDefinition, stepId: int, toIndex: real)
    requires Numbered(def.steps) && StartExists(def) && 1 <= stepId <= |def.steps|
    ensures var to := Clamp(Trunc(toIndex), 0, |def.steps| - 1);
      var after, pos := ReorderStep(def, stepId, toIndex).definition, ShiftedPositions(|def.steps|, stepId - 1, to);
      if to == stepId - 1 then after == def
      else |after.steps| == |def.steps| && Renames(def, after, pos) && StartFollows(def, after, pos)
  {
    ReorderedIndices(def, stepId, toIndex);
    DroppedRenames(def, stepId - 1, Clamp(Trunc(toIndex), 0, |def.steps| - 1));
  }

  lemma SwapIsShift<T>(s: seq<T>, i: nat, j: nat)
    requires i < |s| && j < |s| && (i == j + 1 || j == i + 1)
    ensures s[i := s[j]][j := s[i]] == Shifted(s, i, j)
  {}

  lemma MoveStepIsRebuild(def: JobDefinition, stepId: int, up: bool)
    requires Numbered(def.steps) && 1 <= stepId <= |def.steps|
    ensures |ToVertices(def)| == |def.steps|
    ensures var to := if up then stepId - 2 else stepId;
      MoveStep(def, stepId, up) ==
      if 0 <= to < |def.steps| then Rebuild(def, Shifted(ToVertices(def), stepId - 1, to), [])
      else EditResult(def, [])
  {
    OrderedNumbered(def.steps);
    IndexOfNumbered(Ordered(def.steps), stepId);
    var to := if up then stepId - 2 else stepId;
    if 0 <= to < |def.steps| { SwapIsShift(ToVertices(def), stepId - 1, to); }
  }

  /** `moveStep` is the same renaming one slot up or down, and nothing at the ends of the list. */
  lemma MoveStepRenames(def: JobDefinition, stepId: int, up: bool)
    requires Numbered(def.steps) && StartExists(def) && 1 <= stepId <= |def.steps|
    ensures var after, to := MoveStep(def, stepId, up).definition, if up then stepId - 2 else stepId;
      if 0 <= to < |def.steps| then
        var pos := ShiftedPositions(|def.steps|, stepId - 1, to);
        |after.steps| == |def.steps| && Renames(def, after, pos) && StartFollows(def, after, pos)
      else after == def
  {
    MoveStepIsRebuild(def, stepId, up);
    var to := if up then stepId - 2 else stepId;
    if 0 <= to < |def.steps| { ShiftRenames(def, stepId - 1, to); }
  }
}
