/** What `rebuild` tells the operator: a jump that lost its target is reported, and nothing else is reported as one. */
module JobWarnings {
  import opened JobModel
  import opened JobEdit
  import opened JobGraph
  import opened JobRenaming

  function TargetGone(stepId: int, ok: bool): Warning {
    if ok then SuccessTargetGone(stepId) else FailTargetGone(stepId)
  }

  /** The branch jumps and its target has no place in the arrangement. */
  predicate Unplaced(nodes: seq<Vertex>, k: nat, ok: bool)
    requires k < |nodes|
  {
    && nodes[k].step.Action(ok) == GO_TO_STEP
    && PositionOf(nodes, if ok then nodes[k].onSuccessTarget else nodes[k].onFailTarget).None?
  }

  lemma StepReports(nodes: seq<Vertex>, k: nat, j: int, ok: bool)
    requires k < |nodes|
    ensures TargetGone(j, ok) in RebuildStep(nodes, k).1 <==> j == k + 1 && Unplaced(nodes, k, ok)
  {
    var s0 := nodes[k].step.(stepId := k + 1);
    var s2 := RepairFail(nodes, k, RepairSuccess(nodes, k, s0));
    EndingsAreNotJumps(s2, k == |nodes| - 1, nodes[k].wasLast, j, ok);
  }

  lemma EndingsAreNotJumps(step: JobStep, isLast: bool, wasLast: bool, j: int, ok: bool)
    ensures TargetGone(j, ok) !in EndOfListDefaults(step, isLast, wasLast).1
  {}

  /** A list of lists, one after the other. */
  function Joined(lists: seq<seq<Warning>>): seq<Warning> {
    if lists == [] then [] else Joined(lists[..|lists| - 1]) + lists[|lists| - 1]
  }

  lemma {:induction false} InJoined(lists: seq<seq<Warning>>, w: Warning)
    ensures w in Joined(lists) <==> exists i :: 0 <= i < |lists| && w in lists[i]
  {
    if lists != [] {
      InJoined(lists[..|lists| - 1], w);
    }
  }

  function StepWarnings(nodes: seq<Vertex>, upTo: nat): (r: seq<seq<Warning>>)
    requires upTo <= |nodes|
    ensures |r| == upTo && forall i :: 0 <= i < upTo ==> r[i] == RebuildStep(nodes, i).1
  {
    seq(upTo, i requires 0 <= i < upTo => RebuildStep(nodes, i).1)
  }

  lemma {:induction false} WarningsAreJoined(nodes: seq<Vertex>, upTo: nat)
    requires upTo <= |nodes|
    ensures RebuildWarnings(nodes, upTo) == Joined(StepWarnings(nodes, upTo))
  {
    if upTo > 0 {
      WarningsAreJoined(nodes, upTo - 1);
      assert StepWarnings(nodes, upTo)[..upTo - 1] == StepWarnings(nodes, upTo - 1);
    }
  }

  lemma OneListSays(lists: seq<seq<Warning>>, w: Warning, k: nat, said: bool)
    requires k < |lists| && forall i :: 0 <= i < |lists| ==> (w in lists[i] <==> i == k && said)
    ensures w in Joined(lists) <==> said
  {
    InJoined(lists, w);
    if said { assert w in lists[k]; }
  }

  lemma WarningsReport(nodes: seq<Vertex>, k: nat, ok: bool)
    requires k < |nodes|
    ensures TargetGone(k + 1, ok) in RebuildWarnings(nodes, |nodes|) <==> Unplaced(nodes, k, ok)
  {
    hide RebuildStep, RebuildWarnings, Unplaced;
    var lists := StepWarnings(nodes, |nodes|);
    forall i | 0 <= i < |nodes| ensures TargetGone(k + 1, ok) in lists[i] <==> i == k && Unplaced(nodes, k, ok) {
      StepReports(nodes, i, k + 1, ok);
    }
    OneListSays(lists, TargetGone(k + 1, ok), k, Unplaced(nodes, k, ok));
    WarningsAreJoined(nodes, |nodes|);
  }

  lemma RebuildReports(def: JobDefinition, nodes: seq<Vertex>, removed: seq<Vertex>, k: nat, ok: bool)
    requires k < |nodes|
    ensures TargetGone(k + 1, ok) in Rebuild(def, nodes, removed).warnings <==> Unplaced(nodes, k, ok)
  {
    WarningsReport(nodes, k, ok);
  }

  /** The step's explicit jump has no target after the edit. */
  ghost predicate LostJump(def: JobDefinition, id: int, pos: Numbering, ok: bool)
    requires 1 <= id <= |Ordered(def.steps)|
  {
    StepWithId(def, id).Action(ok) == GO_TO_STEP && pos(StepWithId(def, id).Target(ok)).None?
  }

  lemma PlacedExactly(o: seq<JobStep>, nodes: seq<Vertex>, pos: Numbering, id: int, ok: bool)
    requires InOrder(o) && Arranged(o, nodes) && Positions(|o|, nodes, pos) && pos(id).Some?
    ensures Unplaced(nodes, pos(id).value - 1, ok) <==>
            o[id - 1].Action(ok) == GO_TO_STEP && pos(o[id - 1].Target(ok)).None?
  {
    var k, s := pos(id).value - 1, o[id - 1];
    assert IsNode(o, nodes[k]);
    IndexOfNumbered(o, s.Target(ok));
    ResolvedPosition(|o|, nodes, pos, s.Target(ok));
  }

  /** Under any rearrangement, a surviving step's branch is reported exactly when its jump lost its target. */
  lemma LostJumpsAreReported(def: JobDefinition, nodes: seq<Vertex>, removed: seq<Vertex>, pos: Numbering, id: int,
                             ok: bool)
    requires Numbered(def.steps) && |Ordered(def.steps)| == |def.steps|
    requires Arranged(Ordered(def.steps), nodes) && Positions(|def.steps|, nodes, pos) && pos(id).Some?
    ensures TargetGone(pos(id).value, ok) in Rebuild(def, nodes, removed).warnings <==> LostJump(def, id, pos, ok)
  {
    hide Rebuild, Ordered, Arranged, Numbered;
    OrderedNumbered(def.steps);
    PlacedExactly(Ordered(def.steps), nodes, pos, id, ok);
    RebuildReports(def, nodes, removed, pos(id).value - 1, ok);
  }

  lemma {:induction false} OnlyStepsReported(nodes: seq<Vertex>, upTo: nat)
    requires upTo <= |nodes|
    ensures StartStepRemoved !in RebuildWarnings(nodes, upTo)
  {
    if upTo > 0 { OnlyStepsReported(nodes, upTo - 1); }
  }

  lemma StartReported(def: JobDefinition, nodes: seq<Vertex>, node: Vertex)
    ensures StartStepRemoved in Rebuild(def, nodes, [node]).warnings <==> node.step.stepId == def.startStepId
  {
    OnlyStepsReported(nodes, |nodes|);
    assert StepsOf([node])[0] == node.step;
  }

  lemma RemovedTarget(def: JobDefinition, gone: int, id: int, ok: bool, pos: Numbering)
    requires 1 <= id <= |Ordered(def.steps)| && pos == RemovedPositions(|def.steps|, gone)
    ensures var s := StepWithId(def, id);
      LostJump(def, id, pos, ok) <==>
      s.Action(ok) == GO_TO_STEP && (s.Target(ok) == gone || !(1 <= s.Target(ok) <= |def.steps|))
  {}

  lemma RemovedNodesArranged(def: JobDefinition, gone: int, nodes: seq<Vertex>, pos: Numbering)
    requires Numbered(def.steps) && |ToVertices(def)| == |def.steps| && 1 <= gone <= |def.steps|
    requires nodes == RemovedNodes(def, gone) && pos == RemovedPositions(|def.steps|, gone)
    ensures |Ordered(def.steps)| == |def.steps|
    ensures Arranged(Ordered(def.steps), nodes) && Positions(|def.steps|, nodes, pos)
  {
    RemovedArrangement(def, gone);
  }

  lemma RemovalReports(def: JobDefinition, gone: int, id: int, ok: bool, pos: Numbering, warnings: seq<Warning>)
    requires Numbered(def.steps) && |def.steps| > 1 && 1 <= gone <= |def.steps| && pos(id).Some?
    requires pos == RemovedPositions(|def.steps|, gone) && warnings == RemoveStep(def, gone).warnings
    ensures 1 <= id <= |Ordered(def.steps)| == |def.steps|
    ensures TargetGone(pos(id).value, ok) in warnings <==> LostJump(def, id, pos, ok)
  {
    RemoveStepIsRebuild(def, gone);
    RemovedNodesArranged(def, gone, RemovedNodes(def, gone), pos);
    LostJumpsAreReported(def, RemovedNodes(def, gone), [ToVertices(def)[gone - 1]], pos, id, ok);
  }

  /** Removing a step reports exactly the branches of the remaining steps that jumped to it, or to no step at all. */
  lemma RemovalIsReported(def: JobDefinition, gone: int, id: int, ok: bool, pos: Numbering, warnings: seq<Warning>)
    requires Numbered(def.steps) && |def.steps| > 1 && 1 <= gone <= |def.steps| && pos(id).Some?
    requires pos == RemovedPositions(|def.steps|, gone) && warnings == RemoveStep(def, gone).warnings
    ensures 1 <= id <= |Ordered(def.steps)| == |def.steps|
    ensures var s := StepWithId(def, id);
      TargetGone(pos(id).value, ok) in warnings <==>
      s.Action(ok) == GO_TO_STEP && (s.Target(ok) == gone || !(1 <= s.Target(ok) <= |def.steps|))
  {
    RemovalReports(def, gone, id, ok, pos, warnings);
    RemovedTarget(def, gone, id, ok, pos);
  }

  /** The operator is told that the start step went exactly when it did. */
  lemma RemovedStartIsReported(def: JobDefinition, gone: int)
    requires Numbered(def.steps) && |def.steps| > 1 && 1 <= gone <= |def.steps|
    ensures StartStepRemoved in RemoveStep(def, gone).warnings <==> def.startStepId == gone
  {
    RemoveStepIsRebuild(def, gone);
    StartReported(def, RemovedNodes(def, gone), ToVertices(def)[gone - 1]);
  }
}
