/**
 * Adding, removing, moving and reordering steps as renamings of the graph, and
 * the well-formedness every edit keeps.
 */
module JobGraph {
  import opened Wrappers
  import opened JobModel
  import opened JobEdit

  // ---- what a renaming is --------------------------------------------------

  /** The new number of an old step, or `None` once it is gone. */
  type Numbering = int -> Option<int>

  /** The `id`-th step in order: on a job numbered 1..n, the step carrying that id. */
  ghost function StepWithId(def: JobDefinition, id: int): JobStep
    requires 1 <= id <= |Ordered(def.steps)|
  {
    Ordered(def.steps)[id - 1]
  }

  /**
   * One branch across an edit. `pos` gives the new number of every surviving
   * step; `isLast`/`wasLast` say whether the step ends the list after/before.
   */
  ghost predicate BranchFollows(s: JobStep, t: JobStep, ok: bool, pos: Numbering, isLast: bool, wasLast: bool) {
    if s.Action(ok) == GO_TO_STEP then
      if pos(s.Target(ok)).Some? then
        // An explicit jump still points at the same step.
        t.Action(ok) == GO_TO_STEP && t.Target(ok) == pos(s.Target(ok)).value
      else
        // Its target is gone: success falls through if it can, failure always stops the job.
        && t.Target(ok) == 0
        && t.Action(ok) == (if !ok then QUIT_WITH_FAILURE else if isLast then QUIT_WITH_SUCCESS else GO_TO_NEXT_STEP)
    else
      && t.Target(ok) == 0
      && t.Action(ok) ==
         (if isLast && !wasLast && s.Action(ok) == GO_TO_NEXT_STEP then
            (if ok then QUIT_WITH_SUCCESS else QUIT_WITH_FAILURE)
          else if ok && wasLast && !isLast && s.Action(ok) == QUIT_WITH_SUCCESS && t.onFailAction == QUIT_WITH_FAILURE
          then GO_TO_NEXT_STEP
          else s.Action(ok))
  }

  /** The same step across an edit: everything but its number and flow is untouched. */
  ghost predicate SameStep(s: JobStep, t: JobStep, pos: Numbering, isLast: bool, wasLast: bool) {
    && t.Body() == s.Body()
    && BranchFollows(s, t, true, pos, isLast, wasLast)
    && BranchFollows(s, t, false, pos, isLast, wasLast)
  }

  ghost predicate StepFollows(before: JobDefinition, after: JobDefinition, pos: Numbering, id: int)
    requires pos(id).Some? && 1 <= pos(id).value <= |after.steps| && 1 <= id <= |Ordered(before.steps)|
  {
    var p := pos(id).value;
    SameStep(StepWithId(before, id), after.steps[p - 1], pos, p == |after.steps|, id == |before.steps|)
  }

  /** `after` is `before` with its surviving steps renumbered by `pos`. */
  ghost predicate Renames(before: JobDefinition, after: JobDefinition, pos: Numbering) {
    && after.(steps := before.steps, startStepId := before.startStepId) == before
    && (forall i :: 0 <= i < |after.steps| ==> after.steps[i].stepId == i + 1)
    && (forall id :: pos(id).Some? ==> 1 <= id <= |Ordered(before.steps)| && 1 <= pos(id).value <= |after.steps|)
    && (forall a, b :: pos(a).Some? && pos(a) == pos(b) ==> a == b)
    && (forall id :: pos(id).Some? ==> StepFollows(before, after, pos, id))
  }

  ghost predicate StartFollows(before: JobDefinition, after: JobDefinition, pos: Numbering) {
    after.startStepId == if pos(before.startStepId).Some? then pos(before.startStepId).value else 1
  }

  // ---- arrangements of the nodes -------------------------------------------

  /** An ordered step list numbered 1..n. */
  ghost predicate InOrder(o: seq<JobStep>) {
    forall i :: 0 <= i < |o| ==> o[i].stepId == i + 1
  }

  ghost predicate IsNode(o: seq<JobStep>, v: Vertex) {
    if v.key < |o| then v == VertexAt(o, v.key)
    else v.onSuccessTarget.None? && v.onFailTarget.None? && !v.wasLast
  }

  ghost predicate DistinctKeys(nodes: seq<Vertex>) {
    forall j, k :: 0 <= j < k < |nodes| ==> nodes[j].key != nodes[k].key
  }

  /** A list made of the job's nodes and new ones, none of them twice. */
  ghost predicate Arranged(o: seq<JobStep>, nodes: seq<Vertex>) {
    (forall k :: 0 <= k < |nodes| ==> IsNode(o, nodes[k])) && DistinctKeys(nodes)
  }

  /** `pos` is where the arrangement puts each of `n` steps. */
  ghost predicate Positions(n: nat, nodes: seq<Vertex>, pos: Numbering) {
    && (forall id :: pos(id).Some? ==>
          1 <= id <= n && 1 <= pos(id).value <= |nodes| && nodes[pos(id).value - 1].key == id - 1)
    && (forall id, k :: 1 <= id <= n && pos(id).None? && 0 <= k < |nodes| ==> nodes[k].key != id - 1)
  }

  lemma IndexOfNumbered(o: seq<JobStep>, t: int)
    requires InOrder(o)
    ensures LastIndex(o, t) == FirstIndex(o, t) == if 1 <= t <= |o| then Some(t - 1) else None
  {
    if 1 <= t <= |o| { assert o[t - 1].stepId == t; }
  }

  /** A jump resolves to its target's new number, or to nothing when the target is gone. */
  lemma ResolvedPosition(n: nat, nodes: seq<Vertex>, pos: Numbering, t: int)
    requires DistinctKeys(nodes) && Positions(n, nodes, pos)
    ensures PositionOf(nodes, if 1 <= t <= n then Some(t - 1) else None) ==
            if pos(t).Some? then Some(pos(t).value - 1) else None
  {
    var target := if 1 <= t <= n then Some(t - 1) else None;
    var p := PositionOf(nodes, target);
    if pos(t).Some? {
      assert nodes[pos(t).value - 1].key == t - 1;
      assert p.Some?;
    }
  }

  /** Each branch, and the rest of the step, on its own. */
  lemma RebuiltBranch(nodes: seq<Vertex>, k: nat, s: JobStep, ok: bool, pos: Numbering, wasLast: bool)
    requires k < |nodes| && nodes[k].step == s && nodes[k].wasLast == wasLast
    requires s.Action(ok) == GO_TO_STEP ==>
      PositionOf(nodes, if ok then nodes[k].onSuccessTarget else nodes[k].onFailTarget) ==
      if pos(s.Target(ok)).Some? then Some(pos(s.Target(ok)).value - 1) else None
    ensures BranchFollows(s, RebuildStep(nodes, k).0, ok, pos, k + 1 == |nodes|, wasLast)
  {
    hide PositionOf;
  }

  lemma RebuiltBody(nodes: seq<Vertex>, k: nat)
    requires k < |nodes|
    ensures RebuildStep(nodes, k).0.Body() == nodes[k].step.Body()
  {
    hide PositionOf;
  }

  lemma RebuiltBranches(nodes: seq<Vertex>, k: nat, s: JobStep, pos: Numbering, wasLast: bool)
    requires k < |nodes| && nodes[k].step == s && nodes[k].wasLast == wasLast
    requires s.onSuccessAction == GO_TO_STEP ==>
      PositionOf(nodes, nodes[k].onSuccessTarget) ==
      if pos(s.onSuccessStepId).Some? then Some(pos(s.onSuccessStepId).value - 1) else None
    requires s.onFailAction == GO_TO_STEP ==>
      PositionOf(nodes, nodes[k].onFailTarget) ==
      if pos(s.onFailStepId).Some? then Some(pos(s.onFailStepId).value - 1) else None
    ensures SameStep(s, RebuildStep(nodes, k).0, pos, k + 1 == |nodes|, wasLast)
  {
    hide PositionOf, RebuildStep, BranchFollows;
    RebuiltBody(nodes, k);
    RebuiltBranch(nodes, k, s, true, pos, wasLast);
    RebuiltBranch(nodes, k, s, false, pos, wasLast);
  }

  lemma RebuiltStepFollows(o: seq<JobStep>, nodes: seq<Vertex>, pos: Numbering, id: int)
    requires InOrder(o) && Arranged(o, nodes) && Positions(|o|, nodes, pos) && pos(id).Some?
    ensures SameStep(o[id - 1], RebuildStep(nodes, pos(id).value - 1).0, pos, pos(id).value == |nodes|, id == |o|)
  {
    hide PositionOf, RebuildStep, SameStep, FirstIndex, LastIndex;
    var k, s := pos(id).value - 1, o[id - 1];
    assert IsNode(o, nodes[k]);
    IndexOfNumbered(o, s.onSuccessStepId);
    IndexOfNumbered(o, s.onFailStepId);
    ResolvedPosition(|o|, nodes, pos, s.onSuccessStepId);
    ResolvedPosition(|o|, nodes, pos, s.onFailStepId);
    RebuiltBranches(nodes, k, s, pos, id == |o|);
  }

  lemma RebuiltNumber(nodes: seq<Vertex>, k: nat)
    requires k < |nodes|
    ensures RebuildStep(nodes, k).0.stepId == k + 1
  {}

  lemma PositionsInjective(n: nat, nodes: seq<Vertex>, pos: Numbering, a: int, b: int)
    requires Positions(n, nodes, pos) && pos(a).Some? && pos(a) == pos(b)
    ensures a == b
  {}

  /** Any arrangement comes out of `rebuild` as a renaming. */
  lemma RebuildRenames(def: JobDefinition, nodes: seq<Vertex>, removed: seq<Vertex>, pos: Numbering)
    requires Numbered(def.steps)
    requires Arranged(Ordered(def.steps), nodes) && Positions(|def.steps|, nodes, pos)
    ensures Renames(def, Rebuild(def, nodes, removed).definition, pos)
  {
    OrderedNumbered(def.steps);
    var after := Rebuild(def, nodes, removed).definition;
    assert after.steps == RebuildUpTo(nodes, |nodes|);
    RebuiltStepsRename(def, Ordered(def.steps), nodes, after, pos);
  }

  lemma RebuiltStepsRename(def: JobDefinition, o: seq<JobStep>, nodes: seq<Vertex>, after: JobDefinition,
                           pos: Numbering)
    requires o == Ordered(def.steps) && |o| == |def.steps| && InOrder(o)
    requires Arranged(o, nodes) && Positions(|o|, nodes, pos)
    requires after == def.(steps := RebuildUpTo(nodes, |nodes|), startStepId := after.startStepId)
    ensures Renames(def, after, pos)
  {
    forall i | 0 <= i < |after.steps| ensures after.steps[i].stepId == i + 1 { RebuiltNumber(nodes, i); }
    forall id | pos(id).Some?
      ensures 1 <= id <= |o| && 1 <= pos(id).value <= |after.steps| && StepFollows(def, after, pos, id)
    {
      RebuiltStepFollows(o, nodes, pos, id);
    }
    forall a, b | pos(a).Some? && pos(a) == pos(b) ensures a == b {
      PositionsInjective(|o|, nodes, pos, a, b);
    }
  }
}
