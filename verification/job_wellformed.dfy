/** Well-formed jobs, and why no sequence of edits can leave them. */
module JobWellFormed {
  import opened Wrappers
  import opened JobModel
  import opened JobFlow
  import opened JobEdit
  import opened JobGraph
  import opened JobRenaming

  /** A branch names an existing step or nothing at all, and never falls off the end. */
  ghost predicate BranchWithin(s: JobStep, ok: bool, n: nat, isLast: bool) {
    && (if s.Action(ok) == GO_TO_STEP then 1 <= s.Target(ok) <= n else s.Target(ok) == 0)
    && (isLast ==> s.Action(ok) != GO_TO_NEXT_STEP)
  }

  ghost predicate StepWithin(s: JobStep, n: nat) {
    BranchWithin(s, true, n, s.stepId == n) && BranchWithin(s, false, n, s.stepId == n)
  }

  ghost predicate WellFormed(def: JobDefinition) {
    && Numbered(def.steps)
    && StartExists(def)
    && forall i :: 0 <= i < |def.steps| ==> StepWithin(def.steps[i], |def.steps|)
  }

  /** On a job numbered 1..n, "in 1..n" and "names a step" are the same thing. */
  lemma NumberedHasStep(def: JobDefinition, id: int)
    requires Numbered(def.steps)
    ensures HasStep(def, id) <==> 1 <= id <= |def.steps|
  {
    if 1 <= id <= |def.steps| {
      OrderedNumbered(def.steps);
      var s := Ordered(def.steps)[id - 1];
      assert s in def.steps;
      var i :| 0 <= i < |def.steps| && def.steps[i] == s;
    }
  }

  lemma OrderedWithin(def: JobDefinition, id: int)
    requires WellFormed(def) && 1 <= id <= |def.steps|
    ensures |Ordered(def.steps)| == |def.steps|
    ensures StepWithId(def, id).stepId == id && StepWithin(StepWithId(def, id), |def.steps|)
  {
    OrderedNumbered(def.steps);
    var s := Ordered(def.steps)[id - 1];
    assert s in def.steps;
  }

  lemma SameStepWithin(s: JobStep, t: JobStep, pos: Numbering, m: nat, wasLast: bool)
    requires SameStep(s, t, pos, t.stepId == m, wasLast)
    requires forall id :: pos(id).Some? ==> 1 <= pos(id).value <= m
    requires wasLast ==> s.onSuccessAction != GO_TO_NEXT_STEP && s.onFailAction != GO_TO_NEXT_STEP
    ensures StepWithin(t, m)
  {}

  lemma RenamedWithin(def: JobDefinition, after: JobDefinition, pos: Numbering, id: int)
    requires WellFormed(def) && Renames(def, after, pos) && pos(id).Some?
    ensures 1 <= pos(id).value <= |after.steps|
    ensures StepWithin(after.steps[pos(id).value - 1], |after.steps|)
  {
    assert StepFollows(def, after, pos, id);
    OrderedNumbered(def.steps);
    OrderedWithin(def, id);
    SameStepWithin(StepWithId(def, id), after.steps[pos(id).value - 1], pos, |after.steps|, id == |def.steps|);
  }

  lemma InOrderIsNumbered(steps: seq<JobStep>)
    requires InOrder(steps)
    ensures Numbered(steps)
  {}

  /** Slot `i` of the renamed list holds a surviving step. */
  ghost predicate Filled(pos: Numbering, i: nat) {
    exists id :: pos(id) == Some(i + 1)
  }

  /** A renaming is well-formed when every slot holds a surviving step or a well-formed new one. */
  lemma RenamingWellFormed(def: JobDefinition, after: JobDefinition, pos: Numbering)
    requires WellFormed(def) && Renames(def, after, pos) && StartExists(after)
    requires forall i :: 0 <= i < |after.steps| ==> StepWithin(after.steps[i], |after.steps|) || Filled(pos, i)
    ensures WellFormed(after)
  {
    InOrderIsNumbered(after.steps);
    forall i | 0 <= i < |after.steps| ensures StepWithin(after.steps[i], |after.steps|) {
      if Filled(pos, i) {
        var id :| pos(id) == Some(i + 1);
        RenamedWithin(def, after, pos, id);
      }
    }
  }

  lemma AddedWellFormed(def: JobDefinition, after: JobDefinition, at: nat, created: JobStep)
    requires WellFormed(def) && at <= |def.steps| && |after.steps| == |def.steps| + 1 && StartExists(after)
    requires Renames(def, after, AddedPositions(|def.steps|, at))
    requires SameStep(created, after.steps[at], NoPositions(), at == |def.steps|, false)
    ensures WellFormed(after)
  {
    var pos := AddedPositions(|def.steps|, at);
    assert after.steps[at].stepId == at + 1;
    SameStepWithin(created, after.steps[at], NoPositions(), |after.steps|, false);
    forall i | 0 <= i < |after.steps| && i != at ensures Filled(pos, i) {
      assert pos(if i < at then i + 1 else i) == Some(i + 1);
    }
    RenamingWellFormed(def, after, pos);
  }

  lemma RebuildStartExists(def: JobDefinition, nodes: seq<Vertex>, removed: seq<Vertex>)
    requires |nodes| >= 1
    ensures StartExists(Rebuild(def, nodes, removed).definition)
  {}

  lemma AddKeepsWellFormed(def: JobDefinition, afterStepId: Option<int>, created: JobStep)
    requires WellFormed(def)
    ensures WellFormed(AddStep(def, afterStepId, created).definition)
  {
    var at := AddIndex(def, afterStepId);
    AddStepRenames(def, afterStepId, created);
    AddStepIsRebuild(def, afterStepId, created);
    RebuildStartExists(def, AddedNodes(def, at, created), []);
    AddedWellFormed(def, AddStep(def, afterStepId, created).definition, at, created);
  }

  lemma RemovedWellFormed(def: JobDefinition, after: JobDefinition, id: int)
    requires WellFormed(def) && 1 <= id <= |def.steps| && |def.steps| > 1 && |after.steps| == |def.steps| - 1
    requires var pos := RemovedPositions(|def.steps|, id); Renames(def, after, pos) && StartFollows(def, after, pos)
    ensures WellFormed(after)
  {
    var pos := RemovedPositions(|def.steps|, id);
    forall i | 0 <= i < |after.steps| ensures Filled(pos, i) {
      assert pos(if i + 1 < id then i + 1 else i + 2) == Some(i + 1);
    }
    RenamingWellFormed(def, after, pos);
  }

  lemma RemoveKeepsWellFormed(def: JobDefinition, id: int)
    requires WellFormed(def)
    ensures WellFormed(RemoveStep(def, id).definition)
  {
    if 1 <= id <= |def.steps| && |def.steps| > 1 {
      RemoveStepRenames(def, id);
      RemovedWellFormed(def, RemoveStep(def, id).definition, id);
    } else {
      RemoveStepRefuses(def, id);
    }
  }

  lemma ShiftKeepsWellFormed(def: JobDefinition, after: JobDefinition, from: nat, to: nat)
    requires WellFormed(def) && from < |def.steps| && to < |def.steps| && |after.steps| == |def.steps|
    requires var pos := ShiftedPositions(|def.steps|, from, to);
      Renames(def, after, pos) && StartFollows(def, after, pos)
    ensures WellFormed(after)
  {
    hide Renames, StepWithin;
    var pos := ShiftedPositions(|def.steps|, from, to);
    ShiftedBack(from, to, def.startStepId - 1);
    forall i | 0 <= i < |after.steps| ensures Filled(pos, i) {
      ShiftedBack(to, from, i);
      assert pos(ShiftedIndex(to, from, i) + 1) == Some(i + 1);
    }
    RenamingWellFormed(def, after, pos);
  }

  lemma UnknownStepIsLeft(def: JobDefinition, id: int)
    requires Numbered(def.steps) && !(1 <= id <= |def.steps|)
    ensures DisableStep(def, id).definition == def && EnableStep(def, id).definition == def
  {
    OrderedNumbered(def.steps);
    IndexOfNumbered(Ordered(def.steps), id);
    NumberedHasStep(def, id);
    var s := FindStep(def.steps, id);
    assert s.None?;
  }

  lemma UnknownMoveIsLeft(def: JobDefinition, id: int, up: bool)
    requires FirstIndex(Ordered(def.steps), id).None?
    ensures MoveStep(def, id, up).definition == def
  {}

  /** A job renamed by a shift of one step, or left alone. */
  lemma ShiftedWellFormed(def: JobDefinition, after: JobDefinition, from: nat, to: int)
    requires WellFormed(def) && from < |def.steps|
    requires if 0 <= to < |def.steps| then
               var pos := ShiftedPositions(|def.steps|, from, to);
               |after.steps| == |def.steps| && Renames(def, after, pos) && StartFollows(def, after, pos)
             else after == def
    ensures WellFormed(after)
  {
    if 0 <= to < |def.steps| { ShiftKeepsWellFormed(def, after, from, to); }
  }

  lemma MovedWellFormed(def: JobDefinition, id: int, up: bool, after: JobDefinition)
    requires WellFormed(def) && 1 <= id <= |def.steps| && after == MoveStep(def, id, up).definition
    ensures WellFormed(after)
  {
    hide MoveStep, Renames, StartFollows, StepWithin;
    MoveStepRenames(def, id, up);
    ShiftedWellFormed(def, after, id - 1, if up then id - 2 else id);
  }

  lemma MoveKeepsWellFormed(def: JobDefinition, id: int, up: bool)
    requires WellFormed(def)
    ensures WellFormed(MoveStep(def, id, up).definition)
  {
    if 1 <= id <= |def.steps| {
      MovedWellFormed(def, id, up, MoveStep(def, id, up).definition);
    } else {
      OrderedNumbered(def.steps);
      IndexOfNumbered(Ordered(def.steps), id);
      UnknownMoveIsLeft(def, id, up);
    }
  }

  lemma DroppedWellFormed(def: JobDefinition, from: nat, to: nat)
    requires WellFormed(def) && from < |def.steps| && to < |def.steps|
    ensures |ToVertices(def)| == |def.steps|
    ensures WellFormed(Dropped(def, from, to).definition)
  {
    DroppedRenames(def, from, to);
    if to != from { ShiftKeepsWellFormed(def, Dropped(def, from, to).definition, from, to); }
  }

  lemma ReorderKeepsWellFormed(def: JobDefinition, id: int, toIndex: real)
    requires WellFormed(def)
    ensures WellFormed(ReorderStep(def, id, toIndex).definition)
  {
    ReorderedIndices(def, id, toIndex);
    var indices := ReorderIndices(def, id, toIndex);
    if indices.Some? { DroppedWellFormed(def, indices.value.0, indices.value.1); }
  }

  // ---- disable and enable --------------------------------------------------

  /** Where a branch of a well-formed job leads is a step of the job. */
  lemma NextIsStep(def: JobDefinition, s: JobStep, ok: bool)
    requires Numbered(def.steps) && StepWithin(s, |def.steps|)
    ensures NextStepAfter(def, s, ok).Some? ==> 1 <= NextStepAfter(def, s, ok).value <= |def.steps|
  {
    assert BranchWithin(s, ok, |def.steps|, s.stepId == |def.steps|);
  }

  lemma BypassIsStep(def: JobDefinition, id: int)
    requires WellFormed(def)
    ensures Bypass(def, id).Some? ==> 1 <= Bypass(def, id).value <= |def.steps|
  {
    var target := FindStep(def.steps, id);
    if target.Some? {
      assert target.value in def.steps;
      NextIsStep(def, target.value, true);
    }
  }

  lemma RoutedWithin(def: JobDefinition, s: JobStep, id: int, bypass: Option<int>, n: nat)
    requires StepWithin(s, n) && (bypass.Some? ==> 1 <= bypass.value <= n)
    ensures RouteStep(def, s, id, bypass).stepId == s.stepId && StepWithin(RouteStep(def, s, id, bypass), n)
  {}

  lemma SameIdsNumbered(a: seq<JobStep>, b: seq<JobStep>)
    requires Numbered(a) && |a| == |b| && forall i :: 0 <= i < |a| ==> a[i].stepId == b[i].stepId
    ensures Numbered(b)
  {}

  lemma DisableKeepsWellFormed(def: JobDefinition, id: int)
    requires WellFormed(def)
    ensures WellFormed(DisableStep(def, id).definition)
  {
    BypassIsStep(def, id);
    var routed, n := Routed(def, id), |def.steps|;
    forall i | 0 <= i < n ensures routed[i].stepId == def.steps[i].stepId && StepWithin(routed[i], n) {
      RoutedWithin(def, def.steps[i], id, Bypass(def, id), n);
    }
    SameIdsNumbered(def.steps, routed);
  }

  lemma RestoredWithin(def: JobDefinition, s: JobStep, id: int, previous: Option<int>, bypass: Option<int>, n: nat)
    requires StepWithin(s, n) && (previous.Some? ==> previous.value < n)
    ensures RestoreStep(def, s, id, previous, bypass).stepId == s.stepId
    ensures StepWithin(RestoreStep(def, s, id, previous, bypass), n)
  {}

  lemma RestoredKeepsWellFormed(def: JobDefinition, id: int)
    requires WellFormed(def) && 1 <= id <= |def.steps| && |Ordered(def.steps)| == |def.steps|
    requires InOrder(Ordered(def.steps))
    ensures WellFormed(Restored(def, id, id - 1))
  {
    var o, n, after := Ordered(def.steps), |def.steps|, Restored(def, id, id - 1);
    var previous, bypass := PreviousId(o, id - 1), FollowingId(o, id - 1);
    forall i | 0 <= i < n ensures after.steps[i].stepId == def.steps[i].stepId && StepWithin(after.steps[i], n) {
      RestoredWithin(def, def.steps[i], id, previous, bypass, n);
    }
    SameIdsNumbered(def.steps, after.steps);
  }

  lemma EnableKeepsWellFormed(def: JobDefinition, id: int)
    requires WellFormed(def)
    ensures WellFormed(EnableStep(def, id).definition)
  {
    if 1 <= id <= |def.steps| {
      OrderedNumbered(def.steps);
      IndexOfNumbered(Ordered(def.steps), id);
      RestoredKeepsWellFormed(def, id);
    } else {
      UnknownStepIsLeft(def, id);
    }
  }

  // ---- any sequence --------------------------------------------------------

  lemma EditKeepsWellFormed(def: JobDefinition, edit: Edit)
    requires WellFormed(def)
    ensures WellFormed(Apply(def, edit).definition)
  {
    match edit {
      case Add(after, patch) => AddKeepsWellFormed(def, after, CreatedStep(def, patch));
      case Remove(id) => RemoveKeepsWellFormed(def, id);
      case Move(id, up) => MoveKeepsWellFormed(def, id, up);
      case Reorder(id, toIndex) => ReorderKeepsWellFormed(def, id, toIndex);
      case Disable(id) => DisableKeepsWellFormed(def, id);
      case Enable(id) => EnableKeepsWellFormed(def, id);
    }
  }

  /** No sequence of edits, in any order and on any steps, breaks a well-formed job. */
  lemma {:induction false} EditsKeepWellFormed(def: JobDefinition, edits: seq<Edit>)
    requires WellFormed(def)
    ensures WellFormed(ApplyAll(def, edits))
  {
    if edits != [] {
      EditsKeepWellFormed(def, edits[..|edits| - 1]);
      EditKeepsWellFormed(ApplyAll(def, edits[..|edits| - 1]), edits[|edits| - 1]);
    }
  }

  /** On a well-formed job the step inferred as running is one the job can reach. */
  lemma RunningStepIsReachable(def: JobDefinition, completed: seq<CompletedStep>)
    requires WellFormed(def) && IsHistory(def, completed) && InferRunningStep(def, completed).Some?
    ensures Reachable(def, InferRunningStep(def, completed).value)
  {
    var id := InferRunningStep(def, completed).value;
    InferredStepIsReachable(def, completed);
    if completed != [] {
      var last := completed[|completed| - 1];
      var step := FindStep(def.steps, last.stepId);
      assert step.Some? && step.value in def.steps;
      if last.runStatus != RETRY { NextIsStep(def, step.value, last.runStatus == SUCCEEDED); }
    }
    NumberedHasStep(def, id);
    NumberedHasStep(def, def.startStepId);
  }
}
