/** When an edit can be taken back: exact conditions on well-formed jobs. */
module JobRoundTrip {
  import opened Wrappers
  import opened JobModel
  import opened JobFlow
  import opened JobEdit
  import opened JobDisable
  import opened JobGraph
  import opened JobRenaming
  import opened JobWellFormed

  // ---- disable, then enable ------------------------------------------------

  /** The step listed below `id`, where re-enabling assumes the traffic was sent. */
  function Below(n: nat, id: int): Option<int> {
    if id < n then Some(id + 1) else None
  }

  /** Does `enableStep` rewire anything after `disableStep` has? Not if the step loops and still runs. */
  ghost predicate Rewires(def: JobDefinition, id: int) {
    !(LoopsOnSuccess(def, id) && Reachable(def, id))
  }

  /** One branch comes back unchanged. */
  ghost predicate BranchReversible(def: JobDefinition, id: int, s: JobStep, ok: bool) {
    var bypass, below := Bypass(def, id), Below(|def.steps|, id);
    if s.stepId == id then true
    else if s.Action(ok) == GO_TO_STEP && s.Target(ok) == id then
      // An explicit jump into the step is lost, unless the step loops onto itself.
      LoopsOnSuccess(def, id)
    else if s.stepId != id - 1 then true
    else if s.Action(ok) == GO_TO_NEXT_STEP then
      // A fall-through comes back if the bypass looks like the chain that was there.
      !LoopsOnSuccess(def, id) && (if bypass.Some? then bypass == below else ok && below.None?)
    else
      // A branch that was never touched must not look like one that was.
      Rewires(def, id) ==>
        && !(s.Action(ok) == GO_TO_STEP && below == Some(s.Target(ok)))
        && !(ok && below.None? && s.Action(ok) == QUIT_WITH_SUCCESS)
  }

  ghost predicate StartReversible(def: JobDefinition, id: int) {
    Rewires(def, id) ==>
      if id == 1 then def.startStepId == 1 else def.startStepId != id || LoopsOnSuccess(def, id)
  }

  /** What a caller can check before disabling to know that re-enabling will undo it. */
  ghost predicate Reversible(def: JobDefinition, id: int) {
    Disables(def, id) ==>
      && StartReversible(def, id)
      && forall i :: 0 <= i < |def.steps| ==>
           BranchReversible(def, id, def.steps[i], true) && BranchReversible(def, id, def.steps[i], false)
  }

  lemma NextIdNumbered(steps: seq<JobStep>, id: int)
    requires Numbered(steps) && 1 <= id <= |steps|
    ensures NextId(steps, id) == Below(|steps|, id)
  {
    hide NextId, Ordered;
    OrderedNumbered(steps);
    if id < |steps| {
      var s := Ordered(steps)[id];
      var i :| 0 <= i < |steps| && steps[i] == s;
      assert steps[i].stepId == id + 1;
    }
  }

  ghost predicate SameBranch(s: JobStep, t: JobStep, ok: bool) {
    t.Action(ok) == s.Action(ok) && t.Target(ok) == s.Target(ok)
  }

  lemma SameBranches(s: JobStep, t: JobStep)
    requires t.stepId == s.stepId && t.Body() == s.Body()
    ensures s == t <==> SameBranch(s, t, true) && SameBranch(s, t, false)
  {}

  lemma RouteKeepsBody(def: JobDefinition, s: JobStep, id: int, bypass: Option<int>)
    ensures RouteStep(def, s, id, bypass).Body() == s.Body() && RouteStep(def, s, id, bypass).stepId == s.stepId
  {}

  lemma RestoreKeepsBody(def: JobDefinition, s: JobStep, id: int, previous: Option<int>, bypass: Option<int>)
    ensures RestoreStep(def, s, id, previous, bypass).Body() == s.Body()
    ensures RestoreStep(def, s, id, previous, bypass).stepId == s.stepId
  {}

  /** What restoring leaves on each branch of another step. */
  lemma RestoredBranch(def: JobDefinition, s: JobStep, id: int, previous: Option<int>, bypass: Option<int>, ok: bool)
    requires s.stepId != id
    ensures var r := RestoreStep(def, s, id, previous, bypass);
      if previous == Some(s.stepId) && NextStepAfter(def, s, ok) != Some(id) &&
         ((s.Action(ok) == GO_TO_STEP && bypass == Some(s.Target(ok))) ||
          (ok && bypass.None? && s.onSuccessAction == QUIT_WITH_SUCCESS))
      then r.Action(ok) == GO_TO_NEXT_STEP && r.Target(ok) == 0
      else SameBranch(s, r, ok)
  {}

  /** One branch of another step, through both edits. */
  lemma BranchRoundTrip(def: JobDefinition, d: JobDefinition, id: int, s: JobStep, ok: bool)
    requires s.stepId != id && 1 <= s.stepId <= |def.steps| && 1 <= id <= |def.steps|
    requires StepWithin(s, |def.steps|) && Bypass(def, id) != Some(0)
    requires NextId(def.steps, s.stepId) == NextId(d.steps, s.stepId) == Below(|def.steps|, s.stepId)
    requires Rewires(def, id)
    ensures var r := RouteStep(def, s, id, Bypass(def, id));
      var e := RestoreStep(d, r, id, if id > 1 then Some(id - 1) else None, Below(|def.steps|, id));
      SameBranch(s, e, ok) <==> BranchReversible(def, id, s, ok)
  {
    var bypass := Bypass(def, id);
    var r := RouteStep(def, s, id, bypass);
    RoutedBranch(def, s, id, bypass, ok);
    RouteKeepsBody(def, s, id, bypass);
    RoutedNext(def, d, s, id, bypass, ok);
    RestoredBranch(d, r, id, if id > 1 then Some(id - 1) else None, Below(|def.steps|, id), ok);
    assert BranchWithin(s, ok, |def.steps|, s.stepId == |def.steps|);
    assert ArrivesAt(def, s, ok, id) <==>
           (s.Action(ok) == GO_TO_STEP && s.Target(ok) == id) ||
           (s.Action(ok) == GO_TO_NEXT_STEP && s.stepId == id - 1);
  }

  /** The branch when only the first edit changes anything. */
  lemma BranchOneWay(def: JobDefinition, id: int, s: JobStep, ok: bool)
    requires s.stepId != id && 1 <= s.stepId <= |def.steps| && 1 <= id <= |def.steps|
    requires NextId(def.steps, s.stepId) == Below(|def.steps|, s.stepId)
    requires !Rewires(def, id)
    ensures SameBranch(s, RouteStep(def, s, id, Bypass(def, id)), ok) <==> BranchReversible(def, id, s, ok)
  {
    RoutedBranch(def, s, id, Bypass(def, id), ok);
    assert ArrivesAt(def, s, ok, id) <==>
           (s.Action(ok) == GO_TO_STEP && s.Target(ok) == id) ||
           (s.Action(ok) == GO_TO_NEXT_STEP && s.stepId == id - 1);
  }

  /** A whole step through both edits. */
  lemma StepRoundTrip(def: JobDefinition, d: JobDefinition, id: int, s: JobStep)
    requires 1 <= s.stepId <= |def.steps| && 1 <= id <= |def.steps|
    requires StepWithin(s, |def.steps|) && Bypass(def, id) != Some(0)
    requires NextId(def.steps, s.stepId) == NextId(d.steps, s.stepId) == Below(|def.steps|, s.stepId)
    ensures var r := RouteStep(def, s, id, Bypass(def, id));
      var e := if Rewires(def, id)
               then RestoreStep(d, r, id, if id > 1 then Some(id - 1) else None, Below(|def.steps|, id)) else r;
      e == s <==> BranchReversible(def, id, s, true) && BranchReversible(def, id, s, false)
  {
    var r := RouteStep(def, s, id, Bypass(def, id));
    RouteKeepsBody(def, s, id, Bypass(def, id));
    if s.stepId == id {
      assert BranchWithin(s, true, |def.steps|, s.stepId == |def.steps|);
    } else if Rewires(def, id) {
      BranchRoundTrip(def, d, id, s, true);
      BranchRoundTrip(def, d, id, s, false);
      RestoreKeepsBody(d, r, id, if id > 1 then Some(id - 1) else None, Below(|def.steps|, id));
      SameBranches(s, RestoreStep(d, r, id, if id > 1 then Some(id - 1) else None, Below(|def.steps|, id)));
    } else {
      BranchOneWay(def, id, s, true);
      BranchOneWay(def, id, s, false);
      SameBranches(s, r);
    }
  }

  lemma ProperFromWellFormed(def: JobDefinition)
    requires WellFormed(def)
    ensures ProperIds(def)
  {}

  /** A step the edit refuses to disable is the start step, so enabling leaves it alone too. */
  lemma RefusedIsReachable(def: JobDefinition, id: int)
    requires WellFormed(def) && 1 <= id <= |def.steps| && !Disables(def, id)
    ensures DisableStep(def, id).definition == def && Reachable(def, id)
  {
    NumberedHasStep(def, id);
    assert def.startStepId == id;
    assert IsRun(def, []) && Current(def, []) == Some(id);
  }

  /** `e` is `d` with the step put back, or `d` itself when nothing is rewired. */
  ghost predicate PutBack(d: JobDefinition, e: JobDefinition, id: int, rewired: bool) {
    && e.(steps := d.steps, startStepId := d.startStepId) == d
    && |e.steps| == |d.steps|
    && e.startStepId == (if rewired && id == 1 then 1 else d.startStepId)
    && forall i :: 0 <= i < |d.steps| ==>
         e.steps[i] == (if rewired
                        then RestoreStep(d, d.steps[i], id, if id > 1 then Some(id - 1) else None, Below(|d.steps|, id))
                        else d.steps[i])
  }

  lemma RestoredPutsBack(d: JobDefinition, id: int)
    requires 1 <= id <= |Ordered(d.steps)| == |d.steps| && InOrder(Ordered(d.steps))
    ensures PutBack(d, Restored(d, id, id - 1), id, true)
  {
    var o := Ordered(d.steps);
    assert PreviousId(o, id - 1) == if id > 1 then Some(id - 1) else None;
    assert FollowingId(o, id - 1) == Below(|d.steps|, id);
  }

  lemma LeftPutBack(d: JobDefinition, id: int)
    ensures PutBack(d, d, id, false)
  {}

  lemma EnablePutsBack(d: JobDefinition, id: int)
    requires Numbered(d.steps) && 1 <= id <= |d.steps|
    ensures PutBack(d, EnableStep(d, id).definition, id, !Reachable(d, id))
  {
    LeftPutBack(d, id);
    hide Restored, PutBack;
    OrderedNumbered(d.steps);
    IndexOfNumbered(Ordered(d.steps), id);
    RestoredPutsBack(d, id);
  }

  lemma StepsRoundTrip(def: JobDefinition, d: JobDefinition, e: JobDefinition, id: int)
    requires WellFormed(def) && 1 <= id <= |def.steps| && Bypass(def, id) != Some(0)
    requires Numbered(d.steps) && d.steps == Routed(def, id) && PutBack(d, e, id, Rewires(def, id))
    ensures e.steps == def.steps <==>
      forall i :: 0 <= i < |def.steps| ==>
        BranchReversible(def, id, def.steps[i], true) && BranchReversible(def, id, def.steps[i], false)
  {
    forall i | 0 <= i < |def.steps|
      ensures e.steps[i] == def.steps[i] <==>
              BranchReversible(def, id, def.steps[i], true) && BranchReversible(def, id, def.steps[i], false)
    {
      NextIdNumbered(def.steps, def.steps[i].stepId);
      NextIdNumbered(d.steps, def.steps[i].stepId);
      StepRoundTrip(def, d, id, def.steps[i]);
    }
    assert e.steps == def.steps <==> forall i :: 0 <= i < |def.steps| ==> e.steps[i] == def.steps[i];
  }

  lemma DisabledParts(def: JobDefinition, id: int)
    requires Disables(def, id)
    ensures Disabled(def, id) == def.(steps := Routed(def, id),
      startStepId := if def.startStepId == id then Bypass(def, id).value else def.startStepId)
  {}

  lemma RefusedRoundTrip(def: JobDefinition, id: int)
    requires WellFormed(def) && 1 <= id <= |def.steps| && !Disables(def, id)
    ensures EnableStep(DisableStep(def, id).definition, id).definition == def
  {
    RefusedIsReachable(def, id);
    EnablePutsBack(def, id);
  }

  lemma JobRoundTrips(def: JobDefinition, d: JobDefinition, e: JobDefinition, id: int)
    requires WellFormed(def) && 1 <= id <= |def.steps| && Disables(def, id)
    requires Bypass(def, id) != Some(0)
    requires Numbered(d.steps) && PutBack(d, e, id, Rewires(def, id))
    requires d == def.(steps := Routed(def, id),
      startStepId := if def.startStepId == id then Bypass(def, id).value else def.startStepId)
    ensures e == def <==> Reversible(def, id)
  {
    hide Routed, BranchReversible, Numbered, RestoreStep;
    StepsRoundTrip(def, d, e, id);
    assert e.(steps := def.steps, startStepId := def.startStepId) == def;
    assert e == def <==> e.steps == def.steps && e.startStepId == def.startStepId;
    assert e.startStepId == def.startStepId <==> StartReversible(def, id);
  }

  lemma DisabledPutBack(def: JobDefinition, id: int)
    requires WellFormed(def) && 1 <= id <= |def.steps| && Disables(def, id)
    ensures Numbered(Disabled(def, id).steps)
    ensures PutBack(Disabled(def, id), EnableStep(Disabled(def, id), id).definition, id, Rewires(def, id))
  {
    ProperFromWellFormed(def);
    DisableKeepsWellFormed(def, id);
    DisabledIsUnreachable(def, id);
    EnablePutsBack(Disabled(def, id), id);
  }

  /**
   * Re-enabling undoes disabling exactly when the job meets `Reversible`, for
   * every step of every well-formed job.
   */
  lemma EnableUndoesDisable(def: JobDefinition, id: int)
    requires WellFormed(def) && 1 <= id <= |def.steps|
    ensures EnableStep(DisableStep(def, id).definition, id).definition == def <==> Reversible(def, id)
  {
    if !Disables(def, id) {
      RefusedRoundTrip(def, id);
    } else {
      DisabledPutBack(def, id);
      DisabledParts(def, id);
      BypassIsStep(def, id);
      JobRoundTrips(def, Disabled(def, id), EnableStep(Disabled(def, id), id).definition, id);
    }
  }

  /** The everyday case: an inner step of a chain, entered only by falling through. */
  lemma ChainStepIsReversible(def: JobDefinition, id: int)
    requires WellFormed(def) && 1 < id < |def.steps| && def.startStepId != id
    requires Bypass(def, id) == Some(id + 1)
    requires forall i, ok :: 0 <= i < |def.steps| && def.steps[i].stepId != id ==>
      !(def.steps[i].Action(ok) == GO_TO_STEP && def.steps[i].Target(ok) == id)
    requires forall i, ok :: 0 <= i < |def.steps| && def.steps[i].stepId == id - 1 ==>
      !(def.steps[i].Action(ok) == GO_TO_STEP && def.steps[i].Target(ok) == id + 1)
    ensures Reversible(def, id)
  {}

  /** A step that quits in the middle of the chain is not put back under the step that fell into it. */
  lemma QuittingStepIsNotRestored(def: JobDefinition, id: int, above: nat)
    requires WellFormed(def) && 1 < id < |def.steps| && Disables(def, id) && Bypass(def, id).None?
    requires above < |def.steps| && def.steps[above].stepId == id - 1
    requires def.steps[above].onSuccessAction == GO_TO_NEXT_STEP
    ensures EnableStep(DisableStep(def, id).definition, id).definition != def
  {
    EnableUndoesDisable(def, id);
    assert !BranchReversible(def, id, def.steps[above], true);
  }

  // ---- move away, then back ------------------------------------------------

  /** A step that can stand last for a while and come back unchanged. */
  predicate RestorableAtEnd(s: JobStep) {
    (s.onSuccessAction == GO_TO_NEXT_STEP && s.onFailAction == QUIT_WITH_FAILURE) ||
    (s.onSuccessAction != GO_TO_NEXT_STEP && s.onFailAction != GO_TO_NEXT_STEP && !EndsAutomatically(s))
  }

  /** Index of the step that stands last while the step from `from` is at `to`. */
  function LastMeanwhile(n: nat, from: nat, to: nat): int
    requires n > 0
  {
    ShiftedIndex(to, from, n - 1)
  }

  /** Moving from one slot to another and back is harmless at the end of the list. */
  predicate EndSurvives(o: seq<JobStep>, from: nat, to: nat)
    requires from < |o| && to < |o|
  {
    var p := LastMeanwhile(|o|, from, to);
    p == |o| - 1 || (0 <= p < |o| && RestorableAtEnd(o[p]))
  }

  /** One branch through both edits: `s` became `t`, which became `u`. */
  lemma BranchThereAndBack(s: JobStep, t: JobStep, u: JobStep, ok: bool, p: Numbering, q: Numbering, n: nat,
                           isLast: bool, wasLast: bool)
    requires BranchFollows(s, t, ok, p, isLast, wasLast) && BranchFollows(t, u, ok, q, wasLast, isLast)
    requires BranchWithin(s, ok, n, wasLast)
    requires forall id :: 1 <= id <= n ==> p(id).Some? && q(p(id).value) == Some(id)
    ensures u.Target(ok) == s.Target(ok)
    ensures s.Action(ok) == GO_TO_STEP || isLast == wasLast ==> u.Action(ok) == s.Action(ok)
    ensures !ok && s.Action(ok) != GO_TO_STEP && isLast && !wasLast ==>
      t.Action(ok) == u.Action(ok) == if s.Action(ok) == GO_TO_NEXT_STEP then QUIT_WITH_FAILURE else s.Action(ok)
    ensures !ok && s.Action(ok) != GO_TO_STEP && !isLast && wasLast ==> u.Action(ok) == s.Action(ok)
  {
    if s.Action(ok) == GO_TO_STEP {
      assert p(s.Target(ok)).Some?;
    }
  }

  /** A step comes back unchanged unless it stood last in the meantime and does not survive that. */
  lemma StepThereAndBack(s: JobStep, t: JobStep, u: JobStep, p: Numbering, q: Numbering, n: nat, isLast: bool)
    requires SameStep(s, t, p, isLast, s.stepId == n) && SameStep(t, u, q, s.stepId == n, isLast)
    requires StepWithin(s, n) && u.stepId == s.stepId
    requires forall id :: 1 <= id <= n ==> p(id).Some? && q(p(id).value) == Some(id)
    ensures u == s <==> (isLast && s.stepId != n ==> RestorableAtEnd(s))
  {
    BranchThereAndBack(s, t, u, true, p, q, n, isLast, s.stepId == n);
    BranchThereAndBack(s, t, u, false, p, q, n, isLast, s.stepId == n);
    SameBranches(s, u);
  }

  lemma ShiftedPositionsBack(n: nat, from: nat, to: nat)
    requires from < n && to < n
    ensures forall id :: 1 <= id <= n ==>
      ShiftedPositions(n, from, to)(id).Some? &&
      ShiftedPositions(n, to, from)(ShiftedPositions(n, from, to)(id).value) == Some(id)
  {
    forall id | 1 <= id <= n
      ensures ShiftedPositions(n, to, from)(ShiftedPositions(n, from, to)(id).value) == Some(id)
    {
      ShiftedBack(from, to, id - 1);
    }
  }

  lemma PositionThereAndBack(n: nat, from: nat, to: nat, i: nat)
    requires from < n && to < n && i < n
    ensures var p, q := ShiftedPositions(n, from, to), ShiftedPositions(n, to, from);
      p(i + 1).Some? && q(p(i + 1).value) == Some(i + 1) && (p(i + 1).value == n <==> i == LastMeanwhile(n, from, to))
  {
    ShiftedPositionsBack(n, from, to);
    ShiftedBack(from, to, i);
    ShiftedBack(to, from, n - 1);
  }

  lemma RenamedThereAndBack(def: JobDefinition, d: JobDefinition, e: JobDefinition, p: Numbering, q: Numbering, i: nat)
    requires WellFormed(def) && i < |def.steps| == |d.steps| == |e.steps|
    requires Renames(def, d, p) && Renames(d, e, q)
    requires forall id :: 1 <= id <= |def.steps| ==> p(id).Some? && q(p(id).value) == Some(id)
    ensures |Ordered(def.steps)| == |def.steps|
    ensures e.steps[i] == Ordered(def.steps)[i] <==>
            (p(i + 1).value == |def.steps| && i != |def.steps| - 1 ==> RestorableAtEnd(Ordered(def.steps)[i]))
  {
    var t := FollowedStep(def, d, e, p, q, i);
    var n := |def.steps|;
    StepThereAndBack(Ordered(def.steps)[i], t, e.steps[i], p, q, n, p(i + 1).value == n);
  }

  lemma FollowedStep(def: JobDefinition, d: JobDefinition, e: JobDefinition, p: Numbering, q: Numbering, i: nat)
    returns (t: JobStep)
    requires WellFormed(def) && i < |def.steps| == |d.steps| == |e.steps|
    requires Renames(def, d, p) && Renames(d, e, q) && p(i + 1).Some? && q(p(i + 1).value) == Some(i + 1)
    ensures |Ordered(def.steps)| == |def.steps|
    ensures var n, s, last := |def.steps|, Ordered(def.steps)[i], p(i + 1).value == |def.steps|;
      && s.stepId == i + 1 == e.steps[i].stepId && StepWithin(s, n)
      && SameStep(s, t, p, last, s.stepId == n) && SameStep(t, e.steps[i], q, s.stepId == n, last)
  {
    FollowedThereAndBack(def, d, e, p, q, i + 1);
    OrderedNumbered(def.steps);
    OrderedWithin(def, i + 1);
    OrderedInOrder(d.steps);
    t := d.steps[p(i + 1).value - 1];
  }

  lemma StepsThereAndBack(def: JobDefinition, d: JobDefinition, e: JobDefinition, from: nat, to: nat, i: nat)
    requires WellFormed(def) && from < |def.steps| && to < |def.steps| && i < |def.steps|
    requires |d.steps| == |e.steps| == |def.steps|
    requires Renames(def, d, ShiftedPositions(|def.steps|, from, to))
    requires Renames(d, e, ShiftedPositions(|def.steps|, to, from))
    ensures |Ordered(def.steps)| == |def.steps|
    ensures e.steps[i] == Ordered(def.steps)[i] <==>
            (i == LastMeanwhile(|def.steps|, from, to) && i != |def.steps| - 1 ==>
               RestorableAtEnd(Ordered(def.steps)[i]))
  {
    var n, p, q := |def.steps|, ShiftedPositions(|def.steps|, from, to), ShiftedPositions(|def.steps|, to, from);
    ShiftedPositionsBack(n, from, to);
    PositionThereAndBack(n, from, to, i);
    RenamedThereAndBack(def, d, e, p, q, i);
  }

  /** The two renamings carry one step out and back. */
  lemma FollowedThereAndBack(def: JobDefinition, d: JobDefinition, e: JobDefinition, p: Numbering, q: Numbering,
                             id: int)
    requires Renames(def, d, p) && Renames(d, e, q) && p(id).Some? && q(p(id).value) == Some(id)
    ensures 1 <= id <= |Ordered(def.steps)| && 1 <= p(id).value <= |d.steps| && 1 <= id <= |e.steps|
    ensures 1 <= p(id).value <= |Ordered(d.steps)|
    ensures SameStep(StepWithId(def, id), d.steps[p(id).value - 1], p, p(id).value == |d.steps|, id == |def.steps|)
    ensures SameStep(StepWithId(d, p(id).value), e.steps[id - 1], q, id == |e.steps|, p(id).value == |d.steps|)
  {
    assert StepFollows(def, d, p, id);
    assert StepFollows(d, e, q, p(id).value);
  }

  lemma StartBackAgain(def: JobDefinition, d: JobDefinition, e: JobDefinition, p: Numbering, q: Numbering)
    requires StartExists(def) && StartFollows(def, d, p) && StartFollows(d, e, q)
    requires forall id :: 1 <= id <= |def.steps| ==> p(id).Some? && q(p(id).value) == Some(id)
    ensures e.startStepId == def.startStepId
  {}

  lemma RestBackAgain(def: JobDefinition, d: JobDefinition, e: JobDefinition)
    requires d.(steps := def.steps, startStepId := def.startStepId) == def
    requires e.(steps := d.steps, startStepId := d.startStepId) == d
    requires e.startStepId == def.startStepId
    ensures e == def <==> e.steps == def.steps
  {}

  lemma StepsBackAgain(def: JobDefinition, d: JobDefinition, e: JobDefinition, o: seq<JobStep>, from: nat, to: nat)
    requires WellFormed(def) && from < |def.steps| && to < |def.steps| && o == Ordered(def.steps)
    requires |d.steps| == |e.steps| == |def.steps| == |o|
    requires Renames(def, d, ShiftedPositions(|def.steps|, from, to))
    requires Renames(d, e, ShiftedPositions(|def.steps|, to, from))
    ensures e.steps == o <==> EndSurvives(o, from, to)
  {
    var n, last := |o|, LastMeanwhile(|o|, from, to);
    forall i | 0 <= i < n
      ensures e.steps[i] == o[i] <==> (i == last && i != n - 1 ==> RestorableAtEnd(o[i]))
    {
      StepsThereAndBack(def, d, e, from, to, i);
    }
    assert 0 <= last < n;
    if EndSurvives(o, from, to) {
      assert e.steps == o;
    } else {
      assert e.steps[last] != o[last];
    }
  }

  lemma InOrderOrNot(steps: seq<JobStep>, e: seq<JobStep>, o: seq<JobStep>, from: nat, to: nat)
    requires o == Ordered(steps) && |o| == |steps| && InOrder(e) && from < |o| && to < |o|
    requires e == o <==> EndSurvives(o, from, to)
    ensures e == steps <==> InOrder(steps) && EndSurvives(steps, from, to)
  {
    if InOrder(steps) { OrderedInOrder(steps); }
  }

  lemma BackAgain(def: JobDefinition, d: JobDefinition, e: JobDefinition, from: nat, to: nat)
    requires WellFormed(def) && from < |def.steps| && to < |def.steps|
    requires |d.steps| == |e.steps| == |def.steps|
    requires var p := ShiftedPositions(|def.steps|, from, to); Renames(def, d, p) && StartFollows(def, d, p)
    requires var q := ShiftedPositions(|def.steps|, to, from); Renames(d, e, q) && StartFollows(d, e, q)
    ensures e == def <==> InOrder(def.steps) && EndSurvives(def.steps, from, to)
  {
    var o, n := Ordered(def.steps), |def.steps|;
    assert |o| == n by { OrderedNumbered(def.steps); }
    assert e == def <==> e.steps == def.steps by {
      ShiftedPositionsBack(n, from, to);
      StartBackAgain(def, d, e, ShiftedPositions(n, from, to), ShiftedPositions(n, to, from));
      RestBackAgain(def, d, e);
    }
    StepsBackAgain(def, d, e, o, from, to);
    InOrderOrNot(def.steps, e.steps, o, from, to);
  }

  lemma TruncOfInt(k: int)
    ensures Trunc(k as real) == k
  {}

  /** What lifting one step out and dropping it elsewhere does, seen from outside. */
  ghost predicate Shifts(def: JobDefinition, after: JobDefinition, from: nat, to: nat)
    requires from < |def.steps| && to < |def.steps|
  {
    if to == from then after == def
    else
      var pos := ShiftedPositions(|def.steps|, from, to);
      |after.steps| == |def.steps| && Renames(def, after, pos) && StartFollows(def, after, pos)
  }

  lemma ReorderShifts(def: JobDefinition, id: int, toIndex: real, to: nat, after: JobDefinition)
    requires WellFormed(def) && 1 <= id <= |def.steps| && to == Clamp(Trunc(toIndex), 0, |def.steps| - 1)
    requires after == ReorderStep(def, id, toIndex).definition
    ensures WellFormed(after) && |after.steps| == |def.steps| && Shifts(def, after, id - 1, to)
  {
    ReorderStepRenames(def, id, toIndex);
    ReorderKeepsWellFormed(def, id, toIndex);
  }

  lemma BackShifts(d: JobDefinition, e: JobDefinition, from: nat, to: nat)
    requires WellFormed(d) && from < |d.steps| && to < |d.steps|
    requires e == ReorderStep(d, to + 1, from as real).definition
    ensures Shifts(d, e, to, from)
  {
    TruncOfInt(from);
    ReorderShifts(d, to + 1, from as real, from, e);
  }

  lemma ShiftedThereAndBack(def: JobDefinition, d: JobDefinition, e: JobDefinition, from: nat, to: nat)
    requires WellFormed(def) && from < |def.steps| && to < |def.steps| && |d.steps| == |def.steps|
    requires Shifts(def, d, from, to) && Shifts(d, e, to, from)
    ensures e == def <==> to == from || (InOrder(def.steps) && EndSurvives(def.steps, from, to))
  {
    if to != from { BackAgain(def, d, e, from, to); }
  }

  lemma DroppedBack(def: JobDefinition, d: JobDefinition, e: JobDefinition, from: nat, to: nat)
    requires WellFormed(def) && from < |def.steps| && to < |def.steps| && WellFormed(d)
    requires |d.steps| == |def.steps| && Shifts(def, d, from, to)
    requires e == ReorderStep(d, to + 1, from as real).definition
    ensures e == def <==> to == from || (InOrder(def.steps) && EndSurvives(def.steps, from, to))
  {
    BackShifts(d, e, from, to);
    ShiftedThereAndBack(def, d, e, from, to);
  }

  /**
   * Dragging a step to any slot and back restores the definition exactly when
   * the steps were listed in order and whichever step stood last meanwhile
   * survives that; in particular whenever the same step stays last throughout.
   */
  lemma ReorderAndBack(def: JobDefinition, id: int, toIndex: real, to: nat, d: JobDefinition, e: JobDefinition)
    requires WellFormed(def) && 1 <= id <= |def.steps| && to == Clamp(Trunc(toIndex), 0, |def.steps| - 1)
    requires d == ReorderStep(def, id, toIndex).definition
    requires e == ReorderStep(d, to + 1, (id - 1) as real).definition
    ensures e == def <==> to == id - 1 || (InOrder(def.steps) && EndSurvives(def.steps, id - 1, to))
  {
    hide WellFormed, InOrder, EndSurvives, Shifts, ReorderStep;
    ReorderShifts(def, id, toIndex, to, d);
    DroppedBack(def, d, e, id - 1, to);
  }

  lemma SameLastSurvives(o: seq<JobStep>, from: nat, to: nat)
    requires from < |o| - 1 && to < |o| - 1
    ensures EndSurvives(o, from, to)
  {}
}
