/** The flow of a job: which step follows which, which a run can visit, and which is running now. */
module JobFlow {
  import opened Wrappers
  import opened Sorting
  import opened JobModel

  // ---- one step ------------------------------------------------------------

  /** The id of the first step, in id order, above `id`. */
  function NextId(steps: seq<JobStep>, id: int): (r: Option<int>)
    ensures r.Some? ==> r.value > id && exists i :: 0 <= i < |steps| && steps[i].stepId == r.value
    ensures forall i :: 0 <= i < |steps| && steps[i].stepId > id ==> r.Some? && r.value <= steps[i].stepId
  {
    if steps == [] then None
    else
      var rest := NextId(steps[1..], id);
      assert rest.Some? ==> exists i :: 0 <= i < |steps| && steps[i].stepId == rest.value by {
        if rest.Some? {
          var j :| 0 <= j < |steps[1..]| && steps[1..][j].stepId == rest.value;
          assert steps[j + 1].stepId == rest.value;
        }
      }
      assert forall i :: 0 < i < |steps| ==> steps[i] == steps[1..][i - 1];
      if steps[0].stepId > id && (rest.None? || steps[0].stepId <= rest.value)
      then Some(steps[0].stepId)
      else rest
  }

  function NextStepAfter(def: JobDefinition, step: JobStep, succeeded: bool): Option<int> {
    if step.Action(succeeded) == GO_TO_STEP then
      (if step.Target(succeeded) == 0 then None else Some(step.Target(succeeded)))
    else if step.Action(succeeded) == GO_TO_NEXT_STEP then NextId(def.steps, step.stepId)
    else None
  }

  /** Where the job goes when the step with this id completes. */
  function Successor(def: JobDefinition, id: int, succeeded: bool): Option<int> {
    match LookupStep(def.steps, id)
    case None => None
    case Some(step) => NextStepAfter(def, step, succeeded)
  }

  /** `NextId` only looks at which ids there are. */
  lemma NextIdAtMost(a: seq<JobStep>, b: seq<JobStep>, id: int)
    requires |a| == |b| && forall i :: 0 <= i < |a| ==> a[i].stepId == b[i].stepId
    ensures var x, y := NextId(a, id), NextId(b, id); x.Some? ==> y.Some? && y.value <= x.value
  {
    var x := NextId(a, id);
    if x.Some? {
      var i :| 0 <= i < |a| && a[i].stepId == x.value;
      assert b[i].stepId == x.value;
    }
  }

  lemma NextIdOfSameIds(a: seq<JobStep>, b: seq<JobStep>, id: int)
    requires |a| == |b| && forall i :: 0 <= i < |a| ==> a[i].stepId == b[i].stepId
    ensures NextId(a, id) == NextId(b, id)
  {
    NextIdAtMost(a, b, id);
    NextIdAtMost(b, a, id);
  }

  // ---- runs ----------------------------------------------------------------

  /** One visit of a run: the step executed, and the outcome the environment chose for it. */
  datatype Visit = Visit(stepId: int, succeeded: bool)

  /** `tr` is what Agent does from the point `at` on. */
  ghost predicate RunsFrom(def: JobDefinition, at: Option<int>, tr: seq<Visit>)
    decreases |tr|
  {
    tr == [] ||
    (at == Some(tr[0].stepId) && HasStep(def, tr[0].stepId) &&
     RunsFrom(def, Successor(def, tr[0].stepId, tr[0].succeeded), tr[1..]))
  }

  /** Where Agent stands once the visits of `tr` are done. */
  ghost function EndOf(def: JobDefinition, at: Option<int>, tr: seq<Visit>): Option<int>
    decreases |tr|
  {
    if tr == [] then at
    else EndOf(def, Successor(def, tr[0].stepId, tr[0].succeeded), tr[1..])
  }

  ghost predicate IsRun(def: JobDefinition, tr: seq<Visit>) {
    RunsFrom(def, Some(def.startStepId), tr)
  }

  ghost function Current(def: JobDefinition, tr: seq<Visit>): Option<int> {
    EndOf(def, Some(def.startStepId), tr)
  }

  /** Nothing can follow: the flow quit, or it names a step that does not exist. */
  ghost predicate Finished(def: JobDefinition, tr: seq<Visit>) {
    Current(def, tr).None? || !HasStep(def, Current(def, tr).value)
  }

  /** Some run of the job is directed to `id`, whether or not such a step exists. */
  ghost predicate Arrives(def: JobDefinition, id: int) {
    exists tr :: IsRun(def, tr) && Current(def, tr) == Some(id)
  }

  ghost predicate Reachable(def: JobDefinition, id: int) {
    HasStep(def, id) && Arrives(def, id)
  }

  lemma {:induction false} RunAppend(def: JobDefinition, at: Option<int>, tr: seq<Visit>, v: Visit)
    ensures RunsFrom(def, at, tr + [v]) <==>
            RunsFrom(def, at, tr) && EndOf(def, at, tr) == Some(v.stepId) && HasStep(def, v.stepId)
    ensures EndOf(def, at, tr + [v]) == Successor(def, v.stepId, v.succeeded)
    decreases |tr|
  {
    if tr == [] {
      assert tr + [v] == [v] && [v][1..] == [];
    } else {
      assert (tr + [v])[1..] == tr[1..] + [v];
      RunAppend(def, Successor(def, tr[0].stepId, tr[0].succeeded), tr[1..], v);
    }
  }

  lemma ArrivesNext(def: JobDefinition, id: int, succeeded: bool)
    requires Reachable(def, id) && Successor(def, id, succeeded).Some?
    ensures Arrives(def, Successor(def, id, succeeded).value)
  {
    var tr :| IsRun(def, tr) && Current(def, tr) == Some(id);
    RunAppend(def, Some(def.startStepId), tr, Visit(id, succeeded));
    assert IsRun(def, tr + [Visit(id, succeeded)]);
  }

  /** A step is reachable exactly when some run ends by visiting it. */
  lemma ReachableIffVisited(def: JobDefinition, id: int)
    ensures Reachable(def, id) <==> exists tr: seq<Visit> :: IsRun(def, tr) && tr != [] && tr[|tr| - 1].stepId == id
  {
    if Reachable(def, id) {
      var tr :| IsRun(def, tr) && Current(def, tr) == Some(id);
      RunAppend(def, Some(def.startStepId), tr, Visit(id, true));
      assert IsRun(def, tr + [Visit(id, true)]);
    }
    if tr: seq<Visit> :| IsRun(def, tr) && tr != [] && tr[|tr| - 1].stepId == id {
      var init, last := tr[..|tr| - 1], tr[|tr| - 1];
      assert tr == init + [last];
      RunAppend(def, Some(def.startStepId), init, last);
      assert IsRun(def, init) && Current(def, init) == Some(id);
    }
  }

  // ---- reachability --------------------------------------------------------

  /** `ids` holds the start step and every existing successor of its members. */
  ghost predicate ClosedUnderFlow(def: JobDefinition, ids: set<int>) {
    && (HasStep(def, def.startStepId) ==> def.startStepId in ids)
    && forall id, ok :: id in ids ==>
         var next := Successor(def, id, ok);
         next.Some? && HasStep(def, next.value) ==> next.value in ids
  }

  lemma {:induction false} ClosedHoldsEnds(def: JobDefinition, ids: set<int>, tr: seq<Visit>)
    requires ClosedUnderFlow(def, ids) && IsRun(def, tr)
    requires Current(def, tr).Some? && HasStep(def, Current(def, tr).value)
    ensures Current(def, tr).value in ids
    decreases |tr|
  {
    if tr != [] {
      var init, last := tr[..|tr| - 1], tr[|tr| - 1];
      assert tr == init + [last];
      RunAppend(def, Some(def.startStepId), init, last);
      ClosedHoldsEnds(def, ids, init);
    }
  }

  /** Reachability is the least set closed under the flow. */
  lemma ReachableIsLeast(def: JobDefinition, ids: set<int>, id: int)
    requires ClosedUnderFlow(def, ids) && Reachable(def, id)
    ensures id in ids
  {
    var tr :| IsRun(def, tr) && Current(def, tr) == Some(id);
    ClosedHoldsEnds(def, ids, tr);
  }

  ghost function Ids(steps: seq<JobStep>): set<int> {
    set i | 0 <= i < |steps| :: steps[i].stepId
  }

  lemma IdsAreSteps(def: JobDefinition, id: int)
    ensures id in Ids(def.steps) <==> HasStep(def, id)
    ensures HasStep(def, id) <==> LookupStep(def.steps, id).Some?
  {}

  /** Found, waiting to be looked at, or not a step at all. */
  ghost predicate Covered(def: JobDefinition, id: int, seen: set<int>, queue: seq<int>) {
    id in seen || id in queue || !HasStep(def, id)
  }

  ghost predicate FollowsOn(def: JobDefinition, id: int, seen: set<int>, queue: seq<int>) {
    forall ok :: Successor(def, id, ok).Some? ==> Covered(def, Successor(def, id, ok).value, seen, queue)
  }

  method PushSuccessors(def: JobDefinition, stepId: int, step: JobStep, seen: set<int>, queue: seq<int>)
    returns (more: seq<int>)
    requires LookupStep(def.steps, stepId) == Some(step) && Reachable(def, stepId)
    requires forall id :: id in queue ==> Arrives(def, id)
    ensures forall id :: id in queue ==> id in more
    ensures forall id :: id in more ==> Arrives(def, id)
    ensures FollowsOn(def, stepId, seen, more)
  {
    more := queue;
    for k := 0 to 2
      invariant forall id :: id in queue ==> id in more
      invariant forall id :: id in more ==> Arrives(def, id)
      invariant k > 0 && Successor(def, stepId, true).Some? ==>
                  Covered(def, Successor(def, stepId, true).value, seen, more)
      invariant k > 1 && Successor(def, stepId, false).Some? ==>
                  Covered(def, Successor(def, stepId, false).value, seen, more)
    {
      var succeeded := k == 0;
      var next := NextStepAfter(def, step, succeeded);
      if next.Some? && next.value !in seen {
        ArrivesNext(def, stepId, succeeded);
        more := more + [next.value];
      }
    }
  }

  /** The worklist search, on any job: cycles, gaps, dangling jumps and repeated ids included. */
  method ReachableSteps(def: JobDefinition) returns (seen: set<int>)
    ensures forall id :: id in seen <==> Reachable(def, id)
  {
    seen := {};
    var queue: seq<int> := [def.startStepId];
    assert Arrives(def, def.startStepId) by {
      assert IsRun(def, []) && Current(def, []) == Some(def.startStepId);
    }
    while |queue| > 0
      invariant forall id :: id in seen ==> Reachable(def, id)
      invariant forall id :: id in queue ==> Arrives(def, id)
      invariant Covered(def, def.startStepId, seen, queue)
      invariant forall id :: id in seen ==> FollowsOn(def, id, seen, queue)
      decreases Ids(def.steps) - seen, |queue|
    {
      var stepId := queue[|queue| - 1];
      ghost var rest := queue[..|queue| - 1];
      assert queue == rest + [stepId];
      queue := queue[..|queue| - 1];
      if stepId in seen { continue; }
      var step := LookupStep(def.steps, stepId);
      IdsAreSteps(def, stepId);
      if step.None? { continue; }
      seen := seen + {stepId};
      queue := PushSuccessors(def, stepId, step.value, seen, queue);
    }
    forall id | Reachable(def, id) ensures id in seen {
      assert ClosedUnderFlow(def, seen);
      ReachableIsLeast(def, seen, id);
    }
  }

  method IsStepDisabled(def: JobDefinition, stepId: int) returns (disabled: bool)
    ensures disabled <==> !Reachable(def, stepId)
  {
    var seen := ReachableSteps(def);
    disabled := stepId !in seen;
  }

  function NotIn(steps: seq<JobStep>, ids: set<int>): (r: seq<JobStep>)
    ensures forall s :: s in r <==> s in steps && s.stepId !in ids
    ensures forall s :: s in r ==> multiset(r)[s] == multiset(steps)[s]
  {
    if steps == [] then []
    else
      assert steps == [steps[0]] + steps[1..];
      (if steps[0].stepId !in ids then [steps[0]] else []) + NotIn(steps[1..], ids)
  }

  /** Exactly the steps no run can visit, each as often as the job lists it, in step order. */
  method UnreachableSteps(def: JobDefinition) returns (r: seq<JobStep>)
    ensures forall s :: s in r <==> s in def.steps && !Reachable(def, s.stepId)
    ensures forall s :: s in r ==> multiset(r)[s] == multiset(def.steps)[s]
    ensures SortedBy(r, StepIdLe)
  {
    var reachable := ReachableSteps(def);
    var left := NotIn(def.steps, reachable);
    r := Ordered(left);
    SortPermutes(left, StepIdLe);
    SortSorted(left, StepIdLe);
  }

  // ---- which step is running -----------------------------------------------

  // RunStatus; 0 is a failure.
  const SUCCEEDED := 1
  const RETRY := 2
  const CANCELLED := 3

  datatype CompletedStep = CompletedStep(stepId: int, runStatus: int)

  function InferRunningStep(def: JobDefinition, completed: seq<CompletedStep>): Option<int> {
    if completed == [] then Some(def.startStepId)
    else
      var last := completed[|completed| - 1];
      match FindStep(def.steps, last.stepId)
      case None => None
      case Some(step) =>
        if last.runStatus == RETRY then Some(step.stepId)
        else if last.runStatus == CANCELLED then None
        else NextStepAfter(def, step, last.runStatus == SUCCEEDED)
  }

  /** What Agent itself does at one history row: stay on a retry, end on a cancel, else branch. */
  ghost function AfterRow(def: JobDefinition, c: CompletedStep): Option<int> {
    if c.runStatus == RETRY then Some(c.stepId)
    else if c.runStatus == CANCELLED then None
    else Successor(def, c.stepId, c.runStatus == SUCCEEDED)
  }

  /** `completed` is the history of a real run, read from its first row on. */
  ghost predicate HistoryFrom(def: JobDefinition, at: Option<int>, completed: seq<CompletedStep>)
    decreases |completed|
  {
    completed == [] ||
    (at == Some(completed[0].stepId) && HasStep(def, completed[0].stepId) &&
     HistoryFrom(def, AfterRow(def, completed[0]), completed[1..]))
  }

  ghost predicate IsHistory(def: JobDefinition, completed: seq<CompletedStep>) {
    HistoryFrom(def, Some(def.startStepId), completed)
  }

  /** A history follows a run of the job, and the run stands at the step the history stands at. */
  lemma {:induction false} HistoryFollowsRun(def: JobDefinition, tr: seq<Visit>, completed: seq<CompletedStep>)
    returns (run: seq<Visit>)
    requires DistinctIds(def.steps) && IsRun(def, tr) && completed != []
    requires HistoryFrom(def, Current(def, tr), completed)
    ensures IsRun(def, run)
    ensures InferRunningStep(def, completed).Some? ==> Current(def, run) == InferRunningStep(def, completed)
    ensures InferRunningStep(def, completed) == AfterRow(def, completed[|completed| - 1])
    decreases |completed|
  {
    var c := completed[0];
    var i :| 0 <= i < |def.steps| && def.steps[i].stepId == c.stepId;
    LookupAt(def.steps, i);
    run := tr;
    if c.runStatus != RETRY && c.runStatus != CANCELLED {
      RunAppend(def, Some(def.startStepId), tr, Visit(c.stepId, c.runStatus == SUCCEEDED));
      run := tr + [Visit(c.stepId, c.runStatus == SUCCEEDED)];
    }
    if |completed| > 1 {
      var rest := completed[1..];
      assert c.runStatus == CANCELLED ==> AfterRow(def, c) == None;
      run := HistoryFollowsRun(def, run, rest);
      assert rest[|rest| - 1] == completed[|completed| - 1];
    }
  }

  /** The step named as running is one the job can reach, when every jump names a step. */
  lemma InferredStepIsReachable(def: JobDefinition, completed: seq<CompletedStep>)
    requires DistinctIds(def.steps) && IsHistory(def, completed)
    requires InferRunningStep(def, completed).Some?
    ensures Arrives(def, InferRunningStep(def, completed).value)
    ensures HasStep(def, InferRunningStep(def, completed).value) ==>
              Reachable(def, InferRunningStep(def, completed).value)
  {
    assert IsRun(def, []) && Current(def, []) == Some(def.startStepId);
    if completed != [] {
      var run := HistoryFollowsRun(def, [], completed);
    }
  }

  lemma {:induction false} HistoryAppend(def: JobDefinition, at: Option<int>, completed: seq<CompletedStep>,
                                         c: CompletedStep)
    ensures HistoryFrom(def, at, completed + [c]) <==>
            HistoryFrom(def, at, completed) && HasStep(def, c.stepId) &&
            (if completed == [] then at else AfterRow(def, completed[|completed| - 1])) == Some(c.stepId)
    decreases |completed|
  {
    if completed == [] {
      assert completed + [c] == [c] && [c][1..] == [];
    } else {
      assert (completed + [c])[1..] == completed[1..] + [c];
      HistoryAppend(def, AfterRow(def, completed[0]), completed[1..], c);
    }
  }

  /** The inferred step is the only one whose completion can come next in the history. */
  lemma InferredStepIsNext(def: JobDefinition, completed: seq<CompletedStep>, c: CompletedStep)
    requires DistinctIds(def.steps) && IsHistory(def, completed)
    ensures IsHistory(def, completed + [c]) <==>
            HasStep(def, c.stepId) && InferRunningStep(def, completed) == Some(c.stepId)
  {
    HistoryAppend(def, Some(def.startStepId), completed, c);
    if completed != [] {
      assert IsRun(def, []) && Current(def, []) == Some(def.startStepId);
      var run := HistoryFollowsRun(def, [], completed);
    }
  }
}
