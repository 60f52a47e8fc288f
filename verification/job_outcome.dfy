/** What a run reports when it ends, before and after a step is disabled. */
module JobOutcome {
  import opened Wrappers
  import opened JobModel
  import opened JobFlow
  import opened JobEdit
  import opened JobDisable

  /** Success or failure where the branch quits; `None` where it ends the job any other way. */
  function QuitResult(action: int): Option<bool> {
    if action == QUIT_WITH_SUCCESS then Some(true) else if action == QUIT_WITH_FAILURE then Some(false) else None
  }

  function ResultOf(def: JobDefinition, v: Visit): Option<bool> {
    match LookupStep(def.steps, v.stepId)
    case None => None
    case Some(s) => QuitResult(s.Action(v.succeeded))
  }

  /** What a finished run reports: its last branch decides. */
  ghost function Reported(def: JobDefinition, tr: seq<Visit>): Option<bool> {
    if tr == [] then None else ResultOf(def, tr[|tr| - 1])
  }

  ghost predicate IsFinishedRun(def: JobDefinition, id: int, tr: seq<Visit>) {
    IsRun(def, tr) && AlwaysSucceeds(tr, id) && Finished(def, tr)
  }

  /**
   * A branch that leads into the step, of a step the job reaches without the
   * disabled one ever failing, quits as the disabled step's own success would.
   */
  ghost predicate RepairAgrees(def: JobDefinition, id: int, s: JobStep, ok: bool) {
    s.stepId != id && ArrivesAt(def, s, ok, id) && Reachable(Cut(def, id), s.stepId) ==>
      ResultOf(def, Visit(id, true)) == Some(ok)
  }

  /** Asked of the job before the edit: the step's success does not end it, or every branch into the step agrees. */
  ghost predicate KeepsResults(def: JobDefinition, id: int) {
    Bypass(def, id).None? ==> forall i, ok :: 0 <= i < |def.steps| ==> RepairAgrees(def, id, def.steps[i], ok)
  }

  // ---- runs taken apart at their last visit --------------------------------

  lemma {:induction false} EraseAppend(tr: seq<Visit>, v: Visit, id: int)
    ensures Erase(tr + [v], id) == Erase(tr, id) + if v.stepId == id then [] else [v]
  {
    var all, last := tr + [v], if v.stepId == id then [] else [v];
    if tr == [] {
      assert all == [v] && [v][1..] == [] && Erase([], id) == [];
    } else {
      var first := if tr[0].stepId == id then [] else [tr[0]];
      assert all[0] == tr[0] && all[1..] == tr[1..] + [v];
      EraseAppend(tr[1..], v, id);
      assert first + (Erase(tr[1..], id) + last) == first + Erase(tr[1..], id) + last;
    }
  }

  lemma SucceedsAppend(tr: seq<Visit>, v: Visit, id: int)
    ensures AlwaysSucceeds(tr + [v], id) <==> AlwaysSucceeds(tr, id) && (v.stepId == id ==> v.succeeded)
  {
    var all := tr + [v];
    assert all[|tr|] == v && forall i :: 0 <= i < |tr| ==> all[i] == tr[i];
  }

  lemma ReportedLast(def: JobDefinition, tr: seq<Visit>, v: Visit)
    ensures Reported(def, tr + [v]) == ResultOf(def, v)
  {}

  lemma FinishedLast(def: JobDefinition, tr: seq<Visit>, v: Visit)
    ensures IsRun(def, tr + [v]) <==> IsRun(def, tr) && Current(def, tr) == Some(v.stepId) && HasStep(def, v.stepId)
    ensures Current(def, tr + [v]) == Successor(def, v.stepId, v.succeeded)
  {
    RunAppend(def, Some(def.startStepId), tr, v);
  }

  // ---- one branch ----------------------------------------------------------

  lemma ArrivingBranch(def: JobDefinition, s: JobStep, id: int, ok: bool)
    requires id != 0
    ensures ArrivesAt(def, s, ok, id) <==> NextStepAfter(def, s, ok) == Some(id)
  {}

  lemma StepAt(def: JobDefinition, id: int) returns (i: nat)
    requires HasStep(def, id)
    ensures i < |def.steps| && def.steps[i].stepId == id
  {
    i :| 0 <= i < |def.steps| && def.steps[i].stepId == id;
  }

  /** What disabling leaves of the result of another step's branch. */
  lemma RoutedResult(def: JobDefinition, id: int, v: Visit)
    requires ProperIds(def) && Disables(def, id) && HasStep(def, v.stepId) && v.stepId != id
    ensures ResultOf(Disabled(def, id), v) ==
            if Successor(def, v.stepId, v.succeeded) != Some(id) then ResultOf(def, v)
            else if Bypass(def, id).None? then Some(v.succeeded) else None
  {
    var i := StepAt(def, v.stepId);
    DisabledStepAt(def, id, i);
    ProperBypass(def, id);
    ArrivingBranch(def, def.steps[i], id, v.succeeded);
    RoutedBranch(def, def.steps[i], id, Bypass(def, id), v.succeeded);
  }

  lemma OwnResult(def: JobDefinition, id: int)
    requires ProperIds(def) && Disables(def, id)
    requires Bypass(def, id).Some? && !HasStep(def, Bypass(def, id).value)
    ensures ResultOf(def, Visit(id, true)) == None
  {
    var s := FindStep(def.steps, id).value;
    var i :| 0 <= i < |def.steps| && def.steps[i] == s;
    LookupAt(def.steps, i);
    if s.onSuccessAction == GO_TO_NEXT_STEP {
      var j := NextIdIsStep(def, s.stepId);
    }
  }

  lemma NextIdIsStep(def: JobDefinition, id: int) returns (j: nat)
    requires NextId(def.steps, id).Some?
    ensures j < |def.steps| && def.steps[j].stepId == NextId(def.steps, id).value && HasStep(def, def.steps[j].stepId)
  {
    j :| 0 <= j < |def.steps| && def.steps[j].stepId == NextId(def.steps, id).value;
  }

  // ---- one run -------------------------------------------------------------

  /** A run that ends at another step ends there still, with the same result. */
  lemma EndsElsewhere(def: JobDefinition, id: int, init: seq<Visit>, v: Visit)
    requires ProperIds(def) && Disables(def, id) && v.stepId != id && IsFinishedRun(def, id, init + [v])
    ensures Reported(Disabled(def, id), Erase(init + [v], id)) == Reported(def, init + [v])
  {
    FinishedLast(def, init, v);
    assert HasStep(def, id);
    RoutedResult(def, id, v);
    EraseAppend(init, v, id);
    ReportedLast(Disabled(def, id), Erase(init, id), v);
    ReportedLast(def, init, v);
  }

  /** A run that ends at the disabled step now ends one visit sooner. */
  lemma EndsAtStep(def: JobDefinition, id: int, before: seq<Visit>, w: Visit)
    requires ProperIds(def) && Disables(def, id) && !LoopsOnSuccess(def, id)
    requires IsFinishedRun(def, id, before + [w] + [Visit(id, true)])
    ensures w.stepId != id && HasStep(def, w.stepId) && Successor(def, w.stepId, w.succeeded) == Some(id)
    ensures Reachable(Disabled(def, id), w.stepId)
    ensures Reported(Disabled(def, id), Erase(before + [w] + [Visit(id, true)], id)) ==
            if Bypass(def, id).None? then Some(w.succeeded) else None
    ensures Reported(def, before + [w] + [Visit(id, true)]) == ResultOf(def, Visit(id, true))
  {
    var last := Visit(id, true);
    FinishedLast(def, before + [w], last);
    FinishedLast(def, before, w);
    SucceedsAppend(before + [w], last, id);
    SucceedsAppend(before, w, id);
    BypassIsSuccessor(def, id);
    StillReachable(def, id, before, w.stepId);
    RoutedResult(def, id, w);
    EraseAppend(before + [w], last, id);
    EraseAppend(before, w, id);
    assert Erase(before, id) + [w] + [] == Erase(before, id) + [w];
    ReportedLast(Disabled(def, id), Erase(before, id), w);
    ReportedLast(def, before + [w], last);
  }

  /** The one run without an earlier visit: the job starts at the step and its success leads to no step. */
  lemma EndsAtOnce(def: JobDefinition, id: int)
    requires ProperIds(def) && Disables(def, id) && IsFinishedRun(def, id, [Visit(id, true)])
    ensures Bypass(def, id).Some? && Reported(def, [Visit(id, true)]) == None
    ensures Erase([Visit(id, true)], id) == []
  {
    FinishedLast(def, [], Visit(id, true));
    assert [] + [Visit(id, true)] == [Visit(id, true)];
    BypassIsSuccessor(def, id);
    OwnResult(def, id);
    EraseAppend([], Visit(id, true), id);
  }

  lemma ResultKept(def: JobDefinition, id: int, tr: seq<Visit>)
    requires ProperIds(def) && Disables(def, id) && !LoopsOnSuccess(def, id) && KeepsResults(def, id)
    requires IsFinishedRun(def, id, tr)
    ensures Reported(Disabled(def, id), Erase(tr, id)) == Reported(def, tr)
  {
    hide IsRun, Finished, ProperIds, Disables, LoopsOnSuccess, KeepsResults, Disabled, Bypass;
    if tr != [] {
      var init, v := tr[..|tr| - 1], tr[|tr| - 1];
      assert tr == init + [v];
      if v.stepId != id {
        EndsElsewhere(def, id, init, v);
      } else if init == [] {
        assert tr == [Visit(id, true)];
        EndsAtOnce(def, id);
      } else {
        var before, w := init[..|init| - 1], init[|init| - 1];
        assert v == Visit(id, true) && tr == before + [w] + [v];
        ResultKeptAtStep(def, id, before, w);
      }
    }
  }

  lemma ResultKeptAtStep(def: JobDefinition, id: int, before: seq<Visit>, w: Visit)
    requires ProperIds(def) && Disables(def, id) && !LoopsOnSuccess(def, id) && KeepsResults(def, id)
    requires IsFinishedRun(def, id, before + [w] + [Visit(id, true)])
    ensures var tr := before + [w] + [Visit(id, true)];
      Reported(Disabled(def, id), Erase(tr, id)) == Reported(def, tr)
  {
    EndsAtStep(def, id, before, w);
    if Bypass(def, id).None? {
      var i := StepAt(def, w.stepId);
      LookupAt(def.steps, i);
      ArrivingBranch(def, def.steps[i], id, w.succeeded);
      ReachableAfterDisabling(def, id, w.stepId);
      assert RepairAgrees(def, id, def.steps[i], w.succeeded);
    } else {
      FinishedLast(def, before + [w], Visit(id, true));
      BypassIsSuccessor(def, id);
      OwnResult(def, id);
    }
  }

  // ---- exactly when --------------------------------------------------------

  /** A run through a branch whose repair disagrees. */
  lemma ResultLost(def: JobDefinition, id: int, i: nat, ok: bool) returns (tr: seq<Visit>)
    requires ProperIds(def) && Disables(def, id) && !LoopsOnSuccess(def, id) && Bypass(def, id).None?
    requires i < |def.steps| && !RepairAgrees(def, id, def.steps[i], ok)
    ensures IsFinishedRun(def, id, tr) && Reported(Disabled(def, id), Erase(tr, id)) != Reported(def, tr)
  {
    var d, s := Disabled(def, id), def.steps[i];
    var w, last := Visit(s.stepId, ok), Visit(id, true);
    ReachableAfterDisabling(def, id, s.stepId);
    var before0 :| IsRun(d, before0) && Current(d, before0) == Some(s.stepId);
    var before := ExpandedFromStart(def, id, before0);
    LookupAt(def.steps, i);
    ProperBypass(def, id);
    ArrivingBranch(def, s, id, ok);
    assert HasStep(def, s.stepId) && HasStep(def, id);
    BypassIsSuccessor(def, id);
    FinishedLast(def, before, w);
    FinishedLast(def, before + [w], last);
    SucceedsAppend(before, w, id);
    SucceedsAppend(before + [w], last, id);
    tr := before + [w] + [last];
    EndsAtStep(def, id, before, w);
  }

  /** Disabling keeps the result of every finished run exactly when every repaired branch agrees with the step. */
  lemma ResultsKeptExactly(def: JobDefinition, id: int)
    requires ProperIds(def) && Disables(def, id) && !LoopsOnSuccess(def, id)
    ensures KeepsResults(def, id) <==>
            forall tr :: IsFinishedRun(def, id, tr) ==>
              Reported(Disabled(def, id), Erase(tr, id)) == Reported(def, tr)
  {
    if KeepsResults(def, id) {
      forall tr | IsFinishedRun(def, id, tr) ensures Reported(Disabled(def, id), Erase(tr, id)) == Reported(def, tr) {
        ResultKept(def, id, tr);
      }
    } else {
      var i, ok :| 0 <= i < |def.steps| && !RepairAgrees(def, id, def.steps[i], ok);
      var tr := ResultLost(def, id, i, ok);
    }
  }

  lemma LoopingEnds(def: JobDefinition, id: int, tr: seq<Visit>)
    requires ProperIds(def) && Disables(def, id) && LoopsOnSuccess(def, id) && IsRun(def, tr)
    ensures IsRun(Disabled(def, id), tr) && Current(Disabled(def, id), tr) == Current(def, tr)
  {
    hide Disabled, Disables, RunsFrom, EndOf;
    LoopingRun(def, id, Some(def.startStepId), tr);
    DisabledStart(def, id);
  }

  lemma LoopingReports(def: JobDefinition, id: int, tr: seq<Visit>)
    requires ProperIds(def) && Disables(def, id) && LoopsOnSuccess(def, id) && IsRun(def, tr) && Finished(def, tr)
    requires HasStep(def, id)
    ensures Reported(Disabled(def, id), tr) == Reported(def, tr)
  {
    hide Disabled, Disables, LoopsOnSuccess, IsRun, Current, ResultOf, HasStep, ProperIds;
    if tr != [] {
      var init, v := tr[..|tr| - 1], tr[|tr| - 1];
      assert tr == init + [v];
      FinishedLast(def, init, v);
      LastResult(def, id, v);
    }
  }

  /** A step that loops on success: every finished run is still one and reports what it did. */
  lemma LoopingResult(def: JobDefinition, id: int, tr: seq<Visit>)
    requires ProperIds(def) && Disables(def, id) && LoopsOnSuccess(def, id) && IsRun(def, tr) && Finished(def, tr)
    ensures IsRun(Disabled(def, id), tr) && Finished(Disabled(def, id), tr)
    ensures Reported(Disabled(def, id), tr) == Reported(def, tr)
  {
    assert HasStep(def, id);
    hide Disabled, Disables, LoopsOnSuccess, IsRun, Current, Reported, HasStep, ProperIds;
    LoopingEnds(def, id, tr);
    if Current(def, tr).Some? { SameSteps(def, id, Current(def, tr).value); }
    LoopingReports(def, id, tr);
  }

  lemma LastResult(def: JobDefinition, id: int, v: Visit)
    requires ProperIds(def) && Disables(def, id) && HasStep(def, v.stepId)
    requires Successor(def, v.stepId, v.succeeded) != Some(id)
    ensures ResultOf(Disabled(def, id), v) == ResultOf(def, v)
  {
    if v.stepId == id {
      var i := StepAt(def, id);
      DisabledStepAt(def, id, i);
    } else {
      RoutedResult(def, id, v);
    }
  }
}
