/** Jobs on which a promise of the editor fails. */
module JobExamples {
  import opened Wrappers
  import opened JobModel
  import opened Utf16
  import opened JobFlow
  import opened JobEdit
  import opened JobDisable
  import opened JobOutcome
  import opened JobWellFormed
  import opened JobRoundTrip

  function Step(id: int, success: int, target: int, fail: int): JobStep {
    NewStepTemplate(Units("step")).(
      stepId := id, onSuccessAction := success, onSuccessStepId := target, onFailAction := fail)
  }

  function Job(steps: seq<JobStep>): JobDefinition {
    JobDefinition(
      Units("job"), None, true, None, None, 1, Notifications(None, 0, None, 0, None, 0, 0, 0), steps, [], [])
  }

  /** Step 1 repeats until it fails. */
  function Looping(): JobDefinition {
    Job([Step(1, GO_TO_STEP, 1, QUIT_WITH_FAILURE), Step(2, QUIT_WITH_SUCCESS, 0, QUIT_WITH_FAILURE)])
  }

  lemma LoopingIsWellFormed()
    ensures WellFormed(Looping()) && Bypass(Looping(), 1) == Some(1)
  {
    hide Units;
    assert FindStep(Looping().steps, 1) == Some(Looping().steps[0]);
  }

  /** Disabled, it is still where the job starts. */
  lemma LoopingStepStaysReachable()
    ensures WellFormed(Looping()) && Disables(Looping(), 1) && Reachable(Disabled(Looping(), 1), 1)
  {
    hide WellFormed, Disabled, Bypass;
    var def := Looping();
    LoopingIsWellFormed();
    ProperFromWellFormed(def);
    assert FindStep(def.steps, 1) == Some(def.steps[0]);
    assert HasStep(def, 1) by { assert def.steps[0].stepId == 1; }
    assert IsRun(def, []) && Current(def, []) == Some(1);
    DisabledIsUnreachable(def, 1);
  }

  /** Step 1 goes on to step 2 whatever happens. */
  function Unconditional(): JobDefinition {
    Job([Step(1, GO_TO_NEXT_STEP, 0, GO_TO_NEXT_STEP), Step(2, QUIT_WITH_SUCCESS, 0, QUIT_WITH_FAILURE)])
  }

  lemma UnconditionalDoesNotSurvive()
    ensures WellFormed(Unconditional()) && !EndSurvives(Unconditional().steps, 1, 0)
  {
    hide Units;
    assert LastMeanwhile(2, 1, 0) == 0;
  }

  /** Step 2 dragged to the top and back: step 1, last meanwhile, no longer goes on when it fails. */
  lemma ReorderLosesFallThrough()
    ensures var def := Unconditional();
      var moved := ReorderStep(def, 2, 0.0).definition;
      WellFormed(def) && ReorderStep(moved, 1, 1.0).definition != def
  {
    hide WellFormed, EndSurvives, ReorderStep;
    var def := Unconditional();
    var moved := ReorderStep(def, 2, 0.0).definition;
    UnconditionalDoesNotSurvive();
    TruncOfInt(0);
    ReorderAndBack(def, 2, 0.0, 0, moved, ReorderStep(moved, 1, 1.0).definition);
  }

  lemma UnconditionalFlow()
    ensures var def := Unconditional();
      && ProperIds(def) && Disables(def, 2) && Bypass(def, 2).None? && def.startStepId == 1
      && ArrivesAt(def, def.steps[0], false, 2) && ResultOf(def, Visit(2, true)) == Some(true)
  {
    hide Units;
    var def := Unconditional();
    assert FindStep(def.steps[1..], 2) == Some(def.steps[1]) && FindStep(def.steps, 2) == Some(def.steps[1]);
    LookupAt(def.steps, 1);
  }

  /** Step 2 disabled: a run that fails in step 1 used to go on and succeed, and now reports failure. */
  lemma DisablingChangesResult()
    ensures var def := Unconditional();
      exists tr :: IsFinishedRun(def, 2, tr) && Reported(Disabled(def, 2), Erase(tr, 2)) != Reported(def, tr)
  {
    hide Disabled, Bypass, Disables, ArrivesAt, ResultOf, ProperIds;
    var def := Unconditional();
    UnconditionalFlow();
    assert Cut(def, 2).steps[0].stepId == 1;
    assert IsRun(Cut(def, 2), []) && Current(Cut(def, 2), []) == Some(1);
    assert !RepairAgrees(def, 2, def.steps[0], false);
    ResultsKeptExactly(def, 2);
  }

  /** Step 2 ends the job early; step 3 is for other branches. */
  function EndsEarly(): JobDefinition {
    Job([Step(1, GO_TO_NEXT_STEP, 0, QUIT_WITH_FAILURE), Step(2, QUIT_WITH_SUCCESS, 0, QUIT_WITH_FAILURE),
         Step(3, QUIT_WITH_SUCCESS, 0, QUIT_WITH_FAILURE)])
  }

  /** Step 2 disabled and enabled again: step 1 does not fall into it any more. */
  lemma EarlyEndIsNotRestored()
    ensures WellFormed(EndsEarly()) && EnableStep(DisableStep(EndsEarly(), 2).definition, 2).definition != EndsEarly()
  {
    hide Units;
    var def := EndsEarly();
    assert FindStep(def.steps[1..], 2) == Some(def.steps[1]);
    assert FindStep(def.steps, 2) == Some(def.steps[1]);
    QuittingStepIsNotRestored(def, 2, 0);
  }
}
