/** What disabling a step does to the runs of the job. */
module JobDisable {
  import opened Wrappers
  import opened JobModel
  import opened Utf16
  import opened JobFlow
  import opened JobEdit

  /** Step ids as the schema allows them: distinct and at least 1. */
  ghost predicate ProperIds(def: JobDefinition) {
    DistinctIds(def.steps) && forall i :: 0 <= i < |def.steps| ==> def.steps[i].stepId >= 1
  }

  /** The step's success branch leads straight back to it. */
  predicate LoopsOnSuccess(def: JobDefinition, id: int) {
    Bypass(def, id) == Some(id)
  }

  ghost function Disabled(def: JobDefinition, id: int): JobDefinition {
    DisableStep(def, id).definition
  }

  /** Where traffic headed for `at` goes once the step is disabled. */
  ghost function Redirect(def: JobDefinition, id: int, at: Option<int>): Option<int> {
    if at == Some(id) then Bypass(def, id) else at
  }

  ghost predicate AlwaysSucceeds(tr: seq<Visit>, id: int) {
    forall i :: 0 <= i < |tr| && tr[i].stepId == id ==> tr[i].succeeded
  }

  ghost function Erase(tr: seq<Visit>, id: int): seq<Visit> {
    if tr == [] then []
    else (if tr[0].stepId == id then [] else [tr[0]]) + Erase(tr[1..], id)
  }

  lemma {:induction false} EraseForgets(tr: seq<Visit>, id: int)
    ensures forall i :: 0 <= i < |Erase(tr, id)| ==> Erase(tr, id)[i].stepId != id
  {
    if tr != [] { EraseForgets(tr[1..], id); }
  }

  // ---- one step of the flow ------------------------------------------------

  lemma DisabledIds(def: JobDefinition, id: int)
    ensures |Disabled(def, id).steps| == |def.steps|
    ensures forall i :: 0 <= i < |def.steps| ==> Disabled(def, id).steps[i].stepId == def.steps[i].stepId
  {
    hide RouteBranch, Bypass, AllRouteWarnings, FindStep;
    forall i | 0 <= i < |def.steps| ensures Disabled(def, id).steps[i].stepId == def.steps[i].stepId {
      RouteKeepsId(def, def.steps[i], id, Bypass(def, id));
    }
  }

  lemma RouteKeepsId(def: JobDefinition, s: JobStep, id: int, bypass: Option<int>)
    ensures RouteStep(def, s, id, bypass).stepId == s.stepId
  {}

  lemma SameSteps(def: JobDefinition, id: int, x: int)
    ensures HasStep(Disabled(def, id), x) <==> HasStep(def, x)
    ensures DistinctIds(def.steps) ==> DistinctIds(Disabled(def, id).steps)
    ensures ProperIds(def) ==> ProperIds(Disabled(def, id))
  {
    DisabledIds(def, id);
    SameIds(def, Disabled(def, id), x);
  }

  lemma SameIds(def: JobDefinition, d: JobDefinition, x: int)
    requires |d.steps| == |def.steps|
    requires forall i :: 0 <= i < |def.steps| ==> d.steps[i].stepId == def.steps[i].stepId
    ensures HasStep(d, x) <==> HasStep(def, x)
    ensures DistinctIds(def.steps) ==> DistinctIds(d.steps)
    ensures ProperIds(def) ==> ProperIds(d)
  {
    if HasStep(def, x) {
      var i :| 0 <= i < |def.steps| && def.steps[i].stepId == x;
      assert d.steps[i].stepId == x;
    }
  }

  /** What routing leaves on each branch of another step. */
  lemma RoutedBranch(def: JobDefinition, s: JobStep, id: int, bypass: Option<int>, ok: bool)
    requires s.stepId != id
    ensures var r := RouteStep(def, s, id, bypass);
      if !ArrivesAt(def, s, ok, id) then r.Action(ok) == s.Action(ok) && r.Target(ok) == s.Target(ok)
      else if bypass.Some? then r.Action(ok) == GO_TO_STEP && r.Target(ok) == bypass.value
      else r.Action(ok) == (if ok then QUIT_WITH_SUCCESS else QUIT_WITH_FAILURE) && r.Target(ok) == 0
  {}

  lemma RoutedNext(def: JobDefinition, d: JobDefinition, s: JobStep, id: int, bypass: Option<int>, ok: bool)
    requires s.stepId != id && id != 0 && bypass != Some(0)
    requires NextId(d.steps, s.stepId) == NextId(def.steps, s.stepId)
    ensures NextStepAfter(d, RouteStep(def, s, id, bypass), ok) ==
            if NextStepAfter(def, s, ok) == Some(id) then bypass else NextStepAfter(def, s, ok)
  {
    RoutedBranch(def, s, id, bypass, ok);
    assert RouteStep(def, s, id, bypass).stepId == s.stepId;
    assert ArrivesAt(def, s, ok, id) <==> NextStepAfter(def, s, ok) == Some(id);
  }

  lemma DisabledStepAt(def: JobDefinition, id: int, i: nat)
    requires ProperIds(def) && Disables(def, id) && i < |def.steps|
    ensures var d, s := Disabled(def, id), def.steps[i];
      && LookupStep(def.steps, s.stepId) == Some(s)
      && LookupStep(d.steps, s.stepId) == Some(RouteStep(def, s, id, Bypass(def, id)))
      && NextId(d.steps, s.stepId) == NextId(def.steps, s.stepId)
  {
    hide RouteStep, Bypass, NextId;
    var d, s := Disabled(def, id), def.steps[i];
    assert d.steps == Routed(def, id);
    DisabledIds(def, id);
    LookupAt(def.steps, i);
    LookupAt(d.steps, i);
    NextIdOfSameIds(def.steps, d.steps, s.stepId);
  }

  lemma ProperBypass(def: JobDefinition, id: int)
    requires ProperIds(def)
    ensures Bypass(def, id) != Some(0)
    ensures FindStep(def.steps, id).Some? ==> id != 0
  {}

  lemma RoutedSuccessor(def: JobDefinition, d: JobDefinition, s: JobStep, id: int, ok: bool)
    requires LookupStep(def.steps, s.stepId) == Some(s)
    requires LookupStep(d.steps, s.stepId) == Some(RouteStep(def, s, id, Bypass(def, id)))
    requires NextId(d.steps, s.stepId) == NextId(def.steps, s.stepId)
    requires id != 0 && Bypass(def, id) != Some(0)
    ensures Successor(d, s.stepId, ok) ==
            if s.stepId == id then Successor(def, s.stepId, ok)
            else Redirect(def, id, Successor(def, s.stepId, ok))
  {
    if s.stepId != id { RoutedNext(def, d, s, id, Bypass(def, id), ok); }
  }

  /** Every other step leads where it led, except that the disabled step is skipped. */
  lemma DisabledSuccessor(def: JobDefinition, id: int, other: int, ok: bool)
    requires ProperIds(def) && Disables(def, id) && HasStep(def, other)
    ensures Successor(Disabled(def, id), other, ok) ==
            if other == id then Successor(def, other, ok)
            else Redirect(def, id, Successor(def, other, ok))
  {
    var i :| 0 <= i < |def.steps| && def.steps[i].stepId == other;
    DisabledStepAt(def, id, i);
    ProperBypass(def, id);
    RoutedSuccessor(def, Disabled(def, id), def.steps[i], id, ok);
  }

  lemma DisabledStart(def: JobDefinition, id: int)
    requires Disables(def, id)
    ensures Some(Disabled(def, id).startStepId) == Redirect(def, id, Some(def.startStepId))
  {}

  lemma BypassIsSuccessor(def: JobDefinition, id: int)
    requires DistinctIds(def.steps) && HasStep(def, id)
    ensures Successor(def, id, true) == Bypass(def, id)
  {
    var i :| 0 <= i < |def.steps| && def.steps[i].stepId == id;
    LookupAt(def.steps, i);
  }

  // ---- whole runs ----------------------------------------------------------

  lemma {:induction false} ErasedRun(def: JobDefinition, id: int, at: Option<int>, tr: seq<Visit>)
    requires ProperIds(def) && Disables(def, id)
    requires RunsFrom(def, at, tr) && AlwaysSucceeds(tr, id)
    ensures RunsFrom(Disabled(def, id), Redirect(def, id, at), Erase(tr, id))
    ensures EndOf(Disabled(def, id), Redirect(def, id, at), Erase(tr, id)) == Redirect(def, id, EndOf(def, at, tr))
    decreases |tr|
  {
    if tr != [] {
      var v, rest := tr[0], tr[1..];
      var next := Successor(def, v.stepId, v.succeeded);
      ErasedRun(def, id, next, rest);
      if v.stepId == id {
        BypassIsSuccessor(def, id);
        assert Erase(tr, id) == Erase(rest, id);
      } else {
        DisabledSuccessor(def, id, v.stepId, v.succeeded);
        SameSteps(def, id, v.stepId);
        assert Erase(tr, id) == [v] + Erase(rest, id);
      }
    }
  }

  /** A run of the edited job with the skipped visits put back. */
  ghost function Expand(def: JobDefinition, id: int, at: Option<int>, tr: seq<Visit>): seq<Visit>
    requires !LoopsOnSuccess(def, id)
    decreases |tr|, at == Some(id)
  {
    if at == Some(id) then [Visit(id, true)] + Expand(def, id, Bypass(def, id), tr)
    else if tr == [] then []
    else [tr[0]] + Expand(def, id, Successor(def, tr[0].stepId, tr[0].succeeded), tr[1..])
  }

  lemma EraseHead(v: Visit, rest: seq<Visit>, id: int)
    ensures Erase([v] + rest, id) == (if v.stepId == id then [] else [v]) + Erase(rest, id)
    ensures AlwaysSucceeds([v] + rest, id) <==> (v.stepId == id ==> v.succeeded) && AlwaysSucceeds(rest, id)
  {
    assert ([v] + rest)[1..] == rest;
    if AlwaysSucceeds([v] + rest, id) {
      assert ([v] + rest)[0] == v;
      assert forall i :: 0 <= i < |rest| ==> rest[i] == ([v] + rest)[i + 1];
    }
  }

  lemma RunHead(def: JobDefinition, at: Option<int>, v: Visit, rest: seq<Visit>)
    ensures RunsFrom(def, at, [v] + rest) <==>
            at == Some(v.stepId) && HasStep(def, v.stepId) &&
            RunsFrom(def, Successor(def, v.stepId, v.succeeded), rest)
    ensures EndOf(def, at, [v] + rest) == EndOf(def, Successor(def, v.stepId, v.succeeded), rest)
  {
    assert ([v] + rest)[1..] == rest;
  }

  lemma {:induction false} ExpandedRun(def: JobDefinition, id: int, at: Option<int>, tr: seq<Visit>)
    requires ProperIds(def) && Disables(def, id) && !LoopsOnSuccess(def, id)
    requires RunsFrom(Disabled(def, id), Redirect(def, id, at), tr)
    ensures RunsFrom(def, at, Expand(def, id, at, tr))
    ensures AlwaysSucceeds(Expand(def, id, at, tr), id)
    ensures Erase(Expand(def, id, at, tr), id) == tr
    ensures EndOf(def, at, Expand(def, id, at, tr)) == EndOf(Disabled(def, id), Redirect(def, id, at), tr)
    decreases |tr|, at == Some(id)
  {
    hide DisableStep;
    if at == Some(id) {
      var rest := Expand(def, id, Bypass(def, id), tr);
      ExpandedRun(def, id, Bypass(def, id), tr);
      BypassIsSuccessor(def, id);
      RunHead(def, at, Visit(id, true), rest);
      EraseHead(Visit(id, true), rest, id);
    } else if tr != [] {
      var v := tr[0];
      SameSteps(def, id, v.stepId);
      DisabledSuccessor(def, id, v.stepId, v.succeeded);
      var next := Successor(def, v.stepId, v.succeeded);
      ExpandedRun(def, id, next, tr[1..]);
      RunHead(def, at, v, Expand(def, id, next, tr[1..]));
      EraseHead(v, Expand(def, id, next, tr[1..]), id);
      assert tr == [v] + tr[1..];
    }
  }

  /**
   * The runs of the edited job are the runs of the original in which the
   * disabled step always succeeds, with its visits erased; and they finish
   * exactly when such a run finishes.
   */
  lemma DisabledRuns(def: JobDefinition, id: int, tr: seq<Visit>)
    requires ProperIds(def) && Disables(def, id) && !LoopsOnSuccess(def, id)
    ensures IsRun(Disabled(def, id), tr) <==>
            exists tr0 :: IsRun(def, tr0) && AlwaysSucceeds(tr0, id) && Erase(tr0, id) == tr
    ensures (IsRun(Disabled(def, id), tr) && Finished(Disabled(def, id), tr)) <==>
            exists tr0 :: IsRun(def, tr0) && AlwaysSucceeds(tr0, id) && Erase(tr0, id) == tr && Finished(def, tr0)
  {
    if IsRun(Disabled(def, id), tr) {
      var tr0 := ExpandedFromStart(def, id, tr);
    }
    forall tr0 | IsRun(def, tr0) && AlwaysSucceeds(tr0, id) && Erase(tr0, id) == tr
      ensures IsRun(Disabled(def, id), tr)
      ensures Finished(def, tr0) ==> Finished(Disabled(def, id), tr)
    {
      ErasedFromStart(def, id, tr0);
    }
  }

  lemma ErasedFromStart(def: JobDefinition, id: int, tr0: seq<Visit>)
    requires ProperIds(def) && Disables(def, id)
    requires IsRun(def, tr0) && AlwaysSucceeds(tr0, id)
    ensures IsRun(Disabled(def, id), Erase(tr0, id))
    ensures Current(Disabled(def, id), Erase(tr0, id)) == Redirect(def, id, Current(def, tr0))
    ensures Finished(def, tr0) ==> Finished(Disabled(def, id), Erase(tr0, id))
  {
    ErasedRun(def, id, Some(def.startStepId), tr0);
    DisabledStart(def, id);
    if Current(def, tr0).Some? { SameSteps(def, id, Current(def, tr0).value); }
    assert HasStep(def, id);
  }

  lemma ExpandedFromStart(def: JobDefinition, id: int, tr: seq<Visit>) returns (tr0: seq<Visit>)
    requires ProperIds(def) && Disables(def, id) && !LoopsOnSuccess(def, id)
    requires IsRun(Disabled(def, id), tr)
    ensures IsRun(def, tr0) && AlwaysSucceeds(tr0, id) && Erase(tr0, id) == tr
    ensures Current(def, tr0) == Current(Disabled(def, id), tr)
    ensures Finished(def, tr0) <==> Finished(Disabled(def, id), tr)
  {
    DisabledStart(def, id);
    ExpandedRun(def, id, Some(def.startStepId), tr);
    tr0 := Expand(def, id, Some(def.startStepId), tr);
    var end := Current(Disabled(def, id), tr);
    if end.Some? { SameSteps(def, id, end.value); }
  }

  // ---- reachability --------------------------------------------------------

  lemma {:induction false} LoopingRun(def: JobDefinition, id: int, at: Option<int>, tr: seq<Visit>)
    requires ProperIds(def) && Disables(def, id) && LoopsOnSuccess(def, id)
    ensures RunsFrom(Disabled(def, id), at, tr) <==> RunsFrom(def, at, tr)
    ensures RunsFrom(def, at, tr) ==> EndOf(Disabled(def, id), at, tr) == EndOf(def, at, tr)
    decreases |tr|
  {
    if tr != [] {
      SameSteps(def, id, tr[0].stepId);
      if HasStep(def, tr[0].stepId) {
        DisabledSuccessor(def, id, tr[0].stepId, tr[0].succeeded);
        LoopingRun(def, id, Successor(def, tr[0].stepId, tr[0].succeeded), tr[1..]);
      }
    }
  }

  /** Disabling never opens a path that was not there. */
  lemma NothingNewReachable(def: JobDefinition, id: int, x: int)
    requires ProperIds(def) && Disables(def, id) && Reachable(Disabled(def, id), x)
    ensures Reachable(def, x)
  {
    var d := Disabled(def, id);
    SameSteps(def, id, x);
    DisabledStart(def, id);
    var tr :| IsRun(d, tr) && Current(d, tr) == Some(x);
    if LoopsOnSuccess(def, id) {
      LoopingRun(def, id, Some(def.startStepId), tr);
      assert IsRun(def, tr) && Current(def, tr) == Some(x);
    } else {
      var tr0 := ExpandedFromStart(def, id, tr);
    }
  }

  /**
   * The step is switched off unless its own success branch leads back to it, in
   * which case it is reachable exactly if it was before.
   */
  lemma DisabledIsUnreachable(def: JobDefinition, id: int)
    requires ProperIds(def) && Disables(def, id)
    ensures Reachable(Disabled(def, id), id) <==> LoopsOnSuccess(def, id) && Reachable(def, id)
  {
    var d := Disabled(def, id);
    SameSteps(def, id, id);
    DisabledStart(def, id);
    if LoopsOnSuccess(def, id) {
      if Reachable(def, id) {
        var tr :| IsRun(def, tr) && Current(def, tr) == Some(id);
        LoopingRun(def, id, Some(def.startStepId), tr);
        assert IsRun(d, tr) && Current(d, tr) == Some(id);
      }
      if Reachable(d, id) { NothingNewReachable(def, id, id); }
    } else if Reachable(d, id) {
      ReachableIffVisited(d, id);
      var tr: seq<Visit> :| IsRun(d, tr) && tr != [] && tr[|tr| - 1].stepId == id;
      var tr0 := ExpandedFromStart(def, id, tr);
      EraseForgets(tr0, id);
      assert false;
    }
  }

  /** A step some run reaches with the disabled step always succeeding stays reachable. */
  lemma StillReachable(def: JobDefinition, id: int, tr: seq<Visit>, x: int)
    requires ProperIds(def) && Disables(def, id) && x != id
    requires IsRun(def, tr) && AlwaysSucceeds(tr, id) && Current(def, tr) == Some(x) && HasStep(def, x)
    ensures Reachable(Disabled(def, id), x)
  {
    ErasedFromStart(def, id, tr);
    SameSteps(def, id, x);
  }

  // ---- reachability, read off the job before the edit ----------------------

  function CutStep(s: JobStep, id: int): JobStep {
    if s.stepId == id then s.(onFailAction := QUIT_WITH_FAILURE) else s
  }

  /** The job in which the step's failure ends the run. */
  function Cut(def: JobDefinition, id: int): (r: JobDefinition)
    ensures |r.steps| == |def.steps| && r.startStepId == def.startStepId
    ensures forall i :: 0 <= i < |r.steps| ==> r.steps[i] == CutStep(def.steps[i], id)
  {
    def.(steps := seq(|def.steps|, i requires 0 <= i < |def.steps| => CutStep(def.steps[i], id)))
  }

  lemma CutStepAt(def: JobDefinition, id: int, i: nat)
    requires DistinctIds(def.steps) && i < |def.steps|
    ensures var c, s := Cut(def, id), def.steps[i];
      && LookupStep(def.steps, s.stepId) == Some(s)
      && LookupStep(c.steps, s.stepId) == Some(CutStep(s, id))
      && NextId(c.steps, s.stepId) == NextId(def.steps, s.stepId)
  {
    hide NextId, LookupStep;
    var c := Cut(def, id);
    SameIds(def, c, def.steps[i].stepId);
    LookupAt(def.steps, i);
    LookupAt(c.steps, i);
    NextIdOfSameIds(def.steps, c.steps, def.steps[i].stepId);
  }

  lemma CutSuccessor(def: JobDefinition, id: int, v: Visit)
    requires DistinctIds(def.steps) && HasStep(def, v.stepId)
    ensures Successor(Cut(def, id), v.stepId, v.succeeded) ==
            if v.stepId == id && !v.succeeded then None else Successor(def, v.stepId, v.succeeded)
  {
    hide NextId, LookupStep, Cut;
    var i :| 0 <= i < |def.steps| && def.steps[i].stepId == v.stepId;
    CutStepAt(def, id, i);
  }

  /** Runs in which the step succeeds are the same in both jobs. */
  lemma {:induction false} CutRun(def: JobDefinition, id: int, at: Option<int>, tr: seq<Visit>)
    requires DistinctIds(def.steps) && AlwaysSucceeds(tr, id)
    ensures RunsFrom(Cut(def, id), at, tr) <==> RunsFrom(def, at, tr)
    ensures RunsFrom(def, at, tr) ==> EndOf(Cut(def, id), at, tr) == EndOf(def, at, tr)
    decreases |tr|
  {
    if tr != [] {
      SameIds(def, Cut(def, id), tr[0].stepId);
      if HasStep(def, tr[0].stepId) {
        CutSuccessor(def, id, tr[0]);
        CutRun(def, id, Successor(def, tr[0].stepId, tr[0].succeeded), tr[1..]);
      }
    }
  }

  /** A run that goes on has never failed at the cut step. */
  lemma {:induction false} CutRunSucceeds(def: JobDefinition, id: int, at: Option<int>, tr: seq<Visit>)
    requires DistinctIds(def.steps) && RunsFrom(Cut(def, id), at, tr) && EndOf(Cut(def, id), at, tr).Some?
    ensures AlwaysSucceeds(tr, id)
    decreases |tr|
  {
    hide Erase, Successor;
    if tr != [] {
      SameIds(def, Cut(def, id), tr[0].stepId);
      CutSuccessor(def, id, tr[0]);
      CutRunSucceeds(def, id, Successor(Cut(def, id), tr[0].stepId, tr[0].succeeded), tr[1..]);
      EraseHead(tr[0], tr[1..], id);
      assert tr == [tr[0]] + tr[1..];
    }
  }

  /** What stays reachable is what the job reaches when the step's failure ends it. */
  lemma ReachableAfterDisabling(def: JobDefinition, id: int, x: int)
    requires ProperIds(def) && Disables(def, id) && !LoopsOnSuccess(def, id) && x != id
    ensures Reachable(Disabled(def, id), x) <==> Reachable(Cut(def, id), x)
  {
    var d, c := Disabled(def, id), Cut(def, id);
    SameSteps(def, id, x);
    SameIds(def, c, x);
    if Reachable(d, x) {
      var tr :| IsRun(d, tr) && Current(d, tr) == Some(x);
      var tr0 := ExpandedFromStart(def, id, tr);
      CutRun(def, id, Some(def.startStepId), tr0);
      assert IsRun(c, tr0) && Current(c, tr0) == Some(x);
    }
    if Reachable(c, x) {
      var tr :| IsRun(c, tr) && Current(c, tr) == Some(x);
      CutRunSucceeds(def, id, Some(def.startStepId), tr);
      CutRun(def, id, Some(def.startStepId), tr);
      StillReachable(def, id, tr, x);
    }
  }

  // ---- warnings ------------------------------------------------------------

  predicate JumpsTo(s: JobStep, ok: bool, id: int) {
    s.stepId != id && s.Action(ok) == GO_TO_STEP && s.Target(ok) == id
  }

  lemma RouteWarningsOf(def: JobDefinition, s: JobStep, id: int, name: Text, ok: bool)
    ensures ExplicitBranchRepointed(name, ok) in RouteWarnings(def, s, id) <==> JumpsTo(s, ok, id) && s.name == name
  {}

  lemma {:induction false} RouteWarningsExact(def: JobDefinition, id: int, upTo: nat, name: Text, ok: bool)
    requires upTo <= |def.steps|
    ensures ExplicitBranchRepointed(name, ok) in AllRouteWarnings(def, id, upTo) <==>
            exists i :: 0 <= i < upTo && JumpsTo(def.steps[i], ok, id) && def.steps[i].name == name
  {
    hide RouteWarnings, JumpsTo;
    if upTo > 0 {
      RouteWarningsExact(def, id, upTo - 1, name, ok);
      RouteWarningsOf(def, def.steps[upTo - 1], id, name, ok);
    }
  }

  /** Every explicit branch that was repointed is reported, and nothing else is reported as one. */
  lemma RepointedBranchesAreReported(def: JobDefinition, id: int, name: Text, ok: bool)
    requires Disables(def, id)
    ensures ExplicitBranchRepointed(name, ok) in DisableStep(def, id).warnings <==>
            exists i :: 0 <= i < |def.steps| && JumpsTo(def.steps[i], ok, id) && def.steps[i].name == name
  {
    RouteWarningsExact(def, id, |def.steps|, name, ok);
  }
}
