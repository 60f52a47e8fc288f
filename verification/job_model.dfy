/** The `JobDefinition.v1` record: what the editor changes and the canonicaliser serialises. */
module JobModel {
  import opened Wrappers
  import opened Sorting
  import opened Utf16

  // StepAction. The schema lets any integer through; every other value ends the job.
  const QUIT_WITH_SUCCESS := 1
  const QUIT_WITH_FAILURE := 2
  const GO_TO_NEXT_STEP := 3
  const GO_TO_STEP := 4

  datatype JobStep = JobStep(
    stepId: int,
    name: Text,
    subsystem: Text,
    command: Text,
    databaseName: Option<Text>,
    databaseUserName: Option<Text>,
    onSuccessAction: int,
    onSuccessStepId: int,
    onFailAction: int,
    onFailStepId: int,
    retryAttempts: int,
    retryIntervalMinutes: int,
    outputFileName: Option<Text>,
    flags: int,
    proxyName: Option<Text>)
  {
    /** The action and target of one branch, selected as the source selects `on${Branch}Action`. */
    function Action(onSuccess: bool): int {
      if onSuccess then onSuccessAction else onFailAction
    }

    function Target(onSuccess: bool): int {
      if onSuccess then onSuccessStepId else onFailStepId
    }

    function WithBranch(onSuccess: bool, action: int, target: int): JobStep {
      if onSuccess then this.(onSuccessAction := action, onSuccessStepId := target)
      else this.(onFailAction := action, onFailStepId := target)
    }

    /** The step with its position and control flow blanked: what an edit must never alter. */
    function Body(): JobStep {
      this.(stepId := 0, onSuccessAction := 0, onSuccessStepId := 0, onFailAction := 0, onFailStepId := 0)
    }
  }

  datatype Notifications = Notifications(
    emailOperatorName: Option<Text>,
    emailLevel: int,
    netsendOperatorName: Option<Text>,
    netsendLevel: int,
    pageOperatorName: Option<Text>,
    pageLevel: int,
    eventlogLevel: int,
    deleteLevel: int)

  datatype ScheduleDefinition = ScheduleDefinition(
    name: Text,
    enabled: bool,
    freqType: int,
    freqInterval: int,
    freqSubdayType: int,
    freqSubdayInterval: int,
    freqRelativeInterval: int,
    freqRecurrenceFactor: int,
    activeStartDate: int,
    activeEndDate: int,
    activeStartTime: int,
    activeEndTime: int)

  datatype JobDefinition = JobDefinition(
    name: Text,
    description: Option<Text>,
    enabled: bool,
    categoryName: Option<Text>,
    ownerLoginName: Option<Text>,
    startStepId: int,
    notifications: Notifications,
    steps: seq<JobStep>,
    schedules: seq<ScheduleDefinition>,
    targetServers: seq<Text>)

  // ---- step identity -------------------------------------------------------

  ghost predicate HasStep(def: JobDefinition, id: int) {
    exists i :: 0 <= i < |def.steps| && def.steps[i].stepId == id
  }

  ghost predicate DistinctIds(steps: seq<JobStep>) {
    forall i, j :: 0 <= i < j < |steps| ==> steps[i].stepId != steps[j].stepId
  }

  /** `Array.find`: the first step carrying the id. */
  function FindStep(steps: seq<JobStep>, id: int): (r: Option<JobStep>)
    ensures r.Some? ==> r.value in steps && r.value.stepId == id
    ensures r.None? ==> forall i :: 0 <= i < |steps| ==> steps[i].stepId != id
  {
    if steps == [] then None
    else if steps[0].stepId == id then Some(steps[0])
    else FindStep(steps[1..], id)
  }

  /** `new Map(steps.map(...)).get(id)`: a later duplicate overwrites an earlier one. */
  function LookupStep(steps: seq<JobStep>, id: int): (r: Option<JobStep>)
    ensures r.Some? ==> r.value in steps && r.value.stepId == id
    ensures r.None? ==> forall i :: 0 <= i < |steps| ==> steps[i].stepId != id
  {
    if steps == [] then None
    else if steps[|steps| - 1].stepId == id then Some(steps[|steps| - 1])
    else LookupStep(steps[..|steps| - 1], id)
  }

  lemma {:induction false} LookupAt(steps: seq<JobStep>, i: nat)
    requires DistinctIds(steps) && i < |steps|
    ensures FindStep(steps, steps[i].stepId) == Some(steps[i])
    ensures LookupStep(steps, steps[i].stepId) == Some(steps[i])
  {
    var id := steps[i].stepId;
    var f, l := FindStep(steps, id), LookupStep(steps, id);
    assert f.Some? && l.Some?;
    var j :| 0 <= j < |steps| && steps[j] == f.value;
    var k :| 0 <= k < |steps| && steps[k] == l.value;
    assert j == i && k == i;
  }

  // ---- order ---------------------------------------------------------------

  predicate StepIdLe(a: JobStep, b: JobStep) { a.stepId <= b.stepId }

  /** `[...steps].sort((a, b) => a.stepId - b.stepId)`. */
  function Ordered(steps: seq<JobStep>): seq<JobStep> {
    Sort(steps, StepIdLe)
  }

  /** The ids are exactly 1..n, in whatever array order. */
  ghost predicate Numbered(steps: seq<JobStep>) {
    && DistinctIds(steps)
    && forall i :: 0 <= i < |steps| ==> 1 <= steps[i].stepId <= |steps|
  }

  lemma OrderedDistinct(steps: seq<JobStep>)
    requires DistinctIds(steps)
    ensures DistinctIds(Ordered(steps))
    ensures forall i, j :: 0 <= i < j < |Ordered(steps)| ==> Ordered(steps)[i].stepId < Ordered(steps)[j].stepId
  {
    var o := Ordered(steps);
    SortPermutes(steps, StepIdLe);
    SortSorted(steps, StepIdLe);
    RearrangedNoDuplicates(steps, o);
    forall i, j | 0 <= i < j < |o| ensures o[i].stepId < o[j].stepId {
      assert StepIdLe(o[i], o[j]) && o[i] in steps && o[j] in steps && o[i] != o[j];
    }
  }

  lemma StrictlyRisingIsNumbered(o: seq<JobStep>)
    requires forall i, j :: 0 <= i < j < |o| ==> o[i].stepId < o[j].stepId
    requires forall i :: 0 <= i < |o| ==> 1 <= o[i].stepId <= |o|
    ensures forall i :: 0 <= i < |o| ==> o[i].stepId == i + 1
  {
    var n := |o|;
    for i := 0 to n
      invariant forall k :: 0 <= k < i ==> o[k].stepId >= k + 1
    {
      assert i > 0 ==> o[i - 1].stepId < o[i].stepId;
    }
    for i := n downto 0
      invariant forall k :: i <= k < n ==> o[k].stepId <= k + 1
    {
      assert i + 1 < n ==> o[i].stepId < o[i + 1].stepId;
    }
  }

  /** A job numbered 1..n is read in order: slot `i` holds step `i + 1`. */
  lemma OrderedNumbered(steps: seq<JobStep>)
    requires Numbered(steps)
    ensures |Ordered(steps)| == |steps|
    ensures forall i :: 0 <= i < |steps| ==> Ordered(steps)[i].stepId == i + 1 && Ordered(steps)[i] in steps
    ensures forall i :: 0 <= i < |steps| ==> FindStep(steps, i + 1) == Some(Ordered(steps)[i])
  {
    var o := Ordered(steps);
    OrderedDistinct(steps);
    SortPermutes(steps, StepIdLe);
    forall i | 0 <= i < |o| ensures 1 <= o[i].stepId <= |o| { assert o[i] in steps; }
    StrictlyRisingIsNumbered(o);
    hide Ordered, DistinctIds;
    forall i | 0 <= i < |steps|
      ensures o[i].stepId == i + 1 && o[i] in steps && FindStep(steps, i + 1) == Some(o[i])
    {
      FindsMember(steps, o[i]);
    }
  }

  lemma FindsMember(steps: seq<JobStep>, s: JobStep)
    requires DistinctIds(steps) && s in steps
    ensures FindStep(steps, s.stepId) == Some(s)
  {
    var k :| 0 <= k < |steps| && steps[k] == s;
    LookupAt(steps, k);
  }

  lemma OrderedInOrder(steps: seq<JobStep>)
    requires forall i :: 0 <= i < |steps| ==> steps[i].stepId == i + 1
    ensures Ordered(steps) == steps
  {
    SortOfSorted(steps, StepIdLe);
  }
}
