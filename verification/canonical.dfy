/** The canonical text of a job: what drift detection compares. */
module Canonical {
  import opened Wrappers
  import opened Sorting
  import opened Utf16
  import opened TextNormalise
  import opened Json
  import opened JobModel
  import opened JsValues
  import opened SortKeys
  import opened JobRecord
  import opened JobSchema

  // ---- the normalised job --------------------------------------------------

  function ScheduleText(s: ScheduleDefinition): string {
    ScheduleWritable(s);
    SortedExactly(ScheduleToJs(s));
    CanonicalText(ScheduleToJs(s)).value
  }

  /** By name, then by the whole schedule. */
  predicate ScheduleLe(s: ScheduleDefinition, t: ScheduleDefinition) {
    if s.name != t.name then TextLe(s.name, t.name) else TextLe(Units(ScheduleText(s)), Units(ScheduleText(t)))
  }

  function NormaliseStep(s: JobStep): JobStep { s.(command := NormaliseText(s.command)) }

  function NormaliseSteps(steps: seq<JobStep>): (r: seq<JobStep>)
    ensures |r| == |steps| && forall i :: 0 <= i < |r| ==> r[i] == NormaliseStep(steps[i])
  {
    seq(|steps|, i requires 0 <= i < |steps| => NormaliseStep(steps[i]))
  }

  function NormaliseJob(job: JobDefinition): JobDefinition {
    job.(
      description := match job.description case None => None case Some(d) => Some(NormaliseText(d)),
      steps := NormaliseSteps(Ordered(job.steps)),
      schedules := Sort(job.schedules, ScheduleLe),
      targetServers := Sort(job.targetServers, TextLe))
  }

  /** The text of a parsed job. */
  function CanonicalJob(job: JobDefinition): string {
    JobWritable(NormaliseJob(job));
    SortedExactly(JobToJs(NormaliseJob(job)));
    CanonicalText(JobToJs(NormaliseJob(job))).value
  }

  /** `canonicaliseJob`: validate, normalise, serialise. */
  function CanonicaliseJob(v: JsValue): Option<string> {
    match ReadJob(v) case None => None case Some(job) => Some(CanonicalJob(job))
  }

  function ParseJobDefinition(text: string): Option<JobDefinition> {
    match Parse(text) case None => None case Some(j) => ReadJob(FromJson(j))
  }

  // ---- what the text stands for --------------------------------------------

  ghost predicate SameStep(s: JobStep, t: JobStep) {
    s.(command := []) == t.(command := []) && SameText(s.command, t.command)
  }

  ghost predicate SameDescription(d: Option<Text>, e: Option<Text>) {
    d.Some? == e.Some? && (d.Some? && e.Some? ==> SameText(d.value, e.value))
  }

  /** The steps that carry an id, in array order. */
  function WithId(steps: seq<JobStep>, id: int): (r: seq<JobStep>)
    ensures forall s :: s in r <==> s in steps && s.stepId == id
  {
    if steps == [] then []
    else (if steps[0].stepId == id then [steps[0]] else []) + WithId(steps[1..], id)
  }

  ghost predicate SameList(s: seq<JobStep>, t: seq<JobStep>) {
    |s| == |t| && forall i :: 0 <= i < |s| ==> SameStep(s[i], t[i])
  }

  /** For every id the same steps, those that share one in the same array order. */
  ghost predicate SameSteps(s: seq<JobStep>, t: seq<JobStep>) {
    forall id :: SameList(WithId(s, id), WithId(t, id))
  }

  /** Each step has its counterpart, wherever it stands in the array. */
  ghost predicate Matched(s: seq<JobStep>, t: seq<JobStep>) {
    && (forall i :: 0 <= i < |s| ==> HasTwin(s[i], t))
    && (forall j :: 0 <= j < |t| ==> HasTwin(t[j], s))
  }

  ghost predicate HasTwin(s: JobStep, t: seq<JobStep>) {
    exists j :: 0 <= j < |t| && SameStep(s, t[j])
  }

  /** Everything but the steps, text layout and the order of schedules and target servers aside. */
  ghost predicate SameSettings(a: JobDefinition, b: JobDefinition) {
    && a.name == b.name && a.enabled == b.enabled && a.categoryName == b.categoryName
    && a.ownerLoginName == b.ownerLoginName && a.startStepId == b.startStepId
    && a.notifications == b.notifications && SameDescription(a.description, b.description)
    && multiset(a.schedules) == multiset(b.schedules)
    && multiset(a.targetServers) == multiset(b.targetServers)
  }

  /** The same job: steps with different ids may stand in any order. */
  ghost predicate Equivalent(a: JobDefinition, b: JobDefinition) {
    SameSettings(a, b) && SameSteps(a.steps, b.steps)
  }

  // ---- schedules and servers -----------------------------------------------

  lemma ScheduleTextInjective(s: ScheduleDefinition, t: ScheduleDefinition)
    requires ScheduleText(s) == ScheduleText(t)
    ensures s == t
  {
    ScheduleWritable(s);
    ScheduleWritable(t);
    SortedExactly(ScheduleToJs(s));
    SortedExactly(ScheduleToJs(t));
    CanonicalTextDecides(ScheduleToJs(s), ScheduleToJs(t));
    ScheduleSameRead(ScheduleToJs(s), ScheduleToJs(t));
    ScheduleReadsBack(s);
    ScheduleReadsBack(t);
  }

  /** The tiebreak makes the order total: only equal schedules tie. */
  lemma ScheduleLeOrders(s: ScheduleDefinition, t: ScheduleDefinition)
    ensures ScheduleLe(s, t) || ScheduleLe(t, s)
    ensures ScheduleLe(s, t) && ScheduleLe(t, s) ==> s == t
  {
    TextLeTotal(s.name, t.name);
    TextLeTotal(Units(ScheduleText(s)), Units(ScheduleText(t)));
    if ScheduleLe(s, t) && ScheduleLe(t, s) {
      if s.name != t.name {
        TextLeAntisymmetric(s.name, t.name);
      } else {
        TextLeAntisymmetric(Units(ScheduleText(s)), Units(ScheduleText(t)));
        UnitsInjective(ScheduleText(s), ScheduleText(t));
        ScheduleTextInjective(s, t);
      }
    }
  }

  lemma ScheduleLeTransitive(s: ScheduleDefinition, t: ScheduleDefinition, u: ScheduleDefinition)
    requires ScheduleLe(s, t) && ScheduleLe(t, u)
    ensures ScheduleLe(s, u)
  {
    if s.name == t.name && t.name == u.name {
      TextLeTransitive(Units(ScheduleText(s)), Units(ScheduleText(t)), Units(ScheduleText(u)));
    } else if s.name == u.name {
      TextLeAntisymmetric(s.name, t.name);
    } else if s.name != t.name && t.name != u.name {
      TextLeTransitive(s.name, t.name, u.name);
    }
  }

  lemma ScheduleLePreorder()
    ensures TotalPreorder(ScheduleLe)
  {
    forall s, t ensures ScheduleLe(s, t) || ScheduleLe(t, s) { ScheduleLeOrders(s, t); }
    forall s, t, u | ScheduleLe(s, t) && ScheduleLe(t, u) ensures ScheduleLe(s, u) {
      ScheduleLeTransitive(s, t, u);
    }
  }

  lemma TextLePreorder()
    ensures TotalPreorder(TextLe)
  {
    forall s, t ensures TextLe(s, t) || TextLe(t, s) { TextLeTotal(s, t); }
    forall s, t, u | TextLe(s, t) && TextLe(t, u) ensures TextLe(s, u) { TextLeTransitive(s, t, u); }
  }

  lemma SchedulesDecide(s: seq<ScheduleDefinition>, t: seq<ScheduleDefinition>)
    ensures Sort(s, ScheduleLe) == Sort(t, ScheduleLe) <==> multiset(s) == multiset(t)
  {
    SortPermutes(s, ScheduleLe);
    SortPermutes(t, ScheduleLe);
    if multiset(s) == multiset(t) {
      ScheduleLePreorder();
      forall x, y | x in s && y in s && ScheduleLe(x, y) && ScheduleLe(y, x) ensures x == y {
        ScheduleLeOrders(x, y);
      }
      SortIgnoresOrder(s, t, ScheduleLe);
    }
  }

  lemma ServersDecide(s: seq<Text>, t: seq<Text>)
    ensures Sort(s, TextLe) == Sort(t, TextLe) <==> multiset(s) == multiset(t)
  {
    SortPermutes(s, TextLe);
    SortPermutes(t, TextLe);
    if multiset(s) == multiset(t) {
      TextLePreorder();
      forall x, y | x in s && y in s && TextLe(x, y) && TextLe(y, x) ensures x == y {
        TextLeAntisymmetric(x, y);
      }
      SortIgnoresOrder(s, t, TextLe);
    }
  }

  // ---- steps ---------------------------------------------------------------

  lemma NormaliseStepDecides(s: JobStep, t: JobStep)
    ensures NormaliseStep(s) == NormaliseStep(t) <==> SameStep(s, t)
  {
    NormaliseDecides(s.command, t.command);
  }

  lemma WithIdStep(x: JobStep, s: seq<JobStep>, id: int)
    ensures WithId([x] + s, id) == (if x.stepId == id then [x] else []) + WithId(s, id)
  {
    assert ([x] + s)[1..] == s;
  }

  lemma {:induction false} InsertKeepsIds(x: JobStep, s: seq<JobStep>, id: int)
    ensures WithId(Insert(x, s, StepIdLe), id) == WithId([x] + s, id)
  {
    hide WithId;
    if s != [] && !StepIdLe(x, s[0]) {
      var rest := Insert(x, s[1..], StepIdLe);
      assert Insert(x, s, StepIdLe) == [s[0]] + rest;
      InsertKeepsIds(x, s[1..], id);
      hide Insert;
      WithIdStep(s[0], rest, id);
      SwapKeepsIds(x, s[0], s[1..], id);
      assert s == [s[0]] + s[1..];
    }
  }

  /** Two steps with different ids may change places. */
  lemma SwapKeepsIds(x: JobStep, y: JobStep, s: seq<JobStep>, id: int)
    requires x.stepId != y.stepId
    ensures WithId([x] + ([y] + s), id) == (if y.stepId == id then [y] else []) + WithId([x] + s, id)
  {
    hide WithId;
    WithIdStep(x, s, id);
    WithIdStep(y, s, id);
    WithIdStep(x, [y] + s, id);
    if x.stepId == id {
      assert [x] + ([] + WithId(s, id)) == [] + ([x] + WithId(s, id));
    } else {
      assert [] + WithId([y] + s, id) == WithId([y] + s, id) && [] + WithId(s, id) == WithId(s, id);
    }
  }

  /** Sorting by id moves no step past one with its own id. */
  lemma {:induction false} OrderedKeepsIds(s: seq<JobStep>, id: int)
    ensures WithId(Ordered(s), id) == WithId(s, id)
  {
    if s != [] {
      OrderedKeepsIds(s[1..], id);
      InsertKeepsIds(s[0], Ordered(s[1..]), id);
      assert ([s[0]] + Ordered(s[1..]))[1..] == Ordered(s[1..]);
    }
  }

  lemma {:induction false} SameListsWithId(s: seq<JobStep>, t: seq<JobStep>, id: int)
    requires SameList(s, t)
    ensures SameList(WithId(s, id), WithId(t, id))
  {
    if s != [] {
      assert SameStep(s[0], t[0]);
      forall i | 0 <= i < |s| - 1 ensures SameStep(s[1..][i], t[1..][i]) { assert SameStep(s[i + 1], t[i + 1]); }
      SameListsWithId(s[1..], t[1..], id);
    }
  }

  lemma LowestIsThere(s: seq<JobStep>, t: seq<JobStep>)
    requires s != [] && SortedBy(t, StepIdLe) && SameSteps(s, t)
    ensures t != [] && t[0].stepId <= s[0].stepId
  {
    var id := s[0].stepId;
    assert s[0] in WithId(s, id);
    assert |WithId(t, id)| == |WithId(s, id)| > 0 by { assert SameList(WithId(s, id), WithId(t, id)); }
    var x := WithId(t, id)[0];
    assert x in t && x.stepId == id;
    var k :| 0 <= k < |t| && t[k] == x;
    assert k > 0 ==> StepIdLe(t[0], t[k]);
  }

  lemma TailsSame(u: seq<JobStep>, w: seq<JobStep>)
    requires SameList(u, w) && u != []
    ensures SameStep(u[0], w[0]) && SameList(u[1..], w[1..])
  {
    forall i | 0 <= i < |u| - 1 ensures SameStep(u[1..][i], w[1..][i]) { assert SameStep(u[i + 1], w[i + 1]); }
  }

  lemma WithIdOfTail(s: seq<JobStep>, id: int)
    requires s != []
    ensures WithId(s[1..], id) == if s[0].stepId == id then WithId(s, id)[1..] else WithId(s, id)
    ensures s[0].stepId == id ==> WithId(s, id)[0] == s[0]
  {}

  lemma TailsWithId(s: seq<JobStep>, t: seq<JobStep>)
    requires s != [] && t != [] && s[0].stepId == t[0].stepId && SameSteps(s, t)
    ensures SameStep(s[0], t[0]) && SameSteps(s[1..], t[1..])
  {
    hide WithId, SameStep, SameList;
    var id := s[0].stepId;
    WithIdOfTail(s, id);
    WithIdOfTail(t, id);
    assert s[0] in WithId(s, id);
    TailsSame(WithId(s, id), WithId(t, id));
    forall other ensures SameList(WithId(s[1..], other), WithId(t[1..], other)) {
      WithIdOfTail(s, other);
      WithIdOfTail(t, other);
    }
  }

  /** In id order, the same steps under every id means the same list. */
  lemma {:induction false} SortedSame(s: seq<JobStep>, t: seq<JobStep>)
    requires SortedBy(s, StepIdLe) && SortedBy(t, StepIdLe) && SameSteps(s, t)
    ensures SameList(s, t)
  {
    if s != [] { LowestIsThere(s, t); }
    if t != [] { Mirrored(s, t); LowestIsThere(t, s); }
    if s != [] {
      TailsWithId(s, t);
      SortedSame(s[1..], t[1..]);
      forall i | 0 <= i < |s| ensures SameStep(s[i], t[i]) {
        if i > 0 { assert SameStep(s[1..][i - 1], t[1..][i - 1]); }
      }
    }
  }

  lemma Mirrored(s: seq<JobStep>, t: seq<JobStep>)
    requires SameSteps(s, t)
    ensures SameSteps(t, s)
  {
    forall id ensures SameList(WithId(t, id), WithId(s, id)) {
      var u, w := WithId(s, id), WithId(t, id);
      assert SameList(u, w);
      forall i | 0 <= i < |u| ensures SameStep(w[i], u[i]) { assert SameStep(u[i], w[i]); }
    }
  }

  lemma OrderedSame(s: seq<JobStep>, t: seq<JobStep>)
    ensures SameList(Ordered(s), Ordered(t)) <==> SameSteps(s, t)
  {
    forall id ensures WithId(Ordered(s), id) == WithId(s, id) && WithId(Ordered(t), id) == WithId(t, id) {
      OrderedKeepsIds(s, id);
      OrderedKeepsIds(t, id);
    }
    assert SameSteps(Ordered(s), Ordered(t)) <==> SameSteps(s, t);
    if SameSteps(s, t) {
      SortSorted(s, StepIdLe);
      SortSorted(t, StepIdLe);
      SortedSame(Ordered(s), Ordered(t));
    }
    if SameList(Ordered(s), Ordered(t)) {
      forall id ensures SameList(WithId(Ordered(s), id), WithId(Ordered(t), id)) {
        SameListsWithId(Ordered(s), Ordered(t), id);
      }
    }
  }

  lemma NormalListsDecide(o: seq<JobStep>, p: seq<JobStep>)
    ensures NormaliseSteps(o) == NormaliseSteps(p) <==> SameList(o, p)
  {
    forall i | 0 <= i < |o| && i < |p| ensures NormaliseStep(o[i]) == NormaliseStep(p[i]) <==> SameStep(o[i], p[i]) {
      NormaliseStepDecides(o[i], p[i]);
    }
    if NormaliseSteps(o) == NormaliseSteps(p) {
      assert |o| == |NormaliseSteps(o)| == |p|;
      forall i | 0 <= i < |o| ensures SameStep(o[i], p[i]) {
        assert NormaliseSteps(o)[i] == NormaliseSteps(p)[i];
      }
    }
  }

  /** Repeated ids or not: the steps normalise alike exactly when every id carries the same steps in the same order. */
  lemma StepsDecide(s: seq<JobStep>, t: seq<JobStep>)
    ensures NormaliseSteps(Ordered(s)) == NormaliseSteps(Ordered(t)) <==> SameSteps(s, t)
  {
    OrderedSame(s, t);
    NormalListsDecide(Ordered(s), Ordered(t));
  }

  // ---- steps with distinct ids ---------------------------------------------

  ghost predicate Rising(s: seq<JobStep>) {
    forall i, j :: 0 <= i < j < |s| ==> s[i].stepId < s[j].stepId
  }

  lemma FirstTwins(s: seq<JobStep>, t: seq<JobStep>)
    requires s != [] && t != [] && Rising(s) && Rising(t) && HasTwin(s[0], t) && HasTwin(t[0], s)
    ensures SameStep(s[0], t[0])
  {
    var j :| 0 <= j < |t| && SameStep(s[0], t[j]);
    var i :| 0 <= i < |s| && SameStep(t[0], s[i]);
    assert s[0].stepId == t[j].stepId && t[0].stepId == s[i].stepId;
  }

  /** In two rising lists of counterparts, counterparts stand at the same place. */
  lemma {:induction false} RisingTwins(s: seq<JobStep>, t: seq<JobStep>)
    requires Rising(s) && Rising(t) && Matched(s, t)
    ensures SameList(s, t)
  {
    if s == [] || t == [] {
      assert (t != [] ==> HasTwin(t[0], s)) && (s != [] ==> HasTwin(s[0], t));
    } else {
      FirstTwins(s, t);
      TwinsOfTails(s, t);
      TwinsOfTails(t, s);
      RisingTwins(s[1..], t[1..]);
      forall k | 0 <= k < |s| ensures SameStep(s[k], t[k]) {
        if k > 0 { assert SameStep(s[1..][k - 1], t[1..][k - 1]); }
      }
    }
  }

  lemma TwinsOfTails(s: seq<JobStep>, t: seq<JobStep>)
    requires s != [] && t != [] && Rising(s) && Rising(t) && SameStep(s[0], t[0])
    requires forall i :: 0 <= i < |s| ==> HasTwin(s[i], t)
    ensures forall i :: 0 <= i < |s| - 1 ==> HasTwin(s[1..][i], t[1..])
  {
    forall i | 0 <= i < |s| - 1 ensures HasTwin(s[1..][i], t[1..]) {
      assert HasTwin(s[i + 1], t);
      var j :| 0 <= j < |t| && SameStep(s[i + 1], t[j]);
      assert s[0].stepId < s[i + 1].stepId;
      assert t[1..][j - 1] == t[j];
    }
  }

  lemma OrderedTwins(s: seq<JobStep>, t: seq<JobStep>)
    ensures Matched(Ordered(s), Ordered(t)) <==> Matched(s, t)
  {
    SortPermutes(s, StepIdLe);
    SortPermutes(t, StepIdLe);
    TwinsAnywhere(s, Ordered(s), t, Ordered(t));
    TwinsAnywhere(Ordered(s), s, Ordered(t), t);
  }

  lemma TwinsAnywhere(s: seq<JobStep>, u: seq<JobStep>, t: seq<JobStep>, w: seq<JobStep>)
    requires (forall x :: x in s <==> x in u) && (forall x :: x in t <==> x in w)
    ensures Matched(s, t) ==> Matched(u, w)
  {
    if Matched(s, t) {
      forall i | 0 <= i < |u| ensures HasTwin(u[i], w) { TwinElsewhere(s, u[i], t, w); }
      forall j | 0 <= j < |w| ensures HasTwin(w[j], u) { TwinElsewhere(t, w[j], s, u); }
    }
  }

  lemma TwinElsewhere(s: seq<JobStep>, x: JobStep, t: seq<JobStep>, w: seq<JobStep>)
    requires x in s && (forall i :: 0 <= i < |s| ==> HasTwin(s[i], t)) && (forall y :: y in t <==> y in w)
    ensures HasTwin(x, w)
  {
    var k :| 0 <= k < |s| && s[k] == x;
    assert HasTwin(s[k], t);
    var j :| 0 <= j < |t| && SameStep(x, t[j]);
    assert t[j] in w;
  }

  lemma ListsAreMatched(o: seq<JobStep>, p: seq<JobStep>)
    requires SameList(o, p)
    ensures Matched(o, p)
  {
    forall i | 0 <= i < |o| ensures HasTwin(o[i], p) && HasTwin(p[i], o) {
      assert SameStep(o[i], p[i]) && SameStep(p[i], o[i]);
    }
  }

  /** Where no id repeats, it does not matter where in the array a step stands. */
  lemma DistinctStepsDecide(s: seq<JobStep>, t: seq<JobStep>)
    requires DistinctIds(s) && DistinctIds(t)
    ensures SameSteps(s, t) <==> Matched(s, t)
  {
    OrderedDistinct(s);
    OrderedDistinct(t);
    OrderedTwins(s, t);
    OrderedSame(s, t);
    if Matched(s, t) { RisingTwins(Ordered(s), Ordered(t)); }
    if SameSteps(s, t) { ListsAreMatched(Ordered(s), Ordered(t)); }
  }

  // ---- the theorems --------------------------------------------------------

  lemma DescriptionDecides(d: Option<Text>, e: Option<Text>)
    requires d.Some? && e.Some?
    ensures NormaliseText(d.value) == NormaliseText(e.value) <==> SameDescription(d, e)
  {
    NormaliseDecides(d.value, e.value);
  }

  lemma NormaliseJobDecides(a: JobDefinition, b: JobDefinition)
    ensures NormaliseJob(a) == NormaliseJob(b) <==> Equivalent(a, b)
  {
    if a.description.Some? && b.description.Some? { DescriptionDecides(a.description, b.description); }
    StepsDecide(a.steps, b.steps);
    SchedulesDecide(a.schedules, b.schedules);
    ServersDecide(a.targetServers, b.targetServers);
  }

  lemma JobTextInjective(a: JobDefinition, b: JobDefinition)
    requires CanonicalText(JobToJs(a)) == CanonicalText(JobToJs(b))
    ensures a == b
  {
    JobWritable(a);
    JobWritable(b);
    SortedExactly(JobToJs(a));
    SortedExactly(JobToJs(b));
    CanonicalTextDecides(JobToJs(a), JobToJs(b));
    ShapeSameRead(JobToJs(a), JobToJs(b));
    ShapeReadsBack(a);
    ShapeReadsBack(b);
  }

  /** Two jobs get the same canonical text exactly when they are the same job. */
  lemma CanonicalJobDecides(a: JobDefinition, b: JobDefinition)
    ensures CanonicalJob(a) == CanonicalJob(b) <==> Equivalent(a, b)
  {
    hide CanonicalJob, NormaliseJob, Equivalent;
    NormaliseJobDecides(a, b);
    SameTextSameNormal(a, b);
  }

  /** With distinct ids: when their settings agree and each step has its counterpart. */
  lemma DistinctIdsDecide(a: JobDefinition, b: JobDefinition)
    requires DistinctIds(a.steps) && DistinctIds(b.steps)
    ensures CanonicalJob(a) == CanonicalJob(b) <==> SameSettings(a, b) && Matched(a.steps, b.steps)
  {
    hide CanonicalJob, SameSettings, SameSteps, Matched;
    CanonicalJobDecides(a, b);
    DistinctStepsDecide(a.steps, b.steps);
  }

  lemma SameTextSameNormal(a: JobDefinition, b: JobDefinition)
    ensures CanonicalJob(a) == CanonicalJob(b) <==> NormaliseJob(a) == NormaliseJob(b)
  {
    hide Units;
    var x, y := JobToJs(NormaliseJob(a)), JobToJs(NormaliseJob(b));
    JobWritable(NormaliseJob(a));
    JobWritable(NormaliseJob(b));
    SortedExactly(x);
    SortedExactly(y);
    if CanonicalJob(a) == CanonicalJob(b) {
      assert CanonicalText(x) == CanonicalText(y);
      JobTextInjective(NormaliseJob(a), NormaliseJob(b));
    }
  }

  lemma PairTwins(s: JobStep, t: JobStep)
    ensures Matched([s, t], [t, s])
  {
    assert SameStep(s, [s, t][0]) && SameStep(t, [s, t][1]) && SameStep(s, [t, s][1]) && SameStep(t, [t, s][0]);
    assert HasTwin(s, [s, t]) && HasTwin(t, [s, t]) && HasTwin(s, [t, s]) && HasTwin(t, [t, s]);
  }

  lemma PairStays(s: JobStep, t: JobStep)
    requires s.stepId == t.stepId
    ensures NormaliseSteps(Ordered([s, t]))[0].name == s.name
  {
    SortOfSorted([s, t], StepIdLe);
  }

  /** Steps that share an id are told apart by their place in the array, so reordering them shows as drift. */
  lemma DuplicateIdsKeepTheirOrder(job: JobDefinition, s: JobStep, t: JobStep)
    requires s.stepId == t.stepId && s.name != t.name
    ensures SameSettings(job.(steps := [s, t]), job.(steps := [t, s])) && Matched([s, t], [t, s])
    ensures CanonicalJob(job.(steps := [s, t])) != CanonicalJob(job.(steps := [t, s]))
  {
    PairTwins(s, t);
    PairStays(s, t);
    PairStays(t, s);
    SameTextSameNormal(job.(steps := [s, t]), job.(steps := [t, s]));
  }

  lemma NormaliseStepsTwice(o: seq<JobStep>)
    requires SortedBy(o, StepIdLe)
    ensures NormaliseSteps(Ordered(NormaliseSteps(o))) == NormaliseSteps(o)
  {
    var n := NormaliseSteps(o);
    forall i, j | 0 <= i < j < |n| ensures StepIdLe(n[i], n[j]) { assert StepIdLe(o[i], o[j]); }
    SortOfSorted(n, StepIdLe);
    forall i | 0 <= i < |n| ensures NormaliseStep(n[i]) == n[i] { NormaliseTwice(o[i].command); }
  }

  /** Canonicalising is idempotent. */
  lemma NormaliseJobTwice(job: JobDefinition)
    ensures NormaliseJob(NormaliseJob(job)) == NormaliseJob(job)
  {
    if job.description.Some? { NormaliseTwice(job.description.value); }
    SortSorted(job.steps, StepIdLe);
    NormaliseStepsTwice(Ordered(job.steps));
    ScheduleLePreorder();
    SortSorted(job.schedules, ScheduleLe);
    SortOfSorted(Sort(job.schedules, ScheduleLe), ScheduleLe);
    TextLePreorder();
    SortSorted(job.targetServers, TextLe);
    SortOfSorted(Sort(job.targetServers, TextLe), TextLe);
  }

  lemma NormalisedIsValid(job: JobDefinition)
    requires ValidJob(job)
    ensures ValidJob(NormaliseJob(job))
  {
    var n := NormaliseJob(job);
    SortPermutes(job.steps, StepIdLe);
    SortPermutes(job.schedules, ScheduleLe);
    forall s | s in n.steps ensures ValidStep(s) {
      var i :| 0 <= i < |n.steps| && n.steps[i] == s;
      assert Ordered(job.steps)[i] in job.steps;
    }
  }

  /** Parsing the canonical text of a valid job gives the normalised job back. */
  lemma ParseCanonicalJob(job: JobDefinition)
    requires ValidJob(job)
    ensures ParseJobDefinition(CanonicalJob(job)) == Some(NormaliseJob(job))
  {
    var n := NormaliseJob(job);
    NormalisedIsValid(job);
    ReadFromText(n);
  }

  lemma ReadFromText(n: JobDefinition)
    requires ValidJob(n)
    ensures CanonicalText(JobToJs(n)).Some? && ParseJobDefinition(CanonicalText(JobToJs(n)).value) == Some(n)
  {
    var v := JobToJs(n);
    JobWritable(n);
    SortedExactly(v);
    CanonicalTextReadsBack(v);
    JobSameRead(v, FromJson(Parse(CanonicalText(v).value).value));
    JobReadsBack(n);
  }

  /** The order of an object's keys, at any depth, never reaches the text; nor does reading the text again. */
  lemma CanonicaliseIgnoresKeyOrder(v: JsValue, w: JsValue)
    requires Proper(v) && Proper(w) && SameValue(v, w)
    ensures CanonicaliseJob(v) == CanonicaliseJob(w)
  {
    JobSameRead(v, w);
  }

  lemma CanonicaliseAgain(v: JsValue)
    requires CanonicaliseJob(v).Some?
    ensures var j := Parse(CanonicaliseJob(v).value);
            j.Some? && CanonicaliseJob(FromJson(j.value)) == CanonicaliseJob(v)
  {
    hide Units;
    var job := ReadJob(v).value;
    ParseCanonicalJob(job);
    NormaliseJobTwice(job);
    SameTextSameNormal(NormaliseJob(job), job);
  }
}
