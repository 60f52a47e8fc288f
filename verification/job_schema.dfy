/** `jobDefinitionSchema`: what a parsed job may hold, and the job as a plain object. */
module JobSchema {
  import opened Wrappers
  import opened Sorting
  import opened Utf16
  import opened JobModel
  import opened JsValues
  import opened SortKeys
  import opened JobRecord

  // ---- constraints ---------------------------------------------------------

  /** `z.string().min(1).max(128)`. */
  predicate ValidName(s: Text) { 1 <= |s| <= 128 }

  const MAX_SAFE := 9007199254740991

  /** `z.number().int()`. */
  predicate Safe(n: int) { -MAX_SAFE <= n <= MAX_SAFE }

  predicate SafeFrom(low: int, n: int) { low <= n <= MAX_SAFE }

  function Texts(names: seq<string>): seq<Text> {
    seq(|names|, i requires 0 <= i < |names| => Units(names[i]))
  }

  const SUBSYSTEMS := ["TSQL", "CmdExec", "PowerShell", "ANALYSISCOMMAND", "ANALYSISQUERY", "SSIS",
                       "Distribution", "LogReader", "Merge", "Snapshot", "QueueReader"]

  predicate ValidStep(s: JobStep) {
    && SafeFrom(1, s.stepId) && ValidName(s.name) && s.subsystem in Texts(SUBSYSTEMS)
    && Safe(s.onSuccessAction) && Safe(s.onSuccessStepId) && Safe(s.onFailAction) && Safe(s.onFailStepId)
    && SafeFrom(0, s.retryAttempts) && SafeFrom(0, s.retryIntervalMinutes) && SafeFrom(0, s.flags)
  }

  predicate ValidNotifications(n: Notifications) {
    && 0 <= n.emailLevel <= 3 && 0 <= n.netsendLevel <= 3 && 0 <= n.pageLevel <= 3
    && 0 <= n.eventlogLevel <= 3 && 0 <= n.deleteLevel <= 3
  }

  predicate ValidSchedule(s: ScheduleDefinition) {
    && ValidName(s.name) && Safe(s.freqType) && Safe(s.freqInterval) && Safe(s.freqSubdayType)
    && Safe(s.freqSubdayInterval) && Safe(s.freqRelativeInterval) && Safe(s.freqRecurrenceFactor)
    && Safe(s.activeStartDate) && Safe(s.activeEndDate) && Safe(s.activeStartTime) && Safe(s.activeEndTime)
  }

  predicate ValidJob(job: JobDefinition) {
    && ValidName(job.name) && SafeFrom(1, job.startStepId) && ValidNotifications(job.notifications)
    && (forall s :: s in job.steps ==> ValidStep(s))
    && (forall s :: s in job.schedules ==> ValidSchedule(s))
  }

  // ---- lists ---------------------------------------------------------------

  function ListToJs<T>(s: seq<T>, toJs: T -> JsValue): (r: seq<JsValue>)
    ensures |r| == |s| && forall i :: 0 <= i < |r| ==> r[i] == toJs(s[i])
  {
    seq(|s|, i requires 0 <= i < |s| => toJs(s[i]))
  }

  function ReadAll<T>(items: seq<JsValue>, read: JsValue -> Option<T>): Option<seq<T>> {
    if items == [] then Some([])
    else
      var (first, rest) := (read(items[0]), ReadAll(items[1..], read));
      if first.None? || rest.None? then None else Some([first.value] + rest.value)
  }

  function ListOf<T>(v: JsValue, read: JsValue -> Option<T>): Option<seq<T>> {
    if v.JsList? then ReadAll(v.items, read) else None
  }

  lemma {:induction false} ListReadsBack<T>(s: seq<T>, toJs: T -> JsValue, read: JsValue -> Option<T>)
    requires forall i :: 0 <= i < |s| ==> read(toJs(s[i])) == Some(s[i])
    ensures ReadAll(ListToJs(s, toJs), read) == Some(s)
  {
    if s != [] {
      ListReadsBack(s[1..], toJs, read);
      assert ListToJs(s, toJs)[1..] == ListToJs(s[1..], toJs);
      assert s == [s[0]] + s[1..];
    }
  }

  lemma {:induction false} ListSameRead<T>(x: seq<JsValue>, y: seq<JsValue>, read: JsValue -> Option<T>)
    requires |x| == |y| && forall i :: 0 <= i < |x| ==> read(x[i]) == read(y[i])
    ensures ReadAll(x, read) == ReadAll(y, read)
  {
    if x != [] { ListSameRead(x[1..], y[1..], read); }
  }

  // ---- the job -------------------------------------------------------------

  const SCHEMA_VERSION := Units("JobDefinition.v1")

  const JOB_KEYS := [
    "schemaVersion", "name", "description", "enabled", "categoryName", "ownerLoginName", "startStepId",
    "notifications", "steps", "schedules", "targetServers"]

  function TextToJs(s: Text): JsValue { JsText(s) }

  function JobValues(job: JobDefinition): (r: seq<JsValue>)
    ensures |r| == 11
  {
    [ JsText(SCHEMA_VERSION), JsText(job.name), OrNull(job.description), JsBool(job.enabled),
      OrNull(job.categoryName), OrNull(job.ownerLoginName), JsInt(job.startStepId),
      NotificationsToJs(job.notifications), JsList(ListToJs(job.steps, StepToJs)),
      JsList(ListToJs(job.schedules, ScheduleToJs)), JsList(ListToJs(job.targetServers, TextToJs)) ]
  }

  function JobToJs(job: JobDefinition): JsValue { JsObject(Record(JOB_KEYS, JobValues(job))) }

  /** The job, when every part of it was read. */
  function MakeJob(
    version: Option<Text>, name: Option<Text>, description: Option<Option<Text>>, enabled: Option<bool>,
    categoryName: Option<Option<Text>>, ownerLoginName: Option<Option<Text>>, startStepId: Option<int>,
    notifications: Option<Notifications>, steps: Option<seq<JobStep>>,
    schedules: Option<seq<ScheduleDefinition>>, targetServers: Option<seq<Text>>): Option<JobDefinition>
  {
    if version != Some(SCHEMA_VERSION) || name.None? || description.None? || enabled.None? ||
       categoryName.None? || ownerLoginName.None? || startStepId.None? || notifications.None? ||
       steps.None? || schedules.None? || targetServers.None?
    then None
    else
      Some(JobDefinition(
        name.value, description.value, enabled.value, categoryName.value, ownerLoginName.value,
        startStepId.value, notifications.value, steps.value, schedules.value, targetServers.value))
  }

  function JobFromValues(x: seq<JsValue>): Option<JobDefinition>
    requires |x| == 11
  {
    MakeJob(
      TextOf(x[0]), TextOf(x[1]), TextOrNullOf(x[2]), FlagOf(x[3]), TextOrNullOf(x[4]), TextOrNullOf(x[5]),
      IntOf(x[6]), ReadNotifications(x[7]), ListOf(x[8], ReadStep), ListOf(x[9], ReadSchedule), ListOf(x[10], TextOf))
  }

  /** The shape of the schema, its constraints aside. Unknown properties are dropped. */
  function ReadShape(v: JsValue): Option<JobDefinition> {
    if v.JsObject? then JobFromValues(Fetch(v.fields, JOB_KEYS)) else None
  }

  /** `jobDefinitionSchema.parse`; `None` where it throws. */
  function ReadJob(v: JsValue): Option<JobDefinition> {
    match ReadShape(v)
    case None => None
    case Some(job) => if ValidJob(job) then Some(job) else None
  }

  lemma JobKeysDistinct()
    ensures NoDuplicates(JOB_KEYS)
  {
    assert Mark(JOB_KEYS[0]) == 13 * 256 + 's' as int;
    assert Mark(JOB_KEYS[1]) == 4 * 256 + 'n' as int;
    assert Mark(JOB_KEYS[2]) == 11 * 256 + 't' as int;
    assert Mark(JOB_KEYS[3]) == 7 * 256 + 'b' as int;
    assert Mark(JOB_KEYS[4]) == 12 * 256 + 'N' as int;
    assert Mark(JOB_KEYS[5]) == 14 * 256 + 'N' as int;
    assert Mark(JOB_KEYS[6]) == 11 * 256 + 'e' as int;
    assert Mark(JOB_KEYS[7]) == 13 * 256 + 'i' as int;
    assert Mark(JOB_KEYS[8]) == 5 * 256 + 't' as int;
    assert Mark(JOB_KEYS[9]) == 9 * 256 + 'u' as int;
    assert Mark(JOB_KEYS[10]) == 13 * 256 + 'v' as int;
  }

  lemma StepsReadBack(steps: seq<JobStep>)
    ensures ReadAll(ListToJs(steps, StepToJs), ReadStep) == Some(steps)
  {
    hide Units;
    forall s: JobStep ensures ReadStep(StepToJs(s)) == Some(s) { StepReadsBack(s); }
    ListReadsBack(steps, StepToJs, ReadStep);
  }

  lemma SchedulesReadBack(schedules: seq<ScheduleDefinition>)
    ensures ReadAll(ListToJs(schedules, ScheduleToJs), ReadSchedule) == Some(schedules)
  {
    hide Units;
    forall s: ScheduleDefinition ensures ReadSchedule(ScheduleToJs(s)) == Some(s) { ScheduleReadsBack(s); }
    ListReadsBack(schedules, ScheduleToJs, ReadSchedule);
  }

  lemma TargetsReadBack(targetServers: seq<Text>)
    ensures ReadAll(ListToJs(targetServers, TextToJs), TextOf) == Some(targetServers)
  {
    ListReadsBack(targetServers, TextToJs, TextOf);
  }

  lemma LeavesReadBack(job: JobDefinition, x: seq<JsValue>)
    requires |x| == 11 && x == JobValues(job)
    ensures TextOf(x[0]) == Some(SCHEMA_VERSION) && TextOf(x[1]) == Some(job.name)
    ensures TextOrNullOf(x[2]) == Some(job.description) && FlagOf(x[3]) == Some(job.enabled)
    ensures TextOrNullOf(x[4]) == Some(job.categoryName) && TextOrNullOf(x[5]) == Some(job.ownerLoginName)
    ensures IntOf(x[6]) == Some(job.startStepId) && x[7] == NotificationsToJs(job.notifications)
  {
    hide NotificationsToJs, ListToJs, JsInt, Units;
  }

  lemma JobValuesReadBack(job: JobDefinition)
    ensures JobFromValues(JobValues(job)) == Some(job)
  {
    hide Units, NotificationsToJs, ReadNotifications, ListToJs, ReadAll, IntOf, TextOf, TextOrNullOf, FlagOf;
    var x := JobValues(job);
    LeavesReadBack(job, x);
    NotificationsReadsBack(job.notifications);
    StepsReadBack(job.steps);
    SchedulesReadBack(job.schedules);
    TargetsReadBack(job.targetServers);
  }

  lemma ShapeReadsBack(job: JobDefinition)
    ensures ReadShape(JobToJs(job)) == Some(job)
  {
    JobKeysDistinct();
    FetchRecord(JOB_KEYS, JobValues(job));
    JobValuesReadBack(job);
  }

  /** A valid job written out as an object is read back unchanged. */
  lemma JobReadsBack(job: JobDefinition)
    requires ValidJob(job)
    ensures ReadJob(JobToJs(job)) == Some(job)
  {
    ShapeReadsBack(job);
  }

  // ---- objects that are the same value are the same job --------------------

  lemma StepsSameRead(v: JsValue, w: JsValue)
    requires Proper(v) && Proper(w) && SameValue(v, w)
    ensures ListOf(v, ReadStep) == ListOf(w, ReadStep)
  {
    SameKind(v, w);
    if v.JsList? {
      forall i | 0 <= i < |v.items| ensures ReadStep(v.items[i]) == ReadStep(w.items[i]) {
        StepSameRead(v.items[i], w.items[i]);
      }
      ListSameRead(v.items, w.items, ReadStep);
    }
  }

  lemma SchedulesSameRead(v: JsValue, w: JsValue)
    requires Proper(v) && Proper(w) && SameValue(v, w)
    ensures ListOf(v, ReadSchedule) == ListOf(w, ReadSchedule)
  {
    SameKind(v, w);
    if v.JsList? {
      forall i | 0 <= i < |v.items| ensures ReadSchedule(v.items[i]) == ReadSchedule(w.items[i]) {
        ScheduleSameRead(v.items[i], w.items[i]);
      }
      ListSameRead(v.items, w.items, ReadSchedule);
    }
  }

  lemma TextsSameRead(v: JsValue, w: JsValue)
    requires SameValue(v, w)
    ensures ListOf(v, TextOf) == ListOf(w, TextOf)
  {
    SameKind(v, w);
    if v.JsList? {
      forall i | 0 <= i < |v.items| ensures TextOf(v.items[i]) == TextOf(w.items[i]) {
        LeafSame(v.items[i], w.items[i]);
      }
      ListSameRead(v.items, w.items, TextOf);
    }
  }

  lemma GetProper(f: seq<Field>, name: Text)
    requires Proper(JsObject(f))
    ensures Proper(Get(f, name))
  {
    var v := Get(f, name);
    if v != JsUndefined { var i :| 0 <= i < |f| && f[i] == Field(name, v); }
  }

  lemma JobFromAlike(x: seq<JsValue>, y: seq<JsValue>)
    requires |x| == 11 && Alike(x, y)
    requires ReadNotifications(x[7]) == ReadNotifications(y[7])
    requires ListOf(x[8], ReadStep) == ListOf(y[8], ReadStep)
    requires ListOf(x[9], ReadSchedule) == ListOf(y[9], ReadSchedule)
    requires ListOf(x[10], TextOf) == ListOf(y[10], TextOf)
    ensures JobFromValues(x) == JobFromValues(y)
  {}

  lemma JobFromSame(f: seq<Field>, g: seq<Field>, keys: seq<string>)
    requires Proper(JsObject(f)) && Proper(JsObject(g)) && SameValue(JsObject(f), JsObject(g)) && |keys| == 11
    ensures JobFromValues(Fetch(f, keys)) == JobFromValues(Fetch(g, keys))
  {
    var x, y := Fetch(f, keys), Fetch(g, keys);
    forall i | 0 <= i < |keys| ensures Proper(x[i]) && Proper(y[i]) && SameValue(x[i], y[i]) {
      GetProper(f, Units(keys[i]));
      GetProper(g, Units(keys[i]));
      GetSame(f, g, Units(keys[i]));
    }
    NotificationsSameRead(x[7], y[7]);
    StepsSameRead(x[8], y[8]);
    SchedulesSameRead(x[9], y[9]);
    TextsSameRead(x[10], y[10]);
    FetchAlike(f, g, keys);
    JobFromAlike(x, y);
  }

  lemma ShapeSameRead(v: JsValue, w: JsValue)
    requires Proper(v) && Proper(w) && SameValue(v, w)
    ensures ReadShape(v) == ReadShape(w)
  {
    SameKind(v, w);
    if v.JsObject? { JobFromSame(v.fields, w.fields, JOB_KEYS); }
  }

  /** Property order, undefined extras and the sign of zero do not change the job that is read. */
  lemma JobSameRead(v: JsValue, w: JsValue)
    requires Proper(v) && Proper(w) && SameValue(v, w)
    ensures ReadJob(v) == ReadJob(w)
  {
    hide Units;
    ShapeSameRead(v, w);
  }

  // ---- a written job can be canonicalised ----------------------------------

  predicate Leaf(v: JsValue) { v.JsNull? || v.JsBool? || v.JsNumber? || v.JsText? }

  ghost predicate Writable(v: JsValue) { Proper(v) && Serialisable(v) }

  lemma RecordWritable(keys: seq<string>, values: seq<JsValue>)
    requires |keys| == |values| && NoDuplicates(keys) && forall i :: 0 <= i < |values| ==> Writable(values[i])
    ensures Writable(JsObject(Record(keys, values)))
  {
    RecordNames(keys, values);
  }

  lemma ListWritable<T>(s: seq<T>, toJs: T -> JsValue)
    requires forall i :: 0 <= i < |s| ==> Writable(toJs(s[i]))
    ensures Writable(JsList(ListToJs(s, toJs)))
  {}

  lemma LeavesWritable(values: seq<JsValue>)
    requires forall i :: 0 <= i < |values| ==> Leaf(values[i])
    ensures forall i :: 0 <= i < |values| ==> Writable(values[i])
  {}

  lemma StepWritable(s: JobStep)
    ensures Writable(StepToJs(s))
  {
    StepKeysDistinct();
    LeavesWritable(StepValues(s));
    RecordWritable(STEP_KEYS, StepValues(s));
  }

  lemma NotificationsWritable(n: Notifications)
    ensures Writable(NotificationsToJs(n))
  {
    NotificationsKeysDistinct();
    LeavesWritable(NotificationsValues(n));
    RecordWritable(NOTIFICATION_KEYS, NotificationsValues(n));
  }

  lemma ScheduleWritable(s: ScheduleDefinition)
    ensures Writable(ScheduleToJs(s))
  {
    ScheduleKeysDistinct();
    LeavesWritable(ScheduleValues(s));
    RecordWritable(SCHEDULE_KEYS, ScheduleValues(s));
  }

  lemma ListsWritable(job: JobDefinition)
    ensures Writable(JsList(ListToJs(job.steps, StepToJs)))
    ensures Writable(JsList(ListToJs(job.schedules, ScheduleToJs)))
    ensures Writable(JsList(ListToJs(job.targetServers, TextToJs)))
  {
    forall i | 0 <= i < |job.steps| ensures Writable(StepToJs(job.steps[i])) { StepWritable(job.steps[i]); }
    ListWritable(job.steps, StepToJs);
    forall i | 0 <= i < |job.schedules| ensures Writable(ScheduleToJs(job.schedules[i])) {
      ScheduleWritable(job.schedules[i]);
    }
    ListWritable(job.schedules, ScheduleToJs);
    ListWritable(job.targetServers, TextToJs);
  }

  lemma JobValuesWritable(job: JobDefinition)
    ensures forall i :: 0 <= i < 11 ==> Writable(JobValues(job)[i])
  {
    hide Units;
    NotificationsWritable(job.notifications);
    ListsWritable(job);
  }

  lemma JobWritable(job: JobDefinition)
    ensures Writable(JobToJs(job))
  {
    JobKeysDistinct();
    JobValuesWritable(job);
    RecordWritable(JOB_KEYS, JobValues(job));
  }
}
