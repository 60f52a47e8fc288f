/** The zod schemas: a job as a plain object, and the object read back as a job. */
module JobRecord {
  import opened Wrappers
  import opened Sorting
  import opened Utf16
  import opened JobModel
  import opened Numerals
  import opened JsValues

  // ---- objects from names and values ---------------------------------------

  function Record(keys: seq<string>, values: seq<JsValue>): (r: seq<Field>)
    requires |keys| == |values|
    ensures |r| == |keys| && forall i :: 0 <= i < |r| ==> r[i] == Field(Units(keys[i]), values[i])
  {
    seq(|keys|, i requires 0 <= i < |keys| => Field(Units(keys[i]), values[i]))
  }

  /** The values of the named properties. */
  function Fetch(f: seq<Field>, keys: seq<string>): (r: seq<JsValue>)
    ensures |r| == |keys| && forall i :: 0 <= i < |r| ==> r[i] == Get(f, Units(keys[i]))
  {
    seq(|keys|, i requires 0 <= i < |keys| => Get(f, Units(keys[i])))
  }

  lemma FetchRecord(keys: seq<string>, values: seq<JsValue>)
    requires |keys| == |values| && NoDuplicates(keys)
    ensures Fetch(Record(keys, values), keys) == values
  {
    var f := Record(keys, values);
    RecordNames(keys, values);
    forall i | 0 <= i < |keys| ensures Get(f, Units(keys[i])) == values[i] { GetAt(f, i); }
  }

  lemma RecordNames(keys: seq<string>, values: seq<JsValue>)
    requires |keys| == |values| && NoDuplicates(keys)
    ensures DistinctNames(Record(keys, values))
  {
    var f := Record(keys, values);
    forall i, j | 0 <= i < j < |f| ensures f[i].name != f[j].name {
      if Units(keys[i]) == Units(keys[j]) { UnitsInjective(keys[i], keys[j]); }
    }
  }

  lemma GetSame(f: seq<Field>, g: seq<Field>, name: Text)
    requires DistinctNames(f) && DistinctNames(g) && SameValue(JsObject(f), JsObject(g))
    ensures SameValue(Get(f, name), Get(g, name))
  {
    var x, y := Get(f, name), Get(g, name);
    if x != JsUndefined {
      var i :| 0 <= i < |f| && f[i] == Field(name, x);
      assert Matched(f, i, g);
      var j :| 0 <= j < |g| && g[j].name == name && SameValue(x, g[j].value);
      GetAt(g, j);
    } else if y != JsUndefined {
      PresentBack(f, g, name);
    }
  }

  lemma PresentBack(f: seq<Field>, g: seq<Field>, name: Text)
    requires DistinctNames(f) && SameValue(JsObject(f), JsObject(g)) && Get(g, name) != JsUndefined
    ensures Get(f, name) != JsUndefined
  {
    var y := Get(g, name);
    var j :| 0 <= j < |g| && g[j] == Field(name, y);
    assert MatchedBack(f, g, j);
    var i :| 0 <= i < |f| && f[i].name == name && SameValue(f[i].value, y);
    GetAt(f, i);
  }

  /** Tells the names of one record apart. */
  function Mark(key: string): int {
    if |key| < 4 then 0 else |key| * 256 + key[|key| - 4] as int
  }

  // ---- typed properties ----------------------------------------------------

  function OrNull(t: Option<Text>): JsValue {
    match t case None => JsNull case Some(s) => JsText(s)
  }

  function IntOf(v: JsValue): Option<int> {
    match v
    case JsNumber(n) => ToInt(n)
    case JsMinusZero => Some(0)
    case _ => None
  }

  function JsInt(n: int): (v: JsValue)
    ensures v.JsNumber? && IntOf(v) == Some(n)
  {
    IntReadsBack(n);
    JsNumber(OfInt(n))
  }

  function TextOf(v: JsValue): Option<Text> {
    match v case JsText(s) => Some(s) case _ => None
  }

  /** `z.string().nullable()`. */
  function TextOrNullOf(v: JsValue): Option<Option<Text>> {
    match v
    case JsText(s) => Some(Some(s))
    case JsNull => Some(None)
    case _ => None
  }

  function FlagOf(v: JsValue): Option<bool> {
    match v case JsBool(b) => Some(b) case _ => None
  }

  lemma LeafSame(v: JsValue, w: JsValue)
    requires SameValue(v, w)
    ensures IntOf(v) == IntOf(w) && TextOf(v) == TextOf(w)
    ensures TextOrNullOf(v) == TextOrNullOf(w) && FlagOf(v) == FlagOf(w)
  {}

  /** Values no reader of a property can tell apart. */
  ghost predicate Alike(x: seq<JsValue>, y: seq<JsValue>) {
    |x| == |y| && forall i :: 0 <= i < |x| ==>
      && IntOf(x[i]) == IntOf(y[i]) && TextOf(x[i]) == TextOf(y[i])
      && TextOrNullOf(x[i]) == TextOrNullOf(y[i]) && FlagOf(x[i]) == FlagOf(y[i])
  }

  /** Two objects that are the same value hold the same property under each name. */
  lemma FetchAlike(f: seq<Field>, g: seq<Field>, keys: seq<string>)
    requires DistinctNames(f) && DistinctNames(g) && SameValue(JsObject(f), JsObject(g))
    ensures Alike(Fetch(f, keys), Fetch(g, keys))
  {
    var x, y := Fetch(f, keys), Fetch(g, keys);
    forall i | 0 <= i < |keys|
      ensures IntOf(x[i]) == IntOf(y[i]) && TextOf(x[i]) == TextOf(y[i])
           && TextOrNullOf(x[i]) == TextOrNullOf(y[i]) && FlagOf(x[i]) == FlagOf(y[i])
    {
      GetSame(f, g, Units(keys[i]));
      LeafSame(x[i], y[i]);
    }
  }

  // ---- steps, notifications, schedules -------------------------------------

  const STEP_KEYS := [
    "stepId", "name", "subsystem", "command", "databaseName", "databaseUserName", "onSuccessAction",
    "onSuccessStepId", "onFailAction", "onFailStepId", "retryAttempts", "retryIntervalMinutes",
    "outputFileName", "flags", "proxyName"]

  function StepValues(s: JobStep): (r: seq<JsValue>)
    ensures |r| == 15
  {
    [
      JsInt(s.stepId), JsText(s.name), JsText(s.subsystem), JsText(s.command), OrNull(s.databaseName),
      OrNull(s.databaseUserName), JsInt(s.onSuccessAction), JsInt(s.onSuccessStepId),
      JsInt(s.onFailAction), JsInt(s.onFailStepId), JsInt(s.retryAttempts),
      JsInt(s.retryIntervalMinutes), OrNull(s.outputFileName), JsInt(s.flags), OrNull(s.proxyName)]
  }

  function StepToJs(s: JobStep): JsValue { JsObject(Record(STEP_KEYS, StepValues(s))) }

  function StepFromValues(x: seq<JsValue>): Option<JobStep>
    requires |x| == 15
  {
    var stepId := IntOf(x[0]);
    var name := TextOf(x[1]);
    var subsystem := TextOf(x[2]);
    var command := TextOf(x[3]);
    var databaseName := TextOrNullOf(x[4]);
    var databaseUserName := TextOrNullOf(x[5]);
    var onSuccessAction := IntOf(x[6]);
    var onSuccessStepId := IntOf(x[7]);
    var onFailAction := IntOf(x[8]);
    var onFailStepId := IntOf(x[9]);
    var retryAttempts := IntOf(x[10]);
    var retryIntervalMinutes := IntOf(x[11]);
    var outputFileName := TextOrNullOf(x[12]);
    var flags := IntOf(x[13]);
    var proxyName := TextOrNullOf(x[14]);
    if stepId.None? || name.None? || subsystem.None? || command.None? ||
       databaseName.None? || databaseUserName.None? || onSuccessAction.None? || onSuccessStepId.None? ||
       onFailAction.None? || onFailStepId.None? || retryAttempts.None? || retryIntervalMinutes.None? ||
       outputFileName.None? || flags.None? || proxyName.None?
    then None
    else
      Some(JobStep(
        stepId.value, name.value, subsystem.value, command.value, databaseName.value, databaseUserName.value,
        onSuccessAction.value, onSuccessStepId.value, onFailAction.value, onFailStepId.value,
        retryAttempts.value, retryIntervalMinutes.value, outputFileName.value, flags.value, proxyName.value))
  }

  function ReadStep(v: JsValue): Option<JobStep> {
    if v.JsObject? then StepFromValues(Fetch(v.fields, STEP_KEYS)) else None
  }

  lemma StepKeysDistinct()
    ensures NoDuplicates(STEP_KEYS)
  {
    assert Mark(STEP_KEYS[0]) == 1637;
    assert Mark(STEP_KEYS[1]) == 1134;
    assert Mark(STEP_KEYS[2]) == 2419;
    assert Mark(STEP_KEYS[3]) == 1901;
    assert Mark(STEP_KEYS[4]) == 3150;
    assert Mark(STEP_KEYS[5]) == 4174;
    assert Mark(STEP_KEYS[6]) == 3956;
    assert Mark(STEP_KEYS[7]) == 3941;
    assert Mark(STEP_KEYS[8]) == 3188;
    assert Mark(STEP_KEYS[9]) == 3173;
    assert Mark(STEP_KEYS[10]) == 3437;
    assert Mark(STEP_KEYS[11]) == 5237;
    assert Mark(STEP_KEYS[12]) == 3662;
    assert Mark(STEP_KEYS[13]) == 1388;
    assert Mark(STEP_KEYS[14]) == 2382;
  }

  lemma StepValuesReadBack(s: JobStep)
    ensures StepFromValues(StepValues(s)) == Some(s)
  {}

  lemma StepReadsBack(s: JobStep)
    ensures ReadStep(StepToJs(s)) == Some(s)
  {
    StepKeysDistinct();
    StepValuesReadBack(s);
    FetchRecord(STEP_KEYS, StepValues(s));
  }

  lemma StepFromAlike(x: seq<JsValue>, y: seq<JsValue>)
    requires |x| == 15 && Alike(x, y)
    ensures StepFromValues(x) == StepFromValues(y)
  {}

  lemma StepFromSame(f: seq<Field>, g: seq<Field>, keys: seq<string>)
    requires DistinctNames(f) && DistinctNames(g) && SameValue(JsObject(f), JsObject(g)) && |keys| == 15
    ensures StepFromValues(Fetch(f, keys)) == StepFromValues(Fetch(g, keys))
  {
    FetchAlike(f, g, keys);
    StepFromAlike(Fetch(f, keys), Fetch(g, keys));
  }

  lemma StepSameRead(v: JsValue, w: JsValue)
    requires Proper(v) && Proper(w) && SameValue(v, w)
    ensures ReadStep(v) == ReadStep(w)
  {
    SameKind(v, w);
    if v.JsObject? { StepFromSame(v.fields, w.fields, STEP_KEYS); }
  }

  const NOTIFICATION_KEYS := [
    "emailOperatorName", "emailLevel", "netsendOperatorName", "netsendLevel", "pageOperatorName", "pageLevel",
    "eventlogLevel", "deleteLevel"]

  function NotificationsValues(n: Notifications): (r: seq<JsValue>)
    ensures |r| == 8
  {
    [
      OrNull(n.emailOperatorName), JsInt(n.emailLevel), OrNull(n.netsendOperatorName),
      JsInt(n.netsendLevel), OrNull(n.pageOperatorName), JsInt(n.pageLevel), JsInt(n.eventlogLevel),
      JsInt(n.deleteLevel)]
  }

  function NotificationsToJs(n: Notifications): JsValue { JsObject(Record(NOTIFICATION_KEYS, NotificationsValues(n))) }

  function NotificationsFromValues(x: seq<JsValue>): Option<Notifications>
    requires |x| == 8
  {
    var emailOperatorName := TextOrNullOf(x[0]);
    var emailLevel := IntOf(x[1]);
    var netsendOperatorName := TextOrNullOf(x[2]);
    var netsendLevel := IntOf(x[3]);
    var pageOperatorName := TextOrNullOf(x[4]);
    var pageLevel := IntOf(x[5]);
    var eventlogLevel := IntOf(x[6]);
    var deleteLevel := IntOf(x[7]);
    if emailOperatorName.None? || emailLevel.None? || netsendOperatorName.None? || netsendLevel.None? ||
       pageOperatorName.None? || pageLevel.None? || eventlogLevel.None? || deleteLevel.None?
    then None
    else
      Some(Notifications(
        emailOperatorName.value, emailLevel.value, netsendOperatorName.value, netsendLevel.value,
        pageOperatorName.value, pageLevel.value, eventlogLevel.value, deleteLevel.value))
  }

  function ReadNotifications(v: JsValue): Option<Notifications> {
    if v.JsObject? then NotificationsFromValues(Fetch(v.fields, NOTIFICATION_KEYS)) else None
  }

  lemma NotificationsKeysDistinct()
    ensures NoDuplicates(NOTIFICATION_KEYS)
  {
    assert Mark(NOTIFICATION_KEYS[0]) == 4430;
    assert Mark(NOTIFICATION_KEYS[1]) == 2661;
    assert Mark(NOTIFICATION_KEYS[2]) == 4942;
    assert Mark(NOTIFICATION_KEYS[3]) == 3173;
    assert Mark(NOTIFICATION_KEYS[4]) == 4174;
    assert Mark(NOTIFICATION_KEYS[5]) == 2405;
    assert Mark(NOTIFICATION_KEYS[6]) == 3429;
    assert Mark(NOTIFICATION_KEYS[7]) == 2917;
  }

  lemma NotificationsValuesReadBack(n: Notifications)
    ensures NotificationsFromValues(NotificationsValues(n)) == Some(n)
  {}

  lemma NotificationsReadsBack(n: Notifications)
    ensures ReadNotifications(NotificationsToJs(n)) == Some(n)
  {
    NotificationsKeysDistinct();
    NotificationsValuesReadBack(n);
    FetchRecord(NOTIFICATION_KEYS, NotificationsValues(n));
  }

  lemma NotificationsFromAlike(x: seq<JsValue>, y: seq<JsValue>)
    requires |x| == 8 && Alike(x, y)
    ensures NotificationsFromValues(x) == NotificationsFromValues(y)
  {}

  lemma NotificationsFromSame(f: seq<Field>, g: seq<Field>, keys: seq<string>)
    requires DistinctNames(f) && DistinctNames(g) && SameValue(JsObject(f), JsObject(g)) && |keys| == 8
    ensures NotificationsFromValues(Fetch(f, keys)) == NotificationsFromValues(Fetch(g, keys))
  {
    FetchAlike(f, g, keys);
    NotificationsFromAlike(Fetch(f, keys), Fetch(g, keys));
  }

  lemma NotificationsSameRead(v: JsValue, w: JsValue)
    requires Proper(v) && Proper(w) && SameValue(v, w)
    ensures ReadNotifications(v) == ReadNotifications(w)
  {
    SameKind(v, w);
    if v.JsObject? { NotificationsFromSame(v.fields, w.fields, NOTIFICATION_KEYS); }
  }

  const SCHEDULE_KEYS := [
    "name", "enabled", "freqType", "freqInterval", "freqSubdayType", "freqSubdayInterval",
    "freqRelativeInterval", "freqRecurrenceFactor", "activeStartDate", "activeEndDate", "activeStartTime",
    "activeEndTime"]

  function ScheduleValues(s: ScheduleDefinition): (r: seq<JsValue>)
    ensures |r| == 12
  {
    [
      JsText(s.name), JsBool(s.enabled), JsInt(s.freqType), JsInt(s.freqInterval),
      JsInt(s.freqSubdayType), JsInt(s.freqSubdayInterval), JsInt(s.freqRelativeInterval),
      JsInt(s.freqRecurrenceFactor), JsInt(s.activeStartDate), JsInt(s.activeEndDate),
      JsInt(s.activeStartTime), JsInt(s.activeEndTime)]
  }

  function ScheduleToJs(s: ScheduleDefinition): JsValue { JsObject(Record(SCHEDULE_KEYS, ScheduleValues(s))) }

  function ScheduleFromValues(x: seq<JsValue>): Option<ScheduleDefinition>
    requires |x| == 12
  {
    var name := TextOf(x[0]);
    var enabled := FlagOf(x[1]);
    var freqType := IntOf(x[2]);
    var freqInterval := IntOf(x[3]);
    var freqSubdayType := IntOf(x[4]);
    var freqSubdayInterval := IntOf(x[5]);
    var freqRelativeInterval := IntOf(x[6]);
    var freqRecurrenceFactor := IntOf(x[7]);
    var activeStartDate := IntOf(x[8]);
    var activeEndDate := IntOf(x[9]);
    var activeStartTime := IntOf(x[10]);
    var activeEndTime := IntOf(x[11]);
    if name.None? || enabled.None? || freqType.None? || freqInterval.None? ||
       freqSubdayType.None? || freqSubdayInterval.None? || freqRelativeInterval.None? || freqRecurrenceFactor.None? ||
       activeStartDate.None? || activeEndDate.None? || activeStartTime.None? || activeEndTime.None?
    then None
    else
      Some(ScheduleDefinition(
        name.value, enabled.value, freqType.value, freqInterval.value, freqSubdayType.value,
        freqSubdayInterval.value, freqRelativeInterval.value, freqRecurrenceFactor.value,
        activeStartDate.value, activeEndDate.value, activeStartTime.value, activeEndTime.value))
  }

  function ReadSchedule(v: JsValue): Option<ScheduleDefinition> {
    if v.JsObject? then ScheduleFromValues(Fetch(v.fields, SCHEDULE_KEYS)) else None
  }

  lemma ScheduleKeysDistinct()
    ensures NoDuplicates(SCHEDULE_KEYS)
  {
    assert Mark(SCHEDULE_KEYS[0]) == 1134;
    assert Mark(SCHEDULE_KEYS[1]) == 1890;
    assert Mark(SCHEDULE_KEYS[2]) == 2132;
    assert Mark(SCHEDULE_KEYS[3]) == 3186;
    assert Mark(SCHEDULE_KEYS[4]) == 3668;
    assert Mark(SCHEDULE_KEYS[5]) == 4722;
    assert Mark(SCHEDULE_KEYS[6]) == 5234;
    assert Mark(SCHEDULE_KEYS[7]) == 5219;
    assert Mark(SCHEDULE_KEYS[8]) == 3908;
    assert Mark(SCHEDULE_KEYS[9]) == 3396;
    assert Mark(SCHEDULE_KEYS[10]) == 3924;
    assert Mark(SCHEDULE_KEYS[11]) == 3412;
  }

  lemma ScheduleValuesReadBack(s: ScheduleDefinition)
    ensures ScheduleFromValues(ScheduleValues(s)) == Some(s)
  {}

  lemma ScheduleReadsBack(s: ScheduleDefinition)
    ensures ReadSchedule(ScheduleToJs(s)) == Some(s)
  {
    ScheduleKeysDistinct();
    ScheduleValuesReadBack(s);
    FetchRecord(SCHEDULE_KEYS, ScheduleValues(s));
  }

  lemma ScheduleFromAlike(x: seq<JsValue>, y: seq<JsValue>)
    requires |x| == 12 && Alike(x, y)
    ensures ScheduleFromValues(x) == ScheduleFromValues(y)
  {}

  lemma ScheduleFromSame(f: seq<Field>, g: seq<Field>, keys: seq<string>)
    requires DistinctNames(f) && DistinctNames(g) && SameValue(JsObject(f), JsObject(g)) && |keys| == 12
    ensures ScheduleFromValues(Fetch(f, keys)) == ScheduleFromValues(Fetch(g, keys))
  {
    FetchAlike(f, g, keys);
    ScheduleFromAlike(Fetch(f, keys), Fetch(g, keys));
  }

  lemma ScheduleSameRead(v: JsValue, w: JsValue)
    requires Proper(v) && Proper(w) && SameValue(v, w)
    ensures ReadSchedule(v) == ReadSchedule(w)
  {
    SameKind(v, w);
    if v.JsObject? { ScheduleFromSame(v.fields, w.fields, SCHEDULE_KEYS); }
  }

}
