/** The `freq_*` encoding of a schedule and the humane form the editor shows. */
module Schedules {
  import opened Wrappers
  import opened Decimal
  import opened Doubles
  import opened ScheduleText
  import opened DateTexts
  import opened TimeTexts
  import opened Weekdays

  datatype Occurrence = First | Second | Third | Fourth | Last

  datatype MonthDay = OnSunday | OnMonday | OnTuesday | OnWednesday | OnThursday | OnFriday | OnSaturday
                    | AnyDay | AnyWeekday | AnyWeekendDay

  datatype Unit = Seconds | Minutes | Hours

  datatype Recurrence =
    | Once
    | OnAgentStart
    | OnIdle
    | Daily(everyNDays: int)
    | Weekly(everyNWeeks: int, weekdays: seq<Weekday>)
    | Monthly(dayOfMonth: int, everyNMonths: int)
    | MonthlyRelative(occurrence: Occurrence, weekday: MonthDay, everyNMonths: int)

  datatype DailyFrequency =
    | At(at: string)
    | Every(interval: int, timeUnit: Unit, from: string, to: string)

  datatype HumaneSchedule = HumaneSchedule(
    recurrence: Recurrence,
    dailyFrequency: DailyFrequency,
    startDate: string,
    endDate: Option<string>)

  /** A schedule as the conversions see it: encoded dates and times are any numbers, NaN and infinity too. */
  datatype Encoding = Encoding(
    name: string,
    enabled: bool,
    freqType: int,
    freqInterval: int,
    freqSubdayType: int,
    freqSubdayInterval: int,
    freqRelativeInterval: int,
    freqRecurrenceFactor: int,
    activeStartDate: Double,
    activeEndDate: Double,
    activeStartTime: Double,
    activeEndTime: Double)

  // FreqType
  const ONCE := 1
  const DAILY := 4
  const WEEKLY := 8
  const MONTHLY := 16
  const MONTHLY_RELATIVE := 32
  const ON_AGENT_START := 64
  const ON_IDLE := 128

  // FreqSubdayType
  const AT_SPECIFIED_TIME := 1
  const SUBDAY_SECONDS := 2
  const SUBDAY_MINUTES := 4
  const SUBDAY_HOURS := 8

  const NO_END_DATE := Finite(99991231.0)
  const NO_END_TIME := Finite(235959.0)

  // ---- code tables ---------------------------------------------------------

  function OccurrenceCode(o: Occurrence): int {
    match o case First => 1 case Second => 2 case Third => 4 case Fourth => 8 case Last => 16
  }

  /** The entry with that value, `First` when there is none. */
  function OccurrenceOf(code: int): Occurrence {
    if code == 2 then Second else if code == 4 then Third else if code == 8 then Fourth
    else if code == 16 then Last else First
  }

  function MonthDayCode(d: MonthDay): int {
    match d
    case OnSunday => 1 case OnMonday => 2 case OnTuesday => 3 case OnWednesday => 4 case OnThursday => 5
    case OnFriday => 6 case OnSaturday => 7 case AnyDay => 8 case AnyWeekday => 9 case AnyWeekendDay => 10
  }

  /** The entry with that value, `Day` when there is none. */
  function MonthDayOf(code: int): MonthDay {
    if code == 1 then OnSunday else if code == 2 then OnMonday else if code == 3 then OnTuesday
    else if code == 4 then OnWednesday else if code == 5 then OnThursday else if code == 6 then OnFriday
    else if code == 7 then OnSaturday else if code == 9 then AnyWeekday else if code == 10 then AnyWeekendDay
    else AnyDay
  }

  function UnitCode(u: Unit): int {
    match u case Seconds => SUBDAY_SECONDS case Hours => SUBDAY_HOURS case Minutes => SUBDAY_MINUTES
  }

  function UnitOf(code: int): Unit {
    if code == SUBDAY_SECONDS then Seconds else if code == SUBDAY_HOURS then Hours else Minutes
  }

  // ---- decoding ------------------------------------------------------------

  function ToRecurrence(s: Encoding): Recurrence {
    if s.freqType == ON_AGENT_START then OnAgentStart
    else if s.freqType == ON_IDLE then OnIdle
    else if s.freqType == DAILY then Daily(s.freqInterval)
    else if s.freqType == WEEKLY then Weekly(s.freqRecurrenceFactor, DaysFrom(s.freqInterval, 0))
    else if s.freqType == MONTHLY then Monthly(s.freqInterval, s.freqRecurrenceFactor)
    else if s.freqType == MONTHLY_RELATIVE then
      MonthlyRelative(OccurrenceOf(s.freqRelativeInterval), MonthDayOf(s.freqInterval), s.freqRecurrenceFactor)
    else Once
  }

  function ToDailyFrequency(s: Encoding): DailyFrequency {
    if s.freqSubdayType == AT_SPECIFIED_TIME then At(DecodeTime(s.activeStartTime))
    else
      Every(s.freqSubdayInterval, UnitOf(s.freqSubdayType),
            DecodeTime(s.activeStartTime), DecodeTime(s.activeEndTime))
  }

  function ToEndDate(d: Double): Option<string> {
    if d == NO_END_DATE then None else Some(DecodeDate(d))
  }

  function ToHumaneSchedule(s: Encoding): HumaneSchedule {
    HumaneSchedule(
      ToRecurrence(s), ToDailyFrequency(s), DecodeDate(s.activeStartDate), ToEndDate(s.activeEndDate))
  }

  // ---- encoding ------------------------------------------------------------

  datatype Frequency = Frequency(freqType: int, interval: int, relative: int, factor: int)

  function FromRecurrence(r: Recurrence): Frequency {
    match r
    case Once => Frequency(ONCE, 0, 0, 0)
    case OnAgentStart => Frequency(ON_AGENT_START, 0, 0, 0)
    case OnIdle => Frequency(ON_IDLE, 0, 0, 0)
    case Daily(n) => Frequency(DAILY, n, 0, 0)
    case Weekly(n, days) => Frequency(WEEKLY, FlagsOf(days, 0), 0, n)
    case Monthly(day, n) => Frequency(MONTHLY, day, 0, n)
    case MonthlyRelative(o, d, n) => Frequency(MONTHLY_RELATIVE, MonthDayCode(d), OccurrenceCode(o), n)
  }

  datatype Subday = Subday(subdayType: int, interval: int, start: Double, end: Double)

  function FromDailyFrequency(f: DailyFrequency): Subday {
    match f
    case At(at) => Subday(AT_SPECIFIED_TIME, 0, EncodeTime(at), NO_END_TIME)
    case Every(n, u, from, to) => Subday(UnitCode(u), n, EncodeTime(from), EncodeTime(to))
  }

  function FromEndDate(d: Option<string>): Double {
    match d case None => NO_END_DATE case Some(text) => EncodeDate(text)
  }

  function FromHumaneSchedule(name: string, enabled: bool, h: HumaneSchedule): Encoding {
    var f, d := FromRecurrence(h.recurrence), FromDailyFrequency(h.dailyFrequency);
    Encoding(
      name, enabled, f.freqType, f.interval, d.subdayType, d.interval, f.relative, f.factor,
      EncodeDate(h.startDate), FromEndDate(h.endDate), d.start, d.end)
  }

  // ---- which forms survive -------------------------------------------------

  predicate ValidDaily(f: DailyFrequency) {
    match f case At(at) => SurvivingTime(at) case Every(_, _, from, to) => SurvivingTime(from) && SurvivingTime(to)
  }

  /** Distinct weekdays in week order, surviving times and dates, and an end date other than the no-end mark. */
  ghost predicate ValidHumane(h: HumaneSchedule) {
    && (h.recurrence.Weekly? ==> InWeekOrder(h.recurrence.weekdays))
    && ValidDaily(h.dailyFrequency) && SurvivingDate(h.startDate)
    && (h.endDate.Some? ==> SurvivingDate(h.endDate.value) && h.endDate.value != "9999-12-31")
  }

  predicate ValidFrequency(s: Encoding) {
    if s.freqType == ONCE || s.freqType == ON_AGENT_START || s.freqType == ON_IDLE then
      s.freqInterval == 0 && s.freqRelativeInterval == 0 && s.freqRecurrenceFactor == 0
    else if s.freqType == DAILY then s.freqRelativeInterval == 0 && s.freqRecurrenceFactor == 0
    else if s.freqType == WEEKLY then 0 <= s.freqInterval <= 127 && s.freqRelativeInterval == 0
    else if s.freqType == MONTHLY then s.freqRelativeInterval == 0
    else
      && s.freqType == MONTHLY_RELATIVE && 1 <= s.freqInterval <= 10
      && s.freqRelativeInterval in {1, 2, 4, 8, 16}
  }

  predicate ValidSubday(s: Encoding) {
    && SurvivingTimeNumber(s.activeStartTime)
    && if s.freqSubdayType == AT_SPECIFIED_TIME then s.freqSubdayInterval == 0 && s.activeEndTime == NO_END_TIME
       else s.freqSubdayType in {SUBDAY_SECONDS, SUBDAY_MINUTES, SUBDAY_HOURS} && SurvivingTimeNumber(s.activeEndTime)
  }

  /** An encoding that uses known codes, leaves unused fields zero and keeps dates and times in their width. */
  predicate ValidEncoding(s: Encoding) {
    && ValidFrequency(s) && ValidSubday(s)
    && SurvivingDateNumber(s.activeStartDate) && SurvivingDateNumber(s.activeEndDate)
  }

  // ---- humane to encoded and back ------------------------------------------

  lemma CodesReadBack(o: Occurrence, d: MonthDay, u: Unit)
    ensures OccurrenceOf(OccurrenceCode(o)) == o && MonthDayOf(MonthDayCode(d)) == d && UnitOf(UnitCode(u)) == u
    ensures UnitCode(u) != AT_SPECIFIED_TIME
  {}

  lemma RecurrenceReadsBack(r: Recurrence, s: Encoding)
    requires FromRecurrence(r)
          == Frequency(s.freqType, s.freqInterval, s.freqRelativeInterval, s.freqRecurrenceFactor)
    ensures ToRecurrence(s) == r <==> (r.Weekly? ==> InWeekOrder(r.weekdays))
  {
    match r {
      case Weekly(_, days) => DaysOfFlags(days);
      case MonthlyRelative(o, d, _) => CodesReadBack(o, d, Seconds);
      case _ =>
    }
  }

  lemma DailyReadsBack(f: DailyFrequency, s: Encoding)
    requires FromDailyFrequency(f)
          == Subday(s.freqSubdayType, s.freqSubdayInterval, s.activeStartTime, s.activeEndTime)
    ensures ToDailyFrequency(s) == f <==> ValidDaily(f)
  {
    hide EncodeTime, DecodeTime, SurvivingTime;
    match f {
      case At(at) => TimeTextRoundTrip(at);
      case Every(_, u, from, to) =>
        CodesReadBack(First, OnSunday, u);
        TimeTextRoundTrip(from);
        TimeTextRoundTrip(to);
    }
  }

  lemma NoEndDateDigits()
    ensures NatToString(99991231) == "99991231"
  {
    assert NatToString(9999) == "9999";
  }

  lemma NoEndDatePadded()
    ensures Padded(NO_END_DATE, 8) == "99991231"
  {
    hide Padded, NatToString;
    NoEndDateDigits();
    PlainPadded(99991231, 8);
  }

  lemma NoEndDateText()
    ensures DecodeDate(NO_END_DATE) == "9999-12-31"
  {
    hide Padded;
    NoEndDatePadded();
    var s := Padded(NO_END_DATE, 8);
    assert s[..4] == "9999" && s[4..6] == "12" && s[6..8] == "31";
  }

  lemma NoEndDateSurvives()
    ensures EncodeDate(DecodeDate(NO_END_DATE)) == NO_END_DATE
  {
    hide EncodeDate, DecodeDate;
    IntegerDateRoundTrip(99991231);
  }

  lemma EndDateReadsBack(d: Option<string>)
    ensures ToEndDate(FromEndDate(d)) == d <==> (d.Some? ==> SurvivingDate(d.value) && d.value != "9999-12-31")
  {
    hide EncodeDate, DecodeDate, SurvivingDate;
    NoEndDateText();
    NoEndDateSurvives();
    if d.Some? { DateTextRoundTrip(d.value); }
  }

  /** Encoding a humane schedule and decoding it gives it back exactly when it is valid. */
  lemma HumaneRoundTrip(name: string, enabled: bool, h: HumaneSchedule)
    ensures ToHumaneSchedule(FromHumaneSchedule(name, enabled, h)) == h <==> ValidHumane(h)
  {
    hide EncodeDate, DecodeDate, SurvivingDate, ToRecurrence, FromRecurrence, ToDailyFrequency, FromDailyFrequency;
    hide ToEndDate, FromEndDate, ValidDaily, InWeekOrder;
    var s := FromHumaneSchedule(name, enabled, h);
    RecurrenceReadsBack(h.recurrence, s);
    DailyReadsBack(h.dailyFrequency, s);
    DateTextRoundTrip(h.startDate);
    EndDateReadsBack(h.endDate);
  }

  // ---- encoded to humane and back ------------------------------------------

  lemma OccurrenceRoundTrip(code: int)
    ensures OccurrenceCode(OccurrenceOf(code)) == code <==> code in {1, 2, 4, 8, 16}
  {}

  lemma MonthDayRoundTrip(code: int)
    ensures MonthDayCode(MonthDayOf(code)) == code <==> 1 <= code <= 10
  {}

  lemma FrequencyRoundTrip(s: Encoding)
    ensures FromRecurrence(ToRecurrence(s))
         == Frequency(s.freqType, s.freqInterval, s.freqRelativeInterval, s.freqRecurrenceFactor)
       <==> ValidFrequency(s)
  {
    if s.freqType == WEEKLY {
      FlagsOfDays(s.freqInterval);
    } else if s.freqType == MONTHLY_RELATIVE {
      var o, d := OccurrenceOf(s.freqRelativeInterval), MonthDayOf(s.freqInterval);
      OccurrenceRoundTrip(s.freqRelativeInterval);
      MonthDayRoundTrip(s.freqInterval);
      assert ToRecurrence(s) == MonthlyRelative(o, d, s.freqRecurrenceFactor);
    }
  }

  lemma SubdayRoundTrip(s: Encoding)
    ensures FromDailyFrequency(ToDailyFrequency(s))
         == Subday(s.freqSubdayType, s.freqSubdayInterval, s.activeStartTime, s.activeEndTime)
       <==> ValidSubday(s)
  {
    hide EncodeTime, DecodeTime, SurvivingTimeNumber;
    TimeRoundTrip(s.activeStartTime);
    TimeRoundTrip(s.activeEndTime);
  }

  lemma EndDateRoundTrip(d: Double)
    requires d.Finite? ==> d.value < OVERFLOW as real
    ensures FromEndDate(ToEndDate(d)) == d <==> SurvivingDateNumber(d)
  {
    hide EncodeDate, DecodeDate, SurvivingDateNumber;
    NoEndDateSurvives();
    DateRoundTrip(d);
  }

  /** Decoding an encoding and encoding it again changes nothing exactly when the encoding is valid. */
  lemma EncodingRoundTrip(s: Encoding)
    requires s.activeStartDate.Finite? ==> s.activeStartDate.value < OVERFLOW as real
    requires s.activeEndDate.Finite? ==> s.activeEndDate.value < OVERFLOW as real
    ensures FromHumaneSchedule(s.name, s.enabled, ToHumaneSchedule(s)) == s <==> ValidEncoding(s)
  {
    hide EncodeDate, DecodeDate, SurvivingDateNumber, ToRecurrence, FromRecurrence, ToDailyFrequency;
    hide FromDailyFrequency, ToEndDate, FromEndDate, ValidFrequency, ValidSubday;
    FrequencyRoundTrip(s);
    SubdayRoundTrip(s);
    DateRoundTrip(s.activeStartDate);
    EndDateRoundTrip(s.activeEndDate);
  }

  /** Integer dates and times below 10^21 are valid with at most eight and six digits and no sign. */
  lemma IntegerEncoding(d: int)
    requires d < PLAIN_LIMIT
    ensures SurvivingDateNumber(Finite(d as real)) <==> 0 <= d <= 99999999
    ensures SurvivingTimeNumber(Finite(d as real)) <==> 0 <= d <= 999999
  {
    hide ClampedText, EncodeDate, DecodeDate;
    DateRoundTrip(Finite(d as real));
    IntegerDateRoundTrip(d);
    assert (d as real).Floor == d;
  }
}
