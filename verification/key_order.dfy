/** When canonical JSON has its keys in the documented order, by code unit. */
module KeyOrder {
  import opened Wrappers
  import opened Decimal
  import opened Sorting
  import opened Utf16
  import opened Json
  import opened JsonRoundTrip
  import opened JobModel
  import opened JsValues
  import opened SortKeys
  import opened JobRecord
  import opened JobSchema
  import opened Canonical

  predicate UnitLe(m: Member, n: Member) { TextLe(m.key, n.key) }

  /** Every object at every depth lists its keys by code unit. */
  ghost predicate InUnitOrder(j: Json)
    decreases j
  {
    match j
    case Arr(items) => forall i :: 0 <= i < |items| ==> InUnitOrder(items[i])
    case Obj(members) => SortedBy(members, UnitLe) && forall i :: 0 <= i < |members| ==> InUnitOrder(members[i].value)
    case _ => true
  }

  /** The orders agree on two keys. */
  predicate Agree(k: Text, l: Text) { KeyLe(k, l) <==> TextLe(k, l) }

  // ---- one object ----------------------------------------------------------

  lemma OutOfOrder(s: seq<Member>, m: Member, n: Member)
    requires SortedBy(s, MemberLe) && SortedBy(s, UnitLe) && m in s && n in s
    ensures Agree(m.key, n.key)
  {
    var i :| 0 <= i < |s| && s[i] == m;
    var k :| 0 <= k < |s| && s[k] == n;
    if i < k {
      assert MemberLe(m, n) && UnitLe(m, n);
    } else if k < i {
      assert MemberLe(n, m) && UnitLe(n, m);
      if KeyLe(m.key, n.key) { KeyLeOrders(m.key, n.key); }
      if TextLe(m.key, n.key) { TextLeAntisymmetric(m.key, n.key); KeyLeOrders(m.key, n.key); }
    } else {
      KeyLeOrders(m.key, m.key);
      TextLeTotal(m.key, m.key);
    }
  }

  /** Members come out by code unit exactly when that order and the order of properties agree on their keys. */
  lemma UnitOrderExactly(s: seq<Member>)
    ensures SortedBy(Sort(s, MemberLe), UnitLe) <==> forall m, n :: m in s && n in s ==> Agree(m.key, n.key)
  {
    var o := Sort(s, MemberLe);
    SortPermutes(s, MemberLe);
    MemberLePreorder();
    SortSorted(s, MemberLe);
    if SortedBy(o, UnitLe) {
      forall m, n | m in s && n in s ensures Agree(m.key, n.key) { OutOfOrder(o, m, n); }
    } else {
      var i, k :| 0 <= i < k < |o| && !UnitLe(o[i], o[k]);
      assert MemberLe(o[i], o[k]) && o[i] in s && o[k] in s && !Agree(o[i].key, o[k].key);
    }
  }

  // ---- which keys disagree -------------------------------------------------

  lemma {:induction false} TextOfPrefixes(u: Text, p: Text, rest: Text)
    requires |u| == |p|
    ensures TextLe(u, p + rest) <==> TextLe(u, p)
  {
    if u != [] {
      assert (p + rest)[1..] == p[1..] + rest;
      TextOfPrefixes(u[1..], p[1..], rest);
    }
  }

  lemma LeadingDigit(s: string)
    requires AllDigits(s) && s != ""
    ensures NatValue(s) == DigitValue(s[0]) * Pow10(|s| - 1) + NatValue(s[1..]) && NatValue(s[1..]) < Pow10(|s| - 1)
  {
    assert s == s[..1] + s[1..] && s[..1][..0] == "";
    assert NatValue(s[..1]) == DigitValue(s[0]);
    NatValueConcat(s[..1], s[1..]);
    NatValueBound(s[1..]);
  }

  lemma MoreInFront(a: nat, b: nat, p: nat, x: nat, y: nat)
    requires a < b && x < p
    ensures a * p + x < b * p + y
  {
    assert (a + 1) * p <= b * p;
  }

  /** Numerals of one length compare as text just as their values do. */
  lemma {:induction false} SameLengthOrder(k: Text, l: Text)
    requires AllDigits(Ascii(k)) && AllDigits(Ascii(l)) && |k| == |l|
    ensures TextLe(k, l) <==> NatValue(Ascii(k)) <= NatValue(Ascii(l))
  {
    if k != [] {
      var s, t := Ascii(k), Ascii(l);
      assert Ascii(k[1..]) == s[1..] && Ascii(l[1..]) == t[1..];
      SameLengthOrder(k[1..], l[1..]);
      FirstDigits(k, l);
      LeadingDigit(s);
      LeadingDigit(t);
      var p := Pow10(|k| - 1);
      if k[0] < l[0] {
        MoreInFront(DigitValue(s[0]), DigitValue(t[0]), p, NatValue(s[1..]), NatValue(t[1..]));
      } else if l[0] < k[0] {
        MoreInFront(DigitValue(t[0]), DigitValue(s[0]), p, NatValue(t[1..]), NatValue(s[1..]));
      }
    }
  }

  lemma FirstDigits(k: Text, l: Text)
    requires k != [] && l != [] && IsDigit(Ascii(k)[0]) && IsDigit(Ascii(l)[0])
    ensures k[0] < l[0] <==> DigitValue(Ascii(k)[0]) < DigitValue(Ascii(l)[0])
    ensures k[0] == l[0] <==> DigitValue(Ascii(k)[0]) == DigitValue(Ascii(l)[0])
  {}

  /** Of two indices the shorter is the smaller number; as text it comes first unless the longer starts lower. */
  lemma ShorterIndex(k: Text, l: Text)
    requires IsIndex(k) && IsIndex(l) && |k| < |l|
    ensures IndexValue(k) < IndexValue(l)
    ensures TextLe(k, l) <==> IndexValue(k) <= NatValue(Ascii(l[..|k|]))
  {
    ShorterIsLess(Ascii(k), Ascii(l));
    ShorterAsText(k, l);
  }

  lemma ShorterIsLess(k: string, l: string)
    requires AllDigits(k) && AllDigits(l) && |k| < |l| && l[0] != '0'
    ensures NatValue(k) < NatValue(l)
  {
    hide NatValue;
    NatValueBound(k);
    LeadingDigit(l);
    Pow10Grows(|k|, |l| - 1);
    AtLeastOnce(DigitValue(l[0]), Pow10(|l| - 1));
  }

  lemma ShorterAsText(k: Text, l: Text)
    requires AllDigits(Ascii(k)) && AllDigits(Ascii(l)) && |k| < |l|
    ensures AllDigits(Ascii(l[..|k|])) && (TextLe(k, l) <==> NatValue(Ascii(k)) <= NatValue(Ascii(l[..|k|])))
  {
    hide NatValue, TextLe;
    var front := l[..|k|];
    assert Ascii(front) == Ascii(l)[..|k|];
    assert l == front + l[|k|..];
    TextOfPrefixes(k, front, l[|k|..]);
    SameLengthOrder(k, front);
  }

  lemma AtLeastOnce(d: nat, p: nat)
    requires d >= 1
    ensures d * p >= p
  {}

  /** An index of fewer digits than another, and larger than the number the other starts with: 9 and 10. */
  predicate OutOfStep(k: Text, l: Text) {
    IsIndex(k) && IsIndex(l) && |k| < |l| &&
    (assert Ascii(l[..|k|]) == Ascii(l)[..|k|]; IndexValue(k) > NatValue(Ascii(l[..|k|])))
  }

  /** An index and another name that comes before it by code unit. */
  predicate Overtakes(k: Text, l: Text) { IsIndex(k) && !IsIndex(l) && TextLe(l, k) }

  /** Exactly these pairs of keys come out in another order than by code unit. */
  lemma DisagreeExactly(k: Text, l: Text)
    ensures Agree(k, l) <==> !(OutOfStep(k, l) || OutOfStep(l, k) || Overtakes(k, l) || Overtakes(l, k))
  {
    TextLeTotal(k, l);
    if k == l {
      TextLeTotal(k, k);
    } else if TextLe(k, l) && TextLe(l, k) {
      TextLeAntisymmetric(k, l);
    }
    if IsIndex(k) && IsIndex(l) {
      if |k| < |l| {
        ShorterIndex(k, l);
      } else if |l| < |k| {
        ShorterIndex(l, k);
      } else {
        SameLengthOrder(k, l);
      }
    }
  }

  lemma TenBeforeNine()
    ensures OutOfStep(NINE, TEN) && !Agree(TEN, NINE) && !MemberLe(Member(TEN, Null), Member(NINE, Null))
  {
    AsciiUnits("9");
    AsciiUnits("10");
    TenAndNine();
    assert Ascii(TEN[..1]) == "1";
    DisagreeExactly(TEN, NINE);
  }

  const NINE := Units("9")
  const TEN := Units("10")

  lemma TenAndNine()
    ensures NatValue("10") == 10 && NatValue("9") == 9 && NatValue("1") == 1 && |NINE| == 1 && |TEN| == 2
  {
    assert "10"[..1] == "1" && "1"[..0] == "" && "9"[..0] == "";
    assert "10"[1..] == "0" && "0"[1..] == "" && "9"[1..] == "";
  }

  /** `{"10": null, "9": null}` comes out with 9 first. */
  lemma IndicesComeOutByNumber()
    ensures var v := JsObject([Field(TEN, JsNull), Field(NINE, JsNull)]);
            var j := Obj([Member(NINE, Null), Member(TEN, Null)]);
            Sorted(v) == Some(j) && !InUnitOrder(j)
  {
    hide Agree, MemberLe, UnitLe, OutOfStep;
    var f := [Field(TEN, JsNull), Field(NINE, JsNull)];
    var m, n := Member(TEN, Null), Member(NINE, Null);
    assert Sorted(FromJson(Null)) == Some(Null) && FromMembers([m, n]) == f;
    MembersFixed([m, n]);
    TenBeforeNine();
    SortOfTwo(m, n);
    assert m in [m, n] && n in [m, n];
    UnitOrderExactly([m, n]);
  }

  lemma SortOfTwo(m: Member, n: Member)
    requires !MemberLe(m, n)
    ensures Sort([m, n], MemberLe) == [n, m]
  {
    assert [m, n][1..] == [n] && [n][1..] == [];
    assert Sort([n], MemberLe) == [n];
    assert Insert(m, [n][1..], MemberLe) == [m];
    assert [n] + [m] == [n, m];
  }

  // ---- at every depth ------------------------------------------------------

  /** In every object the keys of its defined properties agree. */
  ghost predicate KeysAgree(v: JsValue)
    decreases v
  {
    match v
    case JsList(items) => forall i :: 0 <= i < |items| ==> KeysAgree(items[i])
    case JsObject(fields) =>
      && (forall i, k :: 0 <= i < |fields| && 0 <= k < |fields| && Defined(fields, i) && Defined(fields, k) ==>
            Agree(fields[i].name, fields[k].name))
      && (forall i :: 0 <= i < |fields| && Defined(fields, i) ==> KeysAgree(fields[i].value))
    case _ => true
  }

  predicate Defined(fields: seq<Field>, i: nat)
    requires i < |fields|
  {
    !fields[i].value.JsUndefined?
  }

  lemma ObjectInUnitOrder(fields: seq<Field>, members: seq<Member>)
    requires SortedFields(fields).Some? && members == Sort(SortedFields(fields).value, MemberLe)
    ensures SortedBy(members, UnitLe) <==>
            forall i, k :: 0 <= i < |fields| && 0 <= k < |fields| && Defined(fields, i) && Defined(fields, k) ==>
              Agree(fields[i].name, fields[k].name)
  {
    var s := SortedFields(fields).value;
    UnitOrderExactly(s);
    if SortedBy(members, UnitLe) {
      forall i, k | 0 <= i < |fields| && 0 <= k < |fields| && Defined(fields, i) && Defined(fields, k)
        ensures Agree(fields[i].name, fields[k].name)
      {
        FieldsToMembers(fields, i);
        FieldsToMembers(fields, k);
      }
    } else {
      var m, n :| m in s && n in s && !Agree(m.key, n.key);
      var i := MembersFromFields(fields, m);
      var k := MembersFromFields(fields, n);
      assert Defined(fields, i) && Defined(fields, k) && !Agree(fields[i].name, fields[k].name);
    }
  }

  /** Sorting gives code-unit order throughout exactly when the keys agree throughout. */
  lemma {:induction false} InUnitOrderExactly(v: JsValue, j: Json)
    requires Sorted(v) == Some(j)
    ensures InUnitOrder(j) <==> KeysAgree(v)
    decreases v
  {
    if v.JsList? {
      ItemsPointwise(v.items);
      forall i | 0 <= i < |v.items| ensures InUnitOrder(j.items[i]) <==> KeysAgree(v.items[i]) {
        InUnitOrderExactly(v.items[i], j.items[i]);
      }
    } else if v.JsObject? {
      ObjectInUnitOrder(v.fields, j.members);
      SortPermutes(SortedFields(v.fields).value, MemberLe);
      forall i | 0 <= i < |v.fields| && Defined(v.fields, i)
        ensures Sorted(v.fields[i].value).Some?
        ensures InUnitOrder(Sorted(v.fields[i].value).value) <==> KeysAgree(v.fields[i].value)
      {
        FieldsToMembers(v.fields, i);
        InUnitOrderExactly(v.fields[i].value, Sorted(v.fields[i].value).value);
      }
      if KeysAgree(v) { MembersInUnitOrder(v.fields, j.members); } else { FieldsInUnitOrder(v.fields, j.members); }
    }
  }

  lemma MembersInUnitOrder(fields: seq<Field>, members: seq<Member>)
    requires SortedFields(fields).Some? && forall m :: m in members <==> m in SortedFields(fields).value
    requires forall i :: 0 <= i < |fields| && Defined(fields, i) ==>
               Sorted(fields[i].value).Some? && InUnitOrder(Sorted(fields[i].value).value)
    ensures forall k :: 0 <= k < |members| ==> InUnitOrder(members[k].value)
  {
    forall k | 0 <= k < |members| ensures InUnitOrder(members[k].value) {
      assert members[k] in SortedFields(fields).value;
      var i := MembersFromFields(fields, members[k]);
      assert Defined(fields, i);
    }
  }

  lemma FieldsInUnitOrder(fields: seq<Field>, members: seq<Member>)
    requires SortedFields(fields).Some? && forall m :: m in members <==> m in SortedFields(fields).value
    ensures forall i :: 0 <= i < |fields| && Defined(fields, i) ==> Sorted(fields[i].value).Some?
    ensures (forall k :: 0 <= k < |members| ==> InUnitOrder(members[k].value)) ==>
            forall i :: 0 <= i < |fields| && Defined(fields, i) ==> InUnitOrder(Sorted(fields[i].value).value)
  {
    forall i | 0 <= i < |fields| && Defined(fields, i)
      ensures Sorted(fields[i].value).Some? && Member(fields[i].name, Sorted(fields[i].value).value) in members
    {
      FieldsToMembers(fields, i);
    }
  }

  // ---- a job's canonical text ----------------------------------------------

  /** No key at any depth is an index. */
  ghost predicate Unindexed(v: JsValue)
    decreases v
  {
    match v
    case JsList(items) => forall i :: 0 <= i < |items| ==> Unindexed(items[i])
    case JsObject(fields) => forall i :: 0 <= i < |fields| ==> !IsIndex(fields[i].name) && Unindexed(fields[i].value)
    case _ => true
  }

  lemma {:induction false} UnindexedAgree(v: JsValue)
    requires Unindexed(v)
    ensures KeysAgree(v)
    decreases v
  {
    if v.JsList? {
      forall i | 0 <= i < |v.items| ensures KeysAgree(v.items[i]) { UnindexedAgree(v.items[i]); }
    } else if v.JsObject? {
      forall i | 0 <= i < |v.fields| ensures KeysAgree(v.fields[i].value) { UnindexedAgree(v.fields[i].value); }
      forall i, k | 0 <= i < |v.fields| && 0 <= k < |v.fields| ensures Agree(v.fields[i].name, v.fields[k].name) {}
    }
  }

  /** Names that start with a letter. */
  predicate Lettered(keys: seq<string>) {
    forall i :: 0 <= i < |keys| ==> keys[i] != "" && !IsDigit(keys[i][0])
  }

  lemma NotIndex(k: string)
    requires k != "" && !IsDigit(k[0])
    ensures !IsIndex(Units(k))
  {
    var u := Units(k);
    assert u[0] == CharUnits(k[0])[0];
    assert Ascii(u)[0] == k[0] || !IsDigit(Ascii(u)[0]);
  }

  lemma RecordUnindexed(keys: seq<string>, values: seq<JsValue>)
    requires |keys| == |values| && Lettered(keys) && forall i :: 0 <= i < |values| ==> Unindexed(values[i])
    ensures Unindexed(JsObject(Record(keys, values)))
  {
    forall i | 0 <= i < |keys| ensures !IsIndex(Units(keys[i])) { NotIndex(keys[i]); }
  }

  lemma LeavesUnindexed(values: seq<JsValue>)
    requires forall i :: 0 <= i < |values| ==> Leaf(values[i])
    ensures forall i :: 0 <= i < |values| ==> Unindexed(values[i])
  {}

  lemma ListUnindexed<T>(s: seq<T>, toJs: T -> JsValue)
    requires forall i :: 0 <= i < |s| ==> Unindexed(toJs(s[i]))
    ensures Unindexed(JsList(ListToJs(s, toJs)))
  {}

  lemma StepUnindexed(s: JobStep)
    ensures Unindexed(StepToJs(s))
  {
    LeavesUnindexed(StepValues(s));
    RecordUnindexed(STEP_KEYS, StepValues(s));
  }

  lemma NotificationsUnindexed(n: Notifications)
    ensures Unindexed(NotificationsToJs(n))
  {
    LeavesUnindexed(NotificationsValues(n));
    RecordUnindexed(NOTIFICATION_KEYS, NotificationsValues(n));
  }

  lemma ScheduleUnindexed(s: ScheduleDefinition)
    ensures Unindexed(ScheduleToJs(s))
  {
    LeavesUnindexed(ScheduleValues(s));
    RecordUnindexed(SCHEDULE_KEYS, ScheduleValues(s));
  }

  lemma ListsUnindexed(job: JobDefinition)
    ensures Unindexed(JsList(ListToJs(job.steps, StepToJs)))
    ensures Unindexed(JsList(ListToJs(job.schedules, ScheduleToJs)))
    ensures Unindexed(JsList(ListToJs(job.targetServers, TextToJs)))
  {
    forall i | 0 <= i < |job.steps| ensures Unindexed(StepToJs(job.steps[i])) { StepUnindexed(job.steps[i]); }
    ListUnindexed(job.steps, StepToJs);
    forall i | 0 <= i < |job.schedules| ensures Unindexed(ScheduleToJs(job.schedules[i])) {
      ScheduleUnindexed(job.schedules[i]);
    }
    ListUnindexed(job.schedules, ScheduleToJs);
    ListUnindexed(job.targetServers, TextToJs);
  }

  lemma JobUnindexed(job: JobDefinition)
    ensures Unindexed(JobToJs(job))
  {
    hide Units;
    NotificationsUnindexed(job.notifications);
    ListsUnindexed(job);
    RecordUnindexed(JOB_KEYS, JobValues(job));
  }

  /** The canonical text of a job is the print of JSON whose every object lists its keys by code unit. */
  lemma CanonicalJobInUnitOrder(job: JobDefinition)
    ensures var j := Parse(CanonicalJob(job)); j.Some? && InUnitOrder(j.value) && Print(j.value) == CanonicalJob(job)
  {
    hide Units;
    var v := JobToJs(NormaliseJob(job));
    JobWritable(NormaliseJob(job));
    SortedExactly(v);
    var j := Sorted(v).value;
    SortedInOrder(v, j);
    ParsePrint(j);
    JobUnindexed(NormaliseJob(job));
    UnindexedAgree(v);
    InUnitOrderExactly(v, j);
  }
}
