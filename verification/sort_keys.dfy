/**
 * `sortKeysDeep` and the order in which `JSON.stringify` walks its result:
 * array-index names ascending, then the other names by code unit.
 */
module SortKeys {
  import opened Wrappers
  import opened Decimal
  import opened Sorting
  import opened Utf16
  import opened Json
  import opened Numerals
  import opened JsonRoundTrip
  import opened JsValues

  // ---- the order of names --------------------------------------------------

  const INDEX_LIMIT := 4294967295

  /** The decimal text of an integer below 2^32 - 1. */
  predicate IsIndex(k: Text) {
    var t := Ascii(k);
    t != "" && AllDigits(t) && (t[0] == '0' ==> t == "0") && NatValue(t) < INDEX_LIMIT
  }

  function IndexValue(k: Text): nat
    requires IsIndex(k)
  {
    NatValue(Ascii(k))
  }

  predicate KeyLe(k: Text, l: Text) {
    if IsIndex(k) then (IsIndex(l) ==> IndexValue(k) <= IndexValue(l)) else !IsIndex(l) && TextLe(k, l)
  }

  predicate MemberLe(m: Member, n: Member) { KeyLe(m.key, n.key) }

  /** Digits are told apart by what they read as. */
  lemma AsciiDigits(k: Text, l: Text)
    requires AllDigits(Ascii(k)) && Ascii(k) == Ascii(l)
    ensures k == l
  {
    forall i | 0 <= i < |k| ensures k[i] == l[i] {
      assert IsDigit(Ascii(k)[i]) && Ascii(k)[i] == Ascii(l)[i];
    }
  }

  lemma KeyLeOrders(k: Text, l: Text)
    ensures KeyLe(k, l) || KeyLe(l, k)
    ensures KeyLe(k, l) && KeyLe(l, k) ==> k == l
  {
    TextLeTotal(k, l);
    if KeyLe(k, l) && KeyLe(l, k) {
      if IsIndex(k) {
        StringRoundTrip(Ascii(k));
        StringRoundTrip(Ascii(l));
        AsciiDigits(k, l);
      } else {
        TextLeAntisymmetric(k, l);
      }
    }
  }

  lemma KeyLeTransitive(k: Text, l: Text, m: Text)
    requires KeyLe(k, l) && KeyLe(l, m)
    ensures KeyLe(k, m)
  {
    if !IsIndex(k) { TextLeTransitive(k, l, m); }
  }

  lemma MemberLePreorder()
    ensures TotalPreorder(MemberLe)
  {
    forall m, n ensures MemberLe(m, n) || MemberLe(n, m) { KeyLeOrders(m.key, n.key); }
    forall m, n, o | MemberLe(m, n) && MemberLe(n, o) ensures MemberLe(m, o) {
      KeyLeTransitive(m.key, n.key, o.key);
    }
  }

  lemma MemberLeAntisymmetric(members: seq<Member>)
    requires DistinctKeys(members)
    ensures AntisymmetricOn(members, MemberLe)
  {
    forall m, n | m in members && n in members && MemberLe(m, n) && MemberLe(n, m) ensures m == n {
      KeyLeOrders(m.key, n.key);
    }
  }

  // ---- the sorted value ----------------------------------------------------

  /** The canonical JSON of a value; `None` where the source throws. */
  function Sorted(v: JsValue): Option<Json>
    decreases v, 0
  {
    match v
    case JsNull => Some(Null)
    case JsBool(b) => Some(Bool(b))
    case JsNumber(n) => Some(Num(n))
    case JsMinusZero => Some(Num(ZERO))
    case JsText(s) => Some(Str(s))
    case JsList(items) =>
      (match SortedItems(items) case None => None case Some(s) => Some(Arr(s)))
    case JsObject(fields) =>
      (match SortedFields(fields) case None => None case Some(s) => Some(Obj(Sort(s, MemberLe))))
    case _ => None
  }

  function SortedItems(items: seq<JsValue>): Option<seq<Json>>
    decreases items, 1
  {
    if items == [] then Some([])
    else
      var (first, rest) := (Sorted(items[0]), SortedItems(items[1..]));
      if first.None? || rest.None? then None else Some([first.value] + rest.value)
  }

  /** One member for each property that is not undefined. */
  function SortedFields(fields: seq<Field>): Option<seq<Member>>
    decreases fields, 1
  {
    if fields == [] then Some([])
    else
      var rest := SortedFields(fields[1..]);
      if fields[0].value.JsUndefined? then rest
      else
        var first := Sorted(fields[0].value);
        if first.None? || rest.None? then None else Some([Member(fields[0].name, first.value)] + rest.value)
  }

  lemma {:induction false} ItemsPointwise(items: seq<JsValue>)
    requires SortedItems(items).Some?
    ensures var r := SortedItems(items).value;
            |r| == |items| && forall i :: 0 <= i < |items| ==> Sorted(items[i]) == Some(r[i])
  {
    if items != [] { ItemsPointwise(items[1..]); }
  }

  /** The members are exactly the defined properties, each with its sorted value. */
  lemma {:induction false} FieldsToMembers(fields: seq<Field>, i: nat)
    requires SortedFields(fields).Some? && i < |fields| && !fields[i].value.JsUndefined?
    ensures Sorted(fields[i].value).Some?
    ensures Member(fields[i].name, Sorted(fields[i].value).value) in SortedFields(fields).value
  {
    if i > 0 { FieldsToMembers(fields[1..], i - 1); }
  }

  lemma {:induction false} MembersFromFields(fields: seq<Field>, m: Member) returns (i: nat)
    requires SortedFields(fields).Some? && m in SortedFields(fields).value
    ensures i < |fields| && !fields[i].value.JsUndefined?
    ensures fields[i].name == m.key && Sorted(fields[i].value) == Some(m.value)
  {
    i := 0;
    var rest := SortedFields(fields[1..]);
    if fields[0].value.JsUndefined? || m in rest.value {
      var k := MembersFromFields(fields[1..], m);
      i := k + 1;
    }
  }

  lemma {:induction false} MembersAreDistinct(fields: seq<Field>)
    requires DistinctNames(fields) && SortedFields(fields).Some?
    ensures DistinctKeys(SortedFields(fields).value)
  {
    if fields != [] {
      var rest := SortedFields(fields[1..]).value;
      MembersAreDistinct(fields[1..]);
      if !fields[0].value.JsUndefined? {
        forall j | 0 <= j < |rest| ensures rest[j].key != fields[0].name {
          var i := MembersFromFields(fields[1..], rest[j]);
          assert fields[i + 1].name == rest[j].key;
        }
      }
    }
  }

  lemma {:induction false} FieldsSort(fields: seq<Field>)
    requires forall i :: 0 <= i < |fields| && !fields[i].value.JsUndefined? ==> Sorted(fields[i].value).Some?
    ensures SortedFields(fields).Some?
  {
    if fields != [] { FieldsSort(fields[1..]); }
  }

  lemma {:induction false} ItemsSort(items: seq<JsValue>, out: seq<Json>)
    requires |out| == |items| && forall i :: 0 <= i < |items| ==> Sorted(items[i]) == Some(out[i])
    ensures SortedItems(items) == Some(out)
  {
    if items != [] {
      ItemsSort(items[1..], out[1..]);
      assert out == [out[0]] + out[1..];
    }
  }

  /** The source throws exactly on a value, outside an undefined property, that JSON cannot hold. */
  ghost predicate Serialisable(v: JsValue)
    decreases v
  {
    match v
    case JsList(items) => forall i :: 0 <= i < |items| ==> Serialisable(items[i])
    case JsObject(fields) =>
      forall i :: 0 <= i < |fields| ==> fields[i].value.JsUndefined? || Serialisable(fields[i].value)
    case _ => !v.JsUndefined? && !v.JsNonFinite? && !v.JsUnsupported?
  }

  lemma {:induction false} SortedExactly(v: JsValue)
    ensures Sorted(v).Some? <==> Serialisable(v)
    decreases v
  {
    if v.JsList? {
      forall i | 0 <= i < |v.items| ensures Sorted(v.items[i]).Some? <==> Serialisable(v.items[i]) {
        SortedExactly(v.items[i]);
      }
      if Sorted(v).Some? {
        ItemsPointwise(v.items);
      } else if Serialisable(v) {
        ItemsSort(v.items, seq(|v.items|, i requires 0 <= i < |v.items| => Sorted(v.items[i]).value));
      }
    } else if v.JsObject? {
      forall i | 0 <= i < |v.fields|
        ensures Sorted(v.fields[i].value).Some? <==> Serialisable(v.fields[i].value)
        ensures Sorted(v).Some? && !v.fields[i].value.JsUndefined? ==> Sorted(v.fields[i].value).Some?
      {
        SortedExactly(v.fields[i].value);
        if Sorted(v).Some? && !v.fields[i].value.JsUndefined? { FieldsToMembers(v.fields, i); }
      }
      if Serialisable(v) { FieldsSort(v.fields); }
    }
  }

  // ---- equal results mean the same value -----------------------------------

  lemma NoDuplicatesSameMultiset<T>(s: seq<T>, t: seq<T>)
    requires NoDuplicates(s) && NoDuplicates(t) && forall x :: x in s <==> x in t
    ensures multiset(s) == multiset(t)
  {
    forall x ensures multiset(s)[x] == multiset(t)[x] {
      NoDuplicatesCount(s, x);
      NoDuplicatesCount(t, x);
      assert x in multiset(s) <==> x in s;
      assert x in multiset(t) <==> x in t;
    }
  }

  /** Members with distinct keys come out in one order, whatever order they went in. */
  lemma SortedMembersDecide(s: seq<Member>, t: seq<Member>)
    requires DistinctKeys(s) && DistinctKeys(t)
    ensures Sort(s, MemberLe) == Sort(t, MemberLe) <==> forall m :: m in s <==> m in t
  {
    SortPermutes(s, MemberLe);
    SortPermutes(t, MemberLe);
    if forall m :: m in s <==> m in t {
      NoDuplicatesSameMultiset(s, t);
      MemberLePreorder();
      MemberLeAntisymmetric(s);
      SortIgnoresOrder(s, t, MemberLe);
    }
  }

  /** Two values sort to the same JSON exactly when they are the same value. */
  lemma {:induction false} SortedDecides(v: JsValue, w: JsValue)
    requires Proper(v) && Proper(w) && Sorted(v).Some? && Sorted(w).Some?
    ensures Sorted(v) == Sorted(w) <==> SameValue(v, w)
    decreases v, 1
  {
    if v.JsList? && w.JsList? {
      ListsDecide(v.items, w.items);
    } else if v.JsObject? && w.JsObject? {
      ObjectsDecide(v.fields, w.fields);
    }
  }

  lemma ListsDecide(s: seq<JsValue>, t: seq<JsValue>)
    requires Proper(JsList(s)) && Proper(JsList(t)) && SortedItems(s).Some? && SortedItems(t).Some?
    ensures SortedItems(s) == SortedItems(t) <==> SameValue(JsList(s), JsList(t))
    decreases s, 0
  {
    ItemsPointwise(s);
    ItemsPointwise(t);
    var x, y := SortedItems(s).value, SortedItems(t).value;
    forall i | 0 <= i < |s| && 0 <= i < |t| ensures x[i] == y[i] <==> SameValue(s[i], t[i]) {
      SortedDecides(s[i], t[i]);
    }
    if SameValue(JsList(s), JsList(t)) { assert x == y; }
  }

  lemma ObjectsDecide(f: seq<Field>, g: seq<Field>)
    requires Proper(JsObject(f)) && Proper(JsObject(g)) && SortedFields(f).Some? && SortedFields(g).Some?
    ensures Sorted(JsObject(f)) == Sorted(JsObject(g)) <==> SameValue(JsObject(f), JsObject(g))
    decreases f, 0
  {
    var s, t := SortedFields(f).value, SortedFields(g).value;
    MembersAreDistinct(f);
    MembersAreDistinct(g);
    SortedMembersDecide(s, t);
    forall i, j | 0 <= i < |f| && 0 <= j < |g| && !f[i].value.JsUndefined? && !g[j].value.JsUndefined?
      ensures Sorted(f[i].value).Some? && Sorted(g[j].value).Some?
      ensures Sorted(f[i].value) == Sorted(g[j].value) <==> SameValue(f[i].value, g[j].value)
    {
      FieldsToMembers(f, i);
      FieldsToMembers(g, j);
      SortedDecides(f[i].value, g[j].value);
    }
    if SameValue(JsObject(f), JsObject(g)) {
      SameFieldsSameMembers(f, g);
    } else if forall m :: m in s <==> m in t {
      SameMembersSameFields(f, g);
    }
  }

  /** Sorting decides sameness for each pair of defined properties. */
  ghost predicate FieldsDecided(f: seq<Field>, g: seq<Field>) {
    forall i, j :: 0 <= i < |f| && 0 <= j < |g| && !f[i].value.JsUndefined? && !g[j].value.JsUndefined? ==>
      (Sorted(f[i].value) == Sorted(g[j].value) <==> SameValue(f[i].value, g[j].value))
  }

  lemma SameFieldsSameMembers(f: seq<Field>, g: seq<Field>)
    requires SortedFields(f).Some? && SortedFields(g).Some? && FieldsDecided(f, g)
    requires SameValue(JsObject(f), JsObject(g))
    ensures forall m :: m in SortedFields(f).value <==> m in SortedFields(g).value
  {
    hide SortedFields, SameValue, FieldsDecided;
    var s, t := SortedFields(f).value, SortedFields(g).value;
    forall m | m in s ensures m in t { MemberOver(f, g, m); }
    forall m | m in t ensures m in s { MemberBack(f, g, m); }
  }

  lemma MemberOver(f: seq<Field>, g: seq<Field>, m: Member)
    requires SortedFields(f).Some? && SortedFields(g).Some? && FieldsDecided(f, g)
    requires SameValue(JsObject(f), JsObject(g)) && m in SortedFields(f).value
    ensures m in SortedFields(g).value
  {
    hide SortedFields;
    var i := MembersFromFields(f, m);
    assert Matched(f, i, g);
    var j :| 0 <= j < |g| && g[j].name == f[i].name && SameValue(f[i].value, g[j].value);
    FieldsToMembers(g, j);
  }

  lemma MemberBack(f: seq<Field>, g: seq<Field>, m: Member)
    requires SortedFields(f).Some? && SortedFields(g).Some? && FieldsDecided(f, g)
    requires SameValue(JsObject(f), JsObject(g)) && m in SortedFields(g).value
    ensures m in SortedFields(f).value
  {
    hide SortedFields;
    var j := MembersFromFields(g, m);
    assert MatchedBack(f, g, j);
    var i :| 0 <= i < |f| && g[j].name == f[i].name && SameValue(f[i].value, g[j].value);
    FieldsToMembers(f, i);
  }

  lemma SameMembersSameFields(f: seq<Field>, g: seq<Field>)
    requires SortedFields(f).Some? && SortedFields(g).Some? && FieldsDecided(f, g)
    requires forall m :: m in SortedFields(f).value <==> m in SortedFields(g).value
    ensures SameValue(JsObject(f), JsObject(g))
  {
    forall i | 0 <= i < |f| && !f[i].value.JsUndefined? ensures Matched(f, i, g) {
      FieldsToMembers(f, i);
      var j := MembersFromFields(g, Member(f[i].name, Sorted(f[i].value).value));
      assert SameValue(f[i].value, g[j].value);
    }
    forall j | 0 <= j < |g| && !g[j].value.JsUndefined? ensures MatchedBack(f, g, j) {
      FieldsToMembers(g, j);
      var i := MembersFromFields(f, Member(g[j].name, Sorted(g[j].value).value));
      assert SameValue(f[i].value, g[j].value);
    }
  }

  // ---- sorting twice -------------------------------------------------------

  ghost predicate InOrder(j: Json)
    decreases j
  {
    match j
    case Arr(items) => forall i :: 0 <= i < |items| ==> InOrder(items[i])
    case Obj(members) => SortedBy(members, MemberLe) && forall i :: 0 <= i < |members| ==> InOrder(members[i].value)
    case _ => true
  }

  /** The result names no key twice and keeps every object in key order. */
  lemma {:induction false} SortedInOrder(v: JsValue, j: Json)
    requires Proper(v) && Sorted(v) == Some(j)
    ensures ProperKeys(j) && InOrder(j)
    decreases v
  {
    if v.JsList? {
      ItemsPointwise(v.items);
      forall i | 0 <= i < |v.items| ensures ProperKeys(j.items[i]) && InOrder(j.items[i]) {
        SortedInOrder(v.items[i], j.items[i]);
      }
    } else if v.JsObject? {
      var s := SortedFields(v.fields).value;
      MembersAreDistinct(v.fields);
      SortPermutes(s, MemberLe);
      RearrangedDistinct(s, j.members);
      MemberLePreorder();
      SortSorted(s, MemberLe);
      forall k | 0 <= k < |j.members| ensures ProperKeys(j.members[k].value) && InOrder(j.members[k].value) {
        assert j.members[k] in s;
        var i := MembersFromFields(v.fields, j.members[k]);
        SortedInOrder(v.fields[i].value, j.members[k].value);
      }
    }
  }

  lemma RearrangedDistinct(s: seq<Member>, t: seq<Member>)
    requires DistinctKeys(s) && multiset(s) == multiset(t)
    ensures DistinctKeys(t)
  {
    RearrangedNoDuplicates(s, t);
    forall i, j | 0 <= i < j < |t| ensures t[i].key != t[j].key {
      assert t[i] in multiset(t) && t[j] in multiset(t);
      assert t[i] in s && t[j] in s && t[i] != t[j];
    }
  }

  lemma {:induction false} ItemsFixed(items: seq<Json>)
    requires forall i :: 0 <= i < |items| ==> Sorted(FromJson(items[i])) == Some(items[i])
    ensures SortedItems(FromItems(items)) == Some(items)
  {
    hide Sorted, FromJson;
    if items != [] {
      ItemsFixed(items[1..]);
      assert FromItems(items)[1..] == FromItems(items[1..]);
      assert items == [items[0]] + items[1..];
    }
  }

  lemma {:induction false} MembersFixed(members: seq<Member>)
    requires forall i :: 0 <= i < |members| ==> Sorted(FromJson(members[i].value)) == Some(members[i].value)
    ensures SortedFields(FromMembers(members)) == Some(members)
  {
    hide Sorted;
    if members != [] {
      MembersFixed(members[1..]);
      assert FromMembers(members)[1..] == FromMembers(members[1..]);
      assert members == [members[0]] + members[1..];
    }
  }

  /** A value read back from canonical JSON sorts to that JSON. */
  lemma {:induction false} SortedAgain(j: Json)
    requires InOrder(j)
    ensures Sorted(FromJson(j)) == Some(j)
    decreases j
  {
    if j.Arr? {
      forall i | 0 <= i < |j.items| ensures Sorted(FromJson(j.items[i])) == Some(j.items[i]) {
        SortedAgain(j.items[i]);
      }
      ItemsFixed(j.items);
    } else if j.Obj? {
      forall i | 0 <= i < |j.members| ensures Sorted(FromJson(j.members[i].value)) == Some(j.members[i].value) {
        SortedAgain(j.members[i].value);
      }
      MembersFixed(j.members);
      SortOfSorted(j.members, MemberLe);
    }
  }

  lemma {:induction false} FromJsonProper(j: Json)
    requires ProperKeys(j)
    ensures Proper(FromJson(j))
    decreases j
  {
    if j.Arr? {
      forall i | 0 <= i < |j.items| ensures Proper(FromJson(j.items[i])) { FromJsonProper(j.items[i]); }
    } else if j.Obj? {
      forall i | 0 <= i < |j.members| ensures Proper(FromJson(j.members[i].value)) {
        FromJsonProper(j.members[i].value);
      }
    }
  }

  // ---- canonical text ------------------------------------------------------

  /** `canonicalJsonStringify`. */
  function CanonicalText(v: JsValue): Option<string> {
    match Sorted(v) case None => None case Some(j) => Some(Print(j))
  }

  /** Equal text exactly for the same value, and the text reads back as that value. */
  lemma CanonicalTextDecides(v: JsValue, w: JsValue)
    requires Proper(v) && Proper(w) && CanonicalText(v).Some? && CanonicalText(w).Some?
    ensures CanonicalText(v) == CanonicalText(w) <==> SameValue(v, w)
  {
    var j, k := Sorted(v).value, Sorted(w).value;
    SortedInOrder(v, j);
    SortedInOrder(w, k);
    if Print(j) == Print(k) { PrintInjective(j, k); }
    SortedDecides(v, w);
  }

  lemma CanonicalTextReadsBack(v: JsValue)
    requires Proper(v) && CanonicalText(v).Some?
    ensures var j := Parse(CanonicalText(v).value);
            && j.Some? && Proper(FromJson(j.value))
            && SameValue(v, FromJson(j.value)) && CanonicalText(FromJson(j.value)) == CanonicalText(v)
  {
    var j := Sorted(v).value;
    SortedInOrder(v, j);
    ParsePrint(j);
    SortedAgain(j);
    FromJsonProper(j);
    SortedDecides(v, FromJson(j));
  }

  // ---- the loop ------------------------------------------------------------

  function Names(fields: seq<Field>): (r: seq<Text>)
    ensures |r| == |fields| && forall i :: 0 <= i < |r| ==> r[i] == fields[i].name
  {
    if fields == [] then [] else [fields[0].name] + Names(fields[1..])
  }

  /** Where a new property lands: an index among the indices, any other name at the end. */
  predicate IndexBefore(m: Member, n: Member) {
    !IsIndex(n.key) || (IsIndex(m.key) && IndexValue(m.key) <= IndexValue(n.key))
  }

  function AddProperty(out: seq<Member>, m: Member): seq<Member> {
    if IsIndex(m.key) then Insert(m, out, IndexBefore) else out + [m]
  }

  lemma {:induction false} IndexInsertion(m: Member, out: seq<Member>)
    requires IsIndex(m.key)
    ensures Insert(m, out, IndexBefore) == Insert(m, out, MemberLe)
  {
    if out != [] { IndexInsertion(m, out[1..]); }
  }

  /** A property added after every smaller name keeps the members in order. */
  lemma AddKeepsOrder(out: seq<Member>, m: Member)
    requires SortedBy(out, MemberLe)
    requires forall n :: n in out ==> TextLe(n.key, m.key)
    ensures SortedBy(AddProperty(out, m), MemberLe)
    ensures multiset(AddProperty(out, m)) == multiset(out) + multiset{m}
  {
    if IsIndex(m.key) {
      IndexInsertion(m, out);
      MemberLePreorder();
      InsertSorted(m, out, MemberLe);
      InsertPermutes(m, out, MemberLe);
    }
  }
}
