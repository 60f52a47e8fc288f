/** `sortKeysDeep` as it runs: it recurses, and fills a fresh object property by property. */
module SortKeysLoop {
  import opened Wrappers
  import opened Sorting
  import opened Utf16
  import opened Json
  import opened Numerals
  import opened JsonRoundTrip
  import opened JsValues
  import opened SortKeys

  /** `out` holds the sorted properties named by `names`, and nothing else. */
  ghost predicate Collected(fields: seq<Field>, names: seq<Text>, out: seq<Member>) {
    && (forall m :: m in out ==> m.key in names && Holds(fields, m))
    && (forall name :: name in names && Get(fields, name) != JsUndefined ==> Has(fields, out, name))
  }

  predicate Holds(fields: seq<Field>, m: Member) {
    Get(fields, m.key) != JsUndefined && Sorted(Get(fields, m.key)) == Some(m.value)
  }

  predicate Has(fields: seq<Field>, out: seq<Member>, name: Text) {
    var v := Sorted(Get(fields, name));
    v.Some? && Member(name, v.value) in out
  }

  lemma NoSortedFields(fields: seq<Field>, name: Text)
    requires Get(fields, name) != JsUndefined && Sorted(Get(fields, name)).None?
    ensures SortedFields(fields).None?
  {
    var f := Field(name, Get(fields, name));
    var i :| 0 <= i < |fields| && fields[i] == f;
    if SortedFields(fields).Some? { FieldsToMembers(fields, i); }
  }

  /** The filled object is the sorted one. */
  lemma CollectedAll(fields: seq<Field>, names: seq<Text>, out: seq<Member>)
    requires DistinctNames(fields) && multiset(names) == multiset(Names(fields))
    requires Collected(fields, names, out) && DistinctKeys(out) && SortedBy(out, MemberLe)
    ensures Sorted(JsObject(fields)) == Some(Obj(out))
  {
    forall i | 0 <= i < |fields| && !fields[i].value.JsUndefined?
      ensures Sorted(fields[i].value).Some? && Member(fields[i].name, Sorted(fields[i].value).value) in out
    {
      GetAt(fields, i);
      assert Names(fields)[i] in multiset(names);
      assert fields[i].name in names;
      assert Has(fields, out, fields[i].name);
    }
    FieldsSort(fields);
    var s := SortedFields(fields).value;
    forall m ensures m in s <==> m in out {
      if m in s { var i := MembersFromFields(fields, m); }
      if m in out {
        assert Holds(fields, m);
        var i :| 0 <= i < |fields| && fields[i] == Field(m.key, Get(fields, m.key));
        FieldsToMembers(fields, i);
      }
    }
    MembersAreDistinct(fields);
    SortedMembersDecide(s, out);
    SortOfSorted(out, MemberLe);
  }

  lemma NamesInOrder(fields: seq<Field>, names: seq<Text>)
    requires DistinctNames(fields) && names == Sort(Names(fields), TextLe)
    ensures multiset(names) == multiset(Names(fields)) && NoDuplicates(names) && SortedBy(names, TextLe)
  {
    SortPermutes(Names(fields), TextLe);
    RearrangedNoDuplicates(Names(fields), names);
    forall s, t ensures TextLe(s, t) || TextLe(t, s) { TextLeTotal(s, t); }
    forall s, t, u | TextLe(s, t) && TextLe(t, u) ensures TextLe(s, u) { TextLeTransitive(s, t, u); }
    SortSorted(Names(fields), TextLe);
  }

  /** A new, later name joins the members and keeps their order. */
  lemma NextInOrder(out: seq<Member>, m: Member, next: seq<Member>)
    requires DistinctKeys(out) && SortedBy(out, MemberLe) && next == AddProperty(out, m)
    requires forall n :: n in out ==> TextLe(n.key, m.key) && n.key != m.key
    ensures DistinctKeys(next) && SortedBy(next, MemberLe)
    ensures forall n :: n in next <==> n in out || n == m
  {
    AddKeepsOrder(out, m);
    assert DistinctKeys(out + [m]);
    assert multiset(next) == multiset(out + [m]);
    RearrangedDistinct(out + [m], next);
    forall n ensures n in next <==> n in out || n == m {
      assert n in next <==> n in multiset(next);
      assert n in out <==> n in multiset(out);
    }
  }

  lemma CollectMore(fields: seq<Field>, names: seq<Text>, out: seq<Member>, m: Member, next: seq<Member>)
    requires Collected(fields, names, out) && Holds(fields, m)
    requires forall n :: n in next <==> n in out || n == m
    ensures Collected(fields, names + [m.key], next)
  {
    forall name | name in names + [m.key] && Get(fields, name) != JsUndefined ensures Has(fields, next, name) {
      if name in names { assert Has(fields, out, name); }
    }
  }

  /** One property of the loop: what is collected grows by it, in order. */
  lemma CollectOne(fields: seq<Field>, names: seq<Text>, i: nat, out: seq<Member>, m: Member, next: seq<Member>)
    requires i < |names| && NoDuplicates(names) && SortedBy(names, TextLe)
    requires Collected(fields, names[..i], out) && DistinctKeys(out) && SortedBy(out, MemberLe)
    requires m.key == names[i] && Holds(fields, m) && next == AddProperty(out, m)
    ensures Collected(fields, names[..i + 1], next) && DistinctKeys(next) && SortedBy(next, MemberLe)
  {
    forall n | n in out ensures TextLe(n.key, m.key) && n.key != m.key {
      var k :| 0 <= k < i && names[k] == n.key;
    }
    NextInOrder(out, m, next);
    CollectMore(fields, names[..i], out, m, next);
    assert names[..i + 1] == names[..i] + [names[i]];
  }

  method SortKeysDeep(v: JsValue) returns (r: Option<Json>)
    requires Proper(v)
    ensures r == Sorted(v)
    decreases v, 1
  {
    match v {
      case JsNull => r := Some(Null);
      case JsBool(b) => r := Some(Bool(b));
      case JsNumber(n) => r := Some(Num(n));
      case JsMinusZero => r := Some(Num(ZERO));
      case JsText(s) => r := Some(Str(s));
      case JsList(items) => r := SortItems(items);
      case JsObject(fields) => r := SortObject(fields);
      case _ => r := None;
    }
  }

  method SortItems(items: seq<JsValue>) returns (r: Option<Json>)
    requires Proper(JsList(items))
    ensures r == Sorted(JsList(items))
    decreases items, 0
  {
    var out: seq<Json> := [];
    for i := 0 to |items|
      invariant |out| == i && forall k :: 0 <= k < i ==> Sorted(items[k]) == Some(out[k])
    {
      var x := SortKeysDeep(items[i]);
      if x.None? {
        assert SortedItems(items).None? by {
          if SortedItems(items).Some? { ItemsPointwise(items); }
        }
        return None;
      }
      out := out + [x.value];
    }
    ItemsSort(items, out);
    return Some(Arr(out));
  }

  method SortObject(fields: seq<Field>) returns (r: Option<Json>)
    requires Proper(JsObject(fields))
    ensures r == Sorted(JsObject(fields))
    decreases fields, 0
  {
    var names := Sort(Names(fields), TextLe);
    NamesInOrder(fields, names);
    var out: seq<Member> := [];
    for i := 0 to |names|
      invariant Collected(fields, names[..i], out) && DistinctKeys(out) && SortedBy(out, MemberLe)
    {
      var v := Get(fields, names[i]);
      if v == JsUndefined {
        assert names[..i + 1] == names[..i] + [names[i]];
        continue;
      }
      assert Field(names[i], v) in fields;
      var x := SortKeysDeep(v);
      if x.None? {
        NoSortedFields(fields, names[i]);
        return None;
      }
      var m := Member(names[i], x.value);
      CollectOne(fields, names, i, out, m, AddProperty(out, m));
      out := AddProperty(out, m);
    }
    assert names[..|names|] == names;
    CollectedAll(fields, names, out);
    return Some(Obj(out));
  }
}
