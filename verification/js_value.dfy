/** The JavaScript values that reach the canonicaliser. */
module JsValues {
  import opened Json
  import opened Numerals
  import opened Utf16

  datatype JsValue =
    | JsNull
    | JsUndefined
    | JsBool(b: bool)
    | JsNumber(n: Number)               // finite, other than -0
    | JsMinusZero
    | JsNonFinite                       // NaN and the infinities
    | JsText(s: Text)
    | JsList(items: seq<JsValue>)
    | JsObject(fields: seq<Field>)      // own enumerable properties, in any order
    | JsUnsupported                     // functions, symbols, bigints

  datatype Field = Field(name: Text, value: JsValue)

  ghost predicate DistinctNames(fields: seq<Field>) {
    forall i, j :: 0 <= i < j < |fields| ==> fields[i].name != fields[j].name
  }

  /** An object holds a property once, at every depth. */
  ghost predicate Proper(v: JsValue)
    decreases v
  {
    match v
    case JsList(items) => forall i :: 0 <= i < |items| ==> Proper(items[i])
    case JsObject(fields) => DistinctNames(fields) && forall i :: 0 <= i < |fields| ==> Proper(fields[i].value)
    case _ => true
  }

  /** Equal up to the order of properties, the sign of zero, and properties that are undefined. */
  ghost predicate SameValue(v: JsValue, w: JsValue)
    decreases v, 1
  {
    if v.JsList? && w.JsList? then
      |v.items| == |w.items| && forall i :: 0 <= i < |v.items| ==> SameValue(v.items[i], w.items[i])
    else if v.JsObject? && w.JsObject? then
      && (forall i :: 0 <= i < |v.fields| && !v.fields[i].value.JsUndefined? ==> Matched(v.fields, i, w.fields))
      && (forall j :: 0 <= j < |w.fields| && !w.fields[j].value.JsUndefined? ==> MatchedBack(v.fields, w.fields, j))
    else if Zero(v) || Zero(w) then Zero(v) && Zero(w)
    else v == w
  }

  predicate Zero(v: JsValue) { v == JsNumber(ZERO) || v == JsMinusZero }

  ghost predicate Matched(fields: seq<Field>, i: nat, others: seq<Field>)
    requires i < |fields|
    decreases fields, 0
  {
    exists j :: 0 <= j < |others| && others[j].name == fields[i].name && SameValue(fields[i].value, others[j].value)
  }

  ghost predicate MatchedBack(fields: seq<Field>, others: seq<Field>, j: nat)
    requires j < |others|
    decreases fields, 0
  {
    exists i :: 0 <= i < |fields| && others[j].name == fields[i].name && SameValue(fields[i].value, others[j].value)
  }

  lemma SameKind(v: JsValue, w: JsValue)
    requires SameValue(v, w)
    ensures v.JsObject? == w.JsObject? && v.JsList? == w.JsList?
  {}

  /** `obj[name]`. */
  function Get(fields: seq<Field>, name: Text): (v: JsValue)
    ensures v == JsUndefined || Field(name, v) in fields
  {
    if fields == [] then JsUndefined
    else if fields[0].name == name then fields[0].value
    else Get(fields[1..], name)
  }

  lemma {:induction false} GetAt(fields: seq<Field>, i: nat)
    requires DistinctNames(fields) && i < |fields|
    ensures Get(fields, fields[i].name) == fields[i].value
  {
    if i > 0 { GetAt(fields[1..], i - 1); }
  }

  /** What `JSON.parse` hands back. */
  function FromJson(j: Json): JsValue
    decreases j, 0
  {
    match j
    case Null => JsNull
    case Bool(b) => JsBool(b)
    case Num(n) => JsNumber(n)
    case Str(s) => JsText(s)
    case Arr(items) => JsList(FromItems(items))
    case Obj(members) => JsObject(FromMembers(members))
  }

  function FromItems(items: seq<Json>): (r: seq<JsValue>)
    ensures |r| == |items| && forall i :: 0 <= i < |r| ==> r[i] == FromJson(items[i])
    decreases items, 1
  {
    if items == [] then [] else [FromJson(items[0])] + FromItems(items[1..])
  }

  function FromMembers(members: seq<Member>): (r: seq<Field>)
    ensures |r| == |members|
    ensures forall i :: 0 <= i < |r| ==> r[i] == Field(members[i].key, FromJson(members[i].value))
    decreases members, 1
  {
    if members == [] then []
    else [Field(members[0].key, FromJson(members[0].value))] + FromMembers(members[1..])
  }
}
