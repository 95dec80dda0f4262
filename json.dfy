/** The value `JSON.parse` produces, as a datatype: the descriptor and the
    manifest are handled in this form instead of as text. */
module Json {
  import opened Wrappers

  datatype Json =
    | JNull
    | JBool(b: bool)
    | JNumber(n: real)
    | JString(s: string)
    | JArray(items: seq<Json>)
    | JObject(members: seq<Member>)   // in key order, as `JSON.stringify` visits them

  datatype Member = Member(key: string, value: Json)

  /** The value of the last member of `members` named `key`: the one a
      property read sees, since `JSON.parse` keeps the last of repeated keys. */
  function LookupMember(members: seq<Member>, key: string): (r: Option<Json>)
    ensures r.None? <==> forall i :: 0 <= i < |members| ==> members[i].key != key
    ensures r.Some? ==> exists i :: 0 <= i < |members| && members[i] == Member(key, r.value)
                                     && forall k :: i < k < |members| ==> members[k].key != key
  {
    if members == [] then None
    else if members[|members| - 1].key == key then Some(members[|members| - 1].value)
    else LookupMember(members[..|members| - 1], key)
  }

  /** `j[key]` for an object `j`; `None` for a missing key and for any value
      that is not an object. */
  function Lookup(j: Json, key: string): (r: Option<Json>)
    ensures !j.JObject? ==> r.None?
    ensures j.JObject? ==> (r.None? <==> forall i :: 0 <= i < |j.members| ==> j.members[i].key != key)
    ensures r.Some? ==> exists i :: 0 <= i < |j.members| && j.members[i] == Member(key, r.value)
                                     && forall k :: i < k < |j.members| ==> j.members[k].key != key
  {
    if j.JObject? then LookupMember(j.members, key) else None
  }

  /** `a` and `b` have the same shape: the same kind of value at every
      position, the same keys in the same order, the same array lengths, and
      equal leaves everywhere except at strings. */
  ghost predicate SameShape(a: Json, b: Json) {
    match a
    case JString(_) => b.JString?
    case JArray(xs) =>
      && b.JArray? && |xs| == |b.items|
      && forall i :: 0 <= i < |xs| ==> SameShape(xs[i], b.items[i])
    case JObject(ms) =>
      && b.JObject? && |ms| == |b.members|
      && forall i :: 0 <= i < |ms| ==>
           ms[i].key == b.members[i].key && SameShape(ms[i].value, b.members[i].value)
    case _ => b == a
  }
}
