/**
 * Parsed JSON bodies, as `Response.json()` yields them, together with the two
 * JavaScript operations the handlers apply to them: reading a property
 * (`token.access_token`) and testing it for truthiness (`if (token.access_token)`).
 */
module Json {

  /** A JSON value. Numbers are modelled as integers. Object members keep their
      textual order, duplicates included. */
  datatype Json =
    | JNull
    | JBool(b: bool)
    | JNumber(n: int)
    | JString(s: string)
    | JArray(items: seq<Json>)
    | JObject(members: seq<(string, Json)>)

  /** What `value.key` evaluates to: `undefined`, a value, or a thrown TypeError. */
  datatype PropertyRead = Undefined | Value(v: Json) | Throws

  /** The member `JSON.parse` keeps for `key`: the last one with that key. */
  function LastMember(members: seq<(string, Json)>, key: string): (r: PropertyRead)
    ensures !r.Throws?
    ensures r.Undefined? <==> forall i :: 0 <= i < |members| ==> members[i].0 != key
    ensures r.Value? ==>
      exists i :: 0 <= i < |members| && members[i] == (key, r.v) &&
        forall j :: i < j < |members| ==> members[j].0 != key
    decreases |members|
  {
    if members == [] then Undefined
    else
      var last := members[|members| - 1];
      if last.0 == key then Value(last.1)
      else LastMember(members[..|members| - 1], key)
  }

  /** `value.key` for the keys the handlers and the panel read (`access_token`,
      `name`, and `length` on a body that is not an array or string): null
      throws, an object yields its member, and booleans, numbers, strings and
      arrays have no such property. It does not model `length` or index keys on
      strings and arrays. */
  function GetProperty(value: Json, key: string): (r: PropertyRead)
    ensures r.Throws? <==> value.JNull?
    ensures r.Value? ==> value.JObject?
  {
    match value
    case JNull => Throws
    case JObject(members) => LastMember(members, key)
    case _ => Undefined
  }

  /** JavaScript truthiness of a JSON value. */
  predicate Truthy(value: Json) {
    match value
    case JNull => false
    case JBool(b) => b
    case JNumber(n) => n != 0
    case JString(s) => s != ""
    case JArray(_) => true
    case JObject(_) => true
  }

  /** JavaScript truthiness of what a property read produced (`undefined` is falsy). */
  predicate ReadTruthy(r: PropertyRead) {
    r.Value? && Truthy(r.v)
  }

  /** The member at `i` is the one read for `key` when no later member has that key. */
  lemma {:induction false} LastMemberAt(members: seq<(string, Json)>, key: string, i: nat)
    requires i < |members| && members[i].0 == key
    requires forall j :: i < j < |members| ==> members[j].0 != key
    ensures LastMember(members, key) == Value(members[i].1)
    decreases |members|
  {
    if i < |members| - 1 {
      LastMemberAt(members[..|members| - 1], key, i);
    }
  }
}
