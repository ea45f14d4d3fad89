/** The payload data model: the values the middleware walks, as its
    `isinstance` dispatch sees them (string, dict, list, anything else). */
module Payload {

  datatype Option<+T> = None | Some(value: T)

  /** A payload value. A dict is a sequence of (key, value) entries in
      insertion order; `Opaque` stands for every value that is neither a
      string, a dict nor a list (numbers, booleans, None, tuples, objects),
      told apart only by an identity token. Values are trees: a sub-object
      shared between two places of one payload is not represented. */
  datatype Value =
    | Str(s: string)
    | List(items: seq<Value>)
    | Dict(entries: seq<(string, Value)>)
    | Opaque(id: nat)

  /** The keys of a dict, in order. */
  function Keys(entries: seq<(string, Value)>): seq<string>
  {
    seq(|entries|, i requires 0 <= i < |entries| => entries[i].0)
  }

  /** Dict lookup (`d.get(key)`): the position of the first entry with that key. */
  function Find(entries: seq<(string, Value)>, key: string): (r: Option<nat>)
    ensures r.Some? ==> r.value < |entries| && entries[r.value].0 == key
    ensures r.Some? ==> forall j :: 0 <= j < r.value ==> entries[j].0 != key
    ensures r.None? <==> forall j :: 0 <= j < |entries| ==> entries[j].0 != key
    decreases |entries|
  {
    if entries == [] then None
    else if entries[0].0 == key then Some(0)
    else match Find(entries[1..], key)
      case None => None
      case Some(i) => Some(i + 1)
  }

  /** The sub-value reached by following `path`: at a list a step is an
      index, at a dict it is the position of an entry. */
  function Get(v: Value, path: seq<nat>): Option<Value>
    decreases |path|
  {
    if path == [] then Some(v)
    else match v
      case List(items) =>
        if path[0] < |items| then Get(items[path[0]], path[1..]) else None
      case Dict(entries) =>
        if path[0] < |entries| then Get(entries[path[0]].1, path[1..]) else None
      case _ => None
  }

  /** Every string leaf of `v` (a string that is a dict value or a list
      element, at any depth) satisfies `p`. Dict keys are not leaves. */
  predicate AllStrings(v: Value, p: string -> bool)
    decreases v
  {
    match v
    case Str(s) => p(s)
    case List(items) => forall i | 0 <= i < |items| :: AllStrings(items[i], p)
    case Dict(entries) => forall i | 0 <= i < |entries| :: AllStrings(entries[i].1, p)
    case Opaque(_) => true
  }
}
