/** `redact_dict` and `redact_list`: the recursive walk over a payload that
    sends every string leaf through `redact_text` with the default entities. */
module Traversal {
  import opened Payload
  import opened TextRedaction

  /** `redact_text` with its default entity list, as the walk calls it. */
  function Redactor(analyzer: Analyzer, anonymizer: Anonymizer): string -> string
  {
    s => RedactText(s, analyzer, anonymizer)
  }

  // ---------------------------------------------------------------------------
  // Specification: rewrite every string leaf with `f`, keep everything else.
  // ---------------------------------------------------------------------------

  function MapStrings(v: Value, f: string -> string): Value
    decreases v, 1
  {
    match v
    case Str(s) => Str(f(s))
    case List(items) => List(MapItems(items, f))
    case Dict(entries) => Dict(MapEntries(entries, f))
    case Opaque(_) => v
  }

  function MapItems(items: seq<Value>, f: string -> string): seq<Value>
    decreases List(items), 0
  {
    seq(|items|, i requires 0 <= i < |items| => MapStrings(items[i], f))
  }

  function MapEntries(entries: seq<(string, Value)>, f: string -> string): seq<(string, Value)>
    decreases Dict(entries), 0
  {
    seq(|entries|, i requires 0 <= i < |entries| => (entries[i].0, MapStrings(entries[i].1, f)))
  }

  /** The analyzer finds nothing in any string leaf of `v`. */
  predicate NothingDetected(v: Value, analyzer: Analyzer)
  {
    AllStrings(v, s => analyzer(s, DefaultEntities, Language) == [])
  }

  /** A string with its contents forgotten. */
  function Erase(s: string): string
  {
    ""
  }

  /** The shape of a payload: keys, order, lengths, nesting and every
      non-string value, with the contents of strings forgotten. */
  function Shape(v: Value): Value
  {
    MapStrings(v, Erase)
  }

  // ---------------------------------------------------------------------------
  // The loops, proved against the specification.
  // ---------------------------------------------------------------------------

  /** `redact_dict(d, analyzer, anonymizer)`: the entries after the walk. */
  method RedactDict(d: seq<(string, Value)>, analyzer: Analyzer, anonymizer: Anonymizer)
    returns (r: seq<(string, Value)>)
    ensures r == MapEntries(d, Redactor(analyzer, anonymizer))
    decreases Dict(d), 0
  {
    ghost var f := Redactor(analyzer, anonymizer);
    r := d;
    var i := 0;
    while i < |r|
      invariant 0 <= i <= |r| == |d|
      invariant forall j :: 0 <= j < i ==> r[j] == (d[j].0, MapStrings(d[j].1, f))
      invariant forall j :: i <= j < |r| ==> r[j] == d[j]
    {
      var (key, value) := r[i];
      assert value < Dict(d) by { assert r[i] == d[i]; }
      if value.Str? {
        r := r[i := (key, Str(RedactText(value.s, analyzer, anonymizer)))];
      } else if value.Dict? {
        var nested := RedactDict(value.entries, analyzer, anonymizer);
        r := r[i := (key, Dict(nested))];
      } else if value.List? {
        var nested := RedactList(value.items, analyzer, anonymizer);
        r := r[i := (key, List(nested))];
      }
      i := i + 1;
    }
  }

  /** `redact_list(lst, analyzer, anonymizer)`: the elements after the walk. */
  method RedactList(lst: seq<Value>, analyzer: Analyzer, anonymizer: Anonymizer)
    returns (r: seq<Value>)
    ensures r == MapItems(lst, Redactor(analyzer, anonymizer))
    decreases List(lst), 0
  {
    ghost var f := Redactor(analyzer, anonymizer);
    r := lst;
    var i := 0;
    while i < |r|
      invariant 0 <= i <= |r| == |lst|
      invariant forall j :: 0 <= j < i ==> r[j] == MapStrings(lst[j], f)
      invariant forall j :: i <= j < |r| ==> r[j] == lst[j]
    {
      var value := r[i];
      assert value < List(lst) by { assert r[i] == lst[i]; }
      if value.Str? {
        r := r[i := Str(RedactText(value.s, analyzer, anonymizer))];
      } else if value.Dict? {
        var nested := RedactDict(value.entries, analyzer, anonymizer);
        r := r[i := Dict(nested)];
      } else if value.List? {
        var nested := RedactList(value.items, analyzer, anonymizer);
        r := r[i := List(nested)];
      }
      i := i + 1;
    }
  }

  // ---------------------------------------------------------------------------
  // Properties of the specification.
  // ---------------------------------------------------------------------------

  /** Following a path commutes with the walk: the path reaches something
      in the output exactly when it does in the input, and what it reaches
      is the walk applied to the input's sub-value. At a string leaf that
      is the leaf rewritten by `f`; at an opaque leaf it is the leaf itself. */
  lemma {:induction false} GetCommutesWithMapStrings(v: Value, f: string -> string, path: seq<nat>)
    ensures Get(MapStrings(v, f), path).Some? <==> Get(v, path).Some?
    ensures Get(v, path).Some? ==> Get(MapStrings(v, f), path) == Some(MapStrings(Get(v, path).value, f))
    decreases |path|
  {
    if path != [] {
      match v
      case List(items) =>
        if path[0] < |items| {
          GetCommutesWithMapStrings(items[path[0]], f, path[1..]);
        }
      case Dict(entries) =>
        if path[0] < |entries| {
          GetCommutesWithMapStrings(entries[path[0]].1, f, path[1..]);
        }
      case Str(_) =>
      case Opaque(_) =>
    }
  }

  /** Two walks in a row are one walk with the composed rewrite. */
  lemma {:induction false} MapStringsFuse(v: Value, f: string -> string, g: string -> string, h: string -> string)
    requires forall s :: h(s) == g(f(s))
    ensures MapStrings(MapStrings(v, f), g) == MapStrings(v, h)
    decreases v
  {
    match v
    case Str(_) =>
    case Opaque(_) =>
    case List(items) =>
      forall i | 0 <= i < |items|
        ensures MapStrings(MapStrings(items[i], f), g) == MapStrings(items[i], h)
      {
        MapStringsFuse(items[i], f, g, h);
      }
      assert MapItems(MapItems(items, f), g) == MapItems(items, h);
    case Dict(entries) =>
      forall i | 0 <= i < |entries|
        ensures MapStrings(MapStrings(entries[i].1, f), g) == MapStrings(entries[i].1, h)
      {
        MapStringsFuse(entries[i].1, f, g, h);
      }
      assert MapEntries(MapEntries(entries, f), g) == MapEntries(entries, h);
  }

  /** A walk whose rewrite fixes every string leaf of `v` changes nothing. */
  lemma {:induction false} MapStringsIdentity(v: Value, f: string -> string, p: string -> bool)
    requires AllStrings(v, p)
    requires forall s :: p(s) ==> f(s) == s
    ensures MapStrings(v, f) == v
    decreases v
  {
    match v
    case Str(_) =>
    case Opaque(_) =>
    case List(items) =>
      forall i | 0 <= i < |items| ensures MapStrings(items[i], f) == items[i] {
        MapStringsIdentity(items[i], f, p);
      }
      assert MapItems(items, f) == items;
    case Dict(entries) =>
      forall i | 0 <= i < |entries| ensures MapStrings(entries[i].1, f) == entries[i].1 {
        MapStringsIdentity(entries[i].1, f, p);
      }
      assert MapEntries(entries, f) == entries;
  }

  /** No string leaf escapes the walk: whatever `f` guarantees of its
      outputs holds of every string value in the result. */
  lemma {:induction false} MapStringsEstablishes(v: Value, f: string -> string, p: string -> bool)
    requires forall s :: p(f(s))
    ensures AllStrings(MapStrings(v, f), p)
    decreases v
  {
    match v
    case Str(_) =>
    case Opaque(_) =>
    case List(items) =>
      forall i | 0 <= i < |items| ensures AllStrings(MapItems(items, f)[i], p) {
        MapStringsEstablishes(items[i], f, p);
      }
    case Dict(entries) =>
      forall i | 0 <= i < |entries| ensures AllStrings(MapEntries(entries, f)[i].1, p) {
        MapStringsEstablishes(entries[i].1, f, p);
      }
  }

  /** Two rewrites that agree on every string leaf of `v` give the same walk. */
  lemma {:induction false} MapStringsCongruent(v: Value, f: string -> string, g: string -> string, p: string -> bool)
    requires AllStrings(v, p)
    requires forall s :: p(s) ==> f(s) == g(s)
    ensures MapStrings(v, f) == MapStrings(v, g)
    decreases v
  {
    match v
    case Str(_) =>
    case Opaque(_) =>
    case List(items) =>
      forall i | 0 <= i < |items| ensures MapStrings(items[i], f) == MapStrings(items[i], g) {
        MapStringsCongruent(items[i], f, g, p);
      }
      assert MapItems(items, f) == MapItems(items, g);
    case Dict(entries) =>
      forall i | 0 <= i < |entries| ensures MapStrings(entries[i].1, f) == MapStrings(entries[i].1, g) {
        MapStringsCongruent(entries[i].1, f, g, p);
      }
      assert MapEntries(entries, f) == MapEntries(entries, g);
  }

  // ---------------------------------------------------------------------------
  // The same properties for redaction with the injected engines.
  // ---------------------------------------------------------------------------

  /** Redaction never adds, removes or reorders keys or elements and never
      touches a non-string value. */
  lemma RedactionPreservesShape(v: Value, analyzer: Analyzer, anonymizer: Anonymizer)
    ensures Shape(MapStrings(v, Redactor(analyzer, anonymizer))) == Shape(v)
  {
    MapStringsFuse(v, Redactor(analyzer, anonymizer), Erase, Erase);
  }

  /** When the analyzer finds nothing in any string leaf, the payload comes
      back unchanged. */
  lemma NothingDetectedIsIdentity(v: Value, analyzer: Analyzer, anonymizer: Anonymizer)
    requires NothingDetected(v, analyzer)
    ensures MapStrings(v, Redactor(analyzer, anonymizer)) == v
  {
    var clean := s => analyzer(s, DefaultEntities, Language) == [];
    MapStringsIdentity(v, Redactor(analyzer, anonymizer), clean);
  }

  /** Every string value (dict value or list element) of a redacted payload
      is either the anonymizer's output for a text and the spans the
      analyzer reported in it, or a text the analyzer found nothing in; so
      any property both of those guarantee (for instance, no email address)
      holds of every string value. Dict keys are not walked and keep
      whatever they held. */
  lemma RedactedStringsAreSafe(v: Value, analyzer: Analyzer, anonymizer: Anonymizer, safe: string -> bool)
    requires forall t :: analyzer(t, DefaultEntities, Language) != [] ==>
      safe(anonymizer(t, ToAnonymizerResults(analyzer(t, DefaultEntities, Language))))
    requires forall t :: analyzer(t, DefaultEntities, Language) == [] ==> safe(t)
    ensures AllStrings(MapStrings(v, Redactor(analyzer, anonymizer)), safe)
  {
    MapStringsEstablishes(v, Redactor(analyzer, anonymizer), safe);
  }

  /** The walk only ever asks the analyzer about its own string leaves,
      with the default entities in English: two analyzers that agree on
      those questions give the same redaction. */
  lemma WalkAsksForDefaultEntities(v: Value, an1: Analyzer, an2: Analyzer, anonymizer: Anonymizer)
    requires AllStrings(v, s => an1(s, DefaultEntities, Language) == an2(s, DefaultEntities, Language))
    ensures MapStrings(v, Redactor(an1, anonymizer)) == MapStrings(v, Redactor(an2, anonymizer))
  {
    var agree := s => an1(s, DefaultEntities, Language) == an2(s, DefaultEntities, Language);
    MapStringsCongruent(v, Redactor(an1, anonymizer), Redactor(an2, anonymizer), agree);
  }
}
