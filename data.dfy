/**
 * The configuration data engine (data/data.go): a document of JSON values
 * keyed by string, into which each freshly decoded configuration object is
 * merged with keyed rules. Templates and JSON decoding are foreign library
 * calls here and enter as fallible functions.
 */
module ConfigData {
  import opened Wrappers

  /** A decoded JSON value as Go's `encoding/json` produces it into `interface{}`. */
  datatype Json =
    | JNull
    | JBool(b: bool)
    | JNumber(n: real)
    | JString(s: string)
    | JArray(items: seq<Json>)
    | JObject(fields: map<string, Json>)

  type Values = map<string, Json>

  /** The value at a key present on both sides after merging `incoming` over `prior`. */
  function MergeValue(prior: Json, incoming: Json): (r: Json)
    ensures prior.JObject? && incoming.JObject? ==> r == JObject(MergeMaps(prior.fields, incoming.fields))
    ensures prior.JArray? && incoming.JArray? ==> r.JArray? && |r.items| == |prior.items| + 1
    ensures prior.JArray? && incoming.JArray? ==> r.items[..|prior.items|] == prior.items && r.items[|prior.items|] == incoming
    ensures !(prior.JObject? && incoming.JObject?) && !(prior.JArray? && incoming.JArray?) ==> r == incoming
    decreases incoming, 1
  {
    match (prior, incoming)
    case (JObject(o), JObject(n)) => JObject(MergeMaps(o, n))
    case (JArray(o), JArray(_)) =>
      assert (o + [incoming])[..|o|] == o;
      JArray(o + [incoming])
    case _ => incoming
  }

  /** The document after merging `incoming` into `existing`, key by key. */
  function MergeMaps(existing: Values, incoming: Values): (r: Values)
    ensures r.Keys == existing.Keys + incoming.Keys
    ensures forall k :: k in incoming && k !in existing ==> r[k] == incoming[k]
    ensures forall k :: k in existing && k !in incoming ==> r[k] == existing[k]
    ensures forall k :: k in existing && k in incoming ==> r[k] == MergeValue(existing[k], incoming[k])
    decreases JObject(incoming), 0
  {
    map k | k in existing.Keys + incoming.Keys ::
      if k !in incoming then existing[k]
      else if k !in existing then incoming[k]
      else MergeValue(existing[k], incoming[k])
  }

  /** `incoming` restricted to the keys in `done`. */
  function Restrict(incoming: Values, done: set<string>): (r: Values)
    ensures r.Keys == incoming.Keys * done
    ensures forall k :: k in r ==> r[k] == incoming[k]
  {
    map k | k in incoming && k in done :: incoming[k]
  }

  /**
   * `applyMap`: walks the new keys in an arbitrary order (Go's map iteration
   * order is unspecified) and updates the document key by key, recursing into
   * nested objects.
   */
  method ApplyMap(existing: Values, incoming: Values) returns (merged: Values)
    ensures merged == MergeMaps(existing, incoming)
    decreases JObject(incoming), 0
  {
    merged := existing;
    var pending := incoming.Keys;
    while pending != {}
      invariant pending <= incoming.Keys
      invariant merged == MergeMaps(existing, Restrict(incoming, incoming.Keys - pending))
      decreases pending
    {
      var k :| k in pending;
      LoopStep(existing, incoming, pending, k);
      merged := ApplyKey(merged, k, incoming[k]);
      pending := pending - {k};
    }
    assert Restrict(incoming, incoming.Keys) == incoming;
  }

  /** One iteration of `applyMap`: the update for the single key `k`. */
  method ApplyKey(merged: Values, k: string, v: Json) returns (r: Values)
    ensures r == merged[k := if k in merged then MergeValue(merged[k], v) else v]
    decreases v, 1
  {
    if k !in merged {
      return merged[k := v];
    }
    match merged[k]
    case JObject(oldFields) =>
      if v.JObject? {
        var inner := ApplyMap(oldFields, v.fields);
        r := merged[k := JObject(inner)];
      } else {
        r := merged[k := v];
      }
    case JArray(oldItems) =>
      if v.JArray? {
        r := merged[k := JArray(oldItems + [v])];
      } else {
        r := merged[k := v];
      }
    case _ =>
      r := merged[k := v];
  }

  /** The loop's step: visiting one more pending key is one `ApplyKey` update. */
  lemma LoopStep(existing: Values, incoming: Values, pending: set<string>, k: string)
    requires pending <= incoming.Keys && k in pending
    ensures var merged := MergeMaps(existing, Restrict(incoming, incoming.Keys - pending));
      MergeMaps(existing, Restrict(incoming, incoming.Keys - (pending - {k})))
        == merged[k := if k in merged then MergeValue(merged[k], incoming[k]) else incoming[k]]
  {
    var before := Restrict(incoming, incoming.Keys - pending);
    var merged := MergeMaps(existing, before);
    assert k !in before;
    assert Restrict(incoming, incoming.Keys - (pending - {k})) == before[k := incoming[k]];
    assert k in merged <==> k in existing;
    assert k in existing ==> merged[k] == existing[k];
    MergeStep(existing, before, k, incoming[k]);
  }

  /** Merging one more key changes the merged document at that key only. */
  lemma MergeStep(existing: Values, done: Values, k: string, v: Json)
    requires k !in done
    ensures MergeMaps(existing, done[k := v])
         == MergeMaps(existing, done)[k := if k in existing then MergeValue(existing[k], v) else v]
  {
  }

  /** Neither the new value nor anything nested in it is an array. */
  predicate ArrayFree(j: Json)
  {
    match j
    case JArray(_) => false
    case JObject(f) => forall k :: k in f ==> ArrayFree(f[k])
    case _ => true
  }

  predicate AllArrayFree(m: Values)
  {
    forall k :: k in m ==> ArrayFree(m[k])
  }

  /** Merging an array-free value over itself changes nothing. */
  lemma {:induction false} MergeSelf(v: Json)
    requires ArrayFree(v)
    ensures MergeValue(v, v) == v
    decreases v, 1
  {
    if v.JObject? {
      MergeMapsSelf(v.fields);
    }
  }

  lemma {:induction false} MergeMapsSelf(m: Values)
    requires AllArrayFree(m)
    ensures MergeMaps(m, m) == m
    decreases JObject(m), 0
  {
    forall k | k in m
      ensures MergeValue(m[k], m[k]) == m[k]
    {
      MergeSelf(m[k]);
    }
  }

  /** Merging an array-free value a second time gives what the first merge gave. */
  lemma {:induction false} MergeValueIdempotent(prior: Json, v: Json)
    requires ArrayFree(v)
    ensures MergeValue(MergeValue(prior, v), v) == MergeValue(prior, v)
    decreases v, 1
  {
    if prior.JObject? && v.JObject? {
      MergeIdempotent(prior.fields, v.fields);
    } else {
      MergeSelf(v);
    }
  }

  /**
   * Merging the same array-free object twice yields the document one merge
   * yields: overrides are last-value-wins and nothing is duplicated. (Arrays
   * are excluded because each merge nests the new array once more.)
   */
  lemma {:induction false} MergeIdempotent(existing: Values, incoming: Values)
    requires AllArrayFree(incoming)
    ensures MergeMaps(MergeMaps(existing, incoming), incoming) == MergeMaps(existing, incoming)
    decreases JObject(incoming), 0
  {
    var once := MergeMaps(existing, incoming);
    forall k | k in incoming
      ensures MergeValue(once[k], incoming[k]) == once[k]
    {
      if k in existing {
        MergeValueIdempotent(existing[k], incoming[k]);
      } else {
        MergeSelf(incoming[k]);
      }
    }
  }

  /** Worked example: a later scalar overrides, and re-merging it changes nothing. */
  lemma OverrideExample()
    ensures MergeMaps(MergeMaps(map["a" := JNumber(1.0)], map["a" := JNumber(2.0)]), map["a" := JNumber(2.0)])
         == map["a" := JNumber(2.0)]
  {
  }

  /** Worked example: nested objects merge key by key. */
  lemma ObjectExample()
    ensures MergeMaps(map["a" := JObject(map["x" := JNumber(1.0)])], map["a" := JObject(map["y" := JNumber(2.0)])])
         == map["a" := JObject(map["x" := JNumber(1.0), "y" := JNumber(2.0)])]
  {
    assert MergeMaps(map["x" := JNumber(1.0)], map["y" := JNumber(2.0)]) == map["x" := JNumber(1.0), "y" := JNumber(2.0)];
  }

  /** Worked example: a new array is appended to the old one as a single nested element. */
  lemma ArrayExample()
    ensures MergeMaps(map["a" := JArray([JNumber(1.0), JNumber(2.0)])], map["a" := JArray([JNumber(3.0)])])
         == map["a" := JArray([JNumber(1.0), JNumber(2.0), JArray([JNumber(3.0)])])]
  {
    assert [JNumber(1.0), JNumber(2.0)] + [JArray([JNumber(3.0)])] == [JNumber(1.0), JNumber(2.0), JArray([JNumber(3.0)])];
  }

  /** The result of a template run: the expanded text, or a parse or execution error. */
  datatype Expansion = Expanded(text: string) | ParseFailed(reason: string) | ExecFailed(reason: string)

  /**
   * A template engine: given the delimiters, the current document (exposed to
   * the template as `prev`) and the template text, it expands or fails.
   */
  type Template = (string, string, Values, string) -> Expansion

  /** A decoder of the expanded text into a fresh object. */
  type Unmarshal = string -> Result<Values>

  class Data {
    var values: Values

    /** `NewData`: an empty document. */
    constructor ()
      ensures values == map[]
    {
      values := map[];
    }

    /** `ApplyTemplate`: the default `{{ }}` delimiters, errors wrapped as the source words them. */
    method ApplyTemplate(text: string, template: Template) returns (r: Result<string>)
      ensures match template("{{", "}}", values, text)
        case Expanded(t) => r == Ok(t)
        case ParseFailed(e) => r == Err("Invalid template: " + e)
        case ExecFailed(e) => r == Err("Unable to execute template: " + e)
    {
      match template("{{", "}}", values, text)
      case Expanded(t) => r := Ok(t);
      case ParseFailed(e) => r := Err("Invalid template: " + e);
      case ExecFailed(e) => r := Err("Unable to execute template: " + e);
    }

    /**
     * `ApplyTemplateAndMerge`: expand, decode, then merge into the document.
     * On either failure the document is left exactly as it was.
     */
    method ApplyTemplateAndMerge(text: string, template: Template, unmarshal: Unmarshal) returns (err: Option<string>)
      modifies this
      ensures template("{{", "}}", old(values), text).ParseFailed? ==>
        err == Some("Invalid template: " + template("{{", "}}", old(values), text).reason) && values == old(values)
      ensures template("{{", "}}", old(values), text).ExecFailed? ==>
        err == Some("Unable to execute template: " + template("{{", "}}", old(values), text).reason) && values == old(values)
      ensures template("{{", "}}", old(values), text).Expanded? ==>
        var decoded := unmarshal(template("{{", "}}", old(values), text).text);
        && (decoded.Err? ==> err == Some("Unable to unmarshal resulting text: " + decoded.message) && values == old(values))
        && (decoded.Ok? ==> err == None && values == MergeMaps(old(values), decoded.value))
    {
      var expanded := ApplyTemplate(text, template);
      if expanded.Err? {
        return Some(expanded.message);
      }
      var decoded := unmarshal(expanded.value);
      if decoded.Err? {
        return Some("Unable to unmarshal resulting text: " + decoded.message);
      }
      values := ApplyMap(values, decoded.value);
      err := None;
    }
  }
}
