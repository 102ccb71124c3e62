/** The Python values and exceptions the pipeline passes around. */
module PyValues {

  import opened Wrappers

  /**
   * A JSON / YAML value as produced by `json.loads` or `yaml.safe_load`.
   * Objects nested inside a value keep their key order (Python dicts are
   * insertion-ordered); floats are not modelled.
   */
  datatype Json =
    | JNull
    | JBool(b: bool)
    | JInt(i: int)
    | JStr(s: string)
    | JList(items: seq<Json>)
    | JObj(fields: seq<(string, Json)>)

  /** A top-level JSON object such as an article message: key order is irrelevant here. */
  type Record = map<string, Json>

  /** The exceptions the modelled code can raise or propagate. */
  datatype Error =
    | ValueError(msg: string)      // `raise ValueError(msg)` written in the source
    | BadValue                     // a ValueError raised by `int(...)` or by tuple unpacking
    | KeyError(key: string)
    | TypeError
    | AttributeError(name: string)
    | FileNotFoundError(path: string)
    | WriteError(path: string)     // `open(path, 'w')` or `json.dump` failed
    | PublishError(queue: string)  // the broker refused a publish
    | ForeignError(what: string)   // raised inside a library the model does not interpret

  /** Python truthiness (`if x:` / `not x`) of a value. */
  predicate Truthy(v: Json) {
    match v
    case JNull => false
    case JBool(b) => b
    case JInt(i) => i != 0
    case JStr(s) => s != ""
    case JList(xs) => xs != []
    case JObj(fs) => fs != []
  }

  /** Python truthiness of an optional integer argument (`None` and `0` are falsy). */
  predicate TruthyInt(x: Option<int>) {
    x.Some? && x.value != 0
  }

  /**
   * The value under `key` in the fields of a nested object. When the parsed
   * text repeats a key, the dict keeps the value written last.
   */
  function ObjGet(fields: seq<(string, Json)>, key: string): (v: Option<Json>)
    ensures v.Some? <==> exists i :: 0 <= i < |fields| && fields[i].0 == key
    ensures v.Some? ==> exists i ::
      && 0 <= i < |fields| && fields[i] == (key, v.value)
      && forall j :: i < j < |fields| ==> fields[j].0 != key
    decreases |fields|
  {
    if |fields| == 0 then None
    else if fields[|fields| - 1].0 == key then Some(fields[|fields| - 1].1)
    else
      var v := ObjGet(fields[..|fields| - 1], key);
      LastWinsStep(fields, key, v);
      v
  }

  /** A lookup in all but the last field stays right when the last field has another key. */
  lemma LastWinsStep(fields: seq<(string, Json)>, key: string, v: Option<Json>)
    requires |fields| > 0 && fields[|fields| - 1].0 != key
    requires var init := fields[..|fields| - 1];
      v.Some? ==> exists i ::
        && 0 <= i < |init| && init[i] == (key, v.value)
        && forall j :: i < j < |init| ==> init[j].0 != key
    ensures v.Some? ==> exists i ::
      && 0 <= i < |fields| && fields[i] == (key, v.value)
      && forall j :: i < j < |fields| ==> fields[j].0 != key
  {
    var init := fields[..|fields| - 1];
    if v.Some? {
      var i :| && 0 <= i < |init| && init[i] == (key, v.value)
               && forall j :: i < j < |init| ==> init[j].0 != key;
      assert fields[i] == init[i];
      forall j | i < j < |fields|
        ensures fields[j].0 != key
      {
        if j < |init| { assert fields[j] == init[j]; }
      }
    }
  }

  /** Fields as a Python dict holds them: no key appears twice. */
  predicate DistinctKeys(fields: seq<(string, Json)>) {
    forall i, j :: 0 <= i < j < |fields| ==> fields[i].0 != fields[j].0
  }

  /** With distinct keys, looking up an entry's key finds that entry. */
  lemma ObjGetDistinct(fields: seq<(string, Json)>, k: nat)
    requires DistinctKeys(fields) && k < |fields|
    ensures ObjGet(fields, fields[k].0) == Some(fields[k].1)
  {
  }

  /** `d.get(key, default)` on a record. */
  function GetOr(d: Record, key: string, default: Json): (v: Json)
    ensures key in d ==> v == d[key]
    ensures key !in d ==> v == default
  {
    if key in d then d[key] else default
  }
}
