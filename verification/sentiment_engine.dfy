/**
 * `SentimentEngine.analyze` (`sentiment_engine/engine.py`): the list
 * arguments are joined with `", "` and everything is handed to the provider,
 * whose answer comes back unchanged. The provider (an LLM client) is a
 * parameter.
 */
module SentimentEngine {

  import opened Wrappers
  import opened PyValues
  import opened PyStrings

  /** The keyword arguments of `provider.analyze`. */
  datatype ProviderArgs = ProviderArgs(
    title: Json,
    publicationDate: Json,
    summary: Json,
    content: Json,
    categories: string,
    tags: string)

  /** A provider: the arguments to the answer, or the exception it raised. */
  type Provider = ProviderArgs -> Result<Json, Error>

  /** The strings of a list whose items are all strings, `None` otherwise. */
  function Strings(items: seq<Json>): (r: Option<seq<string>>)
    ensures r.Some? <==> forall i :: 0 <= i < |items| ==> items[i].JStr?
    ensures r.Some? ==> |r.value| == |items| && forall i :: 0 <= i < |items| ==> items[i] == JStr(r.value[i])
    decreases |items|
  {
    if |items| == 0 then Some([])
    else if !items[0].JStr? then None
    else match Strings(items[1..])
      case None =>
        var j :| 0 <= j < |items[1..]| && !items[1..][j].JStr?;
        assert !items[j + 1].JStr?;
        None
      case Some(rest) => Some([items[0].s] + rest)
  }

  /** The one-character strings of `s`: what iterating over a string yields. */
  function Chars(s: string): (cs: seq<string>)
    ensures |cs| == |s| && forall i :: 0 <= i < |s| ==> cs[i] == [s[i]]
  {
    seq(|s|, i requires 0 <= i < |s| => [s[i]])
  }

  /** The keys of a dict in iteration order. */
  function Keys(fields: seq<(string, Json)>): (ks: seq<string>)
    ensures |ks| == |fields| && forall i :: 0 <= i < |fields| ==> ks[i] == fields[i].0
  {
    seq(|fields|, i requires 0 <= i < |fields| => fields[i].0)
  }

  /**
   * `sep.join(v)`: a list of strings, a string (character by character) and
   * a dict (by key) can be joined; anything else raises TypeError.
   */
  function JoinArg(sep: string, v: Json): (r: Result<string, Error>)
    ensures r.Err? ==> r.error == TypeError
    ensures r.Ok? <==> v.JStr? || v.JObj? || (v.JList? && forall i :: 0 <= i < |v.items| ==> v.items[i].JStr?)
  {
    match v
    case JList(items) =>
      (match Strings(items)
       case Some(xs) => Ok(Join(sep, xs))
       case None => Err(TypeError))
    case JStr(s) => Ok(Join(sep, Chars(s)))
    case JObj(fields) => Ok(Join(sep, Keys(fields)))
    case _ => Err(TypeError)
  }

  /** The JSON list of the given strings. */
  function StrList(xs: seq<string>): (v: Json)
    ensures v.JList? && |v.items| == |xs| && forall i :: 0 <= i < |xs| ==> v.items[i] == JStr(xs[i])
  {
    JList(seq(|xs|, i requires 0 <= i < |xs| => JStr(xs[i])))
  }

  /** A list of strings joins to the strings with the separator between them. */
  lemma JoinArgList(sep: string, xs: seq<string>)
    ensures JoinArg(sep, StrList(xs)) == Ok(Join(sep, xs))
  {
    var items := StrList(xs).items;
    var ys := Strings(items).value;
    assert ys == xs by {
      forall i | 0 <= i < |xs|
        ensures ys[i] == xs[i]
      {
        assert items[i] == JStr(ys[i]);
      }
    }
  }

  /**
   * The joined argument gives the list back on `split(", ")` when no entry
   * holds a comma: nothing is lost in the shaping.
   */
  lemma JoinArgRecoverable(xs: seq<string>)
    requires |xs| > 0 && forall j :: 0 <= j < |xs| ==> ',' !in xs[j]
    ensures JoinArg(", ", StrList(xs)).Ok?
    ensures Split(JoinArg(", ", StrList(xs)).value, ", ") == xs
  {
    JoinArgList(", ", xs);
    SplitJoin(", ", xs);
  }

  /**
   * `analyze(...)`: title, date, summary and content go to the provider as
   * given; categories and tags are joined first, categories before tags, and
   * a value that cannot be joined raises before the provider is called.
   */
  function Analyze(provider: Provider, title: Json, publicationDate: Json, summary: Json,
                   content: Json, categories: Json, tags: Json): (r: Result<Json, Error>)
    ensures JoinArg(", ", categories).Err? ==> r == Err(TypeError)
    ensures JoinArg(", ", categories).Ok? && JoinArg(", ", tags).Err? ==> r == Err(TypeError)
    ensures JoinArg(", ", categories).Ok? && JoinArg(", ", tags).Ok? ==>
      r == provider(ProviderArgs(title, publicationDate, summary, content,
                                 JoinArg(", ", categories).value, JoinArg(", ", tags).value))
  {
    var cats :- JoinArg(", ", categories);
    var tagText :- JoinArg(", ", tags);
    provider(ProviderArgs(title, publicationDate, summary, content, cats, tagText))
  }
}
