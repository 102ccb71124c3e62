/**
 * `SentimentWorker` (`workers/sentiment_worker.py`): one cleaned article is
 * analysed, the answer stored under `sentiment`, the article written to
 * `<out_dir>/<clean_filename>.json` and the delivery acknowledged. The
 * publish to the output queue is commented out in the handler, so nothing
 * is published.
 */
module SentimentWorker {

  import opened Wrappers
  import opened PyValues
  import opened PyStrings
  import opened FileStore
  import opened Broker
  import opened SentimentEngine
  import BaseSpider
  import PreprocessWorker

  /** The worker's settings; `reprOf` prints a non-string `clean_filename` the way an f-string does. */
  datatype Worker = Worker(inputQueue: string, outputQueue: string, outDir: string, reprOf: Json -> string)

  /** The constructor defaults `clean_news`, `sentiment_news` and `data/sentiments`. */
  function DefaultWorker(reprOf: Json -> string): Worker {
    Worker("clean_news", "sentiment_news", "data/sentiments", reprOf)
  }

  /**
   * The `engine.analyze(...)` call: each field read with `get`, `''` for
   * the text fields and `[]` for `categories` and `tags` when absent.
   */
  function AnalyzeArticle(provider: Provider, article: Record): (r: Result<Json, Error>)
    ensures var cats := JoinArg(", ", GetOr(article, "categories", JList([])));
      var tags := JoinArg(", ", GetOr(article, "tags", JList([])));
      cats.Ok? && tags.Ok? ==>
        r == provider(ProviderArgs(GetOr(article, "title", JStr("")), GetOr(article, "publication_date", JStr("")),
                                   GetOr(article, "summary", JStr("")), GetOr(article, "content", JStr("")),
                                   cats.value, tags.value))
    ensures "categories" !in article ==> JoinArg(", ", GetOr(article, "categories", JList([]))) == Ok("")
    ensures "tags" !in article ==> JoinArg(", ", GetOr(article, "tags", JList([]))) == Ok("")
    ensures "categories" in article && JoinArg(", ", article["categories"]).Err? ==> r == Err(TypeError)
    ensures "tags" in article && JoinArg(", ", article["tags"]).Err? ==> r == Err(TypeError)
  {
    assert Strings([]) == Some([]);
    Analyze(provider,
            GetOr(article, "title", JStr("")),
            GetOr(article, "publication_date", JStr("")),
            GetOr(article, "summary", JStr("")),
            GetOr(article, "content", JStr("")),
            GetOr(article, "categories", JList([])),
            GetOr(article, "tags", JList([])))
  }

  /**
   * `os.path.join(out_dir, f"{article.get('clean_filename', 'unknown')}.json")`:
   * a `.json` file, inside the output directory unless the rendered name is
   * an absolute path.
   */
  function OutputPath(wk: Worker, article: Record): (p: string)
    ensures |p| >= 5 && p[|p| - 5..] == ".json"
    ensures var name := Format(GetOr(article, "clean_filename", JStr("unknown")), wk.reprOf) + ".json";
      name[0] != '/' ==> exists mid :: mid in {"", "/"} && p == wk.outDir + mid + name
  {
    PathJoin(wk.outDir, Format(GetOr(article, "clean_filename", JStr("unknown")), wk.reprOf) + ".json")
  }

  /** The article as saved: the answer under `sentiment`, every other key unchanged. */
  function WithSentiment(article: Record, result: Json): (r: Record)
    ensures r.Keys == article.Keys + {"sentiment"} && r["sentiment"] == result
    ensures forall k :: k in article && k != "sentiment" ==> r[k] == article[k]
  {
    article["sentiment" := result]
  }

  /**
   * `handle_message`: analyse, set `sentiment`, save, ack. An exception from
   * the engine or from the save ends the handler with no ack.
   */
  function HandleMessage(w: World, wk: Worker, provider: Provider, tag: int, article: Record): (o: Outcome)
    ensures o.raised.None? <==> AnalyzeArticle(provider, article).Ok? && wk.outDir in w.disk.dirs
    ensures o.raised.Some? ==> o.world == w
    ensures AnalyzeArticle(provider, article).Err? ==> o.raised == Some(AnalyzeArticle(provider, article).error)
    ensures o.raised.None? ==>
      var saved := WithSentiment(article, AnalyzeArticle(provider, article).value);
      var path := OutputPath(wk, saved);
      && o.world.log == w.log + [Saved(path, saved), Acked(tag)]
      && Load(o.world.disk, path) == Ok(saved)
      && o.world.disk.files.Keys == w.disk.files.Keys + {path}
  {
    match AnalyzeArticle(provider, article)
    case Err(e) => Outcome(w, Some(e))
    case Ok(result) =>
      var saved := WithSentiment(article, result);
      match SaveIn(w, wk.outDir, OutputPath(wk, saved), saved)
      case Err(e) => Outcome(w, Some(e))
      case Ok(w1) => Outcome(Ack(w1, tag), None)
  }

  /**
   * The constructor's `os.makedirs(out_dir, exist_ok=True)` is what rules
   * out the missing-directory failure: after it, the handler ends normally
   * exactly when the analysis succeeds.
   */
  lemma SavesAfterInit(w: World, wk: Worker, provider: Provider, tag: int, article: Record)
    ensures var w0 := w.(disk := MakeDirs(w.disk, wk.outDir));
      HandleMessage(w0, wk, provider, tag, article).raised.None? <==> AnalyzeArticle(provider, article).Ok?
  {
  }

  /** The worker never publishes, and acknowledges only a handled message. */
  lemma NeverPublishes(w: World, wk: Worker, provider: Provider, tag: int, article: Record)
    ensures var o := HandleMessage(w, wk, provider, tag, article);
      && w.log <= o.world.log
      && (forall i :: 0 <= i < |NewEvents(w, o.world)| ==> !NewEvents(w, o.world)[i].Published?)
      && (AckedIn(NewEvents(w, o.world)) <==> o.raised.None?)
  {
    var o := HandleMessage(w, wk, provider, tag, article);
    if o.raised.None? {
      assert NewEvents(w, o.world)[1].Acked?;
    }
  }

  /** A message without `clean_filename` is written to `unknown.json` in the output directory. */
  lemma UnknownFileName(wk: Worker, article: Record)
    requires "clean_filename" !in article
    requires |wk.outDir| > 0 && wk.outDir[|wk.outDir| - 1] != '/'
    ensures OutputPath(wk, article) == wk.outDir + "/unknown.json"
  {
  }

  /**
   * Two messages without `clean_filename` land in the same file: after both
   * are handled the file holds the second one and no second file exists.
   */
  lemma UnnamedMessagesShareOneFile(w: World, wk: Worker, provider: Provider,
                                    t1: int, t2: int, a1: Record, a2: Record)
    requires "clean_filename" !in a1 && "clean_filename" !in a2
    requires wk.outDir in w.disk.dirs
    requires AnalyzeArticle(provider, a1).Ok? && AnalyzeArticle(provider, a2).Ok?
    ensures var o1 := HandleMessage(w, wk, provider, t1, a1);
      var o2 := HandleMessage(o1.world, wk, provider, t2, a2);
      var path := OutputPath(wk, WithSentiment(a1, AnalyzeArticle(provider, a1).value));
      && o2.raised.None?
      && OutputPath(wk, WithSentiment(a2, AnalyzeArticle(provider, a2).value)) == path
      && Load(o2.world.disk, path) == Ok(WithSentiment(a2, AnalyzeArticle(provider, a2).value))
      && o2.world.disk.files.Keys == o1.world.disk.files.Keys
  {
  }

  /** The analysis never reads `category`: its value cannot change the answer. */
  lemma CategoryNotRead(provider: Provider, article: Record, v: Json)
    ensures AnalyzeArticle(provider, article["category" := v]) == AnalyzeArticle(provider, article)
  {
  }

  /**
   * For an article as the spider scrapes it (which carries `category`, not
   * `categories`), the provider sees an empty category list and the tags
   * joined with `", "`.
   */
  lemma ScrapedArticleArgs(provider: Provider, a: BaseSpider.NewsArticle)
    ensures var r := BaseSpider.ItemRecord(a);
      AnalyzeArticle(provider, r) ==
        provider(ProviderArgs(r["title"], r["publication_date"], r["summary"], r["content"],
                              "", Join(", ", a.tags)))
  {
    var r := BaseSpider.ItemRecord(a);
    assert "categories" !in r;
    assert r["tags"] == StrList(a.tags);
    JoinArgList(", ", a.tags);
    assert Strings([]) == Some([]);
  }

  /**
   * Across the two stages: the preprocess worker never adds
   * `clean_filename`, so a message it publishes from input without that key
   * is saved by this worker to `unknown.json`.
   */
  lemma PreprocessedGoesToUnknown(pw: PreprocessWorker.Worker, wk: Worker, raw: Record, result: Json)
    requires PreprocessWorker.Output(pw, raw).Ok? && "clean_filename" !in raw
    requires |wk.outDir| > 0 && wk.outDir[|wk.outDir| - 1] != '/'
    ensures var published := PreprocessWorker.Output(pw, raw).value.1;
      OutputPath(wk, WithSentiment(published, result)) == wk.outDir + "/unknown.json"
  {
    PreprocessWorker.OutputAddsNoKey(pw, raw, "clean_filename");
    UnknownFileName(wk, WithSentiment(PreprocessWorker.Output(pw, raw).value.1, result));
  }
}
