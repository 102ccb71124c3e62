/**
 * `PreprocessWorker` (`workers/preprocess_worker.py`): one raw article from
 * the queue is cleaned, written to `<out_dir>/<raw_filename>.json` without
 * its `raw_filename`, published to the output queue and acknowledged.
 */
module PreprocessWorker {

  import opened Wrappers
  import opened PyValues
  import opened PyStrings
  import opened FileStore
  import opened Broker
  import opened CleanText

  /**
   * The worker's settings and its text cleaner; `reprOf` prints a non-string
   * `raw_filename` the way an f-string does.
   */
  datatype Worker = Worker(
    inputQueue: string,
    outputQueue: string,
    outDir: string,
    cleaner: Cleaner,
    reprOf: Json -> string)

  /** The constructor defaults `raw_news`, `clean_news` and `data/cleaned`. */
  function DefaultWorker(cleaner: Cleaner, reprOf: Json -> string): Worker {
    Worker("raw_news", "clean_news", "data/cleaned", cleaner, reprOf)
  }

  /** `article[key] = clean(article[key])`: KeyError when absent, the cleaner's error when it raises. */
  function CleanField(article: Record, key: string, c: Cleaner): (r: Result<Record, Error>)
    ensures r.Ok? <==> key in article && Clean(article[key], c).Ok?
    ensures key !in article ==> r == Err(KeyError(key))
    ensures r.Ok? ==> && r.value.Keys == article.Keys
                      && r.value[key] == JStr(Clean(article[key], c).value)
                      && forall k :: k in article && k != key ==> r.value[k] == article[k]
  {
    if key !in article then Err(KeyError(key))
    else
      var v :- Clean(article[key], c);
      Ok(article[key := JStr(v)])
  }

  /** The three cleaned fields, in the order the handler cleans them. */
  function CleanFields(article: Record, c: Cleaner): (r: Result<Record, Error>)
    ensures "title" !in article ==> r == Err(KeyError("title"))
    ensures "title" in article && Clean(article["title"], c).Err? ==> r == Err(Clean(article["title"], c).error)
    ensures r.Ok? ==> r.value.Keys == article.Keys
    ensures r.Ok? ==> forall k :: k in article && !TextField(k) ==> r.value[k] == article[k]
  {
    var a1 :- CleanField(article, "title", c);
    var a2 :- CleanField(a1, "content", c);
    CleanField(a2, "summary", c)
  }

  /** The three fields the handler cleans. */
  predicate TextField(k: string) {
    k == "title" || k == "content" || k == "summary"
  }

  /** `article[k]` is present and cleanable, and `r[k]` holds its cleaned text. */
  predicate CleanedField(r: Record, article: Record, k: string, c: Cleaner) {
    k in article && Clean(article[k], c).Ok? && k in r && r[k] == JStr(Clean(article[k], c).value)
  }

  /** The text fields cleaned, the rest as received. */
  predicate CleanedFrom(r: Record, article: Record, c: Cleaner) {
    && r.Keys == article.Keys
    && (forall k :: k in article && !TextField(k) ==> r[k] == article[k])
    && CleanedField(r, article, "title", c)
    && CleanedField(r, article, "content", c)
    && CleanedField(r, article, "summary", c)
  }

  /** Whether `clean` accepts `article[k]`. */
  predicate Cleanable(article: Record, k: string, c: Cleaner) {
    k in article && Clean(article[k], c).Ok?
  }

  /**
   * Cleaning succeeds exactly when the three fields are present and
   * cleanable; a missing title is reported before anything else, and a
   * success replaces exactly those three values.
   */
  lemma CleanFieldsSpec(article: Record, c: Cleaner)
    ensures CleanFields(article, c).Ok? <==>
      Cleanable(article, "title", c) && Cleanable(article, "content", c) && Cleanable(article, "summary", c)
    ensures "title" !in article ==> CleanFields(article, c) == Err(KeyError("title"))
    ensures CleanFields(article, c).Ok? ==> CleanedFrom(CleanFields(article, c).value, article, c)
  {
    if Cleanable(article, "title", c) {
      var a1 := CleanField(article, "title", c).value;
      if Cleanable(a1, "content", c) {
        var a2 := CleanField(a1, "content", c).value;
        assert a2["title"] == a1["title"];
        if Cleanable(a2, "summary", c) {
          var a3 := CleanField(a2, "summary", c).value;
          assert a3["title"] == a2["title"] && a3["content"] == a2["content"];
        }
      }
    }
  }

  /**
   * `os.path.join(out_dir, f"{filename}.json")`: a `.json` file, inside the
   * output directory unless the rendered name is an absolute path.
   */
  function OutputPath(wk: Worker, filename: Json): (p: string)
    ensures |p| >= 5 && p[|p| - 5..] == ".json"
    ensures var name := Format(filename, wk.reprOf) + ".json";
      name[0] != '/' ==> exists mid :: mid in {"", "/"} && p == wk.outDir + mid + name
  {
    PathJoin(wk.outDir, Format(filename, wk.reprOf) + ".json")
  }

  /**
   * What `_save_to_file` reads before touching the disk: the path from
   * `raw_filename`, and the article with that key deleted.
   */
  function SaveTarget(wk: Worker, article: Record): (r: Result<(string, Record), Error>)
    ensures r.Err? <==> "raw_filename" !in article
    ensures r.Err? ==> r.error == KeyError("raw_filename")
    ensures r.Ok? ==> && r.value.0 == OutputPath(wk, article["raw_filename"])
                      && r.value.1.Keys == article.Keys - {"raw_filename"}
                      && forall k :: k in r.value.1 ==> r.value.1[k] == article[k]
  {
    if "raw_filename" !in article then Err(KeyError("raw_filename"))
    else Ok((OutputPath(wk, article["raw_filename"]), article - {"raw_filename"}))
  }

  /**
   * The message the handler saves and publishes, when it gets that far: it
   * exists exactly when the three fields clean and `raw_filename` is present.
   */
  function Output(wk: Worker, article: Record): (r: Result<(string, Record), Error>)
    ensures r.Ok? <==> CleanFields(article, wk.cleaner).Ok? && "raw_filename" in article
    ensures CleanFields(article, wk.cleaner).Ok? && "raw_filename" !in article ==> r == Err(KeyError("raw_filename"))
    ensures r.Ok? ==> r.value.0 == OutputPath(wk, article["raw_filename"]) && "raw_filename" !in r.value.1
  {
    var cleaned :- CleanFields(article, wk.cleaner);
    SaveTarget(wk, cleaned)
  }

  /**
   * The effects of `handle_message` once the message to save is known:
   * save, publish, ack. `publishFailure` is what the broker call raises, if
   * anything. An exception ends the handler, and the effects before it stay.
   */
  function Deliver(w: World, wk: Worker, publishFailure: Option<Error>, tag: int,
                   out: Result<(string, Record), Error>): (o: Outcome)
    ensures w.log <= o.world.log
    ensures o.raised.None? <==> out.Ok? && wk.outDir in w.disk.dirs && publishFailure.None?
    ensures out.Err? ==> o == Outcome(w, Some(out.error))
    ensures out.Ok? && wk.outDir !in w.disk.dirs ==> o == Outcome(w, Some(FileNotFoundError(out.value.0)))
    ensures out.Ok? && wk.outDir in w.disk.dirs ==>
      && Load(o.world.disk, out.value.0) == Ok(out.value.1)
      && o.world.disk.files.Keys == w.disk.files.Keys + {out.value.0}
      && NewEvents(w, o.world) ==
         if publishFailure.None? then [Saved(out.value.0, out.value.1), Published(wk.outputQueue, out.value.1), Acked(tag)]
         else [Saved(out.value.0, out.value.1)]
  {
    match out
    case Err(e) => Outcome(w, Some(e))
    case Ok((path, body)) =>
      match SaveIn(w, wk.outDir, path, body)
      case Err(e) => Outcome(w, Some(e))
      case Ok(w1) =>
        assert NewEvents(w, w1) == [Saved(path, body)];
        match Publish(w1, wk.outputQueue, body, publishFailure)
        case Err(e) => Outcome(w1, Some(e))
        case Ok(w2) =>
          var w3 := Ack(w2, tag);
          assert NewEvents(w, w3) == [Saved(path, body), Published(wk.outputQueue, body), Acked(tag)];
          Outcome(w3, None)
  }

  /**
   * `handle_message`: title, content and summary are cleaned, then the
   * article is saved without `raw_filename`, published and acknowledged, in
   * that order; whatever raises first ends it.
   */
  function HandleMessage(w: World, wk: Worker, publishFailure: Option<Error>, tag: int, article: Record)
    : (o: Outcome)
    ensures w.log <= o.world.log
    ensures o.raised.None? <==> Output(wk, article).Ok? && wk.outDir in w.disk.dirs && publishFailure.None?
    ensures Output(wk, article).Err? ==> o == Outcome(w, Some(Output(wk, article).error))
    ensures Output(wk, article).Ok? && wk.outDir !in w.disk.dirs ==>
      o == Outcome(w, Some(FileNotFoundError(Output(wk, article).value.0)))
    ensures Output(wk, article).Ok? && wk.outDir in w.disk.dirs ==>
      var out := Output(wk, article).value;
      && Load(o.world.disk, out.0) == Ok(out.1)
      && o.world.disk.files.Keys == w.disk.files.Keys + {out.0}
      && NewEvents(w, o.world) ==
         if publishFailure.None? then [Saved(out.0, out.1), Published(wk.outputQueue, out.1), Acked(tag)]
         else [Saved(out.0, out.1)]
  {
    Deliver(w, wk, publishFailure, tag, Output(wk, article))
  }

  /**
   * The constructor's `os.makedirs(out_dir, exist_ok=True)` is what rules
   * out the missing-directory failure: after it, the handler ends normally
   * exactly when the output exists and the publish goes through.
   */
  lemma SavesAfterInit(w: World, wk: Worker, publishFailure: Option<Error>, tag: int, article: Record)
    ensures var w0 := w.(disk := MakeDirs(w.disk, wk.outDir));
      HandleMessage(w0, wk, publishFailure, tag, article).raised.None? <==>
        Output(wk, article).Ok? && publishFailure.None?
    ensures var w0 := w.(disk := MakeDirs(w.disk, wk.outDir));
      Output(wk, article).Ok? ==> Load(HandleMessage(w0, wk, publishFailure, tag, article).world.disk,
                                       Output(wk, article).value.0) == Ok(Output(wk, article).value.1)
  {
  }

  /** A handler that raised acknowledged nothing: the message is never acked. */
  lemma NoAckOnError(w: World, wk: Worker, publishFailure: Option<Error>, tag: int, article: Record)
    requires HandleMessage(w, wk, publishFailure, tag, article).raised.Some?
    ensures var o := HandleMessage(w, wk, publishFailure, tag, article);
      !AckedIn(NewEvents(w, o.world))
  {
  }

  /** A missing field or `raw_filename` raises before any effect at all. */
  lemma MissingKeyNoEffect(w: World, wk: Worker, publishFailure: Option<Error>, tag: int, article: Record, key: string)
    requires key in {"title", "content", "summary", "raw_filename"} && key !in article
    ensures HandleMessage(w, wk, publishFailure, tag, article).world == w
    ensures HandleMessage(w, wk, publishFailure, tag, article).raised.Some?
    ensures key == "raw_filename" && CleanFields(article, wk.cleaner).Ok? ==>
      HandleMessage(w, wk, publishFailure, tag, article).raised == Some(KeyError("raw_filename"))
  {
    CleanFieldsSpec(article, wk.cleaner);
    if CleanFields(article, wk.cleaner).Ok? {
      assert CleanedFrom(CleanFields(article, wk.cleaner).value, article, wk.cleaner);
    }
  }

  /**
   * The saved and published message: the cleaned title, content and summary,
   * no `raw_filename`, and every other key as received.
   */
  lemma OutputSpec(wk: Worker, article: Record)
    requires Output(wk, article).Ok?
    ensures var (path, body) := Output(wk, article).value;
      && "raw_filename" in article
      && path == OutputPath(wk, article["raw_filename"])
      && body.Keys == article.Keys - {"raw_filename"}
      && (forall k :: k in body && !TextField(k) ==> body[k] == article[k])
      && CleanedField(body, article, "title", wk.cleaner)
      && CleanedField(body, article, "content", wk.cleaner)
      && CleanedField(body, article, "summary", wk.cleaner)
  {
    CleanFieldsSpec(article, wk.cleaner);
    var cleaned := CleanFields(article, wk.cleaner).value;
    assert CleanedFrom(cleaned, article, wk.cleaner);
  }


  /** The worker adds no key: a message without `clean_filename` is published without one. */
  lemma OutputAddsNoKey(wk: Worker, article: Record, key: string)
    requires Output(wk, article).Ok? && key !in article
    ensures key !in Output(wk, article).value.1
  {
    OutputSpec(wk, article);
  }

  /** A relative `raw_filename` string names a file directly in the output directory. */
  lemma OutputPathOfName(wk: Worker, name: string)
    requires |name| == 0 || name[0] != '/'
    requires |wk.outDir| > 0 && wk.outDir[|wk.outDir| - 1] != '/'
    ensures OutputPath(wk, JStr(name)) == wk.outDir + "/" + name + ".json"
  {
    var b := name + ".json";
    assert |name| > 0 ==> b[0] == name[0];
    assert b[0] != '/' by {
      if |name| == 0 { assert b[0] == '.'; }
    }
  }
}
