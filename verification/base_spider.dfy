/**
 * The listing-page callback `BaseNewsSpider.parse` and the article-page
 * callback `parse_article` (`scrapy_app/spiders/base_spider.py`).
 *
 * XPath evaluation is done by the crawling library: a page arrives here as
 * the sequence of first matches of each selector. `response.urljoin` is the
 * page's link resolver, taken as a parameter.
 */
module BaseSpider {

  import opened Wrappers
  import opened PyValues
  import opened PyStrings
  import opened DateParser

  // ---------------------------------------------------------------------------
  // Listing pages
  // ---------------------------------------------------------------------------

  /** One listing block: the first match of the title, link and date selectors. */
  datatype Block = Block(title: Option<string>, href: Option<string>, date: Option<string>)

  /** A listing page: its blocks, in document order, and the next-page link. */
  datatype ListingPage = ListingPage(blocks: seq<Block>, nextPage: Option<string>)

  /** The spider arguments `start_date` and `end_date`. */
  datatype Bounds = Bounds(start: Option<int>, end: Option<int>)

  /** The `meta` an article request carries to `parse_article`. */
  datatype Meta = Meta(title: Option<string>, date: string, timestamp: int)

  /** The requests the listing callback yields. */
  datatype Request =
    | ArticleRequest(url: string, meta: Meta)
    | NextPageRequest(url: string)

  /** How the loop over the blocks ended: ran to the end, hit `return`, or raised. */
  datatype Ending = Finished | Stopped | Raised(error: Error)

  /** The requests yielded before the callback ended, and how it ended. */
  datatype Crawl = Crawl(requests: seq<Request>, ending: Ending)

  /**
   * The code the callback calls: `parse_date`, the ISO rendering of an
   * instant given by its timestamp, and `response.urljoin`. The filter is
   * stated for any date reader; `SpiderEnv` plugs in `DateParser.ParseDate`.
   */
  datatype Env = Env(parseDate: string -> Result<int, Error>, isoOf: int -> string, urljoin: string -> string)

  /** The environment of the deployed spider: `parse_date` over the given calendar. */
  function SpiderEnv(cal: Calendar, isoOf: int -> string, urljoin: string -> string): (env: Env)
    ensures forall raw :: env.parseDate(raw) == ParseDate(raw, cal)
    ensures env.isoOf == isoOf && env.urljoin == urljoin
  {
    Env(raw => ParseDate(raw, cal), isoOf, urljoin)
  }

  /** A block's date read as an instant: its ISO text and its timestamp. */
  datatype Dated = Dated(iso: string, ts: int)

  /** Python truthiness of an optional string. */
  predicate TruthyStr(s: Option<string>) {
    s.Some? && s.value != ""
  }

  /** What the loop body decides for one block. */
  datatype Verdict =
    | Undated                                   // `if not date_str: continue`
    | Failed(error: Error)                      // reading the date raised
    | TooNew                                    // `ts > end_date`: `continue`
    | TooOld                                    // `ts < start_date`: `return`
    | Accepted(dated: Dated, url: Option<string>)

  /** The verdicts that end the loop. */
  predicate Halts(v: Verdict) {
    v.Failed? || v.TooOld?
  }

  /** `ts` lies inside the bounds that are switched on (a falsy bound is off). */
  predicate InBounds(ts: int, b: Bounds) {
    && (TruthyInt(b.start) ==> ts >= b.start.value)
    && (TruthyInt(b.end) ==> ts <= b.end.value)
  }

  /**
   * The date of a block read as the loop evidently means it: `parse_date`
   * gives the instant, whose ISO text and whole-second timestamp are kept.
   */
  function DateOf(raw: string, env: Env): (r: Result<Dated, Error>)
    ensures r.Ok? <==> env.parseDate(raw).Ok?
    ensures r.Err? ==> r.error == env.parseDate(raw).error
    ensures r.Ok? ==> r.value == Dated(env.isoOf(env.parseDate(raw).value), env.parseDate(raw).value)
  {
    var ts :- env.parseDate(raw);
    Ok(Dated(env.isoOf(ts), ts))
  }

  /** `response.urljoin(href.strip()) if href else None`. */
  function LinkOf(href: Option<string>, env: Env): (url: Option<string>)
    ensures url.Some? <==> TruthyStr(href)
    ensures url.Some? ==> url.value == env.urljoin(Strip(href.value))
  {
    if TruthyStr(href) then Some(env.urljoin(Strip(href.value))) else None
  }

  /** The date tests of the loop body on a block whose date was read. */
  function Filter(d: Dated, b: Block, bounds: Bounds, env: Env): (v: Verdict)
    ensures v.TooNew? <==> TruthyInt(bounds.end) && d.ts > bounds.end.value
    ensures v.TooOld? <==> !v.TooNew? && TruthyInt(bounds.start) && d.ts < bounds.start.value
    ensures v.Accepted? <==> InBounds(d.ts, bounds)
    ensures v.Accepted? ==> v == Accepted(d, LinkOf(b.href, env))
  {
    if TruthyInt(bounds.end) && d.ts > bounds.end.value then TooNew
    else if TruthyInt(bounds.start) && d.ts < bounds.start.value then TooOld
    else Accepted(d, LinkOf(b.href, env))
  }

  /** The loop body of `parse` for one block, with the date read by `DateOf`. */
  function BlockVerdict(b: Block, bounds: Bounds, env: Env): (v: Verdict)
    ensures v.Undated? <==> !TruthyStr(b.date)
    ensures v.Failed? ==> env.parseDate(b.date.value).Err? && v.error == env.parseDate(b.date.value).error
    ensures v.Accepted? ==> && DateOf(b.date.value, env).Ok? && v.dated == DateOf(b.date.value, env).value
                            && InBounds(v.dated.ts, bounds) && v.url == LinkOf(b.href, env)
  {
    if !TruthyStr(b.date) then Undated
    else
      match DateOf(b.date.value, env)
      case Err(e) => Failed(e)
      case Ok(d) => Filter(d, b, bounds, env)
  }

  /** The request a block yields: one for an accepted block with a link, none otherwise. */
  function Emitted(b: Block, v: Verdict): (rs: seq<Request>)
    ensures |rs| <= 1
    ensures |rs| == 1 <==> v.Accepted? && TruthyStr(v.url)
    ensures |rs| == 1 ==> rs[0] == ArticleRequest(v.url.value, Meta(b.title, v.dated.iso, v.dated.ts))
  {
    if v.Accepted? && TruthyStr(v.url) then
      [ArticleRequest(v.url.value, Meta(b.title, v.dated.iso, v.dated.ts))]
    else []
  }

  /** Which loop body runs: the intended one, or the one as written. */
  datatype Reading = Intended(bounds: Bounds, env: Env) | AsWritten(env: Env)

  /** The loop body's verdict on one block under a reading. */
  function VerdictOf(r: Reading, b: Block): Verdict {
    match r
    case Intended(bounds, env) => BlockVerdict(b, bounds, env)
    case AsWritten(env) => BlockVerdictAsWritten(b, env)
  }

  /** The `for b in blocks` loop. */
  function Scan(blocks: seq<Block>, r: Reading): (c: Crawl)
    ensures forall i :: 0 <= i < |c.requests| ==> c.requests[i].ArticleRequest?
    decreases |blocks|
  {
    if |blocks| == 0 then Crawl([], Finished)
    else
      var v := VerdictOf(r, blocks[0]);
      match v
      case Failed(e) => Crawl([], Raised(e))
      case TooOld => Crawl([], Stopped)
      case _ =>
        var rest := Scan(blocks[1..], r);
        Crawl(Emitted(blocks[0], v) + rest.requests, rest.ending)
  }

  /**
   * The pagination step after the loop: the loop's requests stay as they
   * are, and one next-page request follows them exactly when the loop ran to
   * the end and the page has a truthy next link.
   */
  function Paginate(c: Crawl, nextPage: Option<string>, env: Env): (p: Crawl)
    ensures p.ending == c.ending
    ensures c.requests <= p.requests && |p.requests| <= |c.requests| + 1
    ensures |p.requests| > |c.requests| <==> c.ending == Finished && TruthyStr(nextPage)
    ensures |p.requests| > |c.requests| ==> p.requests[|c.requests|] == NextPageRequest(env.urljoin(nextPage.value))
  {
    if c.ending == Finished && TruthyStr(nextPage) then
      Crawl(c.requests + [NextPageRequest(env.urljoin(nextPage.value))], Finished)
    else c
  }

  /** Every article request in `rs` carries a timestamp inside the bounds. */
  predicate RequestsInBounds(rs: seq<Request>, bounds: Bounds) {
    forall i :: 0 <= i < |rs| && rs[i].ArticleRequest? ==> InBounds(rs[i].meta.timestamp, bounds)
  }

  lemma RequestsInBoundsConcat(a: seq<Request>, b: seq<Request>, bounds: Bounds)
    requires RequestsInBounds(a, bounds) && RequestsInBounds(b, bounds)
    ensures RequestsInBounds(a + b, bounds)
  {
    forall i | 0 <= i < |a + b| && (a + b)[i].ArticleRequest?
      ensures InBounds((a + b)[i].meta.timestamp, bounds)
    {
      if i >= |a| {
        assert (a + b)[i] == b[i - |a|];
      }
    }
  }

  /** `parse(response)` with the date of each block read as intended. */
  function Parse(page: ListingPage, bounds: Bounds, env: Env): (c: Crawl)
    ensures RequestsInBounds(c.requests, bounds)
  {
    var scan := Scan(page.blocks, Intended(bounds, env));
    ScanBounds(page.blocks, bounds, env);
    var c := Paginate(scan, page.nextPage, env);
    assert RequestsInBounds([NextPageRequest(env.urljoin(page.nextPage.GetOr("")))], bounds);
    RequestsInBoundsConcat(scan.requests, [NextPageRequest(env.urljoin(page.nextPage.GetOr("")))], bounds);
    c
  }

  /** Every article request of a scan carries a timestamp inside the active bounds. */
  lemma {:induction false} ScanBounds(blocks: seq<Block>, bounds: Bounds, env: Env)
    ensures RequestsInBounds(Scan(blocks, Intended(bounds, env)).requests, bounds)
    decreases |blocks|
  {
    if |blocks| > 0 {
      ScanBounds(blocks[1..], bounds, env);
      var v := BlockVerdict(blocks[0], bounds, env);
      if !Halts(v) {
        var e := Emitted(blocks[0], v);
        assert RequestsInBounds(e, bounds);
        RequestsInBoundsConcat(e, Scan(blocks[1..], Intended(bounds, env)).requests, bounds);
      }
    }
  }

  // ---------------------------------------------------------------------------
  // The loop against a reference definition
  // ---------------------------------------------------------------------------

  /** The index of the first block whose verdict ends the loop, or the number of blocks. */
  function HaltIndex(blocks: seq<Block>, r: Reading): (k: nat)
    ensures k <= |blocks|
    ensures forall i :: 0 <= i < k ==> !Halts(VerdictOf(r, blocks[i]))
    ensures k < |blocks| ==> Halts(VerdictOf(r, blocks[k]))
    decreases |blocks|
  {
    if |blocks| == 0 || Halts(VerdictOf(r, blocks[0])) then 0
    else 1 + HaltIndex(blocks[1..], r)
  }

  /** The requests of every block, in order, as if none ended the loop. */
  function AllEmitted(blocks: seq<Block>, r: Reading): seq<Request>
    decreases |blocks|
  {
    if |blocks| == 0 then []
    else Emitted(blocks[0], VerdictOf(r, blocks[0])) + AllEmitted(blocks[1..], r)
  }

  /** The ending the first halting verdict gives, or `Finished` when there is none. */
  function EndingAt(blocks: seq<Block>, r: Reading, k: nat): Ending
    requires k <= |blocks|
  {
    if k == |blocks| then Finished
    else match VerdictOf(r, blocks[k])
      case Failed(e) => Raised(e)
      case _ => Stopped
  }

  /**
   * The loop yields exactly the requests of the blocks before the first
   * halting verdict, in block order, and ends the way that verdict says.
   */
  lemma {:induction false} ScanIsPrefix(blocks: seq<Block>, r: Reading)
    ensures var k := HaltIndex(blocks, r);
      Scan(blocks, r) == Crawl(AllEmitted(blocks[..k], r), EndingAt(blocks, r, k))
    decreases |blocks|
  {
    if |blocks| > 0 && !Halts(VerdictOf(r, blocks[0])) {
      var k := HaltIndex(blocks, r);
      var t := blocks[1..];
      ScanIsPrefix(t, r);
      assert blocks[..k][1..] == t[..k - 1];
      assert blocks[..k][0] == blocks[0];
      if k < |blocks| {
        assert blocks[k] == t[k - 1];
      }
    }
  }

  /**
   * A block older than `start_date`, reached before any other halting block,
   * ends the page: nothing of the later blocks and no next-page request is yielded.
   */
  lemma StopEndsPage(page: ListingPage, bounds: Bounds, env: Env, k: nat)
    requires k < |page.blocks|
    requires BlockVerdict(page.blocks[k], bounds, env).TooOld?
    requires forall i :: 0 <= i < k ==> !Halts(BlockVerdict(page.blocks[i], bounds, env))
    ensures Parse(page, bounds, env) == Crawl(AllEmitted(page.blocks[..k], Intended(bounds, env)), Stopped)
  {
    var r := Intended(bounds, env);
    ScanIsPrefix(page.blocks, r);
    HaltIndexFirst(page.blocks, r, k);
  }

  /** The first halting index is the one before which nothing halts. */
  lemma HaltIndexFirst(blocks: seq<Block>, r: Reading, k: nat)
    requires k < |blocks| && Halts(VerdictOf(r, blocks[k]))
    requires forall i :: 0 <= i < k ==> !Halts(VerdictOf(r, blocks[i]))
    ensures HaltIndex(blocks, r) == k
  {
  }

  /**
   * The next-page request, when there is one, is the last request; it is
   * there exactly when the loop ran to the end and the page has a next link.
   */
  lemma NextPageLast(page: ListingPage, bounds: Bounds, env: Env)
    ensures var c := Parse(page, bounds, env);
      var scan := Scan(page.blocks, Intended(bounds, env));
      && (forall i :: 0 <= i < |c.requests| - 1 ==> c.requests[i].ArticleRequest?)
      && ((|c.requests| > 0 && c.requests[|c.requests| - 1].NextPageRequest?)
          <==> scan.ending == Finished && TruthyStr(page.nextPage))
  {
  }

  // ---------------------------------------------------------------------------
  // Properties of the date filter
  // ---------------------------------------------------------------------------

  /** A block without a date changes nothing: dropping it from the page gives the same crawl. */
  lemma {:induction false} UndatedIgnored(blocks: seq<Block>, i: nat, b: Block, bounds: Bounds, env: Env)
    requires i <= |blocks| && !TruthyStr(b.date)
    ensures Scan(blocks[..i] + [b] + blocks[i..], Intended(bounds, env)) == Scan(blocks, Intended(bounds, env))
    decreases i
  {
    var s := blocks[..i] + [b] + blocks[i..];
    if i == 0 {
      assert s[1..] == blocks;
    } else {
      assert s[0] == blocks[0];
      UndatedIgnored(blocks[1..], i - 1, b, bounds, env);
      assert s[1..] == blocks[1..][..i - 1] + [b] + blocks[1..][i - 1..];
    }
  }

  /** A falsy bound is no bound: `0` and `None` behave alike for either argument. */
  lemma {:induction false} FalsyBoundIsNone(blocks: seq<Block>, bounds: Bounds, off: Bounds, env: Env)
    requires !TruthyInt(bounds.start) ==> !TruthyInt(off.start)
    requires !TruthyInt(off.start) ==> !TruthyInt(bounds.start)
    requires TruthyInt(bounds.start) ==> off.start == bounds.start
    requires !TruthyInt(bounds.end) ==> !TruthyInt(off.end)
    requires !TruthyInt(off.end) ==> !TruthyInt(bounds.end)
    requires TruthyInt(bounds.end) ==> off.end == bounds.end
    ensures Scan(blocks, Intended(bounds, env)) == Scan(blocks, Intended(off, env))
    decreases |blocks|
  {
    if |blocks| > 0 {
      FalsyBoundIsNone(blocks[1..], bounds, off, env);
    }
  }

  /** The end bound is inclusive: a block stamped exactly `end_date` is kept. */
  lemma EndBoundInclusive(b: Block, bounds: Bounds, env: Env)
    requires TruthyStr(b.date) && TruthyInt(bounds.end)
    requires DateOf(b.date.value, env).Ok? && DateOf(b.date.value, env).value.ts == bounds.end.value
    requires !TruthyInt(bounds.start) || bounds.start.value <= bounds.end.value
    ensures BlockVerdict(b, bounds, env) == Accepted(DateOf(b.date.value, env).value, LinkOf(b.href, env))
  {
  }

  // ---------------------------------------------------------------------------
  // The callback as written
  // ---------------------------------------------------------------------------

  /**
   * The loop body as written: `parse_date` returns a number, and calling
   * `.isoformat()` on it raises AttributeError for every dated block whose
   * date parses.
   */
  function BlockVerdictAsWritten(b: Block, env: Env): (v: Verdict)
    ensures v.Undated? || v.Failed?
  {
    if !TruthyStr(b.date) then Undated
    else
      match env.parseDate(b.date.value)
      case Err(e) => Failed(e)
      case Ok(_) => Failed(AttributeError("isoformat"))
  }

  /** `parse(response)` as written. */
  function ParseAsWritten(page: ListingPage, env: Env): (c: Crawl)
    ensures forall i :: 0 <= i < |c.requests| ==> c.requests[i].NextPageRequest?
  {
    AsWrittenYieldsNoArticle(page.blocks, env);
    Paginate(Scan(page.blocks, AsWritten(env)), page.nextPage, env)
  }

  /**
   * As written, the callback raises at the first dated block and yields no
   * article request at all; the next page is followed only when no block is dated.
   */
  lemma {:induction false} AsWrittenYieldsNoArticle(blocks: seq<Block>, env: Env)
    ensures var c := Scan(blocks, AsWritten(env));
      c.requests == [] && (c.ending == Finished <==> forall i :: 0 <= i < |blocks| ==> !TruthyStr(blocks[i].date))
    decreases |blocks|
  {
    if |blocks| > 0 {
      AsWrittenYieldsNoArticle(blocks[1..], env);
      if !TruthyStr(blocks[0].date) {
        assert forall i :: 1 <= i < |blocks| ==> blocks[i] == blocks[1..][i - 1];
      }
    }
  }

  /**
   * On a page of one block whose date parses, the two readings differ: as
   * written the callback raises AttributeError and yields nothing; as
   * intended it yields the article when the block is in bounds and linked.
   */
  lemma AsWrittenRaisesWhereIntendedYields(b: Block, bounds: Bounds, env: Env)
    requires TruthyStr(b.date) && TruthyStr(b.href) && env.urljoin(Strip(b.href.value)) != ""
    requires env.parseDate(b.date.value).Ok?
    requires InBounds(env.parseDate(b.date.value).value, bounds)
    ensures ParseAsWritten(ListingPage([b], None), env) == Crawl([], Raised(AttributeError("isoformat")))
    ensures var ts := env.parseDate(b.date.value).value;
      Parse(ListingPage([b], None), bounds, env).requests
        == [ArticleRequest(env.urljoin(Strip(b.href.value)), Meta(b.title, env.isoOf(ts), ts))]
  {
    var v := BlockVerdict(b, bounds, env);
    assert v == Accepted(DateOf(b.date.value, env).value, LinkOf(b.href, env));
    assert [b][1..] == [];
    assert Scan([b], Intended(bounds, env)).requests == Emitted(b, v);
  }

  /** `1404-9-10 14:34` reads as the calendar's instant for those fields. */
  lemma SampleDateParses(cal: Calendar)
    ensures ParseDate(NumericText(1404, 9, 10, 14, 34), cal) == cal.jalali(1404, 9, 10, 14, 34)
  {
    NumericRoundTrip(1404, 9, 10, 14, 34, cal);
  }

  /**
   * A concrete page on which the two readings differ: one block dated
   * `1404-9-10 14:34` that the calendar accepts.
   */
  lemma IsoformatCounterexample(cal: Calendar, isoOf: int -> string, urljoin: string -> string, bounds: Bounds)
    requires cal.jalali(1404, 9, 10, 14, 34).Ok? && urljoin("news/1") != ""
    requires InBounds(cal.jalali(1404, 9, 10, 14, 34).value, bounds)
    ensures var env := SpiderEnv(cal, isoOf, urljoin);
      var b := Block(Some("t"), Some("news/1"), Some(NumericText(1404, 9, 10, 14, 34)));
      && ParseAsWritten(ListingPage([b], None), env) == Crawl([], Raised(AttributeError("isoformat")))
      && Parse(ListingPage([b], None), bounds, env).requests != []
  {
    var env := SpiderEnv(cal, isoOf, urljoin);
    var date := NumericText(1404, 9, 10, 14, 34);
    SampleDateParses(cal);
    assert env.parseDate(date) == cal.jalali(1404, 9, 10, 14, 34);
    assert |date| > 0 by {
      assert |NatToString(1404)| > 0;
    }
    IsoformatFor(env, bounds, date);
  }

  /** The discrepancy for one block with a given parsable date and the link `news/1`. */
  lemma IsoformatFor(env: Env, bounds: Bounds, date: string)
    requires date != "" && env.parseDate(date).Ok? && InBounds(env.parseDate(date).value, bounds)
    requires env.urljoin("news/1") != ""
    ensures var b := Block(Some("t"), Some("news/1"), Some(date));
      && ParseAsWritten(ListingPage([b], None), env) == Crawl([], Raised(AttributeError("isoformat")))
      && Parse(ListingPage([b], None), bounds, env).requests != []
  {
    var href := "news/1";
    assert href[0] == 'n' && href[|href| - 1] == '1';
    assert NoEdgeSpace(href);
    AsWrittenRaisesWhereIntendedYields(Block(Some("t"), Some(href), Some(date)), bounds, env);
  }

  // ---------------------------------------------------------------------------
  // Article pages
  // ---------------------------------------------------------------------------

  /** What `parse_article` reads from an article page. */
  datatype ArticlePage = ArticlePage(
    url: string,
    categories: seq<string>,   // every match of the category selector
    summary: Option<string>,   // the first match of the summary selector
    paragraphs: seq<string>,   // every match of the body selector
    tags: seq<string>)         // every match of the tags selector

  /** `NewsArticleItem`, the item handed to the item pipeline. */
  datatype NewsArticle = NewsArticle(
    title: string,
    publicationDate: string,
    publicationTimestamp: int,
    url: string,
    category: seq<string>,
    summary: Option<string>,
    content: string,
    tags: seq<string>)

  /** What one entry contributes to `[x.strip() for x in xs if x.strip()]`. */
  function Kept(x: string): (ys: seq<string>)
    ensures |ys| <= 1
    ensures forall j :: 0 <= j < |ys| ==> ys[j] != "" && NoEdgeSpace(ys[j])
  {
    if Strip(x) != "" then [Strip(x)] else []
  }

  /** `[x.strip() for x in xs if x.strip()]`. */
  function StripNonBlank(xs: seq<string>): (ys: seq<string>)
    ensures |ys| <= |xs|
    ensures forall j :: 0 <= j < |ys| ==> ys[j] != "" && NoEdgeSpace(ys[j])
    decreases |xs|
  {
    if |xs| == 0 then [] else Kept(xs[0]) + StripNonBlank(xs[1..])
  }

  /** Filtering a concatenation filters each part and keeps their order. */
  lemma {:induction false} StripNonBlankAppend(xs: seq<string>, zs: seq<string>)
    ensures StripNonBlank(xs + zs) == StripNonBlank(xs) + StripNonBlank(zs)
    decreases |xs|
  {
    if |xs| == 0 {
      assert xs + zs == zs;
    } else {
      assert (xs + zs)[0] == xs[0];
      assert (xs + zs)[1..] == xs[1..] + zs;
      StripNonBlankAppend(xs[1..], zs);
      var k := Kept(xs[0]);
      assert StripNonBlank(xs + zs) == k + (StripNonBlank(xs[1..]) + StripNonBlank(zs));
      ConcatAssoc(k, StripNonBlank(xs[1..]), StripNonBlank(zs));
    }
  }

  /** The entries kept are exactly the non-blank stripped inputs. */
  lemma {:induction false} StripNonBlankMembers(xs: seq<string>, y: string)
    ensures y in StripNonBlank(xs) <==> y != "" && exists i :: 0 <= i < |xs| && Strip(xs[i]) == y
    decreases |xs|
  {
    if |xs| > 0 {
      StripNonBlankMembers(xs[1..], y);
      assert StripNonBlank(xs) == Kept(xs[0]) + StripNonBlank(xs[1..]);
      if y != "" && Strip(xs[0]) != y && exists i :: 0 <= i < |xs| && Strip(xs[i]) == y {
        var i :| 0 <= i < |xs| && Strip(xs[i]) == y;
        assert xs[1..][i - 1] == xs[i];
      }
    }
  }

  /** Filtering again changes nothing: the kept entries are already stripped and non-blank. */
  lemma {:induction false} StripNonBlankIdempotent(xs: seq<string>)
    ensures StripNonBlank(StripNonBlank(xs)) == StripNonBlank(xs)
    decreases |xs|
  {
    if |xs| > 0 {
      var k := Kept(xs[0]);
      var rest := StripNonBlank(xs[1..]);
      StripNonBlankIdempotent(xs[1..]);
      StripNonBlankAppend(k, rest);
      if |k| == 1 {
        assert Strip(k[0]) == k[0];
        assert StripNonBlank(k) == Kept(k[0]) + StripNonBlank([]);
      }
    }
  }

  /** `'\n'.join(...)` of the kept paragraphs: empty exactly when every paragraph is blank. */
  function Body(paragraphs: seq<string>): (b: string)
    ensures b == "" <==> StripNonBlank(paragraphs) == []
  {
    var ps := StripNonBlank(paragraphs);
    if |ps| > 0 then JoinHead("\n", ps); Join("\n", ps) else Join("\n", ps)
  }

  /** A join begins with its first piece. */
  lemma JoinHead(sep: string, xs: seq<string>)
    requires |xs| > 0
    ensures |Join(sep, xs)| >= |xs[0]|
  {
  }

  /** Splitting the body on newlines gives back the paragraphs when none holds an inner newline. */
  lemma BodySplit(paragraphs: seq<string>)
    requires forall j :: 0 <= j < |StripNonBlank(paragraphs)| ==> '\n' !in StripNonBlank(paragraphs)[j]
    requires StripNonBlank(paragraphs) != []
    ensures Split(Body(paragraphs), "\n") == StripNonBlank(paragraphs)
  {
    SplitJoin("\n", StripNonBlank(paragraphs));
  }

  /** Every string kept by the filter, stated for all strings at once. */
  lemma KeptExactly(xs: seq<string>)
    ensures forall y :: y in StripNonBlank(xs) <==> y != "" && exists i :: 0 <= i < |xs| && Strip(xs[i]) == y
  {
    forall y
      ensures y in StripNonBlank(xs) <==> y != "" && exists i :: 0 <= i < |xs| && Strip(xs[i]) == y
    {
      StripNonBlankMembers(xs, y);
    }
  }

  /**
   * `parse_article(response)` for an article request's meta: the meta fields
   * copied over, categories and tags the stripped non-blank entries in page
   * order, and the body the kept paragraphs joined by newlines.
   */
  function ParseArticle(meta: Meta, page: ArticlePage): (a: NewsArticle)
    ensures a.title == (if meta.title.Some? then meta.title.value else "None")
    ensures a.publicationDate == meta.date && a.publicationTimestamp == meta.timestamp
    ensures a.url == page.url && a.summary == page.summary
    ensures a.category == StripNonBlank(page.categories) && a.tags == StripNonBlank(page.tags)
    ensures forall y :: y in a.category <==> y != "" && exists i :: 0 <= i < |page.categories| && Strip(page.categories[i]) == y
    ensures forall y :: y in a.tags <==> y != "" && exists i :: 0 <= i < |page.tags| && Strip(page.tags[i]) == y
    ensures a.content == Body(page.paragraphs)
    ensures a.content == "" <==> StripNonBlank(page.paragraphs) == []
  {
    KeptExactly(page.categories);
    KeptExactly(page.tags);
    NewsArticle(
      title := Format(if meta.title.Some? then JStr(meta.title.value) else JNull, _ => ""),
      publicationDate := meta.date,
      publicationTimestamp := meta.timestamp,
      url := page.url,
      category := StripNonBlank(page.categories),
      summary := page.summary,
      content := Body(page.paragraphs),
      tags := StripNonBlank(page.tags))
  }

  /** The item as the `dict` the pipeline stores. */
  function ItemRecord(a: NewsArticle): (r: Record)
    ensures r.Keys == {"title", "publication_date", "publication_timestamp", "url",
                       "category", "summary", "content", "tags"}
  {
    map[
      "title" := JStr(a.title),
      "publication_date" := JStr(a.publicationDate),
      "publication_timestamp" := JInt(a.publicationTimestamp),
      "url" := JStr(a.url),
      "category" := JList(seq(|a.category|, i requires 0 <= i < |a.category| => JStr(a.category[i]))),
      "summary" := if a.summary.Some? then JStr(a.summary.value) else JNull,
      "content" := JStr(a.content),
      "tags" := JList(seq(|a.tags|, i requires 0 <= i < |a.tags| => JStr(a.tags[i])))]
  }

  /** An article crawled from a listing request keeps that request's timestamp, inside the bounds. */
  lemma ArticleWithinBounds(page: ListingPage, bounds: Bounds, env: Env, i: nat, article: ArticlePage)
    requires i < |Parse(page, bounds, env).requests|
    requires Parse(page, bounds, env).requests[i].ArticleRequest?
    ensures var m := Parse(page, bounds, env).requests[i].meta;
      ParseArticle(m, article).publicationTimestamp == m.timestamp
      && InBounds(ParseArticle(m, article).publicationTimestamp, bounds)
  {
  }
}
