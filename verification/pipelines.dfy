/**
 * The item pipeline `JsonPerPagePipeline` (`scrapy_app/pipelines.py`): every
 * scraped article is written as one JSON file under `../data/raw`, named
 * after the spider and the MD5 digest of the article URL. MD5 (RFC 1321) is
 * taken as a parameter.
 */
module Pipelines {

  import opened Wrappers
  import opened PyValues
  import opened PyStrings
  import opened FileStore
  import opened BaseSpider

  /** `self.output_dir`. */
  const RawDir: string := "../data/raw"

  /** `open_spider`: the output directory exists afterwards. */
  function OpenSpider(d: Disk): (r: Disk)
    ensures RawDir in r.dirs && r.files == d.files
  {
    MakeDirs(d, RawDir)
  }

  /** `spider.name + '-' + sanitize_filename(url) + ".json"`: the spider, a dash, the digest, `.json`. */
  function RawFileName(spider: string, url: string, md5: string -> string): (name: string)
    ensures |name| == |spider| + |md5(url)| + 6
    ensures name[..|spider| + 1] == spider + "-" && name[|name| - 5..] == ".json"
    ensures name[|spider| + 1..|name| - 5] == md5(url)
  {
    spider + "-" + md5(url) + ".json"
  }

  /**
   * MD5 digests have one length, so a file name determines the spider and
   * the digest: two items share a file only when they come from the same
   * spider and their URLs have the same digest.
   */
  lemma RawFileNameInjective(s1: string, u1: string, s2: string, u2: string, md5: string -> string)
    requires |md5(u1)| == |md5(u2)|
    requires RawFileName(s1, u1, md5) == RawFileName(s2, u2, md5)
    ensures s1 == s2 && md5(u1) == md5(u2)
  {
    var n := RawFileName(s1, u1, md5);
    assert |s1| == |s2|;
    assert s1 + "-" == n[..|s1| + 1] == s2 + "-";
    assert s1 == (s1 + "-")[..|s1|] && s2 == (s2 + "-")[..|s2|];
  }

  /**
   * `os.path.join(output_dir, filename)`: the file sits directly in the
   * output directory, unless the spider name is an absolute path.
   */
  function RawPath(spider: string, url: string, md5: string -> string): (p: string)
    ensures |spider| == 0 || spider[0] != '/' ==> p == RawDir + "/" + RawFileName(spider, url, md5)
    ensures |spider| > 0 && spider[0] == '/' ==> p == RawFileName(spider, url, md5)
  {
    var name := RawFileName(spider, url, md5);
    assert |spider| > 0 ==> name[0] == spider[0];
    PathJoin(RawDir, name)
  }

  /**
   * `process_item(item, spider)`: `dict(item)` is written over the item's
   * file and the item itself is handed on unchanged.
   */
  function ProcessItem(d: Disk, spider: string, item: NewsArticle, md5: string -> string)
    : (r: Result<(Disk, NewsArticle), Error>)
    ensures r.Ok? <==> RawDir in d.dirs
    ensures r.Err? ==> r.error == FileNotFoundError(RawPath(spider, item.url, md5))
    ensures r.Ok? ==> && r.value.1 == item
                      && Load(r.value.0, RawPath(spider, item.url, md5)) == Ok(ItemRecord(item))
                      && r.value.0.files.Keys == d.files.Keys + {RawPath(spider, item.url, md5)}
  {
    var path := RawPath(spider, item.url, md5);
    var d' :- Save(d, RawDir, path, ItemRecord(item));
    SaveLoad(d, RawDir, path, ItemRecord(item), path);
    Ok((d', item))
  }

  /** No file other than the item's own is touched. */
  lemma ProcessItemFrame(d: Disk, spider: string, item: NewsArticle, md5: string -> string, other: string)
    requires RawDir in d.dirs && other != RawPath(spider, item.url, md5)
    ensures Load(ProcessItem(d, spider, item, md5).value.0, other) == Load(d, other)
  {
    SaveLoad(d, RawDir, RawPath(spider, item.url, md5), ItemRecord(item), other);
  }

  /**
   * Scraping the same URL again with the same spider rewrites the one file:
   * the second article replaces the first and no second file appears.
   */
  lemma ReprocessOverwrites(d: Disk, spider: string, a: NewsArticle, b: NewsArticle, md5: string -> string)
    requires RawDir in d.dirs && a.url == b.url
    ensures var d1 := ProcessItem(d, spider, a, md5).value.0;
      && ProcessItem(d1, spider, b, md5).Ok?
      && ProcessItem(d1, spider, b, md5).value.0 == ProcessItem(d, spider, b, md5).value.0
  {
    var path := RawPath(spider, a.url, md5);
    SaveOverwrites(d, RawDir, path, ItemRecord(a), ItemRecord(b));
  }

  /** Processing an item twice leaves the disk as processing it once. */
  lemma ProcessItemIdempotent(d: Disk, spider: string, item: NewsArticle, md5: string -> string)
    requires RawDir in d.dirs
    ensures var d1 := ProcessItem(d, spider, item, md5).value.0;
      ProcessItem(d1, spider, item, md5).value.0 == d1
  {
    var path := RawPath(spider, item.url, md5);
    SaveOverwrites(d, RawDir, path, ItemRecord(item), ItemRecord(item));
  }
}
