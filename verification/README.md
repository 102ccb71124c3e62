# Persian news pipeline: a Dafny model

This project models the core of a pipeline that crawls Persian news sites, cleans the articles, and annotates them with a sentiment. It covers the following parts:

- **Listing-page spider.** `BaseNewsSpider.parse` walks the blocks of an archive page. It reads each block's date, filters by `start_date`/`end_date`, yields article requests and follows the next page. `parse_article` turns an article page into a `NewsArticleItem`.
- **Date parser.** `parse_date` recognises ISO 8601, a Jalali date with a month name (`10 آذر 04 - 14:15`) and a numeric Jalali date (`1404-09-10 14:34`), after stripping the text and mapping Persian digits to ASCII.
- **Item pipeline.** `JsonPerPagePipeline` writes each item to `../data/raw/<spider>-<md5(url)>.json`.
- **Settings.** `ConfigManager` provides projections of the settings document, including the scheduler's spider list.
- **Scheduler and checkpoints.** The scheduler keeps one job per spider. The checkpoint file `<meta>/<spider>_last.json` is written by `write_last_timestamp` and read by `load_last_ts`.
- **Text cleaner.** `TextCleaner.clean` removes tags, normalises the text, removes symbols and collapses whitespace.
- **Preprocess worker.** It cleans title, content and summary, saves the message without `raw_filename`, publishes it and acknowledges it.
- **Sentiment engine and worker.** The worker analyses a cleaned article, stores the answer under `sentiment`, saves the article to `<clean_filename>.json` and acknowledges it.

Python values are a `Json` datatype, and exceptions are an `Error` datatype. Each operation that can raise returns `Result<_, Error>`, and the exceptions the model keeps appear as an `Err`; those it does not model are listed under "Left out". The foreign code is taken as function-typed parameters:

| foreign code | parameter |
|---|---|
| `datetime.fromisoformat`, `jdatetime` | `DateParser.Calendar` |
| `response.urljoin`, ISO rendering | `BaseSpider.Env` |
| MD5 | `md5` |
| hazm's `Normalizer`, the regex class `\w` | `CleanText.Cleaner` |
| the LLM provider | `SentimentEngine.Provider` |
| f-string rendering of non-strings | `reprOf` |
| the range `datetime.fromtimestamp` accepts | `accepts` |

The local disk is a set of directories plus a map from paths to JSON objects (`FileStore.Disk`). A worker's effects (save, publish, ack) are appended in order to a log (`Broker.World`). When a handler raises, the effects it made before the exception stay in the log.

Three behaviours of the code worth noting:

- The checkpoint write is unconditional, not monotonic. `Checkpoint.WriteUnconditional` and `Scheduler.LaterWriteWins` state this.
- A message missing a required field is not dropped and acknowledged. The handler raises `KeyError` and never acknowledges it (`PreprocessWorker.MissingKeyNoEffect`, `PreprocessWorker.NoAckOnError`).
- The sentiment worker publishes nothing, because its publish call is commented out (`SentimentWorker.NeverPublishes`).

## Model

| member | source | states |
|---|---|---|
| `BaseSpider.SpiderEnv` | scrapy_app/spiders/base_spider.py:77 | the deployed spider's date reader is `parse_date` itself, for every input text |
| `BaseSpider.DateOf` | scrapy_app/spiders/base_spider.py:77-79 | reading a block's date succeeds exactly when `parse_date` does and re-raises its exception otherwise; the ISO text and the timestamp kept are those of the one parsed instant |
| `BaseSpider.LinkOf` | scrapy_app/spiders/base_spider.py:87 | a URL exists exactly when `href` is truthy, and it is `urljoin` of the stripped `href` |
| `BaseSpider.Filter` | scrapy_app/spiders/base_spider.py:81-85 | a block is skipped as too new iff `end_date` is truthy and `ts > end_date`; the loop returns iff the block is not too new, `start_date` is truthy and `ts < start_date`; a block is accepted iff `ts` lies in the active bounds, and it then carries its link |
| `BaseSpider.BlockVerdict` | scrapy_app/spiders/base_spider.py:72-87 | a block is passed over iff its date is falsy; a failure carries `parse_date`'s exception; an accepted block carries the date `DateOf` reads |
| `BaseSpider.Emitted` | scrapy_app/spiders/base_spider.py:89-94 | a block yields at most one request, one exactly when it is accepted with a truthy URL, and that request's meta holds the title, the ISO date and the timestamp |
| `BaseSpider.Scan` | scrapy_app/spiders/base_spider.py:69-94 | the loop over the blocks yields only article requests |
| `BaseSpider.Parse` | scrapy_app/spiders/base_spider.py:53-98 | every article request the callback yields carries a timestamp inside the active bounds |
| `BaseSpider.ScanBounds` | scrapy_app/spiders/base_spider.py:81-94 | the loop never yields an article request outside the active bounds |
| `BaseSpider.RequestsInBoundsConcat` | scrapy_app/spiders/base_spider.py:90-98 | requests in bounds stay in bounds when the yields of two steps are put together |
| `BaseSpider.HaltIndex` | scrapy_app/spiders/base_spider.py:69-85 | the index of the first block that ends the loop by `return` or an exception, with no block before it ending it |
| `BaseSpider.HaltIndexFirst` | scrapy_app/spiders/base_spider.py:69-85 | any halting block before which nothing halts is the one `HaltIndex` finds |
| `BaseSpider.ScanIsPrefix` | scrapy_app/spiders/base_spider.py:69-94 | the loop yields exactly the requests of the blocks before the first halting one, in block order, and ends as that block says (a reference definition of the generator) |
| `BaseSpider.StopEndsPage` | scrapy_app/spiders/base_spider.py:84-85 | a block older than `start_date` ends the callback: no later block's request and no next-page request is yielded |
| `BaseSpider.Paginate` | scrapy_app/spiders/base_spider.py:96-98 | how the callback ended is kept; one request is appended exactly when the loop ran to its end and the next link is truthy, and it follows `urljoin` of that link; `NextPageLast` states the order |
| `BaseSpider.NextPageLast` | scrapy_app/spiders/base_spider.py:96-98 | the next-page request comes last, and is there exactly when the loop ran to its end and the page has a truthy next link |
| `BaseSpider.UndatedIgnored` | scrapy_app/spiders/base_spider.py:74-75 | inserting a block without a date anywhere in a page changes nothing the loop does |
| `BaseSpider.FalsyBoundIsNone` | scrapy_app/spiders/base_spider.py:82-84 | a bound of `0` behaves exactly like no bound, for either argument |
| `BaseSpider.EndBoundInclusive` | scrapy_app/spiders/base_spider.py:82-83 | a block stamped exactly `end_date` is kept |
| `BaseSpider.BlockVerdictAsWritten` | scrapy_app/spiders/base_spider.py:77-78 | as written, a dated block never gets past `.isoformat()`: it is passed over or it raises |
| `BaseSpider.ParseAsWritten` | scrapy_app/spiders/base_spider.py:53-98 | as written, the only request the callback can yield is the next-page request |
| `BaseSpider.AsWrittenYieldsNoArticle` | scrapy_app/spiders/base_spider.py:69-98 | as written, the callback yields no article request for any page, and it ends normally exactly when no block is dated |
| `BaseSpider.AsWrittenRaisesWhereIntendedYields` | scrapy_app/spiders/base_spider.py:77-94 | on a one-block page whose date parses and lies in bounds, the code as written raises AttributeError with nothing yielded, while the corrected loop yields the article request |
| `BaseSpider.SampleDateParses` | utils/date_parser.py:38-45 | the text `1404-9-10 14:34` parses to the calendar's instant for those fields |
| `BaseSpider.IsoformatCounterexample` | scrapy_app/spiders/base_spider.py:77-78 | a concrete page (one block dated `1404-9-10 14:34`, link `news/1`) on which the code as written raises and yields nothing, while the corrected spider yields a request |
| `BaseSpider.IsoformatFor` | scrapy_app/spiders/base_spider.py:77-79 | the same discrepancy for any parsable in-bounds date on a block linking `news/1` |
| `BaseSpider.Kept` | scrapy_app/spiders/base_spider.py:131-132 | one entry contributes at most one stripped, non-blank string |
| `BaseSpider.StripNonBlank` | scrapy_app/spiders/base_spider.py:130-133 | the comprehension keeps no more entries than it reads, each stripped and non-empty |
| `BaseSpider.StripNonBlankAppend` | scrapy_app/spiders/base_spider.py:146-149 | the comprehension works entry by entry: on a concatenation it is the concatenation of the parts, in order |
| `BaseSpider.StripNonBlankMembers` | scrapy_app/spiders/base_spider.py:146-149 | a string is kept exactly when it is non-empty and is the stripped form of some entry |
| `BaseSpider.StripNonBlankIdempotent` | scrapy_app/spiders/base_spider.py:141-142 | applying the comprehension again changes nothing |
| `BaseSpider.Body` | scrapy_app/spiders/base_spider.py:141-143 | the body is empty exactly when every paragraph is blank; `BodySplit` states that it splits back into the kept paragraphs |
| `BaseSpider.BodySplit` | scrapy_app/spiders/base_spider.py:141-143 | splitting the body on newlines gives back the kept paragraphs, when none holds an inner newline |
| `BaseSpider.ParseArticle` | scrapy_app/spiders/base_spider.py:120-152 | the item's title is `str(meta['title'])` (so `"None"` for a missing title); its date and timestamp come from the meta; its URL and summary come from the page; `category` and `tags` hold exactly the stripped non-blank entries of the page's lists, in order; `content` is the kept paragraphs joined by newlines, empty exactly when every paragraph is blank |
| `BaseSpider.ItemRecord` | scrapy_app/items.py:8-17 | `dict(item)` has exactly the eight item fields |
| `BaseSpider.ArticleWithinBounds` | scrapy_app/spiders/base_spider.py:120-126 | an article reached from a listing request keeps that request's timestamp, which is inside the bounds |
| `DateParser.DigitToAscii` | utils/date_parser.py:6-7 | a Persian digit becomes the ASCII digit of the same value; any other character is unchanged |
| `DateParser.ReplaceChar` | utils/date_parser.py:9 | `replace` of one character keeps the length and changes exactly the occurrences |
| `DateParser.DigitTables` | utils/date_parser.py:6-7 | the k-th characters of the two digit tables both have value k |
| `DateParser.ReplaceDigitsFromSpec` | utils/date_parser.py:8-9 | after the loop has replaced digits k to 9, every Persian digit has been mapped |
| `DateParser.FaToEnNumbers` | utils/date_parser.py:5-10 | the length is kept, each Persian digit becomes its ASCII digit, and every other character stays in place |
| `DateParser.FaToEnIdempotent` | utils/date_parser.py:5-10 | the output holds no Persian digit, and mapping it again changes nothing |
| `DateParser.FaToEnIdentity` | utils/date_parser.py:5-10 | text without Persian digits is left as it is |
| `DateParser.StripCommutes` | utils/date_parser.py:20 | stripping and digit mapping commute |
| `DateParser.LStripCommutes` | utils/date_parser.py:20 | the left strip and digit mapping commute |
| `DateParser.RStripCommutes` | utils/date_parser.py:20 | the right strip and digit mapping commute |
| `DateParser.MonthNameInverse` | utils/date_parser.py:13-17 | each month number has a name in `month_map` that maps back to it |
| `DateParser.MonthMapBijection` | utils/date_parser.py:13-17 | `month_map` maps its names onto 1..12, each key is the name of its number, and each of the twelve numbers has its name as a key, so there are exactly twelve keys |
| `DateParser.MonthNameLetters` | utils/date_parser.py:13-17 | every month name is one whitespace-free token of Persian letters |
| `DateParser.Normalise` | utils/date_parser.py:20 | the text the format tests see has no Persian digit and no whitespace at either end; `NormaliseIdempotent` states that normalising again changes nothing |
| `DateParser.Pivot` | utils/date_parser.py:32-34 | a year below 100, a negative one included, is moved up by exactly 1400, so 0..99 lands in 1400..1499; a year from 100 on is kept |
| `DateParser.ParseClock` | utils/date_parser.py:35 | the only exception is ValueError; a success means exactly one `:` between two texts `int()` reads, and gives their values; `ClockParse` states the converse |
| `DateParser.ParseMonthNameDate` | utils/date_parser.py:29-36 | the wrong number of ` - ` halves or of date fields raises ValueError; an unknown middle field raises KeyError naming it; a success has the `d <month> y - t` shape; `MonthNameRoundTrip` states the value |
| `DateParser.ParseNumericDate` | utils/date_parser.py:40-45 | text without two space-separated halves, three dash fields `int()` reads and a readable clock raises ValueError; a success has exactly one space; `NumericRoundTrip` states the value |
| `DateParser.ShapeOf` | utils/date_parser.py:23-39 | the ISO branch is taken exactly when the text holds `T`; both Jalali branches need a dash and no `T`, the numeric one a space too; text without `T` or `-` takes no branch; `ShapeBranches` states both Jalali tests in full |
| `DateParser.ShapeBranches` | utils/date_parser.py:28-39 | the month-name branch is taken exactly when the text has no `T`, a dash and a month name; the numeric branch exactly when it has no `T`, a dash, no month name and a space |
| `DateParser.MonthNameBranchTaken` | utils/date_parser.py:28-36 | normalised text without `T`, with a dash and a month name, is read by the month-name branch |
| `DateParser.NumericBranchTaken` | utils/date_parser.py:38-45 | normalised text without `T` or a month name, with a dash and a space, is read by the numeric branch |
| `DateParser.ParseDate` | utils/date_parser.py:19-48 | after normalising, text in the ISO shape goes to `fromisoformat` and text in no shape raises `ValueError("Unrecognized date format: ...")` with the normalised text; `IsoTakesPrecedence`, `MonthNameBranchRaises` and `NumericBranchNeedsFields` state the other branches |
| `DateParser.MonthNameBranchRaises` | utils/date_parser.py:28-31 | text that selects the month-name branch without the `d <month> y - t` shape raises ValueError or KeyError; the numeric test is never tried |
| `DateParser.NumericBranchNeedsFields` | utils/date_parser.py:39-44 | text that reaches the numeric branch without its fields raises ValueError, and a success has exactly one space |
| `DateParser.NormaliseIdempotent` | utils/date_parser.py:20 | normalising normalised text changes nothing |
| `DateParser.ParseDateNormalisesFirst` | utils/date_parser.py:20 | `parse_date` gives the same answer on the raw text and on its normalised form |
| `DateParser.ParseDateIgnoresDigitScript` | utils/date_parser.py:20 | two texts that differ only in Persian versus ASCII digits parse alike |
| `DateParser.IsoTakesPrecedence` | utils/date_parser.py:23-25 | any text containing `T` after normalising goes to `fromisoformat`, whatever else it contains |
| `DateParser.RejectsWithoutDash` | utils/date_parser.py:39-48 | normalised text without `T` or `-` raises `ValueError("Unrecognized date format: ...")` |
| `DateParser.RejectsDashOnly` | utils/date_parser.py:39-48 | text with a dash but no space and no month name raises the same ValueError |
| `DateParser.ClockParse` | utils/date_parser.py:35 | `h:mi` made of two fields that `int()` reads gives those two values |
| `DateParser.MonthTextParse` | utils/date_parser.py:27-36 | a month-name date built from well-formed fields reaches the calendar with those fields |
| `DateParser.NumericTextParse` | utils/date_parser.py:38-45 | a numeric date built from well-formed ASCII fields reaches the calendar with those fields |
| `DateParser.MonthNameRoundTrip` | utils/date_parser.py:27-36 | parsing `d <month> y - h:mi` gives the calendar's answer for those fields, with a year below 100 read as 1400 + year |
| `DateParser.NumericRoundTrip` | utils/date_parser.py:38-45 | parsing `y-mo-d h:mi` gives the calendar's answer for those fields, with the same year pivot |
| `Pipelines.OpenSpider` | scrapy_app/pipelines.py:16-18 | the output directory exists afterwards and no file changes |
| `Pipelines.RawFileName` | scrapy_app/pipelines.py:21 | the name is the spider name, a dash, the URL's digest and `.json`, each recoverable from it |
| `Pipelines.RawFileNameInjective` | scrapy_app/pipelines.py:21 | with digests of one length, two items share a file name only when they share the spider and the URL digest |
| `Pipelines.RawPath` | scrapy_app/pipelines.py:21-22 | the item's file lies directly in `../data/raw` and is named `<spider>-<md5(url)>.json`, unless the spider name is absolute |
| `Pipelines.ProcessItem` | scrapy_app/pipelines.py:20-25 | the write succeeds exactly when the directory exists; the item is returned unchanged, its file reads back as `dict(item)`, and exactly that path is added |
| `Pipelines.ProcessItemFrame` | scrapy_app/pipelines.py:23-24 | no file but the item's own changes |
| `Pipelines.ReprocessOverwrites` | scrapy_app/pipelines.py:21-24 | a second article with the same URL replaces the first in the one file |
| `Pipelines.ProcessItemIdempotent` | scrapy_app/pipelines.py:20-25 | processing an item twice leaves the disk as processing it once does |
| `ConfigManager.DictGet` | utils/config_manager.py:47 | `.get` works only on a dict (otherwise AttributeError) and gives the key's value or the default |
| `ConfigManager.Subscript` | utils/config_manager.py:90 | `v[key]` raises KeyError on a dict without the key and TypeError on anything but a dict |
| `ConfigManager.GetWebsites` | utils/config_manager.py:40-47 | raises exactly when the settings are not a dict; otherwise the `websites` section, or `{}` when it is absent |
| `ConfigManager.GetSite` | utils/config_manager.py:49-59 | TypeError when the settings are not a dict, KeyError('websites') when the section is absent, AttributeError when it is not a dict; otherwise the site's entry or `None` |
| `ConfigManager.SiteFromWebsites` | utils/config_manager.py:40-59 | `get_site` raises KeyError exactly where `get_websites` falls back to `{}`, and otherwise reads the section `get_websites` returns |
| `ConfigManager.GetPath` | utils/config_manager.py:61-68 | raises exactly when the settings are not a dict; otherwise the `path` section, or `None` when absent |
| `ConfigManager.GetModelInfo` | utils/config_manager.py:123-135 | succeeds exactly when the settings are a dict with a `model` section and gives it; otherwise KeyError('model'), or TypeError for settings that are not a dict |
| `ConfigManager.UnknownSiteIsNone` | utils/config_manager.py:59 | an unknown site reads as `None` |
| `ConfigManager.GetSpiderConfigs` | utils/config_manager.py:88-96 | no `websites` section gives `[]`; a non-dict section raises AttributeError('items'); otherwise the call succeeds exactly when every entry is a dict with an `end_date` key, and lists at most one config per entry; `SpiderConfigsMembers` states which |
| `ConfigManager.SpiderConfigsOf` | utils/config_manager.py:88-96 | the scheduler list is no longer than the website list |
| `ConfigManager.SpiderConfigsOk` | utils/config_manager.py:89-90 | the loop succeeds exactly when every entry is a dict with an `end_date` key |
| `ConfigManager.SpiderConfigsError` | utils/config_manager.py:89-90 | the first entry without a readable `end_date` decides the exception, KeyError for a dict |
| `ConfigManager.SpiderConfigsAppend` | utils/config_manager.py:88-96 | entries are handled one by one, in order: the list of a concatenation is the concatenation of the lists |
| `ConfigManager.SpiderConfigsMembers` | utils/config_manager.py:88-96 | a spider config is listed exactly when some entry has a falsy `end_date`, with that entry's name and its `interval` or 15 |
| `ConfigManager.ScheduledTail` | utils/config_manager.py:89 | an entry yielding a config is the first entry or one of the rest |
| `ConfigManager.DateConfigsOf` | utils/config_manager.py:114-121 | one entry per website, in order, with `start_date` defaulting to 15 and `end_date` to `None`; AttributeError when an entry is not a dict |
| `ConfigManager.GetWebsiteDateConfig` | utils/config_manager.py:114-121 | no `websites` section gives `[]`; a non-dict section raises AttributeError('items'); otherwise it succeeds exactly when every entry is a dict, with one config per website in order, each under the website's name |
| `Scheduler.TsFile` | scheduler/scrapy_scheduler.py:36-38 | the checkpoint lies directly in the meta directory, ends in `_last.json`, and the spider name can be read back from it |
| `Scheduler.SameCheckpointPath` | scheduler/scrapy_scheduler.py:36-38 | the reader and the writer use the same checkpoint path |
| `Scheduler.LoadLastTs` | scheduler/scrapy_scheduler.py:40-56 | a missing file raises FileNotFoundError; otherwise the stored `last_timestamp`, or 0 |
| `Scheduler.WriteThenLoad` | scheduler/scrapy_scheduler.py:54-56 | a checkpoint reads back as the timestamp last written |
| `Scheduler.LaterWriteWins` | scheduler/write_last_timestamp.py:19-21 | writing a smaller timestamp after a larger one makes the smaller one current |
| `Scheduler.WriteKeepsOthers` | scheduler/scrapy_scheduler.py:36-38 | a write leaves the checkpoints of other spiders as they were |
| `Scheduler.TsFileInjective` | scheduler/scrapy_scheduler.py:38 | different spiders have different checkpoint files |
| `Scheduler.ScheduleSpider` | scheduler/scrapy_scheduler.py:72-90 | an interval that is not a number raises TypeError and adds nothing; otherwise one job is added, at the end, for the spider and interval, with its first run now |
| `Scheduler.Start` | scheduler/scrapy_scheduler.py:98-99 | one job per config entry, in order, each with that entry's spider and interval; the loop raises TypeError exactly when some interval is not a number, at the first such entry, and keeps the jobs registered before it |
| `Scheduler.FromTimestamp` | scheduler/spider_runner.py:37 | `datetime.fromtimestamp` raises TypeError for anything but a number (a bool counts as one), raises for a number the clock cannot represent, and otherwise reads the number |
| `Scheduler.RunJob` | scheduler/scrapy_scheduler.py:58-70 | a missing checkpoint raises FileNotFoundError and a stored value that is not a number raises TypeError; the run reaches the crawl exactly when the checkpoint reads as a number the clock accepts, and crawls from that value |
| `Scheduler.RunAfterWrite` | scheduler/spider_runner.py:36-44 | after a checkpoint write, the spider's next run crawls from the written timestamp, or raises when the clock cannot represent it |
| `Scheduler.CrawlBounds` | scheduler/spider_runner.py:41-44 | the started spider gets no `end_date` and a `start_date` that `int()` reads |
| `Scheduler.BoundsAfterWrite` | scheduler/spider_runner.py:36-44 | after a checkpoint write of an accepted `ts`, the crawl filters from `ts` upward with no upper bound |
| `Checkpoint.CheckpointPath` | scheduler/write_last_timestamp.py:17 | the checkpoint lies directly in the meta directory, ends in `_last.json`, and the spider name can be read back from it |
| `Checkpoint.CheckpointRecord` | scheduler/write_last_timestamp.py:20 | the record holds only `last_timestamp` |
| `Checkpoint.WriteLastTimestamp` | scheduler/write_last_timestamp.py:5-21 | the directory exists afterwards, the checkpoint reads back as the new record, and exactly that path is added |
| `Checkpoint.WriteFrame` | scheduler/write_last_timestamp.py:17-21 | every other file reads as before |
| `Checkpoint.WriteUnconditional` | scheduler/write_last_timestamp.py:14-21 | a second write erases the first whatever the timestamps |
| `FileStore.MakeDirs` | workers/preprocess_worker.py:15 | the directory exists afterwards, no other directory appears, and files are untouched |
| `FileStore.Load` | scheduler/scrapy_scheduler.py:54-55 | a load succeeds exactly when the file exists, and FileNotFoundError names the path |
| `FileStore.Save` | workers/preprocess_worker.py:49-50 | a save succeeds exactly when the directory exists, keeps the directories, and adds exactly the path |
| `FileStore.SaveLoad` | workers/preprocess_worker.py:49-50 | a saved file reads back as written, and other files read as before |
| `FileStore.SaveOverwrites` | scrapy_app/pipelines.py:23-24 | opening with `'w'` replaces the whole file |
| `Broker.SaveIn` | workers/sentiment_worker.py:71-72 | a logged save reads back as written, adds exactly the path, and appends one `Saved` event |
| `Broker.SaveInFrame` | workers/sentiment_worker.py:71-72 | a logged save leaves other files as they were |
| `Broker.Publish` | utils/rabbitmq.py:45-54 | a publish succeeds unless the broker raises, and then appends exactly one `Published` event |
| `Broker.Ack` | workers/preprocess_worker.py:41 | an ack appends one `Acked` event and leaves the disk alone |
| `CleanText.CloseIn` | preprocessing/clean_text.py:30 | `.*?>` ends at the first `>`, which comes before any newline |
| `CleanText.StripTags` | preprocessing/clean_text.py:54 | tag substitution never lengthens the text and leaves text without `<` as it is; `StripTagsTagFree` states that no tag is left |
| `CleanText.OpenPreserved` | preprocessing/clean_text.py:54 | text in which no tag closes stays so after substitution |
| `CleanText.StripTagsTagFree` | preprocessing/clean_text.py:54 | after substitution no tag is left |
| `CleanText.StripTagsPlain` | preprocessing/clean_text.py:54 | text before the first `<` is copied unchanged |
| `CleanText.CloseInAfter` | preprocessing/clean_text.py:30 | a tag body without `>` or newline closes at the `>` after it |
| `CleanText.StripTagsSpan` | preprocessing/clean_text.py:54 | `a<m>b` becomes `a`, one space, then the substituted `b` |
| `CleanText.RemoveSymbols` | preprocessing/clean_text.py:60 | the length is kept, every output character is a word character, whitespace or in `آ`..`ی`, and those characters are kept in place |
| `CleanText.RemoveSymbolsIdempotent` | preprocessing/clean_text.py:60 | removing symbols twice is removing them once |
| `CleanText.Collapse` | preprocessing/clean_text.py:63 | collapsing never lengthens the text and leaves text without whitespace as it is; `CollapseStripTokens` states what it keeps |
| `CleanText.CollapseKeepsAllowed` | preprocessing/clean_text.py:63 | collapsing whitespace brings in no character but the space |
| `CleanText.CollapseStripTokens` | preprocessing/clean_text.py:63 | collapsing and stripping gives the whitespace-separated tokens joined by single spaces |
| `CleanText.JoinTokensTidy` | preprocessing/clean_text.py:63 | tokens joined by single spaces have no edge, double or non-space whitespace |
| `CleanText.StripKeepsAllowed` | preprocessing/clean_text.py:63 | stripping keeps text symbol-free |
| `CleanText.CleanString` | preprocessing/clean_text.py:53-65 | a cleaned string has no edge, doubled or non-space whitespace and only characters the symbol pattern keeps |
| `CleanText.CleanIsTokens` | preprocessing/clean_text.py:54-63 | `clean` of a string is the tokens of the symbol-free normalised text joined by single spaces |
| `CleanText.Clean` | preprocessing/clean_text.py:50-65 | any falsy value gives `''`; a truthy non-string raises TypeError; a non-empty string gives `CleanString` of it, the four steps in order, which `CleanIsTokens` and `CleanOutput` characterise |
| `CleanText.CleanOutput` | preprocessing/clean_text.py:34-65 | whatever `clean` returns is tidy and symbol-free |
| `CleanText.NoAngleBrackets` | preprocessing/clean_text.py:60 | when the word class holds neither `<` nor `>`, no `<` or `>` is left in what `clean` returns, whether or not the tag pattern matched it |
| `PyStrings.Strip` | scrapy_app/spiders/base_spider.py:87 | `strip()` leaves no whitespace at either end, and leaves text that has none unchanged |
| `PyStrings.StripFacts` | preprocessing/clean_text.py:63 | stripping keeps a contiguous middle slice and removes only whitespace; it gives `''` exactly for all-whitespace text |
| `PyStrings.JoinSplit` | scrapy_app/spiders/base_spider.py:142 | joining the pieces of a split with the same separator gives back the text |
| `PyStrings.SplitJoin` | sentiment_engine/engine.py:18-19 | split undoes join when no piece contains the separator's first character |
| `PyStrings.SplitCharCount` | utils/date_parser.py:35 | a one-character separator gives one more piece than it occurs |
| `PyStrings.SplitWs` | utils/date_parser.py:30 | `split()` gives non-empty tokens without whitespace |
| `PyStrings.IntParse` | utils/date_parser.py:32 | the only exception `int()` raises on a string is ValueError |
| `PyStrings.IntParseNat` | utils/date_parser.py:41 | `int(str(n)) == n` |
| `PyStrings.PathJoin` | workers/preprocess_worker.py:46 | an absolute second part replaces the first; otherwise the parts are joined with at most one `/` |
| `PyValues.ObjGet` | utils/config_manager.py:94 | a dict lookup finds a value exactly when the key is present, and the value is the one stored last under that key |
| `PyValues.ObjGetDistinct` | utils/config_manager.py:94 | with distinct keys, looking up an entry's key finds that entry |
| `PyValues.GetOr` | workers/sentiment_worker.py:48-53 | `get` gives the stored value or the default |
| `SentimentEngine.Strings` | sentiment_engine/engine.py:18 | a list is joinable exactly when all its items are strings |
| `SentimentEngine.JoinArg` | sentiment_engine/engine.py:18-19 | `", ".join(v)` succeeds exactly on a string list, a string or a dict, and raises TypeError otherwise |
| `SentimentEngine.JoinArgList` | sentiment_engine/engine.py:18-19 | a list of strings joins to the strings with the separator between them |
| `SentimentEngine.JoinArgRecoverable` | sentiment_engine/engine.py:18-19 | the joined argument splits back into the list when no entry holds a comma |
| `SentimentEngine.Analyze` | sentiment_engine/engine.py:12-20 | categories are joined before tags, a TypeError from either comes first, and otherwise the provider's answer is returned unchanged |
| `PreprocessWorker.CleanField` | workers/preprocess_worker.py:30 | `article[k] = clean(article[k])` raises KeyError when `k` is absent; on success the keys are kept, `k` holds the cleaned text and nothing else changes |
| `PreprocessWorker.CleanFields` | workers/preprocess_worker.py:30-32 | a missing title raises KeyError('title') and an uncleanable one the cleaner's error; a success keeps the keys and every field but the three text fields |
| `PreprocessWorker.CleanFieldsSpec` | workers/preprocess_worker.py:30-32 | cleaning succeeds exactly when all three fields are present and cleanable; a missing title is reported first; a success replaces exactly those three values |
| `PreprocessWorker.SaveTarget` | workers/preprocess_worker.py:45-47 | KeyError exactly when `raw_filename` is absent; otherwise the path from it, and the article with that key deleted and nothing else changed |
| `PreprocessWorker.OutputPath` | workers/preprocess_worker.py:46 | a `.json` file, in the output directory unless the rendered name is absolute; `OutputPathOfName` gives the path of a relative name |
| `PreprocessWorker.Output` | workers/preprocess_worker.py:30-47 | the message to save exists exactly when the three fields clean and `raw_filename` is present, KeyError('raw_filename') when only that is missing; its path comes from `raw_filename` and it no longer holds that key |
| `PreprocessWorker.Deliver` | workers/preprocess_worker.py:35-41 | save, publish and ack happen in that order; a missing directory raises FileNotFoundError with no effect; a failed publish leaves only the save; success appends exactly the three events |
| `PreprocessWorker.HandleMessage` | workers/preprocess_worker.py:27-41 | the handler ends normally exactly when cleaning and the filename succeed, the directory exists and the publish succeeds; its effects are those of `Deliver` on the cleaned message |
| `PreprocessWorker.SavesAfterInit` | workers/preprocess_worker.py:9-41 | after the constructor's `makedirs`, the handler ends normally exactly when the message cleans, has `raw_filename` and the publish succeeds, and the saved file reads back |
| `PreprocessWorker.NoAckOnError` | workers/preprocess_worker.py:27-41 | a handler that raised acknowledged nothing |
| `PreprocessWorker.MissingKeyNoEffect` | workers/preprocess_worker.py:30-35 | a missing field or filename raises before any effect; a missing filename after a clean success raises KeyError('raw_filename') |
| `PreprocessWorker.OutputSpec` | workers/preprocess_worker.py:43-50 | the saved message has the three fields cleaned, no `raw_filename`, and every other key as received |
| `PreprocessWorker.OutputAddsNoKey` | workers/preprocess_worker.py:43-50 | the worker adds no key to a message |
| `PreprocessWorker.OutputPathOfName` | workers/preprocess_worker.py:46 | a relative string filename names `<out_dir>/<name>.json` |
| `SentimentWorker.AnalyzeArticle` | workers/sentiment_worker.py:47-54 | when `categories` and `tags` join, the provider gets each text field or `''` when it is missing, and the two joined texts, `''` for a missing list; an unjoinable `categories` or `tags` raises TypeError |
| `SentimentWorker.OutputPath` | workers/sentiment_worker.py:68-69 | a `.json` file named after `clean_filename` (or `unknown`), in the output directory unless that name is absolute |
| `SentimentWorker.WithSentiment` | workers/sentiment_worker.py:56 | the answer is stored under `sentiment` and every other key is unchanged |
| `SentimentWorker.HandleMessage` | workers/sentiment_worker.py:40-62 | the handler ends normally exactly when the analysis succeeds and the directory exists; a raise leaves the world unchanged; success saves the enriched article and acks, in that order |
| `SentimentWorker.SavesAfterInit` | workers/sentiment_worker.py:24-62 | after the constructor's `makedirs`, the handler ends normally exactly when the analysis succeeds |
| `SentimentWorker.NeverPublishes` | workers/sentiment_worker.py:58-62 | the worker never publishes, and it acknowledges exactly when it ends normally |
| `SentimentWorker.UnknownFileName` | workers/sentiment_worker.py:68-69 | a message without `clean_filename` is saved to `<out_dir>/unknown.json` |
| `SentimentWorker.UnnamedMessagesShareOneFile` | workers/sentiment_worker.py:64-72 | two such messages overwrite the same file, and the second one wins |
| `SentimentWorker.CategoryNotRead` | workers/sentiment_worker.py:52 | the analysis never reads `category` |
| `SentimentWorker.ScrapedArticleArgs` | workers/sentiment_worker.py:47-54 | for a scraped item, which carries `category` and not `categories`, the provider sees empty categories and the tags joined by `", "` |
| `SentimentWorker.PreprocessedGoesToUnknown` | workers/sentiment_worker.py:68 | a message from the preprocess stage without `clean_filename` is saved to `unknown.json` |

## Left out

- Floating point: `parse_date` returns a float, and the model keeps the integer timestamp (`int(dt.timestamp())`). Fractional seconds are not modelled.
- Calendar arithmetic (`datetime.fromisoformat`, `jdatetime`, `togregorian`, `timestamp`) is the `Calendar` parameter, and ISO rendering is `Env.isoOf`.
- `int()` is modelled on surrounding whitespace, an optional sign and ASCII digits with underscore groups. Other Unicode decimal digits (which `int()` also reads) and Python's limit on digit count are not modelled.
- XPath evaluation, Scrapy's request scheduling, and `response.follow` URL resolution (taken as `urljoin`).
- MD5 (RFC 1321) is the `md5` parameter.
- hazm's `Normalizer` and the Unicode class `\w` are `Cleaner` parameters. The regex engine is modelled only for the three patterns the cleaner uses.
- The YAML file and `yaml.safe_load`: the model starts from the parsed document. Dict key order is the order of the parsed pairs.
- File content is a JSON object per path. The formatting options of `json.dump` and files holding non-object JSON are not modelled.
- A save checks only that the output directory exists. A filename containing `/` that points into a missing subdirectory is treated as living in the output directory.
- RabbitMQ networking, queue declaration, consuming, `json.loads` of message bodies, and redelivery. A publish failure is given as a parameter, and a failing ack is not modelled.
- APScheduler's clock, the asyncio event loop, and the log prints. A job is the record `add_job` registers.
- `Scheduler.ScheduleSpider`: a float interval (floats are not modelled) and what APScheduler does with a zero or negative number of minutes are not modelled; every int or bool interval is registered as given.
- `SentimentEngine.JoinArg`: a dict's keys are joined in the order of the parsed pairs, so a key repeated in the parsed text is joined once per occurrence, where a Python dict holds it once. The result is exact for objects whose keys are distinct (`PyValues.DistinctKeys`).
- Scrapy's `CrawlerRunner` and the Twisted deferred in `spider_runner.py`: a job's run ends at the crawl call it starts. The range `datetime.fromtimestamp` accepts is the `accepts` parameter, and the OverflowError, ValueError or OSError it raises outside that range is one `ForeignError`.
- `BaseSpider.Bounds`: `start_date` and `end_date` are integers. A bound given as a command-line string, which `int()` at `base_spider.py` lines 82 and 84 could reject, is not modelled; the scheduler passes only the checkpoint number (`Scheduler.CrawlBounds`).
- The LLM providers and prompt loading in the sentiment worker's constructor.
- `ConfigManager.SpiderConfigsOf`: its own contract bounds only the length, and `SpiderConfigsOk`, `SpiderConfigsError`, `SpiderConfigsMembers` and `SpiderConfigsAppend` state the rest. The loop runs over the parsed pairs. When the settings text repeats a site key, Python's dict holds that site once, with the value written last (as `PyValues.ObjGet` reads it), but the loop sees every occurrence. Its result is exact for settings whose keys are distinct (`PyValues.DistinctKeys`).
- `ConfigManager.DateConfigsOf`: the same holds for repeated site keys. It gives one entry per parsed pair, which is exact for settings whose keys are distinct.

## Findings

| source | as written | input that shows it | evidently intended | confidence | as-written member | corrected member |
|---|---|---|---|---|---|---|
| scrapy_app/spiders/base_spider.py:77-79 | `parse_date` returns a float timestamp (utils/date_parser.py:25, 36, 45), and `parse` calls `.isoformat()` and `.timestamp()` on it, which raises AttributeError | a listing page with one block dated `1404-9-10 14:34` that the calendar accepts, linked `news/1` and inside the bounds (`BaseSpider.IsoformatCounterexample`) | keep the ISO text and whole-second timestamp of the parsed instant, and yield the article request when the block passes the filter | high; not executed | `BaseSpider.ParseAsWritten` | `BaseSpider.Parse` |
