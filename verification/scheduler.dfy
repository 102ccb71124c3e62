/**
 * `ScrapyScheduler` (`scheduler/scrapy_scheduler.py`): the checkpoint reader
 * and the job table. APScheduler's clock is not modelled: a job is the
 * record the scheduler registers, and running it is what the job's callback
 * does up to starting the crawl.
 */
module Scheduler {

  import opened Wrappers
  import opened PyValues
  import opened FileStore
  import opened ConfigManager
  import opened Checkpoint
  import BaseSpider

  /** `ts_file(spider)`: a file directly in the meta directory whose name gives the spider back. */
  function TsFile(metaDir: string, spider: string): (p: string)
    ensures |p| == |metaDir| + |spider| + 11
    ensures p[..|metaDir| + 1] == metaDir + "/" && p[|p| - 10..] == "_last.json"
    ensures p[|metaDir| + 1..|p| - 10] == spider
  {
    metaDir + "/" + spider + "_last.json"
  }

  /** The reader and the writer agree on where a spider's checkpoint lives. */
  lemma SameCheckpointPath(metaDir: string, spider: string)
    ensures TsFile(metaDir, spider) == CheckpointPath(metaDir, spider)
  {
  }

  /** `load_last_ts(spider)`: the stored `last_timestamp`, 0 when the record lacks it. */
  function LoadLastTs(d: Disk, metaDir: string, spider: string): (r: Result<Json, Error>)
    ensures TsFile(metaDir, spider) !in d.files <==> r.Err?
    ensures r.Err? ==> r.error == FileNotFoundError(TsFile(metaDir, spider))
    ensures r.Ok? ==> r.value == GetOr(d.files[TsFile(metaDir, spider)], "last_timestamp", JInt(0))
  {
    var data :- Load(d, TsFile(metaDir, spider));
    Ok(GetOr(data, "last_timestamp", JInt(0)))
  }

  /** A checkpoint reads back as the timestamp last written for that spider. */
  lemma WriteThenLoad(d: Disk, spider: string, ts: int, metaDir: string)
    ensures LoadLastTs(WriteLastTimestamp(d, spider, ts, metaDir), metaDir, spider) == Ok(JInt(ts))
  {
    SameCheckpointPath(metaDir, spider);
  }

  /** Writing a smaller timestamp after a larger one makes the smaller one current. */
  lemma LaterWriteWins(d: Disk, spider: string, larger: int, smaller: int, metaDir: string)
    requires smaller < larger
    ensures var d2 := WriteLastTimestamp(WriteLastTimestamp(d, spider, larger, metaDir), spider, smaller, metaDir);
      LoadLastTs(d2, metaDir, spider) == Ok(JInt(smaller))
  {
    WriteThenLoad(WriteLastTimestamp(d, spider, larger, metaDir), spider, smaller, metaDir);
  }

  /** Checkpoints of other spiders are not disturbed by a write. */
  lemma WriteKeepsOthers(d: Disk, spider: string, other: string, ts: int, metaDir: string)
    requires other != spider
    ensures LoadLastTs(WriteLastTimestamp(d, spider, ts, metaDir), metaDir, other) == LoadLastTs(d, metaDir, other)
  {
    SameCheckpointPath(metaDir, spider);
    if TsFile(metaDir, other) == TsFile(metaDir, spider) {
      TsFileInjective(metaDir, other, spider);
    }
    WriteFrame(d, spider, ts, metaDir, TsFile(metaDir, other));
  }

  /** Different spiders have different checkpoint files. */
  lemma TsFileInjective(metaDir: string, a: string, b: string)
    requires TsFile(metaDir, a) == TsFile(metaDir, b)
    ensures a == b
  {
    var pa := TsFile(metaDir, a);
    var pb := TsFile(metaDir, b);
    assert |a| == |b|;
    var k := |metaDir| + 1;
    forall i | 0 <= i < |a|
      ensures a[i] == b[i]
    {
      assert pa[k + i] == a[i];
      assert pb[k + i] == b[i];
    }
  }

  // ---------------------------------------------------------------------------
  // Jobs
  // ---------------------------------------------------------------------------

  /** One APScheduler job: run `spider` every `interval` minutes, first at `nextRunTime`. */
  datatype Job = Job(spider: string, intervalMinutes: Json, nextRunTime: int)

  /**
   * `schedule_spider(spider, interval)`: one more job whose first run is now.
   * `add_job(trigger='interval', minutes=interval)` builds the trigger at
   * once, and `timedelta(minutes=interval)` raises TypeError for an interval
   * that is not a number, so no job is added then.
   */
  function ScheduleSpider(jobs: seq<Job>, spider: string, interval: Json, now: int): (r: Result<seq<Job>, Error>)
    ensures r.Err? <==> !IsNumber(interval)
    ensures r.Err? ==> r.error == TypeError
    ensures r.Ok? ==> |r.value| == |jobs| + 1 && r.value[..|jobs|] == jobs
    ensures r.Ok? ==> r.value[|jobs|] == Job(spider, interval, now)
  {
    if !IsNumber(interval) then Err(TypeError)
    else Ok(jobs + [Job(spider, interval, now)])
  }

  /**
   * The job-registering loop of `start()`: one job per config entry, in
   * order, until an entry whose interval is not a number raises; the jobs
   * registered before it stay registered.
   */
  method Start(configs: seq<SpiderConfig>, now: int) returns (jobs: seq<Job>, raised: Option<Error>)
    ensures raised.None? <==> forall i :: 0 <= i < |configs| ==> IsNumber(configs[i].interval)
    ensures raised.None? ==> |jobs| == |configs|
    ensures raised.Some? ==> && raised.value == TypeError
                             && |jobs| < |configs| && !IsNumber(configs[|jobs|].interval)
    ensures |jobs| <= |configs|
    ensures forall i :: 0 <= i < |jobs| ==>
      IsNumber(configs[i].interval) && jobs[i] == Job(configs[i].spider, configs[i].interval, now)
  {
    jobs := [];
    raised := None;
    var k := 0;
    while k < |configs|
      invariant 0 <= k <= |configs| && |jobs| == k
      invariant forall i :: 0 <= i < k ==>
        IsNumber(configs[i].interval) && jobs[i] == Job(configs[i].spider, configs[i].interval, now)
    {
      var r := ScheduleSpider(jobs, configs[k].spider, configs[k].interval, now);
      if r.Err? {
        raised := Some(r.error);
        return;
      }
      jobs := r.value;
      k := k + 1;
    }
  }

  /** What a job's callback starts: the crawl of one spider from a start timestamp. */
  datatype CrawlCall = CrawlCall(spider: string, startDate: Json)

  /** A JSON value Python reads as an integer: an int, or a bool (`True` is 1). */
  predicate IsNumber(v: Json) {
    v.JInt? || v.JBool?
  }

  /** The integer a number stands for. */
  function NumberValue(v: Json): int
    requires IsNumber(v)
  {
    if v.JInt? then v.i else if v.b then 1 else 0
  }

  /**
   * `datetime.fromtimestamp(v)`: TypeError for anything but a number, and
   * for a number the platform's clock library cannot represent
   * (`accepts(n)` false), the OverflowError, ValueError or OSError it
   * raises, here one `ForeignError`.
   */
  function FromTimestamp(v: Json, accepts: int -> bool): (r: Result<int, Error>)
    ensures !IsNumber(v) ==> r == Err(TypeError)
    ensures IsNumber(v) ==> (r.Ok? <==> accepts(NumberValue(v)))
    ensures IsNumber(v) && r.Err? ==> r.error == ForeignError("fromtimestamp")
    ensures r.Ok? ==> r.value == NumberValue(v)
  {
    if !IsNumber(v) then Err(TypeError)
    else if accepts(NumberValue(v)) then Ok(NumberValue(v))
    else Err(ForeignError("fromtimestamp"))
  }

  /**
   * `run_single_spider(spider)`: the runner asks `load_last_ts` for the
   * spider's checkpoint, turns it into a datetime for its log line, and
   * crawls from it. A missing checkpoint file, a stored value that is not a
   * number, and a number out of the clock's range all raise before the crawl.
   */
  function RunJob(d: Disk, metaDir: string, job: Job, accepts: int -> bool): (r: Result<CrawlCall, Error>)
    ensures LoadLastTs(d, metaDir, job.spider).Err? ==> r == Err(FileNotFoundError(TsFile(metaDir, job.spider)))
    ensures LoadLastTs(d, metaDir, job.spider).Ok? && !IsNumber(LoadLastTs(d, metaDir, job.spider).value) ==>
      r == Err(TypeError)
    ensures r.Ok? <==> && LoadLastTs(d, metaDir, job.spider).Ok?
                       && IsNumber(LoadLastTs(d, metaDir, job.spider).value)
                       && accepts(NumberValue(LoadLastTs(d, metaDir, job.spider).value))
    ensures r.Ok? ==> r.value == CrawlCall(job.spider, LoadLastTs(d, metaDir, job.spider).value)
  {
    var last :- LoadLastTs(d, metaDir, job.spider);
    var _ :- FromTimestamp(last, accepts);
    Ok(CrawlCall(job.spider, last))
  }

  /**
   * After a checkpoint write, the spider's next run crawls from the written
   * timestamp, or raises when the clock cannot represent it.
   */
  lemma RunAfterWrite(d: Disk, metaDir: string, job: Job, ts: int, accepts: int -> bool)
    ensures RunJob(WriteLastTimestamp(d, job.spider, ts, metaDir), metaDir, job, accepts)
      == if accepts(ts) then Ok(CrawlCall(job.spider, JInt(ts))) else Err(ForeignError("fromtimestamp"))
  {
    WriteThenLoad(d, job.spider, ts, metaDir);
  }

  /**
   * The bounds the started spider gets: `start_date` is the checkpoint
   * number, which `int(...)` reads without raising, and `end_date` is not
   * passed.
   */
  function CrawlBounds(c: CrawlCall): (b: BaseSpider.Bounds)
    requires IsNumber(c.startDate)
    ensures b.end.None? && b.start.Some?
    ensures c.startDate.JInt? ==> b.start == Some(c.startDate.i)
  {
    BaseSpider.Bounds(Some(NumberValue(c.startDate)), None)
  }

  /** A crawl started after a checkpoint write of `ts` filters from `ts` upward only. */
  lemma BoundsAfterWrite(d: Disk, metaDir: string, job: Job, ts: int, accepts: int -> bool)
    requires accepts(ts)
    ensures var r := RunJob(WriteLastTimestamp(d, job.spider, ts, metaDir), metaDir, job, accepts);
      r.Ok? && IsNumber(r.value.startDate) && CrawlBounds(r.value) == BaseSpider.Bounds(Some(ts), None)
  {
    RunAfterWrite(d, metaDir, job, ts, accepts);
  }
}
