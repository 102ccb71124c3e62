/**
 * `write_last_timestamp` (`scheduler/write_last_timestamp.py`): the
 * checkpoint record of one spider, `{'last_timestamp': timestamp}`, written
 * to `<meta_dir>/<spider>_last.json`.
 */
module Checkpoint {

  import opened Wrappers
  import opened PyValues
  import opened FileStore

  /**
   * `f'{meta_dir}/{spider_name}_last.json'`: a file directly in `meta_dir`
   * whose name gives the spider back.
   */
  function CheckpointPath(metaDir: string, spider: string): (p: string)
    ensures |p| == |metaDir| + |spider| + 11
    ensures p[..|metaDir| + 1] == metaDir + "/" && p[|p| - 10..] == "_last.json"
    ensures p[|metaDir| + 1..|p| - 10] == spider
  {
    metaDir + "/" + spider + "_last.json"
  }

  /** The record written: `{'last_timestamp': timestamp}`. */
  function CheckpointRecord(ts: int): (r: Record)
    ensures r.Keys == {"last_timestamp"} && r["last_timestamp"] == JInt(ts)
  {
    map["last_timestamp" := JInt(ts)]
  }

  /**
   * `write_last_timestamp(spider, ts, meta_dir)`: create the directory when
   * missing, then overwrite the spider's checkpoint whatever it held before.
   */
  function WriteLastTimestamp(d: Disk, spider: string, ts: int, metaDir: string): (r: Disk)
    ensures metaDir in r.dirs && d.dirs <= r.dirs
    ensures Load(r, CheckpointPath(metaDir, spider)) == Ok(CheckpointRecord(ts))
    ensures r.files.Keys == d.files.Keys + {CheckpointPath(metaDir, spider)}
  {
    var d1 := if metaDir in d.dirs then d else MakeDirs(d, metaDir);
    var path := CheckpointPath(metaDir, spider);
    SaveLoad(d1, metaDir, path, CheckpointRecord(ts), path);
    Save(d1, metaDir, path, CheckpointRecord(ts)).value
  }

  /** Only the spider's own checkpoint changes; every other file reads as before. */
  lemma WriteFrame(d: Disk, spider: string, ts: int, metaDir: string, other: string)
    requires other != CheckpointPath(metaDir, spider)
    ensures Load(WriteLastTimestamp(d, spider, ts, metaDir), other) == Load(d, other)
  {
    var d1 := if metaDir in d.dirs then d else MakeDirs(d, metaDir);
    SaveLoad(d1, metaDir, CheckpointPath(metaDir, spider), CheckpointRecord(ts), other);
  }

  /**
   * The write is unconditional: a later write wins even with a smaller
   * timestamp, and leaves no trace of the earlier one.
   */
  lemma WriteUnconditional(d: Disk, spider: string, a: int, b: int, metaDir: string)
    ensures WriteLastTimestamp(WriteLastTimestamp(d, spider, a, metaDir), spider, b, metaDir)
         == WriteLastTimestamp(MakeDirs(d, metaDir), spider, b, metaDir)
  {
    var path := CheckpointPath(metaDir, spider);
    var d1 := if metaDir in d.dirs then d else MakeDirs(d, metaDir);
    assert MakeDirs(d, metaDir) == d1.(dirs := d1.dirs + {metaDir});
    assert d1.dirs + {metaDir} == d1.dirs;
    SaveOverwrites(d1, metaDir, path, CheckpointRecord(a), CheckpointRecord(b));
  }
}
