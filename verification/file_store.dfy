/**
 * The local file system as the pipeline sees it: directories, and files that
 * each hold one JSON object written by `json.dump`.
 */
module FileStore {

  import opened Wrappers
  import opened PyValues

  datatype Disk = Disk(dirs: set<string>, files: map<string, Record>)

  /** `os.makedirs(dir, exist_ok=True)`: the directory exists afterwards, files are untouched. */
  function MakeDirs(d: Disk, dir: string): (r: Disk)
    ensures dir in r.dirs && d.dirs <= r.dirs && r.files == d.files
    ensures forall x :: x in r.dirs ==> x in d.dirs || x == dir
  {
    d.(dirs := d.dirs + {dir})
  }

  /** `json.load(open(path))`: the object stored at `path`, or FileNotFoundError. */
  function Load(d: Disk, path: string): (r: Result<Record, Error>)
    ensures path in d.files <==> r.Ok?
    ensures r.Err? ==> r.error == FileNotFoundError(path)
  {
    if path in d.files then Ok(d.files[path]) else Err(FileNotFoundError(path))
  }

  /**
   * `json.dump(rec, open(path, 'w'))` for a file inside directory `dir`: the
   * file is replaced whole, and opening fails when the directory is missing.
   */
  function Save(d: Disk, dir: string, path: string, rec: Record): (r: Result<Disk, Error>)
    ensures r.Ok? <==> dir in d.dirs
    ensures r.Err? ==> r.error == FileNotFoundError(path)
    ensures r.Ok? ==> r.value.dirs == d.dirs && r.value.files.Keys == d.files.Keys + {path}
  {
    if dir in d.dirs then Ok(d.(files := d.files[path := rec])) else Err(FileNotFoundError(path))
  }

  /** A saved file reads back as written, and every other file reads as before. */
  lemma SaveLoad(d: Disk, dir: string, path: string, rec: Record, other: string)
    requires dir in d.dirs
    ensures Load(Save(d, dir, path, rec).value, path) == Ok(rec)
    ensures other != path ==> Load(Save(d, dir, path, rec).value, other) == Load(d, other)
  {
  }

  /** A save replaces the whole file: the earlier content of the path leaves no trace. */
  lemma SaveOverwrites(d: Disk, dir: string, path: string, a: Record, b: Record)
    requires dir in d.dirs
    ensures Save(Save(d, dir, path, a).value, dir, path, b) == Save(d, dir, path, b)
  {
    assert d.files[path := a][path := b] == d.files[path := b];
  }
}
