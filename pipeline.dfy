/** `main` end to end: check the selection, make sure its files are in the
    cache, then load every chunk of every file through one loader whose
    latch starts unset. Reading a file into chunks is an input (`read`), as
    are the server's answers (`respond`) and the table name. */
module Pipeline {
  import opened Wrappers
  import opened Selection
  import opened Downloads
  import opened Driver

  /** The chunks of each file, in the order of `paths`. */
  function ReadAll(paths: seq<string>, read: string -> seq<Batch>): (files: seq<seq<Batch>>)
    ensures |files| == |paths|
  {
    seq(|paths|, i requires 0 <= i < |paths| => read(paths[i]))
  }

  /** `main`: a refused selection stops before any download or database
      command; otherwise the files of the selection are fetched as needed
      and the session receives exactly the reference log for their chunks. */
  method Ingest(yearsArg: string, monthsArg: string, table: string, cache: CacheDir,
                respond: string -> int, read: string -> seq<Batch>)
    returns (r: Result<seq<string>, SelectionError>, log: seq<Command>)
    requires cache.Valid()
    modifies cache
    ensures cache.Valid()
    ensures Select(yearsArg, monthsArg).Err? ==>
      r == Err(Select(yearsArg, monthsArg).error) && log == [] && unchanged(cache)
    ensures Select(yearsArg, monthsArg).Ok? ==>
      var sel := Select(yearsArg, monthsArg).value;
      var run := DownloadAll(cache.root, old(cache.Names()), FileNames(sel.years, sel.months), respond);
      && r == Ok(Collect(run.results))
      && cache.Reached(run, old(cache.Names()), old(cache.present), old(cache.requests))
      && log == RunLog(table, Flatten(ReadAll(r.value, read)))
  {
    var parsedYears := ParseNumbers(yearsArg);
    if parsedYears.Err? {
      return Err(Unparsable("years")), [];
    }
    var parsedMonths := ParseNumbers(monthsArg);
    if parsedMonths.Err? {
      return Err(Unparsable("months")), [];
    }
    var years, months := parsedYears.value, parsedMonths.value;
    var e := CheckBounds(years, months);
    if e.Some? {
      return Err(e.value), [];
    }
    var paths := cache.EnsureFilesExist(years, months, respond);
    var loader := new Loader(table);
    var files := ReadAll(paths, read);
    loader.Run(files);
    ChunksLogFresh(table, Flatten(files));
    assert [] + ChunksLog(table, None, Flatten(files)) == ChunksLog(table, None, Flatten(files));
    return Ok(paths), loader.session;
  }
}
