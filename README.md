# NYC yellow-taxi ingestion pipeline, modelled in Dafny

This project models the core of `module-01-pipeline/pipeline.py`, a command-line job that
loads monthly NYC yellow-taxi trip files into a Cassandra table. The job works in four steps:

1. `parse_numbers` turns the `--years` and `--months` arguments into lists of integers. An
   argument is either a range `a-b` or a comma list.
2. `main` refuses a selection with a month outside 1..12 or a year outside 2019..2021.
3. `ensure_files_exist` names one file per (year, month) pair, `yellow_tripdata_{year}-{MM}.csv.gz`.
   It asks `download_file` for each name. `download_file` answers from the local cache directory
   when the file is there. Otherwise it fetches the file over HTTP and stores it on a 2xx answer.
   The paths of the calls that succeeded are collected in request order.
4. The driver loop in `main` reads every file in chunks. On the first chunk only, a latch
   (`one_timer_executed`) lets it drop and re-create the table from the schema text pandas
   derives, and prepare one INSERT statement. Every chunk's rows are then written through that
   statement.

The modules:

- `Wrappers`: `Option` and `Result`.
- `Text`: the Python string operations used.
  - Digits, `int()` on a digit run, `str()` of a natural number, `f"{m:02d}"`.
  - `split`, `join`, `replace`, `count`.
- `Selection`: `parse_numbers`, the two bound-checking loops, and the parse-then-check sequence
  at the start of `main`.
- `Downloads`:
  - the file names;
  - the result collection;
  - the download decision against the cache as a pure function;
  - the class `CacheDir`, whose fields are the cache directory (whether it exists and what
    `os.listdir` lists) plus a ghost log of the URLs requested, and whose methods are
    `is_file_cached`, `download_file` (split at its `await asyncio.to_thread` into the cache
    check and `Transfer`) and `ensure_files_exist` (a first pass in which every task checks the
    cache, then a second in which every task completes).
- `Driver`:
  - the table definition and INSERT text;
  - the reference log of database commands;
  - the class `Loader`, which holds the latch, the prepared statement and the session's command
    log, with the loop over files and chunks.
- `Pipeline`: `main` end to end.

The outside world enters only through parameters:

- the HTTP status the server answers for each name (`respond`);
- the chunks pandas reads from each file (`read`, each chunk with its column names, its
  `get_schema` text and its rows);
- the table name.

The database session is modelled as the sequence of commands sent to it.

## Model

| member | source | states |
|---|---|---|
| Selection.ParseNumbers | module-01-pipeline/pipeline.py:86-100 | an accepted argument gives at least one number |
| Selection.ParseAcceptsExactly | module-01-pipeline/pipeline.py:29-30 | a string is accepted iff it fully matches `\d+(,\d+)*`, or `\d+-\d+` with start below end; start-not-below-end is the error exactly for ranges with `a >= b`; the not-numbers error exactly for strings matching neither pattern |
| Selection.ParseRange | module-01-pipeline/pipeline.py:87-92 | digits `a`, `-`, digits `b` gives `Interval(a, b)` when `a < b` and the start-not-below-end error when `a >= b` |
| Selection.RangeExpandsInclusive | module-01-pipeline/pipeline.py:88-92 | an accepted range gives `hi - lo + 1` numbers from `lo` to `hi`, each one more than the one before |
| Selection.Interval | module-01-pipeline/pipeline.py:92 | `list(range(lo, hi + 1))` has `hi - lo + 1` elements, the `i`-th being `lo + i` |
| Selection.ParseList | module-01-pipeline/pipeline.py:94-96 | comma-joined digit runs give one number per field, the field's value, in input order |
| Selection.ParseShownList | module-01-pipeline/pipeline.py:94-96 | printing numbers with commas and parsing them gives the numbers back |
| Selection.ParseShownRange | module-01-pipeline/pipeline.py:87-92 | printing `a-b` and parsing it gives `a..b` when `a < b`, the error otherwise |
| Selection.ListFormIsNotRangeForm | module-01-pipeline/pipeline.py:29-30 | no string matches both patterns |
| Selection.RangeFormOf | module-01-pipeline/pipeline.py:30 | two digit runs around a dash match the range pattern and `split("-", 1)` returns them |
| Selection.RangeFormShape | module-01-pipeline/pipeline.py:30 | every range-pattern match is its two halves around the dash |
| Selection.ListFormOf | module-01-pipeline/pipeline.py:29 | comma-joined digit runs match the list pattern and `split(",")` returns them |
| Selection.ListFormShape | module-01-pipeline/pipeline.py:29 | every list-pattern match is its fields joined by commas |
| Selection.ListWithRangeRejected | module-01-pipeline/pipeline.py:29-30 | `a,b-c` matches neither pattern and is rejected |
| Selection.AcceptsSingleNumber | module-01-pipeline/test_main.py:8 | `"2024"` gives `[2024]` |
| Selection.AcceptsList | module-01-pipeline/test_main.py:9 | `"2019,2021,2023"` gives `[2019, 2021, 2023]` |
| Selection.AcceptsRange | module-01-pipeline/test_main.py:10 | `"2019-2021"` gives `[2019, 2020, 2021]` |
| Selection.RejectsNonDigits | module-01-pipeline/test_main.py:20-24 | `""`, `" "` and `"20a4"` are rejected as not numbers |
| Selection.RejectsStrayComma | module-01-pipeline/test_main.py:22-23 | `"2024,"` and `",2024"` are rejected |
| Selection.RejectsStrayDash | module-01-pipeline/test_main.py:25-27 | `"2024-"`, `"-2024"` and `"2024--2025"` are rejected |
| Selection.RejectsListWithRange | module-01-pipeline/test_main.py:28 | `"2024,2025-2026"` is rejected |
| Selection.RejectsSpacedRange | module-01-pipeline/test_main.py:29 | `"2024 - 2025"` is rejected |
| Selection.RejectsBackwardsRange | module-01-pipeline/test_main.py:30 | `"2025-2024"` is rejected with the start-not-below-end error, not turned into an empty list |
| Selection.CheckBounds | module-01-pipeline/pipeline.py:133-142 | no error iff every month is in 1..12 and every year in 2019..2021; the month error iff some month is out of range; the year error iff the months are fine and some year is out of range |
| Selection.Select | module-01-pipeline/pipeline.py:123-142 | the selection is accepted iff both arguments parse and both bound checks pass, and then holds the parsed lists; an unparsable years argument is reported as "years", an unparsable months argument (after valid years) as "months" |
| Selection.MonthsParseFailureBlamesYears | module-01-pipeline/pipeline.py:128-131 | with years `"2021"` and months `"x"` the code as written reports "years", the corrected check reports "months" |
| Selection.SelectAsWritten | module-01-pipeline/pipeline.py:123-142 | the checks as written never report "months": a months argument that fails to parse is reported as "years"; they accept exactly the selections the corrected check accepts |
| Selection.SelectAgreesElsewhere | module-01-pipeline/pipeline.py:123-142 | the written and corrected checks agree on every other input |
| Text.ShowNatRoundTrip | module-01-pipeline/pipeline.py:96 | `int(str(n)) == n`, and `str(n)` is a digit run |
| Text.ZeroPad2RoundTrip | module-01-pipeline/pipeline.py:79 | `f"{m:02d}"` for `m < 100` is two digits whose value is `m` |
| Text.SplitJoin | module-01-pipeline/pipeline.py:96 | splitting comma-joined parts without commas gives the parts back |
| Text.JoinSplit | module-01-pipeline/pipeline.py:96 | joining the split fields with the separator gives the string back |
| Downloads.FileName | module-01-pipeline/pipeline.py:79 | the definition of the name of (year, month): the prefix, `str(year)`, `-`, `f"{month:02d}"` and `.csv.gz`; its properties are the three rows below |
| Downloads.FileNameShape | module-01-pipeline/pipeline.py:79 | for a month in 1..12 the name is the prefix, the year, `-`, the two-digit month whose value is the month, and `.csv.gz` |
| Downloads.FileNameExample | module-01-pipeline/pipeline.py:79 | (2020, 1) is named `yellow_tripdata_2020-01.csv.gz` |
| Downloads.FileNameInjective | module-01-pipeline/pipeline.py:79 | distinct (year, month) pairs get distinct names |
| Downloads.MonthsOfAt | module-01-pipeline/pipeline.py:78 | the inner loop over the months of one year visits `(year, months[j])` at position `j` |
| Downloads.Requests | module-01-pipeline/pipeline.py:77-78 | the definition of the visits: for each year in order, that year with each month in order; its properties are the rows below |
| Downloads.RequestsFrom | module-01-pipeline/pipeline.py:77-78 | every visited pair is a selected year with a selected month |
| Downloads.FileNames | module-01-pipeline/pipeline.py:77-79 | a selection with no repeated year and no repeated month requests each file once |
| Downloads.RequestsDistinct | module-01-pipeline/pipeline.py:77-78 | distinct years and distinct months give distinct (year, month) visits |
| Downloads.NamesOfDistinct | module-01-pipeline/pipeline.py:79 | distinct visits give distinct file names |
| Downloads.RequestsAt | module-01-pipeline/pipeline.py:77-78 | pair `(years[i], months[j])` is visited at position `i * len(months) + j` (year-major) |
| Downloads.RequestsLength | module-01-pipeline/pipeline.py:77-78 | there are `len(years) * len(months)` visits |
| Downloads.FileNamesAt | module-01-pipeline/pipeline.py:77-81 | `len(years) * len(months)` names, year-major, the name at `i * len(months) + j` being that of `(years[i], months[j])` |
| Downloads.Collect | module-01-pipeline/pipeline.py:83 | no more paths than results |
| Downloads.CollectKeepsTruthy | module-01-pipeline/pipeline.py:83 | every kept path is a present, non-empty result, and every present, non-empty result is kept |
| Downloads.CollectConcat | module-01-pipeline/pipeline.py:83 | collection keeps request order: it distributes over concatenation |
| Downloads.CollectAllPresent | module-01-pipeline/pipeline.py:83 | when every call returned a path, all of them are kept, in order |
| Downloads.DownloadStep | module-01-pipeline/pipeline.py:48-66 | a request is sent iff the name is not cached; the body is written iff the name is not cached and the status is in 200..299; a path is returned iff the name is cached or the status is in 200..299, and it is the name's cache path |
| Downloads.CachedHit | module-01-pipeline/pipeline.py:50-52 | a cached name returns its path with no request and the cache unchanged |
| Downloads.UncachedMiss | module-01-pipeline/pipeline.py:54-66 | an uncached name is requested; it returns its path iff the status is in 200..299; success adds exactly that name, failure leaves the cache as it was |
| Downloads.DownloadTwice | module-01-pipeline/pipeline.py:48-66 | once a call has returned a path, a later call for that name against the cache it left sends no request, returns the same path and changes nothing |
| Downloads.DownloadAll | module-01-pipeline/pipeline.py:69-83 | one result per task, every task deciding against the cache as it was when the run began; no more writes than requests and no more requests than tasks |
| Downloads.DownloadAllResults | module-01-pipeline/pipeline.py:48-66 | each call returns nothing or the cache path of its own name |
| Downloads.DownloadAllAt | module-01-pipeline/pipeline.py:48-83 | the `i`-th task's result is what `download_file` gives `names[i]` against the cache as it was before the run: its path if cached or answered 2xx, nothing otherwise |
| Downloads.DownloadAllPaths | module-01-pipeline/pipeline.py:83 | a selected name's cache path is among the returned paths iff the name was cached before the run or its request was answered 2xx |
| Downloads.CachePathInjective | module-01-pipeline/pipeline.py:49 | within one cache directory, distinct names have distinct paths |
| Downloads.DownloadAllCached | module-01-pipeline/pipeline.py:50-52 | a name cached before the run always gets its path |
| Downloads.DownloadAllTraffic | module-01-pipeline/pipeline.py:48-83 | the names requested are exactly the selected names not cached before the run; the names written are exactly those of them answered with a 2xx status |
| Downloads.DownloadAllStoresOnce | module-01-pipeline/pipeline.py:63-65 | without a repeated name, no file is requested twice and none is written twice |
| Downloads.RepeatedNameFetchedTwice | module-01-pipeline/pipeline.py:76-81 | a name selected twice and not cached is requested twice and written twice, both tasks returning its path |
| Downloads.SecondRunFetchesFailures | module-01-pipeline/pipeline.py:48-66 | a second run over the cache the first run left requests exactly the names whose first request failed |
| Downloads.AllCachedNoFetch | module-01-pipeline/pipeline.py:50-52 | when every name is cached, no request is sent, nothing is written and every call returns its path |
| Downloads.CacheDir.IsFileCached | module-01-pipeline/pipeline.py:33-45 | true iff the directory exists and lists the name |
| Downloads.CacheDir.Transfer | module-01-pipeline/pipeline.py:54-66 | one GET is logged; a status outside 200..299 returns nothing and writes nothing; a 2xx status creates the directory, adds the name to the listing and returns its path |
| Downloads.CacheDir.Download | module-01-pipeline/pipeline.py:48-66 | returned path, listing, existence flag and request log all follow the pure download decision on the names listed before the call |
| Downloads.TaskNames | module-01-pipeline/pipeline.py:76-81 | the nested loops create the tasks of the year-major file names, in order |
| Downloads.CacheDir.CheckAll | module-01-pipeline/pipeline.py:49-50 | each task's cache check says whether the listing, as it is before any download, holds its name |
| Downloads.CacheDir.Complete | module-01-pipeline/pipeline.py:50-66 | one more task completing extends the run summary by that task's effect |
| Downloads.CacheDir.CompleteAll | module-01-pipeline/pipeline.py:76-83 | the tasks' results are those of the run decided against the listing before it; the listing, directory flag and request log end as that run leaves them |
| Downloads.CacheDir.EnsureFilesExist | module-01-pipeline/pipeline.py:69-83 | the result is the collected results of the run over the year-major names, decided against the cache as it was before; the cache and the request log end as that run leaves them |
| Driver.TableDefinition | module-01-pipeline/pipeline.py:215-219 | the definition of `table_definition`, the three `replace` passes in order; its properties are the two rows below |
| Driver.TableDefinitionAppendsKey | module-01-pipeline/pipeline.py:215-219 | for a schema whose only `)` closes it, the definition is the retyped schema with `, id UUID PRIMARY KEY` added before that `)` |
| Driver.TableDefinitionWithoutParen | module-01-pipeline/pipeline.py:215-219 | without a `)` only the type renaming happens |
| Driver.ColumnListShape | module-01-pipeline/pipeline.py:225 | with one or more columns, the column list is the quoted columns in order followed by `"id"` |
| Driver.ValueListShape | module-01-pipeline/pipeline.py:226 | with one or more columns, the value list is one `?` per column followed by `uuid()` |
| Driver.InsertQuery | module-01-pipeline/pipeline.py:224-227 | the definition of `query_parameterized` as its head, column list and value list; its properties are the rows around it |
| Driver.InsertQueryMarks | module-01-pipeline/pipeline.py:224-227 | the INSERT has exactly one `?` per column, if the table and column names hold none |
| Driver.MarksCount | module-01-pipeline/pipeline.py:226 | `', '.join(['?'] * n)` holds `n` question marks |
| Driver.ChunksLogFresh | module-01-pipeline/pipeline.py:197-232 | chunk by chunk from a fresh latch, the loop sends exactly the reference log: the first chunk's provisioning, then one write per chunk through the first chunk's INSERT |
| Driver.ChunksLogPrepared | module-01-pipeline/pipeline.py:212-232 | once the latch is set, every chunk is exactly one write through the prepared statement |
| Driver.ProvisionedOnce | module-01-pipeline/pipeline.py:212-228 | one `prepare` and two plain `execute`s when there is a chunk, none otherwise; they are the first three commands, before the first write |
| Driver.WritesUsePrepared | module-01-pipeline/pipeline.py:228-232 | one write per chunk, the `k`-th carrying the `k`-th chunk's rows through the text of the one earlier `prepare` |
| Driver.Loader.Load | module-01-pipeline/pipeline.py:212-232 | one chunk adds its chunk log to the session and sets the prepared statement as the latch rule says |
| Driver.Loader.Run | module-01-pipeline/pipeline.py:197-232 | the session grows by the chunk-by-chunk log of all chunks of all files, in order |
| Pipeline.Ingest | module-01-pipeline/pipeline.py:123-232 | a refused selection sends nothing; otherwise the result is the collected download results and the session log is the reference log of the files' chunks |

## Left out

- Cassandra: the cluster, authentication, keyspace creation, `set_keyspace` and `shutdown`
  (pipeline.py:170-195, 238). This is a foreign client library. Only the commands the loop sends
  are modelled.
- The per-row result draining (pipeline.py:234-236). Each write is one command carrying all of
  a chunk's rows. Per-row success is not modelled.
- pandas: `read_csv` chunking, `nrows`, the dtype table and `sql.get_schema`. These are library
  behaviour. A file's chunks, their columns and their schema text are inputs.
- HTTP and the file system: `requests.get`, the body written to disk, `os.makedirs`,
  `os.path.exists` and `os.listdir`. The server's answer is an input status code. The cache
  directory is the `present` flag and the `entries` listing of `CacheDir`.
- The asyncio `TaskGroup` and `to_thread` are not modelled as threads. The model keeps the
  order the event loop imposes: every task makes its cache check before any download returns,
  so every call sees the cache as it was when the run began, and a name selected twice and not
  cached is requested and written twice (`Downloads.RepeatedNameFetchedTwice`). The GETs and
  the writes are then modelled one after another in request order; the threads may finish in
  any order, which changes only the order of the request log and of the directory listing.
- Downloads.DownloadAll: the server's answer is a function of the name (`respond`), so every
  request for one name within a run gets the same status. In the source, a name selected twice
  is two separate `rq.get` calls (pipeline.py:55), which may get different answers, for example
  404 and then 200. The file is then written once and the results are `[None, path]`. The model
  cannot express that input.
- Downloads.SecondRunFetchesFailures: it relies on one status per name. With differing answers
  to two requests for one name in the first run, a name whose first request failed may still
  have been stored, and then the second run does not request it.
- Downloads.CacheDir.EnsureFilesExist: the final listing is stated as a set of names, not as a
  sequence, because `os.listdir` order is not part of the program's behaviour.
- The typer command line, the environment configuration, `chunck_size` and `num_rows`,
  `print` and `tqdm`. The table name is a parameter. Line 20 reads `CASSANDRA_USERNAME` for the
  password; the credentials are not modelled.
- `\d` and `int()`: Python also accepts non-ASCII Unicode digits. The model accepts ASCII
  digits only.
- `CachePath`: `pathlib` normalisation of the cache directory name is not modelled (the path
  is `root + "/" + name`).
- Paths are collected in request order: pipeline.py:83 reads `tasks` in the order the tasks
  were created, whatever order they finish in.
- An empty download result is not an error: the loop at pipeline.py:199 runs over no files, so
  `Pipeline.Ingest` succeeds with an empty log.
- Pipeline.Ingest: it reports the corrected label, "months", when the months argument fails to
  parse, where pipeline.py:131 reports "years" (see "## Findings"). `Selection.SelectAsWritten`
  models the message as written.
- Selection.ParseNumbers: Python's `int()` refuses a digit string longer than 4300 digits by
  default. `list(range(start, end + 1))` raises `OverflowError` on a range of more than
  `sys.maxsize` numbers and `MemoryError` on a smaller one too large to hold. The bare `except:`
  at pipeline.py:125 and 130 turns each of these into the could-not-parse error. The model's
  integers are unbounded and its lists unlimited, so it accepts those arguments.
- Driver.Loader.Run: a `session.execute`, `session.prepare` or `execute_concurrent` that raises
  (pipeline.py:221-232) ends `main` after a prefix of the command log. The model's commands
  never fail, so `Pipeline.Ingest` always sends the whole log.
- Downloads.CacheDir.EnsureFilesExist: it does not state what happens when a download raises
  (a transport error). Only answered requests are modelled.

## Findings

| source | as written | input that shows it | evidently intended | confidence | as-written member | corrected member |
|---|---|---|---|---|---|---|
| module-01-pipeline/pipeline.py:131 | a months argument that fails to parse raises "could not parse the 'years' input" | `--years 2021 --months x` | the message names the 'months' input | not executed; high, the line repeats line 126 | Selection.SelectAsWritten, Selection.MonthsParseFailureBlamesYears | Selection.Select |
