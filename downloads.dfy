/** Making sure the selected monthly files are on local disk: the file
    names, the cache directory with its fetch-on-miss rule, and the list of
    local paths handed on to the driver. The download of one file and the
    listing of the cache directory are the only contact with the outside:
    the server's answer is an input status code, and the cache directory is
    held as the fields of `CacheDir`. */
module Downloads {
  import opened Wrappers
  import opened Text

  /** Where the monthly files are published. */
  const UrlPrefix: string := "https://github.com/DataTalksClub/nyc-tlc-data/releases/download/yellow/"

  /** The file name prefix and suffix around `{year}-{month:02d}`. */
  const NamePrefix: string := "yellow_tripdata_"
  const NameSuffix: string := ".csv.gz"

  /** `f"yellow_tripdata_{year}-{month:02d}.csv.gz"`. */
  function FileName(year: nat, month: nat): string {
    NamePrefix + ShowNat(year) + "-" + ZeroPad2(month) + NameSuffix
  }

  /** The (year, month) pairs of one year, in the order of `months`. */
  function MonthsOf(year: nat, months: seq<nat>): (pairs: seq<(nat, nat)>)
    ensures |pairs| == |months|
  {
    if months == [] then []
    else MonthsOf(year, months[..|months| - 1]) + [(year, months[|months| - 1])]
  }

  lemma {:induction false} MonthsOfAt(year: nat, months: seq<nat>, j: nat)
    requires j < |months|
    ensures MonthsOf(year, months)[j] == (year, months[j])
  {
    var front := months[..|months| - 1];
    if j < |front| {
      MonthsOfAt(year, front, j);
      ConcatAt(MonthsOf(year, front), [(year, months[|months| - 1])], j);
    }
  }

  /** Every pair of one year is that year with a selected month. */
  lemma MonthsOfFrom(year: nat, months: seq<nat>)
    ensures forall p :: p in MonthsOf(year, months) ==> p.0 == year && p.1 in months
  {
    forall p | p in MonthsOf(year, months)
      ensures p.0 == year && p.1 in months
    {
      var j :| 0 <= j < |months| && MonthsOf(year, months)[j] == p;
      MonthsOfAt(year, months, j);
    }
  }

  /** The (year, month) pairs the two nested loops of `ensure_files_exist`
      visit: for each year, for each month. */
  function Requests(years: seq<nat>, months: seq<nat>): (pairs: seq<(nat, nat)>) {
    if years == [] then []
    else Requests(years[..|years| - 1], months) + MonthsOf(years[|years| - 1], months)
  }

  /** Every visited pair is a selected year with a selected month. */
  lemma {:induction false} RequestsFrom(years: seq<nat>, months: seq<nat>)
    ensures forall p :: p in Requests(years, months) ==> p.0 in years && p.1 in months
  {
    if years != [] {
      var front := years[..|years| - 1];
      RequestsFrom(front, months);
      MonthsOfFrom(years[|years| - 1], months);
      assert forall y :: y in front ==> y in years;
    }
  }

  /** The file name of each pair. */
  function NamesOf(pairs: seq<(nat, nat)>): (names: seq<string>)
    ensures |names| == |pairs|
  {
    seq(|pairs|, i requires 0 <= i < |pairs| => FileName(pairs[i].0, pairs[i].1))
  }

  /** The names `ensure_files_exist` requests, in request order. A
      selection without a repeated year or month requests each file once. */
  function FileNames(years: seq<nat>, months: seq<nat>): (names: seq<string>)
    ensures NoDuplicates(years) && NoDuplicates(months) ==> NoDuplicates(names)
  {
    RequestsDistinct(years, months);
    NamesOfDistinct(Requests(years, months));
    NamesOf(Requests(years, months))
  }

  /** `str(pathlib.Path(root) / name)`. */
  function CachePath(root: string, name: string): (path: string)
    ensures path != ""
  {
    root + "/" + name
  }

  /** A month in 1..12 is written with exactly two digits. */
  lemma FileNameShape(year: nat, month: nat)
    requires 1 <= month <= 12
    ensures var m := ZeroPad2(month);
      && FileName(year, month) == NamePrefix + ShowNat(year) + "-" + m + NameSuffix
      && |m| == 2 && IsDigitRun(m) && DigitsValue(m) == month
  {
    ZeroPad2RoundTrip(month);
  }

  lemma FileNameExample(name: string)
    requires name == FileName(2020, 1)
    ensures name == "yellow_tripdata_2020-01.csv.gz"
  {
    assert ShowNat(2020) == "2020";
  }

  /** Distinct (year, month) pairs get distinct file names. */
  lemma FileNameInjective(y1: nat, m1: nat, y2: nat, m2: nat)
    requires FileName(y1, m1) == FileName(y2, m2)
    ensures y1 == y2 && m1 == m2
  {
    var t1, t2 := ShowNat(y1), ShowNat(y2);
    var z1, z2 := ZeroPad2(m1), ZeroPad2(m2);
    var p, q := NamePrefix, NameSuffix;
    Regroup(p, t1, z1, q);
    Regroup(p, t2, z2, q);
    Cancel(p, t1 + "-" + z1, t2 + "-" + z2, q);
    CutAtDash(t1, z1, t2, z2);
    ShowNatInjective(y1, y2);
    ZeroPad2RoundTrip(m1);
    ZeroPad2RoundTrip(m2);
  }

  lemma Regroup(p: string, t: string, z: string, q: string)
    ensures p + t + "-" + z + q == p + (t + "-" + z) + q
  {
    Associative(p, t, "-");
    Associative(p, t + "-", z);
  }

  /** The middle of `p + x + q` determines `x`. */
  lemma Cancel(p: string, x1: string, x2: string, q: string)
    requires p + x1 + q == p + x2 + q
    ensures x1 == x2
  {
    var w1, w2 := p + x1 + q, p + x2 + q;
    assert x1 == w1[|p|..|w1| - |q|];
    assert x2 == w2[|p|..|w2| - |q|];
  }

  /** Text without a dash on the left of a dash is fixed by the whole. */
  lemma CutAtDash(t1: string, z1: string, t2: string, z2: string)
    requires IsDigitRun(t1) && IsDigitRun(t2)
    requires t1 + "-" + z1 == t2 + "-" + z2
    ensures t1 == t2 && z1 == z2
  {
    assert '-' !in t1 && '-' !in t2;
    IndexOfAfter(t1, z1, '-');
    IndexOfAfter(t2, z2, '-');
    var w := t1 + "-" + z1;
    assert t1 == w[..|t1|] && z1 == w[|t1| + 1..];
    assert t2 == w[..|t2|] && z2 == w[|t2| + 1..];
  }

  /** One request per (year, month) pair. */
  lemma {:induction false} RequestsLength(years: seq<nat>, months: seq<nat>)
    ensures |Requests(years, months)| == |years| * |months|
  {
    if years != [] {
      var front := years[..|years| - 1];
      RequestsLength(front, months);
      MulSucc(|front|, |months|);
    }
  }

  /** Year-major order: `(years[i], months[j])` is requested at position
      `i * |months| + j`. */
  lemma {:induction false} RequestsAt(years: seq<nat>, months: seq<nat>, i: nat, j: nat)
    requires i < |years| && j < |months|
    ensures i * |months| + j < |Requests(years, months)|
    ensures Requests(years, months)[i * |months| + j] == (years[i], months[j])
  {
    var m, k := |years| - 1, |months|;
    var front := years[..m];
    var head, last := Requests(front, months), MonthsOf(years[m], months);
    assert Requests(years, months) == head + last;
    RequestsLength(front, months);
    MulSucc(i, k);
    if i < m {
      MulBelow(i, m, j, k);
      RequestsAt(front, months, i, j);
      ConcatAt(head, last, i * k + j);
    } else {
      MonthsOfAt(years[m], months, j);
      ConcatAfter(head, last, j);
    }
  }

  /** There are `|years| * |months|` names, and the name of
      `(years[i], months[j])` is at position `i * |months| + j`. */
  lemma FileNamesAt(years: seq<nat>, months: seq<nat>, i: nat, j: nat)
    requires i < |years| && j < |months|
    ensures |FileNames(years, months)| == |years| * |months|
    ensures i * |months| + j < |FileNames(years, months)|
    ensures FileNames(years, months)[i * |months| + j] == FileName(years[i], months[j])
  {
    RequestsLength(years, months);
    RequestsAt(years, months, i, j);
    FileNamesAtPair(years, months, i * |months| + j, years[i], months[j]);
  }

  lemma FileNamesAtPair(years: seq<nat>, months: seq<nat>, pos: nat, year: nat, month: nat)
    requires pos < |Requests(years, months)| && Requests(years, months)[pos] == (year, month)
    ensures |FileNames(years, months)| == |Requests(years, months)|
    ensures FileNames(years, months)[pos] == FileName(year, month)
  {
    NamesOfAt(Requests(years, months), pos);
  }

  lemma NamesOfAt(pairs: seq<(nat, nat)>, n: nat)
    requires n < |pairs|
    ensures NamesOf(pairs)[n] == FileName(pairs[n].0, pairs[n].1)
  {
  }

  /** The pairs of one year are distinct when the months are. */
  lemma MonthsOfDistinct(year: nat, months: seq<nat>)
    ensures NoDuplicates(months) ==> NoDuplicates(MonthsOf(year, months))
  {
    forall i, j | 0 <= i < j < |months|
      ensures MonthsOf(year, months)[i] == (year, months[i]) && MonthsOf(year, months)[j] == (year, months[j])
    {
      MonthsOfAt(year, months, i);
      MonthsOfAt(year, months, j);
    }
  }

  /** Distinct years and distinct months give distinct pairs: the pairs of
      the last year share no year with the pairs before them. */
  lemma {:induction false} RequestsDistinct(years: seq<nat>, months: seq<nat>)
    ensures NoDuplicates(years) && NoDuplicates(months) ==> NoDuplicates(Requests(years, months))
  {
    if years != [] && NoDuplicates(years) && NoDuplicates(months) {
      var front, last := years[..|years| - 1], years[|years| - 1];
      assert NoDuplicates(front);
      assert last !in front;
      RequestsDistinct(front, months);
      RequestsFrom(front, months);
      MonthsOfFrom(last, months);
      MonthsOfDistinct(last, months);
      DistinctConcat(Requests(front, months), MonthsOf(last, months));
    }
  }

  /** Distinct pairs get distinct names. */
  lemma NamesOfDistinct(pairs: seq<(nat, nat)>)
    ensures NoDuplicates(pairs) ==> NoDuplicates(NamesOf(pairs))
  {
    if NoDuplicates(pairs) {
      var names := NamesOf(pairs);
      forall i, j | 0 <= i < j < |names|
        ensures names[i] != names[j]
      {
        if names[i] == names[j] {
          FileNameInjective(pairs[i].0, pairs[i].1, pairs[j].0, pairs[j].1);
        }
      }
    }
  }

  /** Two sequences without repeats and without a common element join into
      one without repeats. */
  lemma DistinctConcat<T>(a: seq<T>, b: seq<T>)
    requires NoDuplicates(a) && NoDuplicates(b)
    requires forall x :: x in a ==> x !in b
    ensures NoDuplicates(a + b)
  {
    var s := a + b;
    forall i, j | 0 <= i < j < |s|
      ensures s[i] != s[j]
    {
      if i < |a| && |a| <= j {
        assert s[i] in a && s[j] == b[j - |a|];
      }
    }
  }

  lemma ConcatAt<T>(a: seq<T>, b: seq<T>, n: nat)
    requires n < |a|
    ensures (a + b)[n] == a[n]
  {
  }

  lemma ConcatAfter<T>(a: seq<T>, b: seq<T>, n: nat)
    requires n < |b|
    ensures (a + b)[|a| + n] == b[n]
  {
  }

  lemma MulSucc(a: nat, k: nat)
    ensures (a + 1) * k == a * k + k
    ensures 0 <= a * k
  {
  }

  lemma MulBelow(i: nat, m: nat, j: nat, k: nat)
    requires i < m && j < k
    ensures i * k + j < m * k
  {
    MulMonotone(i + 1, m, k);
    MulSucc(i, k);
  }

  lemma {:induction false} MulMonotone(a: nat, b: nat, k: nat)
    requires a <= b
    ensures a * k <= b * k
    decreases b - a
  {
    if a < b {
      MulMonotone(a, b - 1, k);
      MulSucc(b - 1, k);
    }
  }

  predicate NoDuplicates<T(==)>(s: seq<T>) {
    forall i, j :: 0 <= i < j < |s| ==> s[i] != s[j]
  }

  function Elements(s: seq<string>): set<string> {
    set x | x in s
  }

  lemma ElementsConcat(a: seq<string>, b: seq<string>)
    ensures Elements(a + b) == Elements(a) + Elements(b)
  {
    assert forall x :: x in a + b <==> x in a || x in b;
  }

  /** `[p for p in results if p]`: the truthy results, those present and not
      empty, in request order. */
  function Collect(results: seq<Option<string>>): (paths: seq<string>)
    ensures |paths| <= |results|
  {
    if results == [] then []
    else
      var last := results[|results| - 1];
      Collect(results[..|results| - 1]) +
        (if last.Some? && last.value != "" then [last.value] else [])
  }

  /** Collecting keeps exactly the truthy results: every path kept is a
      non-empty result, and every non-empty result is kept. */
  lemma {:induction false} CollectKeepsTruthy(results: seq<Option<string>>)
    ensures forall p :: p in Collect(results) ==> p != "" && Some(p) in results
    ensures forall i :: 0 <= i < |results| && results[i].Some? && results[i].value != "" ==>
      results[i].value in Collect(results)
  {
    if results != [] {
      var front := results[..|results| - 1];
      CollectKeepsTruthy(front);
      assert forall i :: 0 <= i < |front| ==> front[i] == results[i];
    }
  }

  /** Collecting keeps request order: it distributes over concatenation. */
  lemma {:induction false} CollectConcat(a: seq<Option<string>>, b: seq<Option<string>>)
    ensures Collect(a + b) == Collect(a) + Collect(b)
    decreases |b|
  {
    if b == [] {
      assert a + b == a;
    } else {
      var front := b[..|b| - 1];
      assert (a + b)[..|a + b| - 1] == a + front;
      CollectConcat(a, front);
    }
  }

  /** What a single `download_file` call does. */
  datatype Fetch = Fetch(
    path: Option<string>,  // the returned path, or None for a failed download
    fetched: bool,         // a GET was sent to the server
    stored: bool)          // the body was written into the cache directory

  predicate IsSuccess(status: int) {
    200 <= status < 300
  }

  /** `download_file` against a cache holding `cache`, when the server would
      answer `status`: a cached name is returned with no request; otherwise
      one GET is sent, and the body is written and its path returned exactly
      when the status is in 200..299. */
  function DownloadStep(root: string, cache: set<string>, name: string, status: int): (f: Fetch)
    ensures f.fetched <==> name !in cache
    ensures f.stored <==> name !in cache && IsSuccess(status)
    ensures f.path.Some? <==> name in cache || IsSuccess(status)
    ensures f.path.Some? ==> f.path.value == CachePath(root, name)
  {
    if name in cache then Fetch(Some(CachePath(root, name)), false, false)
    else if status >= 300 || status < 200 then Fetch(None, true, false)
    else Fetch(Some(CachePath(root, name)), true, true)
  }

  /** The names in the cache after a call. */
  function CacheAfter(cache: set<string>, name: string, f: Fetch): set<string> {
    if f.stored then cache + {name} else cache
  }

  /** A cached name is returned with no request and the cache unchanged. */
  lemma CachedHit(root: string, cache: set<string>, name: string, status: int)
    requires name in cache
    ensures var f := DownloadStep(root, cache, name, status);
      f == Fetch(Some(CachePath(root, name)), false, false) && CacheAfter(cache, name, f) == cache
  {
  }

  /** An uncached name is requested once; it succeeds exactly when the status
      is in 200..299, and success adds exactly that name to the cache while
      failure leaves the cache as it was. */
  lemma UncachedMiss(root: string, cache: set<string>, name: string, status: int)
    requires name !in cache
    ensures var f := DownloadStep(root, cache, name, status);
      && f.fetched
      && (f.path.Some? <==> IsSuccess(status))
      && (f.path.Some? ==> f.path.value == CachePath(root, name))
      && CacheAfter(cache, name, f) == if IsSuccess(status) then cache + {name} else cache
  {
  }

  /** Asking again, after the call for a name returned a path, sends no
      second request, returns the same path and leaves the cache alone. */
  lemma DownloadTwice(root: string, cache: set<string>, name: string, s1: int, s2: int)
    requires DownloadStep(root, cache, name, s1).path.Some?
    ensures var f1 := DownloadStep(root, cache, name, s1);
      var c1 := CacheAfter(cache, name, f1);
      var f2 := DownloadStep(root, c1, name, s2);
      && !f2.fetched && f2.path == f1.path && CacheAfter(c1, name, f2) == c1
  {
  }

  /** The effect of the downloads of one run. */
  datatype Run = Run(
    results: seq<Option<string>>,  // the return value of each call, in request order
    stored: seq<string>,           // the names written into the cache, in request order
    fetched: seq<string>)          // the names requested from the server, in request order

  /** The calls of `ensure_files_exist` as its task group runs them. Each
      task runs without pausing until it awaits `to_thread`, and the tasks
      all start on the event loop's first pass, so every task has checked
      the cache before any download returns: every call decides against the
      cache as it was when the run began. */
  function DownloadAll(root: string, cache: set<string>, names: seq<string>, respond: string -> int): (run: Run)
    ensures |run.results| == |names| && |run.stored| <= |run.fetched| <= |names|
  {
    if names == [] then Run([], [], [])
    else
      var prev := DownloadAll(root, cache, names[..|names| - 1], respond);
      var name := names[|names| - 1];
      var f := DownloadStep(root, cache, name, respond(name));
      Run(prev.results + [f.path],
          prev.stored + (if f.stored then [name] else []),
          prev.fetched + (if f.fetched then [name] else []))
  }

  /** Each call returns `None` or the cache path of its own name. */
  lemma {:induction false} DownloadAllResults(root: string, cache: set<string>, names: seq<string>, respond: string -> int)
    ensures var run := DownloadAll(root, cache, names, respond);
      forall i :: 0 <= i < |names| ==>
        run.results[i] == None || run.results[i] == Some(CachePath(root, names[i]))
  {
    if names != [] {
      var front := names[..|names| - 1];
      DownloadAllResults(root, cache, front, respond);
      var prev := DownloadAll(root, cache, front, respond);
      var run := DownloadAll(root, cache, names, respond);
      assert forall i :: 0 <= i < |front| ==> run.results[i] == prev.results[i] && names[i] == front[i];
    }
  }

  /** Each task's result is the one `download_file` gives its name against
      the cache as it was before the run. */
  lemma {:induction false} DownloadAllAt(root: string, cache: set<string>, names: seq<string>, respond: string -> int)
    ensures var run := DownloadAll(root, cache, names, respond);
      forall i :: 0 <= i < |names| ==>
        run.results[i] == DownloadStep(root, cache, names[i], respond(names[i])).path
  {
    if names != [] {
      var front := names[..|names| - 1];
      DownloadAllAt(root, cache, front, respond);
      var prev := DownloadAll(root, cache, front, respond);
      var run := DownloadAll(root, cache, names, respond);
      assert forall i :: 0 <= i < |front| ==> run.results[i] == prev.results[i] && names[i] == front[i];
    }
  }

  /** The paths handed on are exactly the cache paths of the selected names
      that were cached before the run or answered with a 2xx status. */
  lemma DownloadAllPaths(root: string, cache: set<string>, names: seq<string>, respond: string -> int)
    ensures var paths := Collect(DownloadAll(root, cache, names, respond).results);
      forall n :: n in names ==>
        (CachePath(root, n) in paths <==> n in cache || IsSuccess(respond(n)))
  {
    var run := DownloadAll(root, cache, names, respond);
    DownloadAllAt(root, cache, names, respond);
    CollectKeepsTruthy(run.results);
    forall n | n in names
      ensures CachePath(root, n) in Collect(run.results) <==> n in cache || IsSuccess(respond(n))
    {
      var i :| 0 <= i < |names| && names[i] == n;
      if CachePath(root, n) in Collect(run.results) {
        var j :| 0 <= j < |run.results| && run.results[j] == Some(CachePath(root, n));
        CachePathInjective(root, names[j], n);
      }
    }
  }

  /** Within one cache directory, distinct names have distinct paths. */
  lemma CachePathInjective(root: string, a: string, b: string)
    requires CachePath(root, a) == CachePath(root, b)
    ensures a == b
  {
    var p := root + "/";
    assert CachePath(root, a) == p + a && CachePath(root, b) == p + b;
    assert a == (p + a)[|p|..];
  }

  /** A name cached before the run always gets its path. */
  lemma {:induction false} DownloadAllCached(root: string, cache: set<string>, names: seq<string>, respond: string -> int)
    ensures var run := DownloadAll(root, cache, names, respond);
      forall i :: 0 <= i < |names| && names[i] in cache ==>
        run.results[i] == Some(CachePath(root, names[i]))
  {
    if names != [] {
      var front := names[..|names| - 1];
      DownloadAllCached(root, cache, front, respond);
      var prev := DownloadAll(root, cache, front, respond);
      var run := DownloadAll(root, cache, names, respond);
      assert forall i :: 0 <= i < |front| ==> run.results[i] == prev.results[i] && names[i] == front[i];
    }
  }

  /** The names requested from the server are exactly the selected names
      that were not cached before the run, and the names written are those
      of them the server answered with a 2xx status. */
  lemma {:induction false} DownloadAllTraffic(root: string, cache: set<string>, names: seq<string>, respond: string -> int)
    ensures var run := DownloadAll(root, cache, names, respond);
      && (forall n :: n in run.fetched <==> n in names && n !in cache)
      && (forall n :: n in run.stored <==> n in names && n !in cache && IsSuccess(respond(n)))
  {
    if names != [] {
      var front := names[..|names| - 1];
      DownloadAllTraffic(root, cache, front, respond);
      assert names == front + [names[|names| - 1]];
    }
  }

  /** Without a repeated name, no file is requested twice and none is
      written twice. */
  lemma {:induction false} DownloadAllStoresOnce(root: string, cache: set<string>, names: seq<string>, respond: string -> int)
    ensures var run := DownloadAll(root, cache, names, respond);
      NoDuplicates(names) ==> NoDuplicates(run.fetched) && NoDuplicates(run.stored)
  {
    if names != [] && NoDuplicates(names) {
      var front, last := names[..|names| - 1], names[|names| - 1];
      assert NoDuplicates(front) && last !in front;
      DownloadAllStoresOnce(root, cache, front, respond);
      DownloadAllTraffic(root, cache, front, respond);
      var prev := DownloadAll(root, cache, front, respond);
      DistinctConcat(prev.fetched, if last in cache then [] else [last]);
      DistinctConcat(prev.stored, if last !in cache && IsSuccess(respond(last)) then [last] else []);
    }
  }

  /** A name selected twice and not cached is requested twice and written
      twice: the second task checks the cache before the first one's
      download has returned. */
  lemma RepeatedNameFetchedTwice(root: string, cache: set<string>, name: string, respond: string -> int)
    requires name !in cache && IsSuccess(respond(name))
    ensures var run := DownloadAll(root, cache, [name, name], respond);
      && run.fetched == [name, name] && run.stored == [name, name]
      && run.results == [Some(CachePath(root, name)), Some(CachePath(root, name))]
  {
    assert [name, name][..1] == [name];
    assert [name][..0] == [];
  }

  /** A second run over the cache the first one left requests exactly the
      names whose first request failed. */
  lemma SecondRunFetchesFailures(root: string, cache: set<string>, names: seq<string>, respond: string -> int)
    ensures var run1 := DownloadAll(root, cache, names, respond);
      var run2 := DownloadAll(root, cache + Elements(run1.stored), names, respond);
      forall n :: n in run2.fetched <==> n in names && n !in cache && !IsSuccess(respond(n))
  {
    var run1 := DownloadAll(root, cache, names, respond);
    DownloadAllTraffic(root, cache, names, respond);
    DownloadAllTraffic(root, cache + Elements(run1.stored), names, respond);
  }

  /** When every requested file is cached, nothing is requested or written
      and every call returns its cached path. */
  lemma {:induction false} AllCachedNoFetch(root: string, cache: set<string>, names: seq<string>, respond: string -> int)
    requires forall i :: 0 <= i < |names| ==> names[i] in cache
    ensures var run := DownloadAll(root, cache, names, respond);
      && run.fetched == [] && run.stored == []
      && forall i :: 0 <= i < |names| ==> run.results[i] == Some(CachePath(root, names[i]))
  {
    if names != [] {
      AllCachedNoFetch(root, cache, names[..|names| - 1], respond);
    }
  }

  /** Collecting results that are all present and non-empty keeps them all. */
  lemma {:induction false} CollectAllPresent(results: seq<Option<string>>)
    requires forall i :: 0 <= i < |results| ==> results[i].Some? && results[i].value != ""
    ensures Collect(results) == seq(|results|, i requires 0 <= i < |results| => results[i].value)
  {
    if results != [] {
      var front := results[..|results| - 1];
      CollectAllPresent(front);
      var want := seq(|results|, i requires 0 <= i < |results| => results[i].value);
      assert want == seq(|front|, i requires 0 <= i < |front| => front[i].value) + [results[|results| - 1].value];
    }
  }

  /** One more download extends the run by that call's effect. */
  lemma DownloadAllSnoc(root: string, cache: set<string>, names: seq<string>, name: string, respond: string -> int)
    ensures var prev := DownloadAll(root, cache, names, respond);
      var f := DownloadStep(root, cache, name, respond(name));
      DownloadAll(root, cache, names + [name], respond) ==
        Run(prev.results + [f.path],
            prev.stored + (if f.stored then [name] else []),
            prev.fetched + (if f.fetched then [name] else []))
  {
    assert (names + [name])[..|names|] == names;
  }

  /** The URL requested for each fetched name. */
  function Urls(names: seq<string>): (urls: seq<string>) {
    seq(|names|, i requires 0 <= i < |names| => UrlPrefix + names[i])
  }

  lemma UrlsSnoc(names: seq<string>, name: string)
    ensures Urls(names + [name]) == Urls(names) + [UrlPrefix + name]
  {
  }

  /** The pairs of one more month. */
  lemma MonthsOfSnoc(year: nat, months: seq<nat>, j: nat)
    requires j < |months|
    ensures MonthsOf(year, months[..j + 1]) == MonthsOf(year, months[..j]) + [(year, months[j])]
  {
    assert months[..j + 1][..j] == months[..j];
  }

  /** The pairs of one more year. */
  lemma RequestsSnoc(years: seq<nat>, months: seq<nat>, i: nat)
    requires i < |years|
    ensures Requests(years[..i + 1], months) == Requests(years[..i], months) + MonthsOf(years[i], months)
    ensures MonthsOf(years[i], months[..0]) == []
  {
    assert years[..i + 1][..i] == years[..i];
  }

  /** The name of one more pair. */
  lemma NamesOfSnoc(pairs: seq<(nat, nat)>, year: nat, month: nat)
    ensures NamesOf(pairs + [(year, month)]) == NamesOf(pairs) + [FileName(year, month)]
  {
  }

  /** The nested loops of `ensure_files_exist`, one task per (year,
      month), year-major. */
  method TaskNames(years: seq<nat>, months: seq<nat>) returns (names: seq<string>)
    ensures names == FileNames(years, months)
  {
    ghost var pairs: seq<(nat, nat)> := [];
    names := [];
    for i := 0 to |years|
      invariant pairs == Requests(years[..i], months)
      invariant names == NamesOf(pairs)
    {
      RequestsSnoc(years, months, i);
      ghost var done := pairs;
      for j := 0 to |months|
        invariant pairs == done + MonthsOf(years[i], months[..j])
        invariant names == NamesOf(pairs)
      {
        MonthsOfSnoc(years[i], months, j);
        Associative(done, MonthsOf(years[i], months[..j]), [(years[i], months[j])]);
        NamesOfSnoc(pairs, years[i], months[j]);
        names := names + [FileName(years[i], months[j])];
        pairs := pairs + [(years[i], months[j])];
      }
      assert months[..|months|] == months;
    }
    assert years[..|years|] == years;
  }

  /** The local cache directory, `cache_dir`: whether it exists and the file
      names `os.listdir` reports, plus a record of every GET sent. */
  class CacheDir {
    const root: string
    var present: bool
    var entries: seq<string>
    ghost var requests: seq<string>

    /** A directory that does not exist lists nothing; a listing names each
        file once. */
    ghost predicate Valid()
      reads this
    {
      (!present ==> entries == []) && NoDuplicates(entries)
    }

    /** The names a lookup finds. */
    ghost function Names(): set<string>
      reads this
    {
      Elements(entries)
    }

    constructor (root: string, present: bool, entries: seq<string>)
      requires !present ==> entries == []
      requires NoDuplicates(entries)
      ensures Valid()
      ensures this.root == root && this.present == present && this.entries == entries
      ensures requests == []
    {
      this.root := root;
      this.present := present;
      this.entries := entries;
      requests := [];
    }

    /** `is_file_cached`: false when the directory is missing, otherwise a
        scan of the listing that stops at the first match. */
    method IsFileCached(name: string) returns (cached: bool)
      ensures cached == (present && name in entries)
      ensures Valid() ==> (cached <==> name in Names())
    {
      if !present {
        return false;
      }
      for i := 0 to |entries|
        invariant name !in entries[..i]
      {
        if entries[i] == name {
          return true;
        }
      }
      assert entries[..|entries|] == entries;
      return false;
    }

    /** The part of `download_file` after the cache check: one GET; a status
        outside 200..299 returns nothing; otherwise the directory is made if
        missing and the body written, which adds the name to the listing
        unless a file of that name is already there. */
    method Transfer(name: string, status: int) returns (path: Option<string>)
      requires Valid()
      modifies this
      ensures Valid()
      ensures path == if IsSuccess(status) then Some(CachePath(root, name)) else None
      ensures requests == old(requests) + [UrlPrefix + name]
      ensures present == (old(present) || IsSuccess(status))
      ensures entries == if IsSuccess(status) && name !in old(entries) then old(entries) + [name] else old(entries)
      ensures Names() == if IsSuccess(status) then old(Names()) + {name} else old(Names())
    {
      requests := requests + [UrlPrefix + name];
      if status >= 300 || status < 200 {
        return None;
      }
      present := true;
      if name !in entries {
        entries := entries + [name];
        DistinctConcat(old(entries), [name]);
        ElementsConcat(old(entries), [name]);
      }
      return Some(CachePath(root, name));
    }

    /** `download_file` called on its own, with the server's answer given as
        `status`. */
    method Download(name: string, status: int) returns (path: Option<string>)
      requires Valid()
      modifies this
      ensures Valid()
      ensures var f := DownloadStep(root, old(Names()), name, status);
        && path == f.path
        && entries == (if f.stored then old(entries) + [name] else old(entries))
        && present == (old(present) || f.stored)
        && requests == (if f.fetched then old(requests) + [UrlPrefix + name] else old(requests))
    {
      var cached := IsFileCached(name);
      if cached {
        return Some(CachePath(root, name));
      }
      path := Transfer(name, status);
    }

    /** The cache state reached from the names `cache0`, the existence flag
        `present0` and the request log `requests0` by the calls summarised
        in `run`. */
    ghost predicate Reached(run: Run, cache0: set<string>, present0: bool, requests0: seq<string>)
      reads this
    {
      && Names() == cache0 + Elements(run.stored)
      && present == (present0 || run.stored != [])
      && requests == requests0 + Urls(run.fetched)
    }

    /** The first pass of the task group: each task runs its cache check
        before any download has returned, so all of them see the listing as
        it is now. */
    method CheckAll(names: seq<string>) returns (hits: seq<bool>)
      requires Valid()
      ensures |hits| == |names|
      ensures forall k :: 0 <= k < |names| ==> (hits[k] <==> names[k] in Names())
    {
      hits := [];
      for k := 0 to |names|
        invariant |hits| == k
        invariant forall i :: 0 <= i < k ==> (hits[i] <==> names[i] in Names())
      {
        var hit := IsFileCached(names[k]);
        hits := hits + [hit];
      }
    }

    /** A task resuming: a cache hit returns its path, a miss completes its
        download. The run summary grows by that call's effect. */
    method Complete(name: string, hit: bool, respond: string -> int, ghost cache0: set<string>,
                    ghost present0: bool, ghost requests0: seq<string>, ghost done: seq<string>)
      returns (p: Option<string>)
      requires Valid()
      requires hit == (name in cache0)
      requires Reached(DownloadAll(root, cache0, done, respond), cache0, present0, requests0)
      modifies this
      ensures Valid()
      ensures var run := DownloadAll(root, cache0, done + [name], respond);
        && run.results == DownloadAll(root, cache0, done, respond).results + [p]
        && Reached(run, cache0, present0, requests0)
    {
      ghost var run := DownloadAll(root, cache0, done, respond);
      DownloadAllSnoc(root, cache0, done, name, respond);
      if hit {
        p := Some(CachePath(root, name));
        assert run.stored + [] == run.stored && run.fetched + [] == run.fetched;
      } else {
        p := Transfer(name, respond(name));
        UrlsSnoc(run.fetched, name);
        Associative(requests0, Urls(run.fetched), [UrlPrefix + name]);
        if IsSuccess(respond(name)) {
          ElementsConcat(run.stored, [name]);
          assert Elements([name]) == {name};
        } else {
          assert run.stored + [] == run.stored;
        }
      }
    }

    /** The tasks resuming, in request order, after every cache check was
        made against the listing as it is now. */
    method CompleteAll(names: seq<string>, hits: seq<bool>, respond: string -> int)
      returns (results: seq<Option<string>>)
      requires Valid()
      requires |hits| == |names|
      requires forall k :: 0 <= k < |names| ==> (hits[k] <==> names[k] in Names())
      modifies this
      ensures Valid()
      ensures var run := DownloadAll(root, old(Names()), names, respond);
        && results == run.results
        && Reached(run, old(Names()), old(present), old(requests))
    {
      ghost var cache0, present0, requests0 := Names(), present, requests;
      results := [];
      assert Elements([]) == {} && Urls([]) == [];
      assert names[..0] == [];
      for k := 0 to |names|
        invariant Valid()
        invariant results == DownloadAll(root, cache0, names[..k], respond).results
        invariant Reached(DownloadAll(root, cache0, names[..k], respond), cache0, present0, requests0)
      {
        ghost var done := names[..k];
        var p := Complete(names[k], hits[k], respond, cache0, present0, requests0, done);
        assert names[..k + 1] == done + [names[k]];
        results := results + [p];
      }
      assert names[..|names|] == names;
    }

    /** `ensure_files_exist`: every task checks the cache first, then every
        task completes, in request order; the result is the paths of the
        calls that returned one. `respond` gives the server's status for
        each name. */
    method EnsureFilesExist(years: seq<nat>, months: seq<nat>, respond: string -> int)
      returns (paths: seq<string>)
      requires Valid()
      modifies this
      ensures Valid()
      ensures var run := DownloadAll(root, old(Names()), FileNames(years, months), respond);
        && paths == Collect(run.results)
        && Reached(run, old(Names()), old(present), old(requests))
    {
      var names := TaskNames(years, months);
      var hits := CheckAll(names);
      var results := CompleteAll(names, hits, respond);
      paths := Collect(results);
    }
  }
}
