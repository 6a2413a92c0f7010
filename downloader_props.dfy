/** Properties of a `downloadFFmpegFiles` run and of verification (lib/services/ffmpeg-downloader.js). */
module DownloaderProperties {
  import opened Outcomes
  import opened FFmpegConfig
  import opened BlobStore
  import opened DownloadStatusFlag
  import opened Downloader

  // ---------------------------------------------------------------- rounding

  /** Rounding preserves order. */
  lemma RoundPercentMonotone(a: nat, b: nat, total: nat)
    requires total > 0 && a <= b
    ensures RoundPercent(a, total) <= RoundPercent(b, total)
  {
    var pa, pb := RoundPercent(a, total), RoundPercent(b, total);
    if pa > pb {
      assert 2 * total * (pb + 1) <= 2 * total * pa by {
        MulMonotone(2 * total, pb + 1, pa);
      }
    }
  }

  lemma MulMonotone(c: nat, x: nat, y: nat)
    requires x <= y
    ensures c * x <= c * y
  {
  }

  /** A share of the total rounds to at most 100, and the whole total to exactly 100. */
  lemma RoundPercentBound(done: nat, total: nat)
    requires total > 0 && done <= total
    ensures RoundPercent(done, total) <= 100
    ensures done == total ==> RoundPercent(done, total) == 100
  {
    var p := RoundPercent(done, total);
    if p > 100 {
      MulMonotone(2 * total, 101, p);
    }
    if done == total && p < 100 {
      MulMonotone(2 * total, p + 1, 100);
    }
  }

  // ---------------------------------------------------------------- progress reports

  /** The progress triples of the Report events of a trace, in the order `onProgress` receives them. */
  function Reports(trace: seq<Event>): seq<Progress>
  {
    if trace == [] then []
    else Reports(trace[..|trace| - 1])
         + (if trace[|trace| - 1].Report? then [trace[|trace| - 1].progress] else [])
  }

  /** The aggregate percentages of a sequence of triples, in order. */
  function Totals(rs: seq<Progress>): seq<nat>
  {
    if rs == [] then [] else Totals(rs[..|rs| - 1]) + [rs[|rs| - 1].totalPercentage]
  }

  /** `Totals` keeps one percentage per triple, in place. */
  lemma {:induction false} TotalsIndex(rs: seq<Progress>)
    ensures |Totals(rs)| == |rs| && forall i :: 0 <= i < |rs| ==> Totals(rs)[i] == rs[i].totalPercentage
  {
    if rs != [] {
      TotalsIndex(rs[..|rs| - 1]);
    }
  }

  /** The aggregate percentages of the Report events of a trace, in order. */
  function Percents(trace: seq<Event>): seq<nat>
  {
    Totals(Reports(trace))
  }

  lemma {:induction false} TotalsAppend(a: seq<Progress>, b: seq<Progress>)
    ensures Totals(a + b) == Totals(a) + Totals(b)
  {
    if b == [] {
      assert a + b == a;
    } else {
      assert (a + b)[..|a + b| - 1] == a + b[..|b| - 1];
      TotalsAppend(a, b[..|b| - 1]);
    }
  }

  lemma {:induction false} ReportsAppend(a: seq<Event>, b: seq<Event>)
    ensures Reports(a + b) == Reports(a) + Reports(b)
  {
    if b == [] {
      assert a + b == a;
    } else {
      assert (a + b)[..|a + b| - 1] == a + b[..|b| - 1];
      ReportsAppend(a, b[..|b| - 1]);
    }
  }

  lemma PercentsAppend(a: seq<Event>, b: seq<Event>)
    ensures Percents(a + b) == Percents(a) + Percents(b)
  {
    ReportsAppend(a, b);
    TotalsAppend(Reports(a), Reports(b));
  }

  predicate NonDecreasing(s: seq<nat>) {
    forall i, j :: 0 <= i < j < |s| ==> s[i] <= s[j]
  }

  /** Whatever the loop has reported so far is ordered and bounded by the current credit. */
  predicate ReportsInv(trace: seq<Event>, credited: nat, total: nat)
    requires total > 0
  {
    NonDecreasing(Percents(trace)) && forall p :: p in Percents(trace) ==> p <= RoundPercent(credited, total)
  }

  /** Appending a report of the new credit keeps the reports ordered. */
  lemma AppendReport(trace: seq<Event>, credited: nat, credited': nat, total: nat, tail: seq<Event>, p: nat)
    requires total > 0 && ReportsInv(trace, credited, total) && credited <= credited'
    requires p == RoundPercent(credited', total) && Percents(tail) == [p]
    ensures ReportsInv(trace + tail, credited', total)
  {
    PercentsAppend(trace, tail);
    RoundPercentMonotone(credited, credited', total);
    var s, s' := Percents(trace), Percents(trace) + [p];
    forall i, j | 0 <= i < j < |s'|
      ensures s'[i] <= s'[j]
    {
      if j == |s| {
        assert s'[i] in s;
      }
    }
  }

  /** Appending events that are not reports keeps the reports as they were. */
  lemma AppendQuiet(trace: seq<Event>, credited: nat, total: nat, tail: seq<Event>)
    requires total > 0 && ReportsInv(trace, credited, total)
    requires forall j :: 0 <= j < |tail| ==> !tail[j].Report?
    ensures ReportsInv(trace + tail, credited, total)
  {
    PercentsAppend(trace, tail);
    NoReports(tail);
  }

  /** The events a cached entry appends report exactly its percentage. */
  lemma CreditTail(key: string, p: nat)
    ensures Percents([FileComplete(key), Report(Progress(p, key, 100))]) == [p]
  {
    var tail := [FileComplete(key), Report(Progress(p, key, 100))];
    NoReports([FileComplete(key)]);
    assert tail[..1] == [FileComplete(key)];
    assert Reports(tail) == [Progress(p, key, 100)];
  }

  /** A cached entry appends one report of its new, larger credit. */
  lemma CreditReports(st: RunState, e: FileEntry, total: nat)
    requires total > 0 && ReportsInv(st.trace, st.credited, total)
    ensures var st' := Credit(st, e, total);
            ReportsInv(st'.trace, st'.credited, total) && st'.credited == st.credited + e.size
  {
    var credited := st.credited + e.size;
    var p := RoundPercent(credited, total);
    var tail := [FileComplete(e.key), Report(Progress(p, e.key, 100))];
    CreditTail(e.key, p);
    AppendReport(st.trace, st.credited, credited, total, tail, p);
  }

  /** Fetching and storing an entry reports nothing and credits nothing. */
  lemma FetchedQuiet(st: RunState, e: FileEntry, net: Network, available: bool, total: nat)
    requires total > 0 && ReportsInv(st.trace, st.credited, total)
    ensures var st' := Fetched(st, e, net, available);
            ReportsInv(st'.trace, st'.credited, total) && st'.credited == st.credited
  {
    var f := DownloadFile(e, net, false);
    var tail := if f.data.Some? && available then Requests(f.attempts) + [Put(e.key), FileComplete(e.key)]
                else Requests(f.attempts);
    assert Fetched(st, e, net, available).trace == st.trace + tail;
    AppendQuiet(st.trace, st.credited, total, tail);
  }

  lemma StepReports(st: RunState, e: FileEntry, net: Network, available: bool, total: nat)
    requires total > 0 && ReportsInv(st.trace, st.credited, total)
    ensures var st' := Step(st, e, net, available, total);
            ReportsInv(st'.trace, st'.credited, total) && st'.credited <= st.credited + e.size
  {
    if st.error.None? && IsCached(available, st.files, e.key) {
      CreditReports(st, e, total);
    } else if st.error.None? && e.key != WORKER_KEY {
      FetchedQuiet(st, e, net, available, total);
    }
  }

  /** A trace made only of requests, writes and completions reports nothing. */
  lemma {:induction false} NoReports(t: seq<Event>)
    requires forall j :: 0 <= j < |t| ==> !t[j].Report?
    ensures Reports(t) == [] && Percents(t) == []
  {
    if t != [] {
      NoReports(t[..|t| - 1]);
    }
  }

  lemma {:induction false} WalkReports(st0: RunState, es: seq<FileEntry>, n: nat, net: Network, available: bool, total: nat)
    requires total > 0 && n <= |es| && ReportsInv(st0.trace, st0.credited, total)
    ensures var st := Walk(st0, es, n, net, available, total); ReportsInv(st.trace, st.credited, total)
    ensures Walk(st0, es, n, net, available, total).credited <= st0.credited + SumSizes(es[..n])
    decreases n
  {
    if n > 0 {
      WalkReports(st0, es, n - 1, net, available, total);
      StepReports(Walk(st0, es, n - 1, net, available, total), es[n - 1], net, available, total);
      SumSizesPrefix(es, n - 1);
    }
  }

  /** The events after the loop report nothing; a credit within the total rounds to at most 100. */
  lemma FinishReports(st: RunState, date: string, available: bool, total: nat)
    requires total > 0 && ReportsInv(st.trace, st.credited, total) && st.credited <= total
    ensures var ps := Percents(Finish(st, date, available).trace);
            NonDecreasing(ps) && forall p :: p in ps ==> p <= 100
  {
    RoundPercentBound(st.credited, total);
    var tail := if st.error.None? && available then [Put(VERSION_KEY), Put(DATE_KEY), SetStatus(DOWNLOAD_STATUS_COMPLETED)]
                else [SetStatus(DOWNLOAD_STATUS_IDLE)];
    assert Finish(st, date, available).trace == st.trace + tail;
    AppendQuiet(st.trace, st.credited, total, tail);
  }

  /**
   * Within one run the aggregate percentages reported are non-decreasing and never above 100.
   * (Only the reports for cached files are modelled.)
   */
  lemma ProgressMonotone(files: map<string, Payload>, net: Network, available: bool, date: string)
    ensures var ps := Percents(DownloadAll(files, net, available, date).trace);
            NonDecreasing(ps) && forall p :: p in ps ==> p <= 100
  {
    var total := GetTotalSize();
    var st0 := Initial(files);
    assert Percents(st0.trace) == [] by {
      NoReports(st0.trace);
    }
    WalkReports(st0, FFMPEG_FILES, |FFMPEG_FILES|, net, available, total);
    SumSizesPrefixBound(FFMPEG_FILES, |FFMPEG_FILES|);
    FinishReports(Walk(st0, FFMPEG_FILES, |FFMPEG_FILES|, net, available, total), date, available, total);
  }

  // ---------------------------------------------------------------- status ordering

  /** Fetching an entry appends requests, a write and a completion, but no status write. */
  lemma FetchedKeepsStatus(st: RunState, e: FileEntry, net: Network, available: bool)
    ensures var t := Fetched(st, e, net, available).trace;
            |st.trace| <= |t| && t[..|st.trace|] == st.trace
            && forall j :: |st.trace| <= j < |t| ==> !t[j].SetStatus?
  {
    var f := DownloadFile(e, net, false);
    var tail := if f.data.Some? && available then Requests(f.attempts) + [Put(e.key), FileComplete(e.key)]
                else Requests(f.attempts);
    assert Fetched(st, e, net, available).trace == st.trace + tail;
  }

  /** One step of the loop appends events other than status writes. */
  lemma StepKeepsStatus(st: RunState, e: FileEntry, net: Network, available: bool, total: nat)
    requires total > 0
    ensures var t := Step(st, e, net, available, total).trace;
            |st.trace| <= |t| && t[..|st.trace|] == st.trace
            && forall j :: |st.trace| <= j < |t| ==> !t[j].SetStatus?
  {
    if st.error.None? && !IsCached(available, st.files, e.key) && e.key != WORKER_KEY {
      FetchedKeepsStatus(st, e, net, available);
    } else if st.error.None? && IsCached(available, st.files, e.key) {
      var t := Credit(st, e, total).trace;
      assert t[..|st.trace|] == st.trace;
    }
  }

  /** The manifest loop only appends to the trace, and never touches the status flag. */
  lemma {:induction false} WalkKeepsStatus(st0: RunState, es: seq<FileEntry>, n: nat, net: Network, available: bool, total: nat)
    requires total > 0 && n <= |es|
    ensures var st := Walk(st0, es, n, net, available, total);
            |st0.trace| <= |st.trace| && st.trace[..|st0.trace|] == st0.trace
            && forall j :: |st0.trace| <= j < |st.trace| ==> !st.trace[j].SetStatus?
    decreases n
  {
    if n > 0 {
      WalkKeepsStatus(st0, es, n - 1, net, available, total);
      var mid := Walk(st0, es, n - 1, net, available, total);
      StepKeepsStatus(mid, es[n - 1], net, available, total);
      var t := Walk(st0, es, n, net, available, total).trace;
      assert t[..|mid.trace|] == mid.trace;
      assert t[..|st0.trace|] == t[..|mid.trace|][..|st0.trace|];
    }
  }

  /** After a loop that wrote no status, the run's last event is its final status. */
  lemma FinishStatus(st: RunState, date: string, available: bool)
    requires |st.trace| >= 1 && st.trace[0] == SetStatus(DOWNLOAD_STATUS_DOWNLOADING)
    requires forall j :: 1 <= j < |st.trace| ==> !st.trace[j].SetStatus?
    ensures var st' := Finish(st, date, available); var t := st'.trace;
            |t| >= 2 && t[0] == SetStatus(DOWNLOAD_STATUS_DOWNLOADING)
            && t[|t| - 1] == SetStatus(FinalStatus(st'))
            && (forall j :: 0 < j < |t| - 1 ==> !t[j].SetStatus?)
            && (st'.error.None? ==> |t| >= 4 && t[|t| - 3] == Put(VERSION_KEY) && t[|t| - 2] == Put(DATE_KEY))
  {
    var tail := if st.error.None? && available then [Put(VERSION_KEY), Put(DATE_KEY), SetStatus(DOWNLOAD_STATUS_COMPLETED)]
                else [SetStatus(DOWNLOAD_STATUS_IDLE)];
    assert Finish(st, date, available).trace == st.trace + tail;
  }

  /**
   * "downloading" is set first and the final status last, with no status change in between;
   * "completed" comes right after the version and date rows are written.
   */
  lemma StatusOrdering(files: map<string, Payload>, net: Network, available: bool, date: string)
    ensures var st := DownloadAll(files, net, available, date); var t := st.trace;
            |t| >= 2 && t[0] == SetStatus(DOWNLOAD_STATUS_DOWNLOADING)
            && t[|t| - 1] == SetStatus(FinalStatus(st))
            && (forall j :: 0 < j < |t| - 1 ==> !t[j].SetStatus?)
            && (st.error.None? ==> |t| >= 4 && t[|t| - 3] == Put(VERSION_KEY) && t[|t| - 2] == Put(DATE_KEY))
  {
    var st0 := Initial(files);
    var walked := Walk(st0, FFMPEG_FILES, |FFMPEG_FILES|, net, available, GetTotalSize());
    WalkKeepsStatus(st0, FFMPEG_FILES, |FFMPEG_FILES|, net, available, GetTotalSize());
    assert walked.trace[0] == SetStatus(DOWNLOAD_STATUS_DOWNLOADING) by {
      assert walked.trace[..1][0] == walked.trace[0];
    }
    FinishStatus(walked, date, available);
  }

  // ---------------------------------------------------------------- per-file outcomes

  /** `k` is stored exactly as it was before the run. */
  predicate Unchanged(f0: map<string, Payload>, f: map<string, Payload>, k: string)
  {
    (k in f <==> k in f0) && (k in f0 ==> f[k] == f0[k])
  }

  /** What the recorded outcome of a processed entry means. */
  predicate OutcomeFacts(f0: map<string, Payload>, st: RunState, e: FileEntry, net: Network, available: bool)
    requires e.key in st.results
  {
    match st.results[e.key]
    case Cached => IsCached(available, f0, e.key) && Unchanged(f0, st.files, e.key)
    case Skipped => e.key == WORKER_KEY && !IsCached(available, f0, e.key) && Unchanged(f0, st.files, e.key)
    case Downloaded =>
      e.key != WORKER_KEY && !IsCached(available, f0, e.key) && available
      && DownloadFile(e, net, false).data.Some?
      && e.key in st.files && st.files[e.key] == DownloadFile(e, net, false).data.value
  }

  /** The error names `e`, an uncached required entry whose download failed or could not be stored. */
  predicate FailedAt(f0: map<string, Payload>, st: RunState, e: FileEntry, net: Network, available: bool)
    requires st.error.Some?
  {
    e.key == st.error.value.key && e.key !in st.results && e.key != WORKER_KEY && !IsCached(available, f0, e.key)
    && (if st.error.value.FetchFailed? then DownloadFile(e, net, false).data.None?
        else DownloadFile(e, net, false).data.Some? && !available)
  }

  /** `url` is one of the two addresses of `e`, an uncached required entry. */
  predicate RequestedFrom(f0: map<string, Payload>, available: bool, e: FileEntry, url: string)
  {
    e.key != WORKER_KEY && !IsCached(available, f0, e.key) && (url == e.url || url == GetFileUrl(e.key, true))
  }

  /** The keys of the first `n` entries of `es`. */
  function KeysBefore(es: seq<FileEntry>, n: nat): set<string>
    requires n <= |es|
  {
    if n == 0 then {} else KeysBefore(es, n - 1) + {es[n - 1].key}
  }

  /** With distinct keys, no later entry shares a key with the first `n`. */
  lemma {:induction false} FreshKey(es: seq<FileEntry>, n: nat, m: nat)
    requires DistinctKeys(es) && n <= m < |es|
    ensures es[m].key !in KeysBefore(es, n)
    decreases n
  {
    if n > 0 {
      FreshKey(es, n - 1, m);
    }
  }

  /** What is known after the first `n` entries of `es` were processed from the stored files `f0`. */
  ghost predicate Inv(f0: map<string, Payload>, es: seq<FileEntry>, n: nat, st: RunState, net: Network, available: bool)
    requires n <= |es|
  {
    && st.results.Keys <= KeysBefore(es, n)
    && (forall k :: k !in st.results ==> Unchanged(f0, st.files, k))
    && (forall i :: 0 <= i < n && es[i].key in st.results ==> OutcomeFacts(f0, st, es[i], net, available))
    && (st.error.None? ==> forall i :: 0 <= i < n ==> es[i].key in st.results)
    && (st.error.Some? ==> exists i :: 0 <= i < n && FailedAt(f0, st, es[i], net, available))
    && (forall j :: 0 <= j < |st.trace| && st.trace[j].Request? ==>
          exists i :: 0 <= i < n && RequestedFrom(f0, available, es[i], st.trace[j].url))
  }

  /** The entry about to be processed has not been seen and is still as it was stored. */
  lemma Fresh(f0: map<string, Payload>, es: seq<FileEntry>, n: nat, st: RunState, net: Network, available: bool)
    requires DistinctKeys(es) && n < |es| && Inv(f0, es, n, st, net, available)
    ensures es[n].key !in st.results && Unchanged(f0, st.files, es[n].key)
    ensures ReadFile(st.files, es[n].key) == ReadFile(f0, es[n].key)
  {
    FreshKey(es, n, n);
  }

  /** Recording an outcome for the fresh entry `es[n]` keeps the facts about the earlier entries and all keys. */
  lemma NewResult(f0: map<string, Payload>, es: seq<FileEntry>, n: nat, st: RunState, st': RunState, net: Network, available: bool)
    requires n < |es| && es[n].key !in st.results
    requires st.results.Keys <= KeysBefore(es, n)
    requires forall k :: k !in st.results ==> Unchanged(f0, st.files, k)
    requires forall i :: 0 <= i < n && es[i].key in st.results ==> OutcomeFacts(f0, st, es[i], net, available)
    requires forall i :: 0 <= i < n ==> es[i].key in st.results
    requires st'.files == st.files && st'.results.Keys == st.results.Keys + {es[n].key}
    requires forall k :: k in st.results ==> st'.results[k] == st.results[k]
    requires OutcomeFacts(f0, st', es[n], net, available)
    ensures st'.results.Keys <= KeysBefore(es, n + 1)
    ensures forall k :: k !in st'.results ==> Unchanged(f0, st'.files, k)
    ensures forall i :: 0 <= i < n + 1 && es[i].key in st'.results ==> OutcomeFacts(f0, st', es[i], net, available)
    ensures forall i :: 0 <= i < n + 1 ==> es[i].key in st'.results
  {
    forall i | 0 <= i < n + 1 && es[i].key in st'.results
      ensures OutcomeFacts(f0, st', es[i], net, available)
    {
      if i < n {
        assert es[i].key in st.results;
        assert st'.results[es[i].key] == st.results[es[i].key];
        assert OutcomeFacts(f0, st, es[i], net, available);
      }
    }
    forall i | 0 <= i < n + 1
      ensures es[i].key in st'.results
    {
      if i < n {
        assert es[i].key in st.results;
      }
    }
  }

  lemma StepInvCached(f0: map<string, Payload>, es: seq<FileEntry>, n: nat, st: RunState, net: Network, available: bool, total: nat)
    requires total > 0 && DistinctKeys(es) && n < |es| && Inv(f0, es, n, st, net, available)
    requires st.error.None? && IsCached(available, st.files, es[n].key)
    ensures Inv(f0, es, n + 1, Credit(st, es[n], total), net, available)
  {
    Fresh(f0, es, n, st, net, available);
    var st' := Credit(st, es[n], total);
    var e := es[n];
    var tail := [FileComplete(e.key), Report(Progress(RoundPercent(st.credited + e.size, total), e.key, 100))];
    assert st'.trace == st.trace + tail;
    NewResult(f0, es, n, st, st', net, available);
    forall j | 0 <= j < |st'.trace| && st'.trace[j].Request?
      ensures exists i :: 0 <= i < n + 1 && RequestedFrom(f0, available, es[i], st'.trace[j].url)
    {
      assert j < |st.trace|;
    }
  }

  lemma StepInvSkipped(f0: map<string, Payload>, es: seq<FileEntry>, n: nat, st: RunState, net: Network, available: bool, total: nat)
    requires total > 0 && DistinctKeys(es) && n < |es| && Inv(f0, es, n, st, net, available)
    requires st.error.None? && !IsCached(available, st.files, es[n].key) && es[n].key == WORKER_KEY
    ensures Inv(f0, es, n + 1, st.(results := st.results[es[n].key := Skipped]), net, available)
  {
    Fresh(f0, es, n, st, net, available);
    var e := es[n];
    var st' := st.(results := st.results[e.key := Skipped]);
    assert st'.results[e.key] == Skipped && st'.files == st.files;
    assert !IsCached(available, f0, e.key);
    assert st'.results.Keys == st.results.Keys + {e.key};
    NewResult(f0, es, n, st, st', net, available);
    RequestsWiden(f0, es, n, st.trace, available);
    assert st'.trace == st.trace && st'.error.None?;
  }

  /** Requests justified by the first `n` entries are justified by the first `n + 1`. */
  lemma RequestsWiden(f0: map<string, Payload>, es: seq<FileEntry>, n: nat, t: seq<Event>, available: bool)
    requires n < |es|
    requires forall j :: 0 <= j < |t| && t[j].Request? ==> exists i :: 0 <= i < n && RequestedFrom(f0, available, es[i], t[j].url)
    ensures forall j :: 0 <= j < |t| && t[j].Request? ==> exists i :: 0 <= i < n + 1 && RequestedFrom(f0, available, es[i], t[j].url)
  {
    forall j | 0 <= j < |t| && t[j].Request?
      ensures exists i :: 0 <= i < n + 1 && RequestedFrom(f0, available, es[i], t[j].url)
    {
      var i :| 0 <= i < n && RequestedFrom(f0, available, es[i], t[j].url);
    }
  }

  /** The events of processing an uncached required entry. */
  function FetchTail(e: FileEntry, net: Network, available: bool): seq<Event>
  {
    var f := DownloadFile(e, net, false);
    if f.data.Some? && available then Requests(f.attempts) + [Put(e.key), FileComplete(e.key)]
    else Requests(f.attempts)
  }

  /** Every request appended for `e` goes to one of its two addresses. */
  lemma FetchRequests(f0: map<string, Payload>, es: seq<FileEntry>, n: nat, st: RunState, net: Network, available: bool)
    requires n < |es| && Inv(f0, es, n, st, net, available)
    requires !IsCached(available, f0, es[n].key) && es[n].key != WORKER_KEY
    ensures var t := st.trace + FetchTail(es[n], net, available);
            forall j :: 0 <= j < |t| && t[j].Request? ==> exists i :: 0 <= i < n + 1 && RequestedFrom(f0, available, es[i], t[j].url)
  {
    var tail := FetchTail(es[n], net, available);
    var f := DownloadFile(es[n], net, false);
    var t := st.trace + tail;
    forall j | 0 <= j < |t| && t[j].Request?
      ensures exists i :: 0 <= i < n + 1 && RequestedFrom(f0, available, es[i], t[j].url)
    {
      if j >= |st.trace| {
        assert t[j] == tail[j - |st.trace|];
        assert j - |st.trace| < |f.attempts|;
        assert RequestedFrom(f0, available, es[n], t[j].url);
      } else {
        assert t[j] == st.trace[j];
      }
    }
  }

  lemma StepInvStored(f0: map<string, Payload>, es: seq<FileEntry>, n: nat, st: RunState, net: Network, available: bool, total: nat)
    requires total > 0 && DistinctKeys(es) && n < |es| && Inv(f0, es, n, st, net, available)
    requires st.error.None? && !IsCached(available, st.files, es[n].key) && es[n].key != WORKER_KEY
    requires DownloadFile(es[n], net, false).data.Some? && available
    ensures Inv(f0, es, n + 1, Fetched(st, es[n], net, available), net, available)
  {
    Fresh(f0, es, n, st, net, available);
    var e := es[n];
    var data := DownloadFile(e, net, false).data.value;
    var st' := st.(files := st.files[e.key := data], results := st.results[e.key := Downloaded],
                   trace := st.trace + FetchTail(e, net, available));
    assert Fetched(st, e, net, available) == st';
    FetchRequests(f0, es, n, st, net, available);
    StoredResult(f0, es, n, st, data, st.trace + FetchTail(e, net, available), net, available);
  }

  /** Storing and recording the fresh entry `es[n]` keeps the facts about the earlier entries and all keys. */
  lemma StoredResult(f0: map<string, Payload>, es: seq<FileEntry>, n: nat, st: RunState, data: Payload, t: seq<Event>, net: Network, available: bool)
    requires DistinctKeys(es) && n < |es| && Inv(f0, es, n, st, net, available) && st.error.None? && es[n].key !in st.results
    requires es[n].key != WORKER_KEY && !IsCached(available, f0, es[n].key) && available
    requires DownloadFile(es[n], net, false).data == Some(data)
    ensures var st' := st.(files := st.files[es[n].key := data], results := st.results[es[n].key := Downloaded], trace := t);
            && st'.results.Keys <= KeysBefore(es, n + 1)
            && (forall k :: k !in st'.results ==> Unchanged(f0, st'.files, k))
            && (forall i :: 0 <= i < n + 1 && es[i].key in st'.results ==> OutcomeFacts(f0, st', es[i], net, available))
            && (forall i :: 0 <= i < n + 1 ==> es[i].key in st'.results)
  {
    var e := es[n];
    var st' := st.(files := st.files[e.key := data], results := st.results[e.key := Downloaded], trace := t);
    forall i | 0 <= i < n + 1 && es[i].key in st'.results
      ensures OutcomeFacts(f0, st', es[i], net, available)
    {
      if i < n {
        assert es[i].key != e.key;
        assert OutcomeFacts(f0, st, es[i], net, available);
      }
    }
    forall k | k !in st'.results
      ensures Unchanged(f0, st'.files, k)
    {
      assert k != e.key;
    }
  }

  lemma StepInvFailed(f0: map<string, Payload>, es: seq<FileEntry>, n: nat, st: RunState, net: Network, available: bool, total: nat)
    requires total > 0 && DistinctKeys(es) && n < |es| && Inv(f0, es, n, st, net, available)
    requires st.error.None? && !IsCached(available, st.files, es[n].key) && es[n].key != WORKER_KEY
    requires !(DownloadFile(es[n], net, false).data.Some? && available)
    ensures Inv(f0, es, n + 1, Fetched(st, es[n], net, available), net, available)
  {
    Fresh(f0, es, n, st, net, available);
    var e := es[n];
    var f := DownloadFile(e, net, false);
    var err := if f.data.None? then FetchFailed(e.key) else StoreFailed(e.key);
    var st' := st.(trace := st.trace + FetchTail(e, net, available), error := Some(err));
    assert Fetched(st, e, net, available) == st';
    FetchRequests(f0, es, n, st, net, available);
    forall i | 0 <= i < n + 1 && es[i].key in st'.results
      ensures OutcomeFacts(f0, st', es[i], net, available)
    {
      assert OutcomeFacts(f0, st, es[i], net, available);
    }
    assert FailedAt(f0, st', es[n], net, available);
  }

  /** Once an error was thrown, the state stays as it is, and what was known still holds. */
  lemma StepInvStopped(f0: map<string, Payload>, es: seq<FileEntry>, n: nat, st: RunState, net: Network, available: bool)
    requires DistinctKeys(es) && n < |es| && Inv(f0, es, n, st, net, available) && st.error.Some?
    ensures Inv(f0, es, n + 1, st, net, available)
  {
    var i :| 0 <= i < n && FailedAt(f0, st, es[i], net, available);
    Fresh(f0, es, n, st, net, available);
    assert KeysBefore(es, n + 1) == KeysBefore(es, n) + {es[n].key};
    RequestsWiden(f0, es, n, st.trace, available);
  }

  lemma StepInv(f0: map<string, Payload>, es: seq<FileEntry>, n: nat, st: RunState, net: Network, available: bool, total: nat)
    requires total > 0 && DistinctKeys(es) && n < |es| && Inv(f0, es, n, st, net, available)
    ensures Inv(f0, es, n + 1, Step(st, es[n], net, available, total), net, available)
  {
    if st.error.Some? {
      StepInvStopped(f0, es, n, st, net, available);
    } else if IsCached(available, st.files, es[n].key) {
      StepInvCached(f0, es, n, st, net, available, total);
    } else if es[n].key == WORKER_KEY {
      StepInvSkipped(f0, es, n, st, net, available, total);
    } else if DownloadFile(es[n], net, false).data.Some? && available {
      StepInvStored(f0, es, n, st, net, available, total);
    } else {
      StepInvFailed(f0, es, n, st, net, available, total);
    }
  }

  lemma {:induction false} WalkInv(f0: map<string, Payload>, es: seq<FileEntry>, n: nat, net: Network, available: bool, total: nat)
    requires total > 0 && DistinctKeys(es) && n <= |es|
    ensures Inv(f0, es, n, Walk(Initial(f0), es, n, net, available, total), net, available)
    decreases n
  {
    if n > 0 {
      var m := n - 1;
      var prev := Walk(Initial(f0), es, m, net, available, total);
      WalkInv(f0, es, m, net, available, total);
      StepInv(f0, es, m, prev, net, available, total);
      assert Walk(Initial(f0), es, n, net, available, total) == Step(prev, es[m], net, available, total);
    }
  }

  // ---------------------------------------------------------------- the run over the manifest

  /** The manifest loop of a run from the stored files `f0`, before the metadata rows. */
  function Walked(f0: map<string, Payload>, net: Network, available: bool): RunState
  {
    Walk(Initial(f0), FFMPEG_FILES, |FFMPEG_FILES|, net, available, GetTotalSize())
  }

  lemma ManifestInv(f0: map<string, Payload>, net: Network, available: bool)
    ensures Inv(f0, FFMPEG_FILES, |FFMPEG_FILES|, Walked(f0, net, available), net, available)
  {
    ManifestWellFormed();
    WalkInv(f0, FFMPEG_FILES, |FFMPEG_FILES|, net, available, GetTotalSize());
  }

  /** With the store unavailable the core file can be neither found nor stored, so the loop throws. */
  lemma UnavailableThrows(f0: map<string, Payload>, net: Network)
    ensures Walked(f0, net, false).error.Some?
  {
    ManifestInv(f0, net, false);
  }

  /** The metadata rows are not manifest entries. */
  lemma MetadataKeysApart()
    ensures forall i :: 0 <= i < |FFMPEG_FILES| ==> FFMPEG_FILES[i].key != VERSION_KEY && FFMPEG_FILES[i].key != DATE_KEY
  {
  }

  /**
   * The outcome of every processed manifest entry: a cached entry is credited and left alone, an
   * uncached worker is skipped and left alone, any other entry is stored exactly as downloaded.
   */
  lemma DownloadOutcomes(f0: map<string, Payload>, net: Network, available: bool, date: string)
    ensures var r := DownloadAll(f0, net, available, date);
            forall i :: 0 <= i < |FFMPEG_FILES| && FFMPEG_FILES[i].key in r.results ==>
              OutcomeFacts(f0, r, FFMPEG_FILES[i], net, available)
  {
    ManifestInv(f0, net, available);
    MetadataKeysApart();
    var w := Walked(f0, net, available);
    var r := Finish(w, date, available);
    forall i | 0 <= i < |FFMPEG_FILES| && FFMPEG_FILES[i].key in r.results
      ensures OutcomeFacts(f0, r, FFMPEG_FILES[i], net, available)
    {
      FinishKeepsOutcome(f0, w, FFMPEG_FILES[i], net, available, date);
    }
  }

  /** Writing the metadata rows leaves the outcome of a manifest entry as it was. */
  lemma FinishKeepsOutcome(f0: map<string, Payload>, w: RunState, e: FileEntry, net: Network, available: bool, date: string)
    requires e.key != VERSION_KEY && e.key != DATE_KEY && e.key in w.results && OutcomeFacts(f0, w, e, net, available)
    ensures var r := Finish(w, date, available); e.key in r.results && OutcomeFacts(f0, r, e, net, available)
  {
  }

  /**
   * A run succeeds iff every manifest entry has an outcome; a failure names an uncached required entry
   * whose download failed, or could not be stored, and which has no outcome.
   */
  lemma DownloadSuccessIff(f0: map<string, Payload>, net: Network, available: bool, date: string)
    ensures var r := DownloadAll(f0, net, available, date);
            && (r.error.None? <==> forall i :: 0 <= i < |FFMPEG_FILES| ==> FFMPEG_FILES[i].key in r.results)
            && (r.error.Some? ==> exists i :: 0 <= i < |FFMPEG_FILES| && FailedAt(f0, r, FFMPEG_FILES[i], net, available))
  {
    ManifestInv(f0, net, available);
    UnavailableThrows(f0, net);
    var w := Walked(f0, net, available);
    if w.error.Some? {
      var r := DownloadAll(f0, net, available, date);
      var i :| 0 <= i < |FFMPEG_FILES| && FailedAt(f0, w, FFMPEG_FILES[i], net, available);
      assert FailedAt(f0, r, FFMPEG_FILES[i], net, available);
    }
  }

  /**
   * No rollback and no stray writes: keys without an outcome are as they were stored, and the version
   * and date rows are written only when the run succeeds.
   */
  lemma DownloadFrame(f0: map<string, Payload>, net: Network, available: bool, date: string)
    ensures var r := DownloadAll(f0, net, available, date);
            && (forall k :: k !in r.results && k != VERSION_KEY && k != DATE_KEY ==> Unchanged(f0, r.files, k))
            && (r.error.Some? ==> forall k :: k !in r.results ==> Unchanged(f0, r.files, k))
            && (r.error.None? ==> r.files[VERSION_KEY] == Text(FFMPEG_VERSION) && r.files[DATE_KEY] == Text(date))
  {
    ManifestInv(f0, net, available);
    UnavailableThrows(f0, net);
  }

  /** Every request of a run goes to an address of an uncached required entry. */
  lemma RequestsOnlyUncached(f0: map<string, Payload>, net: Network, available: bool, date: string)
    ensures var t := DownloadAll(f0, net, available, date).trace;
            forall j :: 0 <= j < |t| && t[j].Request? ==>
              exists i :: 0 <= i < |FFMPEG_FILES| && RequestedFrom(f0, available, FFMPEG_FILES[i], t[j].url)
  {
    ManifestInv(f0, net, available);
    var w := Walked(f0, net, available);
    var t := DownloadAll(f0, net, available, date).trace;
    assert t[..|w.trace|] == w.trace;
    forall j | 0 <= j < |t| && t[j].Request?
      ensures exists i :: 0 <= i < |FFMPEG_FILES| && RequestedFrom(f0, available, FFMPEG_FILES[i], t[j].url)
    {
      assert j < |w.trace| && t[j] == w.trace[j];
    }
  }

  /** A file found in the cache is never fetched, from either CDN; nor is the worker. */
  lemma CachedNeverFetched(f0: map<string, Payload>, net: Network, available: bool, date: string, i: nat)
    requires i < |FFMPEG_FILES|
    requires IsCached(available, f0, FFMPEG_FILES[i].key) || FFMPEG_FILES[i].key == WORKER_KEY
    ensures var t := DownloadAll(f0, net, available, date).trace;
            forall j :: 0 <= j < |t| && t[j].Request? ==>
              t[j].url != FFMPEG_FILES[i].url && t[j].url != GetFileUrl(FFMPEG_FILES[i].key, true)
  {
    RequestsOnlyUncached(f0, net, available, date);
    ManifestWellFormed();
    var t := DownloadAll(f0, net, available, date).trace;
    forall j | 0 <= j < |t| && t[j].Request?
      ensures t[j].url != FFMPEG_FILES[i].url && t[j].url != GetFileUrl(FFMPEG_FILES[i].key, true)
    {
      var m :| 0 <= m < |FFMPEG_FILES| && RequestedFrom(f0, available, FFMPEG_FILES[m], t[j].url);
      var km, ki := FFMPEG_FILES[m].key, FFMPEG_FILES[i].key;
      if t[j].url == FFMPEG_FILES[i].url || t[j].url == GetFileUrl(ki, true) {
        if t[j].url == FFMPEG_FILES[m].url {
          if t[j].url == FFMPEG_FILES[i].url {
            GetFileUrlInjective(km, false, ki, false);
          } else {
            GetFileUrlInjective(km, false, ki, true);
          }
        } else {
          if t[j].url == FFMPEG_FILES[i].url {
            GetFileUrlInjective(km, true, ki, false);
          } else {
            GetFileUrlInjective(km, true, ki, true);
          }
        }
        assert false;
      }
    }
  }

  // ---------------------------------------------------------------- scenarios

  /** The rounding of `done/total` is the one integer the rounding bounds allow. */
  lemma RoundPercentUnique(done: nat, total: nat, q: nat)
    requires total > 0 && 2 * total * q <= 200 * done + total < 2 * total * (q + 1)
    ensures RoundPercent(done, total) == q
  {
    var p := RoundPercent(done, total);
    if p < q {
      MulMonotone(2 * total, p + 1, q);
    } else if p > q {
      MulMonotone(2 * total, q + 1, p);
    }
  }

  /** A cached entry adds its size to the credit, records `Cached` and reports the new percentage. */
  lemma StepCached(st: RunState, e: FileEntry, net: Network, available: bool, total: nat)
    requires total > 0 && st.error.None? && IsCached(available, st.files, e.key)
    ensures var st' := Step(st, e, net, available, total);
            && st'.error.None? && st'.files == st.files && st'.credited == st.credited + e.size
            && st'.results == st.results[e.key := Cached]
            && st'.trace == st.trace + [FileComplete(e.key), Report(Progress(RoundPercent(st'.credited, total), e.key, 100))]
  {
  }

  /** The results of the first `n` entries of `es`, each recorded as cached. */
  function AllCached(es: seq<FileEntry>, n: nat): map<string, FileOutcome>
    requires n <= |es|
  {
    if n == 0 then map[] else AllCached(es, n - 1)[es[n - 1].key := Cached]
  }

  /** Over entries that are all cached, the loop writes nothing, credits every entry and marks it cached. */
  lemma {:induction false} WalkAllCached(st0: RunState, es: seq<FileEntry>, n: nat, net: Network, available: bool, total: nat)
    requires total > 0 && st0.error.None? && st0.results == map[] && n <= |es|
    requires forall i :: 0 <= i < n ==> IsCached(available, st0.files, es[i].key)
    ensures var w := Walk(st0, es, n, net, available, total);
            && w.error.None? && w.files == st0.files && w.credited == st0.credited + SumSizes(es[..n])
            && w.results == AllCached(es, n)
    decreases n
  {
    if n > 0 {
      WalkAllCached(st0, es, n - 1, net, available, total);
      SumSizesPrefix(es, n - 1);
      StepCached(Walk(st0, es, n - 1, net, available, total), es[n - 1], net, available, total);
    }
  }

  /** Over entries that are all cached, the loop requests nothing and ends on the report of the last entry. */
  lemma {:induction false} WalkAllCachedTrace(st0: RunState, es: seq<FileEntry>, n: nat, net: Network, available: bool, total: nat)
    requires total > 0 && st0.error.None? && n <= |es|
    requires forall i :: 0 <= i < n ==> IsCached(available, st0.files, es[i].key)
    requires forall j :: 0 <= j < |st0.trace| ==> !st0.trace[j].Request?
    ensures var w := Walk(st0, es, n, net, available, total);
            && w.error.None? && w.files == st0.files
            && (forall j :: 0 <= j < |w.trace| ==> !w.trace[j].Request?)
            && (n > 0 ==> |w.trace| > 0 && w.trace[|w.trace| - 1] == Report(Progress(RoundPercent(w.credited, total), es[n - 1].key, 100)))
    decreases n
  {
    if n > 0 {
      WalkAllCachedTrace(st0, es, n - 1, net, available, total);
      var w := Walk(st0, es, n - 1, net, available, total);
      var e := es[n - 1];
      StepCached(w, e, net, available, total);
      var tail := [FileComplete(e.key), Report(Progress(RoundPercent(w.credited + e.size, total), e.key, 100))];
      var t' := w.trace + tail;
      assert Walk(st0, es, n, net, available, total).trace == t';
      forall j | 0 <= j < |t'|
        ensures !t'[j].Request?
      {
        if j >= |w.trace| {
          assert t'[j] == tail[j - |w.trace|];
        }
      }
    }
  }

  /**
   * Everything cached: the run succeeds without a single request, every entry is marked cached, the
   * last report is 100%, and only the version and date rows are written.
   */
  lemma AllCachedRun(f0: map<string, Payload>, net: Network, available: bool, date: string)
    requires forall i :: 0 <= i < |FFMPEG_FILES| ==> IsCached(available, f0, FFMPEG_FILES[i].key)
    ensures var r := DownloadAll(f0, net, available, date); var t := r.trace;
            && r.error.None?
            && r.results == map[CORE_KEY := Cached, WASM_KEY := Cached, WORKER_KEY := Cached]
            && (forall j :: 0 <= j < |t| ==> !t[j].Request?)
            && |t| >= 4 && t[|t| - 4] == Report(Progress(100, WORKER_KEY, 100))
            && r.files == f0[VERSION_KEY := Text(FFMPEG_VERSION)][DATE_KEY := Text(date)]
  {
    var total := GetTotalSize();
    WalkAllCached(Initial(f0), FFMPEG_FILES, |FFMPEG_FILES|, net, available, total);
    WalkAllCachedTrace(Initial(f0), FFMPEG_FILES, |FFMPEG_FILES|, net, available, total);
    assert FFMPEG_FILES[..|FFMPEG_FILES|] == FFMPEG_FILES;
    RoundPercentBound(SumSizes(FFMPEG_FILES), total);
  }

  /**
   * Core and wasm cached, worker missing: the run succeeds without a request, the worker is skipped,
   * and the last report is 99%, because the worker's share is never credited.
   */
  lemma RequiredCachedRun(f0: map<string, Payload>, net: Network, available: bool, date: string)
    requires IsCached(available, f0, CORE_KEY) && IsCached(available, f0, WASM_KEY) && !IsCached(available, f0, WORKER_KEY)
    ensures var r := DownloadAll(f0, net, available, date); var t := r.trace;
            && r.error.None?
            && r.results == map[CORE_KEY := Cached, WASM_KEY := Cached, WORKER_KEY := Skipped]
            && (forall j :: 0 <= j < |t| ==> !t[j].Request?)
            && |t| >= 4 && t[|t| - 4] == Report(Progress(99, WASM_KEY, 100))
  {
    var total := GetTotalSize();
    WalkAllCached(Initial(f0), FFMPEG_FILES, |FFMPEG_FILES| - 1, net, available, total);
    WalkAllCachedTrace(Initial(f0), FFMPEG_FILES, |FFMPEG_FILES| - 1, net, available, total);
    assert SumSizes(FFMPEG_FILES[..2]) == 500 * 1024 + 8 * 1024 * 1024 by {
      SumSizesPrefix(FFMPEG_FILES, 1);
      SumSizesPrefix(FFMPEG_FILES, 0);
      assert FFMPEG_FILES[..0] == [];
    }
    RoundPercentUnique(500 * 1024 + 8 * 1024 * 1024, total, 99);
  }

  /**
   * Nothing cached and no network: the core file is requested from both CDNs, the run fails on it,
   * nothing is written, and the flag goes back to "idle".
   */
  lemma OfflineEmptyRun(available: bool, date: string)
    ensures var r := DownloadAll(map[], map[], available, date);
            && ResultOf(r) == DownloadResult(false, Some(FetchFailed(CORE_KEY)), map[])
            && r.files == map[]
            && r.trace == [SetStatus(DOWNLOAD_STATUS_DOWNLOADING), Request(CORE.url), Request(GetFileUrl(CORE_KEY, true)),
                           SetStatus(DOWNLOAD_STATUS_IDLE)]
  {
    var total := GetTotalSize();
    assert Walk(Initial(map[]), FFMPEG_FILES, 1, map[], available, total).error.Some?;
    WalkStopsAfterError(Initial(map[]), FFMPEG_FILES, 1, |FFMPEG_FILES|, map[], available, total);
  }

  // ---------------------------------------------------------------- readiness

  /** The payloads a run can store for an entry have the entry's declared type and are not empty. */
  predicate Shaped(e: FileEntry, p: Payload)
  {
    Truthy(p) && (e.fileType == Wasm ==> p.Binary?) && (e.fileType == Js ==> p.Text?)
  }

  /** Every required entry that verifies is also reported cached by `areFilesCached`. */
  lemma AllValidIsCached(files: map<string, Payload>)
    requires AllValid(files)
    ensures RequiredCached(true, files)
  {
    forall i | 0 <= i < |FFMPEG_FILES| && FFMPEG_FILES[i].key != WORKER_KEY
      ensures IsCached(true, files, FFMPEG_FILES[i].key)
    {
      assert IsValid(CheckEntry(files, i));
    }
  }

  /** `AllValid` holds exactly when the core and wasm rows are present with their declared types. */
  lemma AllValidCharacterised(files: map<string, Payload>)
    ensures AllValid(files) <==>
              (ReadFile(files, CORE_KEY).Some? && ReadFile(files, CORE_KEY).value.Text?
               && ReadFile(files, WASM_KEY).Some? && ReadFile(files, WASM_KEY).value.Binary?)
  {
    assert IsValid(CheckEntry(files, 2));
    if AllValid(files) {
      assert IsValid(CheckEntry(files, 0)) && IsValid(CheckEntry(files, 1));
    }
  }

  /** An entry cached or downloaded with a payload of its declared type passes verification. */
  lemma OutcomeShaped(f0: map<string, Payload>, st: RunState, e: FileEntry, net: Network, available: bool)
    requires e.key in st.results && st.results[e.key] != Skipped && OutcomeFacts(f0, st, e, net, available)
    requires ReadFile(f0, e.key).Some? ==> Shaped(e, ReadFile(f0, e.key).value)
    requires DownloadFile(e, net, false).data.Some? ==> Shaped(e, DownloadFile(e, net, false).data.value)
    ensures IsValid(CheckFile(e, ReadFile(st.files, e.key)))
  {
  }

  /**
   * A successful run leaves a store that verifies, provided the CDN serves, and the cache holds,
   * payloads of the declared types.
   */
  lemma SuccessfulRunVerifies(f0: map<string, Payload>, net: Network, available: bool, date: string)
    requires forall i :: 0 <= i < |FFMPEG_FILES| && ReadFile(f0, FFMPEG_FILES[i].key).Some? ==>
               Shaped(FFMPEG_FILES[i], ReadFile(f0, FFMPEG_FILES[i].key).value)
    requires forall i :: 0 <= i < |FFMPEG_FILES| && DownloadFile(FFMPEG_FILES[i], net, false).data.Some? ==>
               Shaped(FFMPEG_FILES[i], DownloadFile(FFMPEG_FILES[i], net, false).data.value)
    requires DownloadAll(f0, net, available, date).error.None?
    ensures AllValid(DownloadAll(f0, net, available, date).files)
    ensures RequiredCached(true, DownloadAll(f0, net, available, date).files)
  {
    var r := DownloadAll(f0, net, available, date);
    DownloadOutcomes(f0, net, available, date);
    DownloadSuccessIff(f0, net, available, date);
    OutcomesVerify(f0, r, net, available);
    AllValidIsCached(r.files);
  }

  /** A state in which every entry has an outcome of a well-typed payload passes verification. */
  lemma OutcomesVerify(f0: map<string, Payload>, st: RunState, net: Network, available: bool)
    requires forall i :: 0 <= i < |FFMPEG_FILES| && ReadFile(f0, FFMPEG_FILES[i].key).Some? ==>
               Shaped(FFMPEG_FILES[i], ReadFile(f0, FFMPEG_FILES[i].key).value)
    requires forall i :: 0 <= i < |FFMPEG_FILES| && DownloadFile(FFMPEG_FILES[i], net, false).data.Some? ==>
               Shaped(FFMPEG_FILES[i], DownloadFile(FFMPEG_FILES[i], net, false).data.value)
    requires forall i :: 0 <= i < |FFMPEG_FILES| ==> FFMPEG_FILES[i].key in st.results
    requires forall i :: 0 <= i < |FFMPEG_FILES| && FFMPEG_FILES[i].key in st.results ==>
               OutcomeFacts(f0, st, FFMPEG_FILES[i], net, available)
    ensures AllValid(st.files)
  {
    forall i | 0 <= i < 2
      ensures IsValid(CheckEntry(st.files, i))
    {
      assert FFMPEG_FILES[i].key in st.results;
      OutcomeShaped(f0, st, FFMPEG_FILES[i], net, available);
    }
    assert IsValid(CheckEntry(st.files, 2));
  }
}
