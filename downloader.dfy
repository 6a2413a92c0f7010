/**
 * Download and verification of the engine files (lib/services/ffmpeg-downloader.js).
 * The network is an oracle: a map from URL to the payload a request for it delivers;
 * a request for a URL outside the map fails.
 */
module Downloader {
  import opened Outcomes
  import opened FFmpegConfig
  import opened BlobStore
  import opened DownloadStatusFlag

  /** What the network serves. */
  type Network = map<string, Payload>

  /** Per-file result: `{cached: true}`, `{skipped: true}` or `{cached: false}`, all with `success: true`. */
  datatype FileOutcome = Cached | Skipped | Downloaded

  /** Why a run stopped: a file failed on both mirrors, or the blob store refused a write. */
  datatype DownloadError = FetchFailed(key: string) | StoreFailed(key: string)

  /** `{success, error?, files}` as `downloadFFmpegFiles` returns it. */
  datatype DownloadResult = DownloadResult(success: bool, error: Option<DownloadError>, files: map<string, FileOutcome>)

  /** One `onProgress(totalPercentage, currentFile, fileProgress)` call. */
  datatype Progress = Progress(totalPercentage: nat, currentFile: string, fileProgress: nat)

  /** The externally visible effects of a run, in the order they happen. */
  datatype Event =
    | SetStatus(status: string)   // setDownloadStatus
    | Request(url: string)        // one fetch attempt
    | Put(key: string)            // a successful storeFile
    | Report(progress: Progress)  // onProgress
    | FileComplete(key: string)   // onFileComplete

  /** The two metadata rows written after the manifest. */
  const VERSION_KEY: string := "ffmpeg-version"
  const DATE_KEY: string := "ffmpeg-download-date"

  /** A fetch: the payload obtained, if any, and the URLs tried, in order. */
  datatype Fetch = Fetch(data: Option<Payload>, attempts: seq<string>)

  /**
   * `downloadFile`: try the entry's own URL; when that fails, retry once on the fallback
   * CDN; fail only when the fallback fails too.
   */
  function DownloadFile(entry: FileEntry, net: Network, useFallback: bool): (r: Fetch)
    decreases if useFallback then 0 else 1
    ensures 1 <= |r.attempts| <= 2
    ensures r.attempts[0] == if useFallback then GetFileUrl(entry.key, true) else entry.url
    ensures |r.attempts| == 2 ==> !useFallback && r.attempts[1] == GetFileUrl(entry.key, true)
    ensures forall i :: 0 <= i < |r.attempts| - 1 ==> r.attempts[i] !in net
    ensures r.data.Some? <==> r.attempts[|r.attempts| - 1] in net
    ensures r.data.Some? ==> r.data.value == net[r.attempts[|r.attempts| - 1]]
    ensures r.data.None? ==> |r.attempts| == if useFallback then 1 else 2
  {
    var url := if useFallback then FFMPEG_CDN_FALLBACK + "/" + entry.key else entry.url;
    if url in net then Fetch(Some(net[url]), [url])
    else if useFallback then Fetch(None, [url])
    else
      var retry := DownloadFile(entry, net, true);
      Fetch(retry.data, [url] + retry.attempts)
  }

  /** `Math.round(100 * done / total)` for non-negative operands, in exact arithmetic. */
  function RoundPercent(done: nat, total: nat): (p: nat)
    requires total > 0
    ensures 2 * total * p <= 200 * done + total < 2 * total * (p + 1)
  {
    (200 * done + total) / (2 * total)
  }

  /** One Request event per attempted URL. */
  function Requests(urls: seq<string>): (evs: seq<Event>)
    ensures |evs| == |urls| && forall i :: 0 <= i < |urls| ==> evs[i] == Request(urls[i])
  {
    seq(|urls|, i requires 0 <= i < |urls| => Request(urls[i]))
  }

  /** The local state of a run: the blob store's contents, `totalDownloaded`, `results`, the effects so far, and the error thrown, if any. */
  datatype RunState = RunState(files: map<string, Payload>, credited: nat, results: map<string, FileOutcome>,
                               trace: seq<Event>, error: Option<DownloadError>)

  /** The state right after `setDownloadStatus("downloading")`. */
  function Initial(files: map<string, Payload>): RunState
  {
    RunState(files, 0, map[], [SetStatus(DOWNLOAD_STATUS_DOWNLOADING)], None)
  }

  /** Whether `fileExists` reports the entry as cached. */
  predicate IsCached(available: bool, files: map<string, Payload>, key: string)
  {
    available && ReadFile(files, key).Some?
  }

  /** A cached entry: credited its full size, recorded as cached, reported at file progress 100. */
  function Credit(st: RunState, e: FileEntry, total: nat): RunState
    requires total > 0
  {
    var credited := st.credited + e.size;
    st.(credited := credited, results := st.results[e.key := Cached],
        trace := st.trace + [FileComplete(e.key), Report(Progress(RoundPercent(credited, total), e.key, 100))])
  }

  /**
   * An uncached required entry: fetched (with one retry) and stored; the run throws when both CDNs
   * fail or the store cannot be written.
   */
  function Fetched(st: RunState, e: FileEntry, net: Network, available: bool): RunState
  {
    var f := DownloadFile(e, net, false);
    if f.data.None? then
      st.(trace := st.trace + Requests(f.attempts), error := Some(FetchFailed(e.key)))
    else if !available then
      st.(trace := st.trace + Requests(f.attempts), error := Some(StoreFailed(e.key)))
    else
      st.(files := st.files[e.key := f.data.value], results := st.results[e.key := Downloaded],
          trace := st.trace + Requests(f.attempts) + [Put(e.key), FileComplete(e.key)])
  }

  /**
   * One iteration of the manifest loop. A cached file is credited its full size and
   * reported at 100%; an uncached worker is skipped; any other file is fetched and stored.
   * Once an error was thrown the remaining entries are not looked at.
   */
  function Step(st: RunState, e: FileEntry, net: Network, available: bool, total: nat): RunState
    requires total > 0
  {
    if st.error.Some? then st
    else if IsCached(available, st.files, e.key) then Credit(st, e, total)
    else if e.key == WORKER_KEY then st.(results := st.results[e.key := Skipped])
    else Fetched(st, e, net, available)
  }

  /** The manifest loop over the first `n` entries of `es`, as a left fold: `n` is the loop's progress. */
  function Walk(st0: RunState, es: seq<FileEntry>, n: nat, net: Network, available: bool, total: nat): RunState
    requires total > 0 && n <= |es|
    decreases n
  {
    if n == 0 then st0
    else Step(Walk(st0, es, n - 1, net, available, total), es[n - 1], net, available, total)
  }

  /** After the loop: write the two metadata rows and set the final status, or set "idle" once an error was thrown. */
  function Finish(st: RunState, date: string, available: bool): RunState
  {
    if st.error.Some? then st.(trace := st.trace + [SetStatus(DOWNLOAD_STATUS_IDLE)])
    else if !available then
      st.(error := Some(StoreFailed(VERSION_KEY)), trace := st.trace + [SetStatus(DOWNLOAD_STATUS_IDLE)])
    else
      st.(files := st.files[VERSION_KEY := Text(FFMPEG_VERSION)][DATE_KEY := Text(date)],
          trace := st.trace + [Put(VERSION_KEY), Put(DATE_KEY), SetStatus(DOWNLOAD_STATUS_COMPLETED)])
  }

  /** The whole of `downloadFFmpegFiles` on the manifest, from the store's contents `files`. */
  function DownloadAll(files: map<string, Payload>, net: Network, available: bool, date: string): RunState
  {
    Finish(Walk(Initial(files), FFMPEG_FILES, |FFMPEG_FILES|, net, available, GetTotalSize()), date, available)
  }

  /** The value returned for a final run state. */
  function ResultOf(st: RunState): DownloadResult
  {
    DownloadResult(st.error.None?, st.error, st.results)
  }

  /** The status the run leaves in the session flag. */
  function FinalStatus(st: RunState): string
  {
    if st.error.None? then DOWNLOAD_STATUS_COMPLETED else DOWNLOAD_STATUS_IDLE
  }

  /** Once an error was thrown, further entries change nothing. */
  lemma {:induction false} WalkStopsAfterError(st0: RunState, es: seq<FileEntry>, k: nat, m: nat, net: Network, available: bool, total: nat)
    requires total > 0 && k <= m <= |es|
    requires Walk(st0, es, k, net, available, total).error.Some?
    ensures Walk(st0, es, m, net, available, total) == Walk(st0, es, k, net, available, total)
    decreases m
  {
    if k < m {
      WalkStopsAfterError(st0, es, k, m - 1, net, available, total);
    }
  }

  /**
   * The body of the manifest loop for one entry, from a state with no error: check the
   * cache, skip the worker, or fetch (with one retry) and store.
   */
  method HandleEntry(store: FileStore, e: FileEntry, net: Network, totalSize: nat, credited: nat,
                     results: map<string, FileOutcome>, trace: seq<Event>)
      returns (credited': nat, results': map<string, FileOutcome>, trace': seq<Event>, error: Option<DownloadError>)
    requires totalSize > 0
    modifies store`files
    ensures RunState(store.files, credited', results', trace', error)
         == Step(RunState(old(store.files), credited, results, trace, None), e, net, store.available, totalSize)
  {
    credited', results', trace', error := credited, results, trace, None;
    var present := store.FileExists(e.key);
    if present {
      credited' := credited + e.size;
      trace' := trace + [FileComplete(e.key), Report(Progress(RoundPercent(credited', totalSize), e.key, 100))];
      results' := results[e.key := Cached];
    } else if e.key == WORKER_KEY {
      results' := results[e.key := Skipped];
    } else {
      var fetched := DownloadFile(e, net, false);
      trace' := trace + Requests(fetched.attempts);
      if fetched.data.None? {
        error := Some(FetchFailed(e.key));
      } else {
        var stored := store.StoreFile(e.key, fetched.data.value);
        if stored.Fail? {
          error := Some(StoreFailed(e.key));
        } else {
          trace' := trace' + [Put(e.key), FileComplete(e.key)];
          results' := results[e.key := Downloaded];
        }
      }
    }
  }

  /** The `for...of` loop of `downloadFFmpegFiles` over the entries `es`, stopping at the first error. */
  method RunManifest(store: FileStore, es: seq<FileEntry>, net: Network, totalSize: nat) returns (st: RunState)
    requires totalSize > 0
    modifies store`files
    ensures st == Walk(Initial(old(store.files)), es, |es|, net, store.available, totalSize)
    ensures store.files == st.files
  {
    ghost var st0 := Initial(store.files);
    st := Initial(store.files);
    var i := 0;
    while i < |es| && st.error.None?
      invariant 0 <= i <= |es|
      invariant st == Walk(st0, es, i, net, store.available, totalSize)
      invariant store.files == st.files
    {
      var credited, results, trace, error := HandleEntry(store, es[i], net, totalSize, st.credited, st.results, st.trace);
      st := RunState(store.files, credited, results, trace, error);
      i := i + 1;
    }
    if st.error.Some? {
      WalkStopsAfterError(st0, es, i, |es|, net, store.available, totalSize);
    }
  }

  /**
   * The end of `downloadFFmpegFiles` after the loop left `st`: on no error, store the version
   * and date rows and set "completed"; once an error was thrown, set "idle".
   */
  method FinishRun(store: FileStore, flags: SessionStore, st: RunState, date: string)
      returns (result: DownloadResult, trace: seq<Event>)
    requires store.files == st.files
    modifies store`files, flags`items
    ensures var fin := Finish(st, date, store.available);
            store.files == fin.files && result == ResultOf(fin) && trace == fin.trace
            && flags.items == if flags.inBrowser then old(flags.items)[DOWNLOAD_STATUS_KEY := FinalStatus(fin)]
                              else old(flags.items)
  {
    var error := st.error;
    trace := st.trace;
    if error.None? {
      var v := store.StoreFile(VERSION_KEY, Text(FFMPEG_VERSION));
      if v.Fail? {
        error := Some(StoreFailed(VERSION_KEY));
      } else {
        var d := store.StoreFile(DATE_KEY, Text(date));
        trace := trace + [Put(VERSION_KEY), Put(DATE_KEY)];
      }
    }
    if error.Some? {
      flags.SetDownloadStatus(DOWNLOAD_STATUS_IDLE);
      trace := trace + [SetStatus(DOWNLOAD_STATUS_IDLE)];
    } else {
      flags.SetDownloadStatus(DOWNLOAD_STATUS_COMPLETED);
      trace := trace + [SetStatus(DOWNLOAD_STATUS_COMPLETED)];
    }
    result := DownloadResult(error.None?, error, st.results);
  }

  /**
   * `downloadFFmpegFiles`: set the flag to "downloading", walk the manifest in order, write
   * the metadata rows, and set the flag to "completed"; any error sets it to "idle" instead.
   */
  method DownloadFFmpegFiles(store: FileStore, flags: SessionStore, net: Network, date: string)
      returns (result: DownloadResult, trace: seq<Event>)
    modifies store`files, flags`items
    ensures var st := DownloadAll(old(store.files), net, store.available, date);
            store.files == st.files && result == ResultOf(st) && trace == st.trace
            && flags.items == if flags.inBrowser then old(flags.items)[DOWNLOAD_STATUS_KEY := FinalStatus(st)]
                              else old(flags.items)
  {
    flags.SetDownloadStatus(DOWNLOAD_STATUS_DOWNLOADING);
    var st := RunManifest(store, FFMPEG_FILES, net, GetTotalSize());
    result, trace := FinishRun(store, flags, st, date);
  }

  /** Every required manifest entry (all but the worker) is reported present by `fileExists`. */
  predicate RequiredCached(available: bool, files: map<string, Payload>)
  {
    forall i :: 0 <= i < |FFMPEG_FILES| && FFMPEG_FILES[i].key != WORKER_KEY ==> IsCached(available, files, FFMPEG_FILES[i].key)
  }

  /** `areFilesCached`: check the keys in manifest order, skipping the worker, and answer false at the first missing one. */
  method AreFilesCached(store: FileStore) returns (cached: bool)
    ensures cached <==> RequiredCached(store.available, store.files)
  {
    var keys := GetAllFileKeys();
    for i := 0 to |keys|
      invariant forall j :: 0 <= j < i && FFMPEG_FILES[j].key != WORKER_KEY ==> IsCached(store.available, store.files, FFMPEG_FILES[j].key)
    {
      if keys[i] == WORKER_KEY {
        continue;
      }
      var present := store.FileExists(keys[i]);
      if !present {
        return false;
      }
    }
    return true;
  }

  /** One entry of `verifyFiles`' results: `{valid: true}`, `{valid: true, skipped: true}` or `{valid: false, reason}`. */
  datatype FileCheck = Valid | ValidSkipped | Invalid(reason: string)

  predicate IsValid(c: FileCheck) {
    !c.Invalid?
  }

  /** The verdict on one entry given what `getFile` read for it. */
  function CheckFile(e: FileEntry, file: Option<Payload>): FileCheck
  {
    if e.key == WORKER_KEY then ValidSkipped
    else if file.None? then Invalid("File not found")
    else if e.fileType == Wasm && !file.value.Binary? then Invalid("Invalid WASM format")
    else if e.fileType == Js && !file.value.Text? then Invalid("Invalid JS format")
    else Valid
  }

  /** The verdict on manifest entry i for the given store contents. */
  function CheckEntry(files: map<string, Payload>, i: nat): FileCheck
    requires i < |FFMPEG_FILES|
  {
    CheckFile(FFMPEG_FILES[i], ReadFile(files, FFMPEG_FILES[i].key))
  }

  /** Every manifest entry passes verification. */
  predicate AllValid(files: map<string, Payload>)
  {
    forall i :: 0 <= i < |FFMPEG_FILES| ==> IsValid(CheckEntry(files, i))
  }

  /** `{allValid, results}` as `verifyFiles` returns it. */
  datatype Verification = Verification(allValid: bool, results: map<string, FileCheck>)

  /** The keys of the first n manifest entries. */
  function KeysOf(n: nat): set<string>
    requires n <= |FFMPEG_FILES|
  {
    set i | 0 <= i < n :: FFMPEG_FILES[i].key
  }

  /** The loop body of `verifyFiles` for manifest entry i: the worker is skipped, any other key is read and checked. */
  method VerifyEntry(store: FileStore, i: nat) returns (r: Result<FileCheck, StoreError>)
    requires i < |FFMPEG_FILES|
    ensures FFMPEG_FILES[i].key != WORKER_KEY && !store.available ==> r == Failure(OpenFailed)
    ensures FFMPEG_FILES[i].key == WORKER_KEY || store.available ==> r == Success(CheckEntry(store.files, i))
  {
    var key := FFMPEG_FILES[i].key;
    if key == WORKER_KEY {
      return Success(ValidSkipped);
    }
    var file := store.GetFile(key);
    if file.Failure? {
      return Failure(file.error);
    }
    ManifestWellFormed();
    FindEntryAt(FFMPEG_FILES, i);
    var fileInfo := GetFileInfo(key);
    if file.value.None? {
      r := Success(Invalid("File not found"));
    } else if fileInfo.value.fileType == Wasm && !file.value.value.Binary? {
      r := Success(Invalid("Invalid WASM format"));
    } else if fileInfo.value.fileType == Js && !file.value.value.Text? {
      r := Success(Invalid("Invalid JS format"));
    } else {
      r := Success(Valid);
    }
  }

  /** `Object.values(results).every(r => r.valid)` agrees with `AllValid` once every manifest key has its verdict. */
  lemma EveryValidIsAllValid(files: map<string, Payload>, results: map<string, FileCheck>)
    requires results.Keys == KeysOf(|FFMPEG_FILES|)
    requires forall i :: 0 <= i < |FFMPEG_FILES| ==> results[FFMPEG_FILES[i].key] == CheckEntry(files, i)
    ensures (forall k | k in results :: IsValid(results[k])) <==> AllValid(files)
  {
    forall i | 0 <= i < |FFMPEG_FILES| ensures FFMPEG_FILES[i].key in results {
      assert FFMPEG_FILES[i].key in KeysOf(|FFMPEG_FILES|);
    }
  }

  /** `verifyFiles`: one verdict per manifest key; `allValid` is their conjunction; an unreadable store makes it throw. */
  method VerifyFiles(store: FileStore) returns (r: Result<Verification, StoreError>)
    ensures !store.available ==> r == Failure(OpenFailed)
    ensures store.available ==>
              && r.Success? && r.value.results.Keys == KeysOf(|FFMPEG_FILES|)
              && (forall i :: 0 <= i < |FFMPEG_FILES| ==> r.value.results[FFMPEG_FILES[i].key] == CheckEntry(store.files, i))
              && (r.value.allValid <==> AllValid(store.files))
  {
    var keys := GetAllFileKeys();
    var results: map<string, FileCheck> := map[];
    for i := 0 to |keys|
      invariant results.Keys == KeysOf(i)
      invariant forall j :: 0 <= j < i ==> results[FFMPEG_FILES[j].key] == CheckEntry(store.files, j)
      invariant i > 0 ==> store.available
    {
      var check := VerifyEntry(store, i);
      if check.Failure? {
        return Failure(check.error);
      }
      results := results[keys[i] := check.value];
      assert KeysOf(i + 1) == KeysOf(i) + {keys[i]};
    }
    EveryValidIsAllValid(store.files, results);
    var allValid := forall k | k in results :: IsValid(results[k]);
    r := Success(Verification(allValid, results));
  }
}
