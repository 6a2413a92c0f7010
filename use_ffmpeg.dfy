/**
 * The status machine of the `useFFmpeg` hook (lib/hooks/use-ffmpeg.js): the React state fields
 * `downloadStatus`, `initStatus`, `downloadProgress`, `error` and `ffmpegReady`, updated by
 * `checkIfDownloaded`, `downloadFFmpeg`, `initializeFFmpeg` and `downloadAndInitialize`.
 */
module UseFFmpeg {
  import opened Outcomes
  import opened FFmpegConfig
  import opened BlobStore
  import opened DownloadStatusFlag
  import opened Downloader
  import opened DownloaderProperties
  import opened EngineInit

  /** Values of `downloadStatus`. */
  const CHECKING: string := "checking"
  const DOWNLOADING: string := "downloading"
  const COMPLETED: string := "completed"
  const IDLE: string := "idle"
  const ERROR: string := "error"

  /** Values of `initStatus` other than "idle" and "error". */
  const INITIALIZING: string := "initializing"
  const READY: string := "ready"

  /** Messages of the errors the hook raises itself. */
  const NOT_IN_BROWSER: string := "FFmpeg can only be initialized in the browser"
  const NOT_READY: string := "FFmpeg initialization failed - instance not ready"

  const ZERO_PROGRESS: Progress := Progress(0, "", 0)

  /** The hook's state fields. */
  datatype HookState = HookState(downloadStatus: string, initStatus: string, downloadProgress: Progress,
                                 error: Option<string>, ffmpegReady: bool)

  const HOOK_INITIAL: HookState := HookState(IDLE, IDLE, ZERO_PROGRESS, None, false)

  // ---------------------------------------------------------------- progress forwarding

  /** The progress state after a run: the last triple stored, `p0` when none was reported. */
  function LastProgress(trace: seq<Event>, p0: Progress): Progress
  {
    if trace == [] then p0
    else if trace[|trace| - 1].Report? then trace[|trace| - 1].progress
    else LastProgress(trace[..|trace| - 1], p0)
  }

  /** The stored progress is the last triple forwarded; the forwarded percentages are the reported ones. */
  lemma {:induction false} ReportsForwarded(trace: seq<Event>, p0: Progress)
    ensures LastProgress(trace, p0) == if Reports(trace) == [] then p0 else Reports(trace)[|Reports(trace)| - 1]
    ensures |Reports(trace)| == |Percents(trace)|
    ensures forall i :: 0 <= i < |Reports(trace)| ==> Reports(trace)[i].totalPercentage == Percents(trace)[i]
  {
    TotalsIndex(Reports(trace));
    if trace != [] {
      ReportsForwarded(trace[..|trace| - 1], p0);
    }
  }

  /** What `onProgress` receives during `downloadFFmpeg` is ordered and at most 100. */
  lemma ForwardedProgressMonotone(files: map<string, Payload>, net: Network, available: bool, date: string)
    ensures var rs := Reports(DownloadAll(files, net, available, date).trace);
            (forall i, j :: 0 <= i < j < |rs| ==> rs[i].totalPercentage <= rs[j].totalPercentage)
            && forall i :: 0 <= i < |rs| ==> rs[i].totalPercentage <= 100
  {
    var t := DownloadAll(files, net, available, date).trace;
    ProgressMonotone(files, net, available, date);
    ReportsForwarded(t, ZERO_PROGRESS);
    forall i | 0 <= i < |Reports(t)|
      ensures Reports(t)[i].totalPercentage <= 100
    {
      assert Percents(t)[i] in Percents(t);
    }
  }

  // ---------------------------------------------------------------- checkIfDownloaded

  /** What `checkIfDownloaded` answers: the required files are cached and verification passes. */
  predicate AlreadyDownloaded(available: bool, files: map<string, Payload>)
  {
    RequiredCached(available, files) && AllValid(files)
  }

  /** The cache test is implied by verification, so the answer is "the store opens and verifies". */
  lemma AlreadyDownloadedIff(available: bool, files: map<string, Payload>)
    ensures AlreadyDownloaded(available, files) <==> available && AllValid(files)
  {
    if available && AllValid(files) {
      AllValidIsCached(files);
    }
    if AlreadyDownloaded(available, files) {
      assert IsCached(available, files, FFMPEG_FILES[0].key);
    }
  }

  // ---------------------------------------------------------------- downloadFFmpeg

  /** The state `downloadFFmpeg` leaves after `downloadFFmpegFiles` resolved with run `st`, as written. */
  function AfterDownloadAsWritten(h: HookState, st: RunState): (bool, HookState)
  {
    (true, h.(downloadStatus := COMPLETED, error := None, downloadProgress := LastProgress(st.trace, ZERO_PROGRESS)))
  }

  /** The message of a failed run. */
  function DescribeError(e: DownloadError): string
  {
    match e
    case FetchFailed(key) => "Failed to download " + key
    case StoreFailed(key) => "Failed to store " + key
  }

  /** The state `downloadFFmpeg` leaves when it inspects `success`: "completed" and true only for a successful run. */
  function AfterDownloadChecked(h: HookState, st: RunState): (bool, HookState)
  {
    var p := LastProgress(st.trace, ZERO_PROGRESS);
    if st.error.None? then (true, h.(downloadStatus := COMPLETED, error := None, downloadProgress := p))
    else (false, h.(downloadStatus := ERROR, error := Some(DescribeError(st.error.value)), downloadProgress := p))
  }

  /**
   * As written, `downloadFFmpeg` reports success after a failed run: offline with an empty cache the
   * run fails and stores no core file, the readiness check says not ready, yet the hook answers true
   * with status "completed".
   */
  lemma AsWrittenCompletesAfterFailure(h: HookState, available: bool, date: string)
    ensures var st := DownloadAll(map[], map[], available, date);
            && st.error.Some? && !ResultOf(st).success && !AllValid(st.files)
            && AfterDownloadAsWritten(h, st).0 && AfterDownloadAsWritten(h, st).1.downloadStatus == COMPLETED
  {
    OfflineEmptyRun(available, date);
    var st := DownloadAll(map[], map[], available, date);
    assert CheckEntry(st.files, 0) == Invalid("File not found");
  }

  /**
   * Checking `success`, the hook answers true (and "completed") exactly when the run succeeded, and
   * then the store verifies provided the CDN and the cache hold payloads of the declared types.
   */
  lemma CheckedDownloadSound(h: HookState, f0: map<string, Payload>, net: Network, available: bool, date: string)
    ensures var st := DownloadAll(f0, net, available, date); var (ok, h') := AfterDownloadChecked(h, st);
            && (ok <==> ResultOf(st).success)
            && (h'.downloadStatus == COMPLETED <==> ok)
            && (!ok ==> h'.downloadStatus == ERROR && h'.error.Some?)
    ensures var st := DownloadAll(f0, net, available, date);
            AfterDownloadChecked(h, st).0
            && (forall i :: 0 <= i < |FFMPEG_FILES| && ReadFile(f0, FFMPEG_FILES[i].key).Some? ==>
                  Shaped(FFMPEG_FILES[i], ReadFile(f0, FFMPEG_FILES[i].key).value))
            && (forall i :: 0 <= i < |FFMPEG_FILES| && DownloadFile(FFMPEG_FILES[i], net, false).data.Some? ==>
                  Shaped(FFMPEG_FILES[i], DownloadFile(FFMPEG_FILES[i], net, false).data.value))
            ==> AlreadyDownloaded(true, st.files)
  {
    var st := DownloadAll(f0, net, available, date);
    if AfterDownloadChecked(h, st).0
       && (forall i :: 0 <= i < |FFMPEG_FILES| && ReadFile(f0, FFMPEG_FILES[i].key).Some? ==>
             Shaped(FFMPEG_FILES[i], ReadFile(f0, FFMPEG_FILES[i].key).value))
       && (forall i :: 0 <= i < |FFMPEG_FILES| && DownloadFile(FFMPEG_FILES[i], net, false).data.Some? ==>
             Shaped(FFMPEG_FILES[i], DownloadFile(FFMPEG_FILES[i], net, false).data.value)) {
      SuccessfulRunVerifies(f0, net, available, date);
    }
  }

  // ---------------------------------------------------------------- initializeFFmpeg

  /**
   * `initializeFFmpeg`, given whether it runs in a browser, what `getFFmpegInstance` resolved to (or
   * the message it rejected with) and what `isFFmpegInitialized()` reads afterwards.
   */
  function AfterInitialize(h: HookState, inBrowser: bool, resolved: Result<Instance, string>, initialized: bool)
    : (Result<Instance, string>, HookState)
  {
    var failure :=
      if !inBrowser then Some(NOT_IN_BROWSER)
      else if resolved.Failure? then Some(resolved.error)
      else if !initialized then Some(NOT_READY)
      else None;
    if failure.None? then (Success(resolved.value), h.(initStatus := READY, error := None, ffmpegReady := true))
    else (Failure(failure.value), h.(initStatus := ERROR, error := failure, ffmpegReady := false))
  }

  /** "ready" and `ffmpegReady` exactly when an instance came back and reads as initialised; otherwise "error", with the message rethrown. */
  lemma InitializeOutcome(h: HookState, inBrowser: bool, resolved: Result<Instance, string>, initialized: bool)
    ensures var (r, h') := AfterInitialize(h, inBrowser, resolved, initialized);
            && (r.Success? <==> inBrowser && resolved.Success? && initialized)
            && (r.Success? ==> r.value == resolved.value && h'.initStatus == READY && h'.ffmpegReady && h'.error.None?)
            && (r.Failure? ==> h'.initStatus == ERROR && !h'.ffmpegReady && h'.error == Some(r.error))
            && h'.downloadStatus == h.downloadStatus && h'.downloadProgress == h.downloadProgress
  {
  }

  /** When this caller's own attempt settles, `isFFmpegInitialized()` is the `loaded` flag of the instance it got. */
  lemma InitializeAfterOwnAttempt(h: HookState, holder: Holder, attempt: nat, inst: Instance)
    ensures AfterInitialize(h, true, Success(inst), IsInitialized(Settle(holder, attempt, Some(inst)))).0.Success?
            <==> inst.loaded
  {
    InitializedAfterSuccess(holder, attempt, inst);
  }

  // ---------------------------------------------------------------- downloadAndInitialize

  /** `initializeFFmpeg` inside `downloadAndInitialize`: a rejection is caught and its message set once more. */
  function InitializeCaught(h: HookState, inBrowser: bool, resolved: Result<Instance, string>, initialized: bool)
    : (bool, HookState)
  {
    var (r, h') := AfterInitialize(h, inBrowser, resolved, initialized);
    if r.Success? then (true, h') else (false, h'.(error := Some(r.error)))
  }

  /**
   * `downloadAndInitialize` as written, given the answer of `checkIfDownloaded` and the run a
   * download makes: the download's answer is always true, so initialisation always follows.
   */
  function AfterDownloadAndInitialize(h: HookState, downloaded: bool, st: RunState,
                                      inBrowser: bool, resolved: Result<Instance, string>, initialized: bool)
    : (bool, HookState)
  {
    var h1 := if downloaded then h.(downloadStatus := COMPLETED) else AfterDownloadAsWritten(h, st).1;
    InitializeCaught(h1, inBrowser, resolved, initialized)
  }

  /** `downloadAndInitialize` over the download that inspects `success`: a failed run stops the flow. */
  function AfterCheckedDownloadAndInitialize(h: HookState, downloaded: bool, st: RunState,
                                             inBrowser: bool, resolved: Result<Instance, string>, initialized: bool)
    : (bool, HookState)
  {
    if downloaded then InitializeCaught(h.(downloadStatus := COMPLETED), inBrowser, resolved, initialized)
    else
      var (d, h1) := AfterDownloadChecked(h, st);
      if d then InitializeCaught(h1, inBrowser, resolved, initialized) else (false, h1)
  }

  /**
   * As written, the flow answers whether initialisation succeeded and leaves "completed", whatever
   * the run did; its error is the initialisation's message, or none.
   */
  lemma DownloadAndInitializeOutcome(h: HookState, downloaded: bool, st: RunState,
                                     inBrowser: bool, resolved: Result<Instance, string>, initialized: bool)
    ensures var (ok, h') := AfterDownloadAndInitialize(h, downloaded, st, inBrowser, resolved, initialized);
            && (ok <==> inBrowser && resolved.Success? && initialized)
            && h'.downloadStatus == COMPLETED
            && (h'.ffmpegReady <==> ok) && h'.initStatus == (if ok then READY else ERROR)
            && (h'.error.None? <==> ok)
            && h'.downloadProgress == (if downloaded then h.downloadProgress else LastProgress(st.trace, ZERO_PROGRESS))
  {
  }

  /**
   * Over the checked download, a failed run ends with "error", the run's message and initialisation
   * untouched; otherwise the answer is whether initialisation succeeded, after "completed".
   */
  lemma CheckedDownloadAndInitializeOutcome(h: HookState, downloaded: bool, st: RunState,
                                            inBrowser: bool, resolved: Result<Instance, string>, initialized: bool)
    ensures var (ok, h') := AfterCheckedDownloadAndInitialize(h, downloaded, st, inBrowser, resolved, initialized);
            && (!downloaded && st.error.Some? ==>
                  !ok && h'.downloadStatus == ERROR && h'.error == Some(DescribeError(st.error.value))
                  && h'.initStatus == h.initStatus && h'.ffmpegReady == h.ffmpegReady)
            && (downloaded || st.error.None? ==>
                  (ok <==> inBrowser && resolved.Success? && initialized)
                  && h'.downloadStatus == COMPLETED && (h'.ffmpegReady <==> ok) && (h'.error.None? <==> ok))
            && h'.downloadProgress == (if downloaded then h.downloadProgress else LastProgress(st.trace, ZERO_PROGRESS))
  {
  }

  /**
   * As written, offline with an empty cache the session flag ends "idle" while the hook shows
   * "completed" and goes on to initialise.
   */
  lemma AsWrittenSessionDisagrees(h: HookState, available: bool, date: string,
                                  inBrowser: bool, resolved: Result<Instance, string>, initialized: bool)
    ensures var st := DownloadAll(map[], map[], available, date);
            && !AlreadyDownloaded(available, map[])
            && FinalStatus(st) == DOWNLOAD_STATUS_IDLE
            && AfterDownloadAndInitialize(h, false, st, inBrowser, resolved, initialized).1.downloadStatus == COMPLETED
  {
    OfflineEmptyRun(available, date);
    assert !IsCached(available, map[], FFMPEG_FILES[0].key);
  }

  // ---------------------------------------------------------------- the hook

  /** The hook's state, updated in place by its callbacks. */
  class Hook {
    var downloadStatus: string
    var initStatus: string
    var downloadProgress: Progress
    var error: Option<string>
    var ffmpegReady: bool

    function State(): HookState
      reads this
    {
      HookState(downloadStatus, initStatus, downloadProgress, error, ffmpegReady)
    }

    constructor ()
      ensures State() == HOOK_INITIAL
    {
      downloadStatus := IDLE;
      initStatus := IDLE;
      downloadProgress := ZERO_PROGRESS;
      error := None;
      ffmpegReady := false;
    }

    /** `checkIfDownloaded`: "checking", then "completed" and true, or "idle" and false. */
    method CheckIfDownloaded(store: FileStore) returns (downloaded: bool)
      modifies this`downloadStatus
      ensures downloaded <==> AlreadyDownloaded(store.available, store.files)
      ensures downloadStatus == if downloaded then COMPLETED else IDLE
    {
      downloadStatus := CHECKING;
      var cached := AreFilesCached(store);
      if cached {
        assert IsCached(store.available, store.files, FFMPEG_FILES[0].key);
        var verification := VerifyFiles(store);
        if verification.Success? && verification.value.allValid {
          downloadStatus := COMPLETED;
          return true;
        }
        downloadStatus := IDLE;
        return false;
      }
      downloadStatus := IDLE;
      return false;
    }

    /**
     * `downloadFFmpeg` as written: reset the error and the progress, run `downloadFFmpegFiles`,
     * storing (and, with a callback, forwarding) every progress triple, then report "completed"
     * and true whatever the run returned.
     */
    method DownloadFFmpeg(store: FileStore, flags: SessionStore, net: Network, date: string, onProgress: bool)
        returns (ok: bool, forwarded: seq<Progress>)
      modifies this, store`files, flags`items
      ensures var st := DownloadAll(old(store.files), net, store.available, date);
              && store.files == st.files
              && flags.items == (if flags.inBrowser then old(flags.items)[DOWNLOAD_STATUS_KEY := FinalStatus(st)] else old(flags.items))
              && (ok, State()) == AfterDownloadAsWritten(old(State()), st)
              && forwarded == if onProgress then Reports(st.trace) else []
    {
      downloadStatus := DOWNLOADING;
      error := None;
      downloadProgress := ZERO_PROGRESS;
      var result, trace := DownloadFFmpegFiles(store, flags, net, date);
      downloadProgress := LastProgress(trace, downloadProgress);
      forwarded := if onProgress then Reports(trace) else [];
      downloadStatus := COMPLETED;
      ok := true;
    }

    /** `downloadFFmpeg` with the run's `success` inspected: "error", the run's message and false for a failed run. */
    method CheckedDownloadFFmpeg(store: FileStore, flags: SessionStore, net: Network, date: string, onProgress: bool)
        returns (ok: bool, forwarded: seq<Progress>)
      modifies this, store`files, flags`items
      ensures var st := DownloadAll(old(store.files), net, store.available, date);
              && store.files == st.files
              && flags.items == (if flags.inBrowser then old(flags.items)[DOWNLOAD_STATUS_KEY := FinalStatus(st)] else old(flags.items))
              && (ok, State()) == AfterDownloadChecked(old(State()), st)
              && forwarded == if onProgress then Reports(st.trace) else []
    {
      downloadStatus := DOWNLOADING;
      error := None;
      downloadProgress := ZERO_PROGRESS;
      var result, trace := DownloadFFmpegFiles(store, flags, net, date);
      downloadProgress := LastProgress(trace, downloadProgress);
      forwarded := if onProgress then Reports(trace) else [];
      if result.success {
        downloadStatus := COMPLETED;
        ok := true;
      } else {
        error := Some(DescribeError(result.error.value));
        downloadStatus := ERROR;
        ok := false;
      }
    }

    /** `initializeFFmpeg`; the engine's answer and `isFFmpegInitialized()` are parameters. */
    method InitializeFFmpeg(inBrowser: bool, resolved: Result<Instance, string>, initialized: bool)
        returns (r: Result<Instance, string>)
      modifies this`initStatus, this`error, this`ffmpegReady
      ensures (r, State()) == AfterInitialize(old(State()), inBrowser, resolved, initialized)
    {
      initStatus := INITIALIZING;
      error := None;
      var failure: Option<string> := None;
      if !inBrowser {
        failure := Some(NOT_IN_BROWSER);
      } else if resolved.Failure? {
        failure := Some(resolved.error);
      } else if !initialized {
        failure := Some(NOT_READY);
      }
      if failure.Some? {
        error := failure;
        initStatus := ERROR;
        ffmpegReady := false;
        return Failure(failure.value);
      }
      initStatus := READY;
      ffmpegReady := true;
      r := Success(resolved.value);
    }

    /**
     * `downloadAndInitialize` as written: download only when the check says the files are missing;
     * since `downloadFFmpeg` answers true whatever the run returned, initialisation always follows,
     * and the answer is whether initialisation succeeded, even after a failed run
     * (`DownloadAndInitializeOutcome`).
     */
    method DownloadAndInitialize(store: FileStore, flags: SessionStore, net: Network, date: string, onProgress: bool,
                                 inBrowser: bool, resolved: Result<Instance, string>, initialized: bool)
        returns (ok: bool)
      modifies this, store`files, flags`items
      ensures var run := DownloadAll(old(store.files), net, store.available, date);
              var downloaded := AlreadyDownloaded(store.available, old(store.files));
              && store.files == (if downloaded then old(store.files) else run.files)
              && flags.items == (if downloaded || !flags.inBrowser then old(flags.items)
                                 else old(flags.items)[DOWNLOAD_STATUS_KEY := FinalStatus(run)])
              && (ok, State()) == AfterDownloadAndInitialize(old(State()), downloaded, run, inBrowser, resolved, initialized)
    {
      var isDownloaded := CheckIfDownloaded(store);
      if !isDownloaded {
        var downloadSuccess, forwarded := DownloadFFmpeg(store, flags, net, date, onProgress);
        if !downloadSuccess {
          assert false;
          return false;
        }
      }
      var r := InitializeFFmpeg(inBrowser, resolved, initialized);
      if r.Failure? {
        error := Some(r.error);
        return false;
      }
      ok := true;
    }

    /**
     * `downloadAndInitialize` over the download that inspects `success`: stop with false when the
     * download fails, and otherwise answer whether initialisation succeeded
     * (`CheckedDownloadAndInitializeOutcome`).
     */
    method CheckedDownloadAndInitialize(store: FileStore, flags: SessionStore, net: Network, date: string, onProgress: bool,
                                 inBrowser: bool, resolved: Result<Instance, string>, initialized: bool)
        returns (ok: bool)
      modifies this, store`files, flags`items
      ensures var run := DownloadAll(old(store.files), net, store.available, date);
              var downloaded := AlreadyDownloaded(store.available, old(store.files));
              && store.files == (if downloaded then old(store.files) else run.files)
              && flags.items == (if downloaded || !flags.inBrowser then old(flags.items)
                                 else old(flags.items)[DOWNLOAD_STATUS_KEY := FinalStatus(run)])
              && (ok, State()) == AfterCheckedDownloadAndInitialize(old(State()), downloaded, run, inBrowser, resolved, initialized)
    {
      var isDownloaded := CheckIfDownloaded(store);
      if !isDownloaded {
        var downloadSuccess, forwarded := CheckedDownloadFFmpeg(store, flags, net, date, onProgress);
        if !downloadSuccess {
          return false;
        }
      }
      var r := InitializeFFmpeg(inBrowser, resolved, initialized);
      if r.Failure? {
        error := Some(r.error);
        return false;
      }
      ok := true;
    }
  }
}
