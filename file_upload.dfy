/**
 * The non-render logic of components/FileUpload.js: a video chosen while the FFmpeg assets are
 * missing is parked in `pendingFile`, and processing resumes once the assets are ready, driven by
 * a completion trigger and a poll. Timers and React re-renders are events applied one at a time;
 * metadata extraction and audio extraction are abstract outcomes.
 */
module FileUpload {
  import opened Outcomes
  import opened BlobStore
  import opened DownloadStatusFlag
  import opened Downloader
  import opened WasmChecker

  /** A chosen video (the browser File handle). */
  datatype VideoFile = VideoFile(id: nat, name: string)

  /** `extractionProgress`. */
  datatype ExtractionProgress = ExtractionProgress(percentage: nat, status: string)

  /** The component's state fields and the ref `hasProcessedCompletionRef` (`completionHandled`). */
  datatype UploadState = UploadState(isConfirming: bool, selectedFile: Option<VideoFile>, pendingFile: Option<VideoFile>,
                                     isExtracting: bool, progress: ExtractionProgress, completionHandled: bool)

  /** The parent callback a step invokes, if any. */
  datatype Callback = NoCallback | WasmDownloadRequired | AudioExtracted(file: VideoFile)

  /** The timers an effect pass arms: the one-off completion check, the one-second poll. */
  datatype Timers = Timers(completionCheck: bool, poll: bool)

  const IDLE_PROGRESS: ExtractionProgress := ExtractionProgress(0, "")
  const UPLOAD_INITIAL: UploadState := UploadState(false, None, None, false, IDLE_PROGRESS, false)

  /** The common error handling: show the message, stop extracting, drop the parked file. */
  function Failed(s: UploadState, message: string): UploadState
  {
    s.(progress := ExtractionProgress(0, "Error: " + message), isExtracting := false, pendingFile := None)
  }

  /** `handleChooseVideo`: a picked file is selected and the confirmation opens; a cancelled pick changes nothing. */
  function Choose(s: UploadState, picked: Option<VideoFile>): UploadState
  {
    if picked.Some? then s.(selectedFile := picked, isConfirming := true) else s
  }

  /** `processVideoFile(file)`: on failure the state is cleared and the error rethrown (the third component). */
  function Process(s: UploadState, file: VideoFile, extraction: Outcome<string>): (UploadState, Callback, Outcome<string>)
  {
    var started := s.(isExtracting := true, progress := ExtractionProgress(25, "Initializing audio extraction..."));
    match extraction
    case Pass => (started.(progress := ExtractionProgress(100, "Audio extraction complete!")), AudioExtracted(file), Pass)
    case Fail(message) => (Failed(started, message), NoCallback, Fail(message))
  }

  /** The delayed reset after a successful extraction. */
  function ResetAfterExtraction(s: UploadState): UploadState
  {
    s.(isExtracting := false, selectedFile := None, pendingFile := None, progress := IDLE_PROGRESS)
  }

  /**
   * `handleConfirm`, given the outcome of the metadata step, the answer of `checkWasmAvailability`
   * and the outcome of the extraction.
   */
  function Confirm(s: UploadState, metadata: Outcome<string>, available: bool, extraction: Outcome<string>): (UploadState, Callback)
  {
    if s.selectedFile.None? then (s, NoCallback)
    else
      var started := s.(isConfirming := false, isExtracting := true, progress := ExtractionProgress(0, "Extracting metadata..."));
      if metadata.Fail? then (Failed(started, metadata.error), NoCallback)
      else
        var checking := started.(progress := ExtractionProgress(20, "Checking WASM availability..."));
        if !available then
          (checking.(pendingFile := s.selectedFile, isExtracting := false, selectedFile := None), WasmDownloadRequired)
        else
          var (after, cb, out) := Process(checking, s.selectedFile.value, extraction);
          if out.Fail? then (Failed(after, out.error), NoCallback) else (after, cb)
  }

  /** `handleCancel`. */
  function Cancel(s: UploadState): UploadState
  {
    s.(isConfirming := false, selectedFile := None)
  }

  /** One pass of the resume effect for the current `wasmDownloadComplete`. */
  function Effect(s: UploadState, downloadComplete: bool): (UploadState, Timers)
  {
    if downloadComplete && s.pendingFile.Some? && !s.isExtracting && !s.completionHandled then (s, Timers(true, false))
    else
      var s' := if !downloadComplete then s.(completionHandled := false) else s;
      (s', Timers(false, s.pendingFile.Some?))
  }

  /** `resumeProcessing`, given the answer of `checkWasmAvailability` and the outcome of the extraction. */
  function Resume(s: UploadState, available: bool, extraction: Outcome<string>): (UploadState, Callback)
  {
    if !(s.pendingFile.Some? && !s.isExtracting) || !available then (s, NoCallback)
    else
      var admitted := s.(completionHandled := true, isExtracting := true,
                         progress := ExtractionProgress(20, "WASM ready, resuming extraction..."));
      var (after, cb, out) := Process(admitted, s.pendingFile.value, extraction);
      if out.Fail? then (Failed(after, out.error), NoCallback) else (after, cb)
  }

  // ---------------------------------------------------------------- properties

  /** Confirming with nothing selected changes nothing. */
  lemma ConfirmWithoutSelection(s: UploadState, metadata: Outcome<string>, available: bool, extraction: Outcome<string>)
    requires s.selectedFile.None?
    ensures Confirm(s, metadata, available, extraction) == (s, NoCallback)
  {
  }

  /** Assets missing: the file is parked, extraction stops, the selection is cleared, the parent is asked to download, nothing is processed. */
  lemma ConfirmUnavailable(s: UploadState, available: bool, extraction: Outcome<string>)
    requires s.selectedFile.Some? && !available
    ensures var (s', cb) := Confirm(s, Pass, available, extraction);
            && s'.pendingFile == s.selectedFile && !s'.isExtracting && s'.selectedFile.None?
            && cb == WasmDownloadRequired && s'.progress.percentage == 20
            && s'.completionHandled == s.completionHandled
  {
  }

  /** Any error in the confirm flow leaves extraction stopped and nothing parked. */
  lemma ConfirmErrorClears(s: UploadState, metadata: Outcome<string>, available: bool, extraction: Outcome<string>)
    requires s.selectedFile.Some? && (metadata.Fail? || (available && extraction.Fail?))
    ensures var (s', cb) := Confirm(s, metadata, available, extraction);
            !s'.isExtracting && s'.pendingFile.None? && cb == NoCallback
            && s'.progress.percentage == 0
  {
  }

  /** With the assets ready and the extraction done, the selected file is handed to the parent. */
  lemma ConfirmProcesses(s: UploadState, available: bool)
    requires s.selectedFile.Some? && available
    ensures var (s', cb) := Confirm(s, Pass, available, Pass);
            cb == AudioExtracted(s.selectedFile.value) && s'.isExtracting && s'.progress.percentage == 100
  {
  }

  /** A failed extraction clears the state and rethrows; the caller's catch repeats the same clearing. */
  lemma ProcessFailureClears(s: UploadState, file: VideoFile, message: string)
    ensures var (s', cb, out) := Process(s, file, Fail(message));
            && out == Fail(message) && cb == NoCallback && !s'.isExtracting && s'.pendingFile.None?
            && Failed(s', message) == s'
  {
  }

  /** `resumeProcessing` does nothing unless a file is parked, nothing is being extracted, and the assets are ready. */
  lemma ResumeGuard(s: UploadState, available: bool, extraction: Outcome<string>)
    ensures var (s', cb) := Resume(s, available, extraction);
            (cb != NoCallback || s' != s) ==> s.pendingFile.Some? && !s.isExtracting && available
  {
  }

  /**
   * An admitted resume sets the latch and `isExtracting` first and processes the parked file: on
   * success the parent gets that file and extraction is still running, on failure the state is cleared.
   */
  lemma ResumeAdmission(s: UploadState, extraction: Outcome<string>)
    requires s.pendingFile.Some? && !s.isExtracting
    ensures var (s', cb) := Resume(s, true, extraction);
            && s'.completionHandled
            && (extraction.Pass? ==> cb == AudioExtracted(s.pendingFile.value) && s'.isExtracting && s'.pendingFile == s.pendingFile)
            && (extraction.Fail? ==> cb == NoCallback && !s'.isExtracting && s'.pendingFile.None?)
  {
  }

  /**
   * The completion check is armed exactly when the download is complete, a file is parked, nothing is
   * extracting and the latch is clear, and then no poll is armed; otherwise a poll is armed exactly when
   * a file is parked, and the latch is cleared whenever the download is not complete.
   */
  lemma EffectTimers(s: UploadState, downloadComplete: bool)
    ensures var (s', t) := Effect(s, downloadComplete);
            && (t.completionCheck <==> downloadComplete && s.pendingFile.Some? && !s.isExtracting && !s.completionHandled)
            && (t.completionCheck ==> !t.poll && s' == s)
            && (!t.completionCheck ==> (t.poll <==> s.pendingFile.Some?))
            && (!downloadComplete ==> !s'.completionHandled)
            && s'.pendingFile == s.pendingFile && s'.isExtracting == s.isExtracting
  {
  }

  // ---------------------------------------------------------------- the metadata step as written

  /**
   * A representative message for calling the `storeVideoMetadata` binding, which
   * lib/services/indexeddb.js does not export. The runtime's wording depends on how the bundler
   * renders the binding, and a strict build refuses the import outright. Only the fact that the
   * step fails matters to the flow; the progress text of `AsWrittenConfirmNeverParks` carries
   * this stand-in.
   */
  const STORE_METADATA_MISSING: string := "storeVideoMetadata is not a function"

  /**
   * The metadata step of `handleConfirm` as written: extraction, then a call of the undefined binding
   * `storeVideoMetadata`, which throws whenever extraction did not.
   */
  function MetadataAsWritten(extracted: Outcome<string>): (r: Outcome<string>)
    ensures r.Fail?
    ensures extracted.Pass? ==> r.error == STORE_METADATA_MISSING
  {
    if extracted.Fail? then extracted else Fail(STORE_METADATA_MISSING)
  }

  /** As written, every confirm with a selection ends in the catch: nothing is parked, nothing processed, no callback. */
  lemma AsWrittenConfirmNeverParks(s: UploadState, extracted: Outcome<string>, available: bool, extraction: Outcome<string>)
    requires s.selectedFile.Some?
    ensures var (s', cb) := Confirm(s, MetadataAsWritten(extracted), available, extraction);
            && cb == NoCallback && s'.pendingFile.None? && !s'.isExtracting
            && (extracted.Pass? ==> s'.progress == ExtractionProgress(0, "Error: " + STORE_METADATA_MISSING))
  {
  }

  // ---------------------------------------------------------------- event sequences

  /** The events the component reacts to, applied one at a time. */
  datatype UploadEvent =
    | ChooseVideo(picked: Option<VideoFile>)
    | ConfirmVideo(metadata: Outcome<string>, available: bool, extraction: Outcome<string>)
    | CancelVideo
    | EffectPass(downloadComplete: bool)
    | ResumeTick(available: bool, extraction: Outcome<string>)
    | ResetTimer

  function Apply(s: UploadState, e: UploadEvent): (UploadState, Timers)
  {
    match e
    case ChooseVideo(picked) => (Choose(s, picked), Timers(false, false))
    case ConfirmVideo(metadata, available, extraction) => (Confirm(s, metadata, available, extraction).0, Timers(false, false))
    case CancelVideo => (Cancel(s), Timers(false, false))
    case EffectPass(complete) => Effect(s, complete)
    case ResumeTick(available, extraction) => (Resume(s, available, extraction).0, Timers(false, false))
    case ResetTimer => (ResetAfterExtraction(s), Timers(false, false))
  }

  /** The state after a sequence of events and the timers each event armed. */
  function Run(s: UploadState, es: seq<UploadEvent>): (UploadState, seq<Timers>)
    decreases |es|
  {
    if es == [] then (s, [])
    else
      var (s', t) := Apply(s, es[0]);
      var (s'', ts) := Run(s', es[1..]);
      (s'', [t] + ts)
  }

  /**
   * Once a completion was handled, no further completion check is armed until an effect pass sees the
   * download as not complete.
   */
  lemma {:induction false} CompletionHandledOnce(s: UploadState, es: seq<UploadEvent>)
    requires s.completionHandled
    requires forall i :: 0 <= i < |es| ==> es[i] != EffectPass(false)
    ensures |Run(s, es).1| == |es|
    ensures forall i :: 0 <= i < |es| ==> !Run(s, es).1[i].completionCheck
    ensures Run(s, es).0.completionHandled
    decreases |es|
  {
    if es != [] {
      var (s', t) := Apply(s, es[0]);
      assert s'.completionHandled && !t.completionCheck;
      CompletionHandledOnce(s', es[1..]);
      assert forall i :: 0 < i < |es| ==> es[1..][i - 1] == es[i];
    }
  }

  /**
   * As written no file is ever parked: from a state with nothing parked, when every confirm's metadata
   * step fails (as `MetadataAsWritten` always does), `pendingFile` stays empty, no timer is armed and no
   * resume does anything.
   */
  lemma {:induction false} AsWrittenNothingParked(s: UploadState, es: seq<UploadEvent>)
    requires s.pendingFile.None?
    requires forall i :: 0 <= i < |es| && es[i].ConfirmVideo? ==> es[i].metadata.Fail?
    ensures |Run(s, es).1| == |es|
    ensures forall i :: 0 <= i < |es| ==> Run(s, es).1[i] == Timers(false, false)
    ensures Run(s, es).0.pendingFile.None?
    decreases |es|
  {
    if es != [] {
      var (s', t) := Apply(s, es[0]);
      assert s'.pendingFile.None? && t == Timers(false, false);
      assert forall i :: 0 <= i < |es| - 1 && es[1..][i].ConfirmVideo? ==> es[1..][i].metadata.Fail? by {
        assert forall i :: 0 <= i < |es| - 1 ==> es[1..][i] == es[i + 1];
      }
      AsWrittenNothingParked(s', es[1..]);
    }
  }

  /** Only an admitted resume or a confirm with ready assets hands a file to the parent. */
  lemma ExtractionNeedsReadyAssets(s: UploadState, metadata: Outcome<string>, available: bool, extraction: Outcome<string>)
    ensures Confirm(s, metadata, available, extraction).1.AudioExtracted? ==> available && metadata.Pass? && extraction.Pass?
    ensures Resume(s, available, extraction).1.AudioExtracted? ==> available && s.pendingFile.Some? && extraction.Pass?
  {
  }

  // ---------------------------------------------------------------- the component

  /** The component's fields, updated in place by its handlers. */
  class Upload {
    var isConfirming: bool
    var selectedFile: Option<VideoFile>
    var pendingFile: Option<VideoFile>
    var isExtracting: bool
    var extractionProgress: ExtractionProgress
    var hasProcessedCompletion: bool

    function State(): UploadState
      reads this
    {
      UploadState(isConfirming, selectedFile, pendingFile, isExtracting, extractionProgress, hasProcessedCompletion)
    }

    constructor ()
      ensures State() == UPLOAD_INITIAL
    {
      isConfirming := false;
      selectedFile := None;
      pendingFile := None;
      isExtracting := false;
      extractionProgress := IDLE_PROGRESS;
      hasProcessedCompletion := false;
    }

    method HandleChooseVideo(picked: Option<VideoFile>)
      modifies this
      ensures State() == Choose(old(State()), picked)
    {
      if picked.Some? {
        selectedFile := picked;
        isConfirming := true;
      }
    }

    method ProcessVideoFile(file: VideoFile, extraction: Outcome<string>) returns (cb: Callback, out: Outcome<string>)
      modifies this
      ensures (State(), cb, out) == Process(old(State()), file, extraction)
    {
      isExtracting := true;
      extractionProgress := ExtractionProgress(25, "Initializing audio extraction...");
      match extraction
      case Pass =>
        extractionProgress := ExtractionProgress(100, "Audio extraction complete!");
        cb, out := AudioExtracted(file), Pass;
      case Fail(message) =>
        extractionProgress := ExtractionProgress(0, "Error: " + message);
        isExtracting := false;
        pendingFile := None;
        cb, out := NoCallback, Fail(message);
    }

    /** The error handler shared by `handleConfirm` and `resumeProcessing`. */
    method ShowError(message: string)
      modifies this
      ensures State() == Failed(old(State()), message)
    {
      extractionProgress := ExtractionProgress(0, "Error: " + message);
      isExtracting := false;
      pendingFile := None;
    }

    /** `handleConfirm`; the availability answer comes from `checkWasmAvailability` on the given stores. */
    method HandleConfirm(metadata: Outcome<string>, flags: SessionStore, store: FileStore, clock: Clock, busy: nat -> bool,
                         extraction: Outcome<string>) returns (cb: Callback)
      requires Ticks(clock, POLL_INTERVAL)
      modifies this
      ensures (State(), cb) == Confirm(old(State()), metadata, store.available && AllValid(store.files), extraction)
    {
      if selectedFile.None? {
        return NoCallback;
      }
      isConfirming := false;
      isExtracting := true;
      extractionProgress := ExtractionProgress(0, "Extracting metadata...");
      if metadata.Fail? {
        ShowError(metadata.error);
        return NoCallback;
      }
      extractionProgress := ExtractionProgress(20, "Checking WASM availability...");
      var ready, waited := CheckWasmAvailability(flags, store, clock, busy);
      if !ready {
        pendingFile := selectedFile;
        isExtracting := false;
        selectedFile := None;
        return WasmDownloadRequired;
      }
      var out;
      cb, out := ProcessVideoFile(selectedFile.value, extraction);
      if out.Fail? {
        ShowError(out.error);
        cb := NoCallback;
      }
    }

    method HandleCancel()
      modifies this
      ensures State() == Cancel(old(State()))
    {
      isConfirming := false;
      selectedFile := None;
    }

    /** One run of the effect; the answer says which timers it armed. */
    method EffectPass(downloadComplete: bool) returns (timers: Timers)
      modifies this
      ensures (State(), timers) == Effect(old(State()), downloadComplete)
    {
      if downloadComplete && pendingFile.Some? && !isExtracting && !hasProcessedCompletion {
        return Timers(true, false);
      }
      if !downloadComplete {
        hasProcessedCompletion := false;
      }
      timers := Timers(false, pendingFile.Some?);
    }

    /** `resumeProcessing`, run by the completion check or the poll. */
    method ResumeProcessing(flags: SessionStore, store: FileStore, clock: Clock, busy: nat -> bool,
                            extraction: Outcome<string>) returns (cb: Callback)
      requires Ticks(clock, POLL_INTERVAL)
      modifies this
      ensures (State(), cb) == Resume(old(State()), store.available && AllValid(store.files), extraction)
    {
      if !(pendingFile.Some? && !isExtracting) {
        return NoCallback;
      }
      var ready, waited := CheckWasmAvailability(flags, store, clock, busy);
      if !ready {
        return NoCallback;
      }
      hasProcessedCompletion := true;
      isExtracting := true;
      extractionProgress := ExtractionProgress(20, "WASM ready, resuming extraction...");
      var out;
      cb, out := ProcessVideoFile(pendingFile.value, extraction);
      if out.Fail? {
        ShowError(out.error);
        cb := NoCallback;
      }
    }

    /** The reset two seconds after a successful extraction. */
    method ResetAfterExtractionTimer()
      modifies this
      ensures State() == ResetAfterExtraction(old(State()))
    {
      isExtracting := false;
      selectedFile := None;
      pendingFile := None;
      extractionProgress := IDLE_PROGRESS;
    }
  }
}
