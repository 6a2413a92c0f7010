# FFmpeg asset acquisition and readiness, modelled in Dafny

This project models the part of the audio-extraction web application that gets the FFmpeg.wasm engine
files into the browser and decides when they are ready. It covers seven pieces:

- **Manifest.** A static list of three files: the core script, the WebAssembly binary and an optional
  worker script. Each entry has a declared size and type, a primary CDN (unpkg) and a fallback CDN
  (jsDelivr).
- **Blob store.** An IndexedDB object store `files`, keyed by file name. Its `getFile` reads a stored
  falsy value back as absent.
- **Downloader.** It walks the manifest in order:
  - a cached file is credited its full size and reported;
  - an uncached worker is skipped and never credited;
  - any other file is fetched, with one retry on the fallback CDN, and then stored.

  It then writes the version and date rows. It announces its progress through a sessionStorage flag:
  `downloading`, then `completed`, or `idle` after an error.
- **Verifier.** It checks that every required file is present with its declared type.
- **Readiness gate.** It waits, for a bounded time, while another part of the page is downloading.
  Then it answers cached-and-valid.
- **Engine holder.** A single-flight holder: concurrent callers share one initialisation, and a
  successful instance is reused.
- **`useFFmpeg` hook and upload component.** The hook's status machine, and the upload component's
  deferred-file resume logic. A video chosen while the engine files are missing is parked. It is
  processed once the files are ready, driven by a completion trigger and a poll.

Each source file maps to modules as follows:

- `FFmpegConfig`: `lib/config/ffmpeg-config.js`.
- `BlobStore`: `lib/services/indexeddb.js`.
- `DownloadStatusFlag` and `WasmChecker`: `lib/services/wasm-checker.js`. The session-flag half is its
  own module because the downloader writes that flag while the checker imports the downloader.
- `Downloader` and `DownloaderProperties`: `lib/services/ffmpeg-downloader.js`.
- `EngineInit`: `lib/services/ffmpeg-init.js`.
- `UseFFmpeg`: `lib/hooks/use-ffmpeg.js`.
- `FileUpload`: `components/FileUpload.js`.

`Outcomes` holds the `Option`, `Result` and `Outcome` wrappers.

State that the source updates in place is a class:

- the object store (`BlobStore.FileStore`);
- sessionStorage (`DownloadStatusFlag.SessionStore`);
- the engine module's variables (`EngineInit.Engine`);
- the hook's React state (`UseFFmpeg.Hook`);
- the component's state and ref (`FileUpload.Upload`).

Each class method's contract gives its new state as a pure step function of the old state. The
properties are lemmas about those step functions.

The loops are `while`/`for` loops with invariants:

- the manifest walk;
- `areFilesCached`;
- `verifyFiles`;
- `getAllKeys`;
- the polling wait.

The manifest walk is specified by a left fold, `Downloader.Walk`, over the manifest's prefixes. Its
run records a trace of externally visible events: status writes, fetch attempts, stores, progress
reports and completion callbacks. The ordering properties are stated over that trace.

The outside world becomes parameters:

- The network is a map from URL to the payload a request for it delivers. A URL outside the map
  fails.
- Whether IndexedDB opens is the store's `available` flag.
- `Date.now()` is a clock function, with successive readings at least one poll interval apart.
- The download flag that another download writes during a wait is an oracle `busy`.
- Each engine initialisation's outcome is a parameter of the step that settles it.
- The outcomes of the metadata step and of audio extraction are parameters.
- The ISO date string is a parameter.

## Model

| member | source | states |
|---|---|---|
| FFmpegConfig.GetFileUrl | lib/config/ffmpeg-config.js:49-52 | the URL is the chosen CDN base (fallback or primary), a slash, then the file name |
| FFmpegConfig.GetFileUrlInjective | lib/config/ffmpeg-config.js:49-52 | equal URLs come from the same file name on the same CDN, so a fallback URL is never a primary one |
| FFmpegConfig.SumSizesPrefixBound | lib/config/ffmpeg-config.js:58-60 | the sizes of any prefix of the manifest add up to at most the total |
| FFmpegConfig.GetTotalSize | lib/config/ffmpeg-config.js:58-60 | the total size is the sum of the declared sizes of the manifest, 500·1024 + 8·1024·1024 + 50·1024, worker included |
| FFmpegConfig.FindEntry | lib/config/ffmpeg-config.js:67-69 | the entry found is in the list and has the key; nothing is found iff no entry has the key |
| FFmpegConfig.GetFileInfo | lib/config/ffmpeg-config.js:67-69 | `getFileInfo(k)` is a manifest entry whose key is k, and null exactly when no entry has key k |
| FFmpegConfig.FindEntryAt | lib/config/ffmpeg-config.js:67-69 | with distinct keys, looking up entry i's key finds entry i |
| FFmpegConfig.GetAllFileKeys | lib/config/ffmpeg-config.js:75-77 | one key per manifest entry, in manifest order |
| FFmpegConfig.ManifestWellFormed | lib/config/ffmpeg-config.js:12-36 | manifest keys are pairwise distinct and each entry's url is its primary-CDN URL |
| FFmpegConfig.ManifestTypes | lib/config/ffmpeg-config.js:14-35 | core and worker are JavaScript and the wasm entry is a binary, and each is what `getFileInfo` finds for its key |
| BlobStore.UpgradeSchema | lib/services/indexeddb.js:15-20 | after the upgrade handler "files" exists, existing stores are kept, and nothing else is added |
| BlobStore.UpgradeSchemaIdempotent | lib/services/indexeddb.js:15-20 | the upgrade applied twice gives the same schema as once; when "files" exists it changes nothing |
| BlobStore.ReadAfterStore | lib/services/indexeddb.js:35-60 | last write wins: a read after `storeFile(k, d)` gives d when d is truthy, and null for a falsy d |
| BlobStore.ReadFrame | lib/services/indexeddb.js:35-113 | storing or deleting key k leaves what every other key reads unchanged |
| BlobStore.ReadAfterDelete | lib/services/indexeddb.js:57-113 | after deleting k, and in an empty store, k reads as null |
| BlobStore.FileStore.constructor | lib/services/indexeddb.js:8-22 | opening the database applies the schema upgrade only when the open succeeds; the contents are what was persisted |
| BlobStore.FileStore.StoreFile | lib/services/indexeddb.js:29-44 | the store maps key to data and nothing else changes; a database that cannot be opened rejects and changes nothing |
| BlobStore.FileStore.GetFile | lib/services/indexeddb.js:51-66 | gives the stored value, or null when absent or falsy; rejects when the database cannot be opened |
| BlobStore.FileStore.FileExists | lib/services/indexeddb.js:73-81 | true iff the database opens and `getFile` gives a value; an error gives false, not a rejection |
| BlobStore.FileStore.ClearCache | lib/services/indexeddb.js:86-101 | the store becomes empty, or the call rejects and changes nothing |
| BlobStore.FileStore.DeleteFile | lib/services/indexeddb.js:107-122 | the key is removed and every other key is kept, or the call rejects and changes nothing |
| BlobStore.FileStore.GetAllKeys | lib/services/indexeddb.js:128-143 | exactly the keys present, each once; rejects when the database cannot be opened |
| DownloadStatusFlag.InProgressIffDownloading | lib/services/wasm-checker.js:12-16 | `isDownloadInProgress()` holds iff `getDownloadStatus()` reads "downloading" |
| DownloadStatusFlag.StatusAfterSet | lib/services/wasm-checker.js:72-84 | after `setDownloadStatus(s)` the status reads s, or "idle" for the empty string; an unset flag or a server run reads "idle" |
| DownloadStatusFlag.SessionStore.Item | lib/services/wasm-checker.js:14 | the raw row is present exactly when the key was written |
| DownloadStatusFlag.SessionStore.SetDownloadStatus | lib/services/wasm-checker.js:72-75 | in a browser the row becomes the status and no other row changes; outside a browser nothing changes |
| Downloader.DownloadFile | lib/services/ffmpeg-downloader.js:13-62 | at most two attempts: the entry's url, then the fallback URL; the data is the network's answer for the last attempt; fails only after the fallback fails |
| Downloader.RoundPercent | lib/services/ffmpeg-downloader.js:89 | the percentage is the exact rounding of 100·done/total (half rounds up) |
| Downloader.WalkStopsAfterError | lib/services/ffmpeg-downloader.js:81-137 | once an entry throws, later entries are not processed |
| Downloader.HandleEntry | lib/services/ffmpeg-downloader.js:81-124 | one loop iteration does what `Step` prescribes: cached, skipped worker, or fetch and store |
| Downloader.RunManifest | lib/services/ffmpeg-downloader.js:81-124 | the loop leaves the store and the run state that the fold `Walk` gives over the manifest |
| Downloader.FinishRun | lib/services/ffmpeg-downloader.js:126-146 | after the loop: the version and date rows, then "completed"; after an error, "idle"; the result is built from the run |
| Downloader.DownloadFFmpegFiles | lib/services/ffmpeg-downloader.js:72-147 | the store, the returned result, the effect trace and the final status flag are those of `DownloadAll` on the initial store |
| Downloader.AreFilesCached | lib/services/ffmpeg-downloader.js:153-168 | true iff every manifest key other than the worker exists in the store |
| Downloader.VerifyEntry | lib/services/ffmpeg-downloader.js:187-213 | the worker is valid and skipped; otherwise missing gives "File not found", a non-binary wasm gives "Invalid WASM format", a non-text js gives "Invalid JS format" |
| Downloader.EveryValidIsAllValid | lib/services/ffmpeg-downloader.js:216 | `every(r => r.valid)` over a verdict per key is the conjunction over the manifest |
| Downloader.VerifyFiles | lib/services/ffmpeg-downloader.js:183-221 | one verdict per manifest key, each by the rules above; `allValid` iff every entry is valid; rejects when the store cannot be opened |
| DownloaderProperties.RoundPercentMonotone | lib/services/ffmpeg-downloader.js:89 | larger credit never rounds to a smaller percentage |
| DownloaderProperties.RoundPercentBound | lib/services/ffmpeg-downloader.js:89 | credit within the total rounds to at most 100, and the whole total to exactly 100 |
| DownloaderProperties.ProgressMonotone | lib/services/ffmpeg-downloader.js:81-94 | with a downloaded file's net credit taken as zero, the reported aggregate percentages of a run never decrease and never exceed 100 |
| DownloaderProperties.WalkKeepsStatus | lib/services/ffmpeg-downloader.js:81-124 | the manifest loop only appends events and never writes the status flag |
| DownloaderProperties.StatusOrdering | lib/services/ffmpeg-downloader.js:80-140 | the first event sets "downloading", the last sets "completed" or "idle", none writes the flag between them; on success the version and date rows are stored just before "completed" |
| DownloaderProperties.FinishStatus | lib/services/ffmpeg-downloader.js:126-146 | after a loop that set no status, the run ends on its final status, preceded by the version and date rows when it succeeds |
| DownloaderProperties.WalkInv | lib/services/ffmpeg-downloader.js:81-124 | after any prefix of the manifest the loop's invariant holds: outcomes are justified, unprocessed keys are untouched, an error names the failing entry, requests go to uncached entries |
| DownloaderProperties.UnavailableThrows | lib/services/ffmpeg-downloader.js:83-120 | when IndexedDB cannot be opened the run throws: the core file can neither be found nor stored |
| DownloaderProperties.MetadataKeysApart | lib/services/ffmpeg-downloader.js:127-128 | the version and date rows are not manifest keys |
| DownloaderProperties.DownloadOutcomes | lib/services/ffmpeg-downloader.js:81-123 | cached means it was in the store and is unchanged; skipped means an uncached worker; downloaded means it was not cached and now holds what the network served |
| DownloaderProperties.DownloadSuccessIff | lib/services/ffmpeg-downloader.js:133-145 | success iff every manifest entry has a result; a failure names an uncached required entry that could not be fetched or stored |
| DownloaderProperties.DownloadFrame | lib/services/ffmpeg-downloader.js:106-146 | only processed entries and the two metadata rows change; a failed run rolls nothing back and writes no metadata; a successful run writes the version and the date |
| DownloaderProperties.RequestsOnlyUncached | lib/services/ffmpeg-downloader.js:83-117 | every fetch goes to an address of an uncached entry that is not the worker |
| DownloaderProperties.CachedNeverFetched | lib/services/ffmpeg-downloader.js:83-102 | a cached file, and the worker, are fetched from neither CDN |
| DownloaderProperties.RoundPercentUnique | lib/services/ffmpeg-downloader.js:89 | the rounding bounds determine the percentage uniquely |
| DownloaderProperties.StepCached | lib/services/ffmpeg-downloader.js:84-93 | a cached entry adds its full size, records `cached`, and reports the new percentage with file progress 100 |
| DownloaderProperties.WalkAllCached | lib/services/ffmpeg-downloader.js:81-94 | over cached entries the loop stores nothing, credits every size and marks every entry cached |
| DownloaderProperties.WalkAllCachedTrace | lib/services/ffmpeg-downloader.js:81-94 | over cached entries the loop fetches nothing and ends on the last entry's report |
| DownloaderProperties.AllCachedRun | lib/services/ffmpeg-downloader.js:72-136 | with everything cached: success, all three cached, no fetch, a final report of 100%, and only the metadata rows written |
| DownloaderProperties.RequiredCachedRun | lib/services/ffmpeg-downloader.js:81-102 | with only core and wasm cached: success, the worker skipped, no fetch, and the last report stops at 99% because the worker's size is never credited |
| DownloaderProperties.OfflineEmptyRun | lib/services/ffmpeg-downloader.js:72-146 | offline with an empty cache: two attempts for the core file, then "idle", result `{success: false, files: {}}`, and nothing stored |
| DownloaderProperties.AllValidIsCached | lib/services/ffmpeg-downloader.js:153-216 | a store that verifies also passes `areFilesCached` |
| DownloaderProperties.AllValidCharacterised | lib/services/ffmpeg-downloader.js:183-221 | verification passes iff the core row is text and the wasm row is binary |
| DownloaderProperties.SuccessfulRunVerifies | lib/services/ffmpeg-downloader.js:72-221 | a successful run leaves a store that verifies and is reported cached, provided the cache and CDN hold payloads of the declared types |
| WasmChecker.WaitForDownloadComplete | lib/services/wasm-checker.js:24-35 | true at the first poll inside the window that sees no download; false only once `maxWaitTime` has elapsed; every earlier poll saw a download |
| WasmChecker.ClockGrowth | lib/services/wasm-checker.js:27-31 | after k sleeps of `pollInterval` the clock has advanced by at least k times the interval, so the number of polls is bounded by the window |
| WasmChecker.CheckWasmAvailability | lib/services/wasm-checker.js:42-66 | waits only when a download is in progress at entry; false whenever the required files are not cached; otherwise the answer of verification; an unopenable store gives false |
| EngineInit.ValidInitial | lib/services/ffmpeg-init.js:4-6 | the module starts with no instance, no promise, not initialising |
| EngineInit.CallValid | lib/services/ffmpeg-init.js:14-24 | a call keeps `isInitializing` and `initializationPromise` set and cleared together |
| EngineInit.SettleValid | lib/services/ffmpeg-init.js:26-32 | settling an attempt keeps the invariant |
| EngineInit.ResetValid | lib/services/ffmpeg-init.js:125-132 | a reset keeps the invariant |
| EngineInit.CallCases | lib/services/ffmpeg-init.js:14-24 | an existing instance is returned with nothing started; otherwise the promise in flight is joined; otherwise exactly one new attempt starts with `isInitializing` set |
| EngineInit.SettleClears | lib/services/ffmpeg-init.js:26-32 | after either outcome `isInitializing` is false and the promise null; success stores the instance, failure leaves it as it was |
| EngineInit.JoinersShareAttempt | lib/services/ffmpeg-init.js:19-21 | while an attempt is in flight, every call joins that same attempt and changes nothing |
| EngineInit.SingleFlight | lib/services/ffmpeg-init.js:14-24 | of n + 1 calls with nothing held, the first starts one attempt and the other n join it |
| EngineInit.InstanceIsReused | lib/services/ffmpeg-init.js:15-17 | once an instance is held every later call returns it and starts nothing |
| EngineInit.SuccessIsReused | lib/services/ffmpeg-init.js:27-28 | after a successful attempt every call returns the new instance |
| EngineInit.FailureRestarts | lib/services/ffmpeg-init.js:29-32 | after a failed attempt the next call starts a fresh attempt |
| EngineInit.ResetRestarts | lib/services/ffmpeg-init.js:125-132 | a reset terminates the held instance and clears all three variables; the engine then reads uninitialised and the next call starts afresh |
| EngineInit.InitializedAfterSuccess | lib/services/ffmpeg-init.js:118-120 | `isFFmpegInitialized()` after a successful attempt is the new instance's `loaded` flag |
| EngineInit.Engine.constructor | lib/services/ffmpeg-init.js:4-6 | the module variables start as at module load |
| EngineInit.Engine.GetFFmpegInstance | lib/services/ffmpeg-init.js:14-24 | the synchronous part of `getFFmpegInstance` updates the variables as `Call` prescribes |
| EngineInit.Engine.FinishInitialization | lib/services/ffmpeg-init.js:26-32 | the starter's continuation returns or rethrows the outcome and updates the variables as `Settle` prescribes |
| EngineInit.Engine.ResetFFmpegInstance | lib/services/ffmpeg-init.js:125-132 | reports the instance terminated and updates the variables as `Reset` prescribes |
| UseFFmpeg.ReportsForwarded | lib/hooks/use-ffmpeg.js:66-75 | the stored progress is the last triple reported, and the forwarded triples carry the reported percentages one for one |
| UseFFmpeg.ForwardedProgressMonotone | lib/hooks/use-ffmpeg.js:66-75 | with a downloaded file's net credit taken as zero, what the optional callback receives never decreases and never exceeds 100 |
| UseFFmpeg.AlreadyDownloadedIff | lib/hooks/use-ffmpeg.js:28-34 | "cached and all valid" is the same as "the store opens and verifies" |
| UseFFmpeg.AsWrittenCompletesAfterFailure | lib/hooks/use-ffmpeg.js:65-82 | as written, an offline run into an empty cache fails and leaves nothing that verifies, yet the hook answers true with "completed" |
| UseFFmpeg.CheckedDownloadSound | lib/hooks/use-ffmpeg.js:65-88 | when `success` is inspected: true and "completed" iff the run succeeded, otherwise "error" with a message; a true answer leaves a store that verifies when the payloads have the declared types |
| UseFFmpeg.InitializeOutcome | lib/hooks/use-ffmpeg.js:94-121 | "ready" and `ffmpegReady` exactly when in a browser an instance came back and reads initialised; otherwise "error", `ffmpegReady` false and the message rethrown |
| UseFFmpeg.InitializeAfterOwnAttempt | lib/hooks/use-ffmpeg.js:104-106 | after the caller's own attempt succeeds, initialisation succeeds iff the instance is loaded |
| UseFFmpeg.Hook.constructor | lib/hooks/use-ffmpeg.js:12-20 | both statuses "idle", zero progress, no error, not ready |
| UseFFmpeg.Hook.CheckIfDownloaded | lib/hooks/use-ffmpeg.js:25-49 | true with "completed" iff the required files are cached and all valid; otherwise false with "idle", errors included |
| UseFFmpeg.Hook.DownloadFFmpeg | lib/hooks/use-ffmpeg.js:55-89 | as written: the run's effects, every triple stored and forwarded, then "completed" and true whatever the run returned |
| UseFFmpeg.Hook.CheckedDownloadFFmpeg | lib/hooks/use-ffmpeg.js:55-89 | corrected: the same effects, true with "completed" only for a successful run, otherwise "error" and false |
| UseFFmpeg.Hook.InitializeFFmpeg | lib/hooks/use-ffmpeg.js:94-121 | updates `initStatus`, `error` and `ffmpegReady` as `AfterInitialize` prescribes |
| UseFFmpeg.Hook.DownloadAndInitialize | lib/hooks/use-ffmpeg.js:126-147 | as written: downloads only when the files are not already downloaded, then always initialises, because the download answers true even after a failed run; the whole new state (status, progress, error, readiness), the answer and the session flag are `AfterDownloadAndInitialize` over `DownloadAll`, so the answer is true iff initialisation succeeds |
| UseFFmpeg.Hook.CheckedDownloadAndInitialize | lib/hooks/use-ffmpeg.js:126-147 | over the download that reads `success`: the whole new state, the answer and the session flag are `AfterCheckedDownloadAndInitialize` over `DownloadAll`; a failed download gives false with initialisation not tried, otherwise true iff initialisation succeeds |
| UseFFmpeg.DownloadAndInitializeOutcome | lib/hooks/use-ffmpeg.js:126-147 | as written, the answer is true iff initialisation succeeds, "completed" is shown whatever the run did, readiness and "ready"/"error" match the answer, an error is kept iff the answer is false, and the progress is the run's last report after a download |
| UseFFmpeg.CheckedDownloadAndInitializeOutcome | lib/hooks/use-ffmpeg.js:126-147 | over the checked download, a failed run ends in "error" with the run's message and initialisation untouched; otherwise the answer is true iff initialisation succeeds, after "completed" |
| UseFFmpeg.AsWrittenSessionDisagrees | lib/hooks/use-ffmpeg.js:126-147 | as written, offline with an empty cache the session flag ends "idle" while the hook shows "completed" |
| FileUpload.ConfirmWithoutSelection | components/FileUpload.js:33 | confirming with nothing selected changes nothing |
| FileUpload.ConfirmUnavailable | components/FileUpload.js:47-58 | when the metadata import resolves and assets are missing: the file is parked, extraction stops, the selection is cleared, the download is requested, nothing is processed |
| FileUpload.ConfirmErrorClears | components/FileUpload.js:62-67 | any error in the confirm flow leaves extraction stopped, nothing parked and progress at 0 |
| FileUpload.ConfirmProcesses | components/FileUpload.js:60-61 | when the metadata import resolves, with assets ready and extraction done, the selected file goes to the parent at 100% |
| FileUpload.MetadataAsWritten | components/FileUpload.js:41-42 | the metadata step as written (line 8 imports a binding the service does not export) always throws: the extraction's error, or the call of the undefined `storeVideoMetadata` binding |
| FileUpload.AsWrittenConfirmNeverParks | components/FileUpload.js:39-67 | as written, a confirm with a selection always ends in the catch: nothing parked, extraction stopped, no callback |
| FileUpload.AsWrittenNothingParked | components/FileUpload.js:32-158 | as written, no event sequence ever parks a file, so no completion check or poll is armed and no resume runs |
| FileUpload.ProcessFailureClears | components/FileUpload.js:99-105 | a failed extraction stops extraction, drops the parked file and rethrows; the caller's clearing repeats it with no further effect |
| FileUpload.ResumeGuard | components/FileUpload.js:116-120 | `resumeProcessing` does nothing unless a file is parked, nothing is extracting and the assets are ready |
| FileUpload.ResumeAdmission | components/FileUpload.js:122-133 | reachable only when the metadata import resolves: an admitted resume sets the latch and `isExtracting` before processing the parked file; success hands that file on, failure clears the state |
| FileUpload.EffectTimers | components/FileUpload.js:139-158 | the completion trigger is armed iff complete, parked, not extracting and latch clear, and then no poll; otherwise a poll iff a file is parked; the latch resets whenever the download is not complete |
| FileUpload.CompletionHandledOnce | components/FileUpload.js:122-152 | once the latch is set, no completion trigger is armed again until an effect pass sees the download as not complete |
| FileUpload.ExtractionNeedsReadyAssets | components/FileUpload.js:47-127 | a file reaches the parent only through a confirm or a resume that found the assets ready |
| FileUpload.Upload.constructor | components/FileUpload.js:13-18 | nothing selected, nothing parked, not extracting, latch clear |
| FileUpload.Upload.HandleChooseVideo | components/FileUpload.js:20-30 | a picked file is selected and the confirmation opens; a cancelled pick changes nothing |
| FileUpload.Upload.ProcessVideoFile | components/FileUpload.js:71-106 | updates the state as `Process` prescribes and returns its callback and outcome |
| FileUpload.Upload.ShowError | components/FileUpload.js:64-66 | the shared error handling: the message is shown, extraction stops, the parked file is dropped |
| FileUpload.Upload.HandleConfirm | components/FileUpload.js:32-68 | the state and callback are those of `Confirm`, with availability as `checkWasmAvailability` answers it for the stores |
| FileUpload.Upload.HandleCancel | components/FileUpload.js:108-111 | closes the confirmation and clears the selection |
| FileUpload.Upload.EffectPass | components/FileUpload.js:138-158 | the latch and the armed timers are those of `Effect` |
| FileUpload.Upload.ResumeProcessing | components/FileUpload.js:115-136 | the state and callback are those of `Resume`, with availability as `checkWasmAvailability` answers it |
| FileUpload.Upload.ResetAfterExtractionTimer | components/FileUpload.js:93-98 | the delayed reset clears extraction, selection, the parked file and progress |

## Left out

- In-flight download progress (lib/services/ffmpeg-downloader.js:105-117) is left out. It is
  floating-point arithmetic on byte counts. Only the cached branch's integer rounding is modelled, and
  the model takes a downloaded file's net credit as zero. The source does not: line 109 sets
  `fileProgress` to the new percentage before line 110 subtracts `size · fileProgress / 100`, so the
  subtraction removes the current share, not the previous one. Each report can leave a residue, for
  example size/300 for one report at a third of the file. A served size other than the declared one
  leaves about (served − declared) · p/100 per report. The cached-branch reports that follow read this
  drifted tally.
- DownloaderProperties.ProgressMonotone: holds only under the zero net credit of a downloaded file.
  In the source the percentages reported for cached files after a downloaded one can decrease or
  exceed 100.
- UseFFmpeg.ForwardedProgressMonotone: rests on DownloaderProperties.ProgressMonotone, so it holds
  only under the same assumption.
- Downloader.DownloadFFmpegFiles: the trace has no per-byte progress reports for downloaded files,
  and `onFileComplete`/`onProgress` are always present.
- The payload conversions of `downloadFile` (lines 33-52) are left out. They depend on library
  runtime types. The network answers with a payload directly.
- Downloader.DownloadFile: the error message of a failed fetch is replaced by the key of the failing
  entry.
- BlobStore.FileStore.GetAllKeys: IndexedDB returns keys in ascending order. The model states only
  that each key is present exactly once.
- `getCachedFile` (lib/services/ffmpeg-downloader.js:175-177) is a plain delegation to `getFile` and
  has no member of its own.
- Transaction and request failures of IndexedDB other than failing to open the database are not
  modelled. Concurrent writers to the same database are not modelled either.
- WasmChecker.WaitForDownloadComplete: `setTimeout` is modelled as readings of the clock that grow by
  at least the poll interval, and it requires a positive poll interval. Real timers can fire late,
  which only lengthens the wait.
- WasmChecker.CheckWasmAvailability: what sessionStorage reads during the wait is an oracle, not the
  flag that `SessionStore` holds. The timeout message is console output.
- The FFmpeg engine work is abstract:
  - `loadFFmpeg`, the private `initializeFFmpeg` (`toBlobURL`, `ffmpeg.load`) and
    `extractAudioFromVideo` in lib/services/ffmpeg-init.js;
  - all of lib/services/audio-extraction.js.

  Initialisation and extraction are outcomes given as parameters.
- EngineInit.Engine.GetFFmpegInstance: the interleaving of awaiting callers is modelled as separate
  `Call` and `Settle` steps. The joined callers' resumption is not a step of its own, because it does
  not touch the module's variables.
- UseFFmpeg.AfterInitialize: the message `err?.message || err?.toString() || "Unknown error"` is the
  rejection's message string.
- UseFFmpeg.DescribeError: the message a failed run carries names the failing key. It does not
  reproduce the foreign error text.
- The mount effect of the hook (lib/hooks/use-ffmpeg.js:150-152) is just a call of
  `checkIfDownloaded`. It is not a member of its own.
- Metadata extraction and `storeVideoMetadata` (components/FileUpload.js:41-42) are one outcome
  parameter of `Confirm`. `FileUpload.MetadataAsWritten` gives that step as written (see Findings).
  lib/services/video-metadata.js is not part of this model.
- The file picker (lib/services/file-selector.js) is not part of this model. A pick is an optional
  file, and a cancelled or failed pick is `None`.
- FileUpload.Upload.ProcessVideoFile: the progress updates that `extractAudioWithProgress` reports
  during extraction are not modelled, and neither is the audio blob. The early return for a null file
  cannot happen, because both callers pass a file.
- FileUpload.Upload.HandleConfirm: the intermediate "Metadata stored" progress, which is overwritten
  at once, is not modelled. The `onWasmDownloadRequired` and `onAudioExtracted` callbacks are reported
  as if both props were always given.
- Timers, React re-renders and overlapping asynchronous `resumeProcessing` calls with stale closures
  are sequential events in the model:
  - `FileUpload.UploadEvent`;
  - the completion-check and poll timers of `Effect`;
  - the 2-second reset after extraction.

  The source has no atomic latch, so exactly-once processing under true interleaving is not claimed.
- Rendering, presentational components, app pages and the theme hook are UI. `wasmDownloadComplete`
  is an input of the effect.

## Findings

| source | as written | input that shows it | evidently intended | confidence | as-written member | corrected member |
|---|---|---|---|---|---|---|
| lib/hooks/use-ffmpeg.js:65-88 | `downloadFFmpeg` awaits `downloadFFmpegFiles`, which catches its own errors and resolves to `{success: false, …}`, then sets "completed" and returns true without reading `success`; its catch branch cannot be reached by a failed download | offline (no URL answers) with an empty cache: the run ends `{success: false}` with no core file stored, yet the hook reports "completed" and `downloadAndInitialize` goes on to initialise | report "error" and return false when `success` is false, so that `downloadAndInitialize` stops | not executed | UseFFmpeg.AsWrittenCompletesAfterFailure | UseFFmpeg.CheckedDownloadSound |
| components/FileUpload.js:42 | line 8 imports `storeVideoMetadata` from lib/services/indexeddb.js, which exports only `storeFile`, `getFile`, `fileExists`, `clearCache`, `deleteFile` and `getAllKeys`; under a bundler the binding is undefined and the call at line 42 throws a TypeError inside the `try` | any confirm with a selected file: the metadata step throws, the catch at 62-67 runs, and the park branch at 49-57, `onWasmDownloadRequired` and the whole resume flow are never reached | store the metadata with a function the service defines, so that the availability check and the park-or-process branch run | not executed | FileUpload.AsWrittenNothingParked | FileUpload.ConfirmUnavailable |
