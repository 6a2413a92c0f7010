/**
 * The readiness gate of lib/services/wasm-checker.js: wait (bounded) while another part of the
 * page is downloading, then answer whether the cached assets are present and verify.
 */
module WasmChecker {
  import opened Outcomes
  import opened BlobStore
  import opened DownloadStatusFlag
  import opened Downloader
  import opened DownloaderProperties

  /** The default `maxWaitTime` (five minutes) and `pollInterval`, in milliseconds. */
  const MAX_WAIT_TIME: int := 5 * 60 * 1000
  const POLL_INTERVAL: nat := 500

  /**
   * `Date.now()` readings: `clock(0)` is `startTime`, `clock(k + 1)` the reading of the k-th loop
   * test. Between two loop tests the loop sleeps for `pollInterval`, so readings from the first
   * test on grow by at least that much.
   */
  type Clock = nat -> int

  ghost predicate Ticks(clock: Clock, pollInterval: nat)
  {
    clock(0) <= clock(1) && forall k: nat :: 1 <= k ==> Gap(clock, k) >= pollInterval
  }

  /** The time between the k-th and the (k+1)-th reading. */
  function Gap(clock: Clock, k: nat): int
  {
    clock(k + 1) - clock(k)
  }

  /** The time since `startTime` (the reading `clock(0)`) at the k-th loop test. */
  function Elapsed(clock: Clock, k: nat): int
  {
    clock(k + 1) - clock(0)
  }

  /**
   * `waitForDownloadComplete`: `busy(k)` is what `isDownloadInProgress()` reads at the k-th poll
   * (the flag is written by the download running meanwhile). The answer is true at the first poll
   * inside the time window that sees no download, false once the window has elapsed; `polls` is the
   * number of polls that saw a download, each followed by one sleep.
   */
  method WaitForDownloadComplete(maxWaitTime: int, pollInterval: nat, clock: Clock, busy: nat -> bool)
      returns (completed: bool, polls: nat)
    requires pollInterval > 0 && Ticks(clock, pollInterval)
    ensures forall j :: 0 <= j < polls ==> busy(j) && Elapsed(clock, j) < maxWaitTime
    ensures completed ==> !busy(polls) && Elapsed(clock, polls) < maxWaitTime
    ensures !completed ==> Elapsed(clock, polls) >= maxWaitTime
    ensures polls == 0 || (polls - 1) * pollInterval < maxWaitTime
  {
    var k: nat := 0;
    while Elapsed(clock, k) < maxWaitTime
      invariant forall j :: 0 <= j < k ==> busy(j) && Elapsed(clock, j) < maxWaitTime
      decreases maxWaitTime - Elapsed(clock, k)
    {
      if !busy(k) {
        if k > 0 {
          WindowBound(clock, pollInterval, k, maxWaitTime);
        }
        return true, k;
      }
      assert Gap(clock, k + 1) >= pollInterval;
      k := k + 1;
    }
    if k > 0 {
      WindowBound(clock, pollInterval, k, maxWaitTime);
    }
    return false, k;
  }

  /** From the first reading on, `k` sleeps take at least `k * pollInterval`. */
  lemma {:induction false} ClockGrowth(clock: Clock, pollInterval: nat, k: nat)
    requires Ticks(clock, pollInterval)
    ensures clock(k + 1) - clock(1) >= k * pollInterval
    decreases k
  {
    if k > 0 {
      ClockGrowth(clock, pollInterval, k - 1);
      assert Gap(clock, k) >= pollInterval;
      MulSucc(k - 1, pollInterval);
    }
  }

  /** A k-th poll still inside the window follows `k - 1` sleeps that all fit in it. */
  lemma WindowBound(clock: Clock, pollInterval: nat, k: nat, maxWaitTime: int)
    requires Ticks(clock, pollInterval) && k > 0 && Elapsed(clock, k - 1) < maxWaitTime
    ensures (k - 1) * pollInterval < maxWaitTime
  {
    ClockGrowth(clock, pollInterval, k - 1);
  }

  lemma MulSucc(k: nat, p: nat)
    ensures (k + 1) * p == k * p + p
  {
  }

  /**
   * `checkWasmAvailability`: wait only when a download is in progress at entry (a timeout is not
   * fatal), answer false at once when a required file is missing, and otherwise answer whether
   * verification passes; a store that cannot be opened gives false instead of an error. `waited`
   * tells whether the wait ran.
   */
  method CheckWasmAvailability(flags: SessionStore, store: FileStore, clock: Clock, busy: nat -> bool)
      returns (ready: bool, waited: bool)
    requires Ticks(clock, POLL_INTERVAL)
    ensures waited == flags.IsDownloadInProgress()
    ensures !RequiredCached(store.available, store.files) ==> !ready
    ensures ready <==> store.available && AllValid(store.files)
  {
    waited := flags.IsDownloadInProgress();
    if waited {
      var completed, polls := WaitForDownloadComplete(MAX_WAIT_TIME, POLL_INTERVAL, clock, busy);
    }
    var cached := AreFilesCached(store);
    if !cached {
      if store.available && AllValid(store.files) {
        AllValidIsCached(store.files);
      }
      return false, waited;
    }
    var verification := VerifyFiles(store);
    match verification
    case Failure(_) =>
      ready := false;
    case Success(v) =>
      ready := v.allValid;
  }
}
