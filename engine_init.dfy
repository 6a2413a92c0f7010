/**
 * The single-flight FFmpeg holder of lib/services/ffmpeg-init.js: three module variables
 * (`ffmpegInstance`, `isInitializing`, `initializationPromise`) shared by every caller of
 * `getFFmpegInstance`. Each `await` splits a call into steps: `Call` is the synchronous part up
 * to the await, `Settle` the continuation of the caller that started an initialisation (its
 * assignment and its `finally`). Initialisation itself is abstract: each started attempt gets a
 * number, and its outcome is a parameter of `Settle`.
 */
module EngineInit {
  import opened Outcomes

  /** An FFmpeg object; `loaded` is its `loaded` property. */
  datatype Instance = Instance(id: nat, loaded: bool)

  /**
   * The module variables, plus the attempts whose continuation has not run yet (`inFlight`) and the
   * number the next attempt gets. `promise` is `initializationPromise`, naming its attempt.
   */
  datatype Holder = Holder(instance: Option<Instance>, initializing: bool, promise: Option<nat>,
                           inFlight: set<nat>, next: nat)

  /** What one `getFFmpegInstance` call awaits: an existing instance, the promise in flight, or a new attempt. */
  datatype CallResult = Existing(inst: Instance) | Joined(attempt: nat) | Started(attempt: nat)

  /** The variables at module load. */
  const INITIAL: Holder := Holder(None, false, None, {}, 0)

  /** `isInitializing` and `initializationPromise` are set and cleared together; attempt numbers are fresh. */
  ghost predicate Valid(h: Holder)
  {
    && (h.initializing <==> h.promise.Some?)
    && (h.promise.Some? ==> h.promise.value in h.inFlight)
    && (forall a :: a in h.inFlight ==> a < h.next)
  }

  /** The synchronous part of `getFFmpegInstance`, up to its first `await`. */
  function Call(h: Holder): (CallResult, Holder)
  {
    if h.instance.Some? then (Existing(h.instance.value), h)
    else if h.initializing && h.promise.Some? then (Joined(h.promise.value), h)
    else (Started(h.next), h.(initializing := true, promise := Some(h.next), inFlight := h.inFlight + {h.next}, next := h.next + 1))
  }

  /**
   * The continuation of the caller that started `attempt`: `ffmpegInstance = await ...` assigns only
   * when the attempt resolved, and the `finally` clears the other two variables either way.
   */
  function Settle(h: Holder, attempt: nat, outcome: Option<Instance>): Holder
  {
    h.(instance := if outcome.Some? then outcome else h.instance, initializing := false, promise := None,
       inFlight := h.inFlight - {attempt})
  }

  /** `isFFmpegInitialized`. */
  predicate IsInitialized(h: Holder)
  {
    h.instance.Some? && h.instance.value.loaded
  }

  /** `resetFFmpegInstance`: terminate and drop the instance, clear the other two variables. Attempts already running keep running. */
  function Reset(h: Holder): (Option<Instance>, Holder)
  {
    (h.instance, h.(instance := None, initializing := false, promise := None))
  }

  /** `n` calls in a row with no continuation running in between. */
  function Calls(h: Holder, n: nat): (seq<CallResult>, Holder)
    decreases n
  {
    if n == 0 then ([], h)
    else
      var (r, h') := Call(h);
      var (rs, h'') := Calls(h', n - 1);
      ([r] + rs, h'')
  }

  // ---------------------------------------------------------------- invariant

  lemma ValidInitial()
    ensures Valid(INITIAL)
  {
  }

  lemma CallValid(h: Holder)
    requires Valid(h)
    ensures Valid(Call(h).1)
  {
  }

  lemma SettleValid(h: Holder, attempt: nat, outcome: Option<Instance>)
    requires Valid(h)
    ensures Valid(Settle(h, attempt, outcome))
  {
  }

  lemma ResetValid(h: Holder)
    requires Valid(h)
    ensures Valid(Reset(h).1)
  {
  }

  // ---------------------------------------------------------------- one call

  /**
   * A call returns the existing instance and starts nothing; otherwise it joins the promise in
   * flight; otherwise it starts exactly one new attempt and sets `isInitializing`.
   */
  lemma CallCases(h: Holder)
    requires Valid(h)
    ensures var (r, h') := Call(h);
            && (h.instance.Some? ==> r == Existing(h.instance.value) && h' == h)
            && (h.instance.None? && h.initializing ==> r == Joined(h.promise.value) && h' == h)
            && (h.instance.None? && !h.initializing ==>
                  r == Started(h.next) && h.next !in h.inFlight && h'.inFlight == h.inFlight + {h.next}
                  && h'.initializing && h'.promise == Some(h.next) && h'.instance == h.instance)
  {
  }

  /** Settling clears `isInitializing` and the promise; the instance is the outcome on success and unchanged on failure. */
  lemma SettleClears(h: Holder, attempt: nat, outcome: Option<Instance>)
    ensures var h' := Settle(h, attempt, outcome);
            && !h'.initializing && h'.promise.None?
            && (outcome.Some? ==> h'.instance == outcome)
            && (outcome.None? ==> h'.instance == h.instance)
            && attempt !in h'.inFlight
  {
  }

  // ---------------------------------------------------------------- call sequences

  /** While an attempt is in flight, any number of calls all join it and change nothing. */
  lemma {:induction false} JoinersShareAttempt(h: Holder, n: nat)
    requires Valid(h) && h.instance.None? && h.initializing
    ensures Calls(h, n).1 == h
    ensures |Calls(h, n).0| == n && forall i :: 0 <= i < n ==> Calls(h, n).0[i] == Joined(h.promise.value)
  {
    if n > 0 {
      JoinersShareAttempt(h, n - 1);
      assert Call(h) == (Joined(h.promise.value), h);
      CallsPeel(h, n);
    }
  }

  /** `Calls` peels its first call. */
  lemma CallsPeel(h: Holder, n: nat)
    requires n > 0
    ensures Calls(h, n).0 == [Call(h).0] + Calls(Call(h).1, n - 1).0
    ensures Calls(h, n).1 == Calls(Call(h).1, n - 1).1
  {
  }

  /**
   * Single flight: from a holder with no instance and nothing in flight, `n + 1` calls start one
   * attempt and the other `n` join it.
   */
  lemma SingleFlight(h: Holder, n: nat)
    requires Valid(h) && h.instance.None? && !h.initializing
    ensures var (rs, h') := Calls(h, n + 1);
            && rs[0] == Started(h.next) && |rs| == n + 1
            && (forall i :: 1 <= i <= n ==> rs[i] == Joined(h.next))
            && h'.inFlight == h.inFlight + {h.next} && h'.next == h.next + 1
  {
    CallsPeel(h, n + 1);
    var h1 := Call(h).1;
    CallValid(h);
    JoinersShareAttempt(h1, n);
  }

  /** Once an instance is held, every later call returns that same instance and starts nothing. */
  lemma {:induction false} InstanceIsReused(h: Holder, n: nat)
    requires h.instance.Some?
    ensures Calls(h, n).1 == h
    ensures |Calls(h, n).0| == n && forall i :: 0 <= i < n ==> Calls(h, n).0[i] == Existing(h.instance.value)
  {
    if n > 0 {
      InstanceIsReused(h, n - 1);
      CallsPeel(h, n);
    }
  }

  /** After a successful attempt every call returns its instance. */
  lemma SuccessIsReused(h: Holder, attempt: nat, inst: Instance, n: nat)
    ensures var h' := Settle(h, attempt, Some(inst));
            |Calls(h', n).0| == n && forall i :: 0 <= i < n ==> Calls(h', n).0[i] == Existing(inst)
  {
    InstanceIsReused(Settle(h, attempt, Some(inst)), n);
  }

  /** After a failed attempt (with no instance held) the next call starts afresh, with a new attempt. */
  lemma FailureRestarts(h: Holder, attempt: nat)
    requires Valid(h) && h.instance.None?
    ensures var h' := Settle(h, attempt, None);
            Call(h').0 == Started(h.next) && h.next !in h'.inFlight
  {
  }

  /** After a reset nothing is held; the next call starts a new attempt. */
  lemma ResetRestarts(h: Holder)
    requires Valid(h)
    ensures var (terminated, h') := Reset(h);
            && terminated == h.instance && h'.instance.None? && !h'.initializing && h'.promise.None?
            && !IsInitialized(h') && Call(h').0 == Started(h.next)
  {
  }

  /** `isFFmpegInitialized` after a successful attempt is the `loaded` flag of the new instance. */
  lemma InitializedAfterSuccess(h: Holder, attempt: nat, inst: Instance)
    ensures IsInitialized(Settle(h, attempt, Some(inst))) <==> inst.loaded
  {
  }

  // ---------------------------------------------------------------- the module variables

  /** The module's variables, updated in place by its functions. */
  class Engine {
    var ffmpegInstance: Option<Instance>
    var isInitializing: bool
    var initializationPromise: Option<nat>
    /** The attempts whose starter has not resumed yet: bookkeeping of the model, not a module variable. */
    ghost var inFlight: set<nat>
    /** The identity the next promise created by `initializeFFmpeg()` gets. */
    var nextAttempt: nat

    ghost function State(): Holder
      reads this
    {
      Holder(ffmpegInstance, isInitializing, initializationPromise, inFlight, nextAttempt)
    }

    constructor ()
      ensures State() == INITIAL
    {
      ffmpegInstance := None;
      isInitializing := false;
      initializationPromise := None;
      inFlight := {};
      nextAttempt := 0;
    }

    /** `getFFmpegInstance` up to its `await`. */
    method GetFFmpegInstance() returns (r: CallResult)
      modifies this
      ensures (r, State()) == Call(old(State()))
    {
      if ffmpegInstance.Some? {
        return Existing(ffmpegInstance.value);
      }
      if isInitializing && initializationPromise.Some? {
        return Joined(initializationPromise.value);
      }
      r := Started(nextAttempt);
      isInitializing := true;
      initializationPromise := Some(nextAttempt);
      inFlight := inFlight + {nextAttempt};
      nextAttempt := nextAttempt + 1;
    }

    /** The starter's continuation once `attempt` settled: what it returns, or the error it rethrows. */
    method FinishInitialization(attempt: nat, outcome: Result<Instance, string>) returns (r: Result<Instance, string>)
      modifies this
      ensures r == outcome
      ensures State() == Settle(old(State()), attempt, if outcome.Success? then Some(outcome.value) else None)
    {
      if outcome.Success? {
        ffmpegInstance := Some(outcome.value);
      }
      isInitializing := false;
      initializationPromise := None;
      inFlight := inFlight - {attempt};
      r := outcome;
    }

    /** `isFFmpegInitialized`. */
    predicate IsFFmpegInitialized()
      reads this
    {
      ffmpegInstance.Some? && ffmpegInstance.value.loaded
    }

    /** `resetFFmpegInstance`; `terminated` is the instance whose `terminate()` was called, if any. */
    method ResetFFmpegInstance() returns (terminated: Option<Instance>)
      modifies this
      ensures (terminated, State()) == Reset(old(State()))
    {
      terminated := ffmpegInstance;
      if ffmpegInstance.Some? {
        ffmpegInstance := None;
      }
      isInitializing := false;
      initializationPromise := None;
    }
  }
}
