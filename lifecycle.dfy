/**
 * The store handle of the two facades. OneNote keeps a nullable static
 * `application` and a ComObjectMode and sends every store call through Run;
 * OneNoteApplication keeps a Lazy<Application> whose value is created by the
 * first use. A handle is an opaque number: `new Application()` hands out a
 * fresh one each time it succeeds. Whether it succeeds is the environment's
 * answer: the attempts are numbered, and `refused` holds the attempts at which
 * it throws COMException.
 */
module ComLifecycle {
  import opened Base

  /** When Run acquires and releases the handle. */
  datatype ComObjectMode = Lazy | Manual | Wrap

  /**
   * The handle (None: null), the number of creation attempts so far and the
   * attempts that throw. `caches` marks OneNoteApplication's Lazy, which keeps
   * the exception of a failed creation (`faulted`) and rethrows it on every
   * later read; OneNote's static field keeps nothing and tries again.
   */
  datatype Handle = Handle(application: Option<nat>, attempts: nat, refused: set<nat>, caches: bool, faulted: bool)

  /** Every handle held was made by an earlier attempt that succeeded; only a Lazy faults, and a faulted Lazy holds nothing. */
  predicate Issued(h: Handle) {
    (h.application.Some? ==> h.application.value < h.attempts && h.application.value !in h.refused) &&
    (h.faulted ==> h.caches && h.application.None?)
  }

  /**
   * InitComObject: `application ??= new Application()`; for the Lazy, reading
   * its value. A failed attempt leaves no handle; the Lazy then stays faulted.
   */
  function Acquire(h: Handle): Handle {
    if h.application.Some? || h.faulted then h
    else if h.attempts in h.refused then h.(attempts := h.attempts + 1, faulted := h.caches)
    else h.(application := Some(h.attempts), attempts := h.attempts + 1)
  }

  /** Reading the handle yields an object: one is held, or the attempt to make one succeeds. */
  predicate Available(h: Handle) {
    Acquire(h).application.Some?
  }

  /** ReleaseComObject: a held handle is released and the field set to null (a fresh Lazy); a fault stays. */
  function Release(h: Handle): Handle {
    if h.application.Some? then h.(application := None) else h
  }

  /**
   * The `try` of Run before the call: Lazy and Wrap acquire, and a failed
   * creation throws; Manual needs a handle already.
   */
  function Enter(mode: ComObjectMode, h: Handle): Result<Handle> {
    if mode == Wrap || mode == Lazy then
      if Available(h) then Success(Acquire(h)) else Failure(NoApplication)
    else if h.application.None? then Failure(NoComObject)
    else Success(h)
  }

  /** The handle after the `try` got as far as the action, or threw before it. */
  function Entered(mode: ComObjectMode, h: Handle): Handle {
    if mode == Manual then h else Acquire(h)
  }

  /** The `finally` of Run: Wrap releases, whether the call returned or threw. */
  function Leave(mode: ComObjectMode, h: Handle): Handle {
    if mode == Wrap then Release(h) else h
  }

  /** One call through Run: what it returns or throws, the handle afterwards, and whether the action ran. */
  datatype RunResult<T> = RunResult(answer: Result<T>, handle: Handle, invoked: bool)

  /**
   * Run<T>(func) and Run(action): `outcome` is what the action returns, or
   * the store error it raises (rethrown as it is).
   */
  function RunCall<T>(mode: ComObjectMode, h: Handle, outcome: Result<T>): RunResult<T> {
    match Enter(mode, h)
    case Failure(e) => RunResult(Failure(e), Leave(mode, Entered(mode, h)), false)
    case Success(h1) => RunResult(outcome, Leave(mode, h1), true)
  }

  // ---------------------------------------------------------------------
  // Properties.

  /**
   * InitComObject and ReleaseComObject: Release is idempotent and leaves no
   * handle; Init keeps a handle that is there, and otherwise makes one unless
   * the attempt throws, and then is idempotent. A failed attempt leaves no
   * handle, faults a Lazy for good, and leaves OneNote's field free to try
   * again. A handle acquired after a release is a new object, never the
   * released one.
   */
  lemma AcquireRelease(h: Handle)
    requires Issued(h)
    ensures Release(Release(h)) == Release(h) && Release(h).application.None?
    ensures h.application.Some? ==> Acquire(h) == h
    ensures Available(h) <==> h.application.Some? || (!h.faulted && h.attempts !in h.refused)
    ensures Available(h) ==> Acquire(Acquire(h)) == Acquire(h)
    ensures !Available(h) ==> Acquire(h).faulted == h.caches && Acquire(h).application.None?
    ensures h.faulted ==> Acquire(h) == h && Release(h) == h
    ensures !Available(h) && !h.caches ==> Acquire(h).attempts == h.attempts + 1 && !Acquire(h).faulted
    ensures Issued(Acquire(h)) && Issued(Release(h))
    ensures h.application.Some? && Available(Release(h)) ==>
              Acquire(Release(h)).application.value != h.application.value
  {
  }

  /**
   * What Run does in each mode: the action runs when the mode is Manual and
   * there is a handle, or the mode is Lazy or Wrap and the handle is there or
   * can be made. Otherwise Manual throws NoComObject and changes nothing, and
   * a failed creation throws without running the action. A Wrap call ends
   * without a handle even when the action throws; a Lazy call ends with
   * whatever acquiring left, a handle whenever the action ran; Manual never
   * acquires or releases.
   */
  lemma RunContract<T>(mode: ComObjectMode, h: Handle, outcome: Result<T>)
    requires Issued(h)
    ensures var r := RunCall(mode, h, outcome);
            (r.invoked <==> (mode == Manual && h.application.Some?) || (mode != Manual && Available(h))) &&
            (r.invoked ==> r.answer == outcome) &&
            (!r.invoked && mode == Manual ==> r.answer == Failure(NoComObject) && r.handle == h) &&
            (!r.invoked && mode != Manual ==> r.answer == Failure(NoApplication)) &&
            (mode == Wrap ==> r.handle.application.None? && r.handle == Release(Acquire(h))) &&
            (mode == Lazy ==> r.handle == Acquire(h) && (r.invoked ==> r.handle.application.Some?)) &&
            (mode == Manual ==> r.handle == h) &&
            Issued(r.handle)
  {
    AcquireRelease(h);
  }

  /**
   * The Wrap mode makes each call use a handle of its own: both calls end
   * without a handle, OneNote's field makes a fresh attempt for the second,
   * and when both calls get an object the two are different.
   */
  lemma WrapCallsDoNotShare<T>(h: Handle, first: Result<T>, second: Result<T>)
    requires Issued(h)
    ensures var r1 := RunCall(Wrap, h, first);
            var r2 := RunCall(Wrap, r1.handle, second);
            r1.handle.application.None? && r2.handle.application.None? &&
            (!h.caches ==> r2.handle.attempts == r1.handle.attempts + 1) &&
            (r1.invoked && r2.invoked ==> Acquire(h).application != Acquire(r1.handle).application)
  {
  }

  /** The static state of OneNote: the mode, the nullable handle and the creation attempts. */
  class ComSession {
    var mode: ComObjectMode
    var application: Option<nat>
    var attempts: nat
    const refused: set<nat>

    function State(): Handle
      reads this
    {
      Handle(application, attempts, refused, false, false)
    }

    /** The static initialisers: mode Lazy, no handle; `refused` is the environment's answer to each creation. */
    constructor(refused: set<nat>)
      ensures mode == Lazy && application.None? && attempts == 0 && this.refused == refused && Issued(State())
    {
      mode := Lazy;
      application := None;
      attempts := 0;
      this.refused := refused;
    }

    /** HasComObject: the handle is not null. */
    predicate HasComObject()
      reads this
    {
      application.Some?
    }

    method SetComObjectMode(m: ComObjectMode)
      modifies this
      ensures mode == m && State() == old(State())
    {
      mode := m;
    }

    /** InitComObject: throws the COMException of a failed `new Application()`, leaving the field null. */
    method InitComObject() returns (res: Result<()>)
      modifies this
      ensures State() == Acquire(old(State())) && mode == old(mode)
      ensures res.Success? <==> application.Some?
      ensures res.Failure? ==> res.error == NoApplication
    {
      if application.None? {
        var attempt := attempts;
        attempts := attempts + 1;
        if attempt in refused {
          return Failure(NoApplication);
        }
        application := Some(attempt);
      }
      return Success(());
    }

    method ReleaseComObject()
      modifies this
      ensures State() == Release(old(State())) && mode == old(mode)
    {
      if application.Some? {
        application := None;
      }
    }

    /**
     * Run: acquire or check, invoke the action (whose answer is `outcome`),
     * and release in Wrap mode on every path out. A failed InitComObject
     * throws inside the `try`, so the action is not invoked.
     */
    method Run<T>(outcome: Result<T>) returns (answer: Result<T>, invoked: bool)
      modifies this
      ensures RunResult(answer, State(), invoked) == RunCall(mode, old(State()), outcome)
      ensures mode == old(mode)
    {
      if mode == Wrap || mode == Lazy {
        var init := InitComObject();
        if init.Failure? {
          answer, invoked := Failure(init.error), false;
        } else {
          answer, invoked := outcome, true;
        }
      } else if !HasComObject() {
        answer, invoked := Failure(NoComObject), false;
      } else {
        answer, invoked := outcome, true;
      }
      if mode == Wrap {
        ReleaseComObject();
      }
    }
  }

  /**
   * OneNoteApplication's handle: `lazyOneNote`, whose value is created on the
   * first read of the OneNote property. A Lazy built with
   * ExecutionAndPublication caches the exception of a failed creation and
   * rethrows it on every later read. Releasing swaps in a fresh Lazy, but only
   * when a value was created.
   */
  class LazyApplication {
    var value: Option<nat>
    var attempts: nat
    var faulted: bool
    const refused: set<nat>

    function State(): Handle
      reads this
    {
      Handle(value, attempts, refused, true, faulted)
    }

    /** `GetLazyOneNote()` at start-up: a Lazy with no value yet. */
    constructor(refused: set<nat>)
      ensures value.None? && !faulted && attempts == 0 && this.refused == refused && Issued(State())
    {
      value := None;
      attempts := 0;
      faulted := false;
      this.refused := refused;
    }

    /** HasComObject: `lazyOneNote.IsValueCreated`, false for a faulted Lazy. */
    predicate HasComObject()
      reads this
    {
      value.Some?
    }

    /** The OneNote property: `lazyOneNote.Value`, created on first read, or the cached exception. */
    method OneNote() returns (res: Result<nat>)
      modifies this
      ensures State() == Acquire(old(State()))
      ensures res.Success? <==> value.Some?
      ensures res.Success? ==> Some(res.value) == value
      ensures res.Failure? ==> res.error == NoApplication
    {
      if value.None? {
        if faulted {
          return Failure(NoApplication);
        }
        var attempt := attempts;
        attempts := attempts + 1;
        if attempt in refused {
          faulted := true;
          return Failure(NoApplication);
        }
        value := Some(attempt);
      }
      return Success(value.value);
    }

    /** InitComObject: read the value unless it is created already; a failed read throws. */
    method InitComObject() returns (res: Result<()>)
      modifies this
      ensures State() == Acquire(old(State()))
      ensures res.Success? <==> value.Some?
      ensures res.Failure? ==> res.error == NoApplication
    {
      if !HasComObject() {
        var read := OneNote();
        if read.Failure? {
          return Failure(read.error);
        }
      }
      return Success(());
    }

    /** ReleaseComObject: release the created value and replace the Lazy with a new one. */
    method ReleaseComObject()
      modifies this
      ensures State() == Release(old(State()))
    {
      if HasComObject() {
        value := None;
      }
    }
  }

  /**
   * OneNoteApplication has no modes: each API call reads the OneNote property,
   * which is Run in Lazy mode on its Lazy. It acquires when needed, never
   * releases and never raises NoComObject. A failed creation throws and
   * faults the Lazy; from then on every call throws the same exception
   * without running, and releasing does not help.
   */
  lemma ApplicationCallIsLazyRun<T>(h: Handle, outcome: Result<T>)
    requires Issued(h) && h.caches
    ensures var r := RunCall(Lazy, h, outcome);
            r.handle == Acquire(h) && Issued(r.handle) &&
            (r.invoked <==> h.application.Some? || (!h.faulted && h.attempts !in h.refused)) &&
            (r.invoked ==> r.answer == outcome && r.handle.application.Some?) &&
            (!r.invoked ==> r.answer == Failure(NoApplication) && r.handle.faulted)
    ensures h.faulted ==> RunCall(Lazy, h, outcome) == RunResult(Failure(NoApplication), h, false) && Release(h) == h
  {
  }
}
