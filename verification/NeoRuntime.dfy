/**
 * createNeoRuntime: the start and close controller of the application runtime. Each step is the code between two
 * awaits; how the opener answers and whether the owner closes are free inputs. The opener and the owner do not call
 * back into the runtime.
 */
module NeoRuntime {
  import opened Options

  datatype Lifecycle = New | Starting | Running | Stopping | Stopped | Failed
  datatype FailureClass = PROCESS_LOCK_HELD | CONFIGURATION | STARTUP | RUNTIME_FATAL
  datatype Reason = Requested | Fatal

  /** The composition codes the runtime tells apart. */
  datatype OpenCode = LOCK_HELD | UNAVAILABLE | OtherCode
  datatype OpenAnswer = Opens | OpenFails(code: OpenCode) | OpenRejects
  datatype OwnerClose = OwnerCloses | OwnerStays | OwnerThrows

  datatype StartResult = Started | LockHeld | StartupFailed | StartInProgress | StartRejected
  datatype CloseResult = Closed | Incomplete | Busy | CloseRejected

  /** What start() returns: an answer at once, or the promise of a task. */
  datatype StartAnswer = AlreadyRunning | TerminalState | Promised(task: nat)

  /** One call of startInternal, and one of runClose. */
  datatype StartTask = Opening | StartReturned(result: StartResult) | StartSettled(result: StartResult)
  datatype CloseTask =
    | Awaiting(start: nat, reason: Reason)
    | CloseReturned(result: CloseResult)
    | CloseSettled(result: CloseResult)

  /** The closure's variables, the tasks they spawned, and the history of owners: openings so far, closed successfully. */
  datatype State = State(
    lifecycle: Lifecycle, durableHostOpened: bool, failureClass: Option<FailureClass>, owner: Option<nat>,
    shutdownLatch: bool, startInFlight: Option<nat>, closeInFlight: Option<nat>,
    starts: seq<StartTask>, closes: seq<CloseTask>, openings: nat, closed: seq<nat>)

  datatype Event =
    | Start
    | OpenerAnswers(task: nat, answer: OpenAnswer, ownerClose: OwnerClose)
    | StartSettles(task: nat)
    | Close(reason: Reason, ownerClose: OwnerClose)
    | CloseResumes(task: nat, ownerClose: OwnerClose)
    | CloseSettles(task: nat)

  const INITIAL: State := State(New, false, None, None, false, None, None, [], [], 0, [])

  // ---------------------------------------------------------------- specification of the steps

  function ClassOf(code: OpenCode): FailureClass {
    match code
    case LOCK_HELD => PROCESS_LOCK_HELD
    case UNAVAILABLE => CONFIGURATION
    case OtherCode => STARTUP
  }

  function MarkedFailed(s: State, failure: FailureClass): State {
    s.(lifecycle := Failed, failureClass := Some(failure),
       durableHostOpened := if s.owner.None? then false else s.durableHostOpened)
  }

  function OwnerClosed(s: State, oc: OwnerClose): (State, CloseResult) {
    if s.owner.None? then (s.(durableHostOpened := false), Closed)
    else match oc
      case OwnerCloses => (s.(owner := None, durableHostOpened := false, closed := s.closed + [s.owner.value]), Closed)
      case OwnerStays => (s.(durableHostOpened := true), Incomplete)
      case OwnerThrows => (s, CloseRejected)
  }

  function AfterStart(s: State): State {
    if s.lifecycle == Running || s.lifecycle == Stopped || s.lifecycle == Failed || s.startInFlight.Some? then s
    else
      var flight := s.(startInFlight := Some(|s.starts|));
      if s.lifecycle == Stopping then flight.(starts := s.starts + [StartReturned(StartInProgress)])
      else flight.(lifecycle := Starting, starts := s.starts + [Opening])
  }

  function Returns(s: State, k: nat, result: StartResult): State
    requires k < |s.starts|
  {
    s.(starts := s.starts[k := StartReturned(result)])
  }

  function AfterOpener(s: State, k: nat, answer: OpenAnswer, oc: OwnerClose): State
    requires k < |s.starts|
  {
    match answer
    case OpenRejects => Returns(s, k, StartRejected)
    case OpenFails(code) =>
      Returns(MarkedFailed(s, ClassOf(code)), k, if ClassOf(code) == PROCESS_LOCK_HELD then LockHeld else StartupFailed)
    case Opens =>
      var held := s.(owner := Some(s.openings), durableHostOpened := true, openings := s.openings + 1);
      if !s.shutdownLatch then Returns(held.(lifecycle := Running), k, Started)
      else
        var (t, r) := OwnerClosed(held, oc);
        if r == CloseRejected then Returns(t, k, StartRejected)
        else Returns(t.(lifecycle := if r == Closed then Stopped else Stopping), k, StartupFailed)
  }

  /** runClose from the point where no start is awaited any more. */
  function Shutdown(s: State, reason: Reason, oc: OwnerClose): (State, CloseResult) {
    if s.lifecycle == Stopped then (s, Closed)
    else if s.lifecycle == Failed then OwnerClosed(s, oc)
    else if s.lifecycle == Starting then (s.(lifecycle := Stopped, durableHostOpened := false, owner := None), Closed)
    else if s.lifecycle != Running && s.lifecycle != Stopping then (s, Busy)
    else
      var (t, r) := OwnerClosed(s.(lifecycle := Stopping), oc);
      if r == CloseRejected then (t, r)
      else if reason == Fatal then (MarkedFailed(t, RUNTIME_FATAL), r)
      else (t.(lifecycle := if r == Closed then Stopped else Stopping), r)
  }

  function AfterClose(s: State, reason: Reason, oc: OwnerClose): State {
    if s.closeInFlight.Some? then s else
    var flight := s.(closeInFlight := Some(|s.closes|));
    if s.lifecycle == New then
      flight.(lifecycle := Stopped, durableHostOpened := false, owner := None, closes := s.closes + [CloseReturned(Closed)])
    else if s.lifecycle == Starting && s.startInFlight.Some? then
      flight.(shutdownLatch := true, closes := s.closes + [Awaiting(s.startInFlight.value, reason)])
    else
      var (t, r) := Shutdown(flight.(shutdownLatch := s.shutdownLatch || s.lifecycle == Starting), reason, oc);
      t.(closes := t.closes + [CloseReturned(r)])
  }

  /** `await startInFlight` has come back; a rejected start rejects the close too. */
  function AfterResume(s: State, c: nat, oc: OwnerClose): State
    requires c < |s.closes| && s.closes[c].Awaiting? && s.closes[c].start < |s.starts|
      && s.starts[s.closes[c].start].StartSettled?
  {
    if s.starts[s.closes[c].start].result == StartRejected then s.(closes := s.closes[c := CloseReturned(CloseRejected)])
    else
      var (t, r) := Shutdown(s, s.closes[c].reason, oc);
      t.(closes := s.closes[c := CloseReturned(r)])
  }

  predicate Resumable(s: State, c: nat) {
    c < |s.closes| && s.closes[c].Awaiting? && s.closes[c].start < |s.starts| && s.starts[s.closes[c].start].StartSettled?
  }

  /** One step; an event that is not enabled changes nothing. */
  function Step(s: State, e: Event): State {
    match e
    case Start => AfterStart(s)
    case OpenerAnswers(k, answer, oc) =>
      if k < |s.starts| && s.starts[k].Opening? then AfterOpener(s, k, answer, oc) else s
    case StartSettles(k) =>
      if k < |s.starts| && s.starts[k].StartReturned? then
        s.(starts := s.starts[k := StartTask.StartSettled(s.starts[k].result)], startInFlight := None)
      else s
    case Close(reason, oc) => AfterClose(s, reason, oc)
    case CloseResumes(c, oc) => if Resumable(s, c) then AfterResume(s, c, oc) else s
    case CloseSettles(c) =>
      if c < |s.closes| && s.closes[c].CloseReturned? then
        s.(closes := s.closes[c := CloseTask.CloseSettled(s.closes[c].result)], closeInFlight := None)
      else s
  }

  function Run(s: State, events: seq<Event>): State
    decreases |events|
  {
    if events == [] then s else Run(Step(s, events[0]), events[1..])
  }

  // ---------------------------------------------------------------- the controller

  class Runtime {
    var lifecycle: Lifecycle
    var durableHostOpened: bool
    var failureClass: Option<FailureClass>
    var owner: Option<nat>
    var shutdownLatch: bool
    var startInFlight: Option<nat>
    var closeInFlight: Option<nat>
    var starts: seq<StartTask>
    var closes: seq<CloseTask>
    var openings: nat
    ghost var closed: seq<nat>

    ghost function Now(): State reads this {
      State(lifecycle, durableHostOpened, failureClass, owner, shutdownLatch, startInFlight, closeInFlight,
            starts, closes, openings, closed)
    }

    constructor ()
      ensures Now() == INITIAL
    {
      lifecycle, durableHostOpened, failureClass, owner := New, false, None, None;
      shutdownLatch, startInFlight, closeInFlight := false, None, None;
      starts, closes, openings, closed := [], [], 0, [];
    }

    method MarkFailed(failure: FailureClass)
      modifies this
      ensures Now() == MarkedFailed(old(Now()), failure)
    {
      lifecycle := Failed;
      failureClass := Some(failure);
      if owner.None? { durableHostOpened := false; }
    }

    method CloseOwnerIfPresent(oc: OwnerClose) returns (result: CloseResult)
      modifies this
      ensures (Now(), result) == OwnerClosed(old(Now()), oc)
    {
      if owner.None? {
        durableHostOpened := false;
        return Closed;
      }
      match oc {
        case OwnerThrows => return CloseRejected;
        case OwnerCloses =>
          closed := closed + [owner.value];
          owner := None;
          durableHostOpened := false;
          return Closed;
        case OwnerStays =>
          durableHostOpened := true;
          return Incomplete;
      }
    }

    /** start(), up to the call of the opener. */
    method StartCalled() returns (answer: StartAnswer)
      modifies this
      ensures Now() == Step(old(Now()), Start)
      ensures answer.AlreadyRunning? <==> old(lifecycle) == Running
      ensures answer.TerminalState? <==> old(lifecycle) == Stopped || old(lifecycle) == Failed
      ensures answer.Promised? ==>
        startInFlight == Some(answer.task)
        && (old(startInFlight).Some? ==> startInFlight == old(startInFlight) && starts == old(starts))
    {
      if lifecycle == Running { return AlreadyRunning; }
      if lifecycle == Stopped || lifecycle == Failed { return TerminalState; }
      if startInFlight.Some? { return Promised(startInFlight.value); }
      answer := Promised(|starts|);
      startInFlight := Some(|starts|);
      if lifecycle == Stopping {
        starts := starts + [StartReturned(StartInProgress)];
        return;
      }
      lifecycle := Starting;
      starts := starts + [Opening];
    }

    /** startInternal from the opener's answer to its return. */
    method OpenerAnswered(k: nat, answer: OpenAnswer, oc: OwnerClose)
      requires k < |starts| && starts[k].Opening?
      modifies this
      ensures Now() == Step(old(Now()), OpenerAnswers(k, answer, oc))
    {
      var result := StartRejected;
      match answer {
        case OpenRejects =>
        case OpenFails(code) =>
          MarkFailed(ClassOf(code));
          result := if ClassOf(code) == PROCESS_LOCK_HELD then LockHeld else StartupFailed;
        case Opens =>
          owner := Some(openings);
          openings := openings + 1;
          durableHostOpened := true;
          if shutdownLatch {
            var closeResult := CloseOwnerIfPresent(oc);
            if closeResult != CloseRejected {
              lifecycle := if closeResult == Closed then Stopped else Stopping;
              result := StartupFailed;
            }
          } else {
            lifecycle := Running;
            result := Started;
          }
      }
      starts := starts[k := StartReturned(result)];
    }

    /** The `finally` of the start promise. */
    method StartFinally(k: nat)
      requires k < |starts| && starts[k].StartReturned?
      modifies this
      ensures Now() == Step(old(Now()), StartSettles(k))
    {
      starts := starts[k := StartTask.StartSettled(starts[k].result)];
      startInFlight := None;
    }

    method ShutDown(reason: Reason, oc: OwnerClose) returns (result: CloseResult)
      modifies this
      ensures (Now(), result) == Shutdown(old(Now()), reason, oc)
    {
      if lifecycle == Stopped { return Closed; }
      if lifecycle == Failed {
        result := CloseOwnerIfPresent(oc);
        return;
      }
      if lifecycle == Running {
        lifecycle := Stopping;
      } else if lifecycle == Starting {
        lifecycle, durableHostOpened, owner := Stopped, false, None;
        return Closed;
      }
      if lifecycle != Stopping { return Busy; }
      result := CloseOwnerIfPresent(oc);
      if result == CloseRejected { return; }
      if reason == Fatal {
        MarkFailed(RUNTIME_FATAL);
      } else {
        lifecycle := if result == Closed then Stopped else Stopping;
      }
    }

    /** close(reason), up to its return or to the await of a start in flight. */
    method CloseCalled(reason: Reason, oc: OwnerClose) returns (task: nat)
      modifies this
      ensures Now() == Step(old(Now()), Close(reason, oc))
      ensures closeInFlight == Some(task) && (old(closeInFlight).Some? ==> closeInFlight == old(closeInFlight))
    {
      hide Shutdown;
      if closeInFlight.Some? { return closeInFlight.value; }
      task := |closes|;
      closeInFlight := Some(|closes|);
      var result := Closed;
      if lifecycle == New {
        lifecycle, durableHostOpened, owner := Stopped, false, None;
      } else {
        if lifecycle == Starting {
          shutdownLatch := true;
          if startInFlight.Some? {
            closes := closes + [Awaiting(startInFlight.value, reason)];
            return;
          }
        }
        assert Now() == old(Now()).(closeInFlight := Some(|old(closes)|),
                                    shutdownLatch := old(shutdownLatch) || old(lifecycle) == Starting);
        ShutdownKeepsFlight(Now(), reason, oc);
        result := ShutDown(reason, oc);
      }
      closes := closes + [CloseReturned(result)];
    }

    /** runClose once the awaited start has settled. */
    method CloseResumed(c: nat, oc: OwnerClose)
      requires Resumable(Now(), c)
      modifies this
      ensures Now() == Step(old(Now()), CloseResumes(c, oc))
    {
      var task := closes[c];
      var result := CloseRejected;
      if starts[task.start].result != StartRejected {
        result := ShutDown(task.reason, oc);
      }
      closes := closes[c := CloseReturned(result)];
    }

    /** The `finally` of the close promise. */
    method CloseFinally(c: nat)
      requires c < |closes| && closes[c].CloseReturned?
      modifies this
      ensures Now() == Step(old(Now()), CloseSettles(c))
    {
      closes := closes[c := CloseTask.CloseSettled(closes[c].result)];
      closeInFlight := None;
    }
  }

  // ---------------------------------------------------------------- invariant

  predicate Left(t: StartTask) { !t.Opening? && t.result != StartRejected }
  predicate ClosedOk(t: CloseTask) { !t.Awaiting? && t.result == Closed }

  /** A start not yet settled is the one in flight; an opener is running only while starting. */
  predicate StartsOk(s: State) {
    (s.startInFlight.Some? ==> s.startInFlight.value < |s.starts| && !s.starts[s.startInFlight.value].StartSettled?)
    && (forall k | 0 <= k < |s.starts| && !s.starts[k].StartSettled? :: s.startInFlight == Some(k))
    && (forall k | 0 <= k < |s.starts| && s.starts[k].Opening? :: s.lifecycle == Starting)
    && (forall k | 0 <= k < |s.starts| && Left(s.starts[k]) :: s.lifecycle != New && s.lifecycle != Starting)
    && (s.lifecycle == New ==> s.starts == [])
  }

  predicate ClosesOk(s: State) {
    (s.closeInFlight.Some? ==> s.closeInFlight.value < |s.closes| && !s.closes[s.closeInFlight.value].CloseSettled?)
    && (forall c | 0 <= c < |s.closes| && !s.closes[c].CloseSettled? :: s.closeInFlight == Some(c))
    && (forall c | 0 <= c < |s.closes| && s.closes[c].Awaiting? ::
          s.closes[c].start < |s.starts| && s.shutdownLatch
          && (s.startInFlight == Some(s.closes[c].start) || s.starts[s.closes[c].start].StartSettled?))
    && (forall c | 0 <= c < |s.closes| && ClosedOk(s.closes[c]) ::
          s.owner.None? && (s.lifecycle == Stopped || s.lifecycle == Failed))
    && (forall c | 0 <= c < |s.closes| && !s.closes[c].Awaiting? :: s.closes[c].result != Busy)
  }

  /** Every owner ever opened is the one held or was closed successfully, once. */
  predicate OwnersOk(openings: nat, owner: Option<nat>, closed: seq<nat>) {
    (forall o | 0 <= o < openings :: owner == Some(o) || o in closed)
    && (owner.Some? ==> owner.value < openings && owner.value !in closed)
    && (forall i | 0 <= i < |closed| :: closed[i] < openings)
    && (forall i, j | 0 <= i < j < |closed| :: closed[i] != closed[j])
  }

  predicate Traced(s: State) { OwnersOk(s.openings, s.owner, s.closed) }

  predicate FlagsOk(s: State) {
    (s.owner.Some? <==> s.durableHostOpened)
    && (s.lifecycle == Running ==> s.owner.Some?)
    && (s.lifecycle == Stopped || s.lifecycle == New ==> s.owner.None?)
    && (s.shutdownLatch ==> s.lifecycle != Running && s.lifecycle != New)
  }

  predicate Inv(s: State) { StartsOk(s) && ClosesOk(s) && FlagsOk(s) }

  /** No owner is held before the runtime runs. */
  predicate Orphanless(s: State) {
    s.owner.Some? ==> s.lifecycle == Running || s.lifecycle == Stopping || s.lifecycle == Failed
  }

  /** The owner's close does not throw while an aborted start cleans up. */
  predicate Calm(e: Event) { e.OpenerAnswers? ==> e.ownerClose != OwnerThrows }

  lemma StartKeepsInv(s: State)
    requires Inv(s)
    ensures Inv(AfterStart(s))
  {
    assert StartsOk(AfterStart(s)) && FlagsOk(AfterStart(s)) by { hide ClosesOk; }
    assert ClosesOk(AfterStart(s));
  }

  lemma OpenerKeepsInv(s: State, k: nat, answer: OpenAnswer, oc: OwnerClose)
    requires Inv(s) && k < |s.starts| && s.starts[k].Opening?
    ensures Inv(AfterOpener(s, k, answer, oc))
  {
    OpenerKeepsStarts(s, k, answer, oc);
    OpenerKeepsCloses(s, k, answer, oc);
    hide StartsOk, AfterOpener;
    assert ClosesOk(AfterOpener(s, k, answer, oc));
  }

  lemma OpenerKeepsStarts(s: State, k: nat, answer: OpenAnswer, oc: OwnerClose)
    requires StartsOk(s) && FlagsOk(s) && k < |s.starts| && s.starts[k].Opening?
    ensures StartsOk(AfterOpener(s, k, answer, oc)) && FlagsOk(AfterOpener(s, k, answer, oc))
  {
  }

  lemma OpenerKeepsCloses(s: State, k: nat, answer: OpenAnswer, oc: OwnerClose)
    requires k < |s.starts|
    ensures var t := AfterOpener(s, k, answer, oc);
      t.closes == s.closes && t.closeInFlight == s.closeInFlight && t.startInFlight == s.startInFlight
      && t.shutdownLatch == s.shutdownLatch && |t.starts| == |s.starts|
      && forall i | 0 <= i < |s.starts| && i != k :: t.starts[i] == s.starts[i]
  {
  }

  lemma OpenerKeepsOwners(s: State, k: nat, answer: OpenAnswer, oc: OwnerClose)
    requires Traced(s) && s.owner.None? && k < |s.starts|
    ensures Traced(AfterOpener(s, k, answer, oc))
  {
  }

  lemma OwnerClosedIs(s: State, oc: OwnerClose)
    ensures var (t, r) := OwnerClosed(s, oc);
      r != Busy && (r == Closed <==> t.owner.None?) && (s.owner.None? ==> r == Closed)
      && (r == Closed ==> !t.durableHostOpened) && (r == Incomplete ==> t.durableHostOpened)
      && (r == CloseRejected ==> t == s) && (t.owner.Some? ==> t.owner == s.owner && t.closed == s.closed)
      && (t.owner.None? && s.owner.Some? ==> t.closed == s.closed + [s.owner.value])
      && t == s.(owner := t.owner, durableHostOpened := t.durableHostOpened, closed := t.closed)
  {
  }

  lemma ShutdownKeepsFlight(s: State, reason: Reason, oc: OwnerClose)
    ensures Shutdown(s, reason, oc).0.closeInFlight == s.closeInFlight
  {
  }

  /** What the tail of runClose does to a runtime with no opener running. */
  lemma ShutdownKeeps(s: State, reason: Reason, oc: OwnerClose)
    requires StartsOk(s) && FlagsOk(s) && s.lifecycle != New && (s.lifecycle == Starting ==> s.startInFlight.None?)
    ensures var (t, r) := Shutdown(s, reason, oc);
      FlagsOk(t) && StartsOk(t) && t.starts == s.starts && t.closes == s.closes
      && t.startInFlight == s.startInFlight && t.closeInFlight == s.closeInFlight && t.shutdownLatch == s.shutdownLatch
      && r != Busy && (r == Closed ==> t.owner.None? && (t.lifecycle == Stopped || t.lifecycle == Failed))
      && (s.lifecycle == Stopped || s.lifecycle == Failed ==> t.lifecycle == s.lifecycle && (s.owner.None? ==> t.owner.None?))
  {
    OwnerClosedIs(s, oc);
    OwnerClosedIs(s.(lifecycle := Stopping), oc);
    hide OwnerClosed;
    var (t, r) := Shutdown(s, reason, oc);
    assert t.owner.Some? <==> t.durableHostOpened;
    assert (t.lifecycle == Running ==> t.owner.Some?);
    assert (t.lifecycle == Stopped ==> t.owner.None?);
    assert t.shutdownLatch ==> t.lifecycle != Running && t.lifecycle != New;

  }

  lemma CloseKeepsInv(s: State, reason: Reason, oc: OwnerClose)
    requires Inv(s)
    ensures Inv(AfterClose(s, reason, oc))
  {
    if s.closeInFlight.None? {
      if s.lifecycle == New {
        FreshCloseKeepsInv(s);
      } else if s.lifecycle == Starting && s.startInFlight.Some? {
        hide OwnersOk;
      } else {
        DirectCloseKeepsInv(s, reason, oc);
      }
    }
  }

  lemma DirectCloseKeepsInv(s: State, reason: Reason, oc: OwnerClose)
    requires Inv(s) && s.closeInFlight.None? && s.lifecycle != New && !(s.lifecycle == Starting
      && s.startInFlight.Some?)
    ensures Inv(AfterClose(s, reason, oc))
  {
    hide Shutdown, OwnersOk, ClosesOk, StartsOk;
    var latched := s.(closeInFlight := Some(|s.closes|), shutdownLatch := s.shutdownLatch || s.lifecycle == Starting);
    SameStarts(s, latched);
    ShutdownKeeps(latched, reason, oc);
    var (t, r) := Shutdown(latched, reason, oc);
    CloseAppended(s, t, r);
    SameStarts(t, t.(closes := t.closes + [CloseReturned(r)]));
  }

  lemma FreshCloseKeepsInv(s: State)
    requires Inv(s) && s.lifecycle == New && s.closeInFlight.None?
    ensures Inv(AfterClose(s, Requested, OwnerCloses))
  {
    hide OwnersOk;
  }

  lemma SameStarts(s: State, t: State)
    requires StartsOk(s) && t.starts == s.starts && t.startInFlight == s.startInFlight && t.lifecycle == s.lifecycle
    ensures StartsOk(t)
  {
  }

  lemma CloseAppended(s: State, t: State, r: CloseResult)
    requires ClosesOk(s) && s.closeInFlight.None? && t.starts == s.starts && t.closes == s.closes && r != Busy
    requires t.startInFlight == s.startInFlight && t.closeInFlight == Some(|s.closes|) && (s.shutdownLatch ==> t.shutdownLatch)
    requires r == Closed ==> t.owner.None? && (t.lifecycle == Stopped || t.lifecycle == Failed)
    requires s.lifecycle == Stopped || s.lifecycle == Failed ==> t.lifecycle == s.lifecycle && (s.owner.None? ==> t.owner.None?)
    ensures ClosesOk(t.(closes := t.closes + [CloseReturned(r)]))
  {
  }

  lemma ResumeKeepsInv(s: State, c: nat, oc: OwnerClose)
    requires Inv(s) && Resumable(s, c)
    ensures Inv(AfterResume(s, c, oc))
  {
    hide Shutdown, OwnersOk;
    if s.starts[s.closes[c].start].result != StartRejected {
      assert Left(s.starts[s.closes[c].start]);
      ShutdownKeeps(s, s.closes[c].reason, oc);
    }
  }

  lemma StepKeepsInv(s: State, e: Event)
    requires Inv(s)
    ensures Inv(Step(s, e))
  {
    hide AfterStart, AfterOpener, AfterClose, AfterResume, Inv;
    match e
    case Start => StartKeepsInv(s);
    case OpenerAnswers(k, answer, oc) => if k < |s.starts| && s.starts[k].Opening? { OpenerKeepsInv(s, k, answer, oc); }
    case Close(reason, oc) => CloseKeepsInv(s, reason, oc);
    case CloseResumes(c, oc) => if Resumable(s, c) { ResumeKeepsInv(s, c, oc); }
    case StartSettles(k) => SettlingKeepsInv(s, e);
    case CloseSettles(c) => SettlingKeepsInv(s, e);
  }

  lemma SettlingKeepsInv(s: State, e: Event)
    requires Inv(s) && (e.StartSettles? || e.CloseSettles?)
    ensures Inv(Step(s, e))
  {
    hide OwnersOk;
  }

  lemma {:induction false} RunKeepsInv(s: State, events: seq<Event>)
    requires Inv(s)
    ensures Inv(Run(s, events))
    decreases |events|
  {
    if events != [] {
      hide Step, Inv;
      StepKeepsInv(s, events[0]);
      RunKeepsInv(Step(s, events[0]), events[1..]);
    }
  }

  // ---------------------------------------------------------------- when an owner can be lost

  /** The two places that forget an owner without closing it: a second opening, and a close while nominally starting. */
  predicate Overwrites(s: State, e: Event) {
    match e
    case OpenerAnswers(k, answer, _) => k < |s.starts| && s.starts[k].Opening? && answer == Opens
    case Close(_, _) => s.closeInFlight.None? && (s.lifecycle == New || (s.lifecycle == Starting && s.startInFlight.None?))
    case CloseResumes(c, _) =>
      Resumable(s, c) && s.starts[s.closes[c].start].result != StartRejected && s.lifecycle == Starting
    case _ => false
  }

  /** The state has lost the owner it held before. */
  predicate Lost(s: State, t: State) { s.owner.Some? && t.owner != s.owner && s.owner.value !in t.closed }

  /** A step loses an owner exactly when one is held and the step is one of those; otherwise the history stays whole. */
  lemma OwnerLostExactly(s: State, e: Event)
    requires Traced(s)
    ensures Lost(s, Step(s, e)) <==> s.owner.Some? && Overwrites(s, e)
    ensures !Lost(s, Step(s, e)) ==> Traced(Step(s, e))
  {
    hide AfterOpener, AfterClose, AfterResume, OwnersOk;
    match e
    case OpenerAnswers(k, answer, oc) => if k < |s.starts| && s.starts[k].Opening? { OpenerLoses(s, k, answer, oc); }
    case Close(reason, oc) => CloseLoses(s, reason, oc);
    case CloseResumes(c, oc) => if Resumable(s, c) { ResumeLoses(s, c, oc); }
    case _ =>
  }

  lemma OpenerLoses(s: State, k: nat, answer: OpenAnswer, oc: OwnerClose)
    requires Traced(s) && k < |s.starts|
    ensures Lost(s, AfterOpener(s, k, answer, oc)) <==> s.owner.Some? && answer == Opens
    ensures s.owner.None? || answer != Opens ==> Traced(AfterOpener(s, k, answer, oc))
  {
    if s.owner.None? { OpenerKeepsOwners(s, k, answer, oc); }
  }

  lemma OwnerClosedTraced(s: State, oc: OwnerClose)
    requires Traced(s)
    ensures Traced(OwnerClosed(s, oc).0)
  {
  }

  lemma ShutdownLoses(s: State, reason: Reason, oc: OwnerClose)
    requires Traced(s)
    ensures var t := Shutdown(s, reason, oc).0;
      (Lost(s, t) <==> s.owner.Some? && s.lifecycle == Starting) && (!Lost(s, t) ==> Traced(t))
  {
    OwnerClosedIs(s, oc);
    OwnerClosedIs(s.(lifecycle := Stopping), oc);
    OwnerClosedTraced(s, oc);
    OwnerClosedTraced(s.(lifecycle := Stopping), oc);
    hide OwnerClosed, OwnersOk;
  }

  lemma CloseLoses(s: State, reason: Reason, oc: OwnerClose)
    requires Traced(s)
    ensures var t := AfterClose(s, reason, oc);
      (Lost(s, t) <==> s.owner.Some? && Overwrites(s, Close(reason, oc))) && (!Lost(s, t) ==> Traced(t))
  {
    var flight := s.(closeInFlight := Some(|s.closes|), shutdownLatch := s.shutdownLatch || s.lifecycle == Starting);
    ShutdownLoses(flight, reason, oc);
    hide Shutdown, OwnersOk;
  }

  lemma ResumeLoses(s: State, c: nat, oc: OwnerClose)
    requires Traced(s) && Resumable(s, c)
    ensures var t := AfterResume(s, c, oc);
      (Lost(s, t) <==> s.owner.Some? && Overwrites(s, CloseResumes(c, oc))) && (!Lost(s, t) ==> Traced(t))
  {
    ShutdownLoses(s, s.closes[c].reason, oc);
    hide Shutdown, OwnersOk;
  }

  lemma StaysOrphanless(s: State, e: Event)
    requires Inv(s) && Orphanless(s) && Calm(e)
    ensures Orphanless(Step(s, e))
  {
    match e
    case OpenerAnswers(_, _, _) => hide ClosesOk, AfterClose, AfterResume, Shutdown;
    case Close(reason, oc) =>
      ShutdownOrphanless(s.(closeInFlight := Some(|s.closes|), shutdownLatch := s.shutdownLatch || s.lifecycle == Starting), reason, oc);
      hide ClosesOk, StartsOk, Shutdown, AfterOpener, AfterResume;
    case CloseResumes(c, oc) =>
      if Resumable(s, c) { ShutdownOrphanless(s, s.closes[c].reason, oc); }
      hide Inv, Shutdown, AfterOpener, AfterClose;
    case _ => hide ClosesOk, AfterOpener, AfterClose, AfterResume;
  }

  lemma ShutdownOrphanless(s: State, reason: Reason, oc: OwnerClose)
    requires Orphanless(s)
    ensures Orphanless(Shutdown(s, reason, oc).0)
  {
    OwnerClosedIs(s, oc);
    OwnerClosedIs(s.(lifecycle := Stopping), oc);
    hide OwnerClosed;
  }

  lemma {:induction false} RunStaysOrphanless(s: State, events: seq<Event>)
    requires Inv(s) && Orphanless(s) && forall k | 0 <= k < |events| :: Calm(events[k])
    ensures Inv(Run(s, events)) && Orphanless(Run(s, events))
    decreases |events|
  {
    if events != [] {
      hide Step, Inv, Orphanless;
      StepKeepsInv(s, events[0]);
      StaysOrphanless(s, events[0]);
      RunStaysOrphanless(Step(s, events[0]), events[1..]);
    }
  }

  /** An owner that was handed out is neither held nor was it closed. */
  predicate Dropped(s: State, o: nat) { o < s.openings && s.owner != Some(o) && o !in s.closed }

  lemma StepKeepsDropped(s: State, e: Event, o: nat)
    requires Dropped(s, o)
    ensures Dropped(Step(s, e), o)
  {
    hide Shutdown;
    match e
    case OpenerAnswers(_, _, _) => hide AfterClose, AfterResume;
    case Close(reason, oc) =>
      ShutdownKeepsDropped(s.(closeInFlight := Some(|s.closes|), shutdownLatch := s.shutdownLatch || s.lifecycle == Starting),
                           reason, oc, o);
    case CloseResumes(c, oc) => if Resumable(s, c) { ShutdownKeepsDropped(s, s.closes[c].reason, oc, o); }
    case _ =>
  }

  lemma ShutdownKeepsDropped(s: State, reason: Reason, oc: OwnerClose, o: nat)
    requires Dropped(s, o)
    ensures Dropped(Shutdown(s, reason, oc).0, o)
  {
    hide OwnerClosed;
    OwnerClosedIs(s, oc);
    OwnerClosedIs(s.(lifecycle := Stopping), oc);
    assert Dropped(OwnerClosed(s, oc).0, o) && Dropped(OwnerClosed(s.(lifecycle := Stopping), oc).0, o) by {
      OwnerClosedKeepsDropped(s, oc, o);
      OwnerClosedKeepsDropped(s.(lifecycle := Stopping), oc, o);
    }
  }

  lemma OwnerClosedKeepsDropped(s: State, oc: OwnerClose, o: nat)
    requires Dropped(s, o)
    ensures Dropped(OwnerClosed(s, oc).0, o)
  {
  }

  lemma {:induction false} RunKeepsDropped(s: State, events: seq<Event>, o: nat)
    requires Dropped(s, o)
    ensures Dropped(Run(s, events), o)
    decreases |events|
  {
    if events != [] {
      hide Step, Dropped;
      StepKeepsDropped(s, events[0], o);
      RunKeepsDropped(Step(s, events[0]), events[1..], o);
    }
  }

  /** Some step of the run takes place while an owner is held and forgets it. */
  predicate SomeStepOverwrites(s: State, events: seq<Event>)
    decreases |events|
  {
    events != [] && ((s.owner.Some? && Overwrites(s, events[0])) || SomeStepOverwrites(Step(s, events[0]), events[1..]))
  }

  /** A run keeps track of all its owners exactly when no step of it overwrites one: what is lost never comes back. */
  lemma {:induction false} RunTracedExactly(s: State, events: seq<Event>)
    requires Traced(s)
    ensures Traced(Run(s, events)) <==> !SomeStepOverwrites(s, events)
    decreases |events|
  {
    if events != [] {
      var t := Step(s, events[0]);
      OwnerLostExactly(s, events[0]);
      hide Step, Overwrites;
      if Lost(s, t) {
        var o := s.owner.value;
        assert Dropped(t, o) by { OpeningsGrow(s, events[0]); }
        RunKeepsDropped(t, events[1..], o);
      } else {
        RunTracedExactly(t, events[1..]);
      }
    }
  }

  lemma OpeningsGrow(s: State, e: Event)
    ensures s.openings <= Step(s, e).openings
  {
    match e
    case OpenerAnswers(_, _, _) => hide AfterClose, AfterResume, Shutdown;
    case Close(reason, oc) =>
      ShutdownOpens(s.(closeInFlight := Some(|s.closes|), shutdownLatch := s.shutdownLatch || s.lifecycle == Starting), reason, oc);
      hide Shutdown;
    case CloseResumes(c, oc) =>
      if Resumable(s, c) { ShutdownOpens(s, s.closes[c].reason, oc); }
      hide Shutdown;
    case _ =>
  }

  lemma ShutdownOpens(s: State, reason: Reason, oc: OwnerClose)
    ensures Shutdown(s, reason, oc).0.openings == s.openings
  {
    OwnerClosedIs(s, oc);
    OwnerClosedIs(s.(lifecycle := Stopping), oc);
    hide OwnerClosed;
  }

  /** It does happen when the owner's close throws while an aborted start cleans up. */
  lemma ThrowingOwnerIsLost()
    ensures var s := Run(INITIAL, [Start, Close(Requested, OwnerCloses), OpenerAnswers(0, Opens, OwnerThrows), StartSettles(0),
                                   CloseResumes(0, OwnerCloses), CloseSettles(0), Close(Requested, OwnerCloses)]);
      s.openings == 1 && s.closed == [] && s.owner.None? && s.lifecycle == Stopped && s.closes[1] == CloseReturned(Closed)
  {
  }

  // ---------------------------------------------------------------- over every run

  /** However often start is called, at most one opener is running, and it is the start in flight. */
  lemma OneOpenerInFlight(events: seq<Event>, i: nat, j: nat)
    requires i < |Run(INITIAL, events).starts| && Run(INITIAL, events).starts[i].Opening?
    requires j < |Run(INITIAL, events).starts| && Run(INITIAL, events).starts[j].Opening?
    ensures i == j && Run(INITIAL, events).startInFlight == Some(i) && Run(INITIAL, events).lifecycle == Starting
  {
    RunKeepsInv(INITIAL, events);
    hide Run;
  }

  lemma HeldExactlyWhenOpened(events: seq<Event>)
    ensures var s := Run(INITIAL, events); s.owner.Some? <==> s.durableHostOpened
  {
    RunKeepsInv(INITIAL, events);
    hide Run;
  }

  /**
   * getHealth reports `starting` although a durable host is open, and now an opener succeeds, or a close comes that has no
   * start to wait for.
   */
  predicate StrayOwnerHit(s: State, e: Event) {
    s.lifecycle == Starting && s.durableHostOpened
    && match e
       case OpenerAnswers(k, answer, _) => k < |s.starts| && s.starts[k].Opening? && answer == Opens
       case Close(_, _) => s.startInFlight.None? && s.closeInFlight.None?
       case _ => false
  }

  /** In a state the runtime can reach, these are all the steps that overwrite an owner. */
  lemma OverwritesReachably(s: State, e: Event)
    requires Inv(s)
    ensures s.owner.Some? && Overwrites(s, e) <==> StrayOwnerHit(s, e)
  {
    if e.CloseResumes? && Resumable(s, e.task) && s.starts[s.closes[e.task].start].result != StartRejected {
      assert Left(s.starts[s.closes[e.task].start]);
    }
  }

  lemma {:induction false} OverwritesWhere(s: State, events: seq<Event>)
    requires Inv(s)
    ensures SomeStepOverwrites(s, events) <==> exists k :: 0 <= k < |events| && StrayOwnerHit(Run(s, events[..k]), events[k])
    decreases |events|
  {
    if events != [] {
      var t, later := Step(s, events[0]), events[1..];
      OverwritesReachably(s, events[0]);
      StepKeepsInv(s, events[0]);
      OverwritesWhere(t, later);
      hide Step, Inv, Overwrites, StrayOwnerHit;
      assert Run(s, events[..0]) == s;
      forall k | 0 <= k < |later| ensures Run(s, events[..k + 1]) == Run(t, later[..k]) && later[k] == events[k + 1] {
        assert events[..k + 1][1..] == later[..k];
      }
      if SomeStepOverwrites(t, later) {
        var k :| 0 <= k < |later| && StrayOwnerHit(Run(t, later[..k]), later[k]);
        assert StrayOwnerHit(Run(s, events[..k + 1]), events[k + 1]);
      }
      forall k | 0 < k < |events| ensures StrayOwnerHit(Run(s, events[..k]), events[k]) == StrayOwnerHit(Run(t, later[..k - 1]), later[k - 1]) {
        assert Run(s, events[..k - 1 + 1]) == Run(t, later[..k - 1]);
      }
    }
  }

  /**
   * Over a whole run each owner ever handed out is held or was closed, successfully and once, if and only if no opener
   * succeeds and no unwaiting close comes while an owner is held in `starting`.
   */
  lemma OwnersKeptExactly(events: seq<Event>)
    ensures Traced(Run(INITIAL, events))
       <==> forall k | 0 <= k < |events| :: !StrayOwnerHit(Run(INITIAL, events[..k]), events[k])
  {
    hide Run, Step, StrayOwnerHit;
    RunTracedExactly(INITIAL, events);
    OverwritesWhere(INITIAL, events);
  }

  /** In particular no owner is lost when no owner's close throws during the clean-up of an aborted start. */
  lemma NoOwnerDropped(events: seq<Event>, o: nat)
    requires (forall k | 0 <= k < |events| :: Calm(events[k])) && o < Run(INITIAL, events).openings
    ensures var s := Run(INITIAL, events);
      (s.owner == Some(o) <==> o !in s.closed)
      && (forall i, j | 0 <= i < j < |s.closed| :: s.closed[i] != s.closed[j])
  {
    OwnersKeptExactly(events);
    forall k | 0 <= k < |events| ensures !StrayOwnerHit(Run(INITIAL, events[..k]), events[k]) {
      RunStaysOrphanless(INITIAL, events[..k]);
    }
    hide Run;
  }

  /** Once a close has answered ok there is no owner and no opener left, for good. */
  lemma ClosedMeansGone(events: seq<Event>, c: nat, later: seq<Event>)
    requires c < |Run(INITIAL, events).closes| && ClosedOk(Run(INITIAL, events).closes[c])
    ensures var s := Run(Run(INITIAL, events), later);
      s.owner.None? && (s.lifecycle == Stopped || s.lifecycle == Failed) && forall k | 0 <= k < |s.starts| :: !s.starts[k].Opening?
  {
    RunKeepsInv(INITIAL, events);
    var s := Run(INITIAL, events);
    RunKeepsInv(s, later);
    ClosedStaysClosed(s, later, c);
    hide Run;
  }

  lemma {:induction false} ClosedStaysClosed(s: State, events: seq<Event>, c: nat)
    requires c < |s.closes| && ClosedOk(s.closes[c])
    ensures var t := Run(s, events); c < |t.closes| && ClosedOk(t.closes[c])
    decreases |events|
  {
    if events != [] {
      StepKeepsClosed(s, events[0], c);
      hide Step, ClosedOk;
      ClosedStaysClosed(Step(s, events[0]), events[1..], c);
    }
  }

  lemma StepKeepsClosed(s: State, e: Event, c: nat)
    requires c < |s.closes| && ClosedOk(s.closes[c])
    ensures var t := Step(s, e); c < |t.closes| && ClosedOk(t.closes[c])
  {
    hide AfterOpener;
    if e.OpenerAnswers? && e.task < |s.starts| { OpenerKeepsCloses(s, e.task, e.answer, e.ownerClose); }
  }

  /** Stopped and failed are absorbing, and a set latch is never cleared and rules running out. */
  lemma {:induction false} TerminalStatesAbsorb(s: State, events: seq<Event>)
    requires Inv(s)
    ensures var t := Run(s, events);
      (s.lifecycle == Stopped ==> t.lifecycle == Stopped) && (s.lifecycle == Failed ==> t.lifecycle == Failed)
      && (s.shutdownLatch ==> t.shutdownLatch && t.lifecycle != Running)
    decreases |events|
  {
    if events != [] {
      StepAbsorbs(s, events[0]);
      StepKeepsInv(s, events[0]);
      hide Step, StartsOk, ClosesOk, Traced;
      TerminalStatesAbsorb(Step(s, events[0]), events[1..]);
    }
  }

  lemma StepAbsorbs(s: State, e: Event)
    requires Inv(s)
    ensures var t := Step(s, e);
      (s.lifecycle == Stopped ==> t.lifecycle == Stopped) && (s.lifecycle == Failed ==> t.lifecycle == Failed)
      && (s.shutdownLatch ==> t.shutdownLatch)
  {
    hide ClosesOk, FlagsOk;
    if e.OpenerAnswers? && e.task < |s.starts| { OpenerKeepsCloses(s, e.task, e.answer, e.ownerClose); }
    if s.starts == [] || !e.OpenerAnswers? { hide AfterOpener; }
  }

  /** The busy answer of close is dead code. */
  lemma CloseIsNeverBusy(events: seq<Event>, c: nat)
    requires c < |Run(INITIAL, events).closes|
    requires !Run(INITIAL, events).closes[c].Awaiting?
    ensures Run(INITIAL, events).closes[c].result != Busy
  {
    RunKeepsInv(INITIAL, events);
    hide Run;
  }

  /** With nothing in flight, a close whose owner closes is answered ok at once, however many attempts failed before. */
  lemma CloseRetrySucceeds(events: seq<Event>, reason: Reason)
    requires Run(INITIAL, events).startInFlight.None? && Run(INITIAL, events).closeInFlight.None?
    ensures var s := Run(INITIAL, events);
      var t := Step(s, Close(reason, OwnerCloses));
      |t.closes| == |s.closes| + 1 && t.closes[|s.closes|] == CloseReturned(Closed) && t.owner.None?
      && (s.lifecycle != Starting ==> t.closed == if s.owner.Some? then s.closed + [s.owner.value] else s.closed)
  {
    RunKeepsInv(INITIAL, events);
    RetryCloses(Run(INITIAL, events), reason);
    hide Run;
  }

  lemma RetryCloses(s: State, reason: Reason)
    requires FlagsOk(s) && s.startInFlight.None? && s.closeInFlight.None?
    ensures var t := AfterClose(s, reason, OwnerCloses);
      |t.closes| == |s.closes| + 1 && t.closes[|s.closes|] == CloseReturned(Closed) && t.owner.None?
      && (s.lifecycle != Starting ==> t.closed == if s.owner.Some? then s.closed + [s.owner.value] else s.closed)
  {
  }

  // ---------------------------------------------------------------- failure classes and answers, told from the events

  lemma RunOneMore(s: State, events: seq<Event>, e: Event)
    ensures Run(s, events + [e]) == Step(Run(s, events), e)
  {
    RunConcat(s, events, [e]);
    hide Step;
    var t := Run(s, events);
    assert Run(t, [e]) == Run(Step(t, e), [e][1..]);
  }

  lemma {:induction false} RunConcat(s: State, a: seq<Event>, b: seq<Event>)
    ensures Run(s, a + b) == Run(Run(s, a), b)
    decreases |a|
  {
    if a == [] {
      assert a + b == b;
    } else {
      hide Step;
      RunConcat(Step(s, a[0]), a[1..], b);
      assert (a + b)[0] == a[0] && (a + b)[1..] == a[1..] + b;
    }
  }

  /** A failure class is recorded exactly in the failed state; a close made so far has at least set the latch. */
  predicate ClassOk(s: State) {
    (s.failureClass.Some? <==> s.lifecycle == Failed)
    && (s.closes != [] ==> s.lifecycle != New && s.lifecycle != Running && (s.lifecycle == Starting ==> s.shutdownLatch))
  }

  /** What an event can bring upon the runtime. */
  predicate Causes(e: Event, f: FailureClass) {
    match f
    case PROCESS_LOCK_HELD => e.OpenerAnswers? && e.answer == OpenFails(LOCK_HELD)
    case CONFIGURATION => e.OpenerAnswers? && e.answer == OpenFails(UNAVAILABLE)
    case STARTUP => e.OpenerAnswers? && e.answer == OpenFails(OtherCode)
    case RUNTIME_FATAL => e.Close? && e.reason == Fatal
  }

  predicate SomeCauses(events: seq<Event>, f: FailureClass) { exists k :: 0 <= k < |events| && Causes(events[k], f) }

  /** The failure class, and the reason of a close that waits, were brought about by some event. */
  predicate ClassTold(s: State, events: seq<Event>) {
    (s.failureClass.Some? ==> SomeCauses(events, s.failureClass.value))
    && forall c | 0 <= c < |s.closes| && s.closes[c].Awaiting? && s.closes[c].reason == Fatal :: SomeCauses(events, RUNTIME_FATAL)
  }

  lemma CausesStay(events: seq<Event>, e: Event, f: FailureClass)
    ensures SomeCauses(events + [e], f) <==> SomeCauses(events, f) || Causes(e, f)
  {
    hide Causes;
    var all := events + [e];
    assert all[|events|] == e;
    if SomeCauses(events, f) {
      var k :| 0 <= k < |events| && Causes(events[k], f);
      assert all[k] == events[k];
    }
  }

  /** Shutting down for a reason someone gave. */
  lemma ShutdownTellsClass(s: State, reason: Reason, oc: OwnerClose, events: seq<Event>)
    requires (s.failureClass.Some? <==> s.lifecycle == Failed) && s.lifecycle != New && ClassTold(s, events)
    requires reason == Fatal ==> SomeCauses(events, RUNTIME_FATAL)
    ensures var t := Shutdown(s, reason, oc).0;
      (t.failureClass.Some? <==> t.lifecycle == Failed) && t.lifecycle != New && t.lifecycle != Running && t.lifecycle != Starting
      && t.closes == s.closes && ClassTold(t, events)
  {
    hide SomeCauses;
    OwnerClosedIs(s, oc);
    OwnerClosedIs(s.(lifecycle := Stopping), oc);
    hide OwnerClosed;
  }

  lemma StepTellsClass(s: State, e: Event, events: seq<Event>)
    requires Inv(s) && ClassOk(s) && ClassTold(s, events)
    ensures ClassOk(Step(s, e)) && ClassTold(Step(s, e), events + [e])
  {
    var more := events + [e];
    forall f ensures SomeCauses(more, f) <==> SomeCauses(events, f) || Causes(e, f) { CausesStay(events, e, f); }
    hide SomeCauses;
    assert ClassTold(s, more);
    match e
    case OpenerAnswers(k, answer, oc) =>
      if k < |s.starts| && s.starts[k].Opening? {
        OpenerKeepsCloses(s, k, answer, oc);
        OpenerTellsClass(s, e, more);
      }
    case Close(reason, oc) => CloseTellsClass(s, e, more);
    case CloseResumes(c, oc) =>
      if Resumable(s, c) {
        hide Inv, Causes, Shutdown;
        if s.starts[s.closes[c].start].result != StartRejected { ResumeTellsClass(s, c, oc, more); }
      }
    case _ => hide Inv, Causes;
  }

  lemma OpenerTellsClass(s: State, e: Event, events: seq<Event>)
    requires Inv(s) && ClassOk(s) && ClassTold(s, events) && e.OpenerAnswers? && e.task < |s.starts| && s.starts[e.task].Opening?
    requires forall f | Causes(e, f) :: SomeCauses(events, f)
    ensures ClassOk(Step(s, e)) && ClassTold(Step(s, e), events)
  {
    assert s.lifecycle == Starting;
    OpenerKeepsCloses(s, e.task, e.answer, e.ownerClose);
    hide SomeCauses, Inv;
  }

  lemma CloseTellsClass(s: State, e: Event, events: seq<Event>)
    requires Inv(s) && ClassOk(s) && ClassTold(s, events) && e.Close?
    requires forall f | Causes(e, f) :: SomeCauses(events, f)
    ensures ClassOk(Step(s, e)) && ClassTold(Step(s, e), events)
  {
    assert Causes(e, RUNTIME_FATAL) <==> e.reason == Fatal;
    hide SomeCauses, Inv, Causes, Shutdown;
    if s.closeInFlight.None? && s.lifecycle != New && !(s.lifecycle == Starting && s.startInFlight.Some?) {
      var latched := s.(closeInFlight := Some(|s.closes|), shutdownLatch := s.shutdownLatch || s.lifecycle == Starting);
      ShutdownTellsClass(latched, e.reason, e.ownerClose, events);
    }
  }

  lemma ResumeTellsClass(s: State, c: nat, oc: OwnerClose, events: seq<Event>)
    requires ClassOk(s) && ClassTold(s, events) && Resumable(s, c)
    ensures ClassOk(AfterResume(s, c, oc)) && ClassTold(AfterResume(s, c, oc), events)
  {
    hide SomeCauses, Shutdown;
    ShutdownTellsClass(s, s.closes[c].reason, oc, events);
  }

  lemma {:induction false} RunTellsClass(events: seq<Event>)
    ensures var s := Run(INITIAL, events); Inv(s) && ClassOk(s) && ClassTold(s, events)
  {
    if events != [] {
      var init, e := events[..|events| - 1], events[|events| - 1];
      RunTellsClass(init);
      assert events == init + [e];
      RunOneMore(INITIAL, init, e);
      StepKeepsInv(Run(INITIAL, init), e);
      StepTellsClass(Run(INITIAL, init), e, init);
      hide Run, Step, Inv, ClassOk, ClassTold;
    }
  }

  /** A failure class is reported exactly in the failed state, and only one that some event of the run accounts for. */
  lemma FailureIsAccountedFor(events: seq<Event>)
    ensures var s := Run(INITIAL, events);
      (s.failureClass.Some? <==> s.lifecycle == Failed) && (s.failureClass.Some? ==> SomeCauses(events, s.failureClass.value))
  {
    RunTellsClass(events);
    hide Run, SomeCauses, Inv;
  }

  /** Closing a running runtime, by reason and by what its owner's close does. */
  lemma CloseOfRunning(events: seq<Event>, reason: Reason, oc: OwnerClose)
    requires Run(INITIAL, events).lifecycle == Running
    ensures var s, t := Run(INITIAL, events), Run(INITIAL, events + [Close(reason, oc)]);
      s.owner.Some? && |t.closes| == 1 && t.closeInFlight == Some(0)
      && (t.owner == if oc == OwnerCloses then None else s.owner)
      && (t.closed == if oc == OwnerCloses then s.closed + [s.owner.value] else s.closed)
      && (oc == OwnerThrows ==> t.lifecycle == Stopping && t.failureClass.None? && t.closes[0] == CloseReturned(CloseRejected))
      && (oc != OwnerThrows ==> t.closes[0] == CloseReturned(if oc == OwnerCloses then Closed else Incomplete))
      && (oc != OwnerThrows && reason == Fatal ==> t.lifecycle == Failed && t.failureClass == Some(RUNTIME_FATAL))
      && (oc != OwnerThrows && reason == Requested ==>
            t.lifecycle == (if oc == OwnerCloses then Stopped else Stopping) && t.failureClass.None?)
  {
    RunTellsClass(events);
    RunOneMore(INITIAL, events, Close(reason, oc));
    hide Run;
  }

  /** A requested close after one that could not finish: it stops the runtime as soon as the owner closes. */
  lemma CloseOfStopping(events: seq<Event>, oc: OwnerClose)
    requires var s := Run(INITIAL, events); s.lifecycle == Stopping && s.owner.Some? && s.closeInFlight.None?
    ensures var s, t := Run(INITIAL, events), Run(INITIAL, events + [Close(Requested, oc)]);
      t.lifecycle == (if oc == OwnerCloses then Stopped else Stopping) && t.failureClass.None?
      && (t.owner == if oc == OwnerCloses then None else s.owner)
  {
    RunTellsClass(events);
    RunOneMore(INITIAL, events, Close(Requested, oc));
    hide Run;
  }

  /** What a start answers, told from its opener's answer and the latch at that moment. */
  lemma StartAnsweredExactly(events: seq<Event>, k: nat, answer: OpenAnswer, oc: OwnerClose)
    requires var s := Run(INITIAL, events); k < |s.starts| && s.starts[k].Opening?
    ensures var s, t := Run(INITIAL, events), Run(INITIAL, events + [OpenerAnswers(k, answer, oc)]);
      |t.starts| == |s.starts| && t.starts[k].StartReturned?
      && var r := t.starts[k].result;
         (r == Started <==> answer == Opens && !s.shutdownLatch) && (r == LockHeld <==> answer == OpenFails(LOCK_HELD))
         && (r == StartupFailed <==>
               answer == OpenFails(UNAVAILABLE) || answer == OpenFails(OtherCode)
               || (answer == Opens && s.shutdownLatch && oc != OwnerThrows))
         && (r == StartRejected <==> answer == OpenRejects || (answer == Opens && s.shutdownLatch && oc == OwnerThrows))
         && (r == Started <==> t.lifecycle == Running) && (answer.OpenFails? <==> t.lifecycle == Failed)
         && (answer.OpenFails? ==>
               t.failureClass == Some(match answer.code case LOCK_HELD => PROCESS_LOCK_HELD case UNAVAILABLE => CONFIGURATION case OtherCode => STARTUP))
         && (answer == OpenRejects ==> t.lifecycle == Starting && t.owner == s.owner)
         && (answer == Opens && s.shutdownLatch ==>
               t.lifecycle == (if oc == OwnerCloses then Stopped else if oc == OwnerStays then Stopping else Starting))
  {
    RunKeepsInv(INITIAL, events);
    RunOneMore(INITIAL, events, OpenerAnswers(k, answer, oc));
    assert Run(INITIAL, events).lifecycle == Starting;
    hide Run, Inv;
  }

  lemma {:induction false} AnswersStay(s: State, events: seq<Event>, k: nat)
    requires k < |s.starts| && !s.starts[k].Opening?
    ensures var t := Run(s, events); k < |t.starts| && !t.starts[k].Opening? && t.starts[k].result == s.starts[k].result
    decreases |events|
  {
    if events != [] {
      StepKeepsAnswer(s, events[0], k);
      hide Step;
      AnswersStay(Step(s, events[0]), events[1..], k);
    }
  }

  lemma StepKeepsAnswer(s: State, e: Event, k: nat)
    requires k < |s.starts| && !s.starts[k].Opening?
    ensures var t := Step(s, e); k < |t.starts| && !t.starts[k].Opening? && t.starts[k].result == s.starts[k].result
  {
    hide AfterOpener;
    if e.OpenerAnswers? && e.task < |s.starts| { OpenerKeepsCloses(s, e.task, e.answer, e.ownerClose); }
  }

  /** The busy answer belongs to a state in which the tail of a close is never reached. */
  lemma BusyOnlyWhenNew(s: State, reason: Reason, oc: OwnerClose)
    ensures Shutdown(s, reason, oc).1 == Busy <==> s.lifecycle == New
    ensures s.lifecycle == New ==> Shutdown(s, reason, oc).0 == s
  {
  }

  /** What a call of start sets going, by the state it meets. */
  lemma StartCallExactly(events: seq<Event>)
    ensures var s, t := Run(INITIAL, events), Run(INITIAL, events + [Start]);
      var idle := s.startInFlight.None?;
      (idle && (s.lifecycle == New || s.lifecycle == Starting) ==>
         t == s.(lifecycle := Starting, startInFlight := Some(|s.starts|), starts := s.starts + [Opening]))
      && (idle && s.lifecycle == Stopping ==>
            t == s.(startInFlight := Some(|s.starts|), starts := s.starts + [StartReturned(StartInProgress)]))
      && (!idle || s.lifecycle == Running || s.lifecycle == Stopped || s.lifecycle == Failed ==> t == s)
  {
    RunOneMore(INITIAL, events, Start);
    hide Run;
  }

  /** A close that finds nothing running: new, terminal, or starting with no opener left to wait for. */
  lemma CloseOfIdle(events: seq<Event>, reason: Reason, oc: OwnerClose)
    requires var s := Run(INITIAL, events);
      s.closeInFlight.None? && s.owner.None? && s.lifecycle != Stopping && (s.lifecycle == Starting ==> s.startInFlight.None?)
    ensures var s, t := Run(INITIAL, events), Run(INITIAL, events + [Close(reason, oc)]);
      t.lifecycle == (if s.lifecycle == Failed then Failed else Stopped) && t.failureClass == s.failureClass
      && t.owner.None? && t.closed == s.closed && t.closes == s.closes + [CloseReturned(Closed)]
  {
    RunKeepsInv(INITIAL, events);
    RunOneMore(INITIAL, events, Close(reason, oc));
    hide Run;
  }

  /** A failed runtime that still holds an owner: a close tries again to close it and stays failed. */
  lemma CloseOfFailed(events: seq<Event>, reason: Reason, oc: OwnerClose)
    requires var s := Run(INITIAL, events); s.closeInFlight.None? && s.owner.Some? && s.lifecycle == Failed
    ensures var s, t := Run(INITIAL, events), Run(INITIAL, events + [Close(reason, oc)]);
      t.lifecycle == Failed && t.failureClass == s.failureClass && (t.owner == if oc == OwnerCloses then None else s.owner)
      && t.closes == s.closes
           + [CloseReturned(match oc case OwnerCloses => Closed case OwnerStays => Incomplete case OwnerThrows => CloseRejected)]
  {
    RunOneMore(INITIAL, events, Close(reason, oc));
    hide Run;
  }

  /** A close during a start sets the latch, waits for that start and changes nothing else. */
  lemma CloseOfStarting(events: seq<Event>, reason: Reason, oc: OwnerClose)
    requires var s := Run(INITIAL, events); s.closeInFlight.None? && s.lifecycle == Starting && s.startInFlight.Some?
    ensures var s, t := Run(INITIAL, events), Run(INITIAL, events + [Close(reason, oc)]);
      t == s.(shutdownLatch := true, closeInFlight := Some(|s.closes|),
              closes := s.closes + [Awaiting(s.startInFlight.value, reason)])
  {
    RunOneMore(INITIAL, events, Close(reason, oc));
    hide Run;
  }

  /** When that start has settled, the close is rejected with it, or answers for what the start has left. */
  lemma CloseAfterStart(events: seq<Event>, c: nat, oc: OwnerClose)
    requires Resumable(Run(INITIAL, events), c)
    ensures var s, t := Run(INITIAL, events), Run(INITIAL, events + [CloseResumes(c, oc)]);
      var start := s.starts[s.closes[c].start].result;
      |t.closes| == |s.closes| && t.closes[c].CloseReturned? && t.closes == s.closes[c := t.closes[c]]
      && (start == StartRejected ==> t == s.(closes := s.closes[c := CloseReturned(CloseRejected)]))
      && (start != StartRejected && s.owner.None? && s.lifecycle != Stopping ==>
            t.closes[c].result == Closed && t.lifecycle == s.lifecycle && (s.lifecycle == Stopped || s.lifecycle == Failed))
      && (start != StartRejected && s.lifecycle == Stopping && s.owner.Some? && s.closes[c].reason == Requested ==>
            t.lifecycle == (if oc == OwnerCloses then Stopped else Stopping) && t.failureClass == s.failureClass)
      && (start != StartRejected && s.lifecycle == Stopping && s.owner.Some? && s.closes[c].reason == Fatal && oc != OwnerThrows ==>
            t.lifecycle == Failed && t.failureClass == Some(RUNTIME_FATAL))
      && (start != StartRejected && s.owner.Some? ==>
            t.owner == (if oc == OwnerCloses then None else s.owner)
            && t.closes[c].result
                 == match oc case OwnerCloses => Closed case OwnerStays => Incomplete case OwnerThrows => CloseRejected)
  {
    RunTellsClass(events);
    RunOneMore(INITIAL, events, CloseResumes(c, oc));
    var s := Run(INITIAL, events);
    if s.starts[s.closes[c].start].result != StartRejected { assert Left(s.starts[s.closes[c].start]); }
    assert s.shutdownLatch;
    hide Run;
  }
}
