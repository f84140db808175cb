/**
 * createDurableLocalHostOwner: the operation gate and the ordered, retryable shutdown. Operations, thenables and resource
 * closers are hostile: while they run they may call close, start further operations or settle any thenable they hold.
 */
module DurableOwner {
  datatype Lifecycle = Open | Closing | ClosePending | Closed

  datatype Stage = Memory | ProcessLock | StorageRoot | Done

  /** What foreign code does while it runs. */
  datatype Script = Stop | Do(call: Call, rest: Script)

  datatype Call =
    | Close(memory: Closer, lock: Closer, root: Closer)
    | Operate(body: Script, ending: Ending)
    | Settle(op: nat)

  /** A closer's doings, and whether it returns the strict ok result; throwing and anything else is not ok. */
  datatype Closer = Closer(script: Script, ok: bool)

  /** An operation returns a plain value, throws, or returns a thenable whose `then` runs code and may itself throw. */
  datatype Ending = Returns | Throws | Thenable(subscribing: Script, throws: bool)

  datatype Answer = Ok | Busy | StageFailed(stage: Stage)

  /** `decremented` is the flag of decrementOnce; `subscribed` says its callbacks have been handed out. */
  datatype Operation = Operation(decremented: bool, subscribed: bool)

  datatype Mark =
    | OpStarts(op: nat) | OpEnds(op: nat)
    | CloseCalled | CloseAnswers(answer: Answer)
    | CloserStarts(stage: Stage) | CloserEnds(stage: Stage, ok: bool)

  datatype State = State(
    lifecycle: Lifecycle, activeOperationCount: int, stageCursor: Stage, shutdownInProgress: bool,
    operations: seq<Operation>, history: seq<Mark>)

  const INITIAL: State := State(Open, 0, Memory, false, [], [])

  function Next(st: Stage): Stage {
    match st case Memory => ProcessLock case ProcessLock => StorageRoot case _ => Done
  }

  function Rank(st: Stage): nat {
    match st case Memory => 0 case ProcessLock => 1 case StorageRoot => 2 case Done => 3
  }

  // ---------------------------------------------------------------- specification of the calls

  function Noted(s: State, m: Mark): State { s.(history := s.history + [m]) }

  function DecrementOnce(s: State, op: nat): State {
    if op < |s.operations| && !s.operations[op].decremented then
      Noted(s, OpEnds(op)).(activeOperationCount := s.activeOperationCount - 1,
                            operations := s.operations[op := s.operations[op].(decremented := true)])
    else s
  }

  function Started(s: State): (t: State)
    ensures |t.operations| == |s.operations| + 1
  {
    Noted(s, OpStarts(|s.operations|)).(activeOperationCount := s.activeOperationCount + 1,
                                        operations := s.operations + [Operation(false, false)])
  }

  function Subscribed(s: State, op: nat): (t: State)
    requires op < |s.operations|
    ensures |t.operations| == |s.operations|
  {
    s.(operations := s.operations[op := s.operations[op].(subscribed := true)])
  }

  function Exec(s: State, call: Call): (t: State)
    ensures |t.operations| >= |s.operations|
    decreases call, 4
  {
    match call
    case Close(_, _, _) =>
      var called := Noted(s, CloseCalled);
      if s.lifecycle == Closed then Noted(called, CloseAnswers(Ok))
      else if s.shutdownInProgress then Noted(called, CloseAnswers(Busy))
      else if s.activeOperationCount > 0 then Noted(called.(lifecycle := ClosePending), CloseAnswers(Busy))
      else
        var (t, answer) := Advance(called.(lifecycle := Closing, shutdownInProgress := true), call);
        Noted(t.(shutdownInProgress := false), CloseAnswers(answer))
    case Operate(body, ending) =>
      if s.lifecycle != Open then s else Ended(ExecAll(Started(s), body), |s.operations|, ending)
    case Settle(op) =>
      if op < |s.operations| && s.operations[op].subscribed then DecrementOnce(s, op) else s
  }

  /** runGated after operation() has come back: the thenable is subscribed to, anything else is over. */
  function Ended(ran: State, op: nat, ending: Ending): (t: State)
    requires op < |ran.operations|
    ensures |t.operations| >= |ran.operations|
    decreases ending
  {
    if !ending.Thenable? then DecrementOnce(ran, op)
    else
      var subscribed := ExecAll(Subscribed(ran, op), ending.subscribing);
      if ending.throws then DecrementOnce(subscribed, op) else subscribed
  }

  function ExecAll(s: State, script: Script): (t: State)
    ensures |t.operations| >= |s.operations|
    decreases script
  {
    match script
    case Stop => s
    case Do(call, rest) => ExecAll(Exec(s, call), rest)
  }

  function RunCloser(s: State, c: Closer): (t: State)
    ensures |t.operations| >= |s.operations|
    decreases c
  {
    Noted(ExecAll(Noted(s, CloserStarts(s.stageCursor)), c.script), CloserEnds(s.stageCursor, c.ok))
  }

  function CloserFor(call: Call, st: Stage): (c: Closer)
    requires call.Close? && st != Done
  {
    match st case Memory => call.memory case ProcessLock => call.lock case _ => call.root
  }

  function Advance(s: State, call: Call): (r: (State, Answer))
    requires call.Close?
    ensures |r.0.operations| >= |s.operations|
    decreases call, 3 - Rank(s.stageCursor)
  {
    if s.stageCursor == Done then (s.(lifecycle := Closed), Ok)
    else
      var c := CloserFor(call, s.stageCursor);
      var t := RunCloser(s, c);
      if c.ok then Advance(t.(stageCursor := Next(s.stageCursor)), call)
      else (t.(lifecycle := ClosePending), StageFailed(s.stageCursor))
  }

  // ---------------------------------------------------------------- the owner

  class Owner {
    var lifecycle: Lifecycle
    var activeOperationCount: int
    var stageCursor: Stage
    var shutdownInProgress: bool
    var operations: seq<Operation>
    ghost var history: seq<Mark>

    ghost function Now(): State reads this {
      State(lifecycle, activeOperationCount, stageCursor, shutdownInProgress, operations, history)
    }

    constructor ()
      ensures Now() == INITIAL
    {
      lifecycle, activeOperationCount, stageCursor, shutdownInProgress := Open, 0, Memory, false;
      operations, history := [], [];
    }

    method Decrement(op: nat)
      modifies this
      ensures Now() == DecrementOnce(old(Now()), op)
    {
      if op >= |operations| || operations[op].decremented { return; }
      operations := operations[op := operations[op].(decremented := true)];
      activeOperationCount := activeOperationCount - 1;
      history := history + [OpEnds(op)];
    }

    /** Foreign code at work. */
    method Perform(script: Script)
      modifies this
      ensures Now() == ExecAll(old(Now()), script)
      decreases script
    {
      match script {
        case Stop =>
        case Do(call, rest) =>
          match call {
            case Close(_, _, _) => var _ := CloseCalled(call);
            case Operate(_, _) => var _ := RunGated(call);
            case Settle(op) => if op < |operations| && operations[op].subscribed { Decrement(op); }
          }
          Perform(rest);
      }
    }

    /** `admitted` is false when whenClosed answers in the operation's place. */
    method RunGated(call: Call) returns (admitted: bool)
      requires call.Operate?
      modifies this
      ensures Now() == Exec(old(Now()), call)
      ensures admitted <==> old(lifecycle) == Open
      decreases call, 4
    {
      if lifecycle != Open { return false; }
      admitted := true;
      var op := |operations|;
      activeOperationCount := activeOperationCount + 1;
      operations := operations + [Operation(false, false)];
      history := history + [OpStarts(op)];
      Perform(call.body);
      if call.ending.Thenable? {
        operations := operations[op := operations[op].(subscribed := true)];
        Perform(call.ending.subscribing);
        if call.ending.throws { Decrement(op); }
      } else {
        Decrement(op);
      }
    }

    method RunResourceCloser(c: Closer) returns (success: bool)
      modifies this
      ensures Now() == RunCloser(old(Now()), c) && success == c.ok
      decreases c
    {
      ghost var stage := stageCursor;
      history := history + [CloserStarts(stage)];
      Perform(c.script);
      history := history + [CloserEnds(stage, c.ok)];
      success := c.ok;
    }

    method AdvanceShutdown(call: Call) returns (answer: Answer)
      requires call.Close?
      modifies this
      ensures (Now(), answer) == Advance(old(Now()), call)
      decreases call, 3
    {
      while stageCursor != Done
        invariant Advance(Now(), call) == Advance(old(Now()), call)
        decreases 3 - Rank(stageCursor)
      {
        var stage := stageCursor;
        var success := RunResourceCloser(CloserFor(call, stage));
        if !success {
          lifecycle := ClosePending;
          return StageFailed(stage);
        }
        stageCursor := Next(stage);
      }
      lifecycle := Closed;
      return Ok;
    }

    method CloseCalled(call: Call) returns (answer: Answer)
      requires call.Close?
      modifies this
      ensures Now() == Exec(old(Now()), call) && Now().history[|Now().history| - 1..] == [CloseAnswers(answer)]
      decreases call, 4
    {
      history := history + [Mark.CloseCalled];
      if lifecycle == Closed {
        answer := Ok;
      } else if shutdownInProgress {
        answer := Busy;
      } else if activeOperationCount > 0 {
        lifecycle := ClosePending;
        answer := Busy;
      } else {
        lifecycle := Closing;
        shutdownInProgress := true;
        answer := AdvanceShutdown(call);
        shutdownInProgress := false;
      }
      history := history + [CloseAnswers(answer)];
    }
  }

  // ---------------------------------------------------------------- what a history may look like

  /** The stage still to be cleaned up: each success moves it on. */
  function Due(h: seq<Mark>): Stage {
    if h == [] then Memory
    else
      var m := h[|h| - 1];
      if m.CloserEnds? && m.ok then Next(m.stage) else Due(h[..|h| - 1])
  }

  /** A closer that has started and not ended. */
  function Running(h: seq<Mark>): bool {
    h != [] && (var m := h[|h| - 1]; m.CloserStarts? || (!m.CloserEnds? && Running(h[..|h| - 1])))
  }

  ghost predicate Quiet(h: seq<Mark>) { forall op: nat | OpStarts(op) in h :: OpEnds(op) in h }

  /** What may happen next. */
  ghost predicate Allowed(h: seq<Mark>, m: Mark) {
    match m
    case OpStarts(op) => CloseCalled !in h && OpStarts(op) !in h
    case OpEnds(op) => OpStarts(op) in h && OpEnds(op) !in h && !Running(h)
    case CloseCalled => true
    case CloserStarts(st) => CloseCalled in h && Quiet(h) && !Running(h) && st == Due(h) && st != Done
    case CloserEnds(st, _) => Running(h) && st == Due(h) && st != Done
    case CloseAnswers(Ok) => Due(h) == Done && !Running(h)
    case CloseAnswers(Busy) => Due(h) != Done && (Running(h) || !Quiet(h))
    case CloseAnswers(StageFailed(st)) => Due(h) == st && st != Done && h != [] && h[|h| - 1] == CloserEnds(st, false)
  }

  ghost predicate Lawful(h: seq<Mark>) {
    h == [] || (Lawful(h[..|h| - 1]) && Allowed(h[..|h| - 1], h[|h| - 1]))
  }

  lemma Extended(h: seq<Mark>, m: Mark)
    ensures Lawful(h + [m]) <==> Lawful(h) && Allowed(h, m)
    ensures Due(h + [m]) == (if m.CloserEnds? && m.ok then Next(m.stage) else Due(h))
    ensures Running(h + [m]) <==> m.CloserStarts? || (!m.CloserEnds? && Running(h))
    ensures forall x :: x in h + [m] <==> x in h || x == m
  {
    assert (h + [m])[..|h|] == h;
  }

  // ---------------------------------------------------------------- invariant

  function InFlight(ops: seq<Operation>): nat {
    if ops == [] then 0 else InFlight(ops[..|ops| - 1]) + if ops[|ops| - 1].decremented then 0 else 1
  }

  ghost predicate OperationsOk(s: State) {
    s.activeOperationCount == InFlight(s.operations)
    && (forall op: nat :: OpStarts(op) in s.history <==> 0 <= op < |s.operations|)
    && (forall op: nat :: OpEnds(op) in s.history <==> 0 <= op < |s.operations| && s.operations[op].decremented)
  }

  ghost predicate ShutdownOk(s: State) {
    s.stageCursor == Due(s.history)
    && (CloseCalled in s.history <==> s.lifecycle != Open)
    && (s.lifecycle == Closed <==> s.stageCursor == Done)
    && (s.lifecycle == Closing <==> s.shutdownInProgress)
    && (s.shutdownInProgress ==> s.activeOperationCount == 0)
  }

  /** Holds whenever foreign code runs: the latch is set exactly while a closer is running. */
  ghost predicate Inv(s: State) {
    Lawful(s.history) && OperationsOk(s) && ShutdownOk(s) && (s.shutdownInProgress <==> Running(s.history))
  }

  lemma {:induction false} InFlightUpdate(ops: seq<Operation>, i: nat, o: Operation)
    requires i < |ops|
    ensures InFlight(ops[i := o]) == InFlight(ops) + (if o.decremented then 0 else 1) - (if ops[i].decremented then 0 else 1)
  {
    var last := |ops| - 1;
    if i < last {
      InFlightUpdate(ops[..last], i, o);
      assert ops[i := o][..last] == ops[..last][i := o];
    } else {
      assert ops[i := o][..last] == ops[..last];
    }
  }

  lemma {:induction false} NoneInFlight(ops: seq<Operation>)
    ensures InFlight(ops) == 0 <==> forall i | 0 <= i < |ops| :: ops[i].decremented
  {
    if ops != [] {
      NoneInFlight(ops[..|ops| - 1]);
      assert forall i | 0 <= i < |ops| - 1 :: ops[..|ops| - 1][i] == ops[i];
    }
  }

  lemma InFlightAppend(ops: seq<Operation>, o: Operation)
    ensures InFlight(ops + [o]) == InFlight(ops) + if o.decremented then 0 else 1
  {
    assert (ops + [o])[..|ops|] == ops;
  }

  lemma QuietExactly(s: State)
    requires OperationsOk(s)
    ensures Quiet(s.history) <==> s.activeOperationCount == 0
  {
    NoneInFlight(s.operations);
  }

  /** What foreign code can change: nothing about a shutdown in progress, and operations only end. */
  ghost predicate Moves(s: State, t: State) {
    t.shutdownInProgress == s.shutdownInProgress
    && (s.lifecycle != Open ==> t.lifecycle != Open)
    && (s.shutdownInProgress ==> t.stageCursor == s.stageCursor && t.operations == s.operations)
    && |s.operations| <= |t.operations|
    && forall i | 0 <= i < |s.operations| && s.operations[i].decremented :: t.operations[i].decremented
  }

  lemma DecrementKeeps(s: State, op: nat)
    requires Inv(s)
    ensures Inv(DecrementOnce(s, op)) && Moves(s, DecrementOnce(s, op))
  {
    hide Lawful, Due, Running, InFlight;
    if op < |s.operations| && !s.operations[op].decremented {
      NoneInFlight(s.operations);
      InFlightUpdate(s.operations, op, s.operations[op].(decremented := true));
      Extended(s.history, OpEnds(op));
      assert OpStarts(op) in s.history && OpEnds(op) !in s.history;
    }
  }

  lemma SubscribeKeeps(s: State, op: nat)
    requires Inv(s) && op < |s.operations| && !s.shutdownInProgress
    ensures Inv(Subscribed(s, op)) && Moves(s, Subscribed(s, op))
  {
    InFlightUpdate(s.operations, op, s.operations[op].(subscribed := true));
  }

  lemma StartKeeps(s: State)
    requires Inv(s) && s.lifecycle == Open
    ensures Inv(Started(s)) && Moves(s, Started(s))
  {
    hide Lawful, Due, Running, InFlight;
    var op := |s.operations|;
    InFlightAppend(s.operations, Operation(false, false));
    Extended(s.history, OpStarts(op));
    assert OpStarts(op) !in s.history && CloseCalled !in s.history;
  }

  lemma {:induction false} ExecAllKeeps(s: State, script: Script)
    requires Inv(s)
    ensures Inv(ExecAll(s, script)) && Moves(s, ExecAll(s, script))
    decreases script
  {
    match script
    case Stop =>
    case Do(call, rest) =>
      ExecKeeps(s, call);
      ExecAllKeeps(Exec(s, call), rest);
      hide Inv, Exec;
  }

  lemma {:induction false} ExecKeeps(s: State, call: Call)
    requires Inv(s)
    ensures Inv(Exec(s, call)) && Moves(s, Exec(s, call))
    decreases call, 9
  {
    match call
    case Close(_, _, _) => CloseKeeps(s, call);
    case Operate(_, _) => OperateKeeps(s, call);
    case Settle(op) => DecrementKeeps(s, op);
  }

  lemma {:induction false} OperateKeeps(s: State, call: Call)
    requires Inv(s) && call.Operate?
    ensures Inv(Exec(s, call)) && Moves(s, Exec(s, call))
    decreases call, 8
  {
    if s.lifecycle == Open {
      StartKeeps(s);
      ExecAllKeeps(Started(s), call.body);
      var ran := ExecAll(Started(s), call.body);
      assert !ran.shutdownInProgress by { hide Started, ExecAll; OpenIsNotShutting(s); }
      EndingKeeps(ran, |s.operations|, call.ending);
      hide Inv, Started, ExecAll, Ended;
    }
  }

  lemma OpenIsNotShutting(s: State)
    requires Inv(s) && s.lifecycle == Open
    ensures !s.shutdownInProgress
  {
  }

  lemma {:induction false} EndingKeeps(ran: State, op: nat, ending: Ending)
    requires Inv(ran) && op < |ran.operations| && !ran.shutdownInProgress
    ensures Inv(Ended(ran, op, ending)) && Moves(ran, Ended(ran, op, ending))
    decreases ending
  {
    if !ending.Thenable? {
      DecrementKeeps(ran, op);
    } else {
      SubscribeKeeps(ran, op);
      ExecAllKeeps(Subscribed(ran, op), ending.subscribing);
      DecrementKeeps(ExecAll(Subscribed(ran, op), ending.subscribing), op);
      hide Inv, ExecAll, DecrementOnce;
    }
  }

  /** Between two closers of one shutdown pass. */
  ghost predicate Passing(s: State) {
    Lawful(s.history) && OperationsOk(s) && s.stageCursor == Due(s.history) && CloseCalled in s.history
    && s.lifecycle == Closing && s.shutdownInProgress && s.activeOperationCount == 0 && !Running(s.history)
  }

  lemma CloserStartKeeps(s: State)
    requires Passing(s) && s.stageCursor != Done
    ensures Inv(Noted(s, CloserStarts(s.stageCursor)))
  {
    QuietExactly(s);
    Extended(s.history, CloserStarts(s.stageCursor));
  }

  lemma CloserEndKeeps(s: State, ok: bool)
    requires Inv(s) && s.shutdownInProgress
    ensures var t := Noted(s, CloserEnds(s.stageCursor, ok));
      Passing(t.(stageCursor := if ok then Next(s.stageCursor) else s.stageCursor))
  {
    Extended(s.history, CloserEnds(s.stageCursor, ok));
  }

  /** One stage of a pass: whatever the closer does, the pass goes on as if it had done nothing but succeed or fail. */
  lemma {:induction false} StageKeeps(s: State, c: Closer)
    requires Passing(s) && s.stageCursor != Done
    ensures var t := RunCloser(s, c);
      Passing(t.(stageCursor := if c.ok then Next(s.stageCursor) else s.stageCursor)) && t.operations == s.operations
      && t.stageCursor == s.stageCursor && t.history != [] && t.history[|t.history| - 1] == CloserEnds(s.stageCursor, c.ok)
    decreases c
  {
    var begun := Noted(s, CloserStarts(s.stageCursor));
    assert begun.shutdownInProgress && begun.stageCursor == s.stageCursor && begun.operations == s.operations;
    CloserStartKeeps(s);
    hide ExecAll, Inv, Passing;
    ExecAllKeeps(begun, c.script);
    CloserEndKeeps(ExecAll(begun, c.script), c.ok);
  }

  lemma {:induction false} AdvanceKeeps(s: State, call: Call)
    requires Passing(s) && call.Close?
    ensures var (t, answer) := Advance(s, call);
      Passing(t.(lifecycle := Closing)) && t.operations == s.operations
      && (answer == Ok ==> t.lifecycle == Closed && t.stageCursor == Done)
      && (answer.StageFailed? ==>
            t.lifecycle == ClosePending && t.stageCursor == answer.stage != Done
            && t.history != [] && t.history[|t.history| - 1] == CloserEnds(answer.stage, false))
      && answer != Busy
    decreases call, 3 - Rank(s.stageCursor)
  {
    if s.stageCursor != Done {
      var c := CloserFor(call, s.stageCursor);
      StageKeeps(s, c);
      var t := RunCloser(s, c);
      hide RunCloser;
      if c.ok {
        hide Passing;
        AdvanceKeeps(t.(stageCursor := Next(s.stageCursor)), call);
      } else {
        StaysPassing(t, s.stageCursor);
      }
    }
  }

  lemma StaysPassing(t: State, stage: Stage)
    requires Passing(t.(stageCursor := stage)) && t.stageCursor == stage
    ensures Passing(t.(lifecycle := ClosePending).(lifecycle := Closing))
  {
    assert t.(stageCursor := stage) == t;
  }

  lemma NoteKeepsOperations(s: State, m: Mark)
    requires OperationsOk(s) && !m.OpStarts? && !m.OpEnds?
    ensures OperationsOk(Noted(s, m))
  {
    Extended(s.history, m);
  }

  lemma {:induction false} CloseKeeps(s: State, call: Call)
    requires Inv(s) && call.Close?
    ensures Inv(Exec(s, call)) && Moves(s, Exec(s, call))
    decreases call, 8
  {
    if s.lifecycle == Closed || s.shutdownInProgress || s.activeOperationCount > 0 {
      RefusedCloseKeeps(s, call);
    } else {
      PassKeeps(s, call);
    }
  }

  lemma RefusedCloseKeeps(s: State, call: Call)
    requires Inv(s) && call.Close? && (s.lifecycle == Closed || s.shutdownInProgress || s.activeOperationCount > 0)
    ensures Inv(Exec(s, call)) && Moves(s, Exec(s, call))
  {
    var called := Noted(s, Mark.CloseCalled);
    var answer := if s.lifecycle == Closed then Ok else Busy;
    Extended(s.history, Mark.CloseCalled);
    Extended(called.history, CloseAnswers(answer));
    NoteKeepsOperations(s, Mark.CloseCalled);
    NoteKeepsOperations(called, CloseAnswers(answer));
    QuietExactly(called);
    hide Lawful, Due, Running, Quiet, InFlight;
  }

  lemma {:induction false} PassKeeps(s: State, call: Call)
    requires Inv(s) && call.Close? && s.lifecycle != Closed && !s.shutdownInProgress && s.activeOperationCount <= 0
    ensures Inv(Exec(s, call)) && Moves(s, Exec(s, call))
    decreases call, 7
  {
    var called := Noted(s, Mark.CloseCalled);
    Extended(s.history, Mark.CloseCalled);
    NoteKeepsOperations(s, Mark.CloseCalled);
    var pass := called.(lifecycle := Closing, shutdownInProgress := true);
    assert Passing(pass);
    AdvanceKeeps(pass, call);
    var (t, answer) := Advance(pass, call);
    PassEnds(t, answer);
    hide Advance, Lawful, Due, Running, OperationsOk;
  }

  lemma PassEnds(t: State, answer: Answer)
    requires Passing(t.(lifecycle := Closing)) && answer != Busy
    requires answer == Ok ==> t.lifecycle == Closed && t.stageCursor == Done
    requires answer.StageFailed? ==>
      t.lifecycle == ClosePending && t.stageCursor == answer.stage != Done
      && t.history != [] && t.history[|t.history| - 1] == CloserEnds(answer.stage, false)
    ensures Inv(Noted(t.(shutdownInProgress := false), CloseAnswers(answer)))
  {
    Extended(t.history, CloseAnswers(answer));
    NoteKeepsOperations(t, CloseAnswers(answer));
    hide Due, Running, Quiet, InFlight;
  }

  // ---------------------------------------------------------------- over every run

  /** Whatever operations, thenables and closers do, the owner's history is lawful and its count is exact. */
  lemma EveryRunIsLawful(script: Script)
    ensures var s := ExecAll(INITIAL, script);
      Lawful(s.history) && s.activeOperationCount == InFlight(s.operations) && !s.shutdownInProgress
      && (s.lifecycle == Open <==> CloseCalled !in s.history) && (s.lifecycle == Closed <==> Due(s.history) == Done)
      && forall op: nat :: OpEnds(op) in s.history <==> op < |s.operations| && s.operations[op].decremented
  {
    ExecAllKeeps(INITIAL, script);
  }

  lemma {:induction false} LawfulAt(h: seq<Mark>, n: nat)
    requires Lawful(h) && n <= |h|
    ensures Lawful(h[..n]) && (n < |h| ==> Allowed(h[..n], h[n]))
  {
    if n < |h| {
      var init := h[..|h| - 1];
      if n < |h| - 1 {
        LawfulAt(init, n);
        assert init[..n] == h[..n] && init[n] == h[n];
      }
    } else {
      assert h[..n] == h;
    }
  }

  /** No operation starts once close has been called. */
  lemma NoOperationAfterClose(h: seq<Mark>, i: nat, j: nat)
    requires Lawful(h) && i < j < |h| && h[i] == CloseCalled
    ensures !h[j].OpStarts?
  {
    LawfulAt(h, j);
    assert h[..j][i] == CloseCalled;
  }

  /** Each operation starts once and is counted down once. */
  lemma OnceEach(h: seq<Mark>, i: nat, j: nat)
    requires Lawful(h) && i < j < |h| && (h[i].OpStarts? || h[i].OpEnds?)
    ensures h[i] != h[j]
  {
    LawfulAt(h, j);
    assert h[..j][i] == h[i];
  }

  /** When a closer runs, every operation there has been or ever will be is over. */
  lemma ClosersRunAlone(h: seq<Mark>, j: nat, op: nat)
    requires Lawful(h) && j < |h| && h[j].CloserStarts? && OpStarts(op) in h
    ensures OpEnds(op) in h[..j]
  {
    LawfulAt(h, j);
    var k :| 0 <= k < |h| && h[k] == OpStarts(op);
    var c :| 0 <= c < j && h[..j][c] == CloseCalled;
    if j < k { NoOperationAfterClose(h, c, k); }
    assert h[..j][k] == OpStarts(op);
  }

  lemma {:induction false} RunsUntilEnd(h: seq<Mark>, i: nat, j: nat)
    requires Lawful(h) && i < j <= |h| && h[i].CloserStarts? && forall k | i < k < j :: !h[k].CloserEnds?
    ensures Running(h[..j])
  {
    if j == i + 1 {
      assert h[..j][i] == h[i];
    } else {
      RunsUntilEnd(h, i, j - 1);
      assert h[..j][..j - 1] == h[..j - 1];
    }
  }

  /** One closer has ended before the next begins. */
  lemma ClosersDoNotNest(h: seq<Mark>, i: nat, j: nat)
    requires Lawful(h) && i < j < |h| && h[i].CloserStarts? && h[j].CloserStarts?
    ensures exists k :: i < k < j && h[k].CloserEnds?
  {
    LawfulAt(h, j);
    if forall k | i < k < j :: !h[k].CloserEnds? { RunsUntilEnd(h, i, j); }
  }

  lemma {:induction false} DueGrows(h: seq<Mark>, i: nat, j: nat)
    requires Lawful(h) && i <= j <= |h|
    ensures Rank(Due(h[..i])) <= Rank(Due(h[..j]))
  {
    if i < j {
      DueGrows(h, i, j - 1);
      LawfulAt(h, j - 1);
      Extended(h[..j - 1], h[j - 1]);
      assert h[..j] == h[..j - 1] + [h[j - 1]];
    }
  }

  lemma {:induction false} DueMeansDone(h: seq<Mark>, st: Stage)
    requires Lawful(h) && Rank(st) < Rank(Due(h))
    ensures CloserEnds(st, true) in h
  {
    if h != [] {
      var init, m := h[..|h| - 1], h[|h| - 1];
      if !(m.CloserEnds? && m.ok && m.stage == st) { DueMeansDone(init, st); }
    }
  }

  /**
   * Memory, then process lock, then storage root: a closer runs only when every stage before its own has succeeded, and
   * never again once its own or a later one has.
   */
  lemma ClosersInOrder(h: seq<Mark>, j: nat, st: Stage)
    requires Lawful(h) && j < |h| && h[j].CloserStarts? && st != Done
    ensures CloserEnds(st, true) in h[..j] <==> Rank(st) < Rank(h[j].stage)
  {
    LawfulAt(h, j);
    if Rank(st) < Rank(h[j].stage) {
      DueMeansDone(h[..j], st);
    } else if CloserEnds(st, true) in h[..j] {
      var i :| 0 <= i < j && h[..j][i] == CloserEnds(st, true);
      SuccessMovesOn(h, i, j);
    }
  }

  lemma SuccessMovesOn(h: seq<Mark>, i: nat, j: nat)
    requires Lawful(h) && i < j <= |h| && h[i].CloserEnds? && h[i].ok && h[i].stage != Done
    ensures Rank(h[i].stage) < Rank(Due(h[..j]))
  {
    LawfulAt(h, i);
    Extended(h[..i], h[i]);
    assert h[..i + 1] == h[..i] + [h[i]];
    DueGrows(h, i + 1, j);
  }

  /** close answers ok exactly when all three stages have succeeded, and from then on always. */
  lemma CloseOkExactly(h: seq<Mark>, j: nat)
    requires Lawful(h) && j < |h| && h[j].CloseAnswers?
    ensures h[j].answer == Ok <==>
              CloserEnds(Memory, true) in h[..j] && CloserEnds(ProcessLock, true) in h[..j] && CloserEnds(StorageRoot, true) in h[..j]
  {
    LawfulAt(h, j);
    if h[j].answer == Ok {
      DueMeansDone(h[..j], Memory);
      DueMeansDone(h[..j], ProcessLock);
      DueMeansDone(h[..j], StorageRoot);
    } else if CloserEnds(StorageRoot, true) in h[..j] {
      var i :| 0 <= i < j && h[..j][i] == CloserEnds(StorageRoot, true);
      SuccessMovesOn(h, i, j);
    }
  }

  /** A close with no operation in flight and well-behaved closers finishes the job, however much failed before. */
  lemma RetrySucceeds(script: Script, call: Call)
    requires call.Close? && call.memory.ok && call.lock.ok && call.root.ok
    requires ExecAll(INITIAL, script).activeOperationCount == 0
    ensures var t := Exec(ExecAll(INITIAL, script), call);
      t.lifecycle == Closed && t.history != [] && t.history[|t.history| - 1] == CloseAnswers(Ok)
  {
    EveryRunIsLawful(script);
    var s := ExecAll(INITIAL, script);
    hide ExecAll, Lawful;
    if s.lifecycle != Closed {
      AdvanceSucceeds(Noted(s, Mark.CloseCalled).(lifecycle := Closing, shutdownInProgress := true), call);
    }
  }

  lemma {:induction false} AdvanceSucceeds(s: State, call: Call)
    requires call.Close? && call.memory.ok && call.lock.ok && call.root.ok
    ensures Advance(s, call).1 == Ok && Advance(s, call).0.lifecycle == Closed
    decreases 3 - Rank(s.stageCursor)
  {
    if s.stageCursor != Done {
      hide RunCloser;
      AdvanceSucceeds(RunCloser(s, CloserFor(call, s.stageCursor)).(stageCursor := Next(s.stageCursor)), call);
    }
  }

  // ---------------------------------------------------------------- operations come to an end, told from the calls

  /** The operation is over when it comes back: a plain value, a throw, or a `then` that throws. */
  predicate Finishes(e: Ending) { e.Thenable? ==> e.throws }

  /** Every operation called in the script, at any depth, is over when it comes back. */
  predicate AllFinish(script: Script)
    decreases script
  {
    match script case Stop => true case Do(call, rest) => CallFinishes(call) && AllFinish(rest)
  }

  predicate CallFinishes(call: Call)
    decreases call
  {
    match call
    case Close(memory, lock, root) => AllFinish(memory.script) && AllFinish(lock.script) && AllFinish(root.script)
    case Operate(body, ending) => AllFinish(body) && Finishes(ending) && (ending.Thenable? ==> AllFinish(ending.subscribing))
    case Settle(_) => true
  }

  /** The script settles the thenable of that operation somewhere, at any depth. */
  predicate Settles(script: Script, op: nat)
    decreases script
  {
    match script case Stop => false case Do(call, rest) => CallSettles(call, op) || Settles(rest, op)
  }

  predicate CallSettles(call: Call, op: nat)
    decreases call
  {
    match call
    case Close(memory, lock, root) => Settles(memory.script, op) || Settles(lock.script, op) || Settles(root.script, op)
    case Operate(body, ending) => Settles(body, op) || (ending.Thenable? && Settles(ending.subscribing, op))
    case Settle(o) => o == op
  }

  /** Operations only gain flags; a new one is over or has been subscribed to, and over if all of them finish. */
  predicate Later(s: State, t: State, all: bool) {
    |s.operations| <= |t.operations|
    && (forall op | 0 <= op < |s.operations| ::
          (s.operations[op].decremented ==> t.operations[op].decremented)
          && (s.operations[op].subscribed ==> t.operations[op].subscribed))
    && forall op | |s.operations| <= op < |t.operations| ::
         t.operations[op].decremented || (t.operations[op].subscribed && !all)
  }

  /** An operation not subscribed to stays as it is, and so does one nobody settles. */
  predicate Spared(s: State, t: State, op: nat, settled: bool) {
    op < |s.operations| <= |t.operations|
    && (!s.operations[op].subscribed ==> t.operations[op] == s.operations[op])
    && (!settled ==> t.operations[op].decremented == s.operations[op].decremented)
    && (s.operations[op].subscribed ==> t.operations[op].subscribed)
  }

  lemma {:induction false} ExecAllLater(s: State, script: Script)
    ensures Later(s, ExecAll(s, script), AllFinish(script))
    decreases script
  {
    match script
    case Stop =>
    case Do(call, rest) =>
      ExecLater(s, call);
      ExecAllLater(Exec(s, call), rest);
      hide Exec, CallFinishes;
  }

  lemma {:induction false} ExecLater(s: State, call: Call)
    ensures Later(s, Exec(s, call), CallFinishes(call))
    decreases call, 9
  {
    match call
    case Close(_, _, _) =>
      AdvanceLater(Noted(s, Mark.CloseCalled).(lifecycle := Closing, shutdownInProgress := true), call);
      hide Advance, AllFinish;
    case Operate(body, ending) => if s.lifecycle == Open { OperateLater(s, call); }
    case Settle(op) =>
  }

  lemma {:induction false} OperateLater(s: State, call: Call)
    requires call.Operate? && s.lifecycle == Open
    ensures Later(s, Exec(s, call), CallFinishes(call))
    decreases call, 8
  {
    var op, ran := |s.operations|, ExecAll(Started(s), call.body);
    ExecAllLater(Started(s), call.body);
    if call.ending.Thenable? {
      var subscribed := Subscribed(ran, op);
      ExecAllLater(subscribed, call.ending.subscribing);
      assert subscribed.operations[op].subscribed;
      hide ExecAll, AllFinish;
      assert Later(Started(s), ran, AllFinish(call.body));
      EndedLater(s, ran, ExecAll(subscribed, call.ending.subscribing), call.ending.throws, AllFinish(call.body), AllFinish(call.ending.subscribing));
    } else {
      hide ExecAll, AllFinish;
    }
  }

  lemma EndedLater(s: State, ran: State, after: State, throws: bool, a: bool, b: bool)
    requires Later(Started(s), ran, a) && Later(Subscribed(ran, |s.operations|), after, b)
    ensures Later(s, if throws then DecrementOnce(after, |s.operations|) else after, a && b && throws)
  {
    var op := |s.operations|;
    assert forall o | 0 <= o < op :: Started(s).operations[o] == s.operations[o];
    assert Subscribed(ran, op).operations[op].subscribed;
    assert forall o | 0 <= o < |ran.operations| && o != op :: Subscribed(ran, op).operations[o] == ran.operations[o];
  }

  lemma {:induction false} AdvanceLater(s: State, call: Call)
    requires call.Close?
    ensures Later(s, Advance(s, call).0, CallFinishes(call))
    decreases call, 3 - Rank(s.stageCursor)
  {
    if s.stageCursor != Done {
      var c := CloserFor(call, s.stageCursor);
      CloserLater(s, c);
      var t := RunCloser(s, c);
      hide RunCloser, AllFinish;
      if c.ok { AdvanceLater(t.(stageCursor := Next(s.stageCursor)), call); }
    }
  }

  lemma {:induction false} CloserLater(s: State, c: Closer)
    ensures Later(s, RunCloser(s, c), AllFinish(c.script))
    decreases c
  {
    ExecAllLater(Noted(s, CloserStarts(s.stageCursor)), c.script);
    hide ExecAll, AllFinish;
  }

  lemma {:induction false} ExecAllSpares(s: State, script: Script, op: nat)
    requires op < |s.operations|
    ensures Spared(s, ExecAll(s, script), op, Settles(script, op))
    decreases script
  {
    match script
    case Stop =>
    case Do(call, rest) =>
      ExecSpares(s, call, op);
      ExecAllSpares(Exec(s, call), rest, op);
      hide Exec, CallSettles;
  }

  lemma {:induction false} ExecSpares(s: State, call: Call, op: nat)
    requires op < |s.operations|
    ensures Spared(s, Exec(s, call), op, CallSettles(call, op))
    decreases call, 9
  {
    match call
    case Close(_, _, _) =>
      AdvanceSpares(Noted(s, Mark.CloseCalled).(lifecycle := Closing, shutdownInProgress := true), call, op);
      hide Advance, Settles;
    case Operate(body, ending) => if s.lifecycle == Open { OperateSpares(s, call, op); }
    case Settle(o) =>
  }

  lemma {:induction false} OperateSpares(s: State, call: Call, op: nat)
    requires call.Operate? && s.lifecycle == Open && op < |s.operations|
    ensures Spared(s, Exec(s, call), op, CallSettles(call, op))
    decreases call, 8
  {
    var mine, ran := |s.operations|, ExecAll(Started(s), call.body);
    ExecAllSpares(Started(s), call.body, op);
    if call.ending.Thenable? {
      ExecAllSpares(Subscribed(ran, mine), call.ending.subscribing, op);
    }
    hide ExecAll, Settles;
  }

  lemma {:induction false} AdvanceSpares(s: State, call: Call, op: nat)
    requires call.Close? && op < |s.operations|
    ensures Spared(s, Advance(s, call).0, op, CallSettles(call, op))
    decreases call, 3 - Rank(s.stageCursor)
  {
    if s.stageCursor != Done {
      var c := CloserFor(call, s.stageCursor);
      CloserSpares(s, c, op);
      var t := RunCloser(s, c);
      hide RunCloser, Settles;
      if c.ok { AdvanceSpares(t.(stageCursor := Next(s.stageCursor)), call, op); }
    }
  }

  lemma {:induction false} CloserSpares(s: State, c: Closer, op: nat)
    requires op < |s.operations|
    ensures Spared(s, RunCloser(s, c), op, Settles(c.script, op))
    decreases c
  {
    ExecAllSpares(Noted(s, CloserStarts(s.stageCursor)), c.script, op);
    hide ExecAll, Settles;
  }

  lemma {:induction false} ThenExec(s: State, a: Script, call: Call)
    ensures ExecAll(s, Then(a, call)) == Exec(ExecAll(s, a), call)
    decreases a
  {
    hide Exec;
    if a.Do? {
      ThenExec(Exec(s, a.call), a.rest, call);
    } else {
      assert ExecAll(Exec(s, call), Stop) == Exec(s, call);
    }
  }

  /** The script with one call more at its end. */
  function Then(a: Script, call: Call): Script {
    match a case Stop => Do(call, Stop) case Do(first, rest) => Do(first, Then(rest, call))
  }

  /**
   * What becomes of an operation on an open owner, whatever was done before and whatever it does itself: it starts; it has ended
   * when it came back with a plain value or a throw, or its `then` threw; otherwise only settling its thenable, once subscribed
   * to, ends it.
   */
  lemma OperationEnds(script: Script, call: Call)
    requires call.Operate? && ExecAll(INITIAL, script).lifecycle == Open
    ensures var s := ExecAll(INITIAL, script);
      var t, op := Exec(s, call), |s.operations|;
      OpStarts(op) !in s.history && OpStarts(op) in t.history && (Finishes(call.ending) ==> OpEnds(op) in t.history)
      && (!Finishes(call.ending) && !Settles(call.ending.subscribing, op) ==> OpEnds(op) !in t.history)
      && OpEnds(op) in Exec(t, Settle(op)).history
  {
    var s := ExecAll(INITIAL, script);
    var t, op := Exec(s, call), |s.operations|;
    EveryRunIsKept(script);
    EveryRunIsKept(Then(script, call));
    ThenExec(INITIAL, script, call);
    EveryRunIsKept(Then(Then(script, call), Settle(op)));
    ThenExec(INITIAL, Then(script, call), Settle(op));
    OperationFlags(s, call);
    hide ExecAll, Exec, Lawful, InFlight, Settles, ShutdownOk;
    SettleFlags(t, op);
  }

  lemma EveryRunIsKept(script: Script)
    ensures OperationsOk(ExecAll(INITIAL, script))
  {
    ExecAllKeeps(INITIAL, script);
    hide ExecAll;
  }

  lemma OperationFlags(s: State, call: Call)
    requires call.Operate? && s.lifecycle == Open
    ensures var t, op := Exec(s, call), |s.operations|;
      op < |t.operations| && (Finishes(call.ending) ==> t.operations[op].decremented)
      && (!Finishes(call.ending) ==> t.operations[op].subscribed)
      && (!Finishes(call.ending) && !Settles(call.ending.subscribing, op) ==> !t.operations[op].decremented)
  {
    var op, ran := |s.operations|, ExecAll(Started(s), call.body);
    ExecAllSpares(Started(s), call.body, op);
    assert Started(s).operations[op] == Operation(false, false);
    if call.ending.Thenable? { ExecAllSpares(Subscribed(ran, op), call.ending.subscribing, op); }
    hide ExecAll, Settles;
  }

  lemma SettleFlags(t: State, op: nat)
    requires op < |t.operations| && (t.operations[op].subscribed || t.operations[op].decremented)
    ensures var u := Exec(t, Settle(op)); op < |u.operations| && u.operations[op].decremented
  {
  }

  /** Nothing but settling it ends an operation that has come back without being over. */
  lemma OnlySettlingEnds(script: Script, later: Script, op: nat)
    requires op < |ExecAll(INITIAL, script).operations| && !Settles(later, op)
    ensures OpEnds(op) in ExecAll(ExecAll(INITIAL, script), later).history <==> OpEnds(op) in ExecAll(INITIAL, script).history
  {
    ExecAllKeeps(INITIAL, script);
    ExecAllKeeps(ExecAll(INITIAL, script), later);
    ExecAllSpares(ExecAll(INITIAL, script), later, op);
    hide ExecAll, Settles, Lawful, InFlight, ShutdownOk;
  }

  /** When every operation was over on coming back, the owner closes: nothing is left in flight, whatever was called in between. */
  lemma ClosesAfterFinished(script: Script, call: Call)
    requires AllFinish(script) && call.Close? && call.memory.ok && call.lock.ok && call.root.ok
    ensures var t := Exec(ExecAll(INITIAL, script), call);
      t.lifecycle == Closed && t.history != [] && t.history[|t.history| - 1] == CloseAnswers(Ok)
  {
    EveryRunIsKept(script);
    ExecAllLater(INITIAL, script);
    hide ExecAll, Exec, AllFinish;
    NoneInFlight(ExecAll(INITIAL, script).operations);
    RetrySucceeds(script, call);
  }

  /** Settling the first n operations, one after the other. */
  function SettleFirst(script: Script, n: nat): Script {
    if n == 0 then script else Then(SettleFirst(script, n - 1), Settle(n - 1))
  }

  lemma {:induction false} SettledFlags(script: Script, n: nat)
    requires n <= |ExecAll(INITIAL, script).operations|
    ensures var s, t := ExecAll(INITIAL, script), ExecAll(INITIAL, SettleFirst(script, n));
      |t.operations| == |s.operations| && (forall op | 0 <= op < n :: t.operations[op].decremented)
      && forall op | 0 <= op < |s.operations| :: t.operations[op].decremented || t.operations[op].subscribed
  {
    ExecAllLater(INITIAL, script);
    if n > 0 {
      SettledFlags(script, n - 1);
      ThenExec(INITIAL, SettleFirst(script, n - 1), Settle(n - 1));
      hide ExecAll, AllFinish;
    }
  }

  /** And when the thenables that are left have been settled, it closes too: after any script at all. */
  lemma ClosesAfterSettling(script: Script, call: Call)
    requires call.Close? && call.memory.ok && call.lock.ok && call.root.ok
    ensures var settled := SettleFirst(script, |ExecAll(INITIAL, script).operations|);
      var t := Exec(ExecAll(INITIAL, settled), call);
      t.lifecycle == Closed && t.history != [] && t.history[|t.history| - 1] == CloseAnswers(Ok)
  {
    var settled := SettleFirst(script, |ExecAll(INITIAL, script).operations|);
    SettledFlags(script, |ExecAll(INITIAL, script).operations|);
    EveryRunIsKept(settled);
    hide ExecAll, Exec, SettleFirst;
    NoneInFlight(ExecAll(INITIAL, settled).operations);
    RetrySucceeds(settled, call);
  }
}
