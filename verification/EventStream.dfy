/** ProtocolEventStream: an ordered, single-consumer stream of protocol messages with close and abort. */
module EventStream {
  import opened JsText
  import opened Options

  datatype Kind = READY | HELD | RELEASED | FAILED | CLOSED | OtherKind(name: Str)

  datatype Message = Message(kind: Kind, body: Str)

  datatype Reason = ABORTED | Ended(code: Str)

  /** How a wait ends. */
  datatype Outcome = Delivered(message: Message) | AbortError | CloseError(reason: Reason) | WaiterConflict

  /** One call of waitForNextProtocolEvent, and the promise it returned coming to its end. */
  datatype Wait = Wait(signal: Option<nat>)
  datatype Settlement = Settlement(wait: nat, outcome: Outcome)

  /** The stream, the waits made on it, the abort listeners still registered, and the history. */
  datatype State = State(
    queue: seq<Message>, waiter: Option<nat>, closed: bool, closeReason: Option<Reason>, terminalSeen: bool,
    waits: seq<Wait>, listeners: seq<nat>, abortedSignals: set<nat>, settled: seq<Settlement>, pushed: seq<Message>)

  datatype Event =
    | Push(message: Message)
    | Close(reason: Reason)
    | WaitFor(signal: Option<nat>, abortsMeanwhile: bool)
    | Abort(aborted: nat)

  const INITIAL: State := State([], None, false, None, false, [], [], {}, [], [])

  predicate IsTerminal(k: Kind) { k == FAILED || k == CLOSED || k == HELD }

  // ---------------------------------------------------------------- specification of the steps

  function Without(ws: seq<nat>, w: nat): seq<nat> {
    if ws == [] then [] else if ws[0] == w then Without(ws[1..], w) else [ws[0]] + Without(ws[1..], w)
  }

  function WaiterCleared(s: State): State {
    s.(waiter := None,
       listeners := if s.waiter.Some? && s.waiter.value < |s.waits| && s.waits[s.waiter.value].signal.Some?
                    then Without(s.listeners, s.waiter.value) else s.listeners)
  }

  function Settles(s: State, w: nat, outcome: Outcome): State { s.(settled := s.settled + [Settlement(w, outcome)]) }

  function AfterPush(s: State, m: Message): State {
    var seen := s.(terminalSeen := s.terminalSeen || IsTerminal(m.kind), pushed := s.pushed + [m]);
    if s.waiter.Some? then Settles(WaiterCleared(seen), s.waiter.value, Delivered(m))
    else seen.(queue := s.queue + [m])
  }

  function AfterClose(s: State, reason: Reason): State {
    if s.closed then s else
    var t := s.(closed := true, closeReason := Some(reason));
    if s.waiter.Some? then Settles(WaiterCleared(t), s.waiter.value, CloseError(reason)) else t
  }

  function AfterWait(s: State, signal: Option<nat>, abortsMeanwhile: bool): State {
    var w := |s.waits|;
    var called := s.(waits := s.waits + [Wait(signal)]);
    if signal.Some? && signal.value in s.abortedSignals then Settles(called, w, AbortError)
    else if s.queue != [] then Settles(called.(queue := s.queue[1..]), w, Delivered(s.queue[0]))
    else if s.closed then Settles(called, w, CloseError(if s.closeReason.Some? then s.closeReason.value else Ended([])))
    else if s.waiter.Some? then Settles(called, w, WaiterConflict)
    else
      var waiting := called.(waiter := Some(w), listeners := if signal.Some? then s.listeners + [w] else s.listeners);
      if signal.Some? && abortsMeanwhile then
        Settles(WaiterCleared(waiting.(abortedSignals := s.abortedSignals + {signal.value})), w, AbortError)
      else waiting
  }

  /** A registered listener fires once: it clears whatever waiter there is and rejects its own promise. */
  function AfterFire(s: State, w: nat): State {
    if w !in s.listeners then s else
    var once := s.(listeners := Without(s.listeners, w));
    if once.waiter.None? then once else Settles(WaiterCleared(once), w, AbortError)
  }

  function AfterFires(s: State, snapshot: seq<nat>): State
    decreases |snapshot|
  {
    if snapshot == [] then s else AfterFires(AfterFire(s, snapshot[0]), snapshot[1..])
  }

  function ListenersOn(waits: seq<Wait>, signal: nat, ws: seq<nat>): seq<nat> {
    if ws == [] then []
    else if ws[0] < |waits| && waits[ws[0]].signal == Some(signal) then [ws[0]] + ListenersOn(waits, signal, ws[1..])
    else ListenersOn(waits, signal, ws[1..])
  }

  function Step(s: State, e: Event): State {
    match e
    case Push(m) => AfterPush(s, m)
    case Close(reason) => AfterClose(s, reason)
    case WaitFor(signal, abortsMeanwhile) => AfterWait(s, signal, abortsMeanwhile)
    case Abort(signal) =>
      if signal in s.abortedSignals then s
      else AfterFires(s.(abortedSignals := s.abortedSignals + {signal}), ListenersOn(s.waits, signal, s.listeners))
  }

  function Run(s: State, events: seq<Event>): State
    decreases |events|
  {
    if events == [] then s else Run(Step(s, events[0]), events[1..])
  }

  // ---------------------------------------------------------------- the stream

  class ProtocolEventStream {
    var queue: seq<Message>
    var waiter: Option<nat>
    var closed: bool
    var closeReason: Option<Reason>
    var terminalSeen: bool
    var waits: seq<Wait>
    var listeners: seq<nat>
    var abortedSignals: set<nat>
    ghost var settled: seq<Settlement>
    ghost var pushed: seq<Message>

    ghost function Now(): State reads this {
      State(queue, waiter, closed, closeReason, terminalSeen, waits, listeners, abortedSignals, settled, pushed)
    }

    constructor ()
      ensures Now() == INITIAL
    {
      queue, waiter, closed, closeReason, terminalSeen := [], None, false, None, false;
      waits, listeners, abortedSignals, settled, pushed := [], [], {}, [], [];
    }

    method ClearWaiter()
      modifies this
      ensures Now() == WaiterCleared(old(Now()))
    {
      if waiter.Some? && waiter.value < |waits| && waits[waiter.value].signal.Some? {
        listeners := Without(listeners, waiter.value);
      }
      waiter := None;
    }

    method PushMessage(m: Message)
      modifies this
      ensures Now() == Step(old(Now()), Push(m))
    {
      if IsTerminal(m.kind) { terminalSeen := true; }
      pushed := pushed + [m];
      if waiter.Some? {
        var pending := waiter.value;
        ClearWaiter();
        settled := settled + [Settlement(pending, Delivered(m))];
        return;
      }
      queue := queue + [m];
    }

    method CloseStream(reason: Reason)
      modifies this
      ensures Now() == Step(old(Now()), Close(reason))
    {
      if closed { return; }
      closed := true;
      closeReason := Some(reason);
      if waiter.Some? {
        var pending := waiter.value;
        ClearWaiter();
        settled := settled + [Settlement(pending, CloseError(reason))];
      }
    }

    method WaitForNextProtocolEvent(signal: Option<nat>, abortsMeanwhile: bool)
      modifies this
      ensures Now() == Step(old(Now()), WaitFor(signal, abortsMeanwhile))
    {
      var w := |waits|;
      waits := waits + [Wait(signal)];
      if signal.Some? && signal.value in abortedSignals {
        settled := settled + [Settlement(w, AbortError)];
        return;
      }
      if |queue| > 0 {
        var next := queue[0];
        queue := queue[1..];
        settled := settled + [Settlement(w, Delivered(next))];
        return;
      }
      if closed {
        settled := settled + [Settlement(w, CloseError(if closeReason.Some? then closeReason.value else Ended([])))];
        return;
      }
      if waiter.Some? {
        settled := settled + [Settlement(w, WaiterConflict)];
        return;
      }
      waiter := Some(w);
      if signal.Some? {
        listeners := listeners + [w];
        if abortsMeanwhile {
          abortedSignals := abortedSignals + {signal.value};
          ClearWaiter();
          settled := settled + [Settlement(w, AbortError)];
        }
      }
    }

    method AbortListener(w: nat)
      modifies this
      ensures Now() == AfterFire(old(Now()), w)
    {
      if w !in listeners { return; }
      listeners := Without(listeners, w);
      if waiter.None? { return; }
      ClearWaiter();
      settled := settled + [Settlement(w, AbortError)];
    }

    method AbortSignal(signal: nat)
      modifies this
      ensures Now() == Step(old(Now()), Abort(signal))
    {
      if signal in abortedSignals { return; }
      var snapshot := ListenersOn(waits, signal, listeners);
      abortedSignals := abortedSignals + {signal};
      ghost var begun := Now();
      var i := 0;
      while i < |snapshot|
        invariant 0 <= i <= |snapshot|
        invariant AfterFires(Now(), snapshot[i..]) == AfterFires(begun, snapshot)
      {
        AbortListener(snapshot[i]);
        i := i + 1;
      }
    }
  }

  // ---------------------------------------------------------------- invariant

  /** The messages waits have been given, in the order they were. */
  function Deliveries(settled: seq<Settlement>): seq<Message> {
    if settled == [] then []
    else
      var last := settled[|settled| - 1];
      Deliveries(settled[..|settled| - 1]) + if last.outcome.Delivered? then [last.outcome.message] else []
  }

  predicate HasTerminal(ms: seq<Message>) {
    exists i :: 0 <= i < |ms| && (ms[i].kind == FAILED || ms[i].kind == CLOSED || ms[i].kind == HELD)
  }

  ghost predicate HasEnded(settled: seq<Settlement>, w: nat) { exists k :: 0 <= k < |settled| && settled[k].wait == w }

  /** Every wait but the pending one has ended, and none twice. */
  ghost predicate WaitsOk(s: State) {
    (s.waiter.Some? ==> s.waiter.value < |s.waits|)
    && (forall w: nat | w < |s.waits| :: HasEnded(s.settled, w) <==> s.waiter != Some(w))
    && (forall k | 0 <= k < |s.settled| :: s.settled[k].wait < |s.waits|)
    && (forall j, k | 0 <= j < k < |s.settled| :: s.settled[j].wait != s.settled[k].wait)
  }

  predicate ListenersOk(s: State) {
    s.waiter.Some? ==>
      s.waiter.value < |s.waits|
      && (s.waits[s.waiter.value].signal.Some? ==> s.waits[s.waiter.value].signal.value !in s.abortedSignals)
  }

  function LiveListeners(s: State): seq<nat> {
    if s.waiter.Some? && s.waiter.value < |s.waits| && s.waits[s.waiter.value].signal.Some? then [s.waiter.value] else []
  }

  predicate StreamOk(s: State) {
    Deliveries(s.settled) + s.queue == s.pushed
    && (s.waiter.Some? ==> s.queue == [] && !s.closed)
    && (s.closed <==> s.closeReason.Some?)
    && (s.terminalSeen <==> HasTerminal(s.pushed))
  }

  ghost predicate Inv(s: State) { StreamOk(s) && WaitsOk(s) && ListenersOk(s) && s.listeners == LiveListeners(s) }

  lemma SettledNow(s: State, w: nat, outcome: Outcome)
    requires WaitsOk(s) && w < |s.waits| && s.waiter == Some(w)
    ensures WaitsOk(Settles(s.(waiter := None), w, outcome))
  {
    var t := Settles(s.(waiter := None), w, outcome);
    assert t.settled[|s.settled|].wait == w;
    assert !HasEnded(s.settled, w);
    forall v: nat | v < |s.waits| ensures HasEnded(t.settled, v) {
      if v != w {
        assert HasEnded(s.settled, v);
        var k :| 0 <= k < |s.settled| && s.settled[k].wait == v;
        assert t.settled[k].wait == v;
      }
    }
  }

  lemma ClearingLeavesNone(s: State)
    requires s.listeners == LiveListeners(s)
    ensures WaiterCleared(s) == s.(waiter := None, listeners := [])
  {
    if s.waiter.Some? { assert Without([s.waiter.value], s.waiter.value) == Without([s.waiter.value][1..], s.waiter.value) == []; }
  }

  /** A wait that settles as soon as it is made. */
  lemma SettledAtOnce(s: State, signal: Option<nat>, outcome: Outcome)
    requires WaitsOk(s)
    ensures WaitsOk(Settles(s.(waits := s.waits + [Wait(signal)]), |s.waits|, outcome))
  {
    var w := |s.waits|;
    var t := Settles(s.(waits := s.waits + [Wait(signal)]), w, outcome);
    assert t.settled[|s.settled|].wait == w;
    forall v: nat | v < |t.waits| ensures HasEnded(t.settled, v) <==> s.waiter != Some(v) {
      if v < w {
        assert HasEnded(s.settled, v) <==> s.waiter != Some(v);
        if HasEnded(s.settled, v) {
          var k :| 0 <= k < |s.settled| && s.settled[k].wait == v;
          assert t.settled[k].wait == v;
        }
        if HasEnded(t.settled, v) {
          var k :| 0 <= k < |t.settled| && t.settled[k].wait == v;
          assert k < |s.settled|;
        }
      }
    }
  }

  lemma WaitStarted(s: State, signal: Option<nat>)
    requires WaitsOk(s) && s.waiter.None?
    ensures WaitsOk(s.(waits := s.waits + [Wait(signal)], waiter := Some(|s.waits|)))
  {
  }

  lemma DeliveriesAfter(settled: seq<Settlement>, x: Settlement)
    ensures Deliveries(settled + [x]) == Deliveries(settled) + if x.outcome.Delivered? then [x.outcome.message] else []
  {
    assert (settled + [x])[..|settled|] == settled;
  }

  lemma TerminalAfter(ms: seq<Message>, m: Message)
    ensures HasTerminal(ms + [m]) <==> HasTerminal(ms) || IsTerminal(m.kind)
  {
    if HasTerminal(ms) {
      var i :| 0 <= i < |ms| && IsTerminal(ms[i].kind);
      assert IsTerminal((ms + [m])[i].kind);
    }
    assert (ms + [m])[|ms|] == m;
  }

  lemma PushKeepsInv(s: State, m: Message)
    requires Inv(s)
    ensures Inv(AfterPush(s, m))
  {
    TerminalAfter(s.pushed, m);
    hide HasTerminal, Deliveries, WaitsOk;
    if s.waiter.Some? {
      WaiterKnown(s);
      ClearingLeavesNone(s.(terminalSeen := s.terminalSeen || IsTerminal(m.kind), pushed := s.pushed + [m]));
      assert Deliveries(s.settled) + [m] + [] == s.pushed + [m];
      SettledNow(s, s.waiter.value, Delivered(m));
      DeliveriesAfter(s.settled, Settlement(s.waiter.value, Delivered(m)));
      SameWaits(Settles(s.(waiter := None), s.waiter.value, Delivered(m)), AfterPush(s, m));
    } else {
      Associative(Deliveries(s.settled), s.queue, [m]);
      SameWaits(s, AfterPush(s, m));
    }
  }

  lemma WaiterKnown(s: State)
    requires Inv(s) && s.waiter.Some?
    ensures s.waiter.value < |s.waits|
  {
  }

  lemma SameWaits(s: State, t: State)
    requires WaitsOk(s) && t.waiter == s.waiter && t.waits == s.waits && t.settled == s.settled
    ensures WaitsOk(t)
  {
  }

  lemma CloseKeepsInv(s: State, reason: Reason)
    requires Inv(s)
    ensures Inv(AfterClose(s, reason))
  {
    hide HasTerminal, Deliveries, WaitsOk;
    if !s.closed {
      if s.waiter.Some? {
        WaiterKnown(s);
        ClearingLeavesNone(s.(closed := true, closeReason := Some(reason)));
        SettledNow(s, s.waiter.value, CloseError(reason));
        DeliveriesAfter(s.settled, Settlement(s.waiter.value, CloseError(reason)));
        SameWaits(Settles(s.(waiter := None), s.waiter.value, CloseError(reason)), AfterClose(s, reason));
      } else {
        SameWaits(s, AfterClose(s, reason));
      }
    }
  }

  lemma WaitKeepsInv(s: State, signal: Option<nat>, abortsMeanwhile: bool)
    requires Inv(s)
    ensures Inv(AfterWait(s, signal, abortsMeanwhile))
  {
    if (signal.Some? && signal.value in s.abortedSignals) || s.queue != [] || s.closed || s.waiter.Some? {
      ImmediateWaitKeepsInv(s, signal, abortsMeanwhile);
    } else {
      PendingWaitKeepsInv(s, signal, abortsMeanwhile);
    }
  }

  lemma ImmediateWaitKeepsInv(s: State, signal: Option<nat>, abortsMeanwhile: bool)
    requires Inv(s)
    requires (signal.Some? && signal.value in s.abortedSignals) || s.queue != [] || s.closed || s.waiter.Some?
    ensures Inv(AfterWait(s, signal, abortsMeanwhile))
  {
    hide HasTerminal, Deliveries, WaitsOk;
    var w, t := |s.waits|, AfterWait(s, signal, abortsMeanwhile);
    var outcome := t.settled[|s.settled|].outcome;
    SettledAtOnce(s, signal, outcome);
    DeliveriesAfter(s.settled, Settlement(w, outcome));
    SameWaits(Settles(s.(waits := s.waits + [Wait(signal)]), w, outcome), t);
    if s.queue != [] { assert Deliveries(s.settled) + [s.queue[0]] + s.queue[1..] == Deliveries(s.settled) + s.queue; }
    assert Deliveries(s.settled) + [] == Deliveries(s.settled);
  }

  lemma PendingWaitKeepsInv(s: State, signal: Option<nat>, abortsMeanwhile: bool)
    requires Inv(s) && !(signal.Some? && signal.value in s.abortedSignals) && s.queue == [] && !s.closed
      && s.waiter.None?
    ensures Inv(AfterWait(s, signal, abortsMeanwhile))
  {
    hide HasTerminal, Deliveries, WaitsOk;
    var w, t := |s.waits|, AfterWait(s, signal, abortsMeanwhile);
    WaitStarted(s, signal);
    assert s.listeners + [w] == [w];
    var waiting := s.(waits := s.waits + [Wait(signal)], waiter := Some(w));
    if signal.Some? && abortsMeanwhile {
      ClearingLeavesNone(waiting.(listeners := [w], abortedSignals := s.abortedSignals + {signal.value}));
      SettledNow(waiting, w, AbortError);
      DeliveriesAfter(s.settled, Settlement(w, AbortError));
      SameWaits(Settles(waiting.(waiter := None), w, AbortError), t);
      assert Deliveries(s.settled) + [] == Deliveries(s.settled);
    } else {
      SameWaits(waiting, t);
    }
  }

  /** An abort reaches the pending wait or nobody. */
  lemma AbortIs(s: State, signal: nat)
    requires Inv(s) && signal !in s.abortedSignals
    ensures var t, marked := Step(s, Abort(signal)), s.(abortedSignals := s.abortedSignals + {signal});
      t == if s.waiter.Some? && s.waits[s.waiter.value].signal == Some(signal)
           then Settles(marked.(waiter := None, listeners := []), s.waiter.value, AbortError) else marked
  {
    hide HasTerminal, Deliveries, WaitsOk;
    var marked := s.(abortedSignals := s.abortedSignals + {signal});
    if s.waiter.Some? && s.waits[s.waiter.value].signal.Some? {
      var w := s.waiter.value;
      assert ListenersOn(s.waits, signal, [w][1..]) == [];
      assert Without([w], w) == Without([w][1..], w) == [];
      if s.waits[w].signal == Some(signal) {
        assert ListenersOn(s.waits, signal, s.listeners) == [w];
        assert AfterFires(marked, [w]) == AfterFires(AfterFire(marked, w), [w][1..]) == AfterFire(marked, w);
      }
    }
  }

  lemma AbortKeepsInv(s: State, signal: nat)
    requires Inv(s)
    ensures Inv(Step(s, Abort(signal)))
    ensures var t := Step(s, Abort(signal));
      t.queue == s.queue && t.pushed == s.pushed && Deliveries(t.settled) == Deliveries(s.settled)
  {
    if signal !in s.abortedSignals {
      AbortIs(s, signal);
      hide HasTerminal, Deliveries, WaitsOk, Step;
      var t := Step(s, Abort(signal));
      if s.waiter.Some? && s.waits[s.waiter.value].signal == Some(signal) {
        WaiterKnown(s);
        var w := s.waiter.value;
        SettledNow(s, w, AbortError);
        DeliveriesAfter(s.settled, Settlement(w, AbortError));
        SameWaits(Settles(s.(waiter := None), w, AbortError), t);
        assert Deliveries(s.settled) + [] == Deliveries(s.settled);
      } else {
        SameWaits(s, t);
      }
    }
  }

  lemma StepKeepsInv(s: State, e: Event)
    requires Inv(s)
    ensures Inv(Step(s, e))
  {
    match e
    case Push(m) => PushKeepsInv(s, m);
    case Close(reason) => CloseKeepsInv(s, reason);
    case WaitFor(signal, meanwhile) => WaitKeepsInv(s, signal, meanwhile);
    case Abort(signal) => AbortKeepsInv(s, signal);
  }

  lemma {:induction false} RunKeepsInv(s: State, events: seq<Event>)
    requires Inv(s)
    ensures Inv(Run(s, events))
    decreases |events|
  {
    hide Inv, Step;
    if events != [] {
      StepKeepsInv(s, events[0]);
      RunKeepsInv(Step(s, events[0]), events[1..]);
    }
  }

  // ---------------------------------------------------------------- over every run

  /** Nothing is lost, duplicated or reordered: what waits were given, followed by the buffer, is what was pushed. */
  lemma DeliveredThenBuffered(events: seq<Event>)
    ensures var s := Run(INITIAL, events);
      Deliveries(s.settled) + s.queue == s.pushed == MessagesOf(events)
  {
    StartsEmpty();
    RunKeepsInv(INITIAL, events);
    PushedIs(INITIAL, events);
    assert [] + MessagesOf(events) == MessagesOf(events);
    hide Run, Deliveries;
  }

  lemma StartsEmpty()
    ensures Inv(INITIAL)
  {
  }

  /** The messages of a run's pushes. */
  function MessagesOf(events: seq<Event>): seq<Message> {
    if events == [] then [] else (if events[0].Push? then [events[0].message] else []) + MessagesOf(events[1..])
  }

  lemma StepPushes(s: State, e: Event)
    requires Inv(s)
    ensures Step(s, e).pushed == s.pushed + if e.Push? then [e.message] else []
  {
    if e.Abort? {
      AbortKeepsInv(s, e.aborted);
      hide Step;
    }
    hide Inv;
    assert s.pushed + [] == s.pushed;
  }

  lemma {:induction false} PushedIs(s: State, events: seq<Event>)
    requires Inv(s)
    ensures Run(s, events).pushed == s.pushed + MessagesOf(events)
    decreases |events|
  {
    if events != [] {
      hide Step, Inv;
      var e := events[0];
      StepKeepsInv(s, e);
      StepPushes(s, e);
      PushedIs(Step(s, e), events[1..]);
      Associative(s.pushed, if e.Push? then [e.message] else [], MessagesOf(events[1..]));
    }
  }

  lemma TerminalSeenExactly(events: seq<Event>)
    ensures Run(INITIAL, events).terminalSeen <==> HasTerminal(MessagesOf(events))
  {
    StartsEmpty();
    RunKeepsInv(INITIAL, events);
    DeliveredThenBuffered(events);
    hide Run, Deliveries, HasTerminal, WaitsOk;
  }

  /** A pending wait means an empty buffer on an open stream, and the only live listener is its own. */
  lemma PendingWaitIsAlone(events: seq<Event>)
    ensures var s := Run(INITIAL, events);
      (s.waiter.Some? ==> s.queue == [] && !s.closed && s.waiter.value < |s.waits|) && s.listeners == LiveListeners(s)
  {
    StartsEmpty();
    RunKeepsInv(INITIAL, events);
    hide Run, Deliveries, HasTerminal;
  }

  /** Every wait but the pending one has settled, and settled once. */
  lemma WaitsSettleOnce(events: seq<Event>, w: nat)
    requires w < |Run(INITIAL, events).waits|
    ensures var s := Run(INITIAL, events);
      (HasEnded(s.settled, w) <==> s.waiter != Some(w))
      && forall j, k | 0 <= j < k < |s.settled| :: s.settled[j].wait != s.settled[k].wait
  {
    StartsEmpty();
    RunKeepsInv(INITIAL, events);
    hide Run, Deliveries, HasTerminal;
  }

  /** An abort ends the pending wait on its signal, and touches no message and no other wait. */
  lemma AbortConsumesNothing(events: seq<Event>, signal: nat)
    ensures var s, t := Run(INITIAL, events), Run(INITIAL, events + [Abort(signal)]);
      t.queue == s.queue && t.pushed == s.pushed && Deliveries(t.settled) == Deliveries(s.settled)
      && t.settled == s.settled
           + if s.waiter.Some? && s.waiter.value < |s.waits| && s.waits[s.waiter.value].signal == Some(signal)
             then [Settlement(s.waiter.value, AbortError)] else []
  {
    hide Run, Inv;
    StartsEmpty();
    RunKeepsInv(INITIAL, events);
    RunOneMore(INITIAL, events, Abort(signal));
    AbortSettles(Run(INITIAL, events), signal);
  }

  lemma AbortSettles(s: State, signal: nat)
    requires Inv(s)
    ensures var t := Step(s, Abort(signal));
      t.queue == s.queue && t.pushed == s.pushed && Deliveries(t.settled) == Deliveries(s.settled)
      && t.settled == s.settled
           + if s.waiter.Some? && s.waiter.value < |s.waits| && s.waits[s.waiter.value].signal == Some(signal)
             then [Settlement(s.waiter.value, AbortError)] else []
  {
    AbortKeepsInv(s, signal);
    if s.waiter.Some? { WaiterKnown(s); }
    assert s.settled + [] == s.settled;
    if signal !in s.abortedSignals {
      AbortIs(s, signal);
      hide Inv, Step, Deliveries;
    } else {
      hide Deliveries, HasTerminal, WaitsOk;
    }
  }

  lemma RunOneMore(s: State, events: seq<Event>, e: Event)
    ensures Run(s, events + [e]) == Step(Run(s, events), e)
  {
    RunConcat(s, events, [e]);
    hide Step;
    var t := Run(s, events);
    assert Run(t, [e]) == Run(Step(t, e), [e][1..]);
  }

  lemma {:induction false} RunConcat(s: State, a: seq<Event>, b: seq<Event>)
    ensures Run(s, a + b) == Run(Run(s, a), b)
    decreases |a|
  {
    if a == [] {
      assert a + b == b;
    } else {
      hide Step;
      RunConcat(Step(s, a[0]), a[1..], b);
      assert (a + b)[0] == a[0] && (a + b)[1..] == a[1..] + b;
    }
  }

  /** Closing keeps the buffer: as long as it is not empty, every wait that is not aborted yet gets the oldest message. */
  lemma BufferOutlivesClose(events: seq<Event>, signal: Option<nat>)
    requires Run(INITIAL, events).queue != [] && (signal.Some? ==> signal.value !in Run(INITIAL, events).abortedSignals)
    ensures var s, t := Run(INITIAL, events), Run(INITIAL, events + [WaitFor(signal, false)]);
      t.settled == s.settled + [Settlement(|s.waits|, Delivered(s.queue[0]))] && t.queue == s.queue[1..]
      && |Deliveries(s.settled)| < |s.pushed| && s.queue[0] == s.pushed[|Deliveries(s.settled)|]
  {
    DeliveredThenBuffered(events);
    var e := WaitFor(signal, false);
    RunOneMore(INITIAL, events, e);
    hide Run, Deliveries;
  }

  /** On a stream that is closed and drained every wait ends at once with the first close's reason. */
  lemma ClosedStreamAnswers(events: seq<Event>, signal: Option<nat>)
    requires var s := Run(INITIAL, events);
      s.closed && s.queue == [] && (signal.Some? ==> signal.value !in s.abortedSignals)
    ensures var s, t := Run(INITIAL, events), Run(INITIAL, events + [WaitFor(signal, false)]);
      s.closeReason.Some? && t.settled == s.settled + [Settlement(|s.waits|, CloseError(s.closeReason.value))]
      && t.waiter.None?
  {
    StartsEmpty();
    RunKeepsInv(INITIAL, events);
    var e := WaitFor(signal, false);
    RunOneMore(INITIAL, events, e);
    hide Run, Deliveries, WaitsOk;
  }

  /** A wait pending when the stream is first closed ends with the reason of that close. */
  lemma CloseEndsThePendingWait(events: seq<Event>, reason: Reason)
    requires !Run(INITIAL, events).closed
    ensures var s, t := Run(INITIAL, events), Run(INITIAL, events + [Close(reason)]);
      t.closed && t.closeReason == Some(reason) && t.waiter.None? && t.queue == s.queue && t.listeners == []
      && t.settled == s.settled + if s.waiter.Some? then [Settlement(s.waiter.value, CloseError(reason))] else []
  {
    StartsEmpty();
    RunKeepsInv(INITIAL, events);
    RunOneMore(INITIAL, events, Close(reason));
    var s := Run(INITIAL, events);
    ClearingLeavesNone(s.(closed := true, closeReason := Some(reason)));
    assert s.settled + [] == s.settled;
    hide Run, Deliveries, WaitsOk, HasTerminal, WaiterCleared;
  }

  /** The reason of the first close among the events. */
  function FirstReason(events: seq<Event>): Option<Reason> {
    if events == [] then None else if events[0].Close? then Some(events[0].reason) else FirstReason(events[1..])
  }

  lemma StepKeepsReason(s: State, e: Event)
    requires Inv(s)
    ensures Step(s, e).closeReason == if s.closeReason.None? && e.Close? then Some(e.reason) else s.closeReason
  {
    if e.Abort? {
      AbortKeepsReason(s, e.aborted);
    }
    hide Deliveries, HasTerminal, WaitsOk, Without, AfterFires;
  }

  lemma AbortKeepsReason(s: State, signal: nat)
    ensures Step(s, Abort(signal)).closeReason == s.closeReason
  {
    if signal !in s.abortedSignals {
      FiresKeepReason(s.(abortedSignals := s.abortedSignals + {signal}), ListenersOn(s.waits, signal, s.listeners));
    }
  }

  lemma {:induction false} FiresKeepReason(s: State, snapshot: seq<nat>)
    ensures AfterFires(s, snapshot).closeReason == s.closeReason
    decreases |snapshot|
  {
    if snapshot != [] { FiresKeepReason(AfterFire(s, snapshot[0]), snapshot[1..]); }
  }

  lemma {:induction false} ReasonOfRun(s: State, events: seq<Event>)
    requires Inv(s)
    ensures Run(s, events).closeReason == if s.closeReason.Some? then s.closeReason else FirstReason(events)
    decreases |events|
  {
    if events != [] {
      hide Step, Inv;
      StepKeepsReason(s, events[0]);
      StepKeepsInv(s, events[0]);
      ReasonOfRun(Step(s, events[0]), events[1..]);
    }
  }

  /** The stream is closed exactly when some close was made, and its reason is that of the first. */
  lemma FirstCloseCounts(events: seq<Event>)
    ensures Run(INITIAL, events).closeReason == FirstReason(events)
    ensures Run(INITIAL, events).closed <==> FirstReason(events).Some?
  {
    StartsEmpty();
    RunKeepsInv(INITIAL, events);
    ReasonOfRun(INITIAL, events);
    hide Run, Deliveries, WaitsOk, HasTerminal;
  }

  /**
   * What a wait on an open and drained stream comes to: refused on an aborted signal, or while another wait is pending, which it
   * does not disturb; ended by an abort that comes before it returns; otherwise pending.
   */
  lemma OpenStreamAnswers(events: seq<Event>, signal: Option<nat>, meanwhile: bool)
    requires !Run(INITIAL, events).closed && Run(INITIAL, events).queue == []
    ensures var s, t := Run(INITIAL, events), Run(INITIAL, events + [WaitFor(signal, meanwhile)]);
      var w := |s.waits|;
      var aborted := signal.Some? && signal.value in s.abortedSignals;
      var ends := if aborted then Some(AbortError) else if s.waiter.Some? then Some(WaiterConflict)
                  else if signal.Some? && meanwhile then Some(AbortError) else None;
      t.settled == s.settled + (if ends.Some? then [Settlement(w, ends.value)] else [])
      && t.waiter == (if ends.None? then Some(w) else s.waiter) && t.queue == [] && !t.closed
  {
    RunOneMore(INITIAL, events, WaitFor(signal, meanwhile));
    var s := Run(INITIAL, events);
    assert s.settled + [] == s.settled;
    hide Run, Without;
  }

  /** A wait on an aborted signal is refused even when messages are buffered, and takes none. */
  lemma AbortedWaitTakesNothing(events: seq<Event>, signal: nat, meanwhile: bool)
    requires signal in Run(INITIAL, events).abortedSignals
    ensures var s, t := Run(INITIAL, events), Run(INITIAL, events + [WaitFor(Some(signal), meanwhile)]);
      t.settled == s.settled + [Settlement(|s.waits|, AbortError)] && t.queue == s.queue && t.waiter == s.waiter
  {
    RunOneMore(INITIAL, events, WaitFor(Some(signal), meanwhile));
    hide Run;
  }
}
