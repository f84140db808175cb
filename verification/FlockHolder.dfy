/** The command machine of the lock-holding child: one EXIT or CLOSE line ends it, anything else fails it. */
module FlockHolder {
  import opened JsText
  import opened JsSplit
  import opened LineFraming

  datatype Command = EXIT | CLOSE

  /** What parseParentCommandLine makes of a line. */
  datatype Parsed = Malformed | Terminal(command: Command) | OtherCommand

  datatype FlockAction = Continue | CloseWith(command: Command) | Fail(reason: Reason)

  datatype Machine = Machine(terminalCommandSeen: bool, failed: bool, closed: bool, partialBuffer: Str)

  const FRESH: Machine := Machine(false, false, false, [])

  /** The parser as a table; lines outside it do not parse. */
  type Grammar = map<Str, Parsed>

  function Parse(g: Grammar, line: Str): Parsed { if line in g then g[line] else Malformed }

  predicate Over(m: Machine) { m.failed || m.closed }

  function Handled(g: Grammar, m: Machine, line: Str): (Machine, seq<FlockAction>) {
    if Over(m) then (m, [])
    else if m.terminalCommandSeen then (m.(failed := true), [Fail(COMMAND_AFTER_TERMINAL)])
    else if line == [] then (m, [Continue])
    else match Parse(g, line)
      case Malformed => (m.(failed := true), [Fail(INVALID_LINE)])
      case Terminal(command) => (m.(terminalCommandSeen := true, closed := true), [CloseWith(command)])
      case OtherCommand => (m.(failed := true), [Fail(UNKNOWN_COMMAND)])
  }

  /** The loop of flockHolderIngestChunk over the text still to be framed. */
  function Drained(g: Grammar, m: Machine, text: Str): (Machine, seq<FlockAction>)
    decreases |text|
  {
    var newline := IndexOf(text, LF);
    if newline == |text| then
      if !Fits(text) then (m.(failed := true, partialBuffer := []), [Fail(LINE_TOO_LONG)])
      else (m.(partialBuffer := text), [])
    else
      var more := text[newline + 1..];
      var (t, first) := Handled(g, m.(partialBuffer := more), Trim(text[..newline]));
      if Over(t) then (t, first)
      else
        var (u, rest) := Drained(g, t, more);
        (u, first + rest)
  }

  function Fed(g: Grammar, m: Machine, chunk: Str): (Machine, seq<FlockAction>) {
    if Over(m) then (m, []) else Drained(g, m.(partialBuffer := m.partialBuffer + chunk), m.partialBuffer + chunk)
  }

  function EndOfInput(m: Machine): (Machine, seq<FlockAction>) {
    if Over(m) || m.terminalCommandSeen then (m, [])
    else if Trim(m.partialBuffer) != [] then (m.(failed := true, partialBuffer := []), [Fail(PARTIAL_EOF)])
    else (m.(failed := true), [Fail(EOF_WITHOUT_TERMINAL)])
  }

  method FlockHolderIngestChunk(g: Grammar, state: Machine, chunk: Str) returns (next: Machine, actions: seq<FlockAction>)
    ensures (next, actions) == Fed(g, state, chunk)
  {
    if state.failed || state.closed { return state, []; }
    var partialBuffer := state.partialBuffer + chunk;
    actions := [];
    var current := state.(partialBuffer := partialBuffer);
    ghost var whole := Drained(g, current, partialBuffer);
    assert [] + whole.1 == whole.1;
    var newline := IndexOf(partialBuffer, LF);
    while newline < |partialBuffer|
      invariant newline == IndexOf(partialBuffer, LF)
      invariant var rest := Drained(g, current, partialBuffer); whole == (rest.0, actions + rest.1)
      decreases |partialBuffer|
    {
      var line := partialBuffer[..newline];
      ghost var before := actions;
      partialBuffer := partialBuffer[newline + 1..];
      current := current.(partialBuffer := partialBuffer);
      var (handled, done) := Handled(g, current, Trim(line));
      hide Handled, Trim, IndexOf;
      current := handled;
      actions := actions + done;
      if current.failed || current.closed { return current, actions; }
      Associative(before, done, Drained(g, current, partialBuffer).1);
      newline := IndexOf(partialBuffer, LF);
    }
    if |Utf8(partialBuffer)| > MAX_PROTOCOL_LINE_BYTES {
      return current.(failed := true, partialBuffer := []), actions + [Fail(LINE_TOO_LONG)];
    }
    assert actions + [] == actions;
    return current.(partialBuffer := partialBuffer), actions;
  }

  // ---------------------------------------------------------------- over every run

  datatype Input = Feed(chunk: Str) | End

  function Step(g: Grammar, m: Machine, i: Input): (Machine, seq<FlockAction>) {
    match i case Feed(chunk) => Fed(g, m, chunk) case End => EndOfInput(m)
  }

  function Run(g: Grammar, m: Machine, inputs: seq<Input>): (Machine, seq<FlockAction>)
    decreases |inputs|
  {
    if inputs == [] then (m, [])
    else
      var (t, first) := Step(g, m, inputs[0]);
      var (u, rest) := Run(g, t, inputs[1..]);
      (u, first + rest)
  }

  predicate Final(a: FlockAction) { a.CloseWith? || a.Fail? }

  /** Everything before the last action is `continue`, the last may end it all, and COMMAND_AFTER_TERMINAL is not among them. */
  predicate EndsOnce(actions: seq<FlockAction>) {
    (forall i | 0 <= i < |actions| - 1 :: actions[i] == Continue)
    && forall i | 0 <= i < |actions| :: actions[i] != Fail(COMMAND_AFTER_TERMINAL)
  }

  predicate HasEnd(actions: seq<FlockAction>) { actions != [] && Final(actions[|actions| - 1]) }

  /** What one call, or a whole run, does to a machine whose flags agree. */
  predicate Orderly(m: Machine, t: Machine, actions: seq<FlockAction>) {
    t.closed == t.terminalCommandSeen && !(t.failed && t.closed) && EndsOnce(actions)
    && (Over(m) ==> actions == [] && t.failed == m.failed && t.closed == m.closed)
    && (!Over(m) ==> (Over(t) <==> HasEnd(actions)))
    && (HasEnd(actions) ==> (t.closed <==> actions[|actions| - 1].CloseWith?))
  }

  predicate Sound(m: Machine) { m.closed == m.terminalCommandSeen && !(m.failed && m.closed) }

  lemma HandledOrderly(g: Grammar, m: Machine, line: Str)
    requires Sound(m)
    ensures Orderly(m, Handled(g, m, line).0, Handled(g, m, line).1)
  {
  }

  /** What a line is answered with, told from the parser's verdict on it. */
  lemma LineAnsweredExactly(g: Grammar, m: Machine, line: Str)
    requires Sound(m) && !Over(m)
    ensures var answer := Handled(g, m, line).1;
      |answer| == 1
      && (answer[0] == Continue <==> line == [])
      && (answer[0] == CloseWith(EXIT) <==> line != [] && line in g && g[line] == Terminal(EXIT))
      && (answer[0] == CloseWith(CLOSE) <==> line != [] && line in g && g[line] == Terminal(CLOSE))
      && (answer[0] == Fail(INVALID_LINE) <==> line != [] && (line in g ==> g[line] == Malformed))
      && (answer[0] == Fail(UNKNOWN_COMMAND) <==> line != [] && line in g && g[line] == OtherCommand)
  {
  }

  /** Any line after a terminal command would fail a machine that is not closed. */
  lemma AfterTerminalAnswered(g: Grammar, m: Machine, line: Str)
    requires !Over(m) && m.terminalCommandSeen
    ensures Handled(g, m, line) == (m.(failed := true), [Fail(COMMAND_AFTER_TERMINAL)])
  {
  }

  /** The end of the input fails a machine that has seen no terminal command, for a partial line or for the missing command. */
  lemma EndAnsweredExactly(m: Machine)
    requires Sound(m)
    ensures var (t, answer) := EndOfInput(m);
      var blank := forall i | 0 <= i < |m.partialBuffer| :: IsSpace(m.partialBuffer[i]);
      (answer == [] <==> m.failed || m.closed) && (answer == [] ==> t == m)
      && (answer == [Fail(PARTIAL_EOF)] <==> !m.failed && !m.closed && !blank)
      && (answer == [Fail(EOF_WITHOUT_TERMINAL)] <==> !m.failed && !m.closed && blank)
      && (answer != [] ==> t.failed && |answer| == 1)
  {
    TrimEmptyExactly(m.partialBuffer);
    hide Trim, IsSpace;
  }

  lemma JoinOrderly(m: Machine, t: Machine, u: Machine, a: seq<FlockAction>, b: seq<FlockAction>)
    requires Orderly(m, t, a) && Orderly(t, u, b)
    ensures Orderly(m, u, a + b)
  {
    if b == [] { assert a + b == a; }
    if a == [] { assert a + b == b; }
    if Over(t) { assert b == []; }
  }

  lemma {:induction false} DrainedOrderly(g: Grammar, m: Machine, text: Str)
    requires Sound(m) && !Over(m)
    ensures Orderly(m, Drained(g, m, text).0, Drained(g, m, text).1)
    decreases |text|
  {
    var newline := IndexOf(text, LF);
    if newline < |text| {
      var more := text[newline + 1..];
      var line := Trim(text[..newline]);
      HandledOrderly(g, m.(partialBuffer := more), line);
      var (t, first) := Handled(g, m.(partialBuffer := more), line);
      hide Handled, Trim, Fits, EndsOnce, HasEnd;
      if !Over(t) {
        DrainedOrderly(g, t, more);
        JoinOrderly(m, t, Drained(g, t, more).0, first, Drained(g, t, more).1);
      }
    }
  }

  lemma StepOrderly(g: Grammar, m: Machine, i: Input)
    requires Sound(m)
    ensures Orderly(m, Step(g, m, i).0, Step(g, m, i).1)
  {
    if i.Feed? && !Over(m) {
      DrainedOrderly(g, m.(partialBuffer := m.partialBuffer + i.chunk), m.partialBuffer + i.chunk);
      hide Drained, EndsOnce, HasEnd;
    }
  }

  /**
   * In every run from a fresh machine there is at most one close or fail, it is the last action, `closed` and
   * `terminalCommandSeen` are the same flag, and COMMAND_AFTER_TERMINAL is never reported.
   */
  lemma {:induction false} RunsAreOrderly(g: Grammar, m: Machine, inputs: seq<Input>)
    requires Sound(m)
    ensures Orderly(m, Run(g, m, inputs).0, Run(g, m, inputs).1)
    decreases |inputs|
  {
    if inputs != [] {
      hide Step, EndsOnce, HasEnd;
      StepOrderly(g, m, inputs[0]);
      var (t, first) := Step(g, m, inputs[0]);
      RunsAreOrderly(g, t, inputs[1..]);
      JoinOrderly(m, t, Run(g, t, inputs[1..]).0, first, Run(g, t, inputs[1..]).1);
    }
  }

  // ---------------------------------------------------------------- chunking does not matter

  /** What the lines of a stream lead to, up to the one that ends it. */
  function Verdicts(g: Grammar, lines: seq<Str>): seq<FlockAction> {
    if lines == [] then []
    else
      var action := Handled(g, FRESH, Trim(lines[0])).1[0];
      if action == Continue then [Continue] + Verdicts(g, lines[1..]) else [action]
  }

  predicate Decided(g: Grammar, lines: seq<Str>) { HasEnd(Verdicts(g, lines)) }

  lemma {:induction false} VerdictsConcat(g: Grammar, a: seq<Str>, b: seq<Str>)
    ensures Verdicts(g, a + b) == if Decided(g, a) then Verdicts(g, a) else Verdicts(g, a) + Verdicts(g, b)
  {
    if a == [] {
      assert a + b == b;
    } else {
      assert (a + b)[0] == a[0] && (a + b)[1..] == a[1..] + b;
      var action := Handled(g, FRESH, Trim(a[0])).1[0];
      if action == Continue {
        VerdictsConcat(g, a[1..], b);
        hide Handled, Trim;
        Associative([Continue], Verdicts(g, a[1..]), Verdicts(g, b));
      }
    }
  }

  /** The actions on a text, given the verdicts on its lines and the partial line left over. */
  ghost predicate Follows(g: Grammar, m: Machine, lines: seq<Str>, rest: Str, t: Machine, actions: seq<FlockAction>) {
    (Decided(g, lines) ==> actions == Verdicts(g, lines) && Over(t))
    && (!Decided(g, lines) && Fits(rest) ==> actions == Verdicts(g, lines) && t == m.(partialBuffer := rest))
    && (!Decided(g, lines) && !Fits(rest) ==> actions == Verdicts(g, lines) + [Fail(LINE_TOO_LONG)] && t.failed)
  }

  lemma {:induction false} DrainedVerdicts(g: Grammar, m: Machine, text: Str)
    requires Sound(m) && !Over(m)
    ensures Follows(g, m, Lines(text), Rest(text), Drained(g, m, text).0, Drained(g, m, text).1)
    decreases |text|
  {
    hide Handled, Trim, Lines, Rest, IndexOf, Follows;
    var newline := IndexOf(text, LF);
    if newline == |text| {
      PartialVerdicts(g, m, text);
    } else {
      FeedAt(text);
      var line, more := text[..newline], text[newline + 1..];
      var inner := m.(partialBuffer := more);
      HandledAlike(g, inner, Trim(line));
      var (t, first) := Handled(g, inner, Trim(line));
      if Over(t) {
        StopsAtLine(g, m, line, Lines(more), Rest(more), t, first);
      } else {
        assert first == [Continue] && t == inner;
        DrainedVerdicts(g, t, more);
        FollowsLine(g, inner, m, line, Lines(more), Rest(more), Drained(g, t, more).0, Drained(g, t, more).1);
      }
    }
  }

  lemma FeedAt(text: Str)
    requires IndexOf(text, LF) < |text|
    ensures var i := IndexOf(text, LF);
      Lines(text) == [text[..i]] + Lines(text[i + 1..]) && Rest(text) == Rest(text[i + 1..])
  {
    assert text[IndexOf(text, LF)] == LF;
    FirstFeed(text);
    hide Lines, Rest, IndexOf;
  }

  lemma PartialVerdicts(g: Grammar, m: Machine, text: Str)
    requires IndexOf(text, LF) == |text|
    ensures Follows(g, m, Lines(text), Rest(text), Drained(g, m, text).0, Drained(g, m, text).1)
  {
    assert text[..|text|] == text;
    NoFeed(text);
    hide Lines, Rest, IndexOf, Fits;
    assert [] + [Fail(LINE_TOO_LONG)] == [Fail(LINE_TOO_LONG)];
  }

  lemma FollowsLine(g: Grammar, inner: Machine, m: Machine, line: Str, lines: seq<Str>, rest: Str, u: Machine, more: seq<FlockAction>)
    requires Follows(g, inner, lines, rest, u, more) && inner == m.(partialBuffer := inner.partialBuffer)
    requires Handled(g, FRESH, Trim(line)).1[0] == Continue
    ensures Follows(g, m, [line] + lines, rest, u, [Continue] + more)
  {
    OneVerdict(g, line, lines);
    hide Handled, Trim, Verdicts, HasEnd, Fits;
    Associative([Continue], Verdicts(g, lines), [Fail(LINE_TOO_LONG)]);
  }

  lemma StopsAtLine(g: Grammar, m: Machine, line: Str, lines: seq<Str>, rest: Str, t: Machine, actions: seq<FlockAction>)
    requires Over(t) && |actions| == 1 && actions == Handled(g, FRESH, Trim(line)).1 && actions[0] != Continue
    ensures Follows(g, m, [line] + lines, rest, t, actions)
  {
    OneVerdict(g, line, lines);
    hide Handled, Trim, Verdicts, HasEnd, Fits;
  }

  /** A machine still going treats a line like a fresh one. */
  lemma HandledAlike(g: Grammar, m: Machine, line: Str)
    requires Sound(m) && !Over(m)
    ensures Handled(g, m, line).1 == Handled(g, FRESH, line).1 && |Handled(g, m, line).1| == 1
    ensures Over(Handled(g, m, line).0) <==> Handled(g, m, line).1[0] != Continue
    ensures !Over(Handled(g, m, line).0) ==> Handled(g, m, line).0 == m
  {
  }

  lemma OneVerdict(g: Grammar, line: Str, lines: seq<Str>)
    ensures var action := Handled(g, FRESH, Trim(line)).1[0];
      Verdicts(g, [line] + lines) == (if action == Continue then [Continue] + Verdicts(g, lines) else [action])
      && (Decided(g, [line] + lines) <==> action != Continue || Decided(g, lines))
  {
    assert ([line] + lines)[1..] == lines;
    var action := Handled(g, FRESH, Trim(line)).1[0];
    assert action == Continue || Final(action);
    hide Handled, Trim;
    var rest := Verdicts(g, lines);
    if action == Continue && rest != [] { assert ([Continue] + rest)[|rest|] == rest[|rest| - 1]; }
  }

  function Feeds(chunks: seq<Str>): seq<Input> { seq(|chunks|, i requires 0 <= i < |chunks| => Feed(chunks[i])) }

  lemma OverStays(g: Grammar, m: Machine, inputs: seq<Input>)
    requires Sound(m) && Over(m)
    ensures Run(g, m, inputs).1 == [] && Over(Run(g, m, inputs).0)
  {
    RunsAreOrderly(g, m, inputs);
    hide Run, EndsOnce, HasEnd;
  }

  lemma FeedsSplit(chunks: seq<Str>)
    requires chunks != []
    ensures Feeds(chunks) != [] && Feeds(chunks)[0] == Feed(chunks[0]) && Feeds(chunks)[1..] == Feeds(chunks[1..])
  {
  }

  lemma CarriesOver(g: Grammar, partial: Str, chunks: seq<Str>)
    requires chunks != []
    ensures var text, more := partial + chunks[0], Rest(partial + chunks[0]) + Concat(chunks[1..]);
      Rest(partial + Concat(chunks)) == Rest(more)
      && Verdicts(g, Lines(partial + Concat(chunks)))
           == (if Decided(g, Lines(text)) then Verdicts(g, Lines(text)) else Verdicts(g, Lines(text)) + Verdicts(g, Lines(more)))
      && (Decided(g, Lines(partial + Concat(chunks))) <==> Decided(g, Lines(text)) || Decided(g, Lines(more)))
  {
    hide Lines, Rest, Verdicts, HasEnd;
    RestCarries(partial, chunks, |chunks|);
    assert chunks[..|chunks|] == chunks && chunks[1..][..|chunks| - 1] == chunks[1..];
    VerdictsConcat(g, Lines(partial + chunks[0]), Lines(Rest(partial + chunks[0]) + Concat(chunks[1..])));
    DecidedConcat(g, Lines(partial + chunks[0]), Lines(Rest(partial + chunks[0]) + Concat(chunks[1..])));
  }

  /** With no partial line too long, the actions are the verdicts on the stream's lines, however it was cut. */
  lemma {:induction false} ActionsFollowTheStream(g: Grammar, m: Machine, chunks: seq<Str>)
    requires Sound(m) && !Over(m) && LF !in m.partialBuffer && PartialsFit(m.partialBuffer, chunks)
    ensures var (t, actions) := Run(g, m, Feeds(chunks));
      var stream := m.partialBuffer + Concat(chunks);
      actions == Verdicts(g, Lines(stream)) && (Over(t) <==> Decided(g, Lines(stream)))
      && (!Over(t) ==> t == m.(partialBuffer := Rest(stream)))
    decreases |chunks|
  {
    if chunks == [] {
      NoFeed(m.partialBuffer);
      assert m.partialBuffer + [] == m.partialBuffer;
    } else {
      hide Drained, Lines, Rest, Fits, PartialsFit, Feeds, Verdicts, HasEnd, EndsOnce, Concat;
      FeedsSplit(chunks);
      var text := m.partialBuffer + chunks[0];
      var fed := m.(partialBuffer := text);
      DrainedVerdicts(g, fed, text);
      DrainedOrderly(g, fed, text);
      PartialsFitNext(m.partialBuffer, chunks);
      CarriesOver(g, m.partialBuffer, chunks);
      var (t, first) := Drained(g, fed, text);
      if Over(t) {
        OverStays(g, t, Feeds(chunks[1..]));
        assert first + [] == first;
      } else {
        ActionsFollowTheStream(g, t, chunks[1..]);
      }
    }
  }

  lemma DecidedConcat(g: Grammar, a: seq<Str>, b: seq<Str>)
    ensures Decided(g, a + b) <==> Decided(g, a) || Decided(g, b)
  {
    VerdictsConcat(g, a, b);
    hide Verdicts;
    if !Decided(g, a) {
      var v, w := Verdicts(g, a), Verdicts(g, b);
      if w == [] { assert v + w == v; } else { assert (v + w)[|v + w| - 1] == w[|w| - 1]; }
    }
  }

  lemma CutsAgree(g: Grammar, chunks: seq<Str>, others: seq<Str>)
    requires Concat(chunks) == Concat(others) && PartialsFit([], chunks) && PartialsFit([], others)
    ensures var a, b := Run(g, FRESH, Feeds(chunks)), Run(g, FRESH, Feeds(others));
      a.1 == b.1 && a.0.failed == b.0.failed && a.0.closed == b.0.closed && (!Over(a.0) ==> a.0 == b.0)
  {
    ActionsFollowTheStream(g, FRESH, chunks);
    ActionsFollowTheStream(g, FRESH, others);
    RunsAreOrderly(g, FRESH, Feeds(chunks));
    RunsAreOrderly(g, FRESH, Feeds(others));
    hide Run, Verdicts, Lines, Rest, PartialsFit, EndsOnce;
  }
}
