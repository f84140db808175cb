/** Line framing of chunked streams: the text up to the last line feed is lines, the rest waits for more. */
module LineFraming {
  import opened JsText
  import opened JsSplit

  const LF: Unit := 10
  const MAX_PROTOCOL_LINE_BYTES: nat := 16384

  /** The complete lines of a text, and what follows the last of them. */
  function Lines(s: Str): seq<Str> { var parts := Split(s, LF); parts[..|parts| - 1] }
  function Rest(s: Str): (r: Str)
    ensures LF !in r
  {
    var parts := Split(s, LF);
    parts[|parts| - 1]
  }

  /** Short enough to wait for its line feed. */
  predicate Fits(partial: Str) { |Utf8(partial)| <= MAX_PROTOCOL_LINE_BYTES }

  function Concat(chunks: seq<Str>): Str { if chunks == [] then [] else chunks[0] + Concat(chunks[1..]) }

  lemma NoFeed(s: Str)
    requires LF !in s
    ensures Lines(s) == [] && Rest(s) == s
  {
    assert IndexOf(s, LF) == |s|;
  }

  lemma FeedFound(s: Str)
    requires LF in s
    ensures IndexOf(s, LF) < |s|
  {
    assert s[..|s|] == s;
  }

  lemma SplitAtFirst(s: Str)
    requires LF in s
    ensures IndexOf(s, LF) < |s|
    ensures Split(s, LF) == [s[..IndexOf(s, LF)]] + Split(s[IndexOf(s, LF) + 1..], LF)
  {
    FeedFound(s);
    hide IndexOf;
  }

  lemma FirstPart(s: Str, line: Str, parts: seq<Str>)
    requires parts != [] && Split(s, LF) == [line] + parts
    ensures Lines(s) == [line] + parts[..|parts| - 1] && Rest(s) == parts[|parts| - 1]
  {
    hide Split;
    var all := [line] + parts;
    assert all[..|all| - 1] == [line] + parts[..|parts| - 1] && all[|all| - 1] == parts[|parts| - 1];
  }

  lemma FirstFeed(s: Str)
    requires LF in s
    ensures var i := IndexOf(s, LF);
      i < |s| && Lines(s) == [s[..i]] + Lines(s[i + 1..]) && Rest(s) == Rest(s[i + 1..])
  {
    SplitAtFirst(s);
    var i := IndexOf(s, LF);
    hide Split, IndexOf;
    var more := s[i + 1..];
    FirstPart(s, s[..i], Split(more, LF));
    hide Lines, Rest;
    LinesAndRest(more);
  }

  lemma LinesAndRest(s: Str)
    ensures var parts := Split(s, LF); Lines(s) == parts[..|parts| - 1] && Rest(s) == parts[|parts| - 1]
  {
    hide Split;
  }

  lemma FeedAfter(line: Str, more: Str)
    requires LF !in line
    ensures Lines(line + [LF] + more) == [line] + Lines(more) && Rest(line + [LF] + more) == Rest(more)
  {
    var s := line + [LF] + more;
    Associative(line, [LF], more);
    assert s[|line|] == LF;
    IndexOfAfter(line, LF, [LF] + more);
    FirstFeed(s);
    assert s[..|line|] == line && s[|line| + 1..] == more;
  }

  /** Framing a text in two pieces, carrying the rest over, is framing it whole. */
  lemma {:induction false} FramingConcat(a: Str, b: Str)
    ensures Lines(a + b) == Lines(a) + Lines(Rest(a) + b)
    ensures Rest(a + b) == Rest(Rest(a) + b)
    decreases |a|
  {
    if LF in a {
      FirstFeed(a);
      var i := IndexOf(a, LF);
      var line, more := a[..i], a[i + 1..];
      assert a == line + [LF] + more;
      FramingConcat(more, b);
      Associative(line + [LF], more, b);
      FeedAfter(line, more + b);
      hide Lines, Rest;
      Associative([line], Lines(more), Lines(Rest(more) + b));
    } else {
      NoFeed(a);
      hide Lines, Rest;
      assert [] + Lines(a + b) == Lines(a + b);
    }
  }

  lemma RestIsRest(s: Str)
    ensures Lines(Rest(s)) == [] && Rest(Rest(s)) == Rest(s)
  {
    NoFeed(Rest(s));
  }

  // ---------------------------------------------------------------- interactive stdin

  datatype Reason = LINE_TOO_LONG | PARTIAL_EOF | EOF_WITHOUT_TERMINAL | INVALID_LINE | UNKNOWN_COMMAND | COMMAND_AFTER_TERMINAL

  datatype Action = LinesOut(lines: seq<Str>) | FailWith(reason: Reason) | Noop

  datatype Stdin = Stdin(
    terminalCommandSeen: bool, terminalEventEmitted: bool, failed: bool, partialBuffer: Str, eofSeen: bool)

  const CREATED: Stdin := Stdin(false, false, false, [], false)

  datatype Event = Chunk(text: Str) | Eof | MarkCommand | MarkEvent | MarkFailed

  function Ingested(s: Stdin, chunk: Str): (Stdin, seq<Action>) {
    if s.failed || s.eofSeen then (s, [Noop])
    else
      var lines, rest := Lines(s.partialBuffer + chunk), Rest(s.partialBuffer + chunk);
      if !Fits(rest) then
        (s.(failed := true, terminalEventEmitted := true, partialBuffer := []),
         (if lines != [] then [LinesOut(lines)] else []) + [FailWith(LINE_TOO_LONG)])
      else (s.(partialBuffer := rest), if lines == [] then [Noop] else [LinesOut(lines)])
  }

  method InteractiveIngestChunk(state: Stdin, chunk: Str) returns (next: Stdin, actions: seq<Action>)
    ensures (next, actions) == Ingested(state, chunk)
  {
    if state.failed || state.eofSeen { return state, [Noop]; }
    var partialBuffer := state.partialBuffer + chunk;
    ghost var text := partialBuffer;
    var lines: seq<Str> := [];
    var newline := IndexOf(partialBuffer, LF);
    while newline < |partialBuffer|
      invariant newline == IndexOf(partialBuffer, LF)
      invariant lines + Lines(partialBuffer) == Lines(text) && Rest(partialBuffer) == Rest(text)
      decreases |partialBuffer|
    {
      FirstFeed(partialBuffer);
      hide Lines, Rest;
      var line := partialBuffer[..newline];
      Associative(lines, [line], Lines(partialBuffer[newline + 1..]));
      partialBuffer := partialBuffer[newline + 1..];
      lines := lines + [line];
      newline := IndexOf(partialBuffer, LF);
    }
    assert partialBuffer[..newline] == partialBuffer;
    NoFeed(partialBuffer);
    hide Lines, Rest;
    assert lines + [] == lines;
    if |Utf8(partialBuffer)| > MAX_PROTOCOL_LINE_BYTES {
      next := state.(failed := true, terminalEventEmitted := true, partialBuffer := []);
      actions := (if |lines| > 0 then [LinesOut(lines)] else []) + [FailWith(LINE_TOO_LONG)];
      return;
    }
    next := state.(partialBuffer := partialBuffer);
    if |lines| == 0 { return next, [Noop]; }
    actions := [LinesOut(lines)];
  }

  function Ended(s: Stdin): (Stdin, seq<Action>) {
    if s.failed || s.terminalCommandSeen || s.terminalEventEmitted then (s.(eofSeen := true), [Noop])
    else if Trim(s.partialBuffer) != [] then
      (s.(failed := true, terminalEventEmitted := true, eofSeen := true, partialBuffer := []), [FailWith(PARTIAL_EOF)])
    else (s.(failed := true, terminalEventEmitted := true, eofSeen := true), [FailWith(EOF_WITHOUT_TERMINAL)])
  }

  function Step(s: Stdin, e: Event): (Stdin, seq<Action>) {
    match e
    case Chunk(text) => Ingested(s, text)
    case Eof => Ended(s)
    case MarkCommand => (s.(terminalCommandSeen := true), [])
    case MarkEvent => (s.(terminalEventEmitted := true), [])
    case MarkFailed => (s.(failed := true, terminalEventEmitted := true), [])
  }

  function Run(s: Stdin, events: seq<Event>): (Stdin, seq<Action>)
    decreases |events|
  {
    if events == [] then (s, [])
    else
      var (t, first) := Step(s, events[0]);
      var (u, rest) := Run(t, events[1..]);
      (u, first + rest)
  }

  function LinesIn(actions: seq<Action>): seq<Str> {
    if actions == [] then []
    else (if actions[0].LinesOut? then actions[0].lines else []) + LinesIn(actions[1..])
  }

  function FailsIn(actions: seq<Action>): nat {
    if actions == [] then 0 else (if actions[0].FailWith? then 1 else 0) + FailsIn(actions[1..])
  }

  lemma {:induction false} ActionsConcat(a: seq<Action>, b: seq<Action>)
    ensures LinesIn(a + b) == LinesIn(a) + LinesIn(b) && FailsIn(a + b) == FailsIn(a) + FailsIn(b)
  {
    if a == [] {
      assert a + b == b;
    } else {
      ActionsConcat(a[1..], b);
      assert (a + b)[0] == a[0] && (a + b)[1..] == a[1..] + b;
      Associative(if a[0].LinesOut? then a[0].lines else [], LinesIn(a[1..]), LinesIn(b));
    }
  }

  lemma OneAction(a: Action)
    ensures LinesIn([a]) == (if a.LinesOut? then a.lines else []) && FailsIn([a]) == if a.FailWith? then 1 else 0
  {
    assert [a][1..] == [];
    assert (if a.LinesOut? then a.lines else []) + [] == if a.LinesOut? then a.lines else [];
  }

  lemma TwoActions(a: Action, b: Action)
    ensures LinesIn([a, b]) == LinesIn([a]) + LinesIn([b]) && FailsIn([a, b]) == FailsIn([a]) + FailsIn([b])
  {
    assert [a, b] == [a] + [b];
    ActionsConcat([a], [b]);
  }

  lemma FewActions(actions: seq<Action>)
    requires |actions| <= 2
    ensures FailsIn(actions)
         == (if |actions| > 0 && actions[0].FailWith? then 1 else 0) + (if |actions| > 1 && actions[1].FailWith? then 1 else 0)
    ensures LinesIn(actions)
         == (if |actions| > 0 && actions[0].LinesOut? then actions[0].lines else [])
            + (if |actions| > 1 && actions[1].LinesOut? then actions[1].lines else [])
  {
    if |actions| == 1 {
      OneAction(actions[0]);
      assert actions == [actions[0]];
    } else if |actions| == 2 {
      OneAction(actions[0]);
      OneAction(actions[1]);
      TwoActions(actions[0], actions[1]);
      assert actions == [actions[0], actions[1]];
    }
  }

  /** What a chunk is answered with: nothing once failed or ended; the complete lines, and a failure after them for a long rest. */
  lemma ChunkAnsweredExactly(s: Stdin, chunk: Str)
    ensures var (t, answer) := Ingested(s, chunk);
      var text := s.partialBuffer + chunk;
      var lines := if Lines(text) == [] then [] else [LinesOut(Lines(text))];
      (s.failed || s.eofSeen ==> t == s && answer == [Noop])
      && (!s.failed && !s.eofSeen && |Utf8(Rest(text))| > MAX_PROTOCOL_LINE_BYTES ==>
            t == Stdin(s.terminalCommandSeen, true, true, [], false) && answer == lines + [FailWith(LINE_TOO_LONG)])
      && (!s.failed && !s.eofSeen && |Utf8(Rest(text))| <= MAX_PROTOCOL_LINE_BYTES ==>
            t == s.(partialBuffer := Rest(text)) && answer == if lines == [] then [Noop] else lines)
  {
    hide Lines, Rest, Utf8;
  }

  /** The three marks set their flags and nothing else: a failure also counts as the terminal event. */
  lemma MarksTell(s: Stdin)
    ensures Step(s, MarkCommand) == (s.(terminalCommandSeen := true), [])
    ensures Step(s, MarkEvent) == (s.(terminalEventEmitted := true), [])
    ensures Step(s, MarkFailed) == (s.(failed := true, terminalEventEmitted := true), [])
  {
  }

  /** What the end of the input is answered with: nothing once a command or an event ended it, else which failure. */
  lemma EndAnsweredExactly(s: Stdin)
    ensures var (t, answer) := Ended(s);
      var over := s.failed || s.terminalCommandSeen || s.terminalEventEmitted;
      var blank := forall i | 0 <= i < |s.partialBuffer| :: IsSpace(s.partialBuffer[i]);
      (answer == [Noop] <==> over) && (answer == [FailWith(PARTIAL_EOF)] <==> !over && !blank)
      && (answer == [FailWith(EOF_WITHOUT_TERMINAL)] <==> !over && blank)
      && t.eofSeen && (t.failed <==> s.failed || !over) && (t.terminalEventEmitted <==> s.terminalEventEmitted || !over)
  {
    TrimEmptyExactly(s.partialBuffer);
    hide Trim, IsSpace;
  }

  /** Whatever is fed to it, marked on it or ended, the machine fails at most once, and not at all once it has failed. */
  lemma {:induction false} AtMostOneFail(s: Stdin, events: seq<Event>)
    ensures var (t, actions) := Run(s, events);
      FailsIn(actions) <= (if s.failed then 0 else 1) && (FailsIn(actions) > 0 ==> t.failed) && (s.failed ==> t.failed)
    decreases |events|
  {
    if events != [] {
      var (t, first) := Step(s, events[0]);
      StepFails(s, events[0]);
      AtMostOneFail(t, events[1..]);
      ActionsConcat(first, Run(t, events[1..]).1);
      hide Step;
    }
  }

  lemma StepFails(s: Stdin, e: Event)
    ensures var (t, actions) := Step(s, e);
      FailsIn(actions) <= (if s.failed then 0 else 1) && (FailsIn(actions) > 0 ==> t.failed) && (s.failed ==> t.failed)
  {
    hide Lines, Rest, Fits, Trim;
    FewActions(Step(s, e).1);
  }

  // ---------------------------------------------------------------- chunking does not matter

  function ChunkEvents(chunks: seq<Str>): seq<Event> { seq(|chunks|, i requires 0 <= i < |chunks| => Chunk(chunks[i])) }

  /** No partial line left by any of the chunks is too long. */
  ghost predicate PartialsFit(partial: Str, chunks: seq<Str>) {
    forall k | 0 < k <= |chunks| :: Fits(Rest(partial + Concat(chunks[..k])))
  }

  lemma {:induction false} ConcatAppend(a: seq<Str>, b: seq<Str>)
    ensures Concat(a + b) == Concat(a) + Concat(b)
  {
    if a == [] {
      assert a + b == b;
    } else {
      ConcatAppend(a[1..], b);
      assert (a + b)[0] == a[0] && (a + b)[1..] == a[1..] + b;
      Associative(a[0], Concat(a[1..]), Concat(b));
    }
  }

  lemma RestCarries(partial: Str, chunks: seq<Str>, k: nat)
    requires chunks != [] && 0 < k <= |chunks|
    ensures var carried := Rest(partial + chunks[0]);
      Rest(partial + Concat(chunks[..k])) == Rest(carried + Concat(chunks[1..][..k - 1]))
      && Lines(partial + Concat(chunks[..k])) == Lines(partial + chunks[0]) + Lines(carried + Concat(chunks[1..][..k - 1]))
  {
    var more := chunks[1..][..k - 1];
    assert chunks[..k][0] == chunks[0] && chunks[..k][1..] == more;
    Associative(partial, chunks[0], Concat(more));
    FramingConcat(partial + chunks[0], Concat(more));
    hide Lines, Rest;
  }

  lemma PartialsFitNext(partial: Str, chunks: seq<Str>)
    requires chunks != []
    ensures PartialsFit(partial, chunks)
       <==> Fits(Rest(partial + chunks[0])) && PartialsFit(Rest(partial + chunks[0]), chunks[1..])
  {
    hide Fits, Rest, Lines;
    var carried := Rest(partial + chunks[0]);
    RestIsRest(partial + chunks[0]);
    forall k | 0 < k <= |chunks|
      ensures Rest(partial + Concat(chunks[..k])) == Rest(carried + Concat(chunks[1..][..k - 1]))
    {
      RestCarries(partial, chunks, k);
    }
    assert Rest(partial + Concat(chunks[..1])) == carried by {
      RestCarries(partial, chunks, 1);
      assert chunks[1..][..0] == [] && carried + [] == carried;
    }
    forall k | 0 < k <= |chunks| - 1
      ensures Rest(carried + Concat(chunks[1..][..k])) == Rest(partial + Concat(chunks[..k + 1]))
    {
      RestCarries(partial, chunks, k + 1);
    }
  }

  /**
   * Feeding chunks fails exactly when some partial line is too long; otherwise lines and buffer are those of the whole
   * stream, wherever it was cut.
   */
  lemma {:induction false} FramingFollowsTheStream(s: Stdin, chunks: seq<Str>)
    requires !s.failed && !s.eofSeen && LF !in s.partialBuffer
    ensures var (t, actions) := Run(s, ChunkEvents(chunks));
      var stream := s.partialBuffer + Concat(chunks);
      (t.failed <==> !PartialsFit(s.partialBuffer, chunks)) && (FailsIn(actions) == if t.failed then 1 else 0)
      && (!t.failed ==> LinesIn(actions) == Lines(stream) && t == s.(partialBuffer := Rest(stream)))
    decreases |chunks|
  {
    if chunks == [] {
      NoFeed(s.partialBuffer);
      assert s.partialBuffer + [] == s.partialBuffer;
    } else {
      var (t, first) := Ingested(s, chunks[0]);
      assert ChunkEvents(chunks)[0] == Chunk(chunks[0]) && ChunkEvents(chunks)[1..] == ChunkEvents(chunks[1..]);
      IngestedTells(s, chunks[0]);
      PartialsFitNext(s.partialBuffer, chunks);
      RestCarries(s.partialBuffer, chunks, |chunks|);
      assert chunks[..|chunks|] == chunks && chunks[1..][..|chunks| - 1] == chunks[1..];
      var rest := Run(t, ChunkEvents(chunks[1..])).1;
      ActionsConcat(first, rest);
      AtMostOneFail(t, ChunkEvents(chunks[1..]));
      if !t.failed { FramingFollowsTheStream(t, chunks[1..]); }
      hide Ingested, Lines, Rest, Fits, PartialsFit, ChunkEvents;
    }
  }

  lemma IngestedTells(s: Stdin, chunk: Str)
    requires !s.failed && !s.eofSeen
    ensures var (t, actions) := Ingested(s, chunk);
      var text := s.partialBuffer + chunk;
      (t.failed <==> !Fits(Rest(text))) && (FailsIn(actions) == if t.failed then 1 else 0)
      && LinesIn(actions) == Lines(text) && (!t.failed ==> t == s.(partialBuffer := Rest(text)))
  {
    hide Lines, Rest, Fits;
    FewActions(Ingested(s, chunk).1);
    var lines := Lines(s.partialBuffer + chunk);
    assert lines + [] == lines;
  }

  /** Two ways of cutting one stream, neither leaving a partial line too long, give the same lines and the same buffer. */
  lemma ChunkIndependent(s: Stdin, chunks: seq<Str>, others: seq<Str>)
    requires !s.failed && !s.eofSeen && LF !in s.partialBuffer && Concat(chunks) == Concat(others)
    requires PartialsFit(s.partialBuffer, chunks) && PartialsFit(s.partialBuffer, others)
    ensures var a, b := Run(s, ChunkEvents(chunks)), Run(s, ChunkEvents(others));
      a.0 == b.0 && LinesIn(a.1) == LinesIn(b.1)
  {
    FramingFollowsTheStream(s, chunks);
    FramingFollowsTheStream(s, others);
    hide Run, Lines, Rest, PartialsFit;
  }

  /** Without that condition the cut matters: a line over the limit passes when it arrives whole and fails otherwise. */
  lemma LongLineDependsOnTheCut(line: Str)
    requires LF !in line && !Fits(line)
    ensures !Run(CREATED, ChunkEvents([line + [LF]])).0.failed && Run(CREATED, ChunkEvents([line, [LF]])).0.failed
  {
    WholeLineFits(line);
    CutLineDoesNot(line);
    hide Run, Fits, PartialsFit;
    FramingFollowsTheStream(CREATED, [line + [LF]]);
    FramingFollowsTheStream(CREATED, [line, [LF]]);
  }

  lemma WholeLineFits(line: Str)
    requires LF !in line
    ensures PartialsFit([], [line + [LF]])
  {
    var whole := [line + [LF]];
    PartialsFitNext([], whole);
    assert [] + whole[0] == line + [LF] + [];
    FeedAfter(line, []);
    NoFeed([]);
    assert Utf8([]) == [];
  }

  lemma CutLineDoesNot(line: Str)
    requires LF !in line && !Fits(line)
    ensures !PartialsFit([], [line, [LF]])
  {
    PartialsFitNext([], [line, [LF]]);
    assert [] + line == line;
    NoFeed(line);
  }
}
