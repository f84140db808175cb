/**
 * The assignment-value scanner and scanSensitiveData around it. What the regular expressions and the URL parser match is
 * arbitrary: any non-empty ranges inside the input.
 */
module AssignmentScanner {
  import opened JsText
  import opened Redaction
  import opened Options

  const SPACE: Unit := 32
  const TAB: Unit := 9
  const LF: Unit := 10
  const CR: Unit := 13
  const DOUBLE_QUOTE: Unit := 34
  const SINGLE_QUOTE: Unit := 39
  const BACKSLASH: Unit := 92

  const MAX_QUOTED_VALUE_LENGTH: nat := 4096
  const MAX_SCAN_INPUT_LENGTH: nat := 65536

  predicate IsInline(c: Unit) { c == SPACE || c == TAB }
  predicate IsNewline(c: Unit) { c == LF || c == CR }
  predicate IsQuote(c: Unit) { c == DOUBLE_QUOTE || c == SINGLE_QUOTE }

  // ---------------------------------------------------------------- specification

  /** The first line break at or after `from`, or the end. */
  function LineEnd(input: Str, from: nat): (r: nat)
    requires from <= |input|
    ensures from <= r <= |input| && (forall i | from <= i < r :: !IsNewline(input[i])) && (r < |input| ==> IsNewline(input[r]))
    decreases |input| - from
  {
    if from == |input| || IsNewline(input[from]) then from else LineEnd(input, from + 1)
  }

  /** The first position at or after `from` that holds no space or tab. */
  function AfterInline(input: Str, from: nat): (r: nat)
    requires from <= |input|
    ensures from <= r <= |input| && (forall i | from <= i < r :: IsInline(input[i])) && (r < |input| ==> !IsInline(input[r]))
    decreases |input| - from
  {
    if from == |input| || !IsInline(input[from]) then from else AfterInline(input, from + 1)
  }

  /** Past one LF, CR or CRLF, if there is one. */
  function AfterBreak(input: Str, at: nat): (r: nat)
    requires at <= |input|
    ensures at <= r <= |input|
  {
    if at < |input| && input[at] == CR then (if at + 1 < |input| && input[at + 1] == LF then at + 2 else at + 1)
    else if at < |input| && input[at] == LF then at + 1
    else at
  }

  /** Where an assigned value starts: at most one line break and any spaces and tabs are skipped. */
  function ValueStart(input: Str, from: nat): (r: nat)
    requires from <= |input|
    ensures from <= r <= |input|
  {
    var line := AfterInline(input, from);
    if AfterBreak(input, line) == line then line else AfterInline(input, AfterBreak(input, line))
  }

  predicate Ambiguous(input: Str, from: nat)
    requires from <= |input|
  {
    ValueStart(input, from) < |input| && IsNewline(input[ValueStart(input, from)])
  }

  /** What may be skipped between a key and its value: blanks and tabs around at most one line break, CR LF being one. */
  ghost predicate Skips(input: Str, from: nat, a: nat, b: nat, start: nat)
    requires from <= a <= b <= start <= |input|
  {
    (forall i | from <= i < a || b <= i < start :: input[i] == 32 || input[i] == 9)
    && input[a..b] in {[], [10], [13], [13, 10]}
    && (input[a..b] == [] ==> b == start && (a < |input| ==> input[a] != 10 && input[a] != 13))
    && (input[a..b] == [13] && b < |input| ==> input[b] != 10)
    && (start < |input| ==> input[start] != 32 && input[start] != 9)
  }

  /** Exactly that is skipped. */
  lemma ValueStartSkips(input: Str, from: nat)
    requires from <= |input|
    ensures var a := AfterInline(input, from);
      var b := AfterBreak(input, a);
      from <= a <= b <= ValueStart(input, from) && Skips(input, from, a, b, ValueStart(input, from))
  {
    var a := AfterInline(input, from);
    var b := AfterBreak(input, a);
    assert b == a + 1 ==> input[a..b] == [input[a]];
    assert b == a + 2 ==> input[a..b] == [input[a], input[a + 1]];
  }

  /** A value that would start on a line feed or a carriage return is ambiguous, and a line ends at the first of either. */
  lemma LinesBreakExactly(input: Str, from: nat)
    requires from <= |input|
    ensures Ambiguous(input, from)
       <==> ValueStart(input, from) < |input| && (input[ValueStart(input, from)] == 10 || input[ValueStart(input, from)] == 13)
    ensures forall i | from <= i < LineEnd(input, from) :: input[i] != 10 && input[i] != 13
    ensures LineEnd(input, from) < |input| ==> input[LineEnd(input, from)] == 10 || input[LineEnd(input, from)] == 13
  {
  }

  /** How many backslashes stand directly before c, looking back no further than `first`. */
  ghost function Backslashes(input: Str, first: nat, c: nat): nat
    requires first <= c <= |input|
  {
    if c == first || input[c - 1] != BACKSLASH then 0 else 1 + Backslashes(input, first, c - 1)
  }

  /** An unescaped closing quote within reach. */
  ghost predicate Closes(input: Str, start: nat, c: nat)
    requires start < |input|
  {
    start < c < |input| && c < start + MAX_QUOTED_VALUE_LENGTH
    && input[c] == input[start] && Backslashes(input, start + 1, c) % 2 == 0
  }

  ghost predicate ClosesFirst(input: Str, start: nat, c: nat)
    requires start < |input|
  {
    Closes(input, start, c) && forall b: nat | b < c :: !Closes(input, start, b)
  }

  /** `end` is where a value starting at `start` ends: after its closing quote, or at the end of the line. */
  ghost predicate EndsAt(input: Str, start: nat, end: nat)
    requires start < |input|
  {
    if IsQuote(input[start]) && exists c: nat :: Closes(input, start, c)
    then end > 0 && ClosesFirst(input, start, end - 1)
    else end == LineEnd(input, start)
  }

  /** A double or single quote opens a quoted value; the same quote closes it within the next 4095 units, unless escaped. */
  lemma EndsAtExactly(input: Str, start: nat, end: nat)
    requires start < |input| && EndsAt(input, start, end)
    ensures var closed := (c: nat) reads {} =>
        start < c < |input| && c - start <= 4095 && input[c] == input[start] && Backslashes(input, start + 1, c) % 2 == 0;
      if (input[start] == 34 || input[start] == 39) && exists c: nat :: closed(c)
      then end > 0 && closed(end - 1) && forall c: nat | c < end - 1 :: !closed(c)
      else end == LineEnd(input, start)
  {
    var closed := (c: nat) reads {} =>
      start < c < |input| && c - start <= 4095 && input[c] == input[start] && Backslashes(input, start + 1, c) % 2 == 0;
    assert forall c: nat :: closed(c) <==> Closes(input, start, c);
    hide Closes, Backslashes;
  }

  lemma EndIsUnique(input: Str, start: nat, d: nat, e: nat)
    requires start < |input| && EndsAt(input, start, d) && EndsAt(input, start, e)
    ensures d == e
  {
    hide Closes;
    if IsQuote(input[start]) && exists c: nat :: Closes(input, start, c) {
      assert d - 1 < e - 1 || e - 1 < d - 1 || d == e;
    }
  }

  lemma {:induction false} SomeClosesFirst(input: Str, start: nat, c: nat)
    requires start < |input| && Closes(input, start, c)
    ensures exists b: nat :: ClosesFirst(input, start, b)
  {
    hide Closes;
    if b: nat :| b < c && Closes(input, start, b) {
      SomeClosesFirst(input, start, b);
    } else {
      assert ClosesFirst(input, start, c);
    }
  }

  ghost function ValueEnd(input: Str, start: nat): (end: nat)
    requires start < |input|
    ensures EndsAt(input, start, end)
  {
    if IsQuote(input[start]) && exists c: nat :: Closes(input, start, c) then
      var c: nat :| Closes(input, start, c);
      SomeClosesFirst(input, start, c);
      var b: nat :| ClosesFirst(input, start, b);
      b + 1
    else LineEnd(input, start)
  }

  /** A value that does not start on a line break is never empty and stays inside the input. */
  lemma ValueNotEmpty(input: Str, start: nat)
    requires start < |input| && !IsNewline(input[start])
    ensures start < ValueEnd(input, start) <= |input|
  {
    var end := ValueEnd(input, start);
    assert EndsAt(input, start, end);
    if IsQuote(input[start]) && exists c: nat :: Closes(input, start, c) {
      assert Closes(input, start, end - 1);
    }
  }

  // ---------------------------------------------------------------- the scanner's loops

  method SkipInlineSpace(input: Str, from: nat) returns (index: nat)
    requires from <= |input|
    ensures index == AfterInline(input, from)
  {
    index := from;
    while index < |input| && IsInline(input[index])
      invariant from <= index <= |input|
      invariant AfterInline(input, index) == AfterInline(input, from)
    {
      index := index + 1;
    }
  }

  method SkipAssignmentWhitespace(input: Str, from: nat) returns (index: nat, ambiguous: bool)
    requires from <= |input|
    ensures index == ValueStart(input, from) && (ambiguous <==> Ambiguous(input, from))
  {
    index := SkipInlineSpace(input, from);
    if index < |input| && input[index] == CR {
      index := index + 1;
      if index < |input| && input[index] == LF { index := index + 1; }
      index := SkipInlineSpace(input, index);
    } else if index < |input| && input[index] == LF {
      index := index + 1;
      index := SkipInlineSpace(input, index);
    }
    if index < |input| && (input[index] == LF || input[index] == CR) { return index, true; }
    return index, false;
  }

  method AssignmentValueEnd(input: Str, valueStart: nat) returns (end: nat)
    requires valueStart < |input|
    ensures end == ValueEnd(input, valueStart)
  {
    var quote := input[valueStart];
    if quote != DOUBLE_QUOTE && quote != SINGLE_QUOTE { return LineEnd(input, valueStart); }
    var limit := if |input| <= valueStart + MAX_QUOTED_VALUE_LENGTH then |input| else valueStart + MAX_QUOTED_VALUE_LENGTH;
    var cursor := valueStart + 1;
    while cursor < limit
      invariant valueStart < cursor <= limit + 1
      invariant cursor <= |input| ==> Backslashes(input, valueStart + 1, cursor) % 2 == 0
      invariant forall b: nat | b < cursor :: !Closes(input, valueStart, b)
    {
      var unit := input[cursor];
      if unit == BACKSLASH {
        EscapeCloses(input, valueStart, cursor);
        cursor := cursor + 2;
        continue;
      }
      if unit == quote {
        assert ClosesFirst(input, valueStart, cursor);
        EndIsUnique(input, valueStart, cursor + 1, ValueEnd(input, valueStart));
        return cursor + 1;
      }
      cursor := cursor + 1;
    }
    assert forall b: nat :: !Closes(input, valueStart, b);
    return LineEnd(input, valueStart);
  }

  /** After a backslash at an unescaped position the next unit is escaped and the one after is not. */
  lemma EscapeCloses(input: Str, start: nat, c: nat)
    requires start < c < |input| && input[c] == BACKSLASH && IsQuote(input[start])
    requires Backslashes(input, start + 1, c) % 2 == 0
    ensures !Closes(input, start, c) && !Closes(input, start, c + 1)
    ensures c + 2 <= |input| ==> Backslashes(input, start + 1, c + 2) % 2 == 0
  {
    if c + 1 <= |input| { assert Backslashes(input, start + 1, c + 1) == 1 + Backslashes(input, start + 1, c); }
  }

  // ---------------------------------------------------------------- collecting findings

  datatype KeyMatch = KeyMatch(index: nat, length: nat, category: Str, severity: Severity)

  datatype Range = Range(start: int, end: int)

  const PRIVATE_KEY: Str := Ascii("private-key")

  /**
   * Everything the patterns report: redaction markers already present, sensitive keys with their separator, literal
   * secrets, unterminated key headers and URLs with credentials.
   */
  datatype Matches = Matches(
    markers: seq<Range>, assignments: seq<KeyMatch>, literals: seq<Finding>, headers: seq<nat>, urls: seq<Finding>)

  function AfterKey(k: KeyMatch): nat { k.index + k.length }

  predicate KeyIn(input: Str, k: KeyMatch) { 0 < k.length && AfterKey(k) <= |input| }

  predicate MatchesOf(input: Str, m: Matches) {
    (forall i | 0 <= i < |m.assignments| :: KeyIn(input, m.assignments[i]))
    && AllInText(m.literals, |input|) && AllInText(m.urls, |input|)
    && forall i | 0 <= i < |m.headers| :: m.headers[i] < |input|
  }

  predicate IsProtected(markers: seq<Range>, f: Finding) {
    exists i :: 0 <= i < |markers| && markers[i].start <= f.start && f.end <= markers[i].end
  }

  /** push, for a range that is not empty. */
  function Pushed(markers: seq<Range>, fs: seq<Finding>, f: Finding): seq<Finding> {
    if IsProtected(markers, f) then fs else fs + [f]
  }

  function Escalated(s: Severity): Severity { if s == Critical then Critical else High }

  predicate Forces(input: Str, k: KeyMatch)
    requires KeyIn(input, k)
  {
    Ambiguous(input, AfterKey(k)) || ValueStart(input, AfterKey(k)) == |input|
  }

  /** What an assignment contributes: the key and all if its value is missing, else the value; markers only, nothing. */
  ghost function Assigned(input: Str, onlyMarkers: set<Range>, k: KeyMatch): Option<Finding>
    requires KeyIn(input, k)
  {
    var start := ValueStart(input, AfterKey(k));
    if Ambiguous(input, AfterKey(k)) then Some(Finding(k.index, start + 1, k.category, Escalated(k.severity)))
    else if start == |input| then Some(Finding(k.index, |input|, k.category, Escalated(k.severity)))
    else
      var end := ValueEnd(input, start);
      if end > |input| || Range(start, end) in onlyMarkers then None else Some(Finding(start, end, k.category, k.severity))
  }

  ghost function FromAssignments(input: Str, onlyMarkers: set<Range>, m: Matches, n: nat): seq<Finding>
    requires MatchesOf(input, m) && n <= |m.assignments|
  {
    if n == 0 then []
    else
      var before := FromAssignments(input, onlyMarkers, m, n - 1);
      match Assigned(input, onlyMarkers, m.assignments[n - 1])
      case None => before
      case Some(f) => Pushed(m.markers, before, f)
  }

  ghost function WithAll(markers: seq<Range>, fs: seq<Finding>, more: seq<Finding>, n: nat): seq<Finding>
    requires n <= |more|
  {
    if n == 0 then fs else Pushed(markers, WithAll(markers, fs, more, n - 1), more[n - 1])
  }

  predicate InKeyBlock(fs: seq<Finding>, at: int) {
    exists i :: 0 <= i < |fs| && fs[i].category == PRIVATE_KEY && fs[i].start <= at < fs[i].end
  }

  function OpenKey(input: Str, at: int): Finding { Finding(at, |input|, PRIVATE_KEY, Critical) }

  /** A header outside every closed key block condemns the rest of the input. */
  ghost function WithHeaders(input: Str, m: Matches, closed: seq<Finding>, n: nat): seq<Finding>
    requires MatchesOf(input, m) && n <= |m.headers|
  {
    if n == 0 then closed
    else
      var before := WithHeaders(input, m, closed, n - 1);
      var at := m.headers[n - 1];
      if InKeyBlock(closed, at) then before
      else Pushed(m.markers, before, OpenKey(input, at))
  }

  ghost function RawFindings(input: Str, onlyMarkers: set<Range>, m: Matches): seq<Finding>
    requires MatchesOf(input, m)
  {
    var fromKeys := FromAssignments(input, onlyMarkers, m, |m.assignments|);
    var closed := WithAll(m.markers, fromKeys, m.literals, |m.literals|);
    WithAll(m.markers, WithHeaders(input, m, closed, |m.headers|), m.urls, |m.urls|)
  }

  /** Some key among the first n has no value, or an ambiguous one. */
  predicate SomeForces(input: Str, m: Matches, n: nat)
    requires MatchesOf(input, m) && n <= |m.assignments|
  {
    n > 0 && (SomeForces(input, m, n - 1) || Forces(input, m.assignments[n - 1]))
  }

  lemma {:induction false} SomeForcesExactly(input: Str, m: Matches, n: nat)
    requires MatchesOf(input, m) && n <= |m.assignments|
    ensures SomeForces(input, m, n) <==> exists i :: 0 <= i < n && Forces(input, m.assignments[i])
  {
    hide Forces, KeyIn;
    if n > 0 { SomeForcesExactly(input, m, n - 1); }
  }

  // ---------------------------------------------------------------- which findings there are

  /** A finding is protected exactly if some existing marker contains it, ends included. */
  lemma ProtectedExactly(markers: seq<Range>, f: Finding)
    ensures IsProtected(markers, f) <==> exists r :: r in markers && r.start <= f.start && f.end <= r.end
  {
    if r :| r in markers && r.start <= f.start && f.end <= r.end {
      var i :| 0 <= i < |markers| && markers[i] == r;
    }
  }

  /** Some sensitive key yields the finding, or a literal pattern reports it, and no redaction marker contains it. */
  ghost predicate FirstRound(input: Str, onlyMarkers: set<Range>, m: Matches, f: Finding)
    requires MatchesOf(input, m)
  {
    !IsProtected(m.markers, f)
    && ((exists i :: 0 <= i < |m.assignments| && Assigned(input, onlyMarkers, m.assignments[i]) == Some(f)) || f in m.literals)
  }

  /** A complete private key found in the first round covers the position. */
  ghost predicate InFoundKey(input: Str, onlyMarkers: set<Range>, m: Matches, at: int)
    requires MatchesOf(input, m)
  {
    exists f :: FirstRound(input, onlyMarkers, m, f) && f.category == PRIVATE_KEY && f.start <= at < f.end
  }

  /** What a sensitive key yields, and how severe: at least high where its value is missing or ambiguous. */
  lemma AssignedExactly(input: Str, onlyMarkers: set<Range>, k: KeyMatch)
    requires KeyIn(input, k)
    ensures var found := Assigned(input, onlyMarkers, k);
      var start := ValueStart(input, AfterKey(k));
      (Forces(input, k) ==>
         found.Some? && found.value.start == k.index && found.value.end == (if start < |input| then start + 1 else |input|)
         && found.value.severity == if k.severity == Critical then Critical else High)
      && (!Forces(input, k) ==>
            (found.None? <==> Range(start, ValueEnd(input, start)) in onlyMarkers)
            && (found.Some? ==> found.value == Finding(start, ValueEnd(input, start), k.category, k.severity)))
      && (found.Some? ==> found.value.category == k.category)
  {
    var start := ValueStart(input, AfterKey(k));
    if start < |input| && !Ambiguous(input, AfterKey(k)) { ValueNotEmpty(input, start); }
  }

  lemma {:induction false} FromAssignmentsHas(input: Str, onlyMarkers: set<Range>, m: Matches, n: nat, f: Finding)
    requires MatchesOf(input, m) && n <= |m.assignments|
    ensures f in FromAssignments(input, onlyMarkers, m, n)
       <==> !IsProtected(m.markers, f) && exists i :: 0 <= i < n && Assigned(input, onlyMarkers, m.assignments[i]) == Some(f)
  {
    hide IsProtected, Assigned;
    if n > 0 { FromAssignmentsHas(input, onlyMarkers, m, n - 1, f); }
  }

  lemma {:induction false} WithAllHas(markers: seq<Range>, fs: seq<Finding>, more: seq<Finding>, n: nat, f: Finding)
    requires n <= |more|
    ensures f in WithAll(markers, fs, more, n) <==> f in fs || (!IsProtected(markers, f) && f in more[..n])
  {
    hide IsProtected;
    if n > 0 {
      WithAllHas(markers, fs, more, n - 1, f);
      assert more[..n] == more[..n - 1] + [more[n - 1]];
    }
  }

  lemma {:induction false} WithHeadersHas(input: Str, m: Matches, closed: seq<Finding>, n: nat, f: Finding)
    requires MatchesOf(input, m) && n <= |m.headers|
    ensures f in WithHeaders(input, m, closed, n)
       <==> f in closed
            || (!IsProtected(m.markers, f)
                && exists i :: 0 <= i < n && f == OpenKey(input, m.headers[i]) && !InKeyBlock(closed, m.headers[i]))
  {
    hide IsProtected, InKeyBlock;
    if n > 0 { WithHeadersHas(input, m, closed, n - 1, f); }
  }

  /**
   * A finding is raised if and only if no marker contains it and it is the value of some sensitive key, a literal or URL
   * match, or the rest of the input from a key header on that no complete private key covers.
   */
  lemma RawFindingsExactly(input: Str, onlyMarkers: set<Range>, m: Matches, f: Finding)
    requires MatchesOf(input, m)
    ensures f in RawFindings(input, onlyMarkers, m)
       <==> FirstRound(input, onlyMarkers, m, f)
            || (!IsProtected(m.markers, f)
                && (f in m.urls
                    || exists i :: 0 <= i < |m.headers| && f == OpenKey(input, m.headers[i])
                         && !InFoundKey(input, onlyMarkers, m, m.headers[i])))
  {
    var fromKeys := FromAssignments(input, onlyMarkers, m, |m.assignments|);
    var closed := WithAll(m.markers, fromKeys, m.literals, |m.literals|);
    var headed := WithHeaders(input, m, closed, |m.headers|);
    assert m.literals[..|m.literals|] == m.literals && m.urls[..|m.urls|] == m.urls;
    forall g ensures g in closed <==> FirstRound(input, onlyMarkers, m, g) {
      FromAssignmentsHas(input, onlyMarkers, m, |m.assignments|, g);
      WithAllHas(m.markers, fromKeys, m.literals, |m.literals|, g);
    }
    forall at: int ensures InKeyBlock(closed, at) <==> InFoundKey(input, onlyMarkers, m, at) {
      hide FirstRound;
      if InFoundKey(input, onlyMarkers, m, at) {
        var g :| FirstRound(input, onlyMarkers, m, g) && g.category == PRIVATE_KEY && g.start <= at < g.end;
        assert g in closed;
      }
    }
    WithHeadersHas(input, m, closed, |m.headers|, f);
    WithAllHas(m.markers, headed, m.urls, |m.urls|, f);
    hide FromAssignments, WithAll, WithHeaders, IsProtected, InKeyBlock, InFoundKey, FirstRound;
  }

  class Collector {
    const markers: seq<Range>
    var findings: seq<Finding>
    var forceDeny: bool
    /** Whether push has ever been handed an empty range. */
    ghost var emptyRange: bool

    constructor (markers: seq<Range>)
      ensures this.markers == markers && findings == [] && !forceDeny && !emptyRange
    {
      this.markers, findings, forceDeny, emptyRange := markers, [], false, false;
    }

    method Push(f: Finding)
      modifies this
      ensures f.start < f.end ==> findings == Pushed(markers, old(findings), f) && forceDeny == old(forceDeny) && emptyRange == old(emptyRange)
      ensures f.end <= f.start ==> findings == old(findings) && forceDeny && emptyRange
    {
      if f.end <= f.start {
        forceDeny := true;
        emptyRange := true;
        return;
      }
      if IsProtected(markers, f) { return; }
      findings := findings + [f];
    }

    method CollectAssignment(input: Str, onlyMarkers: set<Range>, k: KeyMatch)
      requires KeyIn(input, k)
      modifies this
      ensures emptyRange == old(emptyRange)
      ensures forceDeny == (old(forceDeny) || Forces(input, k))
      ensures var found := Assigned(input, onlyMarkers, k);
        findings == if found.Some? then Pushed(markers, old(findings), found.value) else old(findings)
    {
      var index, ambiguous := SkipAssignmentWhitespace(input, AfterKey(k));
      if ambiguous {
        forceDeny := true;
        Push(Finding(k.index, if |input| <= index + 1 then |input| else index + 1, k.category, Escalated(k.severity)));
        return;
      }
      var valueStart := index;
      if valueStart >= |input| {
        forceDeny := true;
        Push(Finding(k.index, if |input| == k.index then AfterKey(k) else |input|, k.category, Escalated(k.severity)));
        return;
      }
      var end := AssignmentValueEnd(input, valueStart);
      ValueNotEmpty(input, valueStart);
      if end <= valueStart {
        assert false;
        return;
      }
      if Range(valueStart, end) in onlyMarkers { return; }
      Push(Finding(valueStart, end, k.category, k.severity));
    }

    method PushAll(more: seq<Finding>, n: nat)
      requires AllInText(more, n)
      modifies this
      ensures emptyRange == old(emptyRange) && forceDeny == old(forceDeny)
      ensures findings == WithAll(markers, old(findings), more, |more|)
    {
      var i := 0;
      while i < |more|
        invariant 0 <= i <= |more|
        invariant emptyRange == old(emptyRange) && forceDeny == old(forceDeny)
        invariant findings == WithAll(markers, old(findings), more, i)
      {
        assert InText(more[i], n);
        Push(more[i]);
        i := i + 1;
      }
    }

    method CollectAssignments(input: Str, onlyMarkers: set<Range>, m: Matches)
      requires MatchesOf(input, m) && markers == m.markers && findings == [] && !forceDeny
      modifies this
      ensures emptyRange == old(emptyRange)
      ensures findings == FromAssignments(input, onlyMarkers, m, |m.assignments|)
      ensures forceDeny <==> SomeForces(input, m, |m.assignments|)
    {
      hide Forces, Assigned, Pushed;
      var i := 0;
      while i < |m.assignments|
        invariant 0 <= i <= |m.assignments| && emptyRange == old(emptyRange)
        invariant findings == FromAssignments(input, onlyMarkers, m, i)
        invariant forceDeny <==> SomeForces(input, m, i)
      {
        MatchAt(input, m, i);
        CollectAssignment(input, onlyMarkers, m.assignments[i]);
        i := i + 1;
      }
    }

    method CollectHeaders(input: Str, m: Matches)
      requires MatchesOf(input, m) && markers == m.markers
      modifies this
      ensures emptyRange == old(emptyRange) && forceDeny == old(forceDeny)
      ensures findings == WithHeaders(input, m, old(findings), |m.headers|)
    {
      var closed := findings;
      var i := 0;
      while i < |m.headers|
        invariant 0 <= i <= |m.headers| && emptyRange == old(emptyRange) && forceDeny == old(forceDeny)
        invariant findings == WithHeaders(input, m, closed, i)
      {
        if !InKeyBlock(closed, m.headers[i]) { Push(OpenKey(input, m.headers[i])); }
        i := i + 1;
      }
    }

    method Collect(input: Str, onlyMarkers: set<Range>, m: Matches) returns (merged: seq<Finding>)
      requires MatchesOf(input, m) && markers == m.markers && findings == [] && !forceDeny && !emptyRange
      modifies this
      ensures Merges(Redaction.Sorted(RawFindings(input, onlyMarkers, m)), merged) && AllInText(merged, |input|)
      ensures forceDeny <==> SomeForces(input, m, |m.assignments|)
      ensures !emptyRange
    {
      CollectAssignments(input, onlyMarkers, m);
      PushAll(m.literals, |input|);
      CollectHeaders(input, m);
      PushAll(m.urls, |input|);
      RawInText(input, onlyMarkers, m);
      hide FromAssignments, WithAll, WithHeaders, SomeForces, AllInText, Proper, Merges, Redaction.Sorted;
      merged := MergeFindings(findings);
      MergedInText(findings, merged, |input|);
    }
  }

  lemma MatchAt(input: Str, m: Matches, i: nat)
    requires MatchesOf(input, m) && i < |m.assignments|
    ensures KeyIn(input, m.assignments[i])
  {
  }

  lemma InTextAt(fs: seq<Finding>, i: nat, n: nat)
    requires AllInText(fs, n) && i < |fs|
    ensures InText(fs[i], n)
  {
  }

  lemma PushedInText(markers: seq<Range>, fs: seq<Finding>, f: Finding, n: nat)
    requires AllInText(fs, n) && InText(f, n)
    ensures AllInText(Pushed(markers, fs, f), n)
  {
    hide IsProtected;
  }

  lemma AssignedInText(input: Str, onlyMarkers: set<Range>, k: KeyMatch)
    requires KeyIn(input, k)
    ensures Assigned(input, onlyMarkers, k).Some? ==> InText(Assigned(input, onlyMarkers, k).value, |input|)
  {
    var start := ValueStart(input, AfterKey(k));
    if start < |input| && !Ambiguous(input, AfterKey(k)) { ValueNotEmpty(input, start); }
  }

  lemma {:induction false} AssignmentsInText(input: Str, onlyMarkers: set<Range>, m: Matches, n: nat)
    requires MatchesOf(input, m) && n <= |m.assignments|
    ensures AllInText(FromAssignments(input, onlyMarkers, m, n), |input|)
  {
    if n > 0 {
      AssignmentsInText(input, onlyMarkers, m, n - 1);
      AssignedInText(input, onlyMarkers, m.assignments[n - 1]);
      var found := Assigned(input, onlyMarkers, m.assignments[n - 1]);
      hide Assigned, Pushed, AllInText, InText;
      if found.Some? { PushedInText(m.markers, FromAssignments(input, onlyMarkers, m, n - 1), found.value, |input|); }
    }
  }

  lemma {:induction false} AllOfThemInText(markers: seq<Range>, fs: seq<Finding>, more: seq<Finding>, n: nat, length: nat)
    requires AllInText(fs, length) && AllInText(more, length) && n <= |more|
    ensures AllInText(WithAll(markers, fs, more, n), length)
  {
    if n > 0 {
      AllOfThemInText(markers, fs, more, n - 1, length);
      assert InText(more[n - 1], length);
      PushedInText(markers, WithAll(markers, fs, more, n - 1), more[n - 1], length);
    }
  }

  lemma {:induction false} HeadersInText(input: Str, m: Matches, closed: seq<Finding>, n: nat)
    requires MatchesOf(input, m) && n <= |m.headers| && AllInText(closed, |input|)
    ensures AllInText(WithHeaders(input, m, closed, n), |input|)
  {
    if n > 0 {
      HeadersInText(input, m, closed, n - 1);
      hide IsProtected, InKeyBlock;
    }
  }

  /** Every finding that is ever pushed is a non-empty range of the input. */
  lemma RawInText(input: Str, onlyMarkers: set<Range>, m: Matches)
    requires MatchesOf(input, m)
    ensures AllInText(RawFindings(input, onlyMarkers, m), |input|) && Proper(RawFindings(input, onlyMarkers, m))
  {
    var n := |input|;
    var fromKeys := FromAssignments(input, onlyMarkers, m, |m.assignments|);
    AssignmentsInText(input, onlyMarkers, m, |m.assignments|);
    AllOfThemInText(m.markers, fromKeys, m.literals, |m.literals|, n);
    var closed := WithAll(m.markers, fromKeys, m.literals, |m.literals|);
    HeadersInText(input, m, closed, |m.headers|);
    var headed := WithHeaders(input, m, closed, |m.headers|);
    AllOfThemInText(m.markers, headed, m.urls, |m.urls|, n);
    var raw := WithAll(m.markers, headed, m.urls, |m.urls|);
    hide FromAssignments, WithAll, WithHeaders;
    assert forall i | 0 <= i < |raw| :: InText(raw[i], n);
  }

  // ---------------------------------------------------------------- the scan

  datatype Report = Report(decision: Decision, findings: seq<Finding>, redacted: Str) | InputTooLarge

  /** Some sensitive key has no value after it, or an ambiguous one. */
  ghost predicate KeyWithoutValue(input: Str, m: Matches)
    requires MatchesOf(input, m)
  {
    exists i :: 0 <= i < |m.assignments| && Forces(input, m.assignments[i])
  }

  /**
   * What a scan reports. It denies for a forced denial or a critical finding, redacts for any other and allows without one; the findings are separate ranges covering the same
   * text; the redacted text is the rest of the input with markers for them; nothing found means nothing changed.
   */
  ghost predicate Reported(input: Str, raw: seq<Finding>, forceDeny: bool, r: Report) {
    r.Report? && (r.decision == Deny <==> forceDeny || exists f :: f in raw && f.severity == Critical)
    && (r.decision == Redact <==> !forceDeny && raw != [] && forall f | f in raw :: f.severity != Critical)
    && (r.decision == Allow <==> !forceDeny && raw == [])
    && Merges(Redaction.Sorted(raw), r.findings) && AllInText(r.findings, |input|)
    && r.redacted == Redacted(input, r.findings, 0, 0)
    && (r.decision == Allow ==> r.findings == [] && r.redacted == input)
  }

  method ScanSensitiveData(input: Str, onlyMarkers: set<Range>, m: Matches) returns (r: Report)
    requires MatchesOf(input, m)
    ensures r == InputTooLarge <==> |input| > MAX_SCAN_INPUT_LENGTH
    ensures r.Report? ==> Reported(input, RawFindings(input, onlyMarkers, m), KeyWithoutValue(input, m), r)
  {
    if |input| > MAX_SCAN_INPUT_LENGTH { return InputTooLarge; }
    if input == [] {
      NothingToScan(onlyMarkers, m);
      return Report(Allow, [], []);
    }
    var collector := new Collector(m.markers);
    var merged := collector.Collect(input, onlyMarkers, m);
    ghost var raw := RawFindings(input, onlyMarkers, m);
    MergeKeepsDecision(raw, merged, collector.forceDeny);
    hide RawFindings, SomeForces, Redaction.Sorted, Proper, AllLed, AllAbsorbed, SameCover, Redacted;
    var redacted := ApplyRedaction(input, merged);
    AllowedUnchanged(input, merged, collector.forceDeny);
    DecidedExactly(raw, collector.forceDeny);
    SomeForcesExactly(input, m, |m.assignments|);
    hide Decide;
    return Report(Decide(merged, collector.forceDeny), merged, redacted);
  }

  lemma AllowedUnchanged(input: Str, merged: seq<Finding>, forceDeny: bool)
    requires Separated(merged) && AllInText(merged, |input|)
    ensures Decide(merged, forceDeny) == Allow ==> merged == [] && Redacted(input, merged, 0, 0) == input
  {
    hide HasCritical;
  }

  lemma HeaderAt(input: Str, m: Matches, i: nat)
    requires MatchesOf(input, m) && i < |m.headers|
    ensures m.headers[i] < |input|
  {
  }

  lemma NoHeaders(m: Matches)
    requires MatchesOf([], m)
    ensures m.headers == []
  {
    if m.headers != [] { HeaderAt([], m, 0); }
  }

  lemma NothingToScan(onlyMarkers: set<Range>, m: Matches)
    requires MatchesOf([], m)
    ensures Reported([], RawFindings([], onlyMarkers, m), KeyWithoutValue([], m), Report(Allow, [], []))
  {
    if m.assignments != [] { MatchAt([], m, 0); }
    if m.literals != [] { InTextAt(m.literals, 0, 0); }
    if m.urls != [] { InTextAt(m.urls, 0, 0); }
    NoHeaders(m);
    assert RawFindings([], onlyMarkers, m) == [];
    NothingMerged();
    assert Redaction.Sorted([]) == [];
  }
}
