/** assertCorrelatedEventSequence: greedy matching of expected events against the messages of one correlation. */
module EventSequence {
  import opened JsText

  datatype Correlation = Correlation(runId: Str, role: Str)

  datatype Message = Message(correlation: Correlation, event: Str)

  predicate Matches(m: Message, c: Correlation, event: Str) { m.event == event && m.correlation == c }

  /** Positions that show the events to be a subsequence of the correlated messages. */
  predicate Embeds(messages: seq<Message>, c: Correlation, events: seq<Str>, at: seq<nat>) {
    |at| == |events|
    && (forall i | 0 <= i < |at| :: at[i] < |messages| && messages[at[i]] == Message(c, events[i]))
    && forall i, j | 0 <= i < j < |at| :: at[i] < at[j]
  }

  ghost predicate IsSubsequence(messages: seq<Message>, c: Correlation, events: seq<Str>) {
    exists at: seq<nat> :: Embeds(messages, c, events, at)
  }

  /** Array.prototype.findIndex from a position on: the first match, or the length. */
  function FirstMatch(messages: seq<Message>, c: Correlation, event: Str, from: nat): (k: nat)
    requires from <= |messages|
    ensures from <= k <= |messages| && (k < |messages| ==> Matches(messages[k], c, event))
    ensures forall i | from <= i < k :: !Matches(messages[i], c, event)
    decreases |messages| - from
  {
    if from == |messages| || Matches(messages[from], c, event) then from else FirstMatch(messages, c, event, from + 1)
  }

  /** Greedy positions are the earliest: no embedding of the first events gets by with less of the messages. */
  ghost predicate Earliest(messages: seq<Message>, c: Correlation, events: seq<Str>, at: seq<nat>) {
    Embeds(messages, c, events, at)
    && forall other: seq<nat> | Embeds(messages, c, events, other) && at != [] :: at[|at| - 1] <= other[|other| - 1]
  }

  lemma EmbedsPrefix(messages: seq<Message>, c: Correlation, events: seq<Str>, at: seq<nat>, n: nat)
    requires Embeds(messages, c, events, at) && n <= |events|
    ensures Embeds(messages, c, events[..n], at[..n])
  {
  }

  /** The first match after the earliest positions extends them, and nothing extends them if there is none. */
  lemma EarliestExtends(messages: seq<Message>, c: Correlation, events: seq<Str>, event: Str, at: seq<nat>)
    requires Earliest(messages, c, events, at)
    ensures var from := if at == [] then 0 else at[|at| - 1] + 1;
      from <= |messages|
      && (var k := FirstMatch(messages, c, event, from);
          (k < |messages| ==> Earliest(messages, c, events + [event], at + [k]))
          && (k == |messages| ==> !IsSubsequence(messages, c, events + [event])))
  {
    var from := if at == [] then 0 else at[|at| - 1] + 1;
    var all := events + [event];
    assert at != [] ==> at[|at| - 1] < |messages|;
    var k := FirstMatch(messages, c, event, from);
    forall other: seq<nat> | Embeds(messages, c, all, other) ensures k <= other[|other| - 1] < |messages| {
      EmbedsPrefix(messages, c, all, other, |events|);
      assert all[..|events|] == events;
      var last := other[|other| - 1];
      assert Matches(messages[last], c, all[|events|]);
      if at != [] {
        assert at[|at| - 1] <= other[..|events|][|events| - 1];
        assert other[|events| - 1] < last;
      }
      assert from <= last;
    }
  }

  method AssertCorrelatedEventSequence(messages: seq<Message>, c: Correlation, events: seq<Str>) returns (pass: bool)
    ensures pass <==> IsSubsequence(messages, c, events)
  {
    var searchFrom: nat := 0;
    ghost var at: seq<nat> := [];
    var i := 0;
    while i < |events|
      invariant 0 <= i <= |events|
      invariant Earliest(messages, c, events[..i], at)
      invariant searchFrom == (if at == [] then 0 else at[|at| - 1] + 1) <= |messages|
    {
      var event := events[i];
      assert events[..i + 1] == events[..i] + [event];
      EarliestExtends(messages, c, events[..i], event, at);
      hide Earliest, Matches;
      var index := FirstMatch(messages, c, event, searchFrom);
      if index == |messages| {
        SubsequencePrefix(messages, c, events, i + 1);
        return false;
      }
      searchFrom := index + 1;
      at := at + [index];
      i := i + 1;
    }
    assert events[..|events|] == events;
    return true;
  }

  lemma SubsequencePrefix(messages: seq<Message>, c: Correlation, events: seq<Str>, n: nat)
    requires n <= |events|
    ensures IsSubsequence(messages, c, events) ==> IsSubsequence(messages, c, events[..n])
  {
    if IsSubsequence(messages, c, events) {
      var at: seq<nat> :| Embeds(messages, c, events, at);
      EmbedsPrefix(messages, c, events, at, n);
    }
  }
}
