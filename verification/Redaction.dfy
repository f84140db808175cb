/** The redaction engine of the sensitive-data scanner: merging findings, redacting them and deciding the sink. */
module Redaction {
  import opened JsText

  datatype Severity = Medium | High | Critical

  datatype Finding = Finding(start: int, end: int, category: Str, severity: Severity)

  datatype Decision = Allow | Redact | Deny

  function Rank(s: Severity): nat { match s case Medium => 1 case High => 2 case Critical => 3 }

  function Marker(category: Str): Str { Ascii("[REDACTED#") + category + Ascii("]") }

  /** A non-empty range of a text of length n. */
  predicate InText(f: Finding, n: nat) { 0 <= f.start < f.end <= n }

  predicate AllInText(fs: seq<Finding>, n: nat) { forall i | 0 <= i < |fs| :: InText(fs[i], n) }

  ghost predicate Covered(fs: seq<Finding>, x: int) { exists i :: 0 <= i < |fs| && fs[i].start <= x < fs[i].end }

  predicate Within(f: Finding, m: Finding) { m.start <= f.start && f.end <= m.end }

  /** Each range ends strictly before the next begins. */
  predicate Separated(ms: seq<Finding>) { forall i, j | 0 <= i < j < |ms| :: ms[i].end < ms[j].start }

  predicate Proper(fs: seq<Finding>) { forall k | 0 <= k < |fs| :: fs[k].start < fs[k].end }

  // ---------------------------------------------------------------- sorting

  /** The comparison function: earlier start first, then the longer range. */
  predicate Precedes(a: Finding, b: Finding) { a.start < b.start || (a.start == b.start && a.end >= b.end) }

  predicate Ordered(fs: seq<Finding>) { forall i, j | 0 <= i < j < |fs| :: Precedes(fs[i], fs[j]) }

  /** Array.prototype.sort, as stable insertion. */
  function Sorted(fs: seq<Finding>): seq<Finding> {
    if fs == [] then [] else Placed(fs[0], Sorted(fs[1..]))
  }

  function Placed(f: Finding, fs: seq<Finding>): seq<Finding> {
    if fs == [] || Precedes(f, fs[0]) then [f] + fs else [fs[0]] + Placed(f, fs[1..])
  }

  lemma {:induction false} PlacedPermutes(f: Finding, fs: seq<Finding>)
    ensures multiset(Placed(f, fs)) == multiset([f] + fs)
  {
    if fs != [] && !Precedes(f, fs[0]) {
      PlacedPermutes(f, fs[1..]);
      assert fs == [fs[0]] + fs[1..];
    }
  }

  lemma {:induction false} SortedPermutes(fs: seq<Finding>)
    ensures multiset(Sorted(fs)) == multiset(fs)
  {
    if fs != [] {
      SortedPermutes(fs[1..]);
      PlacedPermutes(fs[0], Sorted(fs[1..]));
      assert fs == [fs[0]] + fs[1..];
    }
  }

  lemma {:induction false} PlacedOrdered(f: Finding, fs: seq<Finding>)
    requires Ordered(fs)
    ensures Ordered(Placed(f, fs))
  {
    if fs != [] && !Precedes(f, fs[0]) {
      PlacedOrdered(f, fs[1..]);
      PlacedPermutes(f, fs[1..]);
      var rest := Placed(f, fs[1..]);
      forall k | 0 <= k < |rest| ensures Precedes(fs[0], rest[k]) {
        assert rest[k] in multiset(rest) && rest[k] in multiset([f] + fs[1..]);
        assert rest[k] in [f] + fs[1..];
      }
    }
  }

  lemma {:induction false} SortedOrdered(fs: seq<Finding>)
    ensures Ordered(Sorted(fs))
  {
    if fs != [] {
      SortedOrdered(fs[1..]);
      PlacedOrdered(fs[0], Sorted(fs[1..]));
    }
  }

  /** Earlier findings come first, and of those that start together the longer. */
  lemma SortedByStart(fs: seq<Finding>, i: nat, j: nat)
    requires i < j < |Sorted(fs)|
    ensures var a, b := Sorted(fs)[i], Sorted(fs)[j]; a.start < b.start || (a.start == b.start && a.end >= b.end)
  {
    SortedOrdered(fs);
    hide Sorted;
  }

  lemma SeverityOrder()
    ensures Rank(Medium) < Rank(High) < Rank(Critical)
  {
  }

  lemma SameMembers(fs: seq<Finding>, gs: seq<Finding>)
    requires multiset(fs) == multiset(gs)
    ensures forall f :: f in fs <==> f in gs
    ensures forall x :: Covered(fs, x) <==> Covered(gs, x)
  {
    forall f ensures f in fs <==> f in gs { assert f in multiset(fs) <==> f in multiset(gs); }
    forall x | Covered(fs, x) ensures Covered(gs, x) {
      var i :| 0 <= i < |fs| && fs[i].start <= x < fs[i].end;
      assert fs[i] in gs;
    }
    forall x | Covered(gs, x) ensures Covered(fs, x) {
      var i :| 0 <= i < |gs| && gs[i].start <= x < gs[i].end;
      assert gs[i] in fs;
    }
  }

  // ---------------------------------------------------------------- merging

  /** A finding that has gone into one of the merged ones, at no more than its severity. */
  ghost predicate Absorbed(f: Finding, ms: seq<Finding>) {
    exists i :: 0 <= i < |ms| && Within(f, ms[i]) && Rank(f.severity) <= Rank(ms[i].severity)
  }

  /** m speaks for the first of the most severe findings inside it. */
  ghost predicate Led(fs: seq<Finding>, m: Finding) {
    exists k :: 0 <= k < |fs| && LedBy(fs, m, k)
  }

  ghost predicate LedBy(fs: seq<Finding>, m: Finding, k: nat)
    requires k < |fs|
  {
    Within(fs[k], m) && fs[k].category == m.category && fs[k].severity == m.severity
    && forall j | 0 <= j < k && Within(fs[j], m) :: Rank(fs[j].severity) < Rank(m.severity)
  }

  /** ms is what merging the ordered findings fs must yield. */
  ghost predicate Merges(fs: seq<Finding>, ms: seq<Finding>) {
    Separated(ms) && Proper(ms) && AllLed(fs, ms) && AllAbsorbed(fs, ms) && SameCover(fs, ms)
  }

  ghost predicate AllLed(fs: seq<Finding>, ms: seq<Finding>) { forall i | 0 <= i < |ms| :: Led(fs, ms[i]) }
  ghost predicate AllAbsorbed(fs: seq<Finding>, ms: seq<Finding>) { forall k | 0 <= k < |fs| :: Absorbed(fs[k], ms) }
  ghost predicate SameCover(fs: seq<Finding>, ms: seq<Finding>) { forall x :: Covered(ms, x) <==> Covered(fs, x) }

  function Joined(previous: Finding, f: Finding): Finding {
    var dominant := if Rank(f.severity) > Rank(previous.severity) then f else previous;
    Finding(previous.start, if previous.end >= f.end then previous.end else f.end, dominant.category, dominant.severity)
  }

  lemma CoveredAppend(fs: seq<Finding>, f: Finding, x: int)
    ensures Covered(fs + [f], x) <==> Covered(fs, x) || f.start <= x < f.end
  {
    if Covered(fs, x) {
      var i :| 0 <= i < |fs| && fs[i].start <= x < fs[i].end;
      assert (fs + [f])[i] == fs[i];
    }
    if f.start <= x < f.end { assert (fs + [f])[|fs|] == f; }
  }

  lemma LedStays(fs: seq<Finding>, f: Finding, m: Finding)
    requires Led(fs, m)
    ensures Led(fs + [f], m)
  {
    var k :| 0 <= k < |fs| && LedBy(fs, m, k);
    assert LedBy(fs + [f], m, k);
  }

  lemma AbsorbedAt(f: Finding, ms: seq<Finding>, i: nat)
    requires i < |ms| && Within(f, ms[i]) && Rank(f.severity) <= Rank(ms[i].severity)
    ensures Absorbed(f, ms)
  {
  }

  lemma PushLed(fs: seq<Finding>, ms: seq<Finding>, f: Finding)
    requires AllLed(fs, ms) && AllAbsorbed(fs, ms) && f.start < f.end && Proper(fs)
    requires forall i | 0 <= i < |ms| :: ms[i].end < f.start
    ensures AllLed(fs + [f], ms + [f])
  {
    var gs, ns := fs + [f], ms + [f];
    forall j | 0 <= j < |fs| ensures !Within(gs[j], f) { assert Absorbed(fs[j], ms); }
    assert LedBy(gs, f, |fs|);
    hide LedBy, Absorbed;
    forall i | 0 <= i < |ns| ensures Led(gs, ns[i]) {
      if i < |ms| { LedStays(fs, f, ms[i]); }
    }
  }

  lemma PushAbsorbs(fs: seq<Finding>, ms: seq<Finding>, f: Finding)
    requires AllAbsorbed(fs, ms)
    ensures AllAbsorbed(fs + [f], ms + [f])
  {
    var gs, ns := fs + [f], ms + [f];
    forall k | 0 <= k < |gs| ensures Absorbed(gs[k], ns) {
      if k < |fs| {
        assert Absorbed(fs[k], ms);
        var i :| 0 <= i < |ms| && Within(fs[k], ms[i]) && Rank(fs[k].severity) <= Rank(ms[i].severity);
        AbsorbedAt(gs[k], ns, i);
      } else {
        AbsorbedAt(f, ns, |ms|);
      }
    }
  }

  /** A finding that starts beyond the last merged one opens a new one. */
  lemma PushMerges(fs: seq<Finding>, ms: seq<Finding>, f: Finding)
    requires Merges(fs, ms) && f.start < f.end && Proper(fs)
    requires forall i | 0 <= i < |ms| :: ms[i].end < f.start
    ensures Merges(fs + [f], ms + [f])
  {
    hide Covered, AllLed, AllAbsorbed;
    PushLed(fs, ms, f);
    PushAbsorbs(fs, ms, f);
    forall x ensures Covered(ms + [f], x) <==> Covered(fs + [f], x) {
      CoveredAppend(ms, f, x);
      CoveredAppend(fs, f, x);
    }
  }

  /** Nothing inside a widened last range belongs to an earlier one. */
  lemma InsideLast(fs: seq<Finding>, ms: seq<Finding>, j: nat, m: Finding)
    requires Separated(ms) && ms != [] && j < |fs| && fs[j].start < fs[j].end && Absorbed(fs[j], ms)
    requires m.start == ms[|ms| - 1].start && Within(fs[j], m)
    ensures Within(fs[j], ms[|ms| - 1]) && Rank(fs[j].severity) <= Rank(ms[|ms| - 1].severity)
  {
    var i :| 0 <= i < |ms| && Within(fs[j], ms[i]) && Rank(fs[j].severity) <= Rank(ms[i].severity);
    if i < |ms| - 1 { assert ms[i].end < ms[|ms| - 1].start; }
  }

  lemma JoinedLed(fs: seq<Finding>, ms: seq<Finding>, f: Finding)
    requires Separated(ms) && ms != [] && f.start < f.end && Proper(fs)
    requires (forall k | 0 <= k < |fs| :: Absorbed(fs[k], ms)) && Led(fs, ms[|ms| - 1])
    requires ms[|ms| - 1].start <= f.start
    ensures Led(fs + [f], Joined(ms[|ms| - 1], f))
  {
    hide Absorbed, Separated;
    var last := ms[|ms| - 1];
    var m := Joined(last, f);
    var gs := fs + [f];
    if Rank(f.severity) > Rank(last.severity) {
      forall j | 0 <= j < |fs| && Within(gs[j], m) ensures Rank(gs[j].severity) < Rank(m.severity) { InsideLast(fs, ms, j, m); }
      assert LedBy(gs, m, |fs|);
    } else {
      var k :| 0 <= k < |fs| && LedBy(fs, last, k);
      forall j | 0 <= j < k && Within(gs[j], m) ensures Rank(gs[j].severity) < Rank(m.severity) { InsideLast(fs, ms, j, m); }
      assert LedBy(gs, m, k);
    }
  }

  lemma JoinedAbsorbs(fs: seq<Finding>, ms: seq<Finding>, f: Finding)
    requires ms != [] && (forall k | 0 <= k < |fs| :: Absorbed(fs[k], ms)) && ms[|ms| - 1].start <= f.start
    ensures forall k | 0 <= k < |fs + [f]| :: Absorbed((fs + [f])[k], ms[..|ms| - 1] + [Joined(ms[|ms| - 1], f)])
  {
    var gs, ns := fs + [f], ms[..|ms| - 1] + [Joined(ms[|ms| - 1], f)];
    forall k | 0 <= k < |gs| ensures Absorbed(gs[k], ns) {
      if k < |fs| {
        assert Absorbed(fs[k], ms);
        var i :| 0 <= i < |ms| && Within(fs[k], ms[i]) && Rank(fs[k].severity) <= Rank(ms[i].severity);
        AbsorbedAt(gs[k], ns, i);
      } else {
        AbsorbedAt(f, ns, |ms| - 1);
      }
    }
  }

  lemma JoinedCovers(fs: seq<Finding>, ms: seq<Finding>, f: Finding, x: int)
    requires ms != [] && f.start < f.end && ms[|ms| - 1].start <= f.start <= ms[|ms| - 1].end
    requires Covered(ms, x) <==> Covered(fs, x)
    ensures Covered(ms[..|ms| - 1] + [Joined(ms[|ms| - 1], f)], x) <==> Covered(fs + [f], x)
  {
    var init, last := ms[..|ms| - 1], ms[|ms| - 1];
    CoveredAppend(init, Joined(last, f), x);
    CoveredAppend(init, last, x);
    CoveredAppend(fs, f, x);
    assert init + [last] == ms;
    hide Covered;
  }

  lemma JoinedSeparated(ms: seq<Finding>, f: Finding)
    requires Separated(ms) && Proper(ms) && ms != [] && f.start < f.end
    ensures var ns := ms[..|ms| - 1] + [Joined(ms[|ms| - 1], f)]; Separated(ns) && Proper(ns)
  {
    var ns := ms[..|ms| - 1] + [Joined(ms[|ms| - 1], f)];
    forall i, j | 0 <= i < j < |ns| ensures ns[i].end < ns[j].start { assert ms[i].end < ms[j].start; }
    forall k | 0 <= k < |ns| ensures ns[k].start < ns[k].end { assert ms[k].start < ms[k].end; }
  }

  lemma JoinedAllLed(fs: seq<Finding>, ms: seq<Finding>, f: Finding)
    requires Separated(ms) && ms != [] && f.start < f.end && Proper(fs) && AllAbsorbed(fs, ms) && AllLed(fs, ms)
    requires ms[|ms| - 1].start <= f.start
    ensures AllLed(fs + [f], ms[..|ms| - 1] + [Joined(ms[|ms| - 1], f)])
  {
    hide Led, Absorbed, Separated;
    var ns := ms[..|ms| - 1] + [Joined(ms[|ms| - 1], f)];
    forall i | 0 <= i < |ns| ensures Led(fs + [f], ns[i]) {
      if i < |ms| - 1 { LedStays(fs, f, ms[i]); } else { JoinedLed(fs, ms, f); }
    }
  }

  /** A finding that starts inside, or right after, the last merged one widens it. */
  lemma JoinMerges(fs: seq<Finding>, ms: seq<Finding>, f: Finding)
    requires Merges(fs, ms) && ms != [] && f.start < f.end && Proper(fs)
    requires ms[|ms| - 1].start <= f.start <= ms[|ms| - 1].end
    ensures Merges(fs + [f], ms[..|ms| - 1] + [Joined(ms[|ms| - 1], f)])
  {
    var gs, ns := fs + [f], ms[..|ms| - 1] + [Joined(ms[|ms| - 1], f)];
    hide Covered, Led, Absorbed, Separated, Proper, AllLed;
    JoinedSeparated(ms, f);
    JoinedAllLed(fs, ms, f);
    JoinedAbsorbs(fs, ms, f);
    forall x ensures Covered(ns, x) <==> Covered(gs, x) { JoinedCovers(fs, ms, f, x); }
  }

  lemma EndsBefore(fs: seq<Finding>, ms: seq<Finding>)
    requires Merges(fs, ms)
    ensures forall i | 0 <= i < |ms| :: ms[i].end <= ms[|ms| - 1].end
  {
    hide AllLed, AllAbsorbed, SameCover;
  }

  function Added(ms: seq<Finding>, f: Finding): (r: seq<Finding>)
    ensures r != []
  {
    if ms == [] || f.start > ms[|ms| - 1].end then ms + [f] else ms[..|ms| - 1] + [Joined(ms[|ms| - 1], f)]
  }

  lemma AddedMerges(fs: seq<Finding>, ms: seq<Finding>, f: Finding)
    requires Merges(fs, ms) && f.start < f.end && Proper(fs) && (ms != [] ==> ms[|ms| - 1].start <= f.start)
    ensures Merges(fs + [f], Added(ms, f)) && Added(ms, f)[|Added(ms, f)| - 1].start <= f.start
  {
    EndsBefore(fs, ms);
    hide Merges;
    if ms == [] || f.start > ms[|ms| - 1].end { PushMerges(fs, ms, f); } else { JoinMerges(fs, ms, f); }
  }

  lemma NextFinding(fs: seq<Finding>, i: nat)
    requires Ordered(fs) && Proper(fs) && i < |fs|
    ensures Proper(fs[..i]) && fs[i].start < fs[i].end && (i > 0 ==> fs[i - 1].start <= fs[i].start)
    ensures fs[..i + 1] == fs[..i] + [fs[i]]
  {
    if i > 0 { assert Precedes(fs[i - 1], fs[i]); }
  }

  function MergedUpTo(sorted: seq<Finding>, n: nat): seq<Finding>
    requires n <= |sorted|
  {
    if n == 0 then [] else Added(MergedUpTo(sorted, n - 1), sorted[n - 1])
  }

  lemma {:induction false} MergedUpToMerges(sorted: seq<Finding>, n: nat)
    requires Ordered(sorted) && Proper(sorted) && n <= |sorted|
    ensures Merges(sorted[..n], MergedUpTo(sorted, n))
    ensures var ms := MergedUpTo(sorted, n); ms != [] ==> n > 0 && ms[|ms| - 1].start <= sorted[n - 1].start
  {
    hide Merges;
    if n == 0 {
      NothingMerged();
    } else {
      MergedUpToMerges(sorted, n - 1);
      NextFinding(sorted, n - 1);
      hide Ordered, Proper, Added;
      AddedMerges(sorted[..n - 1], MergedUpTo(sorted, n - 1), sorted[n - 1]);
    }
  }

  method MergeFindings(findings: seq<Finding>) returns (merged: seq<Finding>)
    requires Proper(findings)
    ensures Merges(Sorted(findings), merged)
  {
    hide Merges, Sorted, Ordered, Proper;
    var sorted := Sorted(findings);
    SortedOrdered(findings);
    SortedProper(findings);
    merged := [];
    var i := 0;
    while i < |sorted|
      invariant 0 <= i <= |sorted|
      invariant merged == MergedUpTo(sorted, i)
    {
      var finding := sorted[i];
      if merged == [] || finding.start > merged[|merged| - 1].end {
        merged := merged + [finding];
      } else {
        var previous := merged[|merged| - 1];
        merged := merged[..|merged| - 1] + [Joined(previous, finding)];
      }
      i := i + 1;
    }
    MergedUpToMerges(sorted, |sorted|);
    assert sorted[..|sorted|] == sorted;
  }

  lemma NothingMerged()
    ensures Merges([], [])
  {
  }

  lemma SortedProper(fs: seq<Finding>)
    requires Proper(fs)
    ensures Proper(Sorted(fs))
  {
    SortedPermutes(fs);
    SameMembers(fs, Sorted(fs));
    forall k | 0 <= k < |Sorted(fs)| ensures Sorted(fs)[k].start < Sorted(fs)[k].end { assert Sorted(fs)[k] in fs; }
  }

  // ---------------------------------------------------------------- what merging keeps

  lemma CoveredTail(ms: seq<Finding>, x: int)
    requires Separated(ms) && Proper(ms) && ms != []
    ensures Covered(ms[1..], x) <==> Covered(ms, x) && x > ms[0].end
    ensures !Covered(ms, ms[0].end)
  {
    if Covered(ms[1..], x) {
      var i :| 0 <= i < |ms| - 1 && ms[1..][i].start <= x < ms[1..][i].end;
      assert ms[i + 1].start <= x < ms[i + 1].end;
    }
    if Covered(ms, x) && x > ms[0].end {
      var i :| 0 <= i < |ms| && ms[i].start <= x < ms[i].end;
      assert ms[1..][i - 1] == ms[i];
    }
  }

  lemma FirstStart(ms: seq<Finding>, ns: seq<Finding>)
    requires Proper(ms) && Separated(ns) && Proper(ns) && ms != [] && SameCover(ms, ns)
    ensures ns != [] && ns[0].start <= ms[0].start
  {
    assert Covered(ms, ms[0].start);
    var i :| 0 <= i < |ns| && ns[i].start <= ms[0].start < ns[i].end;
    assert i > 0 ==> ns[0].end < ns[i].start;
  }

  lemma FirstRange(ms: seq<Finding>, ns: seq<Finding>)
    requires Separated(ms) && Proper(ms) && Separated(ns) && Proper(ns) && ms != [] && SameCover(ms, ns)
    ensures ns != [] && ns[0].start == ms[0].start && ms[0].end <= ns[0].end
  {
    FirstStart(ms, ns);
    FirstStart(ns, ms);
    CoveredTail(ns, ns[0].end);
    var m := ms[0];
    assert forall x | m.start <= x < m.end :: Covered(ms, x);
  }

  /** The merged ranges depend only on which positions are covered, so not on the order of the detectors. */
  lemma {:induction false} RangesUnique(ms: seq<Finding>, ns: seq<Finding>)
    requires Separated(ms) && Proper(ms) && Separated(ns) && Proper(ns) && SameCover(ms, ns)
    ensures |ms| == |ns| && forall i | 0 <= i < |ms| :: ms[i].start == ns[i].start && ms[i].end == ns[i].end
  {
    if ms == [] {
      if ns != [] { FirstRange(ns, ms); }
    } else {
      FirstRange(ms, ns);
      FirstRange(ns, ms);
      forall x ensures Covered(ns[1..], x) <==> Covered(ms[1..], x) {
        CoveredTail(ms, x);
        CoveredTail(ns, x);
      }
      hide Covered;
      RangesUnique(ms[1..], ns[1..]);
      assert forall i | 0 < i < |ms| :: ms[i] == ms[1..][i - 1] && ns[i] == ns[1..][i - 1];
    }
  }

  /** Two sets of findings that cover the same positions merge to the same ranges. */
  lemma MergedRangesUnique(fs: seq<Finding>, ms: seq<Finding>, gs: seq<Finding>, ns: seq<Finding>)
    requires Merges(Sorted(fs), ms) && Merges(Sorted(gs), ns) && forall x :: Covered(fs, x) <==> Covered(gs, x)
    ensures |ms| == |ns| && forall i | 0 <= i < |ms| :: ms[i].start == ns[i].start && ms[i].end == ns[i].end
  {
    SortedPermutes(fs);
    SortedPermutes(gs);
    SameMembers(fs, Sorted(fs));
    SameMembers(gs, Sorted(gs));
    hide Covered, AllLed, AllAbsorbed, Sorted, Separated, Proper;
    RangesUnique(ms, ns);
  }

  lemma MergedInText(fs: seq<Finding>, ms: seq<Finding>, n: nat)
    requires Merges(Sorted(fs), ms) && AllInText(fs, n)
    ensures AllInText(ms, n)
  {
    SortedPermutes(fs);
    SameMembers(fs, Sorted(fs));
    hide Sorted, AllLed, AllAbsorbed;
    forall i | 0 <= i < |ms| ensures InText(ms[i], n) {
      assert Covered(ms, ms[i].start) && Covered(ms, ms[i].end - 1);
      assert Covered(fs, ms[i].start) && Covered(fs, ms[i].end - 1);
    }
  }

  predicate HasCritical(fs: seq<Finding>) { exists i :: 0 <= i < |fs| && fs[i].severity == Critical }

  function Decide(raw: seq<Finding>, forceDeny: bool): Decision {
    if forceDeny then Deny
    else if raw == [] then Allow
    else if HasCritical(raw) then Deny
    else Redact
  }

  /** When each decision is taken. */
  lemma DecidedExactly(raw: seq<Finding>, forceDeny: bool)
    ensures Decide(raw, forceDeny) == Deny <==> forceDeny || exists f :: f in raw && f.severity == Critical
    ensures Decide(raw, forceDeny) == Redact <==> !forceDeny && raw != [] && forall f | f in raw :: f.severity != Critical
    ensures Decide(raw, forceDeny) == Allow <==> !forceDeny && raw == []
  {
    if f :| f in raw && f.severity == Critical {
      var i :| 0 <= i < |raw| && raw[i] == f;
      assert HasCritical(raw);
    }
  }

  lemma MergeKeepsCritical(gs: seq<Finding>, ms: seq<Finding>)
    requires AllLed(gs, ms) && AllAbsorbed(gs, ms)
    ensures (gs == [] <==> ms == []) && (HasCritical(gs) <==> HasCritical(ms))
  {
    hide Led, Absorbed;
    if ms != [] { LedTells(gs, ms[0]); }
    if gs != [] { AbsorbedTells(gs[0], ms); }
    forall i | 0 <= i < |ms| ensures ms[i].severity == Critical ==> HasCritical(gs) { LedTells(gs, ms[i]); }
    forall k | 0 <= k < |gs| ensures gs[k].severity == Critical ==> HasCritical(ms) { AbsorbedTells(gs[k], ms); }
  }

  lemma LedTells(gs: seq<Finding>, m: Finding)
    requires Led(gs, m)
    ensures gs != [] && (m.severity == Critical ==> HasCritical(gs))
  {
  }

  lemma AbsorbedTells(f: Finding, ms: seq<Finding>)
    requires Absorbed(f, ms)
    ensures ms != [] && (f.severity == Critical ==> HasCritical(ms))
  {
  }

  lemma PermutationKeepsCritical(fs: seq<Finding>, gs: seq<Finding>)
    requires multiset(fs) == multiset(gs)
    ensures (fs == [] <==> gs == []) && (HasCritical(fs) <==> HasCritical(gs))
  {
    assert |multiset(fs)| == |fs| && |multiset(gs)| == |gs|;
    SameMembers(fs, gs);
    hide Covered;
    if HasCritical(fs) {
      var i :| 0 <= i < |fs| && fs[i].severity == Critical;
      assert fs[i] in gs;
    }
    if HasCritical(gs) {
      var i :| 0 <= i < |gs| && gs[i].severity == Critical;
      assert gs[i] in fs;
    }
  }

  /** Merging first or deciding first makes no difference. */
  lemma MergeKeepsDecision(fs: seq<Finding>, ms: seq<Finding>, forceDeny: bool)
    requires Merges(Sorted(fs), ms)
    ensures Decide(ms, forceDeny) == Decide(fs, forceDeny)
  {
    SortedPermutes(fs);
    PermutationKeepsCritical(fs, Sorted(fs));
    MergeKeepsCritical(Sorted(fs), ms);
    hide Sorted, Covered, Separated, Proper, Led, Absorbed;
  }

  // ---------------------------------------------------------------- redacting

  /** The text from `from` on, with each finding from the k-th on replaced by its marker. */
  function Redacted(input: Str, fs: seq<Finding>, k: nat, from: int): Str
    requires Separated(fs) && AllInText(fs, |input|) && k <= |fs|
    requires 0 <= from <= if k < |fs| then fs[k].start else |input|
    decreases |fs| - k
  {
    if k == |fs| then input[from..]
    else
      assert k + 1 < |fs| ==> fs[k].end < fs[k + 1].start;
      input[from..fs[k].start] + Marker(fs[k].category) + Redacted(input, fs, k + 1, fs[k].end)
  }

  lemma RedactedFrom(input: Str, fs: seq<Finding>, k: nat, a: int, b: int)
    requires Separated(fs) && AllInText(fs, |input|) && k <= |fs|
    requires 0 <= a <= b <= if k < |fs| then fs[k].start else |input|
    ensures Redacted(input, fs, k, a) == input[a..b] + Redacted(input, fs, k, b)
  {
    if k < |fs| {
      var rest := Marker(fs[k].category) + Redacted(input, fs, k + 1, fs[k].end);
      assert k + 1 < |fs| ==> fs[k].end < fs[k + 1].start;
      assert input[a..fs[k].start] == input[a..b] + input[b..fs[k].start];
      Associative(input[a..b], input[b..fs[k].start], Marker(fs[k].category));
      Associative(input[a..b], input[b..fs[k].start] + Marker(fs[k].category), Redacted(input, fs, k + 1, fs[k].end));
    }
  }

  /** Back-to-front splicing is the left-to-right replacement. */
  method ApplyRedaction(input: Str, raw: seq<Finding>) returns (redacted: Str)
    requires Separated(raw) && AllInText(raw, |input|)
    ensures redacted == Redacted(input, raw, 0, 0)
  {
    redacted := input;
    var k := |raw|;
    while k > 0
      invariant 0 <= k <= |raw|
      invariant redacted == Redacted(input, raw, k, 0)
    {
      k := k - 1;
      var finding := raw[k];
      assert InText(finding, |input|) && (k + 1 < |raw| ==> finding.end < raw[k + 1].start);
      RedactedFrom(input, raw, k + 1, 0, finding.end);
      hide Marker;
      assert redacted[..finding.start] == input[..finding.start];
      assert redacted[finding.end..] == Redacted(input, raw, k + 1, finding.end);
      redacted := redacted[..finding.start] + Marker(finding.category) + redacted[finding.end..];
    }
  }

  /** Where each part of a redacted text comes from: a position of the input, or a finding. */
  datatype Token = Kept(at: int) | Masked(category: Str)

  function Keeps(from: int, limit: int): seq<Token>
    requires from <= limit
  {
    seq(limit - from, i => Kept(from + i))
  }

  function Tokens(n: nat, fs: seq<Finding>, k: nat, from: int): seq<Token>
    requires Separated(fs) && AllInText(fs, n) && k <= |fs|
    requires 0 <= from <= if k < |fs| then fs[k].start else n
    decreases |fs| - k
  {
    if k == |fs| then Keeps(from, n)
    else
      assert k + 1 < |fs| ==> fs[k].end < fs[k + 1].start;
      Keeps(from, fs[k].start) + [Masked(fs[k].category)] + Tokens(n, fs, k + 1, fs[k].end)
  }

  function TokenText(input: Str, token: Token): Str {
    match token
    case Kept(at) => if 0 <= at < |input| then [input[at]] else []
    case Masked(category) => Marker(category)
  }

  function Render(input: Str, tokens: seq<Token>): Str {
    if tokens == [] then [] else TokenText(input, tokens[0]) + Render(input, tokens[1..])
  }

  function KeptPositions(tokens: seq<Token>): seq<int> {
    if tokens == [] then []
    else if tokens[0].Kept? then [tokens[0].at] + KeptPositions(tokens[1..])
    else KeptPositions(tokens[1..])
  }

  function MaskedCategories(tokens: seq<Token>): seq<Str> {
    if tokens == [] then []
    else if tokens[0].Masked? then [tokens[0].category] + MaskedCategories(tokens[1..])
    else MaskedCategories(tokens[1..])
  }

  lemma {:induction false} RenderConcat(input: Str, a: seq<Token>, b: seq<Token>)
    ensures Render(input, a + b) == Render(input, a) + Render(input, b)
  {
    hide TokenText;
    if a == [] {
      assert a + b == b && Render(input, a) == [];
    } else {
      RenderConcat(input, a[1..], b);
      assert (a + b)[0] == a[0] && (a + b)[1..] == a[1..] + b;
      Associative(TokenText(input, a[0]), Render(input, a[1..]), Render(input, b));
    }
  }

  lemma {:induction false} KeptConcat(a: seq<Token>, b: seq<Token>)
    ensures KeptPositions(a + b) == KeptPositions(a) + KeptPositions(b)
  {
    if a == [] {
      assert a + b == b;
    } else {
      KeptConcat(a[1..], b);
      assert (a + b)[0] == a[0] && (a + b)[1..] == a[1..] + b;
    }
  }

  lemma {:induction false} MaskedConcat(a: seq<Token>, b: seq<Token>)
    ensures MaskedCategories(a + b) == MaskedCategories(a) + MaskedCategories(b)
  {
    if a == [] {
      assert a + b == b;
    } else {
      MaskedConcat(a[1..], b);
      assert (a + b)[0] == a[0] && (a + b)[1..] == a[1..] + b;
    }
  }

  /** Every position from `from` to `to` that no finding covers, in order. */
  ghost function Uncovered(fs: seq<Finding>, from: int, limit: int): seq<int>
    decreases limit - from
  {
    if from >= limit then [] else (if Covered(fs, from) then [] else [from]) + Uncovered(fs, from + 1, limit)
  }

  lemma {:induction false} KeepsAre(input: Str, from: int, limit: int)
    requires 0 <= from <= limit <= |input|
    ensures Render(input, Keeps(from, limit)) == input[from..limit]
    decreases limit - from
  {
    if from < limit {
      KeepsAre(input, from + 1, limit);
      assert Keeps(from, limit)[0] == Kept(from) && Keeps(from, limit)[1..] == Keeps(from + 1, limit);
      assert input[from..limit] == [input[from]] + input[from + 1..limit];
    } else {
      assert Keeps(from, limit) == [] && input[from..limit] == [];
    }
  }

  lemma {:induction false} KeepsMaskNothing(from: int, limit: int)
    requires from <= limit
    ensures MaskedCategories(Keeps(from, limit)) == []
    decreases limit - from
  {
    if from < limit {
      KeepsMaskNothing(from + 1, limit);
      assert Keeps(from, limit)[0] == Kept(from) && Keeps(from, limit)[1..] == Keeps(from + 1, limit);
    }
  }

  lemma {:induction false} KeepsUncovered(fs: seq<Finding>, from: int, limit: int)
    requires from <= limit && forall x | from <= x < limit :: !Covered(fs, x)
    ensures KeptPositions(Keeps(from, limit)) == Uncovered(fs, from, limit)
    decreases limit - from
  {
    if from < limit {
      KeepsUncovered(fs, from + 1, limit);
      assert Keeps(from, limit)[0] == Kept(from) && Keeps(from, limit)[1..] == Keeps(from + 1, limit);
      hide Covered;
    }
  }

  lemma {:induction false} UncoveredSplit(fs: seq<Finding>, from: int, mid: int, limit: int)
    requires from <= mid <= limit
    ensures Uncovered(fs, from, limit) == Uncovered(fs, from, mid) + Uncovered(fs, mid, limit)
    decreases mid - from
  {
    hide Covered;
    if from < mid { UncoveredSplit(fs, from + 1, mid, limit); }
  }

  lemma {:induction false} NothingUncovered(fs: seq<Finding>, from: int, limit: int)
    requires forall x | from <= x < limit :: Covered(fs, x)
    ensures Uncovered(fs, from, limit) == []
    decreases limit - from
  {
    if from < limit {
      hide Covered;
      NothingUncovered(fs, from + 1, limit);
    }
  }

  function CategoriesFrom(fs: seq<Finding>, k: nat): seq<Str>
    requires k <= |fs|
    decreases |fs| - k
  {
    if k == |fs| then [] else [fs[k].category] + CategoriesFrom(fs, k + 1)
  }

  lemma GapUncovered(fs: seq<Finding>, k: nat, x: int)
    requires Separated(fs) && Proper(fs) && k <= |fs| && (k > 0 ==> fs[k - 1].end <= x) && (k < |fs| ==> x < fs[k].start)
    ensures !Covered(fs, x)
  {
    forall i | 0 <= i < |fs| ensures !(fs[i].start <= x < fs[i].end) {
      assert i < k - 1 ==> fs[i].end < fs[k - 1].start;
      assert i > k ==> fs[k].end < fs[i].start;
    }
  }

  ghost predicate Between(n: nat, fs: seq<Finding>, k: nat, from: int) {
    Separated(fs) && AllInText(fs, n) && k <= |fs| && 0 <= from <= (if k < |fs| then fs[k].start else n)
  }

  lemma BetweenNext(n: nat, fs: seq<Finding>, k: nat, from: int)
    requires Between(n, fs, k, from) && k < |fs|
    ensures InText(fs[k], n) && Between(n, fs, k + 1, fs[k].end) && Proper(fs)
    ensures Tokens(n, fs, k, from)
         == Keeps(from, fs[k].start) + [Masked(fs[k].category)] + Tokens(n, fs, k + 1, fs[k].end)
  {
    assert forall i | 0 <= i < |fs| :: InText(fs[i], n);
    assert k + 1 < |fs| ==> fs[k].end < fs[k + 1].start;
  }

  lemma {:induction false} TokensRender(input: Str, fs: seq<Finding>, k: nat, from: int)
    requires Between(|input|, fs, k, from)
    ensures Render(input, Tokens(|input|, fs, k, from)) == Redacted(input, fs, k, from)
    decreases |fs| - k
  {
    KeepsAre(input, from, if k < |fs| then fs[k].start else |input|);
    if k < |fs| {
      BetweenNext(|input|, fs, k, from);
      TokensRender(input, fs, k + 1, fs[k].end);
      var gap, mask, rest := Keeps(from, fs[k].start), [Masked(fs[k].category)], Tokens(|input|, fs, k + 1, fs[k].end);
      hide Tokens, Keeps, Render, Marker;
      RenderConcat(input, gap + mask, rest);
      RenderConcat(input, gap, mask);
      MaskIs(input, fs[k].category);
    }
  }

  lemma {:induction false} TokensKeep(n: nat, fs: seq<Finding>, k: nat, from: int)
    requires Between(n, fs, k, from) && from == if k > 0 then fs[k - 1].end else 0
    ensures KeptPositions(Tokens(n, fs, k, from)) == Uncovered(fs, from, n)
    decreases |fs| - k
  {
    var gapEnd := if k < |fs| then fs[k].start else n;
    assert Proper(fs) by { assert forall i | 0 <= i < |fs| :: InText(fs[i], n); }
    forall x | from <= x < gapEnd ensures !Covered(fs, x) { GapUncovered(fs, k, x); }
    KeepsUncovered(fs, from, gapEnd);
    if k < |fs| {
      BetweenNext(n, fs, k, from);
      TokensKeep(n, fs, k + 1, fs[k].end);
      var gap, mask, rest := Keeps(from, fs[k].start), [Masked(fs[k].category)], Tokens(n, fs, k + 1, fs[k].end);
      FindingCovers(fs, k);
      hide Tokens, Keeps, Uncovered, KeptPositions, Covered, Proper;
      NothingUncovered(fs, fs[k].start, fs[k].end);
      UncoveredSplit(fs, from, fs[k].start, n);
      UncoveredSplit(fs, fs[k].start, fs[k].end, n);
      KeptConcat(gap + mask, rest);
      KeptConcat(gap, mask);
      MaskIs([], fs[k].category);
      assert Uncovered(fs, from, fs[k].start) + [] == Uncovered(fs, from, fs[k].start);
      assert [] + Uncovered(fs, fs[k].end, n) == Uncovered(fs, fs[k].end, n);
    }
  }

  lemma FindingCovers(fs: seq<Finding>, k: nat)
    requires k < |fs|
    ensures forall x | fs[k].start <= x < fs[k].end :: Covered(fs, x)
  {
  }

  lemma {:induction false} TokensMask(n: nat, fs: seq<Finding>, k: nat, from: int)
    requires Between(n, fs, k, from)
    ensures MaskedCategories(Tokens(n, fs, k, from)) == CategoriesFrom(fs, k)
    decreases |fs| - k
  {
    KeepsMaskNothing(from, if k < |fs| then fs[k].start else n);
    if k < |fs| {
      BetweenNext(n, fs, k, from);
      TokensMask(n, fs, k + 1, fs[k].end);
      var gap, mask, rest := Keeps(from, fs[k].start), [Masked(fs[k].category)], Tokens(n, fs, k + 1, fs[k].end);
      hide Tokens, Keeps, MaskedCategories;
      MaskedConcat(gap + mask, rest);
      MaskedConcat(gap, mask);
      MaskIs([], fs[k].category);
    }
  }

  lemma MaskIs(input: Str, category: Str)
    ensures Render(input, [Masked(category)]) == Marker(category)
    ensures KeptPositions([Masked(category)]) == [] && MaskedCategories([Masked(category)]) == [category]
  {
    var one := [Masked(category)];
    assert one[1..] == [];
    assert Render(input, one) == Marker(category) + Render(input, one[1..]);
    assert Marker(category) + [] == Marker(category);
    assert MaskedCategories(one) == [category] + MaskedCategories(one[1..]);
  }

  /**
   * The redacted text is the input's uncovered positions, all of them and in order, with one marker per merged finding;
   * no covered position is copied.
   */
  lemma RedactionIsExact(input: Str, fs: seq<Finding>)
    requires Separated(fs) && AllInText(fs, |input|)
    ensures exists tokens: seq<Token> ::
      Render(input, tokens) == Redacted(input, fs, 0, 0)
      && KeptPositions(tokens) == Uncovered(fs, 0, |input|) && MaskedCategories(tokens) == CategoriesFrom(fs, 0)
  {
    assert fs != [] ==> InText(fs[0], |input|);
    TokensRender(input, fs, 0, 0);
    TokensKeep(|input|, fs, 0, 0);
    TokensMask(|input|, fs, 0, 0);
    var tokens := Tokens(|input|, fs, 0, 0);
    assert Render(input, tokens) == Redacted(input, fs, 0, 0);
  }
}
