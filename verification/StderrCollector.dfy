/** The bounded collector of a child's stderr, and the cutting of its redacted summary to size. */
module StderrCollector {
  import opened JsText

  const MAX_LOOKAHEAD: nat := 4096
  const MARKER: Str := Ascii("[stderr-truncated]")
  const MARKER_LINE: Str := Ascii("\n[stderr-truncated]")
  const REDACTED: Str := Ascii("<redacted>")

  function Joined(chunks: seq<Bytes>): Bytes { if chunks == [] then [] else Joined(chunks[..|chunks| - 1]) + chunks[|chunks| - 1] }

  function Min(a: nat, b: nat): nat { if a <= b then a else b }

  function RetainCap(evidenceCap: nat, lookahead: nat): nat { evidenceCap + Min(lookahead, MAX_LOOKAHEAD) }

  /** Some chunk arrived, possibly empty, when nothing more could be retained. */
  ghost predicate LateChunk(chunks: seq<Bytes>, cap: nat) { exists k :: 0 <= k < |chunks| && |Joined(chunks[..k])| >= cap }

  class Collector {
    const evidenceCap: nat
    const retainCap: nat
    var chunks: seq<Bytes>
    var retainedBytes: nat
    var totalBytesSeen: nat
    var truncated: bool
    /** Everything ever handed to ingest. */
    ghost var arrived: seq<Bytes>

    ghost predicate Valid() reads this {
      Joined(chunks) == Joined(arrived)[..Min(|Joined(arrived)|, retainCap)]
      && retainedBytes == |Joined(chunks)| && totalBytesSeen == |Joined(arrived)|
      && (truncated <==> |Joined(arrived)| > retainCap || LateChunk(arrived, retainCap))
    }

    constructor (evidenceCap: nat, lookahead: nat)
      ensures Valid() && arrived == [] && this.evidenceCap == evidenceCap
        && retainCap == RetainCap(evidenceCap, lookahead)
    {
      this.evidenceCap := evidenceCap;
      retainCap := RetainCap(evidenceCap, lookahead);
      chunks, retainedBytes, totalBytesSeen, truncated, arrived := [], 0, 0, false, [];
    }

    method Ingest(buf: Bytes)
      requires Valid()
      modifies this
      ensures Valid() && arrived == old(arrived) + [buf]
    {
      JoinedAppend(arrived, buf);
      LateAppend(arrived, buf, retainCap);
      RetainMore(Joined(arrived), buf, retainCap);
      hide Joined, LateChunk;
      arrived := arrived + [buf];
      totalBytesSeen := totalBytesSeen + |buf|;
      if retainedBytes >= retainCap {
        truncated := true;
        return;
      }
      var remaining := retainCap - retainedBytes;
      if |buf| <= remaining {
        JoinedAppend(chunks, buf);
        chunks := chunks + [buf];
        retainedBytes := retainedBytes + |buf|;
        return;
      }
      JoinedAppend(chunks, buf[..remaining]);
      chunks := chunks + [buf[..remaining]];
      retainedBytes := retainedBytes + remaining;
      truncated := true;
    }

    method Snapshot() returns (cut: bool, raw: Bytes, total: nat)
      requires Valid()
      ensures total == |Joined(arrived)| && raw == Joined(arrived)[..Min(total, retainCap)]
      ensures cut <==> total > evidenceCap || total > retainCap || LateChunk(arrived, retainCap)
    {
      return truncated || totalBytesSeen > evidenceCap, Joined(chunks), totalBytesSeen;
    }
  }

  lemma RetainMore(seen: Bytes, buf: Bytes, cap: nat)
    ensures (seen + buf)[..Min(|seen + buf|, cap)]
         == if |seen| >= cap then seen[..cap] else if |buf| <= cap - |seen| then seen + buf else seen + buf[..cap - |seen|]
    ensures |seen| <= cap ==> seen[..Min(|seen|, cap)] == seen
  {
  }

  lemma JoinedAppend(chunks: seq<Bytes>, buf: Bytes)
    ensures Joined(chunks + [buf]) == Joined(chunks) + buf
  {
    assert (chunks + [buf])[..|chunks|] == chunks;
  }

  lemma LateAppend(chunks: seq<Bytes>, buf: Bytes, cap: nat)
    ensures LateChunk(chunks + [buf], cap) <==> LateChunk(chunks, cap) || |Joined(chunks)| >= cap
  {
    var all := chunks + [buf];
    assert forall k | 0 <= k < |chunks| :: all[..k] == chunks[..k];
    assert all[..|chunks|] == chunks;
  }

  lemma {:induction false} JoinedGrows(chunks: seq<Bytes>, k: nat)
    requires k <= |chunks|
    ensures |Joined(chunks[..k])| <= |Joined(chunks)|
  {
    if k < |chunks| {
      JoinedGrows(chunks[..|chunks| - 1], k);
      assert chunks[..|chunks| - 1][..k] == chunks[..k];
    } else {
      assert chunks[..k] == chunks;
    }
  }

  /** With room beyond the evidence cap, truncation is reported exactly when more than the cap was seen. */
  lemma TruncationExactly(arrived: seq<Bytes>, evidenceCap: nat, lookahead: nat)
    ensures var total, cap := |Joined(arrived)|, RetainCap(evidenceCap, lookahead);
      (total > evidenceCap || total > cap || LateChunk(arrived, cap)
       <==> total > evidenceCap || (lookahead == 0 && LateChunk(arrived, evidenceCap)))
  {
    var cap := RetainCap(evidenceCap, lookahead);
    if k :| 0 <= k < |arrived| && |Joined(arrived[..k])| >= cap { JoinedGrows(arrived, k); }
    hide Joined;
  }

  /** Without it, an empty chunk after exactly the cap is reported as truncation although nothing was lost. */
  lemma EmptyChunkTruncates(full: Bytes)
    ensures LateChunk([full, []], |full|) && Joined([full, []]) == full
  {
    JoinedAppend([], full);
    JoinedAppend([full], []);
    var none: seq<Bytes> := [];
    var both := [full] + [[]];
    assert none + [full] == [full] && both == [full, []];
    assert Joined(none) == [];
    hide Joined;
    assert [] + full == full && full + [] == full;
    assert both[..1] == [full];
    assert |Joined(both[..1])| >= |full|;
  }

  // ---------------------------------------------------------------- the summary

  function Size(s: Str): nat { |Utf8(s)| }

  /** n rounds of dropping 64 units. */
  function CutBy(s: Str, n: nat): (r: Str)
    ensures r <= s
  {
    if n == 0 then s
    else
      var t := CutBy(s, n - 1);
      t[..if |t| >= 64 then |t| - 64 else 0]
  }

  /** The first cut that fits. */
  ghost predicate FirstFit(s: Str, budget: int, cut: Str) {
    exists n: nat :: cut == CutBy(s, n) && Size(cut) <= budget && forall m: nat | m < n :: Size(CutBy(s, m)) > budget
  }

  method CutToFit(s: Str, budget: nat) returns (cut: Str)
    ensures FirstFit(s, budget, cut)
  {
    cut := s;
    ghost var n := 0;
    while Size(cut) > budget
      invariant cut == CutBy(s, n)
      invariant forall m: nat | m < n :: Size(CutBy(s, m)) > budget
      decreases |cut|
    {
      assert Utf8([]) == [];
      cut := cut[..if |cut| >= 64 then |cut| - 64 else 0];
      n := n + 1;
    }
  }

  /** The loop, once entered, comes to an end exactly when the cap leaves room for the marker. */
  lemma CutEndsExactly(s: Str, evidenceCap: nat)
    ensures (exists n: nat :: Size(CutBy(s, n)) <= evidenceCap - |MARKER_LINE|) <==> evidenceCap >= |MARKER_LINE|
  {
    if evidenceCap >= |MARKER_LINE| {
      CutToNothing(s, |s|);
      assert Utf8([]) == [];
      assert Size(CutBy(s, |s|)) <= evidenceCap - |MARKER_LINE|;
    }
  }

  lemma {:induction false} CutToNothing(s: Str, n: nat)
    ensures |CutBy(s, n)| == if 64 * n <= |s| then |s| - 64 * n else 0
  {
    if n > 0 { CutToNothing(s, n - 1); }
  }

  predicate Contains(s: Str, t: Str) { exists i :: 0 <= i <= |s| - |t| && s[i..][..|t|] == t }

  /** The loops end: the cap has room for the marker, or no loop is entered. */
  predicate Ends(redacted: Str, evidenceCap: nat, truncated: bool) {
    evidenceCap >= |MARKER_LINE| || (Size(redacted) <= evidenceCap && (!truncated || Contains(redacted, MARKER)))
  }

  /** A loop is entered: the text is over the cap, or truncation is still to be marked and the marker does not fit. */
  predicate Cuts(redacted: Str, evidenceCap: nat, truncated: bool) {
    Size(redacted) > evidenceCap || (truncated && !Contains(redacted, MARKER) && Size(redacted) > evidenceCap - 19)
  }

  /** That is exactly when every loop entered comes to an end. */
  lemma EndsExactly(redacted: Str, evidenceCap: nat, truncated: bool)
    ensures Ends(redacted, evidenceCap, truncated)
       <==> (Cuts(redacted, evidenceCap, truncated) ==> exists n: nat :: Size(CutBy(redacted, n)) <= evidenceCap - 19)
  {
    CutEndsExactly(redacted, evidenceCap);
    hide CutBy, Contains, Utf8;
  }

  /** Each round drops 64 units, or all that are left. */
  lemma CutRounds(s: Str, n: nat)
    ensures CutBy(s, n) == s[..if 64 * n <= |s| then |s| - 64 * n else 0]
  {
    CutToNothing(s, n);
  }

  /** The end of redactChildStderrSummary: `redacted` is the text with paths, secrets and noise already replaced. */
  method FitSummary(redacted: Str, evidenceCap: nat, truncated: bool, violations: bool)
    returns (summary: Str, outTruncated: bool)
    requires Ends(redacted, evidenceCap, truncated)
    ensures outTruncated <==> truncated || Size(redacted) > evidenceCap
    ensures violations ==> summary == REDACTED
    ensures Size(summary) <= evidenceCap <==> !violations || evidenceCap >= 10
    ensures !violations && outTruncated ==> Contains(summary, MARKER)
    ensures !violations && !outTruncated ==> summary == redacted
    ensures !violations && summary != redacted ==>
      evidenceCap >= |MARKER_LINE|
      && exists cut: Str :: FirstFit(redacted, evidenceCap - |MARKER_LINE|, cut) && summary == cut + MARKER_LINE
  {
    MarkerSizes();
    hide Utf8, Contains;
    summary := redacted;
    outTruncated := truncated;
    if Size(summary) > evidenceCap {
      var cut := CutToFit(summary, evidenceCap - |MARKER_LINE|);
      MarkedSize(cut);
      summary := cut + MARKER_LINE;
      outTruncated := true;
    } else if outTruncated && !Contains(summary, MARKER) {
      var markerBudget := evidenceCap - |MARKER_LINE|;
      if Size(summary) > markerBudget {
        var cut := CutToFit(summary, markerBudget);
        MarkedSize(cut);
        summary := cut + MARKER_LINE;
      } else {
        NothingToCut(summary, markerBudget);
        MarkedSize(summary);
        summary := summary + MARKER_LINE;
      }
    }
    if violations {
      RedactedSize();
      return REDACTED, outTruncated;
    }
  }

  lemma NothingToCut(s: Str, budget: nat)
    requires Size(s) <= budget
    ensures FirstFit(s, budget, s)
  {
    assert CutBy(s, 0) == s;
  }

  lemma RedactedSize()
    ensures Size(REDACTED) == 10
  {
    Utf8Ascii(REDACTED);
  }

  lemma MarkerSizes()
    ensures Size(MARKER_LINE) == |MARKER_LINE| == 19
  {
    Utf8Ascii(MARKER_LINE);
  }

  lemma MarkerLineStarts()
    ensures |MARKER_LINE| == 19 && MARKER_LINE[0] == 10 && MARKER_LINE[1..] == MARKER
  {
  }

  lemma MarkedSize(cut: Str)
    ensures Size(cut + MARKER_LINE) == Size(cut) + Size(MARKER_LINE) && Contains(cut + MARKER_LINE, MARKER)
  {
    MarkerLineStarts();
    AppendedSize(cut, MARKER_LINE, MARKER);
    hide Utf8, Contains;
  }

  lemma AppendedSize(cut: Str, line: Str, marker: Str)
    requires line != [] && line[0] == 10 && line[1..] == marker
    ensures Size(cut + line) == Size(cut) + Size(line) && Contains(cut + line, marker)
  {
    Utf8Concat(cut, line);
    hide Utf8;
    var s := cut + line;
    assert s[|cut| + 1..][..|marker|] == marker;
  }
}
