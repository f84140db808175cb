/** filesystem-detection: reading /proc/mounts and finding the filesystem a path is on. */
module MountDetection {
  import opened JsText
  import opened JsSplit
  import opened PathNormalization
  import opened Options

  const BACKSLASH: Unit := 92
  const BLANK: Unit := 32
  const LF: Unit := 10

  // ---------------------------------------------------------------- octal escapes

  predicate IsOctal(c: Unit) { 48 <= c <= 55 }

  predicate StartsEscape(s: Str) { |s| >= 4 && s[0] == BACKSLASH && IsOctal(s[1]) && IsOctal(s[2]) && IsOctal(s[3]) }

  function Octal(a: Unit, b: Unit, c: Unit): (u: Unit)
    requires IsOctal(a) && IsOctal(b) && IsOctal(c)
  {
    (a - 48) * 64 + (b - 48) * 8 + (c - 48)
  }

  function Unescaped(s: Str): Str
    decreases |s|
  {
    if s == [] then []
    else if StartsEscape(s) then [Octal(s[1], s[2], s[3])] + Unescaped(s[4..])
    else [s[0]] + Unescaped(s[1..])
  }

  lemma UnescapedStep(s: Str)
    requires s != []
    ensures Unescaped(s)
         == if StartsEscape(s) then [Octal(s[1], s[2], s[3])] + Unescaped(s[4..]) else [s[0]] + Unescaped(s[1..])
  {
    hide Octal;
  }

  /** Three octal digits: 0 to 7 each. */
  predicate StartsOctal(s: Str) { |s| >= 3 && 48 <= s[0] <= 55 && 48 <= s[1] <= 55 && 48 <= s[2] <= 55 }

  /** A backslash and three octal digits stand for one unit. */
  lemma EscapeUnescaped(rest: Str)
    requires StartsOctal(rest)
    ensures Unescaped([92] + rest) == [(rest[0] - 48) * 64 + (rest[1] - 48) * 8 + (rest[2] - 48)] + Unescaped(rest[3..])
  {
    var s := [92] + rest;
    assert s[1] == rest[0] && s[2] == rest[1] && s[3] == rest[2] && s[4..] == rest[3..];
    UnescapedStep(s);
    hide Unescaped;
  }

  /** A backslash without them stands for itself, and any other unit always does. */
  lemma PlainUnescaped(c: Unit, rest: Str)
    requires c != 92 || !StartsOctal(rest)
    ensures Unescaped([c] + rest) == [c] + Unescaped(rest)
  {
    var s := [c] + rest;
    assert s[1..] == rest && (|rest| >= 3 ==> s[1] == rest[0] && s[2] == rest[1] && s[3] == rest[2]);
    UnescapedStep(s);
    hide Unescaped;
  }

  method UnescapeProcMountsPath(encoded: Str) returns (r: Option<Str>)
    ensures r == if encoded == [] then None else Some(Unescaped(encoded))
  {
    if |encoded| == 0 { return None; }
    var result: Str := [];
    var index := 0;
    while index < |encoded|
      invariant 0 <= index <= |encoded|
      invariant result + Unescaped(encoded[index..]) == Unescaped(encoded)
      decreases |encoded| - index
    {
      ghost var rest, before := encoded[index..], result;
      var ch := encoded[index];
      if ch == BACKSLASH && index + 3 < |encoded| {
        var digits := encoded[index + 1..index + 4];
        if IsOctal(digits[0]) && IsOctal(digits[1]) && IsOctal(digits[2]) {
          assert StartsEscape(rest) && rest[4..] == encoded[index + 4..];
          result := result + [Octal(digits[0], digits[1], digits[2])];
          index := index + 4;
          Associative(before, [Octal(digits[0], digits[1], digits[2])], Unescaped(encoded[index..]));
          continue;
        }
      }
      assert !StartsEscape(rest) && rest[1..] == encoded[index + 1..];
      result := result + [ch];
      index := index + 1;
      Associative(before, [ch], Unescaped(encoded[index..]));
    }
    assert result + [] == result;
    return Some(result);
  }

  /** The kernel escapes space, tab, line feed and backslash in a mount point. */
  function EscapedUnit(c: Unit): Str {
    if c == 32 then Ascii("\\040") else if c == 9 then Ascii("\\011") else if c == 10 then Ascii("\\012")
    else if c == 92 then Ascii("\\134") else [c]
  }

  function Escaped(s: Str): Str { if s == [] then [] else EscapedUnit(s[0]) + Escaped(s[1..]) }

  lemma {:induction false} UnescapeEscape(s: Str)
    ensures Unescaped(Escaped(s)) == s
  {
    if s != [] {
      UnescapeEscape(s[1..]);
      OneUnit(s[0], Escaped(s[1..]));
    }
  }

  lemma OneUnit(c: Unit, rest: Str)
    ensures Unescaped(EscapedUnit(c) + rest) == [c] + Unescaped(rest)
  {
    var e := EscapedUnit(c);
    var s := e + rest;
    assert s[..|e|] == e && s[|e|..] == rest;
    if |e| == 4 {
      assert s[0] == e[0] && s[1] == e[1] && s[2] == e[2] && s[3] == e[3];
      EscapeIs(c);
    } else {
      assert s[0] == c && !StartsEscape(s);
    }
  }

  lemma EscapeIs(c: Unit)
    requires |EscapedUnit(c)| == 4
    ensures var e := EscapedUnit(c); StartsEscape(e) && Octal(e[1], e[2], e[3]) == c
  {
  }

  lemma {:induction false} EscapedHasNoBlank(s: Str)
    ensures forall i | 0 <= i < |Escaped(s)| :: Escaped(s)[i] != 32 && Escaped(s)[i] != 9 && Escaped(s)[i] != 10
  {
    if s != [] { EscapedHasNoBlank(s[1..]); }
  }

  // ---------------------------------------------------------------- mount points

  function WithoutTrailing(s: Str): (r: Str)
    ensures r <= s
  {
    if s != [] && s[|s| - 1] == SLASH then WithoutTrailing(s[..|s| - 1]) else s
  }

  function MountPoint(s: Str): Option<Str> {
    if s == [] || s[0] != SLASH then None
    else if s == ROOT then Some(ROOT)
    else if WithoutTrailing(s) == [] then Some(ROOT)
    else Some(WithoutTrailing(s))
  }

  /** The root, or an absolute path that does not end in a slash. */
  predicate IsMountPoint(m: Str) { m != [] && m[0] == SLASH && (m == ROOT || m[|m| - 1] != SLASH) }

  lemma {:induction false} WithoutTrailingIs(s: Str)
    ensures var r := WithoutTrailing(s); r == [] || r[|r| - 1] != SLASH
    ensures s != [] && s[|s| - 1] != SLASH ==> WithoutTrailing(s) == s
    ensures forall i | |WithoutTrailing(s)| <= i < |s| :: s[i] == SLASH
  {
    if s != [] && s[|s| - 1] == SLASH { WithoutTrailingIs(s[..|s| - 1]); }
  }

  /** Mount points come out in normal form, and stay as they are the second time. */
  lemma MountPointIs(s: Str)
    ensures MountPoint(s).Some? ==> IsMountPoint(MountPoint(s).value)
    ensures IsMountPoint(s) ==> MountPoint(s) == Some(s)
  {
    WithoutTrailingIs(s);
  }

  function Within(candidate: Str, mount: Str): bool {
    if candidate == [] || mount == [] || candidate[0] != SLASH then false
    else match MountPoint(mount)
      case None => false
      case Some(m) => m == ROOT || candidate == m || m + ROOT <= candidate
  }

  /** Nothing is on a mount that is not absolute, and no relative path is on any. */
  lemma OnlyAbsolute(candidate: Str, mount: Str)
    requires Within(candidate, mount)
    ensures candidate != [] && mount != [] && candidate[0] == mount[0] == 47
  {
    hide WithoutTrailing;
  }

  /** The components below the root. */
  function Components(path: Str): seq<Str> { if path == ROOT then [] else Split(path, SLASH)[1..] }

  lemma {:induction false} SplitAround(a: Str, b: Str)
    ensures Split(a + ROOT + b, SLASH) == Split(a, SLASH) + Split(b, SLASH)
    decreases |a|
  {
    hide Split, IndexOf;
    var i := IndexOf(a, SLASH);
    if i == |a| {
      assert a[..i] == a;
      SplitWhole(a, SLASH);
      SplitFirst(a, SLASH, b);
    } else {
      var first, more := a[..i], a[i + 1..];
      assert a == first + ROOT + more;
      assert a + ROOT + b == first + ROOT + (more + ROOT + b);
      SplitFirst(first, SLASH, more);
      SplitFirst(first, SLASH, more + ROOT + b);
      SplitAround(more, b);
      Associative([first], Split(more, SLASH), Split(b, SLASH));
    }
  }

  lemma {:induction false} JoinAround(p: seq<Str>, q: seq<Str>)
    requires p != [] && q != []
    ensures Join(p + q, SLASH) == Join(p, SLASH) + ROOT + Join(q, SLASH)
  {
    assert (p + q)[0] == p[0] && (p + q)[1..] == p[1..] + q;
    if |p| == 1 {
      assert p[1..] + q == q;
    } else {
      JoinAround(p[1..], q);
      Associative(p[0] + ROOT, Join(p[1..], SLASH), ROOT + Join(q, SLASH));
      Associative(p[0] + ROOT + Join(p[1..], SLASH), ROOT, Join(q, SLASH));
      Associative(Join(p[1..], SLASH), ROOT, Join(q, SLASH));
    }
  }

  lemma {:induction false} FirstComponentEmpty(s: Str)
    requires s != [] && s[0] == SLASH
    ensures Split(s, SLASH)[0] == [] && |Split(s, SLASH)| >= 2
  {
    assert IndexOf(s, SLASH) == 0;
    assert s[..0] == [];
  }

  /** A path is on a mount exactly when the mount's components begin the path's. */
  lemma WithinIsComponentPrefix(candidate: Str, mount: Str)
    requires candidate != [] && candidate[0] == SLASH && IsMountPoint(mount)
    ensures Within(candidate, mount) <==> Components(mount) <= Split(candidate, SLASH)[1..]
  {
    MountPointIs(mount);
    if mount != ROOT {
      var p, q := Split(mount, SLASH), Split(candidate, SLASH);
      FirstComponentEmpty(mount);
      FirstComponentEmpty(candidate);
      hide Split, MountPoint;
      assert p[1..] <= q[1..] <==> p <= q by {
        assert p == [p[0]] + p[1..] && q == [q[0]] + q[1..];
      }
      if mount + ROOT <= candidate {
        var rest := candidate[|mount| + 1..];
        assert candidate == mount + ROOT + rest;
        SplitAround(mount, rest);
      }
      if p <= q { PrefixWithin(candidate, mount); }
    }
  }

  lemma PrefixWithin(candidate: Str, mount: Str)
    requires Split(mount, SLASH) <= Split(candidate, SLASH)
    ensures candidate == mount || mount + ROOT <= candidate
  {
    var p, q := Split(mount, SLASH), Split(candidate, SLASH);
    JoinSplit(mount, SLASH);
    JoinSplit(candidate, SLASH);
    if p != q {
      assert q == p + q[|p|..];
      JoinAround(p, q[|p|..]);
    }
  }

  /** Of two mounts a path is on, the shorter one contains the longer; of equal length, they are the same. */
  lemma MountsNest(candidate: Str, m: Str, n: Str)
    requires IsMountPoint(m) && IsMountPoint(n) && Within(candidate, m) && Within(candidate, n) && |m| <= |n|
    ensures Within(n, m) && (|m| == |n| ==> m == n)
  {
    MountPointIs(m);
    MountPointIs(n);
    hide WithoutTrailing, MountPoint;
    assert m <= candidate && n <= candidate by {
      assert m == ROOT ==> m <= candidate;
      assert n == ROOT ==> n <= candidate;
    }
    assert m == candidate[..|m|] && n == candidate[..|n|];
    assert m == n[..|m|];
    if m != ROOT && |m| < |n| { assert candidate[|m|] == SLASH && n[|m|] == SLASH; }
  }

  // ---------------------------------------------------------------- /proc/mounts

  datatype Entry = Entry(mountPoint: Str, kind: Str)

  function ParsedLine(line: Str): Option<Entry> {
    var parts := Split(Trim(line), BLANK);
    if Trim(line) == [] || |parts| < 3 || parts[1] == [] then None
    else match MountPoint(Unescaped(parts[1]))
      case None => None
      case Some(m) => Some(Entry(m, parts[2]))
  }

  /** A line is skipped exactly when it has fewer than three fields or its second field, unescaped, is no absolute path. */
  lemma LineSkippedExactly(line: Str)
    ensures var parts := Split(Trim(line), BLANK);
      ParsedLine(line).None? <==> |parts| < 3 || Unescaped(parts[1]) == [] || Unescaped(parts[1])[0] != 47
  {
    if Trim(line) == [] { SplitWhole([], BLANK); }
    hide Trim, Split, WithoutTrailing;
  }

  function ParsedLines(lines: seq<Str>): seq<Entry> {
    if lines == [] then []
    else
      var before := ParsedLines(lines[..|lines| - 1]);
      match ParsedLine(lines[|lines| - 1])
      case None => before
      case Some(e) => before + [e]
  }

  method ParseProcMounts(content: Str) returns (entries: seq<Entry>)
    ensures entries == ParsedLines(Split(content, LF))
  {
    entries := [];
    var lines := Split(content, LF);
    var i := 0;
    while i < |lines|
      invariant 0 <= i <= |lines| && entries == ParsedLines(lines[..i])
    {
      var line := lines[i];
      hide Split, Trim, Unescaped, MountPoint;
      assert lines[..i + 1][..i] == lines[..i];
      i := i + 1;
      var trimmed := Trim(line);
      if |trimmed| == 0 { continue; }
      var parts := Split(trimmed, BLANK);
      if |parts| < 3 { continue; }
      var unescaped := UnescapeProcMountsPath(parts[1]);
      if unescaped.None? { continue; }
      var mountPoint := MountPoint(unescaped.value);
      if mountPoint.None? { continue; }
      entries := entries + [Entry(mountPoint.value, parts[2])];
    }
    assert lines[..|lines|] == lines;
  }

  lemma {:induction false} ParsedMountPoints(lines: seq<Str>)
    ensures forall i | 0 <= i < |ParsedLines(lines)| :: IsMountPoint(ParsedLines(lines)[i].mountPoint)
  {
    if lines != [] {
      ParsedMountPoints(lines[..|lines| - 1]);
      var trimmed := Trim(lines[|lines| - 1]);
      var parts := Split(trimmed, BLANK);
      if |parts| >= 3 { MountPointIs(Unescaped(parts[1])); }
      hide MountPoint, IsMountPoint, Split, Trim, Unescaped;
    }
  }

  /** A word: something with no white space in it. */
  predicate IsWord(s: Str) { s != [] && forall i | 0 <= i < |s| :: !IsSpace(s[i]) }

  /** The further fields of a line, each after a blank: options and two numbers in a real table. */
  function Further(fields: seq<Str>): Str { if fields == [] then [] else [BLANK] + fields[0] + Further(fields[1..]) }

  predicate AllWords(fields: seq<Str>) { forall i | 0 <= i < |fields| :: IsWord(fields[i]) }

  function Line(device: Str, e: Entry, fields: seq<Str>): Str {
    device + [BLANK] + Escaped(e.mountPoint) + [BLANK] + e.kind + Further(fields)
  }

  lemma {:induction false} FurtherIs(kind: Str, fields: seq<Str>)
    requires IsWord(kind) && AllWords(fields)
    ensures var s := kind + Further(fields); s != [] && !IsSpace(s[|s| - 1]) && Split(s, BLANK)[0] == kind && LF !in s
    decreases |fields|
  {
    var s := kind + Further(fields);
    assert BLANK !in kind && LF !in kind;
    if fields == [] {
      assert s == kind;
      SplitWhole(kind, BLANK);
    } else {
      var rest := fields[0] + Further(fields[1..]);
      assert IsWord(fields[0]);
      FurtherIs(fields[0], fields[1..]);
      hide IsWord, IsSpace, Split;
      assert s == kind + [BLANK] + rest && s[|s| - 1] == rest[|rest| - 1];
      SplitFirst(kind, BLANK, rest);
    }
  }

  /** A line written with the kernel's escapes reads back as the entry it was written for, whatever fields follow. */
  lemma LineRoundTrip(device: Str, e: Entry, fields: seq<Str>)
    requires IsWord(device) && IsWord(e.kind) && IsMountPoint(e.mountPoint) && AllWords(fields)
    ensures ParsedLine(Line(device, e, fields)) == Some(e)
  {
    var middle, end := Escaped(e.mountPoint), e.kind + Further(fields);
    EscapedHasNoBlank(e.mountPoint);
    UnescapeEscape(e.mountPoint);
    MountPointIs(e.mountPoint);
    FurtherIs(e.kind, fields);
    assert middle != [] && BLANK !in device && BLANK !in middle && !IsSpace(device[0]);
    hide Escaped, MountPoint, Unescaped, Further, IsMountPoint, IsSpace, IsWord, Trim, Split, AllWords;
    assert Line(device, e, fields) == device + [BLANK] + middle + [BLANK] + end;
    WordsInOrder(device, middle, end);
  }

  lemma WordsInOrder(a: Str, b: Str, rest: Str)
    requires a != [] && b != [] && rest != [] && BLANK !in a && BLANK !in b && !IsSpace(a[0]) && !IsSpace(rest[|rest| - 1])
    ensures var s := a + [BLANK] + b + [BLANK] + rest;
      Trim(s) == s != [] && Split(s, BLANK) == [a, b] + Split(rest, BLANK)
  {
    hide IsSpace, Trim, Split;
    var s := a + [BLANK] + b + [BLANK] + rest;
    Associative(a + [BLANK], b, [BLANK]);
    Associative(a + [BLANK], b + [BLANK], rest);
    SplitFirst(a, BLANK, b + [BLANK] + rest);
    SplitFirst(b, BLANK, rest);
    Associative([a], [b], Split(rest, BLANK));
    BothEnds(a, [BLANK] + b + [BLANK], rest);
    Associative(a, [BLANK], b);
    Associative(a, [BLANK] + b, [BLANK]);
    NothingToTrim(s);
  }

  lemma BothEnds(a: Str, middle: Str, rest: Str)
    requires a != [] && rest != []
    ensures (a + middle + rest)[0] == a[0] && (a + middle + rest)[|a + middle + rest| - 1] == rest[|rest| - 1]
  {
  }

  /** A row of a mount table. */
  datatype Row = Row(device: Str, entry: Entry, fields: seq<Str>)

  predicate GoodRow(r: Row) {
    IsWord(r.device) && IsWord(r.entry.kind) && IsMountPoint(r.entry.mountPoint) && AllWords(r.fields)
  }

  function Table(rows: seq<Row>): seq<Str> {
    seq(|rows|, i requires 0 <= i < |rows| => Line(rows[i].device, rows[i].entry, rows[i].fields))
  }

  function Entries(rows: seq<Row>): seq<Entry> { seq(|rows|, i requires 0 <= i < |rows| => rows[i].entry) }

  lemma {:induction false} LinesRoundTrip(rows: seq<Row>)
    requires forall i | 0 <= i < |rows| :: GoodRow(rows[i])
    ensures ParsedLines(Table(rows)) == Entries(rows)
  {
    hide ParsedLine, Line, IsWord, IsMountPoint, AllWords;
    if rows != [] {
      var last := |rows| - 1;
      LinesRoundTrip(rows[..last]);
      assert GoodRow(rows[last]);
      LineRoundTrip(rows[last].device, rows[last].entry, rows[last].fields);
      assert Table(rows)[..last] == Table(rows[..last]);
      assert Entries(rows) == Entries(rows[..last]) + [rows[last].entry];
    }
  }

  lemma LineIsOneLine(r: Row)
    requires GoodRow(r)
    ensures LF !in Line(r.device, r.entry, r.fields)
  {
    EscapedHasNoBlank(r.entry.mountPoint);
    FurtherIs(r.entry.kind, r.fields);
    assert LF !in r.device && LF !in Escaped(r.entry.mountPoint);
    hide Escaped, IsWord, Further;
    var end := r.entry.kind + Further(r.fields);
    assert Line(r.device, r.entry, r.fields) == r.device + [BLANK] + Escaped(r.entry.mountPoint) + [BLANK] + end;
  }

  /** A whole mount table reads back, whatever white space and backslashes its mount points contain. */
  lemma TableRoundTrip(rows: seq<Row>)
    requires rows != [] && forall i | 0 <= i < |rows| :: GoodRow(rows[i])
    ensures ParsedLines(Split(Join(Table(rows), LF), LF)) == Entries(rows)
  {
    LinesRoundTrip(rows);
    hide GoodRow, Line, ParsedLines, Split, Join;
    forall i | 0 <= i < |rows| ensures LF !in Table(rows)[i] { LineIsOneLine(rows[i]); }
    SplitJoin(Table(rows), LF);
  }

  // ---------------------------------------------------------------- detection

  const UNKNOWN: Str := Ascii("unknown")
  const OVERLAY: set<Str> := {Ascii("overlay"), Ascii("overlayfs")}
  const REJECTED_FS_TYPES: set<Str> := {Ascii("nfs"), Ascii("nfs4"), Ascii("cifs"), Ascii("smb"), Ascii("fuse")}

  datatype Detection = Detection(kind: Str, localVerified: bool, overlayFilesystem: bool, matchedMountPoint: Option<Str>)

  /** Entry k is the last of the longest mounts the path is on. */
  ghost predicate BestMatch(resolved: Str, entries: seq<Entry>, k: nat) {
    k < |entries| && Within(resolved, entries[k].mountPoint)
    && (forall j | 0 <= j < |entries| && Within(resolved, entries[j].mountPoint) ::
          |entries[j].mountPoint| <= |entries[k].mountPoint|)
    && forall j | k < j < |entries| && Within(resolved, entries[j].mountPoint) ::
         |entries[j].mountPoint| < |entries[k].mountPoint|
  }

  predicate NoMatch(resolved: Str, entries: seq<Entry>) {
    forall j | 0 <= j < |entries| :: !Within(resolved, entries[j].mountPoint)
  }

  ghost predicate Matches(resolved: Str, entries: seq<Entry>, kind: Str, mount: Option<Str>) {
    (mount.None? ==> NoMatch(resolved, entries) && kind == UNKNOWN)
    && (mount.Some? ==> exists k: nat :: BestMatch(resolved, entries, k) && mount == Some(entries[k].mountPoint) && kind == entries[k].kind)
  }

  method DetectFilesystemFromMounts(targetPath: Str, mountsContent: Str) returns (r: Detection)
    ensures Normalized(targetPath).None? ==> r == Detection(UNKNOWN, false, false, None)
    ensures Normalized(targetPath).Some? ==>
      Matches(Normalized(targetPath).value, ParsedLines(Split(mountsContent, LF)), r.kind, r.matchedMountPoint)
      && (r.localVerified <==> r.kind != UNKNOWN && r.kind !in REJECTED_FS_TYPES) && (r.overlayFilesystem <==> r.kind in OVERLAY)
  {
    var resolved := NormalizePosixAbsolutePath(targetPath);
    if resolved.None? { return Detection(UNKNOWN, false, false, None); }
    var entries := ParseProcMounts(mountsContent);
    var fsType, matched := Search(resolved.value, entries);
    hide Matches, Split, ParsedLines, Normalized;
    r := Detection(fsType, fsType != UNKNOWN && fsType !in REJECTED_FS_TYPES, fsType in OVERLAY, matched);
  }

  /** The best match among the first n entries. */
  function Best(resolved: Str, entries: seq<Entry>, n: nat): (k: Option<nat>)
    requires n <= |entries|
    ensures k.Some? ==> k.value < n
  {
    if n == 0 then None
    else
      var before := Best(resolved, entries, n - 1);
      var entry := entries[n - 1];
      if Within(resolved, entry.mountPoint)
         && (before.None? || |entry.mountPoint| >= |entries[before.value].mountPoint|) then Some(n - 1)
      else before
  }

  lemma {:induction false} BestIs(resolved: Str, entries: seq<Entry>, n: nat)
    requires n <= |entries|
    ensures var k := Best(resolved, entries, n);
      if k.Some? then BestMatch(resolved, entries[..n], k.value) else NoMatch(resolved, entries[..n])
  {
    hide Within;
    if n > 0 {
      BestIs(resolved, entries, n - 1);
      var before, after := entries[..n - 1], entries[..n];
      assert after == before + [entries[n - 1]];
      assert forall j | 0 <= j < n - 1 :: after[j] == before[j];
    }
  }

  method Search(resolved: Str, entries: seq<Entry>) returns (fsType: Str, matched: Option<Str>)
    ensures Matches(resolved, entries, fsType, matched)
  {
    hide Within, Matches, UNKNOWN;
    var bestLen := 0;
    fsType, matched := UNKNOWN, None;
    var i := 0;
    while i < |entries|
      invariant 0 <= i <= |entries|
      invariant var best := Best(resolved, entries, i);
        if best.Some? then
          matched == Some(entries[best.value].mountPoint) && fsType == entries[best.value].kind
          && bestLen == |entries[best.value].mountPoint|
        else matched.None? && bestLen == 0 && fsType == UNKNOWN
    {
      var entry := entries[i];
      if Within(resolved, entry.mountPoint) && |entry.mountPoint| >= bestLen {
        bestLen := |entry.mountPoint|;
        fsType := entry.kind;
        matched := Some(entry.mountPoint);
      }
      i := i + 1;
    }
    SearchMatches(resolved, entries);
  }

  lemma SearchMatches(resolved: Str, entries: seq<Entry>)
    ensures var best := Best(resolved, entries, |entries|);
      Matches(resolved, entries, if best.Some? then entries[best.value].kind else UNKNOWN,
              if best.Some? then Some(entries[best.value].mountPoint) else None)
  {
    BestIs(resolved, entries, |entries|);
    assert entries[..|entries|] == entries;
    hide Within, UNKNOWN, Best;
  }

  /**
   * The detected mount point is the deepest one: any entry the path is on has a mount point that contains it, and an equally
   * long one is the same mount point, listed earlier.
   */
  lemma DetectedIsDeepest(resolved: Str, content: Str, k: nat, j: nat)
    requires BestMatch(resolved, ParsedLines(Split(content, LF)), k)
    requires j < |ParsedLines(Split(content, LF))| && Within(resolved, ParsedLines(Split(content, LF))[j].mountPoint)
    ensures var entries := ParsedLines(Split(content, LF));
      Within(entries[k].mountPoint, entries[j].mountPoint)
      && (|entries[j].mountPoint| == |entries[k].mountPoint| ==> entries[j].mountPoint == entries[k].mountPoint && j <= k)
  {
    var lines := Split(content, LF);
    ParsedMountPoints(lines);
    hide Split, ParsedLines, IsMountPoint, Within;
    var entries := ParsedLines(lines);
    MountsNest(resolved, entries[j].mountPoint, entries[k].mountPoint);
  }
}
