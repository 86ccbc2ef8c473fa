/** The logcat line grammar of internal/logreader/logreader.go, the regular
    expression

      ^(\d{2}-\d{2} \d{2}:\d{2}:\d{2}\.\d{3})\s+(\d+)\s+(\d+)\s+([VDIWEF])\s+([^:]+):\s+(.*)$

    recognised by hand over bytes. Go's `\s` is `[\t\n\f\r ]`, `\d` is
    `[0-9]`, `.` is any byte but a newline and `[^:]` any byte but a colon;
    every meta-character is ASCII, so matching bytes agrees with matching the
    runes the regexp engine decodes. */
module LineGrammar {
  import opened Strings
  import opened Wrappers

  /** Go's `\s`. */
  predicate IsReSpace(b: Byte) {
    b == '\t' || b == '\n' || b == '\U{0C}' || b == '\r' || b == ' '
  }

  predicate IsLevelChar(b: Byte) {
    b == 'V' || b == 'D' || b == 'I' || b == 'W' || b == 'E' || b == 'F'
  }

  predicate NoColon(s: Bytes) {
    forall i :: 0 <= i < |s| ==> s[i] != ':'
  }

  predicate NoNewline(s: Bytes) {
    forall i :: 0 <= i < |s| ==> s[i] != '\n'
  }

  /** One or more `\s`. */
  predicate IsGap(s: Bytes) {
    |s| > 0 && forall i :: 0 <= i < |s| ==> IsReSpace(s[i])
  }

  /** One or more `\d`. */
  predicate IsNumber(s: Bytes) {
    |s| > 0 && AllDigits(s)
  }

  /** `\d{2}-\d{2} \d{2}:\d{2}:\d{2}\.\d{3}`, as in "03-14 15:09:26.535". */
  predicate IsStamp(s: Bytes) {
    && |s| == 18
    && IsDigit(s[0]) && IsDigit(s[1]) && s[2] == '-'
    && IsDigit(s[3]) && IsDigit(s[4]) && s[5] == ' '
    && IsDigit(s[6]) && IsDigit(s[7]) && s[8] == ':'
    && IsDigit(s[9]) && IsDigit(s[10]) && s[11] == ':'
    && IsDigit(s[12]) && IsDigit(s[13]) && s[14] == '.'
    && IsDigit(s[15]) && IsDigit(s[16]) && IsDigit(s[17])
  }

  /** A line cut into the pieces of the regular expression: the six capture
      groups (`stamp`, `pid`, `tid`, `level`, `rawTag`, `message`) and the
      white space between them. */
  datatype Split = Split(
    stamp: Bytes, w1: Bytes, pid: Bytes, w2: Bytes, tid: Bytes, w3: Bytes,
    level: Byte, w4: Bytes, rawTag: Bytes, w5: Bytes, message: Bytes)

  function Joined(sp: Split): Bytes {
    sp.stamp + (sp.w1 + (sp.pid + (sp.w2 + (sp.tid + (sp.w3 + ([sp.level] +
      (sp.w4 + (sp.rawTag + ([':'] + (sp.w5 + sp.message))))))))))
  }

  predicate WellFormed(sp: Split) {
    && IsStamp(sp.stamp) && IsGap(sp.w1) && IsNumber(sp.pid) && IsGap(sp.w2)
    && IsNumber(sp.tid) && IsGap(sp.w3) && IsLevelChar(sp.level) && IsGap(sp.w4)
    && |sp.rawTag| > 0 && NoColon(sp.rawTag) && IsGap(sp.w5) && NoNewline(sp.message)
  }

  /** The regular expression matches `line`, cut as `sp`. */
  predicate Derives(line: Bytes, sp: Split) {
    WellFormed(sp) && Joined(sp) == line
  }

  // ---------------------------------------------------------------------------
  // Greedy scanning

  /** Length of the longest prefix of `s` whose bytes all satisfy `p`. */
  function Span(s: Bytes, p: Byte -> bool): (k: nat)
    ensures k <= |s|
    ensures forall j :: 0 <= j < k ==> p(s[j])
    ensures k < |s| ==> !p(s[k])
  {
    if |s| > 0 && p(s[0]) then 1 + Span(s[1..], p) else 0
  }

  /** A run followed by a byte outside the class is exactly what `Span`
      measures. */
  lemma SpanOf(x: Bytes, y: Bytes, p: Byte -> bool)
    requires forall j :: 0 <= j < |x| ==> p(x[j])
    requires |y| == 0 || !p(y[0])
    ensures Span(x + y, p) == |x|
  {
    var s := x + y;
    assert forall j :: 0 <= j < |x| ==> p(s[j]);
    assert |y| > 0 ==> !p(s[|x|]);
  }

  /** A run of a class and what follows it. */
  datatype Cut = Cut(run: Bytes, rest: Bytes)

  function CutRun(s: Bytes, p: Byte -> bool): (c: Cut)
    ensures c.run + c.rest == s
    ensures forall j :: 0 <= j < |c.run| ==> p(c.run[j])
    ensures |c.rest| == 0 || !p(c.rest[0])
  {
    var k := Span(s, p);
    assert s[..k] + s[k..] == s;
    Cut(s[..k], s[k..])
  }

  lemma CutRunOf(x: Bytes, y: Bytes, p: Byte -> bool)
    requires forall j :: 0 <= j < |x| ==> p(x[j])
    requires |y| == 0 || !p(y[0])
    ensures CutRun(x + y, p) == Cut(x, y)
  {
    SpanOf(x, y, p);
    assert (x + y)[..|x|] == x;
    assert (x + y)[|x|..] == y;
  }

  /** Index of the first colon of `s`, or `|s|` when there is none. */
  function ColonIndex(s: Bytes): (c: nat)
    ensures c <= |s|
    ensures NoColon(s[..c])
    ensures c < |s| ==> s[c] == ':'
  {
    if |s| == 0 then 0
    else if s[0] == ':' then 0
    else
      var c := 1 + ColonIndex(s[1..]);
      assert s[..c] == [s[0]] + s[1..][..c - 1];
      c
  }

  lemma ColonIndexOf(x: Bytes, y: Bytes)
    requires NoColon(x)
    ensures ColonIndex(x + [':'] + y) == |x|
  {
    var s := x + [':'] + y;
    assert forall j :: 0 <= j < |x| ==> s[j] != ':';
    assert s[|x|] == ':';
    assert s[..|x| + 1][|x|] == ':';
  }

  // ---------------------------------------------------------------------------
  // The recogniser

  /** What follows the level letter, cut as `\s+([^:]+):\s+(.*)$`. */
  datatype Tail = Tail(w4: Bytes, rawTag: Bytes, w5: Bytes, message: Bytes)

  predicate TailDerives(r: Bytes, t: Tail) {
    && r == t.w4 + (t.rawTag + ([':'] + (t.w5 + t.message)))
    && IsGap(t.w4) && |t.rawTag| > 0 && NoColon(t.rawTag) && IsGap(t.w5) && NoNewline(t.message)
  }

  /** `\s+([^:]+):\s+(.*)$` on what follows the level letter. The tag group
      cannot hold a colon, so it ends at the first colon; `\s+` in front of it
      is greedy, but must leave the group at least one byte. */
  function MatchTail(r: Bytes): (m: Option<Tail>)
    ensures m.Some? ==> TailDerives(r, m.value)
  {
    TailAt(r, ColonIndex(r), Span(r, IsReSpace))
  }

  /** `MatchTail` once the first colon `c` and the leading white space `n`
      are known. */
  function TailAt(r: Bytes, c: nat, n: nat): (m: Option<Tail>)
    requires n <= c <= |r|
    requires forall j :: 0 <= j < n ==> IsReSpace(r[j])
    requires NoColon(r[..c]) && (c < |r| ==> r[c] == ':')
    ensures m.Some? ==> TailDerives(r, m.value)
  {
    if n == 0 || c == |r| || c < 2 then None
    else
      var start := if n < c then n else c - 1;
      var after := CutRun(r[c + 1..], IsReSpace);
      if |after.run| == 0 || !NoNewline(after.rest) then None
      else
        assert IsGap(after.run);
        TailCut(r, c, n, start, after);
        Some(Tail(r[..start], r[start..c], after.run, after.rest))
  }

  lemma TailCut(r: Bytes, c: nat, n: nat, start: nat, after: Cut)
    requires 0 < n <= |r| && 2 <= c < |r|
    requires forall j :: 0 <= j < n ==> IsReSpace(r[j])
    requires NoColon(r[..c]) && r[c] == ':'
    requires start == if n < c then n else c - 1
    requires after.run + after.rest == r[c + 1..] && IsGap(after.run) && NoNewline(after.rest)
    ensures TailDerives(r, Tail(r[..start], r[start..c], after.run, after.rest))
  {
    assert !IsReSpace(r[c]);
    assert n <= c;
    var w4, tag := r[..start], r[start..c];
    assert IsGap(w4) by {
      forall j | 0 <= j < |w4| ensures IsReSpace(w4[j]) {
        assert w4[j] == r[j];
      }
    }
    assert NoColon(tag) by {
      assert tag == r[..c][start..];
    }
    var rest := r[c + 1..];
    assert r[c..] == [r[c]] + rest;
    assert r[start..] == tag + r[c..];
    assert r == w4 + r[start..];
  }

  /** White space and a number, as in `\s+(\d+)`. */
  datatype Field = Field(gap: Bytes, digits: Bytes, rest: Bytes)

  function GapNumber(r: Bytes): (m: Option<Field>)
    ensures m.Some? ==> r == m.value.gap + (m.value.digits + m.value.rest)
    ensures m.Some? ==> IsGap(m.value.gap) && IsNumber(m.value.digits)
  {
    var g := CutRun(r, IsReSpace);
    var d := CutRun(g.rest, IsDigit);
    if |g.run| == 0 || |d.run| == 0 then None else Some(Field(g.run, d.run, d.rest))
  }

  lemma GapNumberOf(gap: Bytes, digits: Bytes, rest: Bytes)
    requires IsGap(gap) && IsNumber(digits) && (|rest| == 0 || !IsDigit(rest[0]))
    ensures GapNumber(gap + (digits + rest)) == Some(Field(gap, digits, rest))
  {
    assert !IsReSpace((digits + rest)[0]);
    CutRunOf(gap, digits + rest, IsReSpace);
    CutRunOf(digits, rest, IsDigit);
  }

  /** White space and the level letter, as in `\s+([VDIWEF])`. */
  datatype Lead = Lead(gap: Bytes, level: Byte, rest: Bytes)

  function GapLevel(r: Bytes): (m: Option<Lead>)
    ensures m.Some? ==> r == m.value.gap + ([m.value.level] + m.value.rest)
    ensures m.Some? ==> IsGap(m.value.gap) && IsLevelChar(m.value.level)
  {
    var g := CutRun(r, IsReSpace);
    if |g.run| == 0 || |g.rest| == 0 || !IsLevelChar(g.rest[0]) then None
    else
      assert g.rest == [g.rest[0]] + g.rest[1..];
      Some(Lead(g.run, g.rest[0], g.rest[1..]))
  }

  lemma GapLevelOf(gap: Bytes, level: Byte, rest: Bytes)
    requires IsGap(gap) && IsLevelChar(level)
    ensures GapLevel(gap + ([level] + rest)) == Some(Lead(gap, level, rest))
  {
    assert !IsReSpace(([level] + rest)[0]);
    CutRunOf(gap, [level] + rest, IsReSpace);
    assert ([level] + rest)[1..] == rest;
  }

  /** The pieces after the time stamp: process id, thread id, level letter
      and the tail, each with the white space before it. */
  datatype Body = Body(p: Field, t: Field, l: Lead, tail: Tail)

  predicate BodyDerives(r: Bytes, b: Body) {
    && r == b.p.gap + (b.p.digits + b.p.rest) && IsGap(b.p.gap) && IsNumber(b.p.digits)
    && b.p.rest == b.t.gap + (b.t.digits + b.t.rest) && IsGap(b.t.gap) && IsNumber(b.t.digits)
    && b.t.rest == b.l.gap + ([b.l.level] + b.l.rest) && IsGap(b.l.gap) && IsLevelChar(b.l.level)
    && TailDerives(b.l.rest, b.tail)
  }

  /** The regular expression after its time stamp. */
  function MatchBody(r: Bytes): (m: Option<Body>)
    ensures m.Some? ==> BodyDerives(r, m.value)
  {
    match GapNumber(r)
    case None => None
    case Some(p) =>
      match GapNumber(p.rest)
      case None => None
      case Some(t) =>
        match GapLevel(t.rest)
        case None => None
        case Some(l) =>
          match MatchTail(l.rest)
          case None => None
          case Some(tail) => Some(Body(p, t, l, tail))
  }

  /** `logEntryRegex.FindStringSubmatch`: the capture groups of a matching
      line, with the white space between them. */
  function Match(line: Bytes): (m: Option<Split>)
    ensures m.Some? ==> Derives(line, m.value)
  {
    if |line| < 18 || !IsStamp(line[..18]) then None
    else
      match MatchBody(line[18..])
      case None => None
      case Some(b) =>
        JoinedPieces(line, b);
        Some(Assemble(line[..18], b))
  }

  function Assemble(stamp: Bytes, b: Body): Split {
    Split(stamp, b.p.gap, b.p.digits, b.t.gap, b.t.digits, b.l.gap, b.l.level,
          b.tail.w4, b.tail.rawTag, b.tail.w5, b.tail.message)
  }

  lemma JoinedPieces(line: Bytes, b: Body)
    requires |line| >= 18 && IsStamp(line[..18]) && BodyDerives(line[18..], b)
    ensures Derives(line, Assemble(line[..18], b))
  {
    assert line == line[..18] + line[18..];
  }

  /** Every cut of a line the grammar allows is found by `Match`: the line
      matches, with the same time stamp, numbers and level letter, the same
      tag once white space is trimmed, and the same message whenever the
      message does not itself start with white space. */
  lemma MatchComplete(line: Bytes, sp: Split)
    requires Derives(line, sp)
    ensures Match(line).Some?
    ensures Match(line).value.stamp == sp.stamp
    ensures Match(line).value.pid == sp.pid && Match(line).value.tid == sp.tid
    ensures Match(line).value.level == sp.level
    ensures TrimSpace(Match(line).value.rawTag) == TrimSpace(sp.rawTag)
    ensures |sp.message| == 0 || !IsReSpace(sp.message[0]) ==> Match(line).value.message == sp.message
  {
    StampFound(line, sp);
    PidFound(sp);
    TidFound(sp);
    LevelFound(sp);
    MatchTailComplete(AfterLevel(sp), sp.w4, sp.rawTag, sp.w5, sp.message);
    var tail := MatchTail(AfterLevel(sp)).value;
    MatchOfPieces(line, Body(Field(sp.w1, sp.pid, AfterPid(sp)), Field(sp.w2, sp.tid, AfterTid(sp)),
                  Lead(sp.w3, sp.level, AfterLevel(sp)), tail));
  }

  /** `Match` assembles the pieces its scanners find. */
  lemma MatchOfPieces(line: Bytes, b: Body)
    requires |line| >= 18 && IsStamp(line[..18])
    requires GapNumber(line[18..]) == Some(b.p) && GapNumber(b.p.rest) == Some(b.t)
    requires GapLevel(b.t.rest) == Some(b.l) && MatchTail(b.l.rest) == Some(b.tail)
    ensures Match(line) == Some(Assemble(line[..18], b))
  {
    assert MatchBody(line[18..]) == Some(b);
  }

  /** The text after the level letter, after the thread id and after the
      process id of a cut line. */
  function AfterLevel(sp: Split): Bytes {
    sp.w4 + (sp.rawTag + ([':'] + (sp.w5 + sp.message)))
  }

  function AfterTid(sp: Split): Bytes {
    sp.w3 + ([sp.level] + AfterLevel(sp))
  }

  function AfterPid(sp: Split): Bytes {
    sp.w2 + (sp.tid + AfterTid(sp))
  }

  lemma StampFound(line: Bytes, sp: Split)
    requires Derives(line, sp)
    ensures |line| >= 18 && line[..18] == sp.stamp && line[18..] == sp.w1 + (sp.pid + AfterPid(sp))
  {
    assert line == sp.stamp + (sp.w1 + (sp.pid + AfterPid(sp)));
  }

  lemma PidFound(sp: Split)
    requires WellFormed(sp)
    ensures GapNumber(sp.w1 + (sp.pid + AfterPid(sp))) == Some(Field(sp.w1, sp.pid, AfterPid(sp)))
  {
    assert AfterPid(sp)[0] == sp.w2[0];
    GapNumberOf(sp.w1, sp.pid, AfterPid(sp));
  }

  lemma TidFound(sp: Split)
    requires WellFormed(sp)
    ensures GapNumber(AfterPid(sp)) == Some(Field(sp.w2, sp.tid, AfterTid(sp)))
  {
    assert AfterTid(sp)[0] == sp.w3[0];
    GapNumberOf(sp.w2, sp.tid, AfterTid(sp));
  }

  lemma LevelFound(sp: Split)
    requires WellFormed(sp)
    ensures GapLevel(AfterTid(sp)) == Some(Lead(sp.w3, sp.level, AfterLevel(sp)))
  {
    GapLevelOf(sp.w3, sp.level, AfterLevel(sp));
  }

  lemma MatchTailComplete(r: Bytes, w4: Bytes, rawTag: Bytes, w5: Bytes, message: Bytes)
    requires r == w4 + (rawTag + ([':'] + (w5 + message)))
    requires IsGap(w4) && |rawTag| > 0 && NoColon(rawTag) && IsGap(w5) && NoNewline(message)
    ensures MatchTail(r).Some?
    ensures TrimSpace(MatchTail(r).value.rawTag) == TrimSpace(rawTag)
    ensures |message| == 0 || !IsReSpace(message[0]) ==> MatchTail(r).value.message == message
  {
    var x := w4 + rawTag;
    assert NoColon(x) by {
      forall i | 0 <= i < |x| ensures x[i] != ':' {
        if i < |w4| {
          assert IsReSpace(w4[i]);
        } else {
          assert x[i] == rawTag[i - |w4|];
        }
      }
    }
    assert r == x + [':'] + (w5 + message);
    ColonIndexOf(x, w5 + message);
    var n := Span(r, IsReSpace);
    SpanAtLeast(r, w4, rawTag + ([':'] + (w5 + message)));
    TailAtComplete(r, |x|, n, w4, rawTag, w5, message);
  }

  lemma TailAtComplete(r: Bytes, c: nat, n: nat, w4: Bytes, rawTag: Bytes, w5: Bytes, message: Bytes)
    requires r == (w4 + rawTag) + [':'] + (w5 + message)
    requires IsGap(w4) && |rawTag| > 0 && NoColon(rawTag) && IsGap(w5) && NoNewline(message)
    requires c == |w4| + |rawTag| && |w4| <= n <= |r|
    requires forall j :: 0 <= j < n ==> IsReSpace(r[j])
    requires NoColon(r[..c])
    ensures n <= c && r[c] == ':'
    ensures TailAt(r, c, n).Some?
    ensures TrimSpace(TailAt(r, c, n).value.rawTag) == TrimSpace(rawTag)
    ensures |message| == 0 || !IsReSpace(message[0]) ==> TailAt(r, c, n).value.message == message
  {
    ColonAt(r, w4 + rawTag, w5 + message);
    assert !IsReSpace(r[c]);
    TailAtPieces(r, c, n, w4, rawTag, w5, message);
  }

  lemma TailAtPieces(r: Bytes, c: nat, n: nat, w4: Bytes, rawTag: Bytes, w5: Bytes, message: Bytes)
    requires |w4| <= n <= c < |r| && c == |w4| + |rawTag| && r[c] == ':'
    requires r[..c] == w4 + rawTag && r[c + 1..] == w5 + message
    requires IsGap(w4) && |rawTag| > 0 && IsGap(w5) && NoNewline(message)
    requires forall j :: 0 <= j < n ==> IsReSpace(r[j])
    requires NoColon(r[..c])
    ensures TailAt(r, c, n).Some?
    ensures TrimSpace(TailAt(r, c, n).value.rawTag) == TrimSpace(rawTag)
    ensures |message| == 0 || !IsReSpace(message[0]) ==> TailAt(r, c, n).value.message == message
  {
    var start := if n < c then n else c - 1;
    var after := CutRun(r[c + 1..], IsReSpace);
    MessageCut(w5, message, after.run, after.rest);
    TailAtIs(r, c, n, start, after);
    TagTrim(r, w4, rawTag, start, c);
  }

  lemma TailAtIs(r: Bytes, c: nat, n: nat, start: nat, after: Cut)
    requires 0 < n <= c < |r| && c >= 2
    requires forall j :: 0 <= j < n ==> IsReSpace(r[j])
    requires NoColon(r[..c]) && r[c] == ':'
    requires start == if n < c then n else c - 1
    requires after == CutRun(r[c + 1..], IsReSpace) && |after.run| > 0 && NoNewline(after.rest)
    ensures TailAt(r, c, n) == Some(Tail(r[..start], r[start..c], after.run, after.rest))
  {
  }

  lemma ColonAt(r: Bytes, x: Bytes, y: Bytes)
    requires r == x + [':'] + y
    ensures |r| > |x| && r[|x|] == ':' && r[..|x|] == x && r[|x| + 1..] == y
  {
  }

  /** White space the greedy `\s+` takes from the front of the tag group is
      white space `TrimSpace` would drop anyway. */
  lemma TagTrim(r: Bytes, w4: Bytes, rawTag: Bytes, start: nat, c: nat)
    requires |w4| <= start <= c <= |r| && r[..c] == w4 + rawTag
    requires forall j :: |w4| <= j < start ==> IsReSpace(r[j])
    ensures TrimSpace(r[start..c]) == TrimSpace(rawTag)
  {
    var gap := r[|w4|..start];
    assert rawTag == r[..c][|w4|..] == r[|w4|..c];
    assert r[|w4|..c] == gap + r[start..c];
    assert AllSpace(gap) by {
      forall i | 0 <= i < |gap| ensures IsSpace(gap[i]) {
        assert gap[i] == r[|w4| + i];
      }
    }
    TrimSpaceSkipsLeadingSpace(gap, r[start..c]);
  }

  lemma SpanAtLeast(r: Bytes, x: Bytes, y: Bytes)
    requires r == x + y
    requires forall j :: 0 <= j < |x| ==> IsReSpace(x[j])
    ensures Span(r, IsReSpace) >= |x|
  {
    var n := Span(r, IsReSpace);
    assert forall j :: 0 <= j < |x| ==> IsReSpace(r[j]);
  }

  /** The message group after `:\s+` keeps no leading white space, is a
      suffix of any message the grammar allows, and equals it when that
      message does not start with white space. */
  lemma MessageCut(w5: Bytes, message: Bytes, run: Bytes, rest: Bytes)
    requires IsGap(w5) && NoNewline(message)
    requires run + rest == w5 + message
    requires forall j :: 0 <= j < |run| ==> IsReSpace(run[j])
    requires |rest| == 0 || !IsReSpace(rest[0])
    ensures |run| >= |w5| && NoNewline(rest)
    ensures |message| == 0 || !IsReSpace(message[0]) ==> rest == message
  {
    var s := w5 + message;
    assert forall j :: 0 <= j < |w5| ==> IsReSpace(s[j]);
    assert forall j :: 0 <= j < |run| ==> IsReSpace(s[j]) by {
      forall j | 0 <= j < |run| ensures IsReSpace(s[j]) {
        assert s[j] == (run + rest)[j] == run[j];
      }
    }
    assert |rest| > 0 ==> s[|run|] == rest[0];
    assert |run| >= |w5|;
    assert rest == s[|run|..] == message[|run| - |w5|..];
    if |message| > 0 && !IsReSpace(message[0]) {
      assert s[|w5|] == message[0];
    }
  }

  /** A tab-indented line never matches: the grammar starts with a digit. So
      does a line of the banner form "--------- …". */
  lemma NoMatchWithoutLeadingDigit(line: Bytes)
    requires |line| == 0 || !IsDigit(line[0])
    ensures Match(line).None?
  {
  }
}
