/** The entry filter of internal/filter/filter.go: a pure predicate on an
    entry's tag and level, applied to every entry in order by `Start`. */
module Filter {
  import opened Strings
  import LogLevels
  import opened LogReader

  /** The configuration of a `LogFilter`. `processNames` is stored but never
      consulted. */
  datatype Config = Config(
    tags: seq<Bytes>, ignoreTags: seq<Bytes>, minLevel: LogLevels.LogLevel, processNames: seq<Bytes>)

  /** Some member of `list` equals `tag` up to case. */
  predicate Mentions(list: seq<Bytes>, tag: Bytes) {
    exists k :: 0 <= k < |list| && EqualFold(tag, list[k])
  }

  /** A `for _, t := range list { if strings.EqualFold(tag, t) ... }` loop:
      it stops at the first member that matches. */
  function AnyFold(list: seq<Bytes>, tag: Bytes): (r: bool)
    ensures r <==> Mentions(list, tag)
  {
    if |list| == 0 then false
    else if EqualFold(tag, list[0]) then true
    else
      var r := AnyFold(list[1..], tag);
      assert r ==> exists k :: 1 <= k < |list| && EqualFold(tag, list[k]) by {
        if r {
          var k :| 0 <= k < |list[1..]| && EqualFold(tag, list[1..][k]);
          assert list[k + 1] == list[1..][k];
        }
      }
      assert Mentions(list, tag) ==> Mentions(list[1..], tag) by {
        if Mentions(list, tag) {
          var k :| 0 <= k < |list| && EqualFold(tag, list[k]);
          assert k > 0 && list[1..][k - 1] == list[k];
        }
      }
      r
  }

  /** The tag rule as a reference: never an ignored tag; and one of the
      listed tags when any are listed. */
  predicate TagAllowed(cfg: Config, tag: Bytes) {
    !Mentions(cfg.ignoreTags, tag) && (|cfg.tags| == 0 || Mentions(cfg.tags, tag))
  }

  /** `validateTag` */
  function ValidateTag(cfg: Config, e: LogEntry): (r: bool)
    ensures Mentions(cfg.ignoreTags, e.tag) ==> !r
    ensures !Mentions(cfg.ignoreTags, e.tag) && |cfg.tags| > 0 ==> (r <==> Mentions(cfg.tags, e.tag))
    ensures !Mentions(cfg.ignoreTags, e.tag) && |cfg.tags| == 0 ==> r
  {
    if |cfg.ignoreTags| != 0 && AnyFold(cfg.ignoreTags, e.tag) then false
    else if |cfg.tags| != 0 then AnyFold(cfg.tags, e.tag)
    else true
  }

  /** `validateLogLevel`: levels are ranked by id, so the minimum itself
      passes, and under the verbose minimum every level of the table does. */
  function ValidateLogLevel(cfg: Config, e: LogEntry): (r: bool)
    ensures e.level.id == cfg.minLevel.id ==> r
    ensures cfg.minLevel == LogLevels.VerboseLevel && e.level in LogLevels.Levels ==> r
  {
    e.level.id >= cfg.minLevel.id
  }

  /** `filter`: the tag check, then the level check. */
  function Admits(cfg: Config, e: LogEntry): (r: bool)
    ensures r <==> TagAllowed(cfg, e.tag) && e.level.id >= cfg.minLevel.id
  {
    ValidateTag(cfg, e) && ValidateLogLevel(cfg, e)
  }

  /** The level check is monotone: a more severe entry passes whenever a
      less severe one does. */
  lemma LevelCheckMonotone(cfg: Config, e: LogEntry, f: LogEntry)
    requires e.level.id <= f.level.id
    ensures ValidateLogLevel(cfg, e) ==> ValidateLogLevel(cfg, f)
  {
  }

  /** Only the tag and the level's rank are read: neither the other entry
      fields nor the process-name list make a difference. */
  lemma AdmitsReadsTagAndLevel(cfg: Config, e: LogEntry, e': LogEntry, names: seq<Bytes>)
    requires e.tag == e'.tag && e.level.id == e'.level.id
    ensures Admits(cfg, e) == Admits(cfg.(processNames := names), e')
  {
  }

  /** Tags are compared without regard to case. */
  lemma AdmitsIgnoresTagCase(cfg: Config, e: LogEntry, tag: Bytes)
    requires EqualFold(e.tag, tag)
    ensures Admits(cfg, e) == Admits(cfg, e.(tag := tag))
  {
    assert forall list: seq<Bytes> :: Mentions(list, e.tag) == Mentions(list, tag) by {
      forall list: seq<Bytes> ensures Mentions(list, e.tag) == Mentions(list, tag) {
        if Mentions(list, e.tag) {
          var k :| 0 <= k < |list| && EqualFold(e.tag, list[k]);
          EqualFoldEquivalence(tag, e.tag, list[k]);
        }
        if Mentions(list, tag) {
          var k :| 0 <= k < |list| && EqualFold(tag, list[k]);
          EqualFoldEquivalence(e.tag, tag, list[k]);
        }
      }
    }
  }

  /** With an allow-list {"Net"}, no ignore list and minimum level warning:
      "Net" at info is dropped, "Net" at error kept, "UI" at fatal dropped. */
  lemma AdmitsExample(e: LogEntry)
    ensures var cfg := Config(["Net"], [], LogLevels.Warning, []);
      && !Admits(cfg, e.(tag := "Net", level := LogLevels.Info))
      && Admits(cfg, e.(tag := "Net", level := LogLevels.Error))
      && !Admits(cfg, e.(tag := "UI", level := LogLevels.Fatal))
  {
    var cfg := Config(["Net"], [], LogLevels.Warning, []);
    assert EqualFold("Net", cfg.tags[0]);
    assert !EqualFold("UI", cfg.tags[0]) by {
      assert ToLower("UI")[0] != ToLower("Net")[0];
    }
  }

  // ---------------------------------------------------------------------------
  // The loop of `Start`

  /** The entries `Start` forwards, in order. */
  function Keep(cfg: Config, s: seq<LogEntry>): (r: seq<LogEntry>)
    ensures |r| <= |s|
  {
    if |s| == 0 then []
    else Keep(cfg, s[..|s| - 1]) + (if Admits(cfg, s[|s| - 1]) then [s[|s| - 1]] else [])
  }

  /** `Start`: reads every entry of its input once and forwards those the
      filter admits. */
  method Start(cfg: Config, input: seq<LogEntry>) returns (output: seq<LogEntry>)
    ensures output == Keep(cfg, input)
  {
    output := [];
    var i := 0;
    while i < |input|
      invariant 0 <= i <= |input|
      invariant output == Keep(cfg, input[..i])
    {
      assert input[..i + 1][..i] == input[..i];
      if Admits(cfg, input[i]) {
        output := output + [input[i]];
      }
      i := i + 1;
    }
    assert input[..i] == input;
  }

  lemma {:induction false} KeepAppend(cfg: Config, a: seq<LogEntry>, b: seq<LogEntry>)
    ensures Keep(cfg, a + b) == Keep(cfg, a) + Keep(cfg, b)
    decreases |b|
  {
    if |b| == 0 {
      assert a + b == a;
    } else {
      var n := |b| - 1;
      assert (a + b)[..|a + b| - 1] == a + b[..n];
      KeepAppend(cfg, a, b[..n]);
    }
  }

  /** `idx` lists, in increasing order, the positions of `s` whose entries
      make up `kept`, and holds a position exactly when it is admitted. */
  predicate Selects(cfg: Config, s: seq<LogEntry>, kept: seq<LogEntry>, idx: seq<nat>) {
    && |idx| == |kept|
    && (forall k :: 0 <= k < |idx| ==> idx[k] < |s| && kept[k] == s[idx[k]])
    && (forall k, l :: 0 <= k < l < |idx| ==> idx[k] < idx[l])
    && (forall i :: 0 <= i < |s| ==> (Admits(cfg, s[i]) <==> i in idx))
  }

  /** The positions of the admitted entries, in increasing order. */
  function KeptIndices(cfg: Config, s: seq<LogEntry>): (idx: seq<nat>)
    ensures |idx| == |Keep(cfg, s)|
    ensures forall k :: 0 <= k < |idx| ==> idx[k] < |s| && Keep(cfg, s)[k] == s[idx[k]]
    ensures forall k, l :: 0 <= k < l < |idx| ==> idx[k] < idx[l]
    ensures forall i :: 0 <= i < |s| ==> (Admits(cfg, s[i]) <==> i in idx)
  {
    if |s| == 0 then []
    else
      var n := |s| - 1;
      var p := KeptIndices(cfg, s[..n]);
      var idx := if Admits(cfg, s[n]) then p + [n] else p;
      KeptIndicesStep(cfg, s, p, idx);
      idx
  }

  lemma KeptIndicesStep(cfg: Config, s: seq<LogEntry>, p: seq<nat>, idx: seq<nat>)
    requires |s| > 0 && Selects(cfg, s[..|s| - 1], Keep(cfg, s[..|s| - 1]), p)
    requires idx == if Admits(cfg, s[|s| - 1]) then p + [|s| - 1] else p
    ensures Selects(cfg, s, Keep(cfg, s), idx)
  {
    SelectsSnoc(cfg, s, Keep(cfg, s[..|s| - 1]), p);
  }

  /** One more entry extends the selection by its position when it is
      admitted. */
  lemma SelectsSnoc(cfg: Config, s: seq<LogEntry>, kept: seq<LogEntry>, p: seq<nat>)
    requires |s| > 0 && Selects(cfg, s[..|s| - 1], kept, p)
    ensures Admits(cfg, s[|s| - 1]) ==> Selects(cfg, s, kept + [s[|s| - 1]], p + [|s| - 1])
    ensures !Admits(cfg, s[|s| - 1]) ==> Selects(cfg, s, kept, p)
  {
    var n := |s| - 1;
    assert forall i :: 0 <= i < n ==> s[..n][i] == s[i];
    if Admits(cfg, s[n]) {
      var idx := p + [n];
      assert forall k :: 0 <= k < |p| ==> idx[k] == p[k];
    }
  }

  /** `Start` forwards exactly the admitted entries, each once, in their
      original order: its output is the input with the rejected entries
      removed, and nothing is reordered, repeated or added. */
  lemma KeepIsOrderedSelection(cfg: Config, s: seq<LogEntry>)
    ensures forall x :: x in Keep(cfg, s) ==> x in s && Admits(cfg, x)
    ensures forall i :: 0 <= i < |s| && Admits(cfg, s[i]) ==> s[i] in Keep(cfg, s)
  {
    var idx := KeptIndices(cfg, s);
    forall i | 0 <= i < |s| && Admits(cfg, s[i]) ensures s[i] in Keep(cfg, s) {
      var k :| 0 <= k < |idx| && idx[k] == i;
      assert Keep(cfg, s)[k] == s[i];
    }
    forall x | x in Keep(cfg, s) ensures x in s && Admits(cfg, x) {
      var k :| 0 <= k < |Keep(cfg, s)| && Keep(cfg, s)[k] == x;
      assert x == s[idx[k]];
    }
  }

  /** Filtering what was already filtered with the same configuration
      changes nothing. */
  lemma {:induction false} KeepIdempotent(cfg: Config, s: seq<LogEntry>)
    ensures Keep(cfg, Keep(cfg, s)) == Keep(cfg, s)
    decreases |s|
  {
    if |s| > 0 {
      var n := |s| - 1;
      KeepIdempotent(cfg, s[..n]);
      var tail := if Admits(cfg, s[n]) then [s[n]] else [];
      assert Keep(cfg, s) == Keep(cfg, s[..n]) + tail;
      KeepAppend(cfg, Keep(cfg, s[..n]), tail);
      KeepAdmittedTail(cfg, tail);
    }
  }

  lemma KeepAdmittedTail(cfg: Config, tail: seq<LogEntry>)
    requires |tail| <= 1 && (|tail| == 1 ==> Admits(cfg, tail[0]))
    ensures Keep(cfg, tail) == tail
  {
    if |tail| == 1 {
      assert tail[..0] == [];
    }
  }

  /** Nothing is dropped when the filter admits every entry. */
  lemma {:induction false} KeepAllAdmitted(cfg: Config, s: seq<LogEntry>)
    requires forall i :: 0 <= i < |s| ==> Admits(cfg, s[i])
    ensures Keep(cfg, s) == s
    decreases |s|
  {
    if |s| > 0 {
      var n := |s| - 1;
      KeepAllAdmitted(cfg, s[..n]);
      assert s[..n] + [s[n]] == s;
    }
  }

  /** Everything is kept when no tag is listed or ignored and the minimum is
      the lowest level there is. */
  lemma KeepAllByDefault(s: seq<LogEntry>)
    requires forall i :: 0 <= i < |s| ==> s[i].level.id >= LogLevels.LevelVerbose
    ensures Keep(Config([], [], LogLevels.VerboseLevel, []), s) == s
  {
    KeepAllAtOrAbove(Config([], [], LogLevels.VerboseLevel, []), s);
  }

  /** With no tag listed or ignored, the level alone decides: an entry is
      forwarded exactly when it is at or above the minimum, so nothing is
      dropped when every entry is. */
  lemma KeepAllAtOrAbove(cfg: Config, s: seq<LogEntry>)
    requires cfg.tags == [] && cfg.ignoreTags == []
    ensures forall i :: 0 <= i < |s| ==> (s[i] in Keep(cfg, s) <== s[i].level.id >= cfg.minLevel.id)
    ensures forall i :: 0 <= i < |s| ==> (i in KeptIndices(cfg, s) <==> s[i].level.id >= cfg.minLevel.id)
    ensures forall x :: x in Keep(cfg, s) ==> x.level.id >= cfg.minLevel.id
    ensures (forall i :: 0 <= i < |s| ==> s[i].level.id >= cfg.minLevel.id) ==> Keep(cfg, s) == s
  {
    KeepIsOrderedSelection(cfg, s);
    if forall i :: 0 <= i < |s| ==> s[i].level.id >= cfg.minLevel.id {
      KeepAllAdmitted(cfg, s);
    }
  }
}
