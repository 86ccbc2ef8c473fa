/** The severity table of logcat entries (internal/types/log_level.go): six
    levels keyed by their lower-case letter, ordered by `id`. */
module LogLevels {
  import opened Strings
  import opened Wrappers
  import Ansi

  /** A level: its rank, its long name (printed by `String`), its colour and
      its one-letter representation. The badge style used by `Pretty` is not
      part of this model. */
  datatype LogLevel = LogLevel(id: int, name: Bytes, color: Ansi.Style, repr: Bytes)

  const LevelVerbose := 0
  const LevelDebug := 1
  const LevelInfo := 2
  const LevelWarning := 3
  const LevelError := 4
  const LevelFatal := 5

  /** Foreground true-colour parameters of the table's hex colours. */
  const White := Ansi.Style("38;2;253;248;220")
  const Blue := Ansi.Style("38;2;74;166;239")
  const Green := Ansi.Style("38;2;92;208;167")
  const Yellow := Ansi.Style("38;2;255;216;102")
  const Red := Ansi.Style("38;2;236;102;101")
  const DarkRed := Ansi.Style("38;2;239;45;36")

  const Verbose := LogLevel(0, "verbose", White, "V")
  const Debug := LogLevel(1, "debug", Blue, "D")
  const Info := LogLevel(2, "info", Green, "I")
  const Warning := LogLevel(3, "warning", Yellow, "W")
  const Error := LogLevel(4, "error", Red, "E")
  const Fatal := LogLevel(5, "fatal", DarkRed, "F")

  /** The value a Go map lookup yields for a missing key. */
  const Zero := LogLevel(0, "", Ansi.NoStyle, "")

  /** `logLevels` */
  const Table: map<Bytes, LogLevel> :=
    map["v" := Verbose, "d" := Debug, "i" := Info, "w" := Warning, "e" := Error, "f" := Fatal]

  /** `VerboseLevel`, the default minimum level of the command line: the
      table's entry under "v" (see `VerboseIsMinimum`). */
  const VerboseLevel := Verbose

  /** The six levels in rank order. */
  const Levels: seq<LogLevel> := [Verbose, Debug, Info, Warning, Error, Fatal]

  predicate IsKey(b: Byte) {
    b == 'v' || b == 'd' || b == 'i' || b == 'w' || b == 'e' || b == 'f'
  }

  /** The table's level ids run 0..5 in the order verbose < debug < info <
      warning < error < fatal and agree with the `LevelVerbose..LevelFatal`
      constants; every level's `repr` is its key in upper case and its name
      starts with its key, and distinct keys have distinct ids. */
  lemma TableShape()
    ensures Table.Keys == {"v", "d", "i", "w", "e", "f"}
    ensures forall i :: 0 <= i < |Levels| ==> Levels[i].id == i
    ensures Table["v"].id == LevelVerbose && Table["d"].id == LevelDebug
    ensures Table["i"].id == LevelInfo && Table["w"].id == LevelWarning
    ensures Table["e"].id == LevelError && Table["f"].id == LevelFatal
    ensures forall k :: k in Table ==> Table[k].repr == ToUpper(k)
    ensures forall k :: k in Table ==> |Table[k].name| > 0 && [Table[k].name[0]] == k
    ensures forall k, k' :: k in Table && k' in Table && k != k' ==> Table[k].id != Table[k'].id
    ensures forall k :: k in Table ==> Table[k] in Levels
  {
  }

  /** `VerboseLevel` is the lowest level there is. */
  lemma VerboseIsMinimum()
    ensures VerboseLevel == Table["v"]
    ensures VerboseLevel.id == LevelVerbose == 0
    ensures forall k :: k in Table ==> VerboseLevel.id <= Table[k].id
  {
  }

  /** `ToLogLevel`: case-insensitive lookup by key; any other text yields the
      zero level. */
  function ToLogLevel(level: Bytes): (r: LogLevel)
    ensures LevelVerbose <= r.id <= LevelFatal
    ensures r != Zero <==> |level| == 1 && IsKey(LowerByte(level[0]))
    ensures r != Zero ==> r in Levels && r.repr == [UpperByte(level[0])]
    ensures r != Zero ==> |r.name| > 0 && r.name[0] == LowerByte(level[0])
    ensures r == Zero ==> r.id == 0 && r.name == [] && r.repr == []
  {
    var key := ToLower(level);
    KeyInTable(key);
    if key in Table then Table[key] else Zero
  }

  /** The table's keys are exactly the six one-letter strings. */
  lemma KeyInTable(key: Bytes)
    ensures key in Table <==> |key| == 1 && IsKey(key[0])
  {
    if |key| == 1 && IsKey(key[0]) {
      assert key == [key[0]];
    }
  }

  /** Lookup ignores case: "W" and "w" give the same level. */
  lemma ToLogLevelIgnoresCase(a: Bytes, b: Bytes)
    requires EqualFold(a, b)
    ensures ToLogLevel(a) == ToLogLevel(b)
  {
  }

  /** `ToLogLevel` inverts `repr`: looking a level's letter up gives it back. */
  lemma ToLogLevelOfRepr(l: LogLevel)
    requires l in Levels
    ensures ToLogLevel(l.repr) == l
  {
  }

  /** `String`: the level's name, which for a table level starts with its
      lower-case key, so looking up the name's first letter gives the level
      back. */
  function String(l: LogLevel): (r: Bytes)
    ensures l in Levels ==> |r| > 0 && [r[0]] in Table && ToLogLevel(r[..1]) == l
  {
    l.name
  }

  /** Outcome of the flag setter: the receiver's new value and the error. */
  datatype SetResult = SetResult(level: LogLevel, err: Option<Bytes>)

  /** `(*LogLevel).Set`: only the first byte of the argument is looked at, so
      "w", "warn" and "Warning" all select the warning level. Indexing `s[0]`
      panics on the empty string, hence the precondition. */
  function Set(receiver: LogLevel, s: Bytes): (r: SetResult)
    requires |s| > 0
    ensures r.err.None? <==> IsKey(LowerByte(s[0]))
    ensures r.err.None? ==> r.level in Levels && r.level.repr == [UpperByte(s[0])]
    ensures r.err.Some? ==> r.level == receiver && r.err.value == "invalid log level: " + s
  {
    var key := [LowerByte(s[0])];
    KeyInTable(key);
    if key in Table then SetResult(Table[key], None)
    else SetResult(receiver, Some("invalid log level: " + s))
  }

  /** Two arguments with the same first byte set the same level. */
  lemma SetReadsFirstByteOnly(receiver: LogLevel, s: Bytes, t: Bytes)
    requires |s| > 0 && |t| > 0 && s[0] == t[0]
    ensures Set(receiver, s).level == Set(receiver, t).level
    ensures Set(receiver, s).err.None? == Set(receiver, t).err.None?
  {
  }

  /** The flag accepts every level's own name (`String`) and its letter. */
  lemma SetAcceptsNames(receiver: LogLevel, l: LogLevel)
    requires l in Levels
    ensures Set(receiver, String(l)) == SetResult(l, None)
    ensures Set(receiver, l.repr) == SetResult(l, None)
    ensures Set(receiver, "w") == SetResult(Warning, None)
    ensures Set(receiver, "warn") == SetResult(Warning, None)
    ensures Set(receiver, "Warning") == SetResult(Warning, None)
  {
  }
}
