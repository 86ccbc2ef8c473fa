/** The log reader of internal/logreader/logreader.go: `parseLine` turns one
    logcat line into an entry or a `ParseError`, and the line loop of `Start`
    classifies every line as metadata, a primary entry, a stack-trace
    continuation of the current entry, or an error. The year that
    `time.Now()` supplies is a parameter. */
module LogReader {
  import opened Strings
  import opened Wrappers
  import opened LineGrammar
  import LogLevels
  import opened Folds

  /** The largest Go `int` on the 64-bit platforms the tool is built for. */
  const MaxInt: int := 0x7FFF_FFFF_FFFF_FFFF

  /** The fields of the `time.Time` that `time.Parse` builds (UTC, no zone). */
  datatype Timestamp = Timestamp(
    year: int, month: int, day: int, hour: int, minute: int, second: int, millisecond: int)

  /** `LogEntry` */
  datatype LogEntry = LogEntry(
    timestamp: Timestamp, processId: int, threadId: int, level: LogLevels.LogLevel,
    tag: Bytes, message: Bytes, processName: Bytes, isStackLine: bool)

  // ---------------------------------------------------------------------------
  // Errors

  /** The error a regex-matching line can still fail with: `time.Parse`
      rejecting the text (a syntax error or a field out of range) or
      `strconv.Atoi` overflowing. */
  datatype Cause =
    | TimeSyntax(value: Bytes, valueElem: Bytes, layoutElem: Bytes)
    | TimeRange(value: Bytes, field: Bytes)
    | IntRange(num: Bytes)

  const Layout: Bytes := "2006-01-02 15:04:05.000"

  /** `strconv.Quote` of text made of printable ASCII, which is all it is
      applied to here. */
  function Quote(s: Bytes): Bytes {
    ['"'] + s + ['"']
  }

  /** The `Error()` text of a cause, as `time.ParseError` and
      `strconv.NumError` write it. */
  function CauseText(c: Cause): (r: Bytes)
    ensures c.TimeSyntax? ==> HasPrefix(r, "parsing time " + Quote(c.value) + " as " + Quote(Layout) + ": ")
    ensures c.TimeRange? ==> HasPrefix(r, "parsing time " + Quote(c.value) + ": ")
    ensures c.IntRange? ==> HasPrefix(r, "strconv.Atoi: parsing " + Quote(c.num) + ": ")
  {
    match c
    case TimeSyntax(v, ve, le) =>
      Followed("parsing time " + Quote(v) + " as " + Quote(Layout) + ": ",
        "cannot parse " + Quote(ve) + " as " + Quote(le))
    case TimeRange(v, f) => Followed("parsing time " + Quote(v) + ": ", f + " out of range")
    case IntRange(n) => Followed("strconv.Atoi: parsing " + Quote(n) + ": ", "value out of range")
  }

  /** `head + rest`, which starts with `head`. */
  function Followed(head: Bytes, rest: Bytes): (r: Bytes)
    ensures HasPrefix(r, head)
  {
    assert (head + rest)[..|head|] == head;
    head + rest
  }

  /** `ParseError`: the raw line and, when the grammar matched, why the line
      was still rejected. */
  datatype ParseError = ParseError(line: Bytes, err: Option<Cause>)

  const ParseFailed: Bytes := "failed to parse line: "

  /** `(*ParseError).Error`: the raw line is always quoted in full, and text
      is appended exactly when there is an underlying cause. */
  function ErrorText(e: ParseError): (r: Bytes)
    ensures HasPrefix(r, ParseFailed + e.line)
    ensures e.err.None? <==> |r| == |ParseFailed| + |e.line|
    ensures e.err.None? ==> r == ParseFailed + e.line
    ensures e.err.Some? ==> r == ParseFailed + e.line + ": " + CauseText(e.err.value)
  {
    if e.err.Some? then ParseFailed + e.line + ": " + CauseText(e.err.value)
    else ParseFailed + e.line
  }

  // ---------------------------------------------------------------------------
  // `time.Parse("2006-01-02 15:04:05.000", Itoa(year) + "-" + stamp)`

  function Two(a: Byte, b: Byte): nat
    requires IsDigit(a) && IsDigit(b)
  {
    10 * DigitValue(a) + DigitValue(b)
  }

  /** The clock reading a stamp "MM-DD HH:MM:SS.mmm" spells, in `year`. */
  function StampFields(year: int, stamp: Bytes): Timestamp
    requires IsStamp(stamp)
  {
    Timestamp(year, Two(stamp[0], stamp[1]), Two(stamp[3], stamp[4]), Two(stamp[6], stamp[7]),
              Two(stamp[9], stamp[10]), Two(stamp[12], stamp[13]),
              10 * Two(stamp[15], stamp[16]) + DigitValue(stamp[17]))
  }

  /** Go's `isLeap`; the remainder is only compared with zero, so its sign
      convention does not matter. */
  predicate IsLeap(year: int) {
    year % 4 == 0 && (year % 100 != 0 || year % 400 == 0)
  }

  /** Go's `daysIn`. */
  function DaysIn(month: int, year: int): (d: int)
    requires 1 <= month <= 12
    ensures 28 <= d <= 31
    ensures d == 29 <==> month == 2 && IsLeap(year)
    ensures d == 28 <==> month == 2 && !IsLeap(year)
  {
    if month == 2 then (if IsLeap(year) then 29 else 28)
    else if month == 4 || month == 6 || month == 9 || month == 11 then 30
    else 31
  }

  /** The readings the parse accepts: a four-digit year (the layout's "2006"
      takes exactly four digits), an existing calendar day and a clock time. */
  predicate ValidTime(t: Timestamp) {
    && 1000 <= t.year <= 9999
    && 1 <= t.month <= 12 && 1 <= t.day <= DaysIn(t.month, t.year)
    && 0 <= t.hour < 24 && 0 <= t.minute < 60 && 0 <= t.second < 60
    && 0 <= t.millisecond < 1000
  }

  lemma ItoaLong(n: int)
    requires n >= 10000
    ensures |Itoa(n)| >= 5
  {
    var a := n / 10;
    var b := a / 10;
    var c := b / 10;
    assert c >= 10;
    assert |NatText(c)| >= 2;
    assert |NatText(b)| >= 3;
    assert |NatText(a)| >= 4;
  }

  /** The time stamp of a matching line. A year outside 1000..9999 is a
      syntax error (fewer than four digits cannot fill "2006"; a fifth digit
      is found where the layout's "-" belongs); otherwise month, hour, minute
      and second are range-checked in layout order and the day against the
      month last. */
  function ParseTime(year: int, stamp: Bytes): (r: Result<Timestamp, Cause>)
    requires IsStamp(stamp)
    ensures r.Ok? <==> ValidTime(StampFields(year, stamp))
    ensures r.Ok? ==> r.value == StampFields(year, stamp)
    ensures r.Err? ==> !r.error.IntRange? && r.error.value == Itoa(year) + "-" + stamp
    ensures r.Err? ==> (r.error.TimeSyntax? <==> year < 1000 || year > 9999)
  {
    var value := Itoa(year) + "-" + stamp;
    var t := StampFields(year, stamp);
    if year < 1000 then Err(TimeSyntax(value, value, "2006"))
    else if year > 9999 then
      ItoaLong(year);
      Err(TimeSyntax(value, value[4..], "-"))
    else if t.month < 1 || t.month > 12 then Err(TimeRange(value, "month"))
    else if t.hour >= 24 then Err(TimeRange(value, "hour"))
    else if t.minute >= 60 then Err(TimeRange(value, "minute"))
    else if t.second >= 60 then Err(TimeRange(value, "second"))
    else if t.day < 1 || t.day > DaysIn(t.month, year) then Err(TimeRange(value, "day"))
    else Ok(t)
  }

  /** A bad month is reported before any other field; the day, whose range
      depends on month and year, is checked after all the others. */
  lemma ParseTimeFieldOrder(year: int, stamp: Bytes)
    requires IsStamp(stamp) && 1000 <= year <= 9999
    ensures !(1 <= StampFields(year, stamp).month <= 12) ==> ParseTime(year, stamp).error.field == "month"
    ensures DayCheckedLast(year, stamp) ==> ParseTime(year, stamp).error.field == "day"
  {
  }

  /** Every field but the day is in range, and the day is not. */
  predicate DayCheckedLast(year: int, stamp: Bytes)
    requires IsStamp(stamp)
  {
    var t := StampFields(year, stamp);
    && 1 <= t.month <= 12 && t.hour < 24 && t.minute < 60 && t.second < 60
    && !(1 <= t.day <= DaysIn(t.month, year))
  }

  /** February 29 is accepted exactly in leap years. */
  lemma LeapDay(year: int, stamp: Bytes)
    requires IsStamp(stamp) && 1000 <= year <= 9999
    requires StampFields(year, stamp).month == 2 && StampFields(year, stamp).day == 29
    requires StampFields(year, stamp).hour < 24 && StampFields(year, stamp).minute < 60
    requires StampFields(year, stamp).second < 60
    ensures ParseTime(year, stamp).Ok? <==> IsLeap(year)
  {
  }

  // ---------------------------------------------------------------------------
  // `strconv.Atoi` on a run of digits

  /** `strconv.Atoi` on a run of digits: the run's value, or a range error
      when it does not fit in an `int`. Leading zeros are allowed. */
  function Atoi(s: Bytes): (r: Result<int, Cause>)
    requires IsNumber(s)
    ensures r.Ok? <==> Value(s) <= MaxInt
    ensures r.Ok? ==> r.value == Value(s)
    ensures r.Err? ==> r.error == IntRange(s)
  {
    if Value(s) <= MaxInt then Ok(Value(s)) else Err(IntRange(s))
  }

  /** `Atoi` reads back what `Itoa` writes for every non-negative `int`. */
  lemma AtoiOfItoa(n: int)
    requires 0 <= n <= MaxInt
    ensures IsNumber(Itoa(n)) && Atoi(Itoa(n)) == Ok(n)
  {
    ValueOfNatText(n);
  }

  // ---------------------------------------------------------------------------
  // `parseLine`

  /** What every entry `parseLine` returns satisfies. */
  predicate Primary(e: LogEntry) {
    && !e.isStackLine && e.processName == []
    && e.level in LogLevels.Levels
    && ValidTime(e.timestamp)
    && 0 <= e.processId <= MaxInt && 0 <= e.threadId <= MaxInt
    && NoColon(e.tag)
    && (|e.tag| > 0 ==> !IsSpace(e.tag[0]) && !IsSpace(e.tag[|e.tag| - 1]))
    && NoNewline(e.message)
  }

  lemma SliceNoColon(s: Bytes, i: nat, j: nat)
    requires i <= j <= |s| && NoColon(s)
    ensures NoColon(s[i..j])
  {
    assert forall k :: 0 <= k < j - i ==> s[i..j][k] == s[i + k];
  }

  lemma NoColonTrim(s: Bytes)
    requires NoColon(s)
    ensures NoColon(TrimSpace(s))
  {
    var i, j :| 0 <= i <= j <= |s| && TrimSpace(s) == s[i..j];
    SliceNoColon(s, i, j);
  }

  /** `parseLine` on a line the grammar matched, cut as `sp`. The level
      letter is converted with `ToLogLevel`. */
  function Build(year: int, line: Bytes, sp: Split): (r: Result<LogEntry, ParseError>)
    requires Derives(line, sp)
    ensures r.Ok? <==> ValidTime(StampFields(year, sp.stamp)) && Value(sp.pid) <= MaxInt && Value(sp.tid) <= MaxInt
    ensures r.Ok? ==> Primary(r.value)
    ensures r.Ok? ==> r.value.timestamp == StampFields(year, sp.stamp)
    ensures r.Ok? ==> r.value.processId == Value(sp.pid) && r.value.threadId == Value(sp.tid)
    ensures r.Ok? ==> r.value.level.repr == [sp.level]
    ensures r.Ok? ==> r.value.tag == TrimSpace(sp.rawTag) && r.value.message == sp.message
    ensures r.Err? ==> r.error.line == line && r.error.err.Some?
  {
    match ParseTime(year, sp.stamp)
    case Err(c) => Err(ParseError(line, Some(c)))
    case Ok(ts) => WithIds(line, sp, ts)
  }

  /** The rest of `parseLine` once the time stamp is read: the two ids. */
  function WithIds(line: Bytes, sp: Split, ts: Timestamp): (r: Result<LogEntry, ParseError>)
    requires Derives(line, sp) && ValidTime(ts)
    ensures r.Ok? <==> Value(sp.pid) <= MaxInt && Value(sp.tid) <= MaxInt
    ensures r.Ok? ==> r.value == NewEntry(sp, ts, Value(sp.pid), Value(sp.tid))
    ensures r.Err? ==> r.error.line == line && r.error.err.Some?
  {
    match Atoi(sp.pid)
    case Err(c) => Err(ParseError(line, Some(c)))
    case Ok(pid) =>
      match Atoi(sp.tid)
      case Err(c) => Err(ParseError(line, Some(c)))
      case Ok(tid) => Ok(NewEntry(sp, ts, pid, tid))
  }

  /** The entry a matched line describes; the level letter is converted with
      `ToLogLevel`. */
  function NewEntry(sp: Split, ts: Timestamp, pid: int, tid: int): (e: LogEntry)
    requires WellFormed(sp) && ValidTime(ts) && 0 <= pid <= MaxInt && 0 <= tid <= MaxInt
    ensures Primary(e) && e.level.repr == [sp.level]
  {
    assert LogLevels.IsKey(LowerByte(sp.level));
    NoColonTrim(sp.rawTag);
    LogEntry(ts, pid, tid, LogLevels.ToLogLevel([sp.level]), TrimSpace(sp.rawTag), sp.message, [], false)
  }

  /** `parseLine`. */
  function ParseLine(year: int, line: Bytes): (r: Result<LogEntry, ParseError>)
    ensures r.Err? ==> r.error.line == line
    ensures (r.Err? && r.error.err.None?) <==> Match(line).None?
    ensures r.Ok? ==> Primary(r.value) && Match(line).Some?
    ensures r.Ok? ==> r.value.tag == TrimSpace(Match(line).value.rawTag)
    ensures r.Ok? ==> r.value.message == Match(line).value.message
  {
    match Match(line)
    case None => Err(ParseError(line, None))
    case Some(sp) => Build(year, line, sp)
  }

  /** Every line of the logcat grammar with a valid time stamp and numbers
      that fit an `int` parses, into the entry its pieces spell. */
  lemma ParseLineComplete(year: int, line: Bytes, sp: Split)
    requires Derives(line, sp)
    requires ValidTime(StampFields(year, sp.stamp)) && Value(sp.pid) <= MaxInt && Value(sp.tid) <= MaxInt
    ensures ParseLine(year, line).Ok?
    ensures ParseLine(year, line).value.timestamp == StampFields(year, sp.stamp)
    ensures ParseLine(year, line).value.processId == Value(sp.pid)
    ensures ParseLine(year, line).value.threadId == Value(sp.tid)
    ensures ParseLine(year, line).value.level == LogLevels.ToLogLevel([sp.level])
    ensures ParseLine(year, line).value.tag == TrimSpace(sp.rawTag)
    ensures |sp.message| == 0 || !IsReSpace(sp.message[0]) ==> ParseLine(year, line).value.message == sp.message
  {
    MatchComplete(line, sp);
    var m := Match(line).value;
    assert ParseLine(year, line) == Build(year, line, m);
    assert StampFields(year, m.stamp) == StampFields(year, sp.stamp);
  }

  /** A line of the grammar whose time stamp is not a valid time is an
      error that carries the time error. */
  lemma ParseLineBadTime(year: int, line: Bytes, sp: Split)
    requires Derives(line, sp) && !ValidTime(StampFields(year, sp.stamp))
    ensures ParseLine(year, line) == Err(ParseError(line, Some(ParseTime(year, sp.stamp).error)))
  {
    MatchComplete(line, sp);
  }

  /** A line of the grammar with a valid time stamp but a process id that
      overflows an `int` is an error that carries the range error. */
  lemma ParseLineBadPid(year: int, line: Bytes, sp: Split)
    requires Derives(line, sp) && ValidTime(StampFields(year, sp.stamp)) && Value(sp.pid) > MaxInt
    ensures ParseLine(year, line) == Err(ParseError(line, Some(IntRange(sp.pid))))
  {
    MatchComplete(line, sp);
  }

  // ---------------------------------------------------------------------------
  // The line loop of `Start`

  const MetaPrefix: Bytes := "--------- "
  const Tab: Bytes := "\t"

  /** What the loop sends for one line: an entry on `logCh`, a line on
      `metaCh` or an error on `errCh`. */
  datatype Item = EntryItem(entry: LogEntry) | MetaItem(line: Bytes) | ErrorItem(err: ParseError)

  predicate SameHeader(e: LogEntry, parent: LogEntry) {
    && e.timestamp == parent.timestamp && e.processId == parent.processId
    && e.threadId == parent.threadId && e.level == parent.level
    && e.tag == parent.tag && e.processName == parent.processName
  }

  /** A stack-trace line: the current entry's header with the whole line as
      its message. */
  function StackEntry(parent: LogEntry, line: Bytes): (e: LogEntry)
    ensures SameHeader(e, parent) && e.isStackLine && e.message == line
  {
    parent.(message := line, isStackLine := true)
  }

  /** One line's item and the current entry after it. */
  type Outcome = Step<Item, Option<LogEntry>>

  /** One iteration of the loop, with `current` standing for `currentEntry`.
      Metadata does not reset the current entry. */
  function ReadLine(year: int, current: Option<LogEntry>, line: Bytes): (o: Outcome)
    ensures o.out.MetaItem? <==> HasPrefix(line, MetaPrefix)
    ensures o.out.MetaItem? ==> o.out.line == line && o.state == current
    ensures o.out.ErrorItem? ==> o.out.err.line == line && o.state == current
    ensures o.out.ErrorItem? ==> ParseLine(year, line) == Err(o.out.err)
    ensures o.out.ErrorItem? ==> !(current.Some? && HasPrefix(line, Tab))
    ensures (o.out.EntryItem? && !o.out.entry.isStackLine)
        <==> !HasPrefix(line, MetaPrefix) && ParseLine(year, line).Ok?
    ensures o.out.EntryItem? && !o.out.entry.isStackLine
        ==> Primary(o.out.entry) && o.state == Some(o.out.entry)
    ensures o.out.EntryItem? && o.out.entry.isStackLine
        ==> current.Some? && HasPrefix(line, Tab) && o.state == current
            && o.out.entry == StackEntry(current.value, line)
  {
    if HasPrefix(line, MetaPrefix) then Step(MetaItem(line), current)
    else
      match ParseLine(year, line)
      case Ok(e) => Step(EntryItem(e), Some(e))
      case Err(pe) =>
        if current.Some? && HasPrefix(line, Tab) then
          Step(EntryItem(StackEntry(current.value, line)), current)
        else
          Step(ErrorItem(pe), current)
  }

  /** A tab-indented line never parses, so with a current entry it always
      becomes a stack line; without one it is an error. */
  lemma TabLine(year: int, current: Option<LogEntry>, line: Bytes)
    requires HasPrefix(line, Tab)
    ensures current.Some? ==> ReadLine(year, current, line).out == EntryItem(StackEntry(current.value, line))
    ensures current.None? ==> ReadLine(year, current, line).out == ErrorItem(ParseError(line, None))
  {
    NoMatchWithoutLeadingDigit(line);
  }

  /** The loop of `Start` over `lines`, starting with current entry `start`. */
  function ReadFrom(year: int, start: Option<LogEntry>, lines: seq<Bytes>): (r: Run<Item, Option<LogEntry>>)
    ensures |r.outs| == |lines|
    ensures |lines| == 0 ==> r.state == start
  {
    Fold((c: Option<LogEntry>, l: Bytes) => ReadLine(year, c, l), start, lines)
  }

  /** The items of `Start` for a whole input: there is no current entry
      before the first line. */
  function Read(year: int, lines: seq<Bytes>): (items: seq<Item>)
    ensures |items| == |lines|
  {
    ReadFrom(year, None, lines).outs
  }

  /** Item `i` of the reader is what one iteration makes of line `i` in the
      state the earlier lines left. */
  lemma ReadItem(year: int, lines: seq<Bytes>, i: nat)
    requires i < |lines|
    ensures Read(year, lines)[i] == ReadLine(year, ReadFrom(year, None, lines[..i]).state, lines[i]).out
  {
    FoldItem((c: Option<LogEntry>, l: Bytes) => ReadLine(year, c, l), None, lines, i);
  }

  /** The reader's items for a prefix of the input are a prefix of its
      items. */
  lemma ReadPrefix(year: int, lines: seq<Bytes>, k: nat)
    requires k <= |lines|
    ensures Read(year, lines[..k]) == Read(year, lines)[..k]
  {
    FoldPrefix((c: Option<LogEntry>, l: Bytes) => ReadLine(year, c, l), None, lines, k);
  }

  /** An item that is a primary entry: parsed, not a stack line. */
  predicate PrimaryItem(it: Item) {
    it.EntryItem? && !it.entry.isStackLine
  }

  /** The last primary entry among `items`, as a reference for the current
      entry: none when there is no primary entry, and otherwise one that no
      later primary entry follows. */
  function LastPrimary(items: seq<Item>): (r: Option<LogEntry>)
    ensures r.Some? ==> exists j :: 0 <= j < |items| && items[j] == EntryItem(r.value) && !r.value.isStackLine
    ensures r.None? <==> forall j :: 0 <= j < |items| ==> !PrimaryItem(items[j])
    ensures r.Some? ==> exists j :: 0 <= j < |items| && items[j] == EntryItem(r.value) && !r.value.isStackLine
                                 && forall k :: j < k < |items| ==> !PrimaryItem(items[k])
  {
    if |items| == 0 then None
    else
      var n := |items| - 1;
      var last := items[n];
      if PrimaryItem(last) then Some(last.entry)
      else
        var r := LastPrimary(items[..n]);
        LastPrimaryStep(items[..n], last, r);
        assert items[..n] + [last] == items;
        r
  }

  /** A last item that is not primary leaves the last primary entry as it
      was among the earlier items. */
  lemma LastPrimaryStep(pre: seq<Item>, x: Item, r: Option<LogEntry>)
    requires !PrimaryItem(x)
    requires r.None? <==> forall j :: 0 <= j < |pre| ==> !PrimaryItem(pre[j])
    requires r.Some? ==> exists j :: 0 <= j < |pre| && pre[j] == EntryItem(r.value) && !r.value.isStackLine
                                 && forall k :: j < k < |pre| ==> !PrimaryItem(pre[k])
    ensures var items := pre + [x];
      && (r.None? <==> forall j :: 0 <= j < |items| ==> !PrimaryItem(items[j]))
      && (r.Some? ==> exists j :: 0 <= j < |items| && items[j] == EntryItem(r.value) && !r.value.isStackLine
                                 && forall k :: j < k < |items| ==> !PrimaryItem(items[k]))
  {
    var items := pre + [x];
    assert forall j :: 0 <= j < |pre| ==> items[j] == pre[j];
    if r.Some? {
      var j :| 0 <= j < |pre| && pre[j] == EntryItem(r.value) && !r.value.isStackLine
             && forall k :: j < k < |pre| ==> !PrimaryItem(pre[k]);
      assert items[j] == EntryItem(r.value);
    }
  }

  /** The current entry is always the last primary entry sent so far. */
  lemma {:induction false} CurrentIsLastPrimary(year: int, lines: seq<Bytes>)
    ensures ReadFrom(year, None, lines).state == LastPrimary(Read(year, lines))
    decreases |lines|
  {
    if |lines| > 0 {
      var n := |lines| - 1;
      CurrentIsLastPrimary(year, lines[..n]);
      ReadPrefix(year, lines, n);
    }
  }

  /** Every stack line carries the header of the last primary entry before
      it, and its own raw line as message. */
  lemma StackCopiesParent(year: int, lines: seq<Bytes>, i: nat)
    requires i < |lines|
    requires Read(year, lines)[i].EntryItem? && Read(year, lines)[i].entry.isStackLine
    ensures LastPrimary(Read(year, lines)[..i]).Some?
    ensures SameHeader(Read(year, lines)[i].entry, LastPrimary(Read(year, lines)[..i]).value)
    ensures Read(year, lines)[i].entry.message == lines[i] && HasPrefix(lines[i], Tab)
  {
    ReadItem(year, lines, i);
    ReadPrefix(year, lines, i);
    CurrentIsLastPrimary(year, lines[..i]);
  }

  /** Each line's item: metadata lines come back verbatim, errors are the
      error `parseLine` returns for the line, and primary entries are what
      `parseLine` returns. */
  lemma ReadClassifies(year: int, lines: seq<Bytes>, i: nat)
    requires i < |lines|
    ensures Read(year, lines)[i].MetaItem? <==> HasPrefix(lines[i], MetaPrefix)
    ensures Read(year, lines)[i].MetaItem? ==> Read(year, lines)[i].line == lines[i]
    ensures Read(year, lines)[i].ErrorItem? ==> Read(year, lines)[i].err.line == lines[i]
    ensures Read(year, lines)[i].ErrorItem? ==> ParseLine(year, lines[i]) == Err(Read(year, lines)[i].err)
    ensures Read(year, lines)[i].EntryItem? && !Read(year, lines)[i].entry.isStackLine
        ==> ParseLine(year, lines[i]) == Ok(Read(year, lines)[i].entry)
  {
    ReadItem(year, lines, i);
  }

  /** A metadata line leaves the current entry alone, so a stack line after
      it still attaches to the entry before it. */
  lemma MetadataKeepsCurrent(year: int, lines: seq<Bytes>, meta: Bytes)
    requires HasPrefix(meta, MetaPrefix)
    ensures ReadFrom(year, None, lines + [meta]).state == ReadFrom(year, None, lines).state
  {
    FoldSnoc((c: Option<LogEntry>, l: Bytes) => ReadLine(year, c, l), None, lines, meta);
  }

  /** Before the first primary entry no line is a stack line. */
  lemma NoStackBeforePrimary(year: int, lines: seq<Bytes>, i: nat)
    requires i < |lines| && LastPrimary(Read(year, lines)[..i]).None?
    ensures !(Read(year, lines)[i].EntryItem? && Read(year, lines)[i].entry.isStackLine)
  {
    if Read(year, lines)[i].EntryItem? && Read(year, lines)[i].entry.isStackLine {
      StackCopiesParent(year, lines, i);
    }
  }

  /** Every entry the reader sends, primary or stack line, has one of the
      six levels of the table: a stack line inherits its parent's. */
  lemma EntryLevelKnown(year: int, lines: seq<Bytes>, i: nat)
    requires i < |lines| && Read(year, lines)[i].EntryItem?
    ensures Read(year, lines)[i].entry.level in LogLevels.Levels
  {
    var items := Read(year, lines);
    if items[i].entry.isStackLine {
      StackCopiesParent(year, lines, i);
      var parent := LastPrimary(items[..i]).value;
      var j :| 0 <= j < i && items[..i][j] == EntryItem(parent) && !parent.isStackLine;
      assert items[j] == EntryItem(parent);
      ReadClassifies(year, lines, j);
    } else {
      ReadClassifies(year, lines, i);
    }
  }

  // ---------------------------------------------------------------------------
  // The three output channels

  function Entries(items: seq<Item>): (r: seq<LogEntry>)
    ensures |r| <= |items|
  {
    if |items| == 0 then []
    else
      var rest := Entries(items[..|items| - 1]);
      var last := items[|items| - 1];
      if last.EntryItem? then rest + [last.entry] else rest
  }

  function Metas(items: seq<Item>): (r: seq<Bytes>)
    ensures |r| <= |items|
  {
    if |items| == 0 then []
    else
      var rest := Metas(items[..|items| - 1]);
      var last := items[|items| - 1];
      if last.MetaItem? then rest + [last.line] else rest
  }

  function Errors(items: seq<Item>): (r: seq<ParseError>)
    ensures |r| <= |items|
  {
    if |items| == 0 then []
    else
      var rest := Errors(items[..|items| - 1]);
      var last := items[|items| - 1];
      if last.ErrorItem? then rest + [last.err] else rest
  }

  /** Every item goes to exactly one channel. */
  lemma {:induction false} ChannelsPartition(items: seq<Item>)
    ensures |Entries(items)| + |Metas(items)| + |Errors(items)| == |items|
    decreases |items|
  {
    if |items| > 0 {
      ChannelsPartition(items[..|items| - 1]);
    }
  }

  /** Every line yields exactly one value on exactly one channel. */
  lemma OneItemPerLine(year: int, lines: seq<Bytes>)
    ensures var items := Read(year, lines);
      |Entries(items)| + |Metas(items)| + |Errors(items)| == |lines|
  {
    ChannelsPartition(Read(year, lines));
  }
}
