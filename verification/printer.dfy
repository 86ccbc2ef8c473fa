/** The printer of internal/printer/printer.go as a state machine over the
    events it receives. Its state is the tag of the last primary entry it
    printed (`previousEntry`); every event yields one write, to the primary
    output or to the error output. Colour output is taken to be on. */
module Printer {
  import opened Strings
  import opened Wrappers
  import opened Ansi
  import LogLevels
  import opened LogReader
  import opened Folds

  const MaxTagLength: nat := 25

  /** `tagColors`: the eight hex colours as foreground true-colour
      parameters. */
  const TagColors: seq<Style> := [
    Style("38;2;255;255;255"), Style("38;2;255;120;95"), Style("38;2;255;208;99"),
    Style("38;2;0;219;180"), Style("38;2;0;188;196"), Style("38;2;133;107;245"),
    Style("38;2;206;143;249"), Style("38;2;255;101;191")]

  /** "…" in UTF-8: three bytes. */
  const Ellipsis: Bytes := ['\U{E2}', '\U{80}', '\U{A6}']

  /** The colour of `getTag`: picked by the tag's byte length, before any
      truncation. */
  function TagColor(tag: Bytes): (st: Style)
    ensures st in TagColors && ValidStyle(st) && |st.sgr| > 0
  {
    PaletteValid();
    TagColors[|tag| % |TagColors|]
  }

  /** Every palette entry is a non-empty run of digits and ';'. */
  lemma PaletteValid()
    ensures forall k :: 0 <= k < |TagColors| ==> ValidStyle(TagColors[k]) && |TagColors[k].sgr| > 0
  {
    forall k | 0 <= k < |TagColors|
      ensures ValidStyle(TagColors[k]) && |TagColors[k].sgr| > 0
    {
      var st := TagColors[k];
      assert forall i :: 0 <= i < |st.sgr| ==> IsParam(st.sgr[i]);
    }
  }

  /** Tags of the same byte length get the same colour. */
  lemma TagColorByLength(a: Bytes, b: Bytes)
    requires |a| == |b|
    ensures TagColor(a) == TagColor(b)
  {
  }

  /** The text of `getTag` before it is coloured: a tag of at most 25 bytes
      right-aligned in 25 columns, a longer one cut to 24 bytes and "…". */
  function TagText(tag: Bytes): (t: Bytes)
    ensures |tag| <= MaxTagLength ==> |t| == MaxTagLength
    ensures |tag| <= MaxTagLength ==> AllBlanks(t[..MaxTagLength - |tag|]) && t[MaxTagLength - |tag|..] == tag
    ensures |tag| > MaxTagLength ==> |t| == MaxTagLength + 2 && t[..MaxTagLength - 1] == tag[..MaxTagLength - 1]
    ensures |tag| > MaxTagLength ==> t[MaxTagLength - 1..] == Ellipsis
  {
    if |tag| > MaxTagLength then tag[..MaxTagLength - 1] + Ellipsis
    else Spaces(MaxTagLength - |tag|) + tag
  }

  /** A tag with no white space at its ends and at most 25 bytes is
      recovered from its column by trimming. */
  lemma TagTextRoundTrip(tag: Bytes)
    requires |tag| <= MaxTagLength
    requires |tag| > 0 ==> !IsSpace(tag[0]) && !IsSpace(tag[|tag| - 1])
    ensures TrimSpace(TagText(tag)) == tag
  {
    var pad := Spaces(MaxTagLength - |tag|);
    assert AllSpace(pad);
    TrimSpaceSkipsLeadingSpace(pad, tag);
    TrimSpaceOfTrimmed(tag);
  }

  lemma TrimSpaceOfTrimmed(t: Bytes)
    requires |t| > 0 ==> !IsSpace(t[0]) && !IsSpace(t[|t| - 1])
    ensures TrimSpace(t) == t
  {
    assert TrimLeft(t) == t;
    assert TrimRight(t) == t;
  }

  /** `getTag` */
  function GetTag(tag: Bytes): (r: Bytes)
    ensures |r| > 0 && r[0] == Esc
    ensures HasPrefix(r, [Esc, '['] + TagColor(tag).sgr + ['m'])
    ensures NoEsc(tag) ==> Strip(r) == TagText(tag)
  {
    GetTagVisible(tag);
    Sprint(TagColor(tag), TagText(tag))
  }

  lemma GetTagVisible(tag: Bytes)
    ensures NoEsc(tag) ==> Strip(Sprint(TagColor(tag), TagText(tag))) == TagText(tag)
  {
    if NoEsc(tag) {
      StripNoEscOfTag(tag);
      StripNoEsc(TagText(tag));
      StripSprint(TagColor(tag), TagText(tag));
    }
  }

  // ---------------------------------------------------------------------------
  // Events and writes

  /** What the printer receives: an entry from the filter, a metadata line,
      or the text of an error. */
  datatype Event = EntryEvent(entry: LogEntry) | MetaEvent(line: Bytes) | ErrEvent(text: Bytes)

  /** One write, to `out` or to `errOut`. */
  datatype Write = Out(text: Bytes) | ErrOut(text: Bytes)

  /** A write and the printer's state after it. */
  type Printed = Step<Write, Option<Bytes>>

  /** `color.New(color.FgMagenta, color.Bold)` */
  const MetaStyle := Style("35;1")

  /** `color.FgRed` */
  const ErrorStyle := Style("31")

  const Newline: Bytes := "\n"

  /** The tag column: blank when the last primary entry printed had the
      same tag (compared exactly), the coloured tag otherwise. */
  function TagColumn(previous: Option<Bytes>, tag: Bytes): (col: Bytes)
    ensures col == Spaces(MaxTagLength) <==> previous == Some(tag)
  {
    if previous == Some(tag) then Spaces(MaxTagLength) else GetTag(tag)
  }

  /** `entryMsg`: " " + tag column + " " + level name. */
  function EntryMsg(previous: Option<Bytes>, e: LogEntry): (r: Bytes)
    ensures HasPrefix(r, " ") && |r| >= |e.level.name| + 1
    ensures r[|r| - |e.level.name|..] == e.level.name && r[|r| - |e.level.name| - 1] == ' '
    ensures previous == Some(e.tag) ==> r == " " + Spaces(MaxTagLength) + " " + e.level.name
  {
    " " + TagColumn(previous, e.tag) + " " + LogLevels.String(e.level)
  }

  /** The message of a primary entry: coloured for the error and fatal
      levels only. */
  function MessageText(e: LogEntry): (m: Bytes)
    ensures e.level.repr == "E" || e.level.repr == "F" ==> m == Sprint(e.level.color, e.message)
    ensures !(e.level.repr == "E" || e.level.repr == "F") ==> m == e.message
  {
    if e.level.repr == "F" || e.level.repr == "E" then Sprint(e.level.color, e.message) else e.message
  }

  /** Colouring never changes what a message reads as. */
  lemma MessageVisible(e: LogEntry)
    requires ValidStyle(e.level.color)
    ensures Strip(MessageText(e)) == Strip(e.message)
  {
    if e.level.repr == "F" || e.level.repr == "E" {
      StripSprint(e.level.color, e.message);
    }
  }

  /** `printLogEntry`. A stack line is indented past the tag and level
      columns, coloured in its level's colour, and leaves the state alone;
      a primary entry becomes the new previous entry. */
  function PrintEntry(previous: Option<Bytes>, e: LogEntry): (p: Printed)
    ensures p.out.Out?
    ensures e.isStackLine ==> p.state == previous
    ensures e.isStackLine ==>
      (p.out.text == Spaces(TrueLen(EntryMsg(previous, e)) + 5) + Sprint(e.level.color, e.message) + Newline)
    ensures !e.isStackLine ==> p.state == Some(e.tag)
    ensures !e.isStackLine ==> p.out.text == EntryMsg(previous, e) + " " + MessageText(e) + Newline
  {
    var msg := EntryMsg(previous, e);
    if e.isStackLine then
      assert Spaces(TrueLen(msg) + 1) + "    " == Spaces(TrueLen(msg) + 5);
      Step(Out(Spaces(TrueLen(msg) + 1) + "    " + Sprint(e.level.color, e.message) + Newline), previous)
    else
      Step(Out(msg + " " + MessageText(e) + Newline), Some(e.tag))
  }

  /** `printMetadata` */
  function PrintMetadata(line: Bytes): (p: Printed)
    ensures p.out.Out? && p.state.None?
  {
    Step(Out(Sprint(MetaStyle, line) + Newline), None)
  }

  /** `printError`, given the error's text. */
  function PrintError(text: Bytes): (p: Printed)
    ensures p.out.ErrOut? && p.state.None?
  {
    Step(ErrOut(Sprint(ErrorStyle, "ERROR: " + text) + Newline), None)
  }

  /** One event. Errors go to the error output only, everything else to the
      primary output; metadata and errors forget the previous entry. */
  function Print(previous: Option<Bytes>, ev: Event): (p: Printed)
    ensures p.out.ErrOut? <==> ev.ErrEvent?
    ensures !ev.EntryEvent? ==> p.state.None?
  {
    match ev
    case EntryEvent(e) => PrintEntry(previous, e)
    case MetaEvent(line) => PrintMetadata(line)
    case ErrEvent(text) => PrintError(text)
  }

  // ---------------------------------------------------------------------------
  // Visible text

  /** Plain text after a coloured span keeps its own escapes apart. */
  lemma StripStyled(st: Style, t: Bytes, rest: Bytes)
    requires ValidStyle(st) && NoEsc(t)
    ensures Strip(Sprint(st, t) + rest) == t + Strip(rest)
  {
    if |st.sgr| == 0 {
      StripPlainPrefix(t, rest);
    } else {
      var open := [Esc, '['] + st.sgr + ['m'];
      assert IsCsi(open) && IsCsi(Reset);
      assert Sprint(st, t) + rest == open + (t + (Reset + rest));
      StripCsiPrefix(open, t + (Reset + rest));
      StripPlainPrefix(t, Reset + rest);
      StripCsiPrefix(Reset, rest);
    }
  }

  lemma NoEscAppend(a: Bytes, b: Bytes)
    requires NoEsc(a) && NoEsc(b)
    ensures NoEsc(a + b)
  {
    assert forall i :: 0 <= i < |a + b| ==> (a + b)[i] == (if i < |a| then a[i] else b[i - |a|]);
  }

  /** A metadata line reads as itself once its colour is removed. */
  lemma MetadataVisible(line: Bytes)
    requires NoEsc(line)
    ensures Strip(PrintMetadata(line).out.text) == line + Newline
  {
    StripStyled(MetaStyle, line, Newline);
    StripNoEsc(Newline);
  }

  /** An error reads as "ERROR: " and its text once its colour is removed. */
  lemma ErrorVisible(text: Bytes)
    requires NoEsc(text)
    ensures Strip(PrintError(text).out.text) == "ERROR: " + text + Newline
  {
    NoEscAppend("ERROR: ", text);
    StripStyled(ErrorStyle, "ERROR: " + text, Newline);
    StripNoEsc(Newline);
  }

  /** What the tag column shows: blanks, or the padded or cut tag. */
  function VisibleColumn(previous: Option<Bytes>, tag: Bytes): Bytes {
    if previous == Some(tag) then Spaces(MaxTagLength) else TagText(tag)
  }

  /** Without escape bytes in the tag and the level name, the visible
      `entryMsg` is " ", the visible tag column, " " and the name; so its
      `trueLen` is 27 plus the name's length for a blank or padded column,
      and 29 plus it for a cut one ("…" counts three bytes). */
  lemma EntryMsgVisible(previous: Option<Bytes>, e: LogEntry)
    requires NoEsc(e.tag) && NoEsc(e.level.name)
    ensures Strip(EntryMsg(previous, e)) == " " + VisibleColumn(previous, e.tag) + " " + e.level.name
    ensures TrueLen(EntryMsg(previous, e)) == 2 + |VisibleColumn(previous, e.tag)| + |e.level.name|
  {
    NoEscAppend(" ", e.level.name);
    ColumnVisible(previous, e.tag, " " + e.level.name);
    assert NoEsc(" ");
    StripEntryMsg(" ", TagColumn(previous, e.tag), VisibleColumn(previous, e.tag), e.level.name);
  }

  lemma StripEntryMsg(sp: Bytes, col: Bytes, vis: Bytes, name: Bytes)
    requires NoEsc(sp) && Strip(col + (sp + name)) == vis + (sp + name)
    ensures Strip(sp + col + sp + name) == sp + vis + sp + name
  {
    var rest := col + (sp + name);
    Regroup(sp, col, sp, name);
    assert sp + col + sp + name == sp + rest;
    StripPlainPrefix(sp, rest);
    assert Strip(sp + rest) == sp + (vis + (sp + name));
    Regroup(sp, vis, sp, name);
  }

  /** Concatenation regrouped to the right. */
  lemma Regroup(a: Bytes, b: Bytes, c: Bytes, d: Bytes)
    ensures a + b + c + d == a + (b + (c + d))
  {
  }

  /** The visible width of `entryMsg`: 27 plus the level name's length for
      a blank or padded column, 29 plus it for a cut one. */
  lemma EntryMsgWidth(previous: Option<Bytes>, e: LogEntry)
    requires NoEsc(e.tag) && NoEsc(e.level.name)
    ensures previous == Some(e.tag) || |e.tag| <= MaxTagLength
      ==> TrueLen(EntryMsg(previous, e)) == 2 + MaxTagLength + |e.level.name|
    ensures previous != Some(e.tag) && |e.tag| > MaxTagLength
      ==> TrueLen(EntryMsg(previous, e)) == 4 + MaxTagLength + |e.level.name|
  {
    EntryMsgVisible(previous, e);
  }

  /** The tag column followed by plain text reads as the visible column and
      that text. */
  lemma ColumnVisible(previous: Option<Bytes>, tag: Bytes, tail: Bytes)
    requires NoEsc(tag) && NoEsc(tail)
    ensures Strip(TagColumn(previous, tag) + tail) == VisibleColumn(previous, tag) + tail
  {
    StripNoEsc(tail);
    if previous == Some(tag) {
      var col := Spaces(MaxTagLength);
      assert NoEsc(col);
      StripPlainPrefix(col, tail);
    } else {
      StripNoEscOfTag(tag);
      StripStyled(TagColor(tag), TagText(tag), tail);
    }
  }

  lemma StripNoEscOfTag(tag: Bytes)
    requires NoEsc(tag)
    ensures NoEsc(TagText(tag))
  {
    var text := TagText(tag);
    if |tag| > MaxTagLength {
      assert forall i :: 0 <= i < |text| ==> text[i] == (if i < MaxTagLength - 1 then tag[i] else Ellipsis[i - (MaxTagLength - 1)]);
    } else {
      assert forall i :: MaxTagLength - |tag| <= i < |text| ==> text[i] == tag[i - (MaxTagLength - |tag|)];
    }
  }

  /** A stack line under a blank tag column is indented by 32 plus the
      level name's length: two spaces, the 25 columns, the name, one more
      space and four. */
  lemma StackIndent(previous: Option<Bytes>, e: LogEntry)
    requires e.isStackLine && NoEsc(e.tag) && NoEsc(e.level.name)
    ensures previous == Some(e.tag) || |e.tag| <= MaxTagLength ==>
      PrintEntry(previous, e).out.text
        == Spaces(32 + |e.level.name|) + Sprint(e.level.color, e.message) + Newline
  {
    EntryMsgWidth(previous, e);
  }

  // ---------------------------------------------------------------------------
  // The printer over a sequence of events

  /** The printer handling `events` in order, from state `start`: all its
      writes and its final state. */
  function Render(start: Option<Bytes>, events: seq<Event>): (r: Run<Write, Option<Bytes>>)
    ensures |r.outs| == |events|
  {
    Fold(Print, start, events)
  }

  /** The tag of the last primary entry after the last metadata line or
      error, if any: a reference for the printer's state. */
  function LastShown(events: seq<Event>): Option<Bytes>
    decreases |events|
  {
    if |events| == 0 then None
    else
      match events[|events| - 1]
      case EntryEvent(e) => if e.isStackLine then LastShown(events[..|events| - 1]) else Some(e.tag)
      case MetaEvent(_) => None
      case ErrEvent(_) => None
  }

  /** The state after any events is the tag of the last primary entry
      printed since the last metadata line or error. */
  lemma {:induction false} PreviousIsLastShown(events: seq<Event>)
    ensures Render(None, events).state == LastShown(events)
    decreases |events|
  {
    if |events| > 0 {
      var n := |events| - 1;
      PreviousIsLastShown(events[..n]);
      FoldLast(Print, None, events);
      PrintState(Render(None, events[..n]).state, events[n]);
    }
  }

  /** The state one event leaves: a primary entry's tag, the old state after
      a stack line, and nothing after metadata or an error. */
  lemma PrintState(previous: Option<Bytes>, ev: Event)
    ensures Print(previous, ev).state
      == if ev.EntryEvent? && !ev.entry.isStackLine then Some(ev.entry.tag)
         else if ev.EntryEvent? then previous
         else None
  {
  }

  /** Write `i` is what the printer makes of event `i` given the last
      primary entry shown before it: in particular the tag column of an
      entry is blank exactly when that entry had the same tag. */
  lemma RenderWrite(events: seq<Event>, i: nat)
    requires i < |events|
    ensures Render(None, events).outs[i] == Print(LastShown(events[..i]), events[i]).out
  {
    FoldItem(Print, None, events, i);
    PreviousIsLastShown(events[..i]);
  }

  /** Render never revises a write: handling more events only appends. */
  lemma RenderPrefix(events: seq<Event>, k: nat)
    requires k <= |events|
    ensures Render(None, events[..k]).outs == Render(None, events).outs[..k]
  {
    FoldPrefix(Print, None, events, k);
  }

  /** Errors, and only errors, reach the error output. */
  lemma RenderRoutes(events: seq<Event>, i: nat)
    requires i < |events|
    ensures Render(None, events).outs[i].ErrOut? <==> events[i].ErrEvent?
  {
    RenderWrite(events, i);
  }

  /** A primary entry right after another with the same tag shows a blank
      tag column; after metadata or an error the tag is shown again. */
  lemma RepeatedTagBlank(events: seq<Event>, i: nat)
    requires 0 < i < |events| && events[i].EntryEvent?
    ensures events[i - 1].EntryEvent? && !events[i - 1].entry.isStackLine
      && events[i - 1].entry.tag == events[i].entry.tag
      ==> TagColumn(LastShown(events[..i]), events[i].entry.tag) == Spaces(MaxTagLength)
    ensures !events[i - 1].EntryEvent?
      ==> TagColumn(LastShown(events[..i]), events[i].entry.tag) == GetTag(events[i].entry.tag)
  {
    assert events[..i][i - 1] == events[i - 1];
  }
}
