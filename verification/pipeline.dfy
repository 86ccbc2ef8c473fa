/** The three stages put together as cmd/root.go wires them: the reader's
    entries pass through the filter, and its metadata lines and errors go
    straight to the printer. The goroutines and channels are replaced by one
    in-order interleaving: the printer sees every item in the order the
    reader produced it. */
module Pipeline {
  import opened Strings
  import opened Wrappers
  import LogLevels
  import opened LogReader
  import opened Filter
  import opened Printer

  /** What reaches the printer for one reader item: an entry only when the
      filter admits it, metadata as is, and an error as its text. */
  function Forward(cfg: Config, it: Item): (evs: seq<Event>)
    ensures |evs| <= 1
    ensures it.EntryItem? ==> (|evs| == 1 <==> Admits(cfg, it.entry))
    ensures |evs| == 1 ==> (evs[0].EntryEvent? <==> it.EntryItem?)
    ensures it.EntryItem? && |evs| == 1 ==> evs[0] == EntryEvent(it.entry)
    ensures it.MetaItem? ==> evs == [MetaEvent(it.line)]
    ensures it.ErrorItem? ==> evs == [ErrEvent(ErrorText(it.err))]
  {
    match it
    case EntryItem(e) => if Admits(cfg, e) then [EntryEvent(e)] else []
    case MetaItem(line) => [MetaEvent(line)]
    case ErrorItem(pe) => [ErrEvent(ErrorText(pe))]
  }

  /** The events of a whole run, in the reader's order. */
  function Events(cfg: Config, items: seq<Item>): (evs: seq<Event>)
    ensures |evs| <= |items|
  {
    if |items| == 0 then []
    else Events(cfg, items[..|items| - 1]) + Forward(cfg, items[|items| - 1])
  }

  /** The entries among some events, in order. */
  function EventEntries(evs: seq<Event>): seq<LogEntry> {
    if |evs| == 0 then []
    else
      var rest := EventEntries(evs[..|evs| - 1]);
      if evs[|evs| - 1].EntryEvent? then rest + [evs[|evs| - 1].entry] else rest
  }

  /** The metadata lines among some events, in order. */
  function EventMetas(evs: seq<Event>): seq<Bytes> {
    if |evs| == 0 then []
    else
      var rest := EventMetas(evs[..|evs| - 1]);
      if evs[|evs| - 1].MetaEvent? then rest + [evs[|evs| - 1].line] else rest
  }

  /** The error texts among some events, in order. */
  function EventErrors(evs: seq<Event>): seq<Bytes> {
    if |evs| == 0 then []
    else
      var rest := EventErrors(evs[..|evs| - 1]);
      if evs[|evs| - 1].ErrEvent? then rest + [evs[|evs| - 1].text] else rest
  }

  /** `err.Error()` of each parse error. */
  function Texts(errs: seq<ParseError>): (r: seq<Bytes>)
    ensures |r| == |errs|
  {
    if |errs| == 0 then [] else Texts(errs[..|errs| - 1]) + [ErrorText(errs[|errs| - 1])]
  }

  lemma EventsSnoc(evs: seq<Event>, more: seq<Event>)
    requires |more| <= 1
    ensures EventEntries(evs + more) == EventEntries(evs) + EventEntries(more)
    ensures EventMetas(evs + more) == EventMetas(evs) + EventMetas(more)
    ensures EventErrors(evs + more) == EventErrors(evs) + EventErrors(more)
  {
    if |more| == 0 {
      assert evs + more == evs;
    } else {
      assert (evs + more)[..|evs|] == evs;
    }
  }

  /** One more item adds to the kept entries exactly the entry its event
      carries, if any. */
  lemma KeepEntriesSnoc(cfg: Config, items: seq<Item>)
    requires |items| > 0
    ensures Keep(cfg, Entries(items))
         == Keep(cfg, Entries(items[..|items| - 1])) + EventEntries(Forward(cfg, items[|items| - 1]))
  {
    var n := |items| - 1;
    var rest := Entries(items[..n]);
    var fwd := Forward(cfg, items[n]);
    if items[n].EntryItem? {
      var e := items[n].entry;
      assert Entries(items) == rest + [e];
      assert (rest + [e])[..|rest|] == rest;
      assert Keep(cfg, rest + [e]) == Keep(cfg, rest) + (if Admits(cfg, e) then [e] else []);
      if Admits(cfg, e) {
        assert fwd == [EntryEvent(e)] && fwd[..0] == [];
      }
    } else {
      assert Entries(items) == rest;
      assert |fwd| == 1 && fwd[..0] == [];
    }
  }

  /** The printer receives exactly the entries the filter keeps, in the
      reader's order. */
  lemma {:induction false} EventsKeepEntries(cfg: Config, items: seq<Item>)
    ensures EventEntries(Events(cfg, items)) == Keep(cfg, Entries(items))
    decreases |items|
  {
    if |items| > 0 {
      var n := |items| - 1;
      var prev := Events(cfg, items[..n]);
      var fwd := Forward(cfg, items[n]);
      assert Events(cfg, items) == prev + fwd;
      EventsSnoc(prev, fwd);
      EventsKeepEntries(cfg, items[..n]);
      KeepEntriesSnoc(cfg, items);
    }
  }

  /** The printer receives every metadata line, in the reader's order. */
  lemma {:induction false} EventsKeepMetas(cfg: Config, items: seq<Item>)
    ensures EventMetas(Events(cfg, items)) == Metas(items)
    decreases |items|
  {
    if |items| > 0 {
      var n := |items| - 1;
      EventsKeepMetas(cfg, items[..n]);
      EventsSnoc(Events(cfg, items[..n]), Forward(cfg, items[n]));
    }
  }

  /** One more item adds to the error texts exactly the text its event
      carries, if any. */
  lemma TextsSnoc(cfg: Config, items: seq<Item>)
    requires |items| > 0
    ensures Texts(Errors(items))
         == Texts(Errors(items[..|items| - 1])) + EventErrors(Forward(cfg, items[|items| - 1]))
  {
    var n := |items| - 1;
    var rest := Errors(items[..n]);
    var fwd := Forward(cfg, items[n]);
    if items[n].ErrorItem? {
      var pe := items[n].err;
      assert Errors(items) == rest + [pe];
      TextsAppend(rest, pe);
      assert fwd == [ErrEvent(ErrorText(pe))] && fwd[..0] == [];
      assert EventErrors(fwd) == [ErrorText(pe)];
    } else {
      assert Errors(items) == rest;
      assert |fwd| == 0 || (!fwd[0].ErrEvent? && fwd[..0] == []);
      assert EventErrors(fwd) == [];
    }
  }

  lemma TextsAppend(errs: seq<ParseError>, pe: ParseError)
    ensures Texts(errs + [pe]) == Texts(errs) + [ErrorText(pe)]
  {
    assert (errs + [pe])[..|errs|] == errs;
  }

  /** The printer receives the text of every error, in the reader's order. */
  lemma {:induction false} EventsKeepErrors(cfg: Config, items: seq<Item>)
    ensures EventErrors(Events(cfg, items)) == Texts(Errors(items))
    decreases |items|
  {
    if |items| > 0 {
      var n := |items| - 1;
      var prev := Events(cfg, items[..n]);
      var fwd := Forward(cfg, items[n]);
      assert Events(cfg, items) == prev + fwd;
      EventsSnoc(prev, fwd);
      EventsKeepErrors(cfg, items[..n]);
      TextsSnoc(cfg, items);
    }
  }

  /** Everything gocat writes for `lines`, read with `year` as the current
      year and filtered by `cfg`. */
  function Output(year: int, cfg: Config, lines: seq<Bytes>): (w: seq<Write>)
    ensures |w| <= |lines|
  {
    Render(None, Events(cfg, Read(year, lines))).outs
  }

  /** A stack line is shown exactly when the entry it belongs to is shown:
      the filter reads only the tag and the level, and a stack line copies
      both from its parent. A trace is shown or hidden as a whole. */
  lemma StackFollowsParent(year: int, cfg: Config, lines: seq<Bytes>, i: nat)
    requires i < |lines|
    requires Read(year, lines)[i].EntryItem? && Read(year, lines)[i].entry.isStackLine
    ensures LastPrimary(Read(year, lines)[..i]).Some?
    ensures Admits(cfg, Read(year, lines)[i].entry) == Admits(cfg, LastPrimary(Read(year, lines)[..i]).value)
  {
    StackCopiesParent(year, lines, i);
  }

  lemma {:induction false} EntriesHaveLevels(items: seq<Item>)
    requires forall i :: 0 <= i < |items| && items[i].EntryItem? ==> items[i].entry.level.id >= LogLevels.LevelVerbose
    ensures forall k :: 0 <= k < |Entries(items)| ==> Entries(items)[k].level.id >= LogLevels.LevelVerbose
    decreases |items|
  {
    if |items| > 0 {
      var n := |items| - 1;
      assert forall i :: 0 <= i < n ==> items[..n][i] == items[i];
      EntriesHaveLevels(items[..n]);
    }
  }

  /** With the command line's defaults (no tag lists, minimum level
      verbose) every entry the reader produces reaches the printer. */
  lemma DefaultShowsAll(year: int, lines: seq<Bytes>)
    ensures var items := Read(year, lines);
      EventEntries(Events(Config([], [], LogLevels.VerboseLevel, []), items)) == Entries(items)
  {
    var items := Read(year, lines);
    forall i | 0 <= i < |items| && items[i].EntryItem?
      ensures items[i].entry.level.id >= LogLevels.LevelVerbose
    {
      EntryLevelKnown(year, lines, i);
      LogLevels.TableShape();
    }
    DefaultKeepsLeveled(items);
  }

  lemma DefaultKeepsLeveled(items: seq<Item>)
    requires forall i :: 0 <= i < |items| && items[i].EntryItem? ==> items[i].entry.level.id >= LogLevels.LevelVerbose
    ensures EventEntries(Events(Config([], [], LogLevels.VerboseLevel, []), items)) == Entries(items)
  {
    EntriesHaveLevels(items);
    EventsKeepEntries(Config([], [], LogLevels.VerboseLevel, []), items);
    KeepAllByDefault(Entries(items));
  }
}
