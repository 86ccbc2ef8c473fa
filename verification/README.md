# gocat log pipeline, modelled in Dafny

gocat is a wrapper around Android's `logcat`. It reads logcat text line by
line and turns each line into a metadata banner, a log entry, a stack-trace
continuation of the entry before it, or a parse error. It then drops the
entries the user's tag and level options exclude, and prints the rest in
colour with a right-aligned tag column. The column is left blank when an
entry has the same tag as the entry printed just before it.

This project models that pipeline as pure functions over sequences:

- `LogLevels` (`log_level.dfy`): the six-level severity table, its lookup
  `ToLogLevel`, the flag setter `Set` and `String`.
- `LineGrammar` (`line_grammar.dfy`): a recogniser for the logcat line
  regular expression. It returns the six capture groups exactly as Go's
  leftmost-first matching does.
- `LogReader` (`log_reader.dfy`):
  - `parseLine`, including the checks of `time.Parse` and `strconv.Atoi` and
    their error texts;
  - `ParseError.Error`;
  - the read loop, modelled as a fold whose state is the current entry.
- `Filter` (`filter.dfy`): the filter predicate, and `Start` as an
  order-preserving sequence filter.
- `Printer` (`printer.dfy`): `getTag`, `trueLen` and the three print
  operations. They form a state machine over events whose state is the tag
  of the previous primary entry.
- `Pipeline` (`pipeline.dfy`): the stages wired the way `cmd/root.go` wires
  them. Entries pass through the filter; metadata lines and errors go
  straight to the printer.

Helper modules:

- `Strings`: Go byte strings as `seq<Byte>`, ASCII case folding,
  `strings.TrimSpace`, and decimal numerals.
- `Ansi`: styled text `ESC [ params m … ESC [0m`, and the stripping of
  `ESC [ [0-9;]* (m|K)` sequences.
- `Folds`: the generic left fold that both loops are instances of.
- `Wrappers`: `Option` and `Result`.

Go strings are byte strings, so every text is a sequence of bytes. Lengths
and slices count bytes, and "…" is three bytes.

Assumptions:

- Colour output is taken to be enabled.
- The current year is a parameter instead of `time.Now()`.
- Go's `int` is 64 bits wide.
- `logreader.go:142` converts the level letter with
  `types.LogLevel(matches[4])`. `LogLevel` is a struct, so that line does not
  compile as written. It is modelled as `ToLogLevel` of the letter, the only
  letter-to-level mapping in the code.

Choices the code makes that a reader might not expect:

- The filter has no state. Every entry, stack lines included, is judged by
  tag and level alone. `Pipeline.StackFollowsParent` shows that a stack
  line still gets its parent's decision, because it copies the parent's tag
  and level.
- There is no process-name filter. `processNames` is stored and never read.
- A metadata line does not reset the reader's current entry
  (`LogReader.MetadataKeepsCurrent`). A tab-indented line after a banner
  still attaches to the entry before the banner.

## Model

| member | source | states |
|---|---|---|
| LogLevels.TableShape | internal/types/log_level.go:28-82 | The table has exactly the keys v, d, i, w, e, f. The ids run 0..5 from verbose to fatal and agree with the `LevelVerbose..LevelFatal` constants. Each `Repr` is its key in upper case, each name starts with its key, and distinct keys have distinct ids. |
| LogLevels.VerboseIsMinimum | internal/types/log_level.go:73 | `VerboseLevel` is the table's "v" entry. Its id is 0, and no level has a smaller id. |
| LogLevels.KeyInTable | internal/types/log_level.go:28-71 | A string is a key of the table exactly when it is one of the six lower-case letters. |
| LogLevels.ToLogLevel | internal/types/log_level.go:84-86 | Lookup succeeds exactly for one byte that lower-cases to a key. The result is then one of the six levels, with `Repr` equal to the upper-cased byte. Any other text yields the zero level: id 0, empty name and repr. |
| LogLevels.ToLogLevelIgnoresCase | internal/types/log_level.go:84-86 | Texts that are equal up to case give the same level. |
| LogLevels.ToLogLevelOfRepr | internal/types/log_level.go:28-86 | Looking up a level's `Repr` gives the level back. |
| LogLevels.String | internal/types/log_level.go:92-94 | A level's `String` is its name. For a table level the name is non-empty, its first letter is a key of the table, and looking that letter up gives the level back. |
| LogLevels.Set | internal/types/log_level.go:106-113 | Succeeds exactly when the first byte lower-cases to a key, and then sets the level with that letter. Otherwise the receiver is unchanged and the error is "invalid log level: " followed by the argument. |
| LogLevels.SetReadsFirstByteOnly | internal/types/log_level.go:106-108 | Two arguments with the same first byte set the same level and succeed or fail together. |
| LogLevels.SetAcceptsNames | internal/types/log_level.go:92-113 | Every level's `String` and its `Repr` are accepted and select that level. "w", "warn" and "Warning" all select warning. |
| Strings.TrimSpace | internal/logreader/logreader.go:143 | The result is a slice of the input with only white space cut off either end, and it neither starts nor ends with white space. |
| Ansi.CsiLength | internal/printer/printer.go:60 | Gives the length of the escape sequence at the start of the text, if there is one. The sequence is ESC '[' then digits and ';' then 'm' or 'K'. No shorter or other prefix is such a sequence. |
| Ansi.CsiPrefixUnique | internal/printer/printer.go:60 | A prefix that is an escape sequence is the one `CsiLength` finds. |
| Ansi.Strip | internal/printer/printer.go:59-62 | Removing escape sequences never lengthens a text. |
| Ansi.TrueLen | internal/printer/printer.go:59-62 | `trueLen` is at most the byte length. |
| Ansi.StripNoEsc | internal/printer/printer.go:59-62 | A text without an ESC byte is left unchanged, so its `trueLen` is its length; `trueLen` falls short of the length only when the text holds an ESC byte. |
| Ansi.StripSprint | internal/printer/printer.go:97 | Colouring adds only escape sequences: stripping a coloured text gives the stripped plain text. |
| LineGrammar.Match | internal/logreader/logreader.go:110 | Every match cuts the line into the grammar's pieces: an 18-byte `MM-DD HH:MM:SS.mmm` stamp, white-space gaps, digit runs for pid and tid, a level letter from VDIWEF, a non-empty colon-free tag group and a newline-free message. Joined, the pieces spell the line. |
| LineGrammar.MatchComplete | internal/logreader/logreader.go:110 | Every line that follows the grammar is matched. The stamp, pid, tid and level groups are its own; the tag group trims to its tag; and the message is its own unless the message starts with white space, which the greedy `\s+` takes. |
| LineGrammar.NoMatchWithoutLeadingDigit | internal/logreader/logreader.go:110 | A line that does not start with a digit, a tab-indented one in particular, never matches. |
| LogReader.ErrorText | internal/logreader/logreader.go:156-161 | The text is "failed to parse line: " and the line. Without a cause nothing follows; with a cause, ": " and the cause's own `Error()` text follow. |
| LogReader.CauseText | internal/logreader/logreader.go:122-136 | The `Error()` text of the cause, as Go writes it. A `time.Parse` error starts with `parsing time "value"`; a syntax error continues with ` as "2006-01-02 15:04:05.000": `. An `strconv.Atoi` error starts with `strconv.Atoi: parsing "digits": `. |
| LogReader.DaysIn | internal/logreader/logreader.go:122 | A month has 28 to 31 days. February has 29 days exactly in a leap year. |
| LogReader.LeapDay | internal/logreader/logreader.go:122 | 29 February is a valid time in a leap year and out of range otherwise. |
| LogReader.ParseTime | internal/logreader/logreader.go:121-125 | Parsing succeeds exactly when the year has four digits and month, day, hour, minute and second are in range, and then returns those fields. A year outside 1000..9999 is a syntax error; every other failure is a range error. The error quotes the value `year-MM-DD HH:MM:SS.mmm`. |
| LogReader.ParseTimeFieldOrder | internal/logreader/logreader.go:122-125 | A bad month is reported as the month, whatever else is wrong. The day is reported only when every other field is in range, so the day is checked last. |
| LogReader.Atoi | internal/logreader/logreader.go:128-136 | A digit run converts to its value when that fits a 64-bit `int`. A larger value is a range error that quotes the digits. |
| LogReader.AtoiOfItoa | internal/logreader/logreader.go:128-136 | Converting the decimal text of a non-negative `int` gives the number back. |
| LogReader.NoColonTrim | internal/logreader/logreader.go:143 | Trimming a colon-free tag group leaves a colon-free tag. |
| LogReader.Build | internal/logreader/logreader.go:121-147 | A matched line becomes an entry exactly when its time is valid and both ids fit. The entry is primary, carries the matched fields, and has the level of the matched letter. Otherwise the error carries the line and a cause. |
| LogReader.ParseLine | internal/logreader/logreader.go:113-148 | An error always carries the raw line, and has no cause exactly when the line does not match. A parsed entry is primary: not a stack line, no process name, a valid time, ids within `int`, a trimmed colon-free tag and a newline-free message. Its tag is the trimmed tag group and its message is the message group. |
| LogReader.ParseLineComplete | internal/logreader/logreader.go:110-147 | Every line of the grammar with a valid time stamp and ids that fit parses into the entry its pieces spell. |
| LogReader.ParseLineBadTime | internal/logreader/logreader.go:121-125 | A grammatical line with an invalid date or time fails with exactly the error of `time.Parse` as its cause. |
| LogReader.ParseLineBadPid | internal/logreader/logreader.go:128-131 | A grammatical line with a valid time whose pid overflows fails with the range error for the pid digits as its cause. |
| LogReader.StackEntry | internal/logreader/logreader.go:81-90 | A stack entry has its parent's time, ids, level, tag and process name, the whole line as its message, and the stack flag set. |
| LogReader.ReadLine | internal/logreader/logreader.go:68-100 | One loop step: <br>• A line is metadata exactly when it starts with "--------- "; metadata comes back verbatim and keeps the current entry. <br>• A line is a primary entry exactly when it is not metadata and parses; it becomes the current entry. <br>• A stack entry needs a current entry and a tab prefix, and keeps the current entry. <br>• An error is exactly the error `parseLine` returns for the line, cause included, and keeps the current entry. |
| LogReader.TabLine | internal/logreader/logreader.go:78-94 | A tab-indented line becomes a stack entry when there is a current entry, and a cause-less parse error otherwise. |
| LogReader.ReadItem | internal/logreader/logreader.go:63-101 | The item for line i is what one step makes of it, in the state left by the lines before it. |
| LogReader.ReadPrefix | internal/logreader/logreader.go:63-101 | The items for a prefix of the input are a prefix of the items: nothing sent is revised. |
| LogReader.ReadFrom | internal/logreader/logreader.go:61-101 | The reader loop from a given current entry emits one item per line, and an empty input leaves the current entry as it was. Each step is `ReadLine`; `ReadItem`, `ReadPrefix` and `CurrentIsLastPrimary` say what the items and the final state are. |
| LogReader.Read | internal/logreader/logreader.go:61-101 | The whole input, starting with no current entry, gives one item per line. What each item is is stated by `ReadClassifies`. |
| LogReader.LastPrimary | internal/logreader/logreader.go:61-101 | A reference for the current entry. There is none exactly when no item is a primary entry. Otherwise it is a primary entry among the items that no later primary entry follows. |
| LogReader.CurrentIsLastPrimary | internal/logreader/logreader.go:61-101 | After any input, the current entry is the last primary entry sent. |
| LogReader.StackCopiesParent | internal/logreader/logreader.go:79-91 | Every stack line comes after some primary entry. It carries the header of the last such entry, and its message is its own tab-indented raw line. |
| LogReader.ReadClassifies | internal/logreader/logreader.go:63-101 | Item i is metadata exactly when line i starts with the banner prefix, and then it is that line. An error item is the error `parseLine` returns for line i, cause included. A primary entry is what `parseLine` returns for line i. |
| LogReader.MetadataKeepsCurrent | internal/logreader/logreader.go:71-74 | A metadata line leaves the current entry as it was. |
| LogReader.NoStackBeforePrimary | internal/logreader/logreader.go:79-94 | No line before the first primary entry becomes a stack line. |
| LogReader.EntryLevelKnown | internal/logreader/logreader.go:79-99 | Every entry sent, primary or stack, has one of the six table levels. |
| LogReader.ChannelsPartition | internal/logreader/logreader.go:63-101 | Each item goes to exactly one of the entry, metadata and error channels. |
| LogReader.OneItemPerLine | internal/logreader/logreader.go:63-101 | Across the three channels, the reader sends exactly one value per input line. |
| Filter.AnyFold | internal/filter/filter.go:72-83 | The early-exit scan finds a match exactly when some list member equals the tag up to case. |
| Filter.ValidateLogLevel | internal/filter/filter.go:89-91 | An entry at the minimum level passes, and under the verbose minimum every table level passes. `LevelCheckMonotone` shows that a more severe entry passes whenever a less severe one does. |
| Filter.LevelCheckMonotone | internal/filter/filter.go:89-91 | The level check is monotone: whenever an entry passes, every entry with a higher or equal level id passes too. |
| Filter.ValidateTag | internal/filter/filter.go:70-87 | A tag matching an ignore entry is rejected. Otherwise it is accepted exactly when the allow-list is empty or mentions it. |
| Filter.Admits | internal/filter/filter.go:59-68 | An entry passes exactly when its tag is allowed and its level id is at least the minimum's. |
| Filter.AdmitsReadsTagAndLevel | internal/filter/filter.go:59-91 | The decision depends only on the tag and the level id: other entry fields and `processNames` make no difference. |
| Filter.AdmitsIgnoresTagCase | internal/filter/filter.go:70-87 | Tags equal up to case get the same decision. |
| Filter.AdmitsExample | internal/filter/filter.go:59-91 | With allow-list {"Net"} and minimum warning, Net at info is dropped, Net at error is kept, and UI at fatal is dropped. |
| Filter.Start | internal/filter/filter.go:40-57 | The loop forwards the admitted entries of its input, in order. |
| Filter.KeepAppend | internal/filter/filter.go:40-57 | Filtering a concatenation filters each part. |
| Filter.KeptIndices | internal/filter/filter.go:40-57 | The forwarded entries are the inputs at strictly increasing positions, and a position is among them exactly when its entry is admitted. |
| Filter.KeepIsOrderedSelection | internal/filter/filter.go:40-57 | Every forwarded entry is an admitted input, and every admitted input is forwarded. |
| Filter.KeepIdempotent | internal/filter/filter.go:40-57 | Filtering the output again with the same configuration changes nothing. |
| Filter.KeepAllAdmitted | internal/filter/filter.go:40-57 | When every entry is admitted, the output is the input. |
| Filter.KeepAllAtOrAbove | internal/filter/filter.go:59-91 | With no tag lists, the level alone decides. A position is kept exactly when its entry is at or above the minimum, every forwarded entry is at or above it, and nothing is dropped when every entry is. |
| Filter.KeepAllByDefault | internal/filter/filter.go:59-91 | With no tag lists and minimum verbose, every entry with a table level is forwarded. |
| Printer.TagColor | internal/printer/printer.go:17-26 | The colour index `len(tag) % 8` is in bounds, and the colour is one of the eight foreground colours. |
| Printer.TagColorByLength | internal/printer/printer.go:90 | Tags of equal byte length get the same colour. |
| Printer.TagText | internal/printer/printer.go:91-95 | A tag of at most 25 bytes is left-padded with spaces to exactly 25 bytes and ends with the tag. A longer tag becomes its first 24 bytes followed by "…", 27 bytes in all. |
| Printer.TagTextRoundTrip | internal/printer/printer.go:91-95 | A tag of at most 25 bytes with no white space at its ends is recovered from its column by `strings.TrimSpace`. Every tag the reader produces has no white space at its ends. |
| Printer.GetTag | internal/printer/printer.go:89-98 | The tag column opens with the escape sequence of `TagColor(tag)`, the palette entry picked by the tag's length. Without its colour, it reads as the padded or cut tag. |
| Printer.GetTagVisible | internal/printer/printer.go:89-98 | Stripping the coloured tag column gives the padded or cut tag. |
| Printer.TagColumn | internal/printer/printer.go:105-110 | The column is 25 blanks exactly when the previous primary entry had the same tag, compared case-sensitively. |
| Printer.MessageText | internal/printer/printer.go:122-126 | The message is coloured in its level's colour exactly for the levels with `Repr` "E" or "F", and is unchanged otherwise. |
| Printer.MessageVisible | internal/printer/printer.go:122-126 | With colours removed, the printed message reads the same as the uncoloured message, for every level whose colour is a valid style. |
| Printer.PrintEntry | internal/printer/printer.go:101-152 | An entry goes to the primary output. A stack line is indented by `trueLen(entryMsg)+5` spaces, printed in its level's colour, and leaves the previous entry unchanged. A primary entry prints as `entryMsg`, a space and its message, and becomes the previous entry. |
| Printer.PrintMetadata | internal/printer/printer.go:155-166 | Metadata goes to the primary output and forgets the previous entry. |
| Printer.PrintError | internal/printer/printer.go:169-179 | An error goes to the error output and forgets the previous entry. |
| Printer.Print | internal/printer/printer.go:64-87 | One event: a write goes to the error output exactly for an error. Metadata and errors forget the previous entry. |
| Printer.MetadataVisible | internal/printer/printer.go:159-163 | Without its colour, a metadata write reads as the line and a newline. |
| Printer.ErrorVisible | internal/printer/printer.go:173-176 | Without its colour, an error write reads as "ERROR: ", the error text and a newline. |
| Printer.EntryMsg | internal/printer/printer.go:105-112 | `entryMsg` starts with a space and ends with a space and the level name. After a primary entry with the same tag, the column between them is 25 blanks. What it reads as without colour is stated by `EntryMsgVisible`. |
| Printer.EntryMsgVisible | internal/printer/printer.go:105-112 | Without colours, `entryMsg` reads as a space, the visible tag column, a space and the level name. Its `trueLen` is 2 plus the column's width plus the name's length. |
| Printer.EntryMsgWidth | internal/printer/printer.go:112-117 | `trueLen(entryMsg)` is 27 plus the name's length for a blank or padded column. It is 29 plus the name's length for a cut tag, because "…" counts as three bytes. |
| Printer.StackIndent | internal/printer/printer.go:114-118 | Under a blank or padded tag column, a stack line is indented by 32 plus the level name's length. |
| Printer.PreviousIsLastShown | internal/printer/printer.go:101-179 | After any events, the printer's state is the tag of the last primary entry printed since the last metadata line or error. Stack lines do not count. |
| Printer.Render | internal/printer/printer.go:64-87 | The printer loop makes one write per event. Its state and writes are stated by `PreviousIsLastShown`, `RenderWrite` and `RenderPrefix`. |
| Printer.RenderWrite | internal/printer/printer.go:64-87 | Write i is what the printer makes of event i, given the last primary entry shown before it. |
| Printer.RenderPrefix | internal/printer/printer.go:64-87 | Handling more events only appends writes. |
| Printer.RenderRoutes | internal/printer/printer.go:101-179 | Write i goes to the error output exactly when event i is an error. |
| Printer.RepeatedTagBlank | internal/printer/printer.go:105-110 | A primary entry right after a primary entry with the same tag shows a blank column. Right after metadata or an error, the tag column is shown. |
| Pipeline.Events | cmd/root.go:71-83 | The printer receives at most one event per reader item. `EventsKeepEntries`, `EventsKeepMetas` and `EventsKeepErrors` say which events, in which order. |
| Pipeline.Forward | cmd/root.go:71-83 | An entry reaches the printer exactly when the filter admits it. Metadata reaches it as is, and an error reaches it as the error's text. |
| Pipeline.EventsKeepEntries | cmd/root.go:71-83 | The printer receives exactly the entries the filter keeps from the reader's entries, in the reader's order. |
| Pipeline.EventsKeepMetas | cmd/root.go:71-83 | The printer receives every metadata line, in order. |
| Pipeline.EventsKeepErrors | cmd/root.go:71-83 | The printer receives the text of every parse error, in order. |
| Pipeline.Output | cmd/root.go:71-86 | The pipeline writes at most one line per input line. |
| Pipeline.StackFollowsParent | internal/filter/filter.go:59-91 | A stack line is admitted exactly when the primary entry it belongs to is admitted, so a stack trace is shown or hidden as a whole. |
| Pipeline.DefaultShowsAll | cmd/root.go:34-37 | With the default options (no tag lists, minimum verbose), every entry the reader produces reaches the printer. |

## Left out

- I/O, goroutines, channels, `select`, context cancellation and the
  printer's mutex. The pipeline is one in-order interleaving: every item
  reaches the printer in the order the reader produced it. The Go program
  may interleave the entry, metadata and error channels differently.
- The printer stops when the entry channel closes, and may then drop
  metadata or errors still queued. This is not modelled.
- `bufio.Scanner`: the input is given as a sequence of lines. Its token size
  limit, and the errors of `scanner.Err` and `Close`, are not modelled.
- `time.Now()`: the year is a parameter. The timestamp is kept as validated
  fields rather than a `time.Time`. `parseLine` reads the clock once per
  line, but `ReadFrom` fixes one year for the whole input, so a run that
  crosses New Year stamps every line with the same year.
- Terminal colour detection: colour output is taken to be on.
- `Pretty`, `LevelStyle`, `Color` and `Type` are not modelled, since
  nothing in the pipeline uses them. Neither is `blackColor`, which only the
  unmodelled `LevelStyle` uses, nor the `showTime` flag.
- The printer's commented-out rendering code (internal/printer/printer.go:135-149).
- cmd/root.go beyond its wiring and its default minimum level. Flag
  parsing, `adb` spawning and TTY detection are not modelled.
- internal/completion/completion.go is not part of this model.
- Strings.ToLower: folds ASCII letters only, so `Strings.EqualFold`,
  `Filter.AnyFold` and `LogLevels.ToLogLevel` inherit the restriction below.
- Strings.TrimSpace: trims ASCII white space only; see `LogReader.ParseLine`
  below.
- Filter.AnyFold: compares tags with ASCII case folding; see `Filter.Admits`
  below.
- LogLevels.ToLogLevel: folds ASCII letters only. Go's `strings.ToLower`
  also maps the two-byte "İ" (U+0130) to "i", which the model treats as an
  unknown key.
- Filter.Admits: tags are compared with ASCII case folding. Go's
  `strings.EqualFold` also folds some non-ASCII letters, such as the Kelvin
  sign with "k".
- LogReader.ParseLine: `strings.TrimSpace` is modelled on ASCII white space.
  Go also trims Unicode spaces such as U+00A0 and U+0085 from tags.
- LogLevels.Set: the empty argument is excluded by a precondition. The
  source indexes `s[0]`, which panics on the empty string.
- Printer.PrintEntry: the zero level (from an unknown letter) is given no
  colour. The reader never produces one (`LogReader.EntryLevelKnown`).
