# ICS splitter, modelled in Dafny

`split_ics.py` downloads one iCalendar (`.ics`) feed and writes one smaller
calendar per configured keyword. It works on the feed as plain text, line by
line:

- `split_events` reads the lines once. In the ordinary case, the lines from
  a `BEGIN:VEVENT` line up to and including the next `END:VEVENT` line become
  one event, and every line that is read outside an event and is no marker
  goes to the header. Repeated, stray and unclosed markers behave as listed
  below, where the code and its docstring disagree.
- `event_matches` decides whether an event mentions a keyword: some line
  starting with `SUMMARY`, `DESCRIPTION` or `LOCATION` (in any case) must
  contain the keyword, ignoring case.
- `main` keeps, for each calendar of the configuration, the events that
  match its keyword, in their original order.
- `write_calendar_file` builds the output text. It drops every header line
  that, stripped and upper-cased, starts with `END:VCALENDAR`. It then writes
  the remaining header, the events, and a single closing `END:VCALENDAR`
  line, each followed by a line feed.

The project has five modules:

- `Text`: the string operations the program relies on. These are ASCII
  `lower`/`upper`/`strip`, `startswith`, substring tests, and `split`,
  `splitlines` and `"\n".join` on line feeds, with their round trips.
- `Seqs`: filtering, which models the program's two list comprehensions;
  mapping, which gives one output per configured calendar; and the
  flattening of a list of lists that the read-back proofs use.
- `Splitter`: `split_events`, as an imperative method with loop
  invariants. It is proved against a declarative description of the pass:
  - `InEvent`: the flag before line `i`;
  - `Accumulator`: the current event's lines;
  - `HeaderLines`: the header lines;
  - `EndPositions` and `EmittedEvents`: the emitted events.

  The lemmas about that description state what the pass produces.
- `Matcher`: `event_matches`, with its characterisation as an existential
  over the lines and its case-insensitivity.
- `Writer`: the header filter, the text of a written calendar and the
  output path. It also proves a read-back theorem: when every event written
  is a well-formed block (one begin marker, lines without markers, one end
  marker) and no kept header line is a marker, splitting a written calendar
  again gives back exactly the events that were written. An event with two
  end markers, as a stray `END:VEVENT` produces, splits back into two.
- `Pipeline`: the filter of `main` and the loop over the configured
  calendars. It also proves an end-to-end theorem: for a feed in which
  every `END:VEVENT` closes an open event, the text built for a calendar,
  when split, yields exactly the feed's events that match the calendar's
  keyword.

Where the docstrings and the code disagree, the model follows the code:

- The header is not only "everything before the first `BEGIN:VEVENT`". It
  is every line, anywhere in the feed, that is read outside an event and is
  no marker.
- A second `BEGIN:VEVENT` before an `END:VEVENT` starts the event afresh.
  The lines of the first, unclosed event are dropped.
- An `END:VEVENT` outside an event is not ignored. The line is appended to
  the lines of the previous event, which are never cleared, and the result
  is emitted as one more event. `StaleEvent` and `EndWithoutBegin` state
  this.
- An event still open at the end of the feed is dropped.
- The header filter drops lines that start with `END:VCALENDAR` after
  stripping, for example `END:VCALENDAR-X` as well. Equality is not required.

## Model

| member | source | states |
|---|---|---|
| Text.SplitLines | split_ics.py:25 | `s.splitlines()` for text broken at line feeds: the pieces between line feeds, without the empty piece a final line feed leaves; no piece holds a line feed (`SplitLinesJoin` is its partner) |
| Text.JoinLines | split_ics.py:45 | `"\n".join(lines)`: the lines with one line feed between neighbours (`SplitOnJoin` and `SplitLinesJoin` give them back) |
| Text.Lower | split_ics.py:54 | `str.lower` on ASCII: the same length, each upper-case letter replaced by its lower-case form (`LowerIdempotent`, `LowerOfUpper`) |
| Text.Upper | split_ics.py:56 | `str.upper` on ASCII: the same length, each lower-case letter replaced by its upper-case form (`UpperIdempotent`, `UpperOfLower`) |
| Text.Strip | split_ics.py:70 | `str.strip()` on ASCII whitespace: leading and trailing whitespace removed, so the result neither starts nor ends with whitespace |
| Text.StartsWith | split_ics.py:33 | `str.startswith`: the prefix is no longer than the text and equals its beginning |
| Text.IsSubstring | split_ics.py:57 | `sub in s`: the text holds the sub-string at some offset (`EmptyIsSubstring`: the empty string is in every text) |
| Seqs.Filter | split_ics.py:102 | a list comprehension with a condition: no longer than the list, every kept element is in the list and satisfies the condition, and every element that satisfies it is kept (`FilterAtKeptPositions`, `FilterIdempotent`) |
| Splitter.IsBegin | split_ics.py:33 | the line starts with `BEGIN:VEVENT` |
| Splitter.IsEnd | split_ics.py:36 | the line starts with `END:VEVENT` (`MarkersDisjoint`: no line is both) |
| Splitter.InEvent | split_ics.py:29-39 | `in_event` just before line `i` is read: set by a begin marker, cleared by an end marker, and otherwise kept from the line before; false before the first line (`InEventIff`) |
| Splitter.Accumulator | split_ics.py:30-41 | `current_event_lines` just before line `i` is read: the marker and in-event lines from the latest begin marker on, or from the first line when there is none (`AccumulatorStep`, `EventFromLatestBegin`, `StaleEvent`) |
| Splitter.EmittedEvents | split_ics.py:36-38 | the events the pass emits: at each end-marker line, in order, the current event's lines joined by line feeds (`SplitEvents` returns it; `EventCount`, `EventFromLatestBegin` and `LaidOutDocument` describe it) |
| Splitter.HeaderLines | split_ics.py:42-45 | the lines read outside an event that are no marker, in input order (`HeaderMembers`, `HeaderHasNoMarkers`) |
| Splitter.SplitEvents | split_ics.py:19-46 | the header returned is the in-order header lines joined by line feeds, and the events are the emitted events, one per end marker |
| Splitter.LastBegin | split_ics.py:33-35 | the most recent begin marker before a line is a begin marker, and no begin marker lies after it |
| Splitter.EndPositionsExact | split_ics.py:36-38 | events are emitted at exactly the end-marker lines, in increasing order |
| Splitter.AllEventsSoFar | split_ics.py:36-38 | the events collected by the end of the input are all the emitted events |
| Splitter.EventCount | split_ics.py:36-38 | the number of events equals the number of lines starting with `END:VEVENT` |
| Splitter.InEventIff | split_ics.py:33-39 | inside an event exactly when some begin marker has no end marker after it |
| Splitter.AccumulatorStep | split_ics.py:33-41 | a begin marker restarts the current event with itself; an end marker or a line inside an event is appended to it |
| Splitter.EventsStep | split_ics.py:36-38 | an end marker appends the joined current event to the events; no other line changes them |
| Splitter.EventsAppend | split_ics.py:38 | recording one more end marker keeps all the earlier events |
| Splitter.HeaderStep | split_ics.py:42-43 | exactly the lines outside events that are no marker are appended to the header |
| Splitter.EndPositionsStep | split_ics.py:36-38 | only an end-marker line adds an emitted event |
| Splitter.OutsideStep | split_ics.py:42-43 | outside an event a plain line goes to the header, and nothing else changes |
| Splitter.InsideStep | split_ics.py:40-41 | inside an event a plain line goes to the current event, and nothing else changes |
| Splitter.BeginStep | split_ics.py:33-35 | a begin marker sets the flag and restarts the current event, with nothing emitted and nothing added to the header |
| Splitter.EndStep | split_ics.py:36-39 | an end marker clears the flag, is appended to the current event and emits it |
| Splitter.OutsideRun | split_ics.py:42-43 | a run of plain lines outside an event is appended to the header unchanged |
| Splitter.InsideRun | split_ics.py:40-41 | a run of plain lines inside an event is appended to the current event unchanged |
| Splitter.EventRun | split_ics.py:33-41 | from a begin marker until the next end marker, nothing reaches the header and nothing is emitted |
| Splitter.PickMembers | split_ics.py:32-43 | the lines routed to one side are exactly the input lines routed to that side |
| Splitter.HeaderMembers | split_ics.py:42-45 | a line is in the header exactly when it occurs outside every event and is no marker |
| Splitter.HeaderHasNoMarkers | split_ics.py:42-43 | no header line starts with either marker |
| Splitter.PickNoNewlines | split_ics.py:25 | header and event lines contain no line feed |
| Splitter.EventEndsWithItsMarker | split_ics.py:36-38 | each event ends with the end-marker line that emitted it |
| Splitter.EventFromLatestBegin | split_ics.py:33-38 | an event closed after a begin marker is exactly the lines from that begin marker through the end marker, so earlier unclosed lines are discarded |
| Splitter.StaleEvent | split_ics.py:36-38 | an end marker after another end marker emits the previous event again with the new line appended |
| Splitter.EndWithoutBegin | split_ics.py:36-38 | an end marker before any marker emits an event of that one line |
| Splitter.TrailingEventDropped | split_ics.py:32-46 | an event never closed adds nothing to the header and nothing to the events |
| Splitter.SliceIsWellFormed | split_ics.py:33-38 | a begin marker, plain lines and an end marker form a well-formed event block |
| Splitter.ClosedEventIsWellFormed | split_ics.py:36-38 | an end marker read inside an event emits a well-formed block |
| Splitter.BlockReadBack | split_ics.py:32-41 | a well-formed block read outside an event emits itself and nothing else |
| Splitter.LaidOutDocument | split_ics.py:19-46 | plain lines, well-formed blocks and a final plain line split back into exactly those blocks and that header |
| Matcher.IsSearchedField | split_ics.py:56 | the upper-cased line starts with `SUMMARY`, `DESCRIPTION` or `LOCATION` |
| Matcher.LineMatches | split_ics.py:56-57 | the line is a searched field and its lower-case form holds the already lower-cased keyword |
| Matcher.AnyLineMatches | split_ics.py:55-59 | the loop over the lines, returning true at the first searched line that holds the lower-cased keyword and false after the last line (`AnyLineMatchesIff` characterises it) |
| Matcher.EventMatches | split_ics.py:49-59 | `event_matches`: the loop run on the event's lines with the keyword lower-cased (`EventMatchesIff`, `KeywordCaseInsensitive`, `EmptyKeywordMatches`) |
| Matcher.AnyLineMatchesIff | split_ics.py:55-59 | the loop returns true exactly when some line is a searched field containing the keyword |
| Matcher.EventMatchesIff | split_ics.py:49-59 | an event matches exactly when one of its lines is a SUMMARY, DESCRIPTION or LOCATION line containing the lower-cased keyword |
| Matcher.NonFieldLineIrrelevant | split_ics.py:56 | adding or removing a line that is no searched field never changes the result |
| Matcher.OnlySearchedFieldsMatter | split_ics.py:56 | the result is that of the searched lines alone |
| Matcher.KeywordCaseInsensitive | split_ics.py:54 | the keyword, its lower-case and its upper-case forms give the same result |
| Matcher.LineCaseInsensitive | split_ics.py:56-57 | a line, its lower-case and its upper-case forms are searched and matched alike |
| Matcher.EmptyKeywordMatches | split_ics.py:54-57 | the empty keyword matches exactly the events having a searched line |
| Matcher.JoinedEventMatches | split_ics.py:38 | an event emitted as joined lines matches by those very lines |
| Writer.IsCalendarClose | split_ics.py:70 | the stripped, upper-cased header line starts with `END:VCALENDAR` |
| Writer.RetainedHeaderLines | split_ics.py:69-71 | the header's lines other than those `IsCalendarClose` holds of, in order (`RetainedLinesExact`, `RetainIdempotent`) |
| Writer.BaseHeader | split_ics.py:72 | the kept header lines joined by line feeds (`BaseHeaderSplitsBack`, `BaseHeaderIdempotent`) |
| Writer.Layout | split_ics.py:74-76 | the body built from a base header and events: base header, line feed, events joined by line feeds, line feed, `END:VCALENDAR`, line feed (`LayoutShape`, `LayoutLines`, `LayoutSplitsBack`) |
| Writer.CalendarBody | split_ics.py:67-76 | the body `write_calendar_file` writes for a header and events: `Layout` of the base header (`EmptyCalendar`, `WrittenCalendarSplitsBack`) |
| Writer.JoinPath | split_ics.py:78 | POSIX `os.path.join(dir, file)`: the file itself when it is absolute; otherwise the directory and the file, with a slash between them unless the directory is empty or already ends with one (`SlugInJoin` reads the name back) |
| Writer.LayoutShape | split_ics.py:74-76 | the body is the base header, a line feed, the joined events, a line feed and `END:VCALENDAR` with its line feed, in that order |
| Writer.EmptyCalendar | split_ics.py:74-76 | with no events the body is the base header, two line feeds and the closing line |
| Writer.RetainedLinesExact | split_ics.py:69-71 | the filtered header keeps exactly the header lines that do not start with `END:VCALENDAR` after stripping and upper-casing, unchanged and in order |
| Writer.RetainIdempotent | split_ics.py:69-71 | filtering the kept header lines again keeps them all |
| Writer.BaseHeaderSplitsBack | split_ics.py:72 | the base header splits back into the kept lines |
| Writer.BaseHeaderIdempotent | split_ics.py:69-72 | rebuilding the base header from a base header changes nothing when the last kept line is not empty |
| Writer.JoinEvents | split_ics.py:75 | joining the joined events is joining all their lines |
| Writer.TextLines | split_ics.py:74-76 | the lines of the body are those of the base header, those of the joined events and the closing line |
| Writer.LayoutLines | split_ics.py:74-76 | the lines of a body built from event blocks are the header part, the blocks' lines and the closing line |
| Writer.CalendarEndIsNotMarker | split_ics.py:76 | the closing line is no event marker |
| Writer.HeadHasNoMarkers | split_ics.py:69-74 | the header part of a written body holds no marker when the kept header lines hold none |
| Writer.LayoutSplitsBack | split_ics.py:74-76 | splitting a body built from well-formed blocks gives back exactly those events |
| Writer.WrittenCalendarSplitsBack | split_ics.py:67-76 | splitting a written calendar gives back exactly its events, and its header lines plus the closing line |
| Writer.OutputPath | split_ics.py:78 | the path ends in `.ics` and starts with `docs/` unless the name is absolute |
| Writer.SlugOfOutputPath | split_ics.py:78 | the calendar name can be read back from its path |
| Writer.OutputPathInjective | split_ics.py:78 | different calendar names give different path strings |
| Pipeline.MatchingEvents | split_ics.py:102 | `[e for e in events if event_matches(e, keyword)]`: the events that match, in order (`MatchingEventsExact`, `MatchingEventsMembers`, `MatchingEventsIdempotent`) |
| Pipeline.WriteCalendarFile | split_ics.py:67-81 | the file `write_calendar_file` writes: its path from the name, its body from the header and the events, and the event count its message reports |
| Pipeline.CalendarFile | split_ics.py:98-104 | the file built for one configured calendar: `WriteCalendarFile` of the header, the events matching its keyword and its name (`WrittenCalendarHoldsMatches`) |
| Pipeline.BuildFiles | split_ics.py:97-104 | one file per configured calendar, in order, the `k`-th built from the events matching the `k`-th keyword |
| Pipeline.BuildCalendars | split_ics.py:92-104 | the feed is split once, and each calendar's file is built from that header and the matching events |
| Pipeline.MatchingEventsExact | split_ics.py:102 | the matched events are exactly the matching events at their positions, unchanged and in order |
| Pipeline.MatchingEventsMembers | split_ics.py:102 | an event is matched exactly when it is one of the events and it matches |
| Pipeline.MatchingEventsIdempotent | split_ics.py:102 | filtering the matched events again by the same keyword keeps them all |
| Pipeline.EmittedBlocksWellFormed | split_ics.py:32-38 | when every end marker closes an event, every emitted event is a well-formed block joined by line feeds |
| Pipeline.MatchedBlocks | split_ics.py:102 | the matched events are the matching well-formed blocks, joined |
| Pipeline.RetainedHeaderHasNoMarkers | split_ics.py:69-72 | the kept header lines of a split feed hold no marker |
| Pipeline.WrittenCalendarHoldsMatches | split_ics.py:92-104 | splitting a written calendar gives exactly the feed's events matching its keyword, and the reported count is their number |

## Left out

- Reading `config.json` (`load_config`) is left out because it is file input. The configuration is the `calendars` parameter of `Pipeline.BuildCalendars`.
- Downloading the feed (`fetch_ics`) and its UTF-8 decoding are left out because they are network input. The downloaded text is the `icsText` parameter.
- Creating the output directory (`ensure_output_dir`), opening and writing the file, and the progress messages (`print`) are left out because they are file and console output. A calendar's output is the `OutputFile` value: its path, its text, and the event count that the message would report.
- When two configured calendars share a name, the second file overwrites the first on disk. The model keeps both files in the returned sequence.
- `str.splitlines` also breaks lines at `\r`, `\r\n`, `\v`, `\f`, `\x1c` to `\x1e`, `\x85`, `\u2028` and `\u2029`. The model breaks lines only at the line feed. A feed with CRLF line ends is therefore not modelled.
- `str.lower`, `str.upper` and `str.strip` are modelled on ASCII only. Unicode case mapping and Unicode whitespace are not modelled.
- RFC 5545 line unfolding is not modelled. The program does not perform it either: a folded SUMMARY continuation line is not searched.
- `os.path.join` is modelled for POSIX paths only.
- Writer.BaseHeaderIdempotent: it requires that the last kept header line is not empty. Without that condition rebuilding is not idempotent at the text level, because `splitlines` drops one trailing empty line each time. For example, `"A\n\n"` gives `"A\n"`, which in turn gives `"A"`.
- Pipeline.WrittenCalendarHoldsMatches: it requires that every `END:VEVENT` closes an event opened by `BEGIN:VEVENT`. A stale event (see `Splitter.StaleEvent`) contains two end markers, so splitting the written calendar again splits it in two.
