/**
 * The per-calendar part of `main`: the events that match the calendar's
 * keyword are selected in order, and the calendar text is built from the
 * header and those events. The configuration, the download and the writing
 * of files are outside the model; a calendar's output is the file it would
 * write.
 */
module Pipeline {
  import opened Text
  import opened Seqs
  import opened Splitter
  import opened Matcher
  import opened Writer

  /** One entry of the configuration's `calendars` list. */
  datatype CalendarSpec = CalendarSpec(name: string, keyword: string)

  /** The file a calendar would be written to, its text and the number of events it holds. */
  datatype OutputFile = OutputFile(path: string, body: string, eventCount: nat)

  function MatchesKeyword(keyword: string): string -> bool {
    e => EventMatches(e, keyword)
  }

  /** `matched = [e for e in events if event_matches(e, keyword)]`. */
  function MatchingEvents(events: seq<string>, keyword: string): seq<string> {
    Filter(events, MatchesKeyword(keyword))
  }

  /** `write_calendar_file(header, events, slug)`: the file it writes and the count it reports. */
  function WriteCalendarFile(header: string, events: seq<string>, slug: string): OutputFile {
    OutputFile(OutputPath(slug), CalendarBody(header, events), |events|)
  }

  /** The file built for one calendar of the configuration. */
  function CalendarFile(header: string, events: seq<string>, cal: CalendarSpec): OutputFile {
    WriteCalendarFile(header, MatchingEvents(events, cal.keyword), cal.name)
  }

  function CalendarFileFor(header: string, events: seq<string>): CalendarSpec -> OutputFile {
    cal => CalendarFile(header, events, cal)
  }

  /** The `for cal in calendars` loop of `main`: one file per calendar, in order. */
  method BuildFiles(header: string, events: seq<string>, calendars: seq<CalendarSpec>) returns (files: seq<OutputFile>)
    ensures files == Map(calendars, CalendarFileFor(header, events))
  {
    files := [];
    for i := 0 to |calendars|
      invariant files == Map(calendars[..i], CalendarFileFor(header, events))
    {
      var cal := calendars[i];
      var matched := MatchingEvents(events, cal.keyword);
      MapSnoc(calendars, i, CalendarFileFor(header, events));
      files := files + [WriteCalendarFile(header, matched, cal.name)];
    }
    assert calendars[..|calendars|] == calendars;
  }

  /**
   * `main` after the download: split once, then build one file per
   * calendar, in the order of the configuration, the `k`-th file for the
   * `k`-th calendar.
   */
  method BuildCalendars(icsText: string, calendars: seq<CalendarSpec>) returns (files: seq<OutputFile>)
    ensures var lines := SplitLines(icsText);
      files == Map(calendars, CalendarFileFor(JoinLines(HeaderLines(lines)), EmittedEvents(lines)))
  {
    var header, events := SplitEvents(icsText);
    files := BuildFiles(header, events, calendars);
  }

  // ---------------------------------------------------------------------------
  // The filter
  // ---------------------------------------------------------------------------

  /**
   * The matched events are the events at the matching positions, each
   * unchanged and in their original order, and no matching event is left out.
   */
  lemma MatchingEventsExact(events: seq<string>, keyword: string)
    ensures var r, pos := MatchingEvents(events, keyword), KeptPositions(events, MatchesKeyword(keyword));
      |r| == |pos| &&
      (forall n :: 0 <= n < |pos| ==>
        pos[n] < |events| && r[n] == events[pos[n]] && EventMatches(events[pos[n]], keyword)) &&
      (forall n, m :: 0 <= n < m < |pos| ==> pos[n] < pos[m]) &&
      (forall j :: 0 <= j < |events| && EventMatches(events[j], keyword) ==> j in pos)
  {
    FilterAtKeptPositions(events, MatchesKeyword(keyword));
    KeptPositionsExact(events, MatchesKeyword(keyword));
  }

  /** An event is matched exactly when it is one of the events and it matches. */
  lemma MatchingEventsMembers(events: seq<string>, keyword: string)
    ensures forall e :: e in MatchingEvents(events, keyword) <==> e in events && EventMatches(e, keyword)
  {
    var r := MatchingEvents(events, keyword);
    forall e | e in r ensures e in events && EventMatches(e, keyword) {
      var n :| 0 <= n < |r| && r[n] == e;
    }
    forall e | e in events && EventMatches(e, keyword) ensures e in r {
      var j :| 0 <= j < |events| && events[j] == e;
    }
  }

  /** Filtering matched events again by the same keyword keeps them all. */
  lemma MatchingEventsIdempotent(events: seq<string>, keyword: string)
    ensures MatchingEvents(MatchingEvents(events, keyword), keyword) == MatchingEvents(events, keyword)
  {
    FilterIdempotent(events, MatchesKeyword(keyword));
  }

  // ---------------------------------------------------------------------------
  // End to end
  // ---------------------------------------------------------------------------

  /** Every end marker closes an event opened by a begin marker. */
  ghost predicate EveryEndCloses(lines: seq<string>) {
    forall j :: 0 <= j < |lines| && IsEnd(lines[j]) ==> InEvent(lines, j)
  }

  /** The blocks of lines behind the emitted events. */
  ghost function EmittedBlocks(lines: seq<string>): seq<seq<string>> {
    var ends := EndPositions(lines, |lines|);
    seq(|ends|, n requires 0 <= n < |ends| => Accumulator(lines, ends[n] + 1))
  }

  function BlockMatchesKeyword(keyword: string): seq<string> -> bool {
    b => EventMatches(JoinLines(b), keyword)
  }

  /** When every end marker closes an event, every emitted block is well formed. */
  lemma EmittedBlocksWellFormed(lines: seq<string>)
    requires NoNewlines(lines) && EveryEndCloses(lines)
    ensures EmittedEvents(lines) == Map(EmittedBlocks(lines), JoinLines)
    ensures forall n :: 0 <= n < |EmittedBlocks(lines)| ==> WellFormedBlock(EmittedBlocks(lines)[n])
  {
    var ends := EndPositions(lines, |lines|);
    EndPositionsExact(lines, |lines|);
    forall n | 0 <= n < |ends| ensures WellFormedBlock(EmittedBlocks(lines)[n]) {
      ClosedEventIsWellFormed(lines, ends[n]);
    }
  }

  /** The header of a split input holds no marker line once re-split and filtered. */
  lemma RetainedHeaderHasNoMarkers(lines: seq<string>)
    requires NoNewlines(lines)
    ensures var retained := RetainedHeaderLines(JoinLines(HeaderLines(lines)));
      forall n :: 0 <= n < |retained| ==> !IsMarker(retained[n])
  {
    var header := HeaderLines(lines);
    HeaderHasNoMarkers(lines, |lines|);
    PickNoNewlines(lines, 0, |lines|, false);
    SplitLinesJoinSubset(header);
  }

  /** The matched events are the matching emitted blocks joined by line feeds, each block well formed. */
  lemma MatchedBlocks(lines: seq<string>, keyword: string)
    requires NoNewlines(lines) && EveryEndCloses(lines)
    ensures var kept := Filter(EmittedBlocks(lines), BlockMatchesKeyword(keyword));
      MatchingEvents(EmittedEvents(lines), keyword) == Map(kept, JoinLines) &&
      forall n :: 0 <= n < |kept| ==> WellFormedBlock(kept[n])
  {
    var blocks := EmittedBlocks(lines);
    EmittedBlocksWellFormed(lines);
    FilterMap(blocks, JoinLines, MatchesKeyword(keyword), BlockMatchesKeyword(keyword));
  }

  /**
   * Reading back a written calendar: when every end marker of the input
   * closes an event, splitting the text built for a calendar gives exactly
   * the input's events that match the calendar's keyword, in their order.
   */
  lemma WrittenCalendarHoldsMatches(icsText: string, cal: CalendarSpec)
    requires EveryEndCloses(SplitLines(icsText))
    ensures var lines := SplitLines(icsText);
      var file := CalendarFile(JoinLines(HeaderLines(lines)), EmittedEvents(lines), cal);
      EmittedEvents(SplitLines(file.body)) == MatchingEvents(EmittedEvents(lines), cal.keyword) &&
      file.eventCount == |MatchingEvents(EmittedEvents(lines), cal.keyword)|
  {
    var lines := SplitLines(icsText);
    MatchedBlocks(lines, cal.keyword);
    RetainedHeaderHasNoMarkers(lines);
    WrittenCalendarSplitsBack(JoinLines(HeaderLines(lines)), Filter(EmittedBlocks(lines), BlockMatchesKeyword(cal.keyword)));
  }
}
