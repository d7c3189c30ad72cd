/**
 * `write_calendar_file`, the part that builds the text written out: the
 * header without its closing `END:VCALENDAR` lines, a line feed, the events
 * joined by line feeds, a line feed and one closing `END:VCALENDAR` line.
 * Also the output path `os.path.join("docs", slug + ".ics")`.
 */
module Writer {
  import opened Text
  import opened Seqs
  import opened Splitter

  const CalendarEnd: string := "END:VCALENDAR"
  const OutputDir: string := "docs"
  const Extension: string := ".ics"

  /** A header line dropped from the output: stripped and upper-cased, it starts with `END:VCALENDAR`. */
  predicate IsCalendarClose(line: string) {
    StartsWith(Upper(Strip(line)), CalendarEnd)
  }

  predicate Retained(line: string) {
    !IsCalendarClose(line)
  }

  /** `header_lines` in `write_calendar_file`. */
  function RetainedHeaderLines(header: string): seq<string> {
    Filter(SplitLines(header), Retained)
  }

  /** `base_header`. */
  function BaseHeader(header: string): string {
    JoinLines(RetainedHeaderLines(header))
  }

  /** The text built from a base header and events. */
  function Layout(base: string, events: seq<string>): string {
    base + "\n" + JoinLines(events) + "\n" + CalendarEnd + "\n"
  }

  /**
   * The text starts with the base header and a line feed, ends with a line
   * feed and the closing line with its line feed, and holds the events
   * joined by line feeds in between.
   */
  lemma LayoutShape(base: string, events: seq<string>)
    ensures Layout(base, events)[..|base| + 1] == base + "\n"
    ensures Layout(base, events)[|base| + 1..|base| + 1 + |JoinLines(events)|] == JoinLines(events)
    ensures Layout(base, events)[|base| + 1 + |JoinLines(events)|..] == "\n" + CalendarEnd + "\n"
  {
    var a, j, c := base + "\n", JoinLines(events), "\n" + CalendarEnd + "\n";
    assert Layout(base, events) == a + j + c;
    ThreeParts(a, j, c);
  }

  /** `ics_body` in `write_calendar_file`. */
  function CalendarBody(header: string, events: seq<string>): string {
    Layout(BaseHeader(header), events)
  }

  /** `os.path.join(OUTPUT_DIR, f"{slug}.ics")`: an absolute file name replaces the directory. */
  function OutputPath(slug: string): (r: string)
    ensures EndsWith(r, Extension)
    ensures StartsWith(r, OutputDir + "/") || StartsWith(r, "/")
  {
    JoinPath(OutputDir, slug + Extension)
  }

  /**
   * `os.path.join(dir, file)` on POSIX paths: an absolute file name replaces
   * the directory, and a slash is added only after a non-empty directory
   * that does not already end with one.
   */
  function JoinPath(dir: string, file: string): string {
    if StartsWith(file, "/") then file
    else if dir == "" || EndsWith(dir, "/") then dir + file
    else dir + "/" + file
  }

  // ---------------------------------------------------------------------------
  // The header filter
  // ---------------------------------------------------------------------------

  /**
   * The retained header lines are exactly the header lines that are not
   * closing lines, each unchanged and in their original order.
   */
  lemma RetainedLinesExact(header: string)
    ensures var lines, pos := SplitLines(header), KeptPositions(SplitLines(header), Retained);
      |RetainedHeaderLines(header)| == |pos| &&
      (forall n :: 0 <= n < |pos| ==>
        pos[n] < |lines| && RetainedHeaderLines(header)[n] == lines[pos[n]] && !IsCalendarClose(lines[pos[n]])) &&
      (forall n, m :: 0 <= n < m < |pos| ==> pos[n] < pos[m]) &&
      (forall j :: 0 <= j < |lines| && !IsCalendarClose(lines[j]) ==> j in pos)
  {
    FilterAtKeptPositions(SplitLines(header), Retained);
    KeptPositionsExact(SplitLines(header), Retained);
  }

  /** Filtering the retained lines again keeps all of them. */
  lemma RetainIdempotent(header: string)
    ensures Filter(RetainedHeaderLines(header), Retained) == RetainedHeaderLines(header)
  {
    FilterIdempotent(SplitLines(header), Retained);
  }

  /** When the base header has lines, splitting it gives the retained lines back. */
  lemma BaseHeaderSplitsBack(header: string)
    requires |RetainedHeaderLines(header)| > 0
    ensures SplitOn(BaseHeader(header)) == RetainedHeaderLines(header)
  {
    SplitOnJoin(RetainedHeaderLines(header));
  }

  /**
   * Rebuilding the base header from the base header changes nothing,
   * provided the last retained line is not empty: `splitlines` would drop it.
   */
  lemma BaseHeaderIdempotent(header: string)
    requires var r := RetainedHeaderLines(header); |r| == 0 || r[|r| - 1] != ""
    ensures BaseHeader(BaseHeader(header)) == BaseHeader(header)
  {
    SplitLinesJoin(RetainedHeaderLines(header));
    RetainIdempotent(header);
  }

  // ---------------------------------------------------------------------------
  // The body
  // ---------------------------------------------------------------------------

  /** With no events the body is the base header, an empty line and the closing line. */
  lemma EmptyCalendar(header: string)
    ensures CalendarBody(header, []) == BaseHeader(header) + "\n\n" + CalendarEnd + "\n"
  {
    assert JoinLines([]) == "";
  }

  /** Joining the joined blocks is joining all their lines. */
  lemma {:induction false} JoinEvents(blocks: seq<seq<string>>)
    requires forall n :: 0 <= n < |blocks| ==> |blocks[n]| > 0
    ensures JoinLines(Map(blocks, JoinLines)) == JoinLines(Concat(blocks))
  {
    if |blocks| > 0 {
      var init, last := blocks[..|blocks| - 1], blocks[|blocks| - 1];
      assert blocks == init + [last];
      MapAppend(init, [last], JoinLines);
      if |init| > 0 {
        JoinEvents(init);
        JoinEventsStep(init, last);
      } else {
        assert Concat(blocks) == last;
        assert Map(blocks, JoinLines) == [JoinLines(last)];
      }
    }
  }

  lemma JoinEventsStep(init: seq<seq<string>>, last: seq<string>)
    requires |init| > 0 && |last| > 0
    requires forall n :: 0 <= n < |init| ==> |init[n]| > 0
    requires JoinLines(Map(init, JoinLines)) == JoinLines(Concat(init))
    ensures JoinLines(Map(init, JoinLines) + Map([last], JoinLines)) == JoinLines(Concat(init + [last]))
  {
    assert (init + [last])[..|init|] == init;
    assert Concat(init + [last]) == Concat(init) + last;
    assert Map([last], JoinLines) == [JoinLines(last)];
    JoinAppend(Map(init, JoinLines), [JoinLines(last)]);
    JoinAppend(Concat(init), last);
  }

  /** The start of the body, split into lines: the base header's pieces, and an empty line when there are no events. */
  function HeadPart(base: string, eventCount: nat): seq<string> {
    SplitOn(base) + (if eventCount == 0 then [""] else [])
  }

  /** The end of the text, from the joined events `j` on, splits into the pieces of `j`, the closing line `c` and an empty piece. */
  lemma TailLines(j: string, c: string)
    requires '\n' !in c
    ensures SplitOn(j + "\n" + (c + "\n" + "")) == SplitOn(j) + [c, ""]
  {
    SplitOnAppend(c, "");
    SplitOnSingle(c);
    SplitOnAppend(j, c + "\n" + "");
  }

  /** Text laid out around joined events `j` and a closing line `c` splits into the base header's pieces, those of `j` and `c`. */
  lemma TextLines(base: string, j: string, c: string)
    requires '\n' !in c
    ensures SplitLines(base + "\n" + j + "\n" + c + "\n") == SplitOn(base) + SplitOn(j) + [c]
  {
    var rest := j + "\n" + (c + "\n" + "");
    assert base + "\n" + j + "\n" + c + "\n" == base + "\n" + rest;
    TailLines(j, c);
    SplitOnAppend(base, rest);
    var pieces := SplitOn(base + "\n" + rest);
    assert pieces == SplitOn(base) + SplitOn(j) + [c] + [""];
    assert pieces[..|pieces| - 1] == SplitOn(base) + SplitOn(j) + [c];
  }

  /** Events that are blocks joined by line feeds, joined in turn, split into the lines of the blocks. */
  lemma JoinedEventsLines(blocks: seq<seq<string>>)
    requires forall n :: 0 <= n < |blocks| ==> |blocks[n]| > 0 && NoNewlines(blocks[n])
    ensures SplitOn(JoinLines(Map(blocks, JoinLines))) == if |blocks| == 0 then [""] else Concat(blocks)
  {
    if |blocks| > 0 {
      JoinEvents(blocks);
      ConcatAll(blocks, (l: string) => '\n' !in l);
      SplitOnJoin(Concat(blocks));
    }
  }

  /**
   * The text laid out for events that are blocks of lines joined by line
   * feeds splits into the head part, the lines of every block in order, and
   * the closing line.
   */
  lemma LayoutLines(base: string, blocks: seq<seq<string>>)
    requires forall n :: 0 <= n < |blocks| ==> |blocks[n]| > 0 && NoNewlines(blocks[n])
    ensures SplitLines(Layout(base, Map(blocks, JoinLines))) ==
      HeadPart(base, |blocks|) + Concat(blocks) + [CalendarEnd]
  {
    CalendarEndIsOneLine();
    TextLines(base, JoinLines(Map(blocks, JoinLines)), CalendarEnd);
    JoinedEventsLines(blocks);
    var text := base + "\n" + JoinLines(Map(blocks, JoinLines)) + "\n" + CalendarEnd + "\n";
    assert Layout(base, Map(blocks, JoinLines)) == text;
    if |blocks| == 0 {
      assert Concat(blocks) == [];
      assert HeadPart(base, |blocks|) + Concat(blocks) == SplitOn(base) + [""];
    } else {
      assert HeadPart(base, |blocks|) == SplitOn(base);
    }
  }

  lemma CalendarEndIsOneLine()
    ensures '\n' !in CalendarEnd
  {
  }

  lemma CalendarEndIsNotMarker()
    ensures !IsMarker(CalendarEnd)
  {
    assert CalendarEnd[..|EndEvent|][5] != EndEvent[5];
  }

  /** Every line of the head part is a retained header line or empty. */
  lemma HeadPartLines(header: string, eventCount: nat)
    ensures var head := HeadPart(BaseHeader(header), eventCount);
      forall k :: 0 <= k < |head| ==> head[k] == "" || head[k] in RetainedHeaderLines(header)
  {
    var retained := RetainedHeaderLines(header);
    if |retained| > 0 {
      BaseHeaderSplitsBack(header);
    } else {
      assert BaseHeader(header) == "";
    }
  }

  /** No line of the head part is a marker when no retained header line is. */
  lemma HeadHasNoMarkers(header: string, eventCount: nat)
    requires forall n :: 0 <= n < |RetainedHeaderLines(header)| ==> !IsMarker(RetainedHeaderLines(header)[n])
    ensures var head := HeadPart(BaseHeader(header), eventCount);
      forall k :: 0 <= k < |head| ==> !IsMarker(head[k])
  {
    HeadPartLines(header, eventCount);
    assert !IsMarker("");
  }

  /**
   * Reading back laid-out text: when the events are well-formed blocks
   * joined by line feeds and no piece of the base header is a marker,
   * splitting the text gives the same events, and the header is the head
   * part followed by the closing line.
   */
  lemma LayoutSplitsBack(base: string, blocks: seq<seq<string>>)
    requires forall n :: 0 <= n < |blocks| ==> WellFormedBlock(blocks[n])
    requires forall k :: 0 <= k < |HeadPart(base, |blocks|)| ==> !IsMarker(HeadPart(base, |blocks|)[k])
    ensures EmittedEvents(SplitLines(Layout(base, Map(blocks, JoinLines)))) == Map(blocks, JoinLines)
    ensures HeaderLines(SplitLines(Layout(base, Map(blocks, JoinLines)))) == HeadPart(base, |blocks|) + [CalendarEnd]
  {
    LayoutLines(base, blocks);
    CalendarEndIsNotMarker();
    LaidOutDocument(SplitLines(Layout(base, Map(blocks, JoinLines))), HeadPart(base, |blocks|), blocks, CalendarEnd);
  }

  /**
   * Reading back a written calendar: when the events are well-formed blocks
   * joined by line feeds and no retained header line is a marker, splitting
   * the body gives the same events, and the header is the head part followed
   * by the closing line.
   */
  lemma WrittenCalendarSplitsBack(header: string, blocks: seq<seq<string>>)
    requires forall n :: 0 <= n < |blocks| ==> WellFormedBlock(blocks[n])
    requires forall n :: 0 <= n < |RetainedHeaderLines(header)| ==> !IsMarker(RetainedHeaderLines(header)[n])
    ensures EmittedEvents(SplitLines(CalendarBody(header, Map(blocks, JoinLines)))) == Map(blocks, JoinLines)
    ensures HeaderLines(SplitLines(CalendarBody(header, Map(blocks, JoinLines)))) ==
      HeadPart(BaseHeader(header), |blocks|) + [CalendarEnd]
  {
    HeadHasNoMarkers(header, |blocks|);
    LayoutSplitsBack(BaseHeader(header), blocks);
  }

  // ---------------------------------------------------------------------------
  // The output path
  // ---------------------------------------------------------------------------

  /** The name a path was built from by joining it, with extension `ext`, to directory `dir`. */
  function SlugIn(dir: string, ext: string, path: string): string {
    if |path| < |ext| then ""
    else if StartsWith(path, "/") then path[..|path| - |ext|]
    else if |path| < |dir| + 1 + |ext| then ""
    else path[|dir| + 1..|path| - |ext|]
  }

  /** The calendar name a path written by `OutputPath` was built from. */
  function SlugOf(path: string): string {
    SlugIn(OutputDir, Extension, path)
  }

  /** A name joined with an extension to a relative directory not ending in a slash can be read back from the path. */
  lemma SlugInJoin(dir: string, ext: string, slug: string)
    requires |dir| > 0 && dir[0] != '/' && !EndsWith(dir, "/")
    ensures SlugIn(dir, ext, JoinPath(dir, slug + ext)) == slug
  {
    var file := slug + ext;
    var path := JoinPath(dir, file);
    if StartsWith(file, "/") {
      assert path[..|path| - |ext|] == slug;
    } else {
      assert path == dir + "/" + file;
      assert path[0] == dir[0];
      assert path[|dir| + 1..|path| - |ext|] == slug;
    }
  }

  /** The calendar name can be read back from the path, so different names give different paths. */
  lemma SlugOfOutputPath(slug: string)
    ensures SlugOf(OutputPath(slug)) == slug
  {
    assert OutputDir[0] == 'd' && OutputDir[|OutputDir| - 1] == 's';
    SlugInJoin(OutputDir, Extension, slug);
  }

  lemma OutputPathInjective(a: string, b: string)
    requires OutputPath(a) == OutputPath(b)
    ensures a == b
  {
    SlugOfOutputPath(a);
    SlugOfOutputPath(b);
  }
}
