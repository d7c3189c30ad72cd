/**
 * `split_events`: one pass over the lines of an iCalendar document that
 * separates the lines outside VEVENT blocks (the header) from the event
 * blocks, each emitted as its lines joined by line feeds.
 *
 * The pass is specified by functions of the input lines that say, for every
 * position: whether the `in_event` flag is set there (`InEvent`), which lines
 * the accumulator `current_event_lines` holds there (`Accumulator`), and
 * which lines have gone to the header so far (`Pick` with `acc == false`).
 * An event is emitted at every line that starts with the end marker.
 */
module Splitter {
  import opened Text
  import opened Seqs

  const BeginEvent: string := "BEGIN:VEVENT"
  const EndEvent: string := "END:VEVENT"

  /** Markers are recognised by a case-sensitive prefix test. */
  predicate IsBegin(line: string) {
    StartsWith(line, BeginEvent)
  }

  predicate IsEnd(line: string) {
    StartsWith(line, EndEvent)
  }

  predicate IsMarker(line: string) {
    IsBegin(line) || IsEnd(line)
  }

  /** No line is both markers, so the order of the two tests does not matter. */
  lemma MarkersDisjoint(line: string)
    ensures !(IsBegin(line) && IsEnd(line))
  {
    assert IsBegin(line) ==> line[0] == 'B';
    assert IsEnd(line) ==> line[0] == 'E';
  }

  // ---------------------------------------------------------------------------
  // The specification of the pass, position by position
  // ---------------------------------------------------------------------------

  /** No line strictly between positions `b` and `i` is an end marker. */
  ghost predicate NoEndBetween(lines: seq<string>, b: int, i: int)
    requires -1 <= b && i <= |lines|
  {
    forall k :: b < k < i ==> !IsEnd(lines[k])
  }

  /**
   * The `in_event` flag just before line `i` is read: set by a begin
   * marker, cleared by an end marker, kept by any other line.
   */
  ghost predicate InEvent(lines: seq<string>, i: int)
    requires 0 <= i <= |lines|
    decreases i
  {
    i > 0 && (IsBegin(lines[i - 1]) || (!IsEnd(lines[i - 1]) && InEvent(lines, i - 1)))
  }

  /** Line `k` goes to the accumulator (a marker, or a line inside an event) rather than to the header. */
  ghost predicate ToAccumulator(lines: seq<string>, k: int)
    requires 0 <= k < |lines|
  {
    IsMarker(lines[k]) || InEvent(lines, k)
  }

  /** The position of the most recent begin marker before `i`, or -1 if there is none. */
  function LastBegin(lines: seq<string>, i: int): (r: int)
    requires 0 <= i <= |lines|
    ensures -1 <= r < i
    ensures r >= 0 ==> IsBegin(lines[r])
    ensures forall k :: r < k < i ==> !IsBegin(lines[k])
  {
    if i == 0 then -1
    else if IsBegin(lines[i - 1]) then i - 1
    else LastBegin(lines, i - 1)
  }

  /**
   * The lines at positions `lo` to `hi - 1` that go to the accumulator
   * (`acc`) or to the header (`!acc`), in order.
   */
  ghost function Pick(lines: seq<string>, lo: int, hi: int, acc: bool): seq<string>
    requires 0 <= lo <= hi <= |lines|
    decreases hi
  {
    if lo == hi then []
    else Pick(lines, lo, hi - 1, acc) + (if ToAccumulator(lines, hi - 1) == acc then [lines[hi - 1]] else [])
  }

  /**
   * `current_event_lines` just before line `i` is read: the lines that went
   * to the accumulator since the most recent begin marker (from the start
   * when there is none).
   */
  ghost function Accumulator(lines: seq<string>, i: int): seq<string>
    requires 0 <= i <= |lines|
  {
    var b := LastBegin(lines, i);
    Pick(lines, if b < 0 then 0 else b, i, true)
  }

  /** `header_lines` at the end of the pass. */
  ghost function HeaderLines(lines: seq<string>): seq<string> {
    Pick(lines, 0, |lines|, false)
  }

  /** The positions before `i` holding end markers, in increasing order. */
  ghost function EndPositions(lines: seq<string>, i: int): (r: seq<nat>)
    requires 0 <= i <= |lines|
    ensures forall n :: 0 <= n < |r| ==> r[n] < i
  {
    KeptPositionsExact(lines[..i], IsEnd);
    KeptPositions(lines[..i], IsEnd)
  }

  /**
   * The end positions are ascending, each holds an end marker, and every
   * end marker before `i` is at one of them.
   */
  lemma EndPositionsExact(lines: seq<string>, i: int)
    requires 0 <= i <= |lines|
    ensures var r := EndPositions(lines, i);
      (forall n :: 0 <= n < |r| ==> IsEnd(lines[r[n]])) &&
      (forall n, m :: 0 <= n < m < |r| ==> r[n] < r[m]) &&
      (forall k :: 0 <= k < i && IsEnd(lines[k]) ==> k in r)
  {
    KeptPositionsExact(lines[..i], IsEnd);
    assert forall j :: 0 <= j < i ==> lines[..i][j] == lines[j];
  }

  // ---------------------------------------------------------------------------
  // The pass
  // ---------------------------------------------------------------------------

  /**
   * `split_events(ics_text)`: the header is the header lines joined by line
   * feeds; there is one event per end-marker line, in the order of those
   * lines, holding the accumulator as it stands once that line is appended.
   */
  method SplitEvents(icsText: string) returns (header: string, events: seq<string>)
    ensures header == JoinLines(HeaderLines(SplitLines(icsText)))
    ensures events == EmittedEvents(SplitLines(icsText))
  {
    var lines := SplitLines(icsText);
    var headerLines: seq<string> := [];
    events := [];
    var inEvent := false;
    var currentEventLines: seq<string> := [];
    for i := 0 to |lines|
      invariant inEvent == InEvent(lines, i)
      invariant currentEventLines == Accumulator(lines, i)
      invariant headerLines == Pick(lines, 0, i, false)
      invariant EventsSoFar(lines, i, events)
    {
      var line := lines[i];
      EventsStep(lines, i, events);
      if StartsWith(line, BeginEvent) {
        BeginStep(lines, i);
        inEvent := true;
        currentEventLines := [line];
      } else if StartsWith(line, EndEvent) {
        EndStep(lines, i);
        currentEventLines := currentEventLines + [line];
        events := events + [JoinLines(currentEventLines)];
        inEvent := false;
      } else if inEvent {
        InsideStep(lines, i);
        currentEventLines := currentEventLines + [line];
      } else {
        OutsideStep(lines, i);
        headerLines := headerLines + [line];
      }
    }
    header := JoinLines(headerLines);
    AllEventsSoFar(lines, events);
  }

  /** At the end of the input, the events so far are all the emitted events. */
  lemma AllEventsSoFar(lines: seq<string>, events: seq<string>)
    requires EventsSoFar(lines, |lines|, events)
    ensures events == EmittedEvents(lines)
  {
  }

  /** The events the pass emits: at each end marker, in order, the accumulator joined by line feeds. */
  ghost function EmittedEvents(lines: seq<string>): seq<string> {
    var ends := EndPositions(lines, |lines|);
    seq(|ends|, n requires 0 <= n < |ends| => JoinLines(Accumulator(lines, ends[n] + 1)))
  }

  /** `events` holds one event for each end marker before `i`, in order. */
  ghost predicate EventsSoFar(lines: seq<string>, i: int, events: seq<string>)
    requires 0 <= i <= |lines|
  {
    var ends := EndPositions(lines, i);
    |events| == |ends| &&
    forall n :: 0 <= n < |events| ==> events[n] == JoinLines(Accumulator(lines, ends[n] + 1))
  }

  // ---------------------------------------------------------------------------
  // One step of the pass, in terms of the specification
  // ---------------------------------------------------------------------------

  /** The flag is set exactly when some begin marker before `i` has no end marker after it. */
  lemma {:induction false} InEventIff(lines: seq<string>, i: int)
    requires 0 <= i <= |lines|
    ensures InEvent(lines, i) <==> exists b :: 0 <= b < i && IsBegin(lines[b]) && NoEndBetween(lines, b, i)
    decreases i
  {
    if i > 0 {
      InEventIff(lines, i - 1);
      MarkersDisjoint(lines[i - 1]);
      if IsBegin(lines[i - 1]) {
        assert NoEndBetween(lines, i - 1, i);
      } else {
        if exists b :: 0 <= b < i && IsBegin(lines[b]) && NoEndBetween(lines, b, i) {
          var b :| 0 <= b < i && IsBegin(lines[b]) && NoEndBetween(lines, b, i);
          assert b < i - 1 && !IsEnd(lines[i - 1]);
          assert NoEndBetween(lines, b, i - 1);
        }
        if !IsEnd(lines[i - 1]) && InEvent(lines, i - 1) {
          var b :| 0 <= b < i - 1 && IsBegin(lines[b]) && NoEndBetween(lines, b, i - 1);
          assert NoEndBetween(lines, b, i);
        }
      }
    }
  }

  /** A begin marker restarts the accumulator; any other line it takes is appended. */
  lemma AccumulatorStep(lines: seq<string>, i: int)
    requires 0 <= i < |lines|
    ensures Accumulator(lines, i + 1) ==
      if IsBegin(lines[i]) then [lines[i]]
      else Accumulator(lines, i) + (if ToAccumulator(lines, i) then [lines[i]] else [])
  {
    if IsBegin(lines[i]) {
      assert LastBegin(lines, i + 1) == i;
      assert Pick(lines, i, i, true) == [];
    } else {
      var b := LastBegin(lines, i);
      assert LastBegin(lines, i + 1) == b;
      var lo := if b < 0 then 0 else b;
      assert Pick(lines, lo, i + 1, true) ==
        Pick(lines, lo, i, true) + (if ToAccumulator(lines, i) then [lines[i]] else []);
    }
  }

  /** An end marker emits the accumulator with that line appended; other lines emit nothing. */
  lemma EventsStep(lines: seq<string>, i: int, events: seq<string>)
    requires 0 <= i < |lines|
    requires EventsSoFar(lines, i, events)
    ensures !IsEnd(lines[i]) ==> EventsSoFar(lines, i + 1, events)
    ensures IsEnd(lines[i]) ==> EventsSoFar(lines, i + 1, events + [JoinLines(Accumulator(lines, i + 1))])
  {
    EndPositionsStep(lines, i);
    if IsEnd(lines[i]) {
      EventsAppend(lines, i, events, JoinLines(Accumulator(lines, i + 1)));
    }
  }

  /** Recording one more end position, with its event, keeps the earlier events. */
  lemma EventsAppend(lines: seq<string>, i: int, events: seq<string>, event: string)
    requires 0 <= i < |lines|
    requires EventsSoFar(lines, i, events)
    requires EndPositions(lines, i + 1) == EndPositions(lines, i) + [i]
    requires event == JoinLines(Accumulator(lines, i + 1))
    ensures EventsSoFar(lines, i + 1, events + [event])
  {
  }

  /** A line outside every event, and no marker, is appended to the header. */
  lemma HeaderStep(lines: seq<string>, i: int)
    requires 0 <= i < |lines|
    ensures Pick(lines, 0, i + 1, false) ==
      Pick(lines, 0, i, false) + (if IsMarker(lines[i]) || InEvent(lines, i) then [] else [lines[i]])
  {
  }

  lemma EndPositionsStep(lines: seq<string>, i: int)
    requires 0 <= i < |lines|
    ensures EndPositions(lines, i + 1) == EndPositions(lines, i) + (if IsEnd(lines[i]) then [i] else [])
  {
    assert lines[..i + 1][..i] == lines[..i];
  }

  // ---------------------------------------------------------------------------
  // Runs of lines without markers
  // ---------------------------------------------------------------------------

  /** Outside an event, a line without a marker goes to the header and nothing else changes. */
  lemma OutsideStep(lines: seq<string>, i: int)
    requires 0 <= i < |lines|
    requires !InEvent(lines, i) && !IsMarker(lines[i])
    ensures !InEvent(lines, i + 1)
    ensures Accumulator(lines, i + 1) == Accumulator(lines, i)
    ensures Pick(lines, 0, i + 1, false) == Pick(lines, 0, i, false) + [lines[i]]
    ensures EndPositions(lines, i + 1) == EndPositions(lines, i)
  {
    AccumulatorStep(lines, i);
    HeaderStep(lines, i);
    EndPositionsStep(lines, i);
  }

  /** Inside an event, a line without a marker goes to the accumulator and nothing else changes. */
  lemma InsideStep(lines: seq<string>, i: int)
    requires 0 <= i < |lines|
    requires InEvent(lines, i) && !IsMarker(lines[i])
    ensures InEvent(lines, i + 1)
    ensures Accumulator(lines, i + 1) == Accumulator(lines, i) + [lines[i]]
    ensures Pick(lines, 0, i + 1, false) == Pick(lines, 0, i, false)
    ensures EndPositions(lines, i + 1) == EndPositions(lines, i)
  {
    AccumulatorStep(lines, i);
    HeaderStep(lines, i);
    EndPositionsStep(lines, i);
  }

  /** A begin marker sets the flag and restarts the accumulator with itself; nothing else changes. */
  lemma BeginStep(lines: seq<string>, i: int)
    requires 0 <= i < |lines| && IsBegin(lines[i])
    ensures InEvent(lines, i + 1)
    ensures Accumulator(lines, i + 1) == [lines[i]]
    ensures Pick(lines, 0, i + 1, false) == Pick(lines, 0, i, false)
    ensures EndPositions(lines, i + 1) == EndPositions(lines, i)
  {
    MarkersDisjoint(lines[i]);
    AccumulatorStep(lines, i);
    HeaderStep(lines, i);
    EndPositionsStep(lines, i);
  }

  /** An end marker clears the flag, is appended to the accumulator and is recorded as an end position. */
  lemma EndStep(lines: seq<string>, i: int)
    requires 0 <= i < |lines| && IsEnd(lines[i])
    ensures !InEvent(lines, i + 1)
    ensures Accumulator(lines, i + 1) == Accumulator(lines, i) + [lines[i]]
    ensures Pick(lines, 0, i + 1, false) == Pick(lines, 0, i, false)
    ensures EndPositions(lines, i + 1) == EndPositions(lines, i) + [i]
  {
    MarkersDisjoint(lines[i]);
    AccumulatorStep(lines, i);
    HeaderStep(lines, i);
    EndPositionsStep(lines, i);
  }

  /** Outside an event, lines without markers go to the header and nothing else changes. */
  lemma {:induction false} OutsideRun(lines: seq<string>, lo: int, hi: int)
    requires 0 <= lo <= hi <= |lines|
    requires !InEvent(lines, lo)
    requires forall k :: lo <= k < hi ==> !IsMarker(lines[k])
    ensures !InEvent(lines, hi)
    ensures Accumulator(lines, hi) == Accumulator(lines, lo)
    ensures Pick(lines, 0, hi, false) == Pick(lines, 0, lo, false) + lines[lo..hi]
    ensures EndPositions(lines, hi) == EndPositions(lines, lo)
    decreases hi
  {
    if hi > lo {
      OutsideRun(lines, lo, hi - 1);
      OutsideStep(lines, hi - 1);
      SliceSnoc(lines, lo, hi);
    }
  }

  /** Inside an event, lines without markers are appended to the accumulator and nothing else changes. */
  lemma {:induction false} InsideRun(lines: seq<string>, lo: int, hi: int)
    requires 0 <= lo <= hi <= |lines|
    requires InEvent(lines, lo)
    requires forall k :: lo <= k < hi ==> !IsMarker(lines[k])
    ensures InEvent(lines, hi)
    ensures Accumulator(lines, hi) == Accumulator(lines, lo) + lines[lo..hi]
    ensures Pick(lines, 0, hi, false) == Pick(lines, 0, lo, false)
    ensures EndPositions(lines, hi) == EndPositions(lines, lo)
    decreases hi
  {
    if hi > lo {
      InsideRun(lines, lo, hi - 1);
      InsideStep(lines, hi - 1);
      SliceSnoc(lines, lo, hi);
    }
  }

  /**
   * From a begin marker until the next end marker, no line goes to the
   * header and no event is emitted, whatever further begin markers occur.
   */
  lemma {:induction false} EventRun(lines: seq<string>, b: int, hi: int)
    requires 0 <= b < hi <= |lines|
    requires IsBegin(lines[b])
    requires forall k :: b < k < hi ==> !IsEnd(lines[k])
    ensures InEvent(lines, hi)
    ensures Pick(lines, 0, hi, false) == Pick(lines, 0, b, false)
    ensures EndPositions(lines, hi) == EndPositions(lines, b)
    decreases hi
  {
    MarkersDisjoint(lines[hi - 1]);
    HeaderStep(lines, hi - 1);
    EndPositionsStep(lines, hi - 1);
    if hi - 1 > b {
      EventRun(lines, b, hi - 1);
    }
  }

  // ---------------------------------------------------------------------------
  // What the pass promises
  // ---------------------------------------------------------------------------

  /** The positions before `i` of the lines that start with the end marker. */
  ghost function EndLines(lines: seq<string>, i: int): set<int>
    requires 0 <= i <= |lines|
  {
    set k | 0 <= k < i && IsEnd(lines[k])
  }

  lemma EndLinesStep(lines: seq<string>, i: int)
    requires 0 <= i < |lines|
    ensures EndLines(lines, i + 1) == EndLines(lines, i) + (if IsEnd(lines[i]) then {i} else {})
    ensures i !in EndLines(lines, i)
  {
  }

  /** There are exactly as many events as lines starting with the end marker. */
  lemma {:induction false} EventCount(lines: seq<string>, i: int)
    requires 0 <= i <= |lines|
    ensures |EndPositions(lines, i)| == |EndLines(lines, i)|
    decreases i
  {
    if i > 0 {
      EventCount(lines, i - 1);
      EndPositionsStep(lines, i - 1);
      EndLinesStep(lines, i - 1);
    }
  }

  /** The lines picked between `lo` and `hi` are the lines there that go to the chosen side. */
  lemma {:induction false} PickMembers(lines: seq<string>, lo: int, hi: int, acc: bool)
    requires 0 <= lo <= hi <= |lines|
    ensures forall x :: x in Pick(lines, lo, hi, acc) <==>
      exists k :: lo <= k < hi && ToAccumulator(lines, k) == acc && lines[k] == x
    decreases hi
  {
    if lo < hi {
      PickMembers(lines, lo, hi - 1, acc);
    }
  }

  /** A line is in the header exactly when it occurs, outside every event, without being a marker. */
  lemma HeaderMembers(lines: seq<string>)
    ensures forall x :: x in HeaderLines(lines) <==>
      exists k :: 0 <= k < |lines| && !IsMarker(lines[k]) && !InEvent(lines, k) && lines[k] == x
  {
    PickMembers(lines, 0, |lines|, false);
  }

  /** No header line starts with either marker. */
  lemma {:induction false} HeaderHasNoMarkers(lines: seq<string>, hi: int)
    requires 0 <= hi <= |lines|
    ensures forall n :: 0 <= n < |Pick(lines, 0, hi, false)| ==> !IsMarker(Pick(lines, 0, hi, false)[n])
    decreases hi
  {
    if hi > 0 {
      HeaderHasNoMarkers(lines, hi - 1);
    }
  }

  /** Header and accumulator lines are input lines, so they hold no line feed when the input lines do not. */
  lemma {:induction false} PickNoNewlines(lines: seq<string>, lo: int, hi: int, acc: bool)
    requires 0 <= lo <= hi <= |lines| && NoNewlines(lines)
    ensures NoNewlines(Pick(lines, lo, hi, acc))
    decreases hi
  {
    if lo < hi {
      PickNoNewlines(lines, lo, hi - 1, acc);
    }
  }

  /** The event emitted at an end marker ends with that very line. */
  lemma EventEndsWithItsMarker(lines: seq<string>, j: int)
    requires 0 <= j < |lines| && IsEnd(lines[j])
    ensures var event := Accumulator(lines, j + 1);
      |event| >= 1 && event[|event| - 1] == lines[j]
  {
    MarkersDisjoint(lines[j]);
    AccumulatorStep(lines, j);
  }

  /**
   * An end marker whose latest preceding marker is a begin marker emits
   * exactly the lines from that begin marker through the end marker; the
   * lines of any earlier, unclosed event are not part of it.
   */
  lemma EventFromLatestBegin(lines: seq<string>, b: int, j: int)
    requires 0 <= b < j < |lines|
    requires IsBegin(lines[b]) && IsEnd(lines[j])
    requires forall k :: b < k < j ==> !IsMarker(lines[k])
    ensures Accumulator(lines, j + 1) == lines[b..j + 1]
  {
    BlockRun(lines, b, j);
    SliceEnds(lines, b, j);
  }

  /**
   * An end marker whose latest preceding marker is also an end marker
   * emits the previous event again with the new end line appended: the
   * accumulator is not cleared when an event is emitted.
   */
  lemma StaleEvent(lines: seq<string>, j0: int, j: int)
    requires 0 <= j0 < j < |lines|
    requires IsEnd(lines[j0]) && IsEnd(lines[j])
    requires forall k :: j0 < k < j ==> !IsMarker(lines[k])
    ensures Accumulator(lines, j + 1) == Accumulator(lines, j0 + 1) + [lines[j]]
  {
    MarkersDisjoint(lines[j0]);
    MarkersDisjoint(lines[j]);
    OutsideRun(lines, j0 + 1, j);
    AccumulatorStep(lines, j);
  }

  /** An end marker before any other marker emits an event of that one line. */
  lemma EndWithoutBegin(lines: seq<string>, j: int)
    requires 0 <= j < |lines| && IsEnd(lines[j])
    requires forall k :: 0 <= k < j ==> !IsMarker(lines[k])
    ensures Accumulator(lines, j + 1) == [lines[j]]
  {
    MarkersDisjoint(lines[j]);
    OutsideRun(lines, 0, j);
    AccumulatorStep(lines, j);
  }

  /**
   * A trailing event that is never closed is dropped: from its begin marker
   * on, no line reaches the header and no event is emitted.
   */
  lemma TrailingEventDropped(lines: seq<string>, b: int)
    requires 0 <= b < |lines| && IsBegin(lines[b])
    requires forall k :: b < k < |lines| ==> !IsEnd(lines[k])
    ensures HeaderLines(lines) == Pick(lines, 0, b, false)
    ensures EndPositions(lines, |lines|) == EndPositions(lines, b)
  {
    EventRun(lines, b, |lines|);
  }

  // ---------------------------------------------------------------------------
  // Well-formed input and reading blocks back
  // ---------------------------------------------------------------------------

  /** A block as the docstring of `split_events` describes it: begin marker, plain lines, end marker. */
  ghost predicate WellFormedBlock(block: seq<string>) {
    |block| >= 2 && IsBegin(block[0]) && IsEnd(block[|block| - 1]) &&
    (forall t :: 0 < t < |block| - 1 ==> !IsMarker(block[t])) &&
    NoNewlines(block)
  }

  lemma SliceIsWellFormed(lines: seq<string>, b: int, j: int)
    requires NoNewlines(lines)
    requires 0 <= b < j < |lines| && IsBegin(lines[b]) && IsEnd(lines[j])
    requires forall k :: b < k < j ==> !IsMarker(lines[k])
    ensures WellFormedBlock(lines[b..j + 1])
  {
    var block := lines[b..j + 1];
    assert forall t :: 0 <= t < |block| ==> block[t] == lines[b + t];
  }

  /** An end marker read inside an event emits a well-formed block. */
  lemma ClosedEventIsWellFormed(lines: seq<string>, j: int)
    requires NoNewlines(lines)
    requires 0 <= j < |lines| && IsEnd(lines[j]) && InEvent(lines, j)
    ensures WellFormedBlock(Accumulator(lines, j + 1))
  {
    InEventIff(lines, j);
    var b0 :| 0 <= b0 < j && IsBegin(lines[b0]) && NoEndBetween(lines, b0, j);
    var r := LastBegin(lines, j);
    assert b0 <= r;
    assert forall k :: r < k < j ==> !IsMarker(lines[k]);
    EventFromLatestBegin(lines, r, j);
    SliceIsWellFormed(lines, r, j);
  }

  /**
   * A well-formed block read outside an event is emitted unchanged as one
   * event, sends nothing to the header and leaves the flag cleared.
   */
  lemma BlockReadBack(lines: seq<string>, s: int, block: seq<string>)
    requires 0 <= s && s + |block| <= |lines| && lines[s..s + |block|] == block
    requires WellFormedBlock(block) && !InEvent(lines, s)
    ensures !InEvent(lines, s + |block|)
    ensures Accumulator(lines, s + |block|) == block
    ensures Pick(lines, 0, s + |block|, false) == Pick(lines, 0, s, false)
    ensures EndPositions(lines, s + |block|) == EndPositions(lines, s) + [s + |block| - 1]
  {
    var e := s + |block| - 1;
    BlockFacts(lines, s, block);
    BlockRun(lines, s, e);
  }

  /** What a well-formed block laid out at `s` says about the lines there. */
  lemma BlockFacts(lines: seq<string>, s: int, block: seq<string>)
    requires 0 <= s && s + |block| <= |lines| && lines[s..s + |block|] == block
    requires WellFormedBlock(block)
    ensures IsBegin(lines[s]) && IsEnd(lines[s + |block| - 1])
    ensures forall k :: s < k < s + |block| - 1 ==> !IsMarker(lines[k])
    ensures block == [lines[s]] + lines[s + 1..s + |block| - 1] + [lines[s + |block| - 1]]
  {
    var e := s + |block| - 1;
    assert lines[s] == block[0] && lines[e] == block[|block| - 1];
    assert forall k :: s < k < e ==> lines[k] == block[k - s];
    SliceEnds(lines, s, e);
  }

  /** From a begin marker at `s` through plain lines to an end marker at `e`. */
  lemma BlockRun(lines: seq<string>, s: int, e: int)
    requires 0 <= s < e < |lines| && IsBegin(lines[s]) && IsEnd(lines[e])
    requires forall k :: s < k < e ==> !IsMarker(lines[k])
    ensures !InEvent(lines, e + 1)
    ensures Accumulator(lines, e + 1) == [lines[s]] + lines[s + 1..e] + [lines[e]]
    ensures Pick(lines, 0, e + 1, false) == Pick(lines, 0, s, false)
    ensures EndPositions(lines, e + 1) == EndPositions(lines, s) + [e]
  {
    BeginStep(lines, s);
    InsideRun(lines, s + 1, e);
    EndStep(lines, e);
  }

  /** The end positions before `i` are the first of those before `j`. */
  lemma {:induction false} EndPositionsPrefix(lines: seq<string>, i: int, j: int)
    requires 0 <= i <= j <= |lines|
    ensures |EndPositions(lines, i)| <= |EndPositions(lines, j)|
    ensures EndPositions(lines, j)[..|EndPositions(lines, i)|] == EndPositions(lines, i)
    decreases j - i
  {
    if i < j {
      EndPositionsPrefix(lines, i, j - 1);
      EndPositionsStep(lines, j - 1);
    }
  }

  /** An end position, once recorded, keeps its place in the list. */
  lemma EndPositionsAt(lines: seq<string>, i: int, j: int, n: int)
    requires 0 <= i <= j <= |lines| && 0 <= n < |EndPositions(lines, i)|
    ensures n < |EndPositions(lines, j)| && EndPositions(lines, j)[n] == EndPositions(lines, i)[n]
  {
    EndPositionsPrefix(lines, i, j);
    assert EndPositions(lines, j)[..|EndPositions(lines, i)|][n] == EndPositions(lines, j)[n];
  }

  /** `blocks` laid out one after another in `lines` from position `p`. */
  ghost predicate LaidOut(lines: seq<string>, p: int, blocks: seq<seq<string>>) {
    0 <= p && p + |Concat(blocks)| <= |lines| &&
    lines[p..p + |Concat(blocks)|] == Concat(blocks)
  }

  lemma LaidOutPrefix(lines: seq<string>, p: int, blocks: seq<seq<string>>, m: int)
    requires LaidOut(lines, p, blocks) && 0 <= m <= |blocks|
    ensures LaidOut(lines, p, blocks[..m])
  {
    ConcatPrefix(blocks, m);
    var k := |Concat(blocks[..m])|;
    assert lines[p..p + k] == lines[p..p + |Concat(blocks)|][..k];
  }

  /** Splits the layout of `blocks` into that of all but the last block and the last block. */
  lemma LastBlockStart(lines: seq<string>, p: int, blocks: seq<seq<string>>) returns (init: seq<seq<string>>, q0: int)
    requires LaidOut(lines, p, blocks) && |blocks| > 0
    requires forall n :: 0 <= n < |blocks| ==> WellFormedBlock(blocks[n])
    ensures init == blocks[..|blocks| - 1]
    ensures q0 == p + |Concat(init)|
    ensures q0 + |blocks[|blocks| - 1]| == p + |Concat(blocks)|
    ensures LaidOut(lines, p, init)
    ensures forall n :: 0 <= n < |init| ==> WellFormedBlock(init[n])
    ensures lines[q0..q0 + |blocks[|blocks| - 1]|] == blocks[|blocks| - 1]
    ensures WellFormedBlock(blocks[|blocks| - 1])
  {
    init := blocks[..|blocks| - 1];
    var block := blocks[|blocks| - 1];
    assert forall n :: 0 <= n < |init| ==> init[n] == blocks[n];
    assert Concat(blocks) == Concat(init) + block;
    SliceOfAppend(lines, p, Concat(init), block);
    q0 := p + |Concat(init)|;
  }

  /**
   * Well-formed blocks laid out one after another, read outside an event
   * and before any end marker, leave the flag cleared, send nothing to the
   * header and emit one event per block, the last one at the last line.
   */
  lemma {:induction false} BlocksReadBack(lines: seq<string>, p: int, blocks: seq<seq<string>>) returns (q: int)
    requires LaidOut(lines, p, blocks)
    requires forall n :: 0 <= n < |blocks| ==> WellFormedBlock(blocks[n])
    requires !InEvent(lines, p) && EndPositions(lines, p) == []
    ensures q == p + |Concat(blocks)| && q <= |lines|
    ensures !InEvent(lines, q)
    ensures Pick(lines, 0, q, false) == Pick(lines, 0, p, false)
    ensures |EndPositions(lines, q)| == |blocks|
    ensures |blocks| > 0 ==> EndPositions(lines, q)[|blocks| - 1] + 1 == q && Accumulator(lines, q) == blocks[|blocks| - 1]
    decreases |blocks|
  {
    if |blocks| == 0 {
      q := p;
    } else {
      var block := blocks[|blocks| - 1];
      var init, q0 := LastBlockStart(lines, p, blocks);
      var q1 := BlocksReadBack(lines, p, init);
      q := NextBlockReadBack(lines, p, q0, block, |init|);
    }
  }

  /** One more well-formed block after `k` emitted events: the facts of `BlocksReadBack` carry over to its end. */
  lemma NextBlockReadBack(lines: seq<string>, p: int, q0: int, block: seq<string>, k: nat) returns (q: int)
    requires 0 <= p <= q0 && q0 + |block| <= |lines| && lines[q0..q0 + |block|] == block
    requires WellFormedBlock(block) && !InEvent(lines, q0)
    requires Pick(lines, 0, q0, false) == Pick(lines, 0, p, false) && |EndPositions(lines, q0)| == k
    ensures q == q0 + |block|
    ensures !InEvent(lines, q)
    ensures Pick(lines, 0, q, false) == Pick(lines, 0, p, false)
    ensures |EndPositions(lines, q)| == k + 1 && EndPositions(lines, q)[k] + 1 == q
    ensures Accumulator(lines, q) == block
  {
    BlockReadBack(lines, q0, block);
    q := q0 + |block|;
  }

  /** ... and the event emitted for the `n`-th block is that block. */
  lemma BlocksReadBackAt(lines: seq<string>, p: int, blocks: seq<seq<string>>, n: int)
    requires LaidOut(lines, p, blocks)
    requires forall n :: 0 <= n < |blocks| ==> WellFormedBlock(blocks[n])
    requires !InEvent(lines, p) && EndPositions(lines, p) == []
    requires 0 <= n < |blocks|
    ensures |EndPositions(lines, p + |Concat(blocks)|)| == |blocks|
    ensures Accumulator(lines, EndPositions(lines, p + |Concat(blocks)|)[n] + 1) == blocks[n]
  {
    var i := PrefixReadBack(lines, p, blocks, n + 1);
    var j := BlocksReadBack(lines, p, blocks);
    EndPositionsAt(lines, i, j, n);
  }

  /** Reading the first `m` blocks emits `m` events, the last of them the `m`-th block. */
  lemma PrefixReadBack(lines: seq<string>, p: int, blocks: seq<seq<string>>, m: int) returns (i: int)
    requires LaidOut(lines, p, blocks)
    requires forall n :: 0 <= n < |blocks| ==> WellFormedBlock(blocks[n])
    requires !InEvent(lines, p) && EndPositions(lines, p) == []
    requires 0 < m <= |blocks|
    ensures i == p + |Concat(blocks[..m])| && i <= p + |Concat(blocks)|
    ensures |EndPositions(lines, i)| == m
    ensures EndPositions(lines, i)[m - 1] + 1 == i
    ensures Accumulator(lines, i) == blocks[m - 1]
  {
    var prefix := blocks[..m];
    LaidOutPrefix(lines, p, blocks, m);
    ConcatPrefix(blocks, m);
    i := BlocksReadBack(lines, p, prefix);
  }

  /**
   * A document made of plain lines, well-formed blocks and a final plain
   * line: before the blocks the flag is cleared, the header holds the plain
   * lines and no event has been emitted.
   */
  lemma LaidOutHead(lines: seq<string>, head: seq<string>, blocks: seq<seq<string>>, last: string)
    requires lines == head + Concat(blocks) + [last]
    requires forall k :: 0 <= k < |head| ==> !IsMarker(head[k])
    ensures !InEvent(lines, |head|)
    ensures Pick(lines, 0, |head|, false) == head
    ensures EndPositions(lines, |head|) == []
    ensures LaidOut(lines, |head|, blocks)
  {
    assert forall k :: 0 <= k < |head| ==> lines[k] == head[k];
    OutsideRun(lines, 0, |head|);
    assert lines[0..|head|] == head;
    assert lines[..0] == [];
    assert lines[|head|..|head| + |Concat(blocks)|] == Concat(blocks);
  }

  /**
   * Well-formed blocks laid out from a position outside an event with no
   * end marker before it, followed by one plain line that ends the input:
   * the whole input emits one event per block and adds only the final line
   * to the header.
   */
  lemma BlocksThenPlainLine(lines: seq<string>, p: int, blocks: seq<seq<string>>)
    requires LaidOut(lines, p, blocks)
    requires forall n :: 0 <= n < |blocks| ==> WellFormedBlock(blocks[n])
    requires !InEvent(lines, p) && EndPositions(lines, p) == []
    requires |lines| == p + |Concat(blocks)| + 1 && !IsMarker(lines[|lines| - 1])
    ensures HeaderLines(lines) == Pick(lines, 0, p, false) + [lines[|lines| - 1]]
    ensures EndPositions(lines, |lines|) == EndPositions(lines, p + |Concat(blocks)|)
  {
    var q := BlocksReadBack(lines, p, blocks);
    OutsideStep(lines, q);
  }

  /** ... and the events it emits are the blocks, in order. */
  lemma BlocksThenPlainLineEvents(lines: seq<string>, p: int, blocks: seq<seq<string>>)
    requires LaidOut(lines, p, blocks)
    requires forall n :: 0 <= n < |blocks| ==> WellFormedBlock(blocks[n])
    requires !InEvent(lines, p) && EndPositions(lines, p) == []
    requires |lines| == p + |Concat(blocks)| + 1 && !IsMarker(lines[|lines| - 1])
    ensures EmittedEvents(lines) == Map(blocks, JoinLines)
  {
    var q := BlocksReadBack(lines, p, blocks);
    BlocksThenPlainLine(lines, p, blocks);
    forall n | 0 <= n < |blocks|
      ensures Accumulator(lines, EndPositions(lines, |lines|)[n] + 1) == blocks[n]
    {
      BlocksThenPlainLineEventAt(lines, p, blocks, n);
    }
    EmittedEventsAre(lines, blocks);
  }

  /** Over the whole input, the `n`-th end position closes the `n`-th block. */
  lemma BlocksThenPlainLineEventAt(lines: seq<string>, p: int, blocks: seq<seq<string>>, n: int)
    requires LaidOut(lines, p, blocks)
    requires forall n :: 0 <= n < |blocks| ==> WellFormedBlock(blocks[n])
    requires !InEvent(lines, p) && EndPositions(lines, p) == []
    requires |lines| == p + |Concat(blocks)| + 1 && !IsMarker(lines[|lines| - 1])
    requires 0 <= n < |blocks|
    ensures |EndPositions(lines, |lines|)| == |blocks|
    ensures Accumulator(lines, EndPositions(lines, |lines|)[n] + 1) == blocks[n]
  {
    BlocksThenPlainLine(lines, p, blocks);
    BlocksReadBackAt(lines, p, blocks, n);
  }

  /** The emitted events are the given blocks when each end marker closes the corresponding block. */
  lemma EmittedEventsAre(lines: seq<string>, blocks: seq<seq<string>>)
    requires |EndPositions(lines, |lines|)| == |blocks|
    requires forall n :: 0 <= n < |blocks| ==>
      Accumulator(lines, EndPositions(lines, |lines|)[n] + 1) == blocks[n]
    ensures EmittedEvents(lines) == Map(blocks, JoinLines)
  {
  }

  /**
   * Splitting a document made of plain lines, well-formed blocks and a
   * final plain line emits exactly the blocks, in order, and leaves the
   * plain lines, the final one included, as the header.
   */
  lemma LaidOutDocument(lines: seq<string>, head: seq<string>, blocks: seq<seq<string>>, last: string)
    requires lines == head + Concat(blocks) + [last]
    requires forall k :: 0 <= k < |head| ==> !IsMarker(head[k])
    requires forall n :: 0 <= n < |blocks| ==> WellFormedBlock(blocks[n])
    requires !IsMarker(last)
    ensures HeaderLines(lines) == head + [last]
    ensures EmittedEvents(lines) == Map(blocks, JoinLines)
  {
    LaidOutHead(lines, head, blocks, last);
    BlocksThenPlainLine(lines, |head|, blocks);
    BlocksThenPlainLineEvents(lines, |head|, blocks);
  }
}
