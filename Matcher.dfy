/**
 * `event_matches`: an event matches a keyword when one of its SUMMARY,
 * DESCRIPTION or LOCATION lines contains the keyword, ignoring case.
 *
 * The loop of the original returns at the first qualifying line; the model
 * follows it line by line (`AnyLineMatches`) and characterises it as an
 * existential over the lines (`AnyLineMatchesIff`).
 */
module Matcher {
  import opened Text
  import opened Seqs

  const Summary: string := "SUMMARY"
  const Description: string := "DESCRIPTION"
  const Location: string := "LOCATION"

  /** The line's upper-case form starts with one of the searched property names. */
  predicate IsSearchedField(line: string) {
    var u := Upper(line);
    StartsWith(u, Summary) || StartsWith(u, Description) || StartsWith(u, Location)
  }

  /** The line is searched and holds the (already lower-cased) keyword `kw`. */
  predicate LineMatches(line: string, kw: string) {
    IsSearchedField(line) && IsSubstring(kw, Lower(line))
  }

  /** The `for` loop over the lines, returning at the first line that matches. */
  function AnyLineMatches(lines: seq<string>, kw: string): bool {
    if |lines| == 0 then false
    else if IsSearchedField(lines[0]) then
      if IsSubstring(kw, Lower(lines[0])) then true else AnyLineMatches(lines[1..], kw)
    else AnyLineMatches(lines[1..], kw)
  }

  /** `event_matches(event_text, keyword)`. */
  function EventMatches(eventText: string, keyword: string): bool {
    AnyLineMatches(SplitLines(eventText), Lower(keyword))
  }

  // ---------------------------------------------------------------------------
  // What the match means
  // ---------------------------------------------------------------------------

  /** The loop returns true exactly when some line matches. */
  lemma {:induction false} AnyLineMatchesIff(lines: seq<string>, kw: string)
    ensures AnyLineMatches(lines, kw) <==> exists j :: 0 <= j < |lines| && LineMatches(lines[j], kw)
  {
    if |lines| > 0 {
      var rest := lines[1..];
      AnyLineMatchesIff(rest, kw);
      if AnyLineMatches(rest, kw) {
        var j :| 0 <= j < |rest| && LineMatches(rest[j], kw);
        assert lines[j + 1] == rest[j];
      }
      if !AnyLineMatches(lines, kw) {
        assert !LineMatches(lines[0], kw) && !AnyLineMatches(rest, kw);
        forall j | 0 < j < |lines| ensures !LineMatches(lines[j], kw) {
          assert lines[j] == rest[j - 1];
        }
      }
    }
  }

  /**
   * An event matches exactly when one of its lines is a SUMMARY, DESCRIPTION
   * or LOCATION line whose lower-case form contains the lower-cased keyword.
   */
  lemma EventMatchesIff(eventText: string, keyword: string)
    ensures EventMatches(eventText, keyword) <==>
      exists j :: 0 <= j < |SplitLines(eventText)| &&
        IsSearchedField(SplitLines(eventText)[j]) &&
        IsSubstring(Lower(keyword), Lower(SplitLines(eventText)[j]))
  {
    AnyLineMatchesIff(SplitLines(eventText), Lower(keyword));
  }

  /** A line that is not searched can be added or removed without changing the result. */
  lemma {:induction false} NonFieldLineIrrelevant(a: seq<string>, line: string, b: seq<string>, kw: string)
    requires !IsSearchedField(line)
    ensures AnyLineMatches(a + [line] + b, kw) == AnyLineMatches(a + b, kw)
    decreases |a|
  {
    if |a| == 0 {
      assert (a + [line] + b)[1..] == a + b;
    } else {
      NonFieldLineIrrelevant(a[1..], line, b, kw);
      assert (a + [line] + b)[1..] == a[1..] + [line] + b;
      assert (a + b)[1..] == a[1..] + b;
    }
  }

  /** The result depends only on the searched lines. */
  lemma OnlySearchedFieldsMatter(lines: seq<string>, kw: string)
    ensures AnyLineMatches(lines, kw) == AnyLineMatches(Filter(lines, IsSearchedField), kw)
  {
    var kept := Filter(lines, IsSearchedField);
    AnyLineMatchesIff(lines, kw);
    AnyLineMatchesIff(kept, kw);
    if AnyLineMatches(lines, kw) {
      var j :| 0 <= j < |lines| && LineMatches(lines[j], kw);
      var m :| 0 <= m < |kept| && kept[m] == lines[j];
      assert LineMatches(kept[m], kw);
    }
    if AnyLineMatches(kept, kw) {
      var m :| 0 <= m < |kept| && LineMatches(kept[m], kw);
      var j :| 0 <= j < |lines| && lines[j] == kept[m];
      assert LineMatches(lines[j], kw);
    }
  }

  // ---------------------------------------------------------------------------
  // Case
  // ---------------------------------------------------------------------------

  /** The keyword's case does not matter. */
  lemma KeywordCaseInsensitive(eventText: string, keyword: string)
    ensures EventMatches(eventText, Lower(keyword)) == EventMatches(eventText, keyword)
    ensures EventMatches(eventText, Upper(keyword)) == EventMatches(eventText, keyword)
  {
    LowerIdempotent(keyword);
    LowerOfUpper(keyword);
  }

  /** Nor does the case of a line: its field test and its match are those of its lower- or upper-case form. */
  lemma LineCaseInsensitive(line: string, kw: string)
    ensures IsSearchedField(Lower(line)) == IsSearchedField(line)
    ensures IsSearchedField(Upper(line)) == IsSearchedField(line)
    ensures LineMatches(Lower(line), kw) == LineMatches(line, kw)
    ensures LineMatches(Upper(line), kw) == LineMatches(line, kw)
  {
    UpperOfLower(line);
    UpperIdempotent(line);
    LowerIdempotent(line);
    LowerOfUpper(line);
  }

  /** The empty keyword matches exactly the events with at least one searched line. */
  lemma EmptyKeywordMatches(eventText: string)
    ensures EventMatches(eventText, "") <==>
      exists j :: 0 <= j < |SplitLines(eventText)| && IsSearchedField(SplitLines(eventText)[j])
  {
    var lines := SplitLines(eventText);
    assert Lower("") == "";
    AnyLineMatchesIff(lines, "");
    forall j | 0 <= j < |lines| ensures LineMatches(lines[j], "") == IsSearchedField(lines[j]) {
      EmptyIsSubstring(Lower(lines[j]));
    }
  }

  /**
   * For an event emitted as lines joined by line feeds, the match is decided
   * by those very lines, provided the last one is not empty (an end marker
   * never is).
   */
  lemma JoinedEventMatches(block: seq<string>, keyword: string)
    requires NoNewlines(block)
    requires |block| > 0 && block[|block| - 1] != ""
    ensures EventMatches(JoinLines(block), keyword) <==>
      exists j :: 0 <= j < |block| && LineMatches(block[j], Lower(keyword))
  {
    SplitLinesJoin(block);
    AnyLineMatchesIff(block, Lower(keyword));
  }
}
