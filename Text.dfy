/**
 * The string operations the splitter relies on, restricted to what the
 * program needs: ASCII case mapping, whitespace stripping, prefix and
 * substring tests, and splitting and joining on the line feed character.
 */
module Text {

  // ---------------------------------------------------------------------------
  // ASCII case mapping (`str.lower` / `str.upper` restricted to ASCII letters)
  // ---------------------------------------------------------------------------

  function LowerChar(c: char): char {
    if 'A' <= c <= 'Z' then (c as int + 32) as char else c
  }

  function UpperChar(c: char): char {
    if 'a' <= c <= 'z' then (c as int - 32) as char else c
  }

  function Lower(s: string): (r: string)
    ensures |r| == |s|
  {
    seq(|s|, i requires 0 <= i < |s| => LowerChar(s[i]))
  }

  function Upper(s: string): (r: string)
    ensures |r| == |s|
  {
    seq(|s|, i requires 0 <= i < |s| => UpperChar(s[i]))
  }

  lemma LowerIdempotent(s: string)
    ensures Lower(Lower(s)) == Lower(s)
  {
    assert forall i :: 0 <= i < |s| ==> Lower(Lower(s))[i] == Lower(s)[i];
  }

  lemma LowerOfUpper(s: string)
    ensures Lower(Upper(s)) == Lower(s)
  {
    assert forall i :: 0 <= i < |s| ==> Lower(Upper(s))[i] == Lower(s)[i];
  }

  lemma UpperOfLower(s: string)
    ensures Upper(Lower(s)) == Upper(s)
  {
    assert forall i :: 0 <= i < |s| ==> Upper(Lower(s))[i] == Upper(s)[i];
  }

  lemma UpperIdempotent(s: string)
    ensures Upper(Upper(s)) == Upper(s)
  {
    assert forall i :: 0 <= i < |s| ==> Upper(Upper(s))[i] == Upper(s)[i];
  }

  // ---------------------------------------------------------------------------
  // Prefix, suffix and substring tests (`startswith`, `endswith`, `in`)
  // ---------------------------------------------------------------------------

  predicate StartsWith(s: string, prefix: string) {
    |prefix| <= |s| && s[..|prefix|] == prefix
  }

  predicate EndsWith(s: string, suffix: string) {
    |suffix| <= |s| && s[|s| - |suffix|..] == suffix
  }

  /** `sub` occurs in `s` starting at offset `i`. */
  predicate OccursAt(sub: string, s: string, i: int) {
    0 <= i && i + |sub| <= |s| && s[i..i + |sub|] == sub
  }

  /** `sub in s`: `sub` occurs in `s` at some offset. */
  predicate IsSubstring(sub: string, s: string) {
    exists i :: 0 <= i <= |s| - |sub| && OccursAt(sub, s, i)
  }

  lemma EmptyIsSubstring(s: string)
    ensures IsSubstring("", s)
  {
    assert OccursAt("", s, 0);
  }

  // ---------------------------------------------------------------------------
  // Whitespace stripping (`str.strip` with no argument, ASCII whitespace)
  // ---------------------------------------------------------------------------

  /** The ASCII characters for which `str.isspace` holds. */
  predicate IsSpace(c: char) {
    c == ' ' || (0x09 <= c as int <= 0x0D) || (0x1C <= c as int <= 0x1F)
  }

  function TrimLeft(s: string): (r: string)
    ensures |r| <= |s| && r == s[|s| - |r|..]
    ensures |r| > 0 ==> !IsSpace(r[0])
    ensures forall i :: 0 <= i < |s| - |r| ==> IsSpace(s[i])
  {
    if |s| > 0 && IsSpace(s[0]) then TrimLeft(s[1..]) else s
  }

  function TrimRight(s: string): (r: string)
    ensures |r| <= |s| && r == s[..|r|]
    ensures |r| > 0 ==> !IsSpace(r[|r| - 1])
    ensures forall i :: |r| <= i < |s| ==> IsSpace(s[i])
  {
    if |s| > 0 && IsSpace(s[|s| - 1]) then TrimRight(s[..|s| - 1]) else s
  }

  /** `s.strip()`: leading and trailing whitespace removed. */
  function Strip(s: string): (r: string)
    ensures |r| == 0 || (!IsSpace(r[0]) && !IsSpace(r[|r| - 1]))
  {
    TrimRight(TrimLeft(s))
  }

  // ---------------------------------------------------------------------------
  // Lines: `"\n".join`, `str.split("\n")` and `str.splitlines` on line feeds
  // ---------------------------------------------------------------------------

  /** `"\n".join(lines)`. */
  function JoinLines(lines: seq<string>): string {
    if |lines| == 0 then ""
    else if |lines| == 1 then lines[0]
    else lines[0] + "\n" + JoinLines(lines[1..])
  }

  /** `s.split("\n")`: the pieces between line feeds, always at least one. */
  function SplitOn(s: string): (r: seq<string>)
    ensures |r| >= 1
  {
    if |s| == 0 then [""]
    else
      var rest := SplitOn(s[1..]);
      if s[0] == '\n' then [""] + rest
      else [[s[0]] + rest[0]] + rest[1..]
  }

  /**
   * `s.splitlines()` for text whose only line break is the line feed: the
   * pieces of `s.split("\n")`, without the empty piece a final line feed
   * leaves behind.
   */
  function SplitLines(s: string): (r: seq<string>)
    ensures forall k :: 0 <= k < |r| ==> '\n' !in r[k]
  {
    SplitOnNoNewlines(s);
    var pieces := SplitOn(s);
    if pieces[|pieces| - 1] == "" then pieces[..|pieces| - 1] else pieces
  }

  /** No piece of a split holds a line feed. */
  lemma {:induction false} SplitOnNoNewlines(s: string)
    ensures forall k :: 0 <= k < |SplitOn(s)| ==> '\n' !in SplitOn(s)[k]
    decreases |s|
  {
    if |s| > 0 {
      SplitOnNoNewlines(s[1..]);
    }
  }

  ghost predicate NoNewlines(lines: seq<string>) {
    forall k :: 0 <= k < |lines| ==> '\n' !in lines[k]
  }

  lemma {:induction false} SplitOnSingle(s: string)
    requires '\n' !in s
    ensures SplitOn(s) == [s]
    decreases |s|
  {
    if |s| > 0 {
      SplitOnSingle(s[1..]);
      assert [s[0]] + s[1..] == s;
    }
  }

  lemma {:induction false} SplitOnAppend(a: string, b: string)
    ensures SplitOn(a + "\n" + b) == SplitOn(a) + SplitOn(b)
    decreases |a|
  {
    var s := a + "\n" + b;
    if |a| == 0 {
      assert s[1..] == b;
    } else {
      assert s[0] == a[0];
      assert s[1..] == a[1..] + "\n" + b;
      SplitOnAppend(a[1..], b);
    }
  }

  /** Splitting joined lines gives the lines back. */
  lemma {:induction false} SplitOnJoin(lines: seq<string>)
    requires |lines| >= 1 && NoNewlines(lines)
    ensures SplitOn(JoinLines(lines)) == lines
  {
    if |lines| == 1 {
      SplitOnSingle(lines[0]);
    } else {
      SplitOnJoin(lines[1..]);
      SplitOnAppend(lines[0], JoinLines(lines[1..]));
      SplitOnSingle(lines[0]);
    }
  }

  /**
   * `"\n".join(lines).splitlines() == lines` for lines without line feeds
   * whose last line is not empty.
   */
  lemma SplitLinesJoin(lines: seq<string>)
    requires NoNewlines(lines)
    requires |lines| == 0 || lines[|lines| - 1] != ""
    ensures SplitLines(JoinLines(lines)) == lines
  {
    if |lines| > 0 {
      SplitOnJoin(lines);
    }
  }

  /** Without the last-line condition, re-splitting can only drop lines. */
  lemma SplitLinesJoinSubset(lines: seq<string>)
    requires NoNewlines(lines)
    ensures forall x :: x in SplitLines(JoinLines(lines)) ==> x in lines
  {
    if |lines| > 0 {
      SplitOnJoin(lines);
    }
  }

  lemma {:induction false} JoinAppend(a: seq<string>, b: seq<string>)
    requires |a| >= 1 && |b| >= 1
    ensures JoinLines(a + b) == JoinLines(a) + "\n" + JoinLines(b)
  {
    if |a| > 1 {
      assert (a + b)[1..] == a[1..] + b;
      JoinAppend(a[1..], b);
    } else {
      assert (a + b)[1..] == b;
    }
  }
}
