/** The Jinja filter `commit_headline`: the first line of a commit message,
    stripped of surrounding whitespace. */
module JinjaFilters {

  /** The characters Python's `strip()` removes from a unicode string
      (`isspace()`: Unicode categories Zs, Zl, Zp and the bidirectional
      classes WS, B and S, as in the Unicode 5.2 database of Python 2.7):
      space, tab through carriage return, the four information separators
      U+001C-U+001F, NEL, no-break space, the Ogham and Mongolian spaces,
      U+2000-U+200A, the line and paragraph separators, the narrow and
      medium mathematical spaces and the ideographic space. */
  predicate IsWhitespace(c: char) {
    || c == ' ' || '\t' <= c <= '\r' || '\U{001C}' <= c <= '\U{001F}'
    || c == '\U{0085}' || c == '\U{00A0}' || c == '\U{1680}' || c == '\U{180E}'
    || '\U{2000}' <= c <= '\U{200A}' || c == '\U{2028}' || c == '\U{2029}'
    || c == '\U{202F}' || c == '\U{205F}' || c == '\U{3000}'
  }

  /** Every character of `s` from index `lo` up to `hi` is whitespace. */
  predicate Blank(s: string, lo: int, hi: int)
    requires 0 <= lo <= hi <= |s|
  {
    forall k :: lo <= k < hi ==> IsWhitespace(s[k])
  }

  /** `s[i..j]` is what is left of `s` once the whitespace at both ends is
      removed: only whitespace before `i` and from `j` on, and, when the part
      is not empty, no whitespace at its first or last character. */
  predicate TrimBounds(s: string, i: int, j: int) {
    && 0 <= i <= j <= |s|
    && Blank(s, 0, i) && Blank(s, j, |s|)
    && (i < j ==> !IsWhitespace(s[i]) && !IsWhitespace(s[j - 1]))
  }

  /** `s.split('\n', 1)[0]`: the text before the first line feed, or all of
      `s` when it has none. */
  function FirstLine(s: string): (line: string)
    ensures line <= s
    ensures '\n' !in line
    ensures |line| < |s| ==> s[|line|] == '\n'
  {
    if s == [] || s[0] == '\n' then [] else [s[0]] + FirstLine(s[1..])
  }

  /** Where `strip()` starts its result: the first index at or after `i`
      that holds no whitespace, or the end of `s`. */
  function SkipLeading(s: string, i: nat): (start: nat)
    requires i <= |s|
    ensures i <= start <= |s| && Blank(s, i, start)
    ensures start < |s| ==> !IsWhitespace(s[start])
    decreases |s| - i
  {
    if i < |s| && IsWhitespace(s[i]) then SkipLeading(s, i + 1) else i
  }

  /** Where `strip()` ends its result: going back from `j`, but not past
      `lo`, the first index whose left neighbour holds no whitespace. */
  function SkipTrailing(s: string, lo: nat, j: nat): (end: nat)
    requires lo <= j <= |s|
    ensures lo <= end <= j && Blank(s, end, j)
    ensures lo < end ==> !IsWhitespace(s[end - 1])
  {
    if lo < j && IsWhitespace(s[j - 1]) then SkipTrailing(s, lo, j - 1) else j
  }

  /** The bounds of `s.strip()`: leading whitespace is skipped first, then
      trailing whitespace down to that point, as Python scans the string. */
  function StripStart(s: string): (start: nat)
    ensures start <= |s|
  {
    SkipLeading(s, 0)
  }

  function StripEnd(s: string): (end: nat)
    ensures StripStart(s) <= end <= |s|
  {
    SkipTrailing(s, StripStart(s), |s|)
  }

  /** `s.strip()` has only whitespace around it in `s` and none at either of
      its own ends. */
  lemma StripBounds(s: string)
    ensures TrimBounds(s, StripStart(s), StripEnd(s))
  {
    var i, j := StripStart(s), StripEnd(s);
    if i < j {
      assert i < |s|;
    }
  }

  /** `s.strip()`. */
  function Strip(s: string): (r: string)
    ensures r == [] || (!IsWhitespace(r[0]) && !IsWhitespace(r[|r| - 1]))
  {
    StripBounds(s);
    s[StripStart(s)..StripEnd(s)]
  }

  /** The headline of a commit message (gcg/jinja_filters.py:9-16). */
  function CommitHeadline(message: string): (headline: string)
    ensures '\n' !in headline
    ensures headline == [] || (!IsWhitespace(headline[0]) && !IsWhitespace(headline[|headline| - 1]))
  {
    var line := FirstLine(message);
    StripKeepsOut(line, '\n');
    Strip(line)
  }

  /** Stripping never brings in a character that was not there. */
  lemma StripKeepsOut(s: string, c: char)
    requires c !in s
    ensures c !in Strip(s)
  {
    var i, j := StripStart(s), StripEnd(s);
    forall k | 0 <= k < j - i ensures s[i..j][k] != c {
      assert s[i..j][k] == s[i + k];
    }
  }

  /** Two ways of trimming `s` pick out the same part. */
  lemma TrimBoundsUnique(s: string, i: int, j: int, i': int, j': int)
    requires TrimBounds(s, i, j) && TrimBounds(s, i', j')
    ensures s[i..j] == s[i'..j']
  {
    if i < j && i' < j' {
      assert i == i' && j == j';
    }
  }

  /** Any split of `s` into whitespace, a part that neither starts nor ends
      with whitespace, and whitespace picks out exactly `Strip(s)`. */
  lemma StripUnique(s: string, i: int, j: int)
    requires TrimBounds(s, i, j)
    ensures Strip(s) == s[i..j]
  {
    StripBounds(s);
    TrimBoundsUnique(s, i, j, StripStart(s), StripEnd(s));
  }

  /** The headline is what is left of the first line once whitespace is
      taken off both ends. */
  lemma HeadlineWithinFirstLine(message: string)
    ensures exists i, j :: TrimBounds(FirstLine(message), i, j) && CommitHeadline(message) == FirstLine(message)[i..j]
  {
    var line := FirstLine(message);
    StripBounds(line);
    assert TrimBounds(line, StripStart(line), StripEnd(line));
  }

  /** Nothing else fits that description: any part of the first line with
      only whitespace around it, and no whitespace at either of its ends, is
      the headline. */
  lemma HeadlineUnique(message: string, i: int, j: int)
    requires TrimBounds(FirstLine(message), i, j)
    ensures CommitHeadline(message) == FirstLine(message)[i..j]
  {
    StripUnique(FirstLine(message), i, j);
  }

  /** A text with no whitespace at either end is unchanged by `Strip`. */
  lemma StripTrimmed(s: string)
    requires s == [] || (!IsWhitespace(s[0]) && !IsWhitespace(s[|s| - 1]))
    ensures Strip(s) == s
  {
    assert TrimBounds(s, 0, |s|);
    StripUnique(s, 0, |s|);
  }

  /** `FirstLine` stops exactly at the first line feed. */
  lemma FirstLineAt(s: string, k: nat)
    requires k <= |s| && '\n' !in s[..k]
    requires k < |s| ==> s[k] == '\n'
    ensures FirstLine(s) == s[..k]
  {
  }

  /** A text without a line feed is its own first line. */
  lemma {:induction false} FirstLineWhole(s: string)
    requires '\n' !in s
    ensures FirstLine(s) == s
  {
    if s != [] {
      FirstLineWhole(s[1..]);
    }
  }

  /** A message without a line feed has the whole message, stripped, as its
      headline; the empty message has the empty headline. */
  lemma SingleLineHeadline(message: string)
    requires '\n' !in message
    ensures CommitHeadline(message) == Strip(message)
    ensures message == [] ==> CommitHeadline(message) == []
  {
    FirstLineWhole(message);
  }

  /** A headline is its own headline. */
  lemma HeadlineIdempotent(message: string)
    ensures CommitHeadline(CommitHeadline(message)) == CommitHeadline(message)
  {
    var h := CommitHeadline(message);
    SingleLineHeadline(h);
    StripTrimmed(h);
  }

  /** The example of tests/test_output_templates.py: a multi-line message
      whose first line is "This is a   " has the headline "This is a". */
  lemma HeadlineExample()
    ensures CommitHeadline("This is a   " + "\n" + "    multi-line message with spaces at the   end   "
                           + "\n" + "    of some lines      " + "\n" + "    ")
            == "This is a"
  {
    ExampleFirstLine();
    ExampleStrip();
  }

  lemma ExampleFirstLine()
    ensures FirstLine("This is a   " + "\n" + "    multi-line message with spaces at the   end   "
                      + "\n" + "    of some lines      " + "\n" + "    ")
            == "This is a   "
  {
    var m := "This is a   " + "\n" + "    multi-line message with spaces at the   end   "
             + "\n" + "    of some lines      " + "\n" + "    ";
    assert m[..12] == "This is a   " && m[12] == '\n';
    FirstLineAt(m, 12);
  }

  lemma ExampleStrip()
    ensures Strip("This is a   ") == "This is a"
  {
    var first := "This is a   ";
    assert first[9] == ' ' && first[10] == ' ' && first[11] == ' ';
    assert TrimBounds(first, 0, 9);
    StripUnique(first, 0, 9);
  }
}
