/** The selection normaliser that both copy commands run on the selected
    lines before wrapping them: drop the blank lines around the selection,
    right-trim every line and expand tabs in its indentation, then remove
    the indentation that all non-blank lines share.

    The functions here state what each step computes; the imperative steps
    of the command handlers (module CopyMarkdownSource) are proved equal
    to them. */
module Normalizer {
  import opened Wrappers
  import opened Strings

  /** The number of spaces that replace one indentation tab. */
  const DefaultTabLength: nat := 4

  /** The number of whitespace characters before the first non-whitespace
      character (all of them when the line is blank). */
  function CountWhitespaceChars(input: string): (n: nat)
    ensures n <= |input|
    ensures forall i | 0 <= i < n :: IsWhiteSpace(input[i])
    ensures n < |input| ==> !IsWhiteSpace(input[n])
  {
    if |input| == 0 then 0 else |input| - |TrimStart(input)|
  }

  /** All of a line is indentation exactly when the line is blank. */
  lemma CountWhitespaceCharsOfBlank(input: string)
    ensures IsBlank(input) <==> CountWhitespaceChars(input) == |input|
  {
  }

  predicate AllBlank(lines: seq<string>) {
    forall i | 0 <= i < |lines| :: IsBlank(lines[i])
  }

  // ---------------------------------------------------------------------
  // Step 1: trim the blank lines around the selection
  // ---------------------------------------------------------------------

  /** List.FindIndex with the predicate "not IsNullOrWhiteSpace": the first
      non-blank index, or -1. */
  function FindIndexNonBlank(lines: seq<string>): (i: int)
    ensures -1 <= i < |lines|
    ensures i == -1 <==> AllBlank(lines)
    ensures 0 <= i ==> !IsBlank(lines[i])
    ensures forall j | 0 <= j < i :: IsBlank(lines[j])
  {
    if |lines| == 0 then -1
    else if !IsBlank(lines[0]) then 0
    else
      var k := FindIndexNonBlank(lines[1..]);
      if k < 0 then -1 else k + 1
  }

  /** List.FindLastIndex with the same predicate: the last non-blank index,
      or -1. */
  function FindLastIndexNonBlank(lines: seq<string>): (i: int)
    ensures -1 <= i < |lines|
    ensures i == -1 <==> AllBlank(lines)
    ensures 0 <= i ==> !IsBlank(lines[i])
    ensures forall j | i < j < |lines| :: IsBlank(lines[j])
  {
    if |lines| == 0 then -1
    else if !IsBlank(lines[|lines| - 1]) then |lines| - 1
    else FindLastIndexNonBlank(lines[..|lines| - 1])
  }

  /** The inclusive range from the first to the last non-blank line, or
      None when there is no non-blank line (the command then returns). */
  function TrimBlankLines(lines: seq<string>): (r: Option<seq<string>>)
    ensures r.None? <==> AllBlank(lines)
    ensures r.Some? ==> |r.value| > 0 && !IsBlank(r.value[0]) && !IsBlank(r.value[|r.value| - 1])
  {
    var first := FindIndexNonBlank(lines);
    var last := FindLastIndexNonBlank(lines);
    if |lines| <= 0 || first < 0 || last < 0 then None
    else Some(lines[first..last + 1])
  }

  /** The retained block sits in the input with only blank lines before and
      after it. */
  lemma TrimBlankLinesIsRange(lines: seq<string>)
    requires !AllBlank(lines)
    ensures var v := TrimBlankLines(lines).value;
            var a := FindIndexNonBlank(lines);
            && 0 <= a && a + |v| <= |lines|
            && lines == lines[..a] + v + lines[a + |v|..]
            && AllBlank(lines[..a]) && AllBlank(lines[a + |v|..])
  {
    var a := FindIndexNonBlank(lines);
    var b := FindLastIndexNonBlank(lines);
    assert a <= b;
    var v := lines[a..b + 1];
    assert TrimBlankLines(lines).value == v;
    assert lines == lines[..a] + v + lines[b + 1..];
    var pre := lines[..a];
    var post := lines[b + 1..];
    forall j | 0 <= j < |pre| ensures IsBlank(pre[j]) {
      assert pre[j] == lines[j];
    }
    forall j | 0 <= j < |post| ensures IsBlank(post[j]) {
      assert post[j] == lines[b + 1 + j];
    }
  }

  /** Conversely, whatever block is surrounded by blank lines only and starts
      and ends with a non-blank line is the one retained. */
  lemma TrimBlankLinesUnique(pre: seq<string>, mid: seq<string>, post: seq<string>)
    requires AllBlank(pre) && AllBlank(post)
    requires |mid| > 0 && !IsBlank(mid[0]) && !IsBlank(mid[|mid| - 1])
    ensures TrimBlankLines(pre + mid + post) == Some(mid)
  {
    var lines := pre + mid + post;
    assert lines[|pre|] == mid[0];
    assert lines[|pre| + |mid| - 1] == mid[|mid| - 1];
    assert forall j | 0 <= j < |pre| :: lines[j] == pre[j];
    assert forall j | |pre| + |mid| <= j < |lines| :: lines[j] == post[j - |pre| - |mid|];
    assert lines[|pre|..|pre| + |mid|] == mid;
  }

  lemma AllBlankAppend(a: seq<string>, b: seq<string>)
    requires AllBlank(a) && AllBlank(b)
    ensures AllBlank(a + b)
  {
    forall j | 0 <= j < |a + b| ensures IsBlank((a + b)[j]) {
      if j >= |a| {
        assert (a + b)[j] == b[j - |a|];
      }
    }
  }

  lemma AppendRegroup(a: seq<string>, b: seq<string>, c: seq<string>, d: seq<string>)
    ensures a + (b + c + d) == (a + b) + c + d
  {
  }

  /** Blank lines in front of the selection do not change the retained block. */
  lemma TrimBlankLinesSkipsLeadingBlanks(blanks: seq<string>, lines: seq<string>)
    requires AllBlank(blanks)
    ensures TrimBlankLines(blanks + lines) == TrimBlankLines(lines)
  {
    if AllBlank(lines) {
      AllBlankAppend(blanks, lines);
    } else {
      TrimBlankLinesIsRange(lines);
      var v := TrimBlankLines(lines).value;
      var a := FindIndexNonBlank(lines);
      var pre := lines[..a];
      var post := lines[a + |v|..];
      AppendRegroup(blanks, pre, v, post);
      AllBlankAppend(blanks, pre);
      TrimBlankLinesUnique(blanks + pre, v, post);
    }
  }

  // ---------------------------------------------------------------------
  // Step 2: right-trim every line and expand tabs in its indentation
  // ---------------------------------------------------------------------

  function Spaces(n: nat): (r: string)
    ensures |r| == n && IsBlank(r)
  {
    seq(n, _ => ' ')
  }

  /** One indentation character: a tab becomes DefaultTabLength spaces,
      every other character stays. */
  function ExpandChar(c: char): string {
    if c == '\t' then Spaces(DefaultTabLength) else [c]
  }

  /** Every character of an indentation, expanded. */
  function ExpandTabs(p: string): (r: string)
    ensures forall j | 0 <= j < |r| :: r[j] != '\t'
    ensures IsBlank(p) ==> IsBlank(r)
    ensures |p| <= |r| <= DefaultTabLength * |p|
  {
    if |p| == 0 then []
    else
      var r := ExpandTabs(p[..|p| - 1]);
      assert IsBlank(p) ==> IsBlank(p[..|p| - 1]);
      r + ExpandChar(p[|p| - 1])
  }

  lemma {:induction false} ExpandTabsWithoutTabs(p: string)
    requires forall j | 0 <= j < |p| :: p[j] != '\t'
    ensures ExpandTabs(p) == p
  {
    if |p| > 0 {
      ExpandTabsWithoutTabs(p[..|p| - 1]);
      assert p == p[..|p| - 1] + [p[|p| - 1]];
    }
  }

  /** What the tab-conversion lambda makes of one line: it right-trims the
      line, expands every character before the first non-whitespace one
      (so a tab after leading spaces is expanded too) and copies the rest. */
  function ConvertTabs(s: string): string {
    var t := TrimEnd(s);
    var k := CountWhitespaceChars(t);
    ExpandTabs(t[..k]) + t[k..]
  }

  /** A line that the tab conversion leaves alone: it has no trailing
      whitespace and no tab in its indentation. */
  predicate IsConverted(s: string) {
    && (s == [] || !IsWhiteSpace(s[|s| - 1]))
    && forall j | 0 <= j < CountWhitespaceChars(s) :: s[j] != '\t'
  }

  /** CountWhitespaceChars is fixed by where the first non-whitespace
      character stands. */
  lemma CountWhitespaceCharsAt(s: string, n: nat)
    requires n <= |s|
    requires forall i | 0 <= i < n :: IsWhiteSpace(s[i])
    requires n < |s| ==> !IsWhiteSpace(s[n])
    ensures CountWhitespaceChars(s) == n
  {
  }

  /** The right-trimmed line has the same indentation as the line. */
  lemma TrimEndKeepsIndent(s: string)
    requires !IsBlank(s)
    ensures var t := TrimEnd(s);
            var k := CountWhitespaceChars(t);
            k < |t| && k == CountWhitespaceChars(s) && t[..k] == s[..k]
  {
    var t := TrimEnd(s);
    var k := CountWhitespaceChars(t);
    assert k < |t|;
    assert forall i | 0 <= i < k :: s[i] == t[i];
    assert s[k] == t[k];
    CountWhitespaceCharsAt(s, k);
    assert forall i | 0 <= i < k :: t[..k][i] == s[..k][i];
  }

  /** A line without trailing whitespace splits into its indentation and a
      text that starts and ends with non-whitespace characters. */
  lemma IndentAndText(t: string)
    requires t != [] && !IsWhiteSpace(t[|t| - 1])
    ensures var k := CountWhitespaceChars(t);
            && k < |t| && IsBlank(t[..k])
            && !IsWhiteSpace(t[k..][0]) && !IsWhiteSpace(t[k..][|t| - k - 1])
  {
    var k := CountWhitespaceChars(t);
    assert forall i | 0 <= i < k :: t[..k][i] == t[i];
  }

  lemma ExpandTabsOfIndent(p: string)
    requires IsBlank(p)
    ensures IsBlank(ExpandTabs(p))
    ensures forall j | 0 <= j < |ExpandTabs(p)| :: ExpandTabs(p)[j] != '\t'
  {
  }

  /** A blank line converts to the empty string and any other line to a
      non-blank one. */
  lemma ConvertTabsOfBlank(s: string)
    ensures IsBlank(s) <==> ConvertTabs(s) == []
    ensures IsBlank(s) <==> IsBlank(ConvertTabs(s))
  {
    if !IsBlank(s) {
      var t := TrimEnd(s);
      var k := CountWhitespaceChars(t);
      TrimEndKeepsIndent(s);
      var r := ConvertTabs(s);
      assert r[|r| - 1] == t[|t| - 1];
    }
  }

  /** Tab conversion expands at most DefaultTabLength-fold. */
  lemma ConvertTabsLength(s: string)
    ensures |ConvertTabs(s)| <= DefaultTabLength * |s|
  {
    var t := TrimEnd(s);
    var k := CountWhitespaceChars(t);
    assert |ExpandTabs(t[..k])| <= DefaultTabLength * k;
  }

  /** A whitespace prefix without tabs followed by text that starts and ends
      with a non-whitespace character is a converted line whose indentation
      is exactly that prefix. */
  lemma IndentThenText(e: string, u: string)
    requires IsBlank(e) && forall j | 0 <= j < |e| :: e[j] != '\t'
    requires u != [] && !IsWhiteSpace(u[0]) && !IsWhiteSpace(u[|u| - 1])
    ensures CountWhitespaceChars(e + u) == |e|
    ensures (e + u)[..|e|] == e && (e + u)[|e|..] == u
    ensures IsConverted(e + u)
  {
    var r := e + u;
    assert r[|e|] == u[0];
    CountWhitespaceCharsAt(r, |e|);
    assert r[|r| - 1] == u[|u| - 1];
  }

  /** A converted non-blank line: its indentation is the expanded
      indentation of the input (every tab in it, even one after spaces, is
      DefaultTabLength spaces), everything from the first non-whitespace
      character on is copied unchanged up to the trailing whitespace, which
      is gone, and no tab is left in its indentation. */
  lemma ConvertTabsSplit(s: string)
    requires !IsBlank(s)
    ensures var r := ConvertTabs(s);
            var n := CountWhitespaceChars(s);
            && r[..CountWhitespaceChars(r)] == ExpandTabs(s[..n])
            && r[CountWhitespaceChars(r)..] == TrimEnd(s)[n..]
            && IsConverted(r)
  {
    var t := TrimEnd(s);
    var k := CountWhitespaceChars(t);
    TrimEndKeepsIndent(s);
    IndentAndText(t);
    ExpandTabsOfIndent(t[..k]);
    IndentThenText(ExpandTabs(t[..k]), t[k..]);
  }

  /** The tab conversion always yields a converted line: no trailing
      whitespace and no tab in its indentation. */
  lemma ConvertTabsIsConverted(s: string)
    ensures IsConverted(ConvertTabs(s))
  {
    if IsBlank(s) {
      ConvertTabsOfBlank(s);
    } else {
      ConvertTabsSplit(s);
    }
  }

  lemma ConvertedIsFixedPoint(s: string)
    requires IsConverted(s)
    ensures ConvertTabs(s) == s
  {
    var t := TrimEnd(s);
    assert t == s;
    var k := CountWhitespaceChars(s);
    ExpandTabsWithoutTabs(s[..k]);
    assert s[..k] + s[k..] == s;
  }

  /** Removing at most the indentation of a non-blank line leaves a
      non-blank line indented that much less. */
  lemma DropIndent(s: string, m: nat)
    requires !IsBlank(s) && m <= CountWhitespaceChars(s)
    ensures !IsBlank(s[m..]) && CountWhitespaceChars(s[m..]) == CountWhitespaceChars(s) - m
  {
    var k := CountWhitespaceChars(s);
    var u := s[m..];
    assert u[k - m] == s[k];
    assert forall j | 0 <= j < k - m :: u[j] == s[m + j];
    CountWhitespaceCharsAt(u, k - m);
  }

  /** Removing part of the indentation of a converted non-blank line keeps it
      converted. */
  lemma ConvertedDropIndent(s: string, m: nat)
    requires IsConverted(s) && !IsBlank(s)
    requires m <= CountWhitespaceChars(s)
    ensures IsConverted(s[m..])
  {
    var u := s[m..];
    DropIndent(s, m);
    assert forall j | 0 <= j < CountWhitespaceChars(u) :: u[j] == s[m + j];
    assert u[|u| - 1] == s[|s| - 1];
  }

  // ---------------------------------------------------------------------
  // Steps 3 and 4: find and remove the common indentation
  // ---------------------------------------------------------------------

  function Min(a: int, b: int): int {
    if a <= b then a else b
  }

  /** The foreach over the lines starting from int.MaxValue: the least
      indentation of a non-blank line, int.MaxValue when there is none. */
  function Margin(lines: seq<string>): (m: nat)
    ensures m <= IntMaxValue
    ensures forall i | 0 <= i < |lines| && !IsBlank(lines[i]) :: m <= CountWhitespaceChars(lines[i])
    ensures m == IntMaxValue || exists i | 0 <= i < |lines| :: !IsBlank(lines[i]) && CountWhitespaceChars(lines[i]) == m
  {
    if |lines| == 0 then IntMaxValue
    else
      var front := lines[..|lines| - 1];
      var m := Margin(front);
      var s := lines[|lines| - 1];
      assert forall i | 0 <= i < |front| :: front[i] == lines[i];
      if IsBlank(s) then m else Min(m, CountWhitespaceChars(s))
  }

  /** The stripping lambda: a blank line stays, a line longer than the margin
      loses its first m characters, any other line stays. */
  function StripLine(s: string, m: nat): string {
    if IsBlank(s) then s
    else if |s| > m then s[m..]
    else s
  }

  /** ApplyForEach: transform applied to every line, in order. */
  function MapLines(lines: seq<string>, transform: string -> string): (r: seq<string>)
    ensures |r| == |lines|
    ensures forall i | 0 <= i < |lines| :: r[i] == transform(lines[i])
  {
    seq(|lines|, i requires 0 <= i < |lines| => transform(lines[i]))
  }

  /** The tab conversion applied to each line of the block. */
  function ConvertAll(block: seq<string>): (r: seq<string>)
    ensures |r| == |block|
    ensures forall i | 0 <= i < |block| :: r[i] == ConvertTabs(block[i])
  {
    MapLines(block, ConvertTabs)
  }

  /** The stripping lambda for the margin m. */
  function StripBy(m: nat): string -> string {
    s => StripLine(s, m)
  }

  /** Every line stripped by the margin of the whole block. */
  function StripMargin(lines: seq<string>): (r: seq<string>)
    ensures |r| == |lines|
    ensures forall i | 0 <= i < |lines| :: r[i] == StripLine(lines[i], Margin(lines))
  {
    MapLines(lines, StripBy(Margin(lines)))
  }

  /** The whole normalisation; None means that there is nothing to copy. */
  function Normalize(lines: seq<string>): (r: Option<seq<string>>)
    ensures r.None? <==> AllBlank(lines)
    ensures r.Some? ==> |r.value| == |TrimBlankLines(lines).value|
  {
    match TrimBlankLines(lines)
    case None => None
    case Some(block) => Some(StripMargin(ConvertAll(block)))
  }

  /** A non-blank line whose indentation is at least m is longer than m and
      the stripping lambda removes exactly its first m characters, all of
      them whitespace, leaving a non-blank line indented m less. */
  lemma StripLineRemovesIndent(s: string, m: nat)
    requires !IsBlank(s) && m <= CountWhitespaceChars(s)
    ensures |s| > m && StripLine(s, m) == s[m..]
    ensures s == s[..m] + StripLine(s, m) && IsBlank(s[..m])
    ensures !IsBlank(s[m..]) && CountWhitespaceChars(s[m..]) == CountWhitespaceChars(s) - m
  {
    assert forall j | 0 <= j < m :: s[..m][j] == s[j];
    DropIndent(s, m);
  }

  /** Every non-blank line loses exactly the margin, all of it whitespace,
      and keeps its indentation relative to the others; blank lines are
      untouched. */
  lemma StripMarginRemovesMargin(lines: seq<string>)
    ensures var m := Margin(lines);
            var out := StripMargin(lines);
            forall i | 0 <= i < |lines| ::
              if IsBlank(lines[i]) then out[i] == lines[i]
              else
                && |lines[i]| > m
                && lines[i] == lines[i][..m] + out[i]
                && IsBlank(lines[i][..m])
                && !IsBlank(out[i])
                && CountWhitespaceChars(out[i]) == CountWhitespaceChars(lines[i]) - m
  {
    var m := Margin(lines);
    forall i | 0 <= i < |lines| && !IsBlank(lines[i]) {
      StripLineRemovesIndent(lines[i], m);
    }
  }

  /** Lines short enough for their expanded form to be measured by an int. */
  predicate FitsAfterExpansion(lines: seq<string>) {
    forall i | 0 <= i < |lines| :: DefaultTabLength * |lines[i]| < IntMaxValue
  }

  /** The block handed to the formatter keeps one line per retained line,
      starts and ends with a non-blank line, and maps each retained line to
      its converted and stripped form. */
  lemma NormalizeShape(lines: seq<string>)
    requires !AllBlank(lines)
    ensures var out := Normalize(lines).value;
            var block := TrimBlankLines(lines).value;
            var conv := ConvertAll(block);
            && |out| == |block| > 0
            && !IsBlank(out[0]) && !IsBlank(out[|out| - 1])
            && forall i | 0 <= i < |out| :: out[i] == StripLine(conv[i], Margin(conv))
  {
    var block := TrimBlankLines(lines).value;
    var conv := ConvertAll(block);
    ConvertTabsOfBlank(block[0]);
    ConvertTabsOfBlank(block[|block| - 1]);
    StripMarginRemovesMargin(conv);
  }

  /** After normalisation some non-blank line has no indentation left, so the
      margin removed was the largest common one. */
  lemma NormalizeMarginIsMaximal(lines: seq<string>)
    requires !AllBlank(lines) && FitsAfterExpansion(lines)
    ensures var out := Normalize(lines).value;
            exists i | 0 <= i < |out| :: !IsBlank(out[i]) && CountWhitespaceChars(out[i]) == 0
  {
    var block := TrimBlankLines(lines).value;
    TrimBlankLinesIsRange(lines);
    var a := FindIndexNonBlank(lines);
    var conv := ConvertAll(block);
    var m := Margin(conv);
    var out := Normalize(lines).value;
    ConvertTabsOfBlank(block[0]);
    ConvertTabsLength(block[0]);
    assert block[0] == lines[a];
    assert !IsBlank(conv[0]);
    assert m <= CountWhitespaceChars(conv[0]) < |conv[0]| <= DefaultTabLength * |lines[a]| < IntMaxValue;
    var i :| 0 <= i < |conv| && !IsBlank(conv[i]) && CountWhitespaceChars(conv[i]) == m;
    StripMarginRemovesMargin(conv);
    assert !IsBlank(out[i]) && CountWhitespaceChars(out[i]) == 0;
  }

  /** Lines that the tab conversion leaves alone are left alone as a block. */
  lemma ConvertAllOfConverted(lines: seq<string>)
    requires forall i | 0 <= i < |lines| :: IsConverted(lines[i])
    ensures ConvertAll(lines) == lines
  {
    forall i | 0 <= i < |lines| ensures ConvertAll(lines)[i] == lines[i] {
      ConvertedIsFixedPoint(lines[i]);
    }
  }

  /** Every line of a converted block is converted. */
  lemma ConvertAllIsConverted(block: seq<string>)
    ensures forall i | 0 <= i < |block| :: IsConverted(ConvertAll(block)[i])
  {
    forall i | 0 <= i < |block| ensures IsConverted(ConvertAll(block)[i]) {
      ConvertTabsIsConverted(block[i]);
    }
  }

  /** Stripping a margin keeps converted lines converted. */
  lemma StripMarginKeepsConverted(conv: seq<string>)
    requires forall i | 0 <= i < |conv| :: IsConverted(conv[i])
    ensures forall i | 0 <= i < |conv| :: IsConverted(StripMargin(conv)[i])
  {
    var m := Margin(conv);
    forall i | 0 <= i < |conv| ensures IsConverted(StripMargin(conv)[i]) {
      if !IsBlank(conv[i]) {
        StripLineRemovesIndent(conv[i], m);
        ConvertedDropIndent(conv[i], m);
      }
    }
  }

  /** A block with an unindented non-blank line has margin 0 and stripping
      leaves it alone. */
  lemma StripMarginOfUnindented(lines: seq<string>, j: int)
    requires 0 <= j < |lines| && !IsBlank(lines[j]) && CountWhitespaceChars(lines[j]) == 0
    ensures StripMargin(lines) == lines
  {
    assert Margin(lines) == 0;
  }

  /** A block that starts and ends with a non-blank line, whose lines are
      converted and one of whose non-blank lines is unindented, is its own
      normal form. */
  lemma NormalizeOfNormalForm(out: seq<string>, j: int)
    requires |out| > 0 && !IsBlank(out[0]) && !IsBlank(out[|out| - 1])
    requires forall i | 0 <= i < |out| :: IsConverted(out[i])
    requires 0 <= j < |out| && !IsBlank(out[j]) && CountWhitespaceChars(out[j]) == 0
    ensures Normalize(out) == Some(out)
  {
    assert [] + out + [] == out;
    TrimBlankLinesUnique([], out, []);
    ConvertAllOfConverted(out);
    StripMarginOfUnindented(out, j);
  }

  /** Normalising a normalised block changes nothing. */
  lemma NormalizeIdempotent(lines: seq<string>)
    requires !AllBlank(lines) && FitsAfterExpansion(lines)
    ensures Normalize(Normalize(lines).value) == Normalize(lines)
  {
    var block := TrimBlankLines(lines).value;
    var conv := ConvertAll(block);
    var out := Normalize(lines).value;
    NormalizeShape(lines);
    ConvertAllIsConverted(block);
    StripMarginKeepsConverted(conv);
    NormalizeMarginIsMaximal(lines);
    var j :| 0 <= j < |out| && !IsBlank(out[j]) && CountWhitespaceChars(out[j]) == 0;
    NormalizeOfNormalForm(out, j);
  }
}
