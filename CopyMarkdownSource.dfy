/** The "Copy Markdown Source" command handler: it normalises the selected
    lines step by step, as the handler does, and hands the result to the
    formatter. Every step is proved to compute the matching function of
    module Normalizer, so the handler computes SelectionCopy.CopiedBlock. */
module CopyMarkdownSource {
  import opened Wrappers
  import opened Strings
  import opened Normalizer
  import opened SourceFormatter
  import opened SelectionCopy

  /** A new list holding transform of every input line, in order. */
  method ApplyForEach(input: seq<string>, transform: string -> string) returns (outputList: seq<string>)
    ensures |outputList| == |input|
    ensures forall i | 0 <= i < |input| :: outputList[i] == transform(input[i])
    ensures outputList == MapLines(input, transform)
  {
    outputList := [];
    for i := 0 to |input|
      invariant |outputList| == i
      invariant forall j | 0 <= j < i :: outputList[j] == transform(input[j])
    {
      outputList := outputList + [transform(input[i])];
    }
  }

  /** What the tab-conversion loop has built after the first i characters of
      the right-trimmed line t, whose indentation is k characters long. */
  ghost function Built(t: string, k: nat, i: nat): string
    requires k <= |t| && i <= |t|
  {
    if i <= k then ExpandTabs(t[..i]) else ExpandTabs(t[..k]) + t[k..i]
  }

  lemma BuiltStep(t: string, k: nat, i: nat)
    requires k <= |t| && i < |t|
    ensures Built(t, k, i + 1) == Built(t, k, i) + (if i < k then ExpandChar(t[i]) else [t[i]])
  {
    if i < k {
      assert t[..i + 1][..i] == t[..i];
    } else if i == k {
      assert t[k..i + 1] == [t[i]];
    } else {
      assert t[k..i + 1] == t[k..i] + [t[i]];
    }
  }

  lemma BuiltAll(t: string, k: nat)
    requires k <= |t|
    ensures Built(t, k, |t|) == ExpandTabs(t[..k]) + t[k..]
  {
    assert t[..|t|] == t;
  }

  /** The tab-conversion lambda: the characters of the right-trimmed line are
      appended one by one, a tab as DefaultTabLength spaces while no
      non-whitespace character has been seen. */
  method ConvertTabsInLine(s: string) returns (r: string)
    ensures r == ConvertTabs(s)
  {
    var t := TrimEnd(s);
    ghost var k := CountWhitespaceChars(t);
    var sb := "";
    var nonWhitespaceEncountered := false;
    for i := 0 to |t|
      invariant nonWhitespaceEncountered <==> i > k
      invariant sb == Built(t, k, i)
    {
      BuiltStep(t, k, i);
      var c := t[i];
      nonWhitespaceEncountered := nonWhitespaceEncountered || !IsWhiteSpace(c);
      if !nonWhitespaceEncountered && c == '\t' {
        sb := sb + Spaces(DefaultTabLength);
      } else {
        sb := sb + [c];
      }
    }
    BuiltAll(t, k);
    r := sb;
  }

  lemma MarginStep(lines: seq<string>, i: nat)
    requires i < |lines|
    ensures Margin(lines[..i + 1]) ==
              if IsBlank(lines[i]) then Margin(lines[..i])
              else Min(Margin(lines[..i]), CountWhitespaceChars(lines[i]))
  {
    assert lines[..i + 1][..i] == lines[..i];
  }

  /** The foreach that determines the minimum whitespace to remove: it starts
      from int.MaxValue and skips the blank lines. */
  method MinWhitespaceOnNonEmptyLine(lines: seq<string>) returns (m: int)
    ensures m == Margin(lines)
  {
    m := IntMaxValue;
    for i := 0 to |lines|
      invariant m == Margin(lines[..i])
    {
      MarginStep(lines, i);
      var s := lines[i];
      if IsBlank(s) {
        continue;
      }
      m := Min(m, CountWhitespaceChars(s));
    }
    assert lines[..|lines|] == lines;
  }

  /** The handler's normalisation steps: find the first and last non-blank
      lines, return when there is none, keep the range between them, convert
      tabs, find the margin and strip it. */
  method NormalizeSelection(lines: seq<string>) returns (result: Option<seq<string>>)
    ensures result == Normalize(lines)
  {
    var firstNonEmptyLine := FindIndexNonBlank(lines);
    var lastNonEmptyLine := FindLastIndexNonBlank(lines);
    if |lines| <= 0 || firstNonEmptyLine < 0 || lastNonEmptyLine < 0 {
      return None;
    }
    var block := lines[firstNonEmptyLine..lastNonEmptyLine + 1];
    var converted := ApplyForEach(block, ConvertTabs);
    var minWhitespace := MinWhitespaceOnNonEmptyLine(converted);
    var stripped := ApplyForEach(converted, StripBy(minWhitespace));
    result := Some(stripped);
  }

  /** One run of the command on the selected lines of the document fullName,
      from topLine to bottomLine: the lines it joins onto the clipboard, or
      None when it returns early. */
  method ExecuteAsync(lines: seq<string>, fullName: string, topLine: int, bottomLine: int) returns (clipboard: Option<seq<string>>)
    ensures clipboard == CopiedBlock(lines, fullName, topLine, bottomLine)
  {
    if topLine > bottomLine {
      return None;
    }
    var lineOffset := 0;
    var normalized := NormalizeSelection(lines);
    if normalized.None? {
      return None;
    }
    var lineNo := topLine + lineOffset;
    assert lineNo == topLine;
    clipboard := Some(WrapSource(normalized.value, fullName, lineNo));
    CopiedBlockOfNormalized(lines, fullName, topLine, bottomLine, normalized.value);
  }
}
