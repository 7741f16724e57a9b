/** The "Copy Formatted Source" command handler. Its ExecuteAsync repeats
    the normalisation of the "Copy Markdown Source" handler statement for
    statement; written out here in one method, it is proved to compute the
    same SelectionCopy.CopiedBlock, so the two commands copy the same text
    for the same selection. Its private ApplyForEach and
    CountWhitespaceChars are the same as the other handler's and are shared. */
module CopyFormattedSourceCommand {
  import opened Wrappers
  import opened Strings
  import opened Normalizer
  import opened SourceFormatter
  import opened SelectionCopy
  import CopyMarkdownSource

  /** One run of the command on the selected lines of the document fullName,
      from topLine to bottomLine: the lines it joins onto the clipboard, or
      None when it returns early. */
  method ExecuteAsync(lines: seq<string>, fullName: string, topLine: int, bottomLine: int) returns (clipboard: Option<seq<string>>)
    ensures clipboard == CopiedBlock(lines, fullName, topLine, bottomLine)
  {
    if topLine > bottomLine {
      return None;
    }
    var lineOffset := 0;

    var firstNonEmptyLine := FindIndexNonBlank(lines);
    var lastNonEmptyLine := FindLastIndexNonBlank(lines);
    if |lines| <= 0 || firstNonEmptyLine < 0 || lastNonEmptyLine < 0 {
      return None;
    }

    /* the trimmed selection, last line included */
    var selected := lines[firstNonEmptyLine..lastNonEmptyLine + 1];

    /* tabs to spaces */
    var converted := CopyMarkdownSource.ApplyForEach(selected, ConvertTabs);

    /* the minimum whitespace to remove */
    var minWhitespaceOnNonEmptyLine := IntMaxValue;
    var i := 0;
    while i < |converted|
      invariant 0 <= i <= |converted|
      invariant minWhitespaceOnNonEmptyLine == Margin(converted[..i])
    {
      CopyMarkdownSource.MarginStep(converted, i);
      if !IsBlank(converted[i]) {
        minWhitespaceOnNonEmptyLine := Min(minWhitespaceOnNonEmptyLine, CountWhitespaceChars(converted[i]));
      }
      i := i + 1;
    }
    assert converted[..i] == converted;

    /* remove that many characters from every non-blank line */
    var stripped := CopyMarkdownSource.ApplyForEach(converted, StripBy(minWhitespaceOnNonEmptyLine));
    assert Normalize(lines) == Some(stripped);

    var lineNo := topLine + lineOffset;
    assert lineNo == topLine;
    clipboard := Some(WrapSource(stripped, fullName, lineNo));
    CopiedBlockOfNormalized(lines, fullName, topLine, bottomLine, stripped);
  }
}
