/** What a copy command places on the clipboard for a selection: the
    normalised selection wrapped by the formatter, annotated with the
    selection's top line. Both command handlers are proved to compute it. */
module SelectionCopy {
  import opened Wrappers
  import opened Strings
  import opened Normalizer
  import opened SourceFormatter

  /** The lines joined onto the clipboard for the selected lines of the
      document fullName between topLine and bottomLine; None when the
      command returns without touching the clipboard. */
  function CopiedBlock(lines: seq<string>, fullName: string, topLine: int, bottomLine: int): (r: Option<seq<string>>)
    ensures r.None? <==> topLine > bottomLine || AllBlank(lines)
    ensures r.Some? ==>
              && |r.value| == |TrimBlankLines(lines).value| + 3
              && r.value[0] == GetLanguageHeader(fullName)
              && r.value[1] == GetPathComment(fullName, topLine)
              && r.value[2..|r.value| - 1] == Normalize(lines).value
              && r.value[|r.value| - 1] == SourceFormatStr
  {
    if topLine > bottomLine then None
    else
      match Normalize(lines)
      case None => None
      case Some(body) => Some(WrapSource(body, fullName, topLine))
  }

  /** Blank lines at the top of the selection are dropped but the comment
      line still names the selection's top line: the copied block is the
      same as for the selection without them. */
  lemma LeadingBlankLinesKeepTopLine(blanks: seq<string>, lines: seq<string>, fullName: string, topLine: int, bottomLine: int)
    requires AllBlank(blanks)
    ensures CopiedBlock(blanks + lines, fullName, topLine, bottomLine) == CopiedBlock(lines, fullName, topLine, bottomLine)
  {
    TrimBlankLinesSkipsLeadingBlanks(blanks, lines);
  }

  // ---------------------------------------------------------------------
  // A worked selection
  // ---------------------------------------------------------------------

  /** A line without trailing whitespace is its own right-trim. */
  lemma TrimEndOfTrimmed(s: string)
    requires s != [] && !IsWhiteSpace(s[|s| - 1])
    ensures TrimEnd(s) == s
  {
  }

  /** A whitespace indentation followed by a text that starts and ends with
      non-whitespace converts to the expanded indentation and the text. */
  lemma ConvertTabsOfIndented(e: string, u: string)
    requires IsBlank(e)
    requires u != [] && !IsWhiteSpace(u[0]) && !IsWhiteSpace(u[|u| - 1])
    ensures ConvertTabs(e + u) == ExpandTabs(e) + u
  {
    var s := e + u;
    assert s[|s| - 1] == u[|u| - 1];
    TrimEndOfTrimmed(s);
    assert s[|e|] == u[0];
    CountWhitespaceCharsAt(s, |e|);
    assert s[..|e|] == e;
    assert s[|e|..] == u;
  }

  lemma ExpandOneTab()
    ensures ExpandTabs("\t") == "    "
  {
    assert "\t"[..0] == "";
  }

  lemma ExpandTwoTabs()
    ensures ExpandTabs("\t\t") == "        "
  {
    assert "\t\t"[..1] == "\t";
    ExpandOneTab();
  }

  lemma ExpandSpaceTab()
    ensures ExpandTabs(" \t") == "     "
  {
    assert " \t"[..1] == " ";
    assert " "[..0] == "";
  }

  /** A tab that follows a leading space is expanded too. */
  lemma ExampleTabAfterSpace()
    ensures ConvertTabs(" \tx") == "     x"
  {
    assert " \t" + "x" == " \tx";
    ConvertTabsOfIndented(" \t", "x");
    ExpandSpaceTab();
  }

  /** A line of code: it starts and ends with a non-whitespace character. */
  predicate IsText(u: string) {
    u != [] && !IsWhiteSpace(u[0]) && !IsWhiteSpace(u[|u| - 1])
  }

  lemma IndentedTextIsNotBlank(e: string, u: string)
    requires IsText(u)
    ensures !IsBlank(e + u)
  {
    assert (e + u)[|e|] == u[0];
  }

  lemma TrimTrailingEmptyLine(l1: string, l2: string, l3: string)
    requires !IsBlank(l1) && !IsBlank(l3)
    ensures TrimBlankLines([l1, l2, l3, ""]) == Some([l1, l2, l3])
  {
    assert [] + [l1, l2, l3] + [""] == [l1, l2, l3, ""];
    TrimBlankLinesUnique([], [l1, l2, l3], [""]);
  }

  lemma MapLinesOfThree(l1: string, l2: string, l3: string, f: string -> string)
    ensures MapLines([l1, l2, l3], f) == [f(l1), f(l2), f(l3)]
  {
  }

  lemma ConvertAllOfThree(l1: string, l2: string, l3: string)
    ensures ConvertAll([l1, l2, l3]) == [ConvertTabs(l1), ConvertTabs(l2), ConvertTabs(l3)]
  {
    MapLinesOfThree(l1, l2, l3, ConvertTabs);
  }

  lemma ConvertOneTabIndent(a: string)
    requires IsText(a)
    ensures ConvertTabs("\t" + a) == "    " + a
  {
    ConvertTabsOfIndented("\t", a);
    ExpandOneTab();
  }

  lemma ConvertTwoTabIndent(b: string)
    requires IsText(b)
    ensures ConvertTabs("\t\t" + b) == "        " + b
  {
    ConvertTabsOfIndented("\t\t", b);
    ExpandTwoTabs();
  }

  lemma ConvertTabIndentedBlock(a: string, b: string, c: string)
    requires IsText(a) && IsText(b) && IsText(c)
    ensures ConvertAll(["\t" + a, "\t\t" + b, "\t" + c]) == ["    " + a, "        " + b, "    " + c]
  {
    ConvertAllOfThree("\t" + a, "\t\t" + b, "\t" + c);
    ConvertOneTabIndent(a);
    ConvertTwoTabIndent(b);
    ConvertOneTabIndent(c);
  }

  lemma MarginOfSpaceIndentedBlock(a: string, b: string, c: string)
    requires IsText(a) && IsText(b) && IsText(c)
    ensures Margin(["    " + a, "        " + b, "    " + c]) == 4
  {
    var conv := ["    " + a, "        " + b, "    " + c];
    IndentThenText("    ", a);
    IndentThenText("        ", b);
    IndentThenText("    ", c);
    IndentedTextIsNotBlank("    ", a);
    IndentedTextIsNotBlank("        ", b);
    IndentedTextIsNotBlank("    ", c);
    assert !IsBlank(conv[0]) && CountWhitespaceChars(conv[0]) == 4;
  }

  lemma StripMarginOfThree(l1: string, l2: string, l3: string)
    ensures var m := Margin([l1, l2, l3]);
            StripMargin([l1, l2, l3]) == [StripLine(l1, m), StripLine(l2, m), StripLine(l3, m)]
  {
    MapLinesOfThree(l1, l2, l3, StripBy(Margin([l1, l2, l3])));
  }

  lemma StripSpaceIndent(e: string, u: string)
    requires IsBlank(e) && |e| >= 4 && IsText(u)
    ensures StripLine(e + u, 4) == e[4..] + u
  {
    IndentedTextIsNotBlank(e, u);
    assert (e + u)[4..] == e[4..] + u;
  }

  lemma StripFourSpaces(u: string)
    requires IsText(u)
    ensures StripLine("    " + u, 4) == u
  {
    StripSpaceIndent("    ", u);
    assert "    "[4..] + u == u;
  }

  lemma StripEightSpaces(u: string)
    requires IsText(u)
    ensures StripLine("        " + u, 4) == "    " + u
  {
    StripSpaceIndent("        ", u);
    assert "        "[4..] == "    ";
  }

  lemma StripSpaceIndentedBlock(a: string, b: string, c: string)
    requires IsText(a) && IsText(b) && IsText(c)
    ensures StripMargin(["    " + a, "        " + b, "    " + c]) == [a, "    " + b, c]
  {
    MarginOfSpaceIndentedBlock(a, b, c);
    StripMarginOfThree("    " + a, "        " + b, "    " + c);
    StripFourSpaces(a);
    StripEightSpaces(b);
    StripFourSpaces(c);
  }

  /** A tab-indented block with a nested line and a trailing empty line loses
      the empty line and its common indentation; the nested line keeps the
      one extra level, as spaces. */
  lemma NormalizeTabIndentedBlock(a: string, b: string, c: string)
    requires IsText(a) && IsText(b) && IsText(c)
    ensures Normalize(["\t" + a, "\t\t" + b, "\t" + c, ""]) == Some([a, "    " + b, c])
  {
    IndentedTextIsNotBlank("\t", a);
    IndentedTextIsNotBlank("\t", c);
    TrimTrailingEmptyLine("\t" + a, "\t\t" + b, "\t" + c);
    ConvertTabIndentedBlock(a, b, c);
    StripSpaceIndentedBlock(a, b, c);
  }

  lemma ExampleTexts()
    ensures IsText("if (x) {") && IsText("y = 1;") && IsText("}")
  {
  }

  lemma ExampleLines()
    ensures ["\tif (x) {", "\t\ty = 1;", "\t}", ""] == ["\t" + "if (x) {", "\t\t" + "y = 1;", "\t" + "}", ""]
    ensures ["if (x) {", "    " + "y = 1;", "}"] == ["if (x) {", "    y = 1;", "}"]
  {
    assert "\t" + "if (x) {" == "\tif (x) {";
    assert "\t\t" + "y = 1;" == "\t\ty = 1;";
    assert "\t" + "}" == "\t}";
    assert "    " + "y = 1;" == "    y = 1;";
  }

  lemma ExampleNormalized()
    ensures Normalize(["\tif (x) {", "\t\ty = 1;", "\t}", ""]) == Some(["if (x) {", "    y = 1;", "}"])
  {
    ExampleTexts();
    ExampleLines();
    NormalizeTabIndentedBlock("if (x) {", "y = 1;", "}");
  }

  lemma CopiedBlockOfNormalized(lines: seq<string>, fullName: string, topLine: int, bottomLine: int, out: seq<string>)
    requires topLine <= bottomLine && Normalize(lines) == Some(out)
    ensures CopiedBlock(lines, fullName, topLine, bottomLine) == Some(WrapSource(out, fullName, topLine))
  {
  }

  lemma ExampleWrapped()
    ensures WrapSource(["if (x) {", "    y = 1;", "}"], "a.cs", 10)
            == ["```cs", "/* a.cs(10) */", "if (x) {", "    y = 1;", "}", "```"]
  {
    ExampleCSharp();
  }

  /** A tab-indented C# selection with a trailing empty line, copied from
      line 10 of a.cs. */
  lemma ExampleSelection()
    ensures CopiedBlock(["\tif (x) {", "\t\ty = 1;", "\t}", ""], "a.cs", 10, 13)
            == Some(["```cs", "/* a.cs(10) */", "if (x) {", "    y = 1;", "}", "```"])
  {
    ExampleNormalized();
    CopiedBlockOfNormalized(["\tif (x) {", "\t\ty = 1;", "\t}", ""], "a.cs", 10, 13, ["if (x) {", "    y = 1;", "}"]);
    ExampleWrapped();
  }

  /** A selection of blank lines copies nothing. */
  lemma ExampleBlankSelection()
    ensures CopiedBlock(["", "  ", "\t"], "a.cs", 1, 3) == None
  {
    var lines := ["", "  ", "\t"];
    assert IsBlank(lines[1]) && IsBlank(lines[2]);
  }
}
