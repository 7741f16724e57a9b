# Copy formatted source — a verified model of the copy commands

The Visual Studio extension has two editor commands, "Copy Markdown Source"
and "Copy Formatted Source". Both take the lines selected in the active
document and normalise them. Normalising means four steps:

- drop the blank lines above and below the selection;
- right-trim every line and turn the tabs in its indentation into
  `DefaultTabLength` (4) spaces;
- find the smallest indentation of a non-blank line;
- remove that many characters from every non-blank line that is longer.

The command then wraps the result as a Markdown code block and puts it on
the clipboard. The block has four parts:

- a fence line: three backticks followed by the language tag chosen from
  the file's extension;
- a comment line in the language's comment syntax, naming the file path
  and the selection's top line;
- the normalised lines;
- the closing fence.

The project has one module per part of the program:

- **`Strings`**: the .NET string operations the commands rely on.
  - `char.IsWhiteSpace`, with its exact code-point set.
  - `string.IsNullOrWhiteSpace`.
  - `TrimStart` and `TrimEnd`.
  - `ToLower`.
  - The decimal rendering of an `int`.
- **`Normalizer`**: each normalisation step as a function, with its
  properties. The main ones are:
  - the retained block is exactly the range between the outer non-blank
    lines;
  - tab conversion expands the indentation, keeps the text and is a fixed
    point on converted lines;
  - the margin is the least indentation, all of it is whitespace, and
    relative indentation is kept;
  - normalising twice is normalising once.
- **`SourceFormatter`**: the `SourceFileType` enumeration and the code
  fence. It also models `Path.GetExtension`, the extension switch, the
  language header, the path comment and `WrapSource`. The comment line is
  proved to locate the selection: the path and the line number parse back
  out of it.
- **`SelectionCopy`**: `CopiedBlock`, the lines a copy command joins onto
  the clipboard, or `None` when the command returns early. It comes with
  worked examples over concrete selections.
- **`CopyMarkdownSource`**: the "Copy Markdown Source" handler in its
  imperative form.
  - `ApplyForEach` as a loop that builds a new list.
  - The tab-conversion lambda as a character loop with the
    `nonWhitespaceEncountered` flag.
  - The `int.MaxValue`-seeded minimum loop that skips blank lines.
  - `ExecuteAsync`. Each is proved to compute its `Normalizer` or
    `SelectionCopy` counterpart.
- **`CopyFormattedSourceCommand`**: the second handler's `ExecuteAsync`,
  which repeats the same pipeline inline. It is proved to compute the same
  `CopiedBlock`, so both commands copy the same text for the same
  selection.

Some facts about the code that the model keeps:

- **Tab conversion.** The loop's flag only turns on at the first
  non-whitespace character. So every tab of the indentation becomes four
  spaces, even one after a space: `" \tx"` becomes `"     x"`
  (`SelectionCopy.ExampleTabAfterSpace`).
- **XML and Html comments.** They are written as `<!-- path(line) -->`.
- **Output size.** A normalised selection of n lines is wrapped into
  n + 3 lines.
- **Enum name.** The GLSL member of the enumeration is `GLSourceLang`.

## Model

| member | source | states |
|---|---|---|
| Strings.TrimEnd | CopyMarkdownSource.cs:140 | the result is a prefix of the line that does not end in whitespace, and only whitespace was removed |
| Strings.TrimStart | CopyMarkdownSource.cs:182 | only leading whitespace is removed, and what is kept does not start with whitespace |
| Strings.TrimStartIsSuffix | CopyMarkdownSource.cs:182 | what TrimStart keeps is the suffix of the line of that length |
| Strings.IntToString | SourceFormatter.cs:118 | the line number renders as a minus sign exactly when it is negative, followed by a non-empty run of digits without a leading zero unless the number is 0 |
| Strings.IntToStringRoundTrip | SourceFormatter.cs:118 | the rendered line number parses back to the same number |
| Normalizer.CountWhitespaceChars | CopyMarkdownSource.cs:178-183 | the count is the length of the whitespace prefix: every character before it is whitespace and the one at it is not |
| Normalizer.CountWhitespaceCharsOfBlank | CopyMarkdownSource.cs:178-183 | a line is all indentation exactly when it is blank |
| Normalizer.FindIndexNonBlank | CopyMarkdownSource.cs:124 | the first non-blank index; -1 exactly when all lines are blank |
| Normalizer.FindLastIndexNonBlank | CopyMarkdownSource.cs:125 | the last non-blank index; -1 exactly when all lines are blank |
| Normalizer.TrimBlankLines | CopyMarkdownSource.cs:124-133 | None exactly when every line is blank (the early return); otherwise a non-empty block that starts and ends with a non-blank line |
| Normalizer.TrimBlankLinesIsRange | CopyMarkdownSource.cs:132-133 | the retained block is a contiguous range of the input with only blank lines before and after it |
| Normalizer.TrimBlankLinesUnique | CopyMarkdownSource.cs:124-133 | any block surrounded by blank lines that starts and ends non-blank is the one retained |
| Normalizer.TrimBlankLinesSkipsLeadingBlanks | CopyMarkdownSource.cs:124-133 | blank lines added above a selection do not change the retained block |
| Normalizer.ExpandTabs | CopyMarkdownSource.cs:142-146 | no tab is left, a blank indentation stays blank, and the length grows at most DefaultTabLength-fold |
| Normalizer.ExpandTabsWithoutTabs | CopyMarkdownSource.cs:142-146 | an indentation without tabs is left unchanged |
| Normalizer.ConvertTabsOfBlank | CopyMarkdownSource.cs:136-150 | a blank line converts to the empty string, and a non-blank line to a non-blank line |
| Normalizer.ConvertTabsLength | CopyMarkdownSource.cs:143-144 | a converted line is at most DefaultTabLength times as long as the input line |
| Normalizer.ConvertTabsSplit | CopyMarkdownSource.cs:136-150 | the converted indentation is the input's indentation with every tab expanded; the rest is the input from its first non-whitespace character with trailing whitespace removed; the result is converted |
| Normalizer.ConvertTabsIsConverted | CopyMarkdownSource.cs:136-150 | every converted line has no trailing whitespace and no tab in its indentation |
| Normalizer.ConvertedIsFixedPoint | CopyMarkdownSource.cs:136-150 | converting an already converted line changes nothing |
| Normalizer.Margin | CopyMarkdownSource.cs:152-160 | at most int.MaxValue; no more than the indentation of any non-blank line; equal to one of them unless there is none |
| Normalizer.MapLines | CopyMarkdownSource.cs:185-191 | one output line per input line, in order, each the transform of its input |
| Normalizer.StripLineRemovesIndent | CopyMarkdownSource.cs:163-171 | a non-blank line indented at least m is longer than m and loses exactly its first m characters, all whitespace, and stays non-blank |
| Normalizer.StripMarginRemovesMargin | CopyMarkdownSource.cs:152-171 | blank lines are untouched; every non-blank line loses exactly the margin, all whitespace, and keeps its indentation relative to the others |
| Normalizer.StripMarginKeepsConverted | CopyMarkdownSource.cs:162-171 | removing the margin keeps converted lines converted |
| Normalizer.Normalize | CopyMarkdownSource.cs:124-171 | None exactly when the selection is all blank; otherwise one line per retained line |
| Normalizer.NormalizeShape | CopyMarkdownSource.cs:124-171 | the normalised block is non-empty, starts and ends non-blank, and each line is the stripped conversion of the matching retained line |
| Normalizer.NormalizeMarginIsMaximal | CopyMarkdownSource.cs:152-171 | after normalisation some non-blank line has no indentation left |
| Normalizer.NormalizeOfNormalForm | CopyMarkdownSource.cs:124-171 | a converted block with non-blank ends and an unindented non-blank line is left unchanged |
| Normalizer.NormalizeIdempotent | CopyMarkdownSource.cs:124-171 | normalising a normalised selection changes nothing |
| SourceFormatter.LastDot | SourceFormatter.cs:61 | the position of the last dot with no dot or directory/volume separator after it; -1 when every dot is followed by one |
| SourceFormatter.GetExtension | SourceFormatter.cs:61 | empty, or a suffix of the path of at least two characters starting with its only dot and containing no separator |
| SourceFormatter.ExtensionOfDottedName | SourceFormatter.cs:61 | a name ending in a dot and a plain suffix has that extension |
| SourceFormatter.ExtensionOfUndotted | SourceFormatter.cs:61 | a path without a dot has no extension |
| SourceFormatter.ExtensionOfTrailingDot | SourceFormatter.cs:61 | a name ending with a dot has no extension |
| SourceFormatter.ExtensionIsOfFileName | SourceFormatter.cs:61 | a dot in a directory name is not the file's extension |
| SourceFormatter.ExtensionOfLower | SourceFormatter.cs:61 | the extension of the lower-cased path is the lower-cased extension |
| SourceFormatter.IdentifyByExtension | SourceFormatter.cs:59-108 | a path without an extension is Unknown |
| SourceFormatter.IdentifyByTable | SourceFormatter.cs:59-108 | classification is the lookup of the lower-cased extension in the extension table, Unknown outside it |
| SourceFormatter.ClassifyByTable | SourceFormatter.cs:61-108 | the switch agrees with the extension table on every string |
| SourceFormatter.UnknownIsUnlisted | SourceFormatter.cs:106-107 | a path classifies as Unknown exactly when its lower-cased extension is not in the table |
| SourceFormatter.IdentifyIgnoresCase | SourceFormatter.cs:61 | paths that differ only in letter case classify alike |
| SourceFormatter.GetLanguageHeader | SourceFormatter.cs:146-186 | the header is the code fence followed by the tag of the path's source format |
| SourceFormatter.HeaderNamesFormat | SourceFormatter.cs:150-186 | equal headers mean equal source formats, except that PlainText and Unknown share one |
| SourceFormatter.GetPathComment | SourceFormatter.cs:111-144 | the comment is empty exactly when the path is |
| SourceFormatter.PathCommentStyle | SourceFormatter.cs:118-143 | a comment is its format's opening, the path, the line number in parentheses and the closing |
| SourceFormatter.PathCommentRoundTrip | SourceFormatter.cs:118-143 | the path and the line number read back out of the comment line |
| SourceFormatter.WrapSource | SourceFormatter.cs:43-57 | three lines more than the selection: header, path comment, every selected line in order, closing fence |
| SourceFormatter.ExampleCSharp | SourceFormatter.cs:111-153 | a.cs at line 10 gets the header "```cs" and the comment "/* a.cs(10) */" |
| SourceFormatter.ExampleUnknownExtension | SourceFormatter.cs:139-185 | an unknown extension gets "```Plain Text" and a "//" comment |
| SourceFormatter.ExampleNoPath | SourceFormatter.cs:115-116 | an empty path still yields an empty comment line in its slot |
| SelectionCopy.CopiedBlock | CopyMarkdownSource.cs:116-175 | None exactly when the top line is below the bottom line or the selection is blank; otherwise the header, the comment with the top line, the normalised lines and the fence |
| SelectionCopy.LeadingBlankLinesKeepTopLine | CopyMarkdownSource.cs:122-174 | blank lines above the selection are dropped, yet the comment still names the selection's top line |
| SelectionCopy.ExampleTabAfterSpace | CopyMarkdownSource.cs:140-147 | a tab after a leading space is expanded |
| SelectionCopy.NormalizeTabIndentedBlock | CopyMarkdownSource.cs:124-171 | a tab-indented block with a nested line and a trailing empty line loses the empty line and one level of indentation, and the nested level becomes four spaces |
| SelectionCopy.ExampleSelection | CopyMarkdownSource.cs:116-175 | the tab-indented C# selection from line 10 of a.cs copies as the expected fenced block |
| SelectionCopy.ExampleBlankSelection | CopyMarkdownSource.cs:124-130 | a selection of blank lines copies nothing |
| CopyMarkdownSource.ApplyForEach | CopyMarkdownSource.cs:185-191 | the new list has one transformed line per input line, in order |
| CopyMarkdownSource.ConvertTabsInLine | CopyMarkdownSource.cs:136-150 | the character loop with the nonWhitespaceEncountered flag computes ConvertTabs |
| CopyMarkdownSource.MinWhitespaceOnNonEmptyLine | CopyMarkdownSource.cs:152-160 | the loop seeded with int.MaxValue that skips blank lines computes Margin |
| CopyMarkdownSource.NormalizeSelection | CopyMarkdownSource.cs:124-171 | the handler's steps compute Normalize, including the early return |
| CopyMarkdownSource.ExecuteAsync | CopyMarkdownSource.cs:116-175 | what the handler puts on the clipboard is CopiedBlock, annotated with the top line |
| CopyFormattedSourceCommand.ExecuteAsync | CopyFormattedSourceCommand.cs:100-159 | the second handler computes the same CopiedBlock, so both commands copy the same text |

## Left out

- Splitting text into lines. The document text comes from `GetLines` and
  is split by `Regex.Split` with the pattern `\r+\n+`. It splits only
  where one or more carriage returns are followed by one or more line
  feeds; a lone line feed or a lone carriage return does not split. So a
  selection from a file with LF line endings reaches the normaliser as one
  line. The model takes the selected lines already split and does not
  capture this; a regular-expression engine is outside its scope.
- Joining lines to text. `string.Join` with `Environment.NewLine` and
  `Clipboard.SetText` are I/O. The model stops at the list of lines that
  is joined.
- The editor. It takes the document path and the selection's top and
  bottom lines as parameters. Left out with it:
  - the DTE service lookup;
  - the documents, `Object()`, `Selection` and the edit point;
  - the main-thread switch and `ThrowIfNotOnUIThread`;
  - the `async` task and `Execute`;
  - `InitializeAsync`, the constructors, `Instance` and the command
    registration.
- Null values. A Dafny string is never null. So the model leaves out the
  throw when `Selection` is null and the throw from `ToLower` when
  `FullName` is null.
- The early return when there is no active document. The model always has
  a document. An empty path is modelled (an empty comment line).
- Culture-sensitive lower-casing. `Strings.ToLower` changes only the ASCII
  letters, but `ToLower()` uses the current culture. Under a Turkish
  culture `".IH".ToLower()` is `".ıh"`, so the program classifies `x.IH`
  as Unknown where the model says CPlusPlus. In other cultures `İ`
  lower-cases to `i`, so the program can match a table entry that the
  model does not.
- Path validation. `Path.GetExtension` rejects invalid path characters;
  this is not modelled. The backwards scan for the last dot that no
  separator follows is modelled.
- Normalizer.NormalizeMarginIsMaximal: requires that four times the
  length of every selected line be below `int.MaxValue`
  (`FitsAfterExpansion`). This guarantees that no expanded indentation
  reaches the `int.MaxValue` seed of the minimum loop. In the program a
  string never reaches `int.MaxValue` characters, so the seed never
  wins. The model's bound is stronger than that: it also excludes
  selections with a line longer than about 536 million characters.
- Normalizer.NormalizeIdempotent: the same `FitsAfterExpansion`
  precondition, for the same reason.
- Passing the tab lambda. `ApplyForEach` is passed the function
  `Normalizer.ConvertTabs`, because a Dafny method cannot be passed as a
  value. The `StringBuilder` loop of that lambda is the separate method
  `CopyMarkdownSource.ConvertTabsInLine`, which is proved to compute
  `ConvertTabs`.
- Duplicate helpers. "Copy Formatted Source" declares `ApplyForEach` and
  `CountWhitespaceChars` again (CopyFormattedSourceCommand.cs:162-175).
  They are the same as those of "Copy Markdown Source" and are modelled
  once.
