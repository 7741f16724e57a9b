/** The Markdown wrapping of a normalised selection: a fence line naming the
    language of the file, a comment line that locates the selection in the
    file, the selected lines and the closing fence. The language is chosen
    from the file's extension. */
module SourceFormatter {
  import opened Wrappers
  import opened Strings

  /** The source formats the extension knows. */
  datatype SourceFileType =
    | Unknown | CSharp | CPlusPlus | Python | XML | Javascript | Html | Css
    | BatchScript | ShellScript | GLSourceLang | PlainText

  /** The Markdown code fence that opens and closes the block. */
  const SourceFormatStr: string := "```"

  // ---------------------------------------------------------------------
  // Path.GetExtension
  // ---------------------------------------------------------------------

  /** The directory, alternative directory and volume separators. */
  predicate IsSeparator(c: char) {
    c == '\\' || c == '/' || c == ':'
  }

  /** Neither a dot nor a separator occurs after position j. */
  predicate PlainAfter(path: string, j: int) {
    forall k | 0 <= k < |path| && j < k :: path[k] != '.' && !IsSeparator(path[k])
  }

  /** The backwards scan of Path.GetExtension: the position of the last dot
      of the file name, or -1 when a separator or the start of the path is
      reached first. */
  function LastDot(path: string): (i: int)
    ensures -1 <= i < |path|
    ensures 0 <= i ==> path[i] == '.' && PlainAfter(path, i)
    ensures i == -1 ==> forall j | 0 <= j < |path| && path[j] == '.' :: !PlainAfter(path, j)
  {
    if |path| == 0 then -1
    else
      var c := path[|path| - 1];
      if c == '.' then |path| - 1
      else if IsSeparator(c) then -1
      else LastDot(path[..|path| - 1])
  }

  /** Path.GetExtension: the file name's suffix from its last dot, or the
      empty string when the name has no dot or ends with one. */
  function GetExtension(path: string): (e: string)
    ensures e == [] || (2 <= |e| <= |path| && e == path[|path| - |e|..] && e[0] == '.')
    ensures forall k | 1 <= k < |e| :: e[k] != '.' && !IsSeparator(e[k])
  {
    var i := LastDot(path);
    if i < 0 || i == |path| - 1 then "" else path[i..]
  }

  /** A name ending in a dot and a plain suffix has that extension. */
  lemma ExtensionOfDottedName(stem: string, x: string)
    requires x != [] && forall k | 0 <= k < |x| :: x[k] != '.' && !IsSeparator(x[k])
    ensures GetExtension(stem + "." + x) == "." + x
  {
    var path := stem + "." + x;
    assert path[|stem|] == '.';
    assert forall k | |stem| < k < |path| :: path[k] == x[k - |stem| - 1];
    var i := LastDot(path);
    assert i == |stem|;
    assert path[i..] == "." + x;
  }

  /** A path without a dot has no extension. */
  lemma ExtensionOfUndotted(path: string)
    requires forall k | 0 <= k < |path| :: path[k] != '.'
    ensures GetExtension(path) == ""
  {
  }

  /** A name that ends with a dot has no extension. */
  lemma ExtensionOfTrailingDot(stem: string)
    ensures GetExtension(stem + ".") == ""
  {
    assert (stem + ".")[|stem|] == '.';
  }

  /** A dot in a directory name is no extension of the file. */
  lemma ExtensionIsOfFileName(dir: string, sep: char, name: string)
    requires IsSeparator(sep) && forall k | 0 <= k < |name| :: name[k] != '.'
    ensures GetExtension(dir + [sep] + name) == ""
  {
    var path := dir + [sep] + name;
    assert path[|dir|] == sep;
    assert forall k | |dir| < k < |path| :: path[k] == name[k - |dir| - 1];
  }

  lemma LowerPrefix(path: string)
    requires path != []
    ensures ToLower(path)[..|path| - 1] == ToLower(path[..|path| - 1])
  {
  }

  /** The scan finds the same dot in the lower-cased path. */
  lemma {:induction false} LastDotOfLower(path: string)
    ensures LastDot(ToLower(path)) == LastDot(path)
    decreases |path|
  {
    if |path| > 0 {
      LowerPrefix(path);
      LastDotOfLower(path[..|path| - 1]);
    }
  }

  /** Lower-casing a path lower-cases its extension. */
  lemma ExtensionOfLower(path: string)
    ensures GetExtension(ToLower(path)) == ToLower(GetExtension(path))
  {
    LastDotOfLower(path);
  }

  // ---------------------------------------------------------------------
  // IdentifyByExtension
  // ---------------------------------------------------------------------

  /** The switch over the lower-cased extension. */
  function Classify(ext: string): SourceFileType {
    match ext
    case ".cs" | ".cshtml" => CSharp
    case ".c" | ".h" | ".cpp" | ".hpp" | ".ih" => CPlusPlus
    case ".glsl" => GLSourceLang
    case ".html" => Html
    case ".css" => Css
    case ".sh" => ShellScript
    case ".bat" | ".cmd" => BatchScript
    case ".py" => Python
    case ".res" | ".csv" => PlainText
    case ".js" => Javascript
    case ".xml" | ".resx" | ".config" | ".wxs" => XML
    case _ => Unknown
  }

  /** The source format named by the lower-cased extension of the path. */
  function IdentifyByExtension(path: string): (t: SourceFileType)
    ensures GetExtension(path) == "" ==> t == Unknown
  {
    Classify(ToLower(GetExtension(path)))
  }

  /** The extension table the switch implements. */
  const ExtensionTable: map<string, SourceFileType> := map[
    ".cs" := CSharp, ".cshtml" := CSharp,
    ".c" := CPlusPlus, ".h" := CPlusPlus, ".cpp" := CPlusPlus, ".hpp" := CPlusPlus, ".ih" := CPlusPlus,
    ".glsl" := GLSourceLang,
    ".html" := Html,
    ".css" := Css,
    ".sh" := ShellScript,
    ".bat" := BatchScript, ".cmd" := BatchScript,
    ".py" := Python,
    ".res" := PlainText, ".csv" := PlainText,
    ".js" := Javascript,
    ".xml" := XML, ".resx" := XML, ".config" := XML, ".wxs" := XML
  ]

  /** Classification is the table lookup of the lower-cased extension, and
      every extension outside the table is Unknown. */
  lemma IdentifyByTable(path: string)
    ensures var ext := ToLower(GetExtension(path));
            IdentifyByExtension(path) == if ext in ExtensionTable then ExtensionTable[ext] else Unknown
  {
    ClassifyByTable(ToLower(GetExtension(path)));
  }

  lemma ClassifyByTable(ext: string)
    ensures Classify(ext) == if ext in ExtensionTable then ExtensionTable[ext] else Unknown
  {
  }

  /** Only an extension outside the table classifies as Unknown. */
  lemma UnknownIsUnlisted(path: string)
    ensures IdentifyByExtension(path) == Unknown <==> ToLower(GetExtension(path)) !in ExtensionTable
  {
    IdentifyByTable(path);
  }

  /** Paths that differ only in letter case classify alike. */
  lemma IdentifyIgnoresCase(p: string, q: string)
    requires ToLower(p) == ToLower(q)
    ensures IdentifyByExtension(p) == IdentifyByExtension(q)
  {
    ExtensionOfLower(p);
    ExtensionOfLower(q);
  }

  // ---------------------------------------------------------------------
  // GetLanguageHeader
  // ---------------------------------------------------------------------

  /** The language tag written after the opening fence. */
  function HeaderTag(t: SourceFileType): string {
    match t
    case CSharp => "cs"
    case CPlusPlus => "c++"
    case Javascript => "javascript"
    case Css => "css"
    case GLSourceLang => "glsl"
    case Python => "python"
    case ShellScript => "sh"
    case XML => "xml"
    case Html => "html"
    case BatchScript => "bat"
    case PlainText | Unknown => "Plain Text"
  }

  /** The opening fence: the code fence followed by the language tag of the
      path's source format. */
  function GetLanguageHeader(path: string): (h: string)
    ensures |h| > |SourceFormatStr| && h[..|SourceFormatStr|] == SourceFormatStr
    ensures h[|SourceFormatStr|..] == HeaderTag(IdentifyByExtension(path))
  {
    SourceFormatStr + HeaderTag(IdentifyByExtension(path))
  }

  /** The header tells every source format apart except that plain text and
      unknown files share "Plain Text". */
  lemma HeaderNamesFormat(p: string, q: string)
    requires GetLanguageHeader(p) == GetLanguageHeader(q)
    ensures var s, t := IdentifyByExtension(p), IdentifyByExtension(q);
            s == t || (s in {PlainText, Unknown} && t in {PlainText, Unknown})
  {
    var s, t := IdentifyByExtension(p), IdentifyByExtension(q);
    assert HeaderTag(s) == GetLanguageHeader(p)[|SourceFormatStr|..];
    assert HeaderTag(t) == GetLanguageHeader(q)[|SourceFormatStr|..];
    HeaderTagInjective(s, t);
  }

  lemma HeaderTagInjective(s: SourceFileType, t: SourceFileType)
    requires HeaderTag(s) == HeaderTag(t)
    ensures s == t || (s in {PlainText, Unknown} && t in {PlainText, Unknown})
  {
  }

  // ---------------------------------------------------------------------
  // GetPathComment
  // ---------------------------------------------------------------------

  /** The path followed by the line number in parentheses. */
  function PathAndLine(path: string, line: int): string {
    path + "(" + IntToString(line) + ")"
  }

  /** The comment line that names the file and the line of the selection, in
      the comment syntax of the path's source format; no comment for an
      empty path. */
  function GetPathComment(path: string, line: int): (c: string)
    ensures path == "" <==> c == ""
  {
    if path == "" then ""
    else
      var pathAndLine := PathAndLine(path, line);
      match IdentifyByExtension(path)
      case CSharp | CPlusPlus | Javascript | Css | GLSourceLang => "/* " + pathAndLine + " */"
      case Python | ShellScript => "# " + pathAndLine
      case XML | Html => "<!-- " + pathAndLine + " -->"
      case BatchScript => "REM " + pathAndLine
      case PlainText | Unknown => "// " + pathAndLine
  }

  /** The text around the path and line in a comment line. */
  datatype CommentStyle = CommentStyle(opening: string, closing: string)

  /** The comment syntax of each source format. */
  function StyleOf(t: SourceFileType): CommentStyle {
    if t in {CSharp, CPlusPlus, Javascript, Css, GLSourceLang} then CommentStyle("/* ", " */")
    else if t in {Python, ShellScript} then CommentStyle("# ", "")
    else if t in {XML, Html} then CommentStyle("<!-- ", " -->")
    else if t == BatchScript then CommentStyle("REM ", "")
    else CommentStyle("// ", "")
  }

  /** A comment line is the opening of the format's style, the path, the line
      number in parentheses and the closing of the style. */
  lemma PathCommentStyle(path: string, line: int)
    requires path != ""
    ensures var style := StyleOf(IdentifyByExtension(path));
            GetPathComment(path, line) == style.opening + PathAndLine(path, line) + style.closing
  {
    var t := IdentifyByExtension(path);
    var pl := PathAndLine(path, line);
    if t in {Python, ShellScript} {
      assert "# " + pl + "" == "# " + pl;
    } else if t == BatchScript {
      assert "REM " + pl + "" == "REM " + pl;
    } else if t in {PlainText, Unknown} {
      assert "// " + pl + "" == "// " + pl;
    }
  }

  /** The position of the last occurrence of c in s, or -1. */
  function LastIndexOf(s: string, c: char): (i: int)
    ensures -1 <= i < |s|
    ensures 0 <= i ==> s[i] == c
    ensures forall k | i < k < |s| :: s[k] != c
  {
    if |s| == 0 then -1
    else if s[|s| - 1] == c then |s| - 1
    else LastIndexOf(s[..|s| - 1], c)
  }

  /** Reads the path and the line number back out of a comment line written
      in the given style. */
  function ParsePathComment(c: string, style: CommentStyle): Option<(string, int)> {
    var o, e := |style.opening|, |style.closing|;
    if |c| < o + e || c[..o] != style.opening || c[|c| - e..] != style.closing then None
    else
      var body := c[o..|c| - e];
      if |body| == 0 || body[|body| - 1] != ')' then None
      else
        var inner := body[..|body| - 1];
        var k := LastIndexOf(inner, '(');
        if k < 0 then None else Some((inner[..k], ParseInt(inner[k + 1..])))
  }

  lemma SplitAtLastParen(path: string, d: string)
    requires forall k | 0 <= k < |d| :: d[k] != '('
    ensures var inner := path + "(" + d;
            var k := LastIndexOf(inner, '(');
            k == |path| && inner[..k] == path && inner[k + 1..] == d
  {
    var inner := path + "(" + d;
    assert inner[|path|] == '(';
    assert forall k | |path| < k < |inner| :: inner[k] == d[k - |path| - 1];
  }

  lemma Unframe(o: string, body: string, e: string)
    ensures var c := o + body + e;
            |c| >= |o| + |e| && c[..|o|] == o && c[|c| - |e|..] == e && c[|o|..|c| - |e|] == body
  {
    var c := o + body + e;
    assert c[..|o|] == o;
    assert c[|c| - |e|..] == e;
    assert c[|o|..|c| - |e|] == body;
  }

  /** The comment line locates the selection: the path and the line number
      can be read back from it. */
  lemma PathCommentRoundTrip(path: string, line: int)
    requires path != ""
    ensures ParsePathComment(GetPathComment(path, line), StyleOf(IdentifyByExtension(path))) == Some((path, line))
  {
    var style := StyleOf(IdentifyByExtension(path));
    var d := IntToString(line);
    PathCommentStyle(path, line);
    var body := PathAndLine(path, line);
    Unframe(style.opening, body, style.closing);
    assert body[..|body| - 1] == path + "(" + d;
    SplitAtLastParen(path, d);
    IntToStringRoundTrip(line);
  }

  // ---------------------------------------------------------------------
  // WrapSource
  // ---------------------------------------------------------------------

  /** The header, the path comment, every selected line in order and the
      closing fence. */
  function WrapSource(selection: seq<string>, path: string, line: int): (r: seq<string>)
    ensures |r| == |selection| + 3
    ensures r[0] == GetLanguageHeader(path) && r[1] == GetPathComment(path, line)
    ensures r[2..|r| - 1] == selection
    ensures r[|r| - 1] == SourceFormatStr
  {
    [GetLanguageHeader(path), GetPathComment(path, line)] + selection + [SourceFormatStr]
  }

  // ---------------------------------------------------------------------
  // Examples
  // ---------------------------------------------------------------------

  /** The extensions of the two example file names. */
  lemma ExampleExtensions()
    ensures GetExtension("a.cs") == ".cs"
    ensures GetExtension("data.xyz") == ".xyz"
  {
    assert "a" + "." + "cs" == "a.cs";
    ExtensionOfDottedName("a", "cs");
    assert "data" + "." + "xyz" == "data.xyz";
    ExtensionOfDottedName("data", "xyz");
  }

  /** The source formats of the two example file names. */
  lemma ExampleFormats()
    ensures IdentifyByExtension("a.cs") == CSharp
    ensures IdentifyByExtension("data.xyz") == Unknown
  {
    ExampleExtensions();
    assert ToLower(".cs") == ".cs";
    assert ToLower(".xyz") == ".xyz";
  }

  /** The line numbers of the two examples, with their paths. */
  lemma ExampleLineNumbers()
    ensures PathAndLine("a.cs", 10) == "a.cs(10)"
    ensures PathAndLine("data.xyz", 1) == "data.xyz(1)"
  {
    assert IntToString(10) == "10";
    assert IntToString(1) == "1";
  }

  lemma ExampleCSharp()
    ensures GetLanguageHeader("a.cs") == "```cs"
    ensures GetPathComment("a.cs", 10) == "/* a.cs(10) */"
  {
    ExampleFormats();
    ExampleLineNumbers();
    assert GetPathComment("a.cs", 10) == "/* " + "a.cs(10)" + " */";
    assert "/* " + "a.cs(10)" + " */" == "/* a.cs(10) */";
    assert GetLanguageHeader("a.cs") == SourceFormatStr + "cs";
  }

  lemma LineCommentLiteral()
    ensures "// " + "data.xyz(1)" == "// data.xyz(1)"
  {
  }

  lemma ExampleUnknownExtension()
    ensures GetLanguageHeader("data.xyz") == "```Plain Text"
    ensures GetPathComment("data.xyz", 1) == "// data.xyz(1)"
  {
    ExampleFormats();
    ExampleLineNumbers();
    assert GetPathComment("data.xyz", 1) == "// " + "data.xyz(1)";
    LineCommentLiteral();
    assert GetLanguageHeader("data.xyz") == SourceFormatStr + "Plain Text";
  }

  lemma ExampleNoPath()
    ensures WrapSource(["x"], "", 3) == ["```Plain Text", "", "x", "```"]
  {
    assert GetLanguageHeader("") == "```Plain Text";
  }
}
