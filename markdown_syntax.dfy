/**
 * The fixed Markdown fragments the renderer prints for single events: formatting
 * markers, special symbols, heading prefixes and underlines, list, definition and
 * quotation prefixes, links, images and the three forms of the code macro.
 */
module MarkdownSyntax {
  import opened JavaText

  /** The inline formats of the event model. */
  datatype Format = Bold | Italic | Strikedout | Underlined | Superscript | Subscript | Monospace | NoFormat

  /** The two kinds of list. */
  datatype ListType = Bulleted | Numbered

  /** The marker beginFormat prints; nothing for NONE. */
  function FormatOpen(f: Format): (r: string)
    ensures r == "" <==> f == NoFormat
  {
    match f
    case Bold => "**"
    case Italic => "_"
    case Strikedout => "~~"
    case Underlined => "__"
    case Superscript => "<sup>"
    case Subscript => "<sub>"
    case Monospace => "`"
    case NoFormat => ""
  }

  /** The marker endFormat prints: the opening marker again, or the closing tag of an
      HTML opening tag. */
  function FormatClose(f: Format): (r: string)
    ensures r == FormatOpen(f) || (|FormatOpen(f)| > 1 && FormatOpen(f)[0] == '<' && r == "</" + FormatOpen(f)[1..])
    ensures r == "" <==> f == NoFormat
  {
    match f
    case Bold => "**"
    case Italic => "_"
    case Strikedout => "~~"
    case Underlined => "__"
    case Superscript => "</sup>"
    case Subscript => "</sub>"
    case Monospace => "`"
    case NoFormat => ""
  }

  /** The five typographic symbols that get an ASCII spelling. */
  predicate IsTypographic(c: char)
  {
    c == '\U{201C}' || c == '\U{201D}' || c == '\U{2014}' || c == '\U{2026}' || c == '\U{2013}'
  }

  /** onSpecialSymbol: curly quotes become << and >>, em dash ---, ellipsis ..., en dash --;
      every other symbol is printed as itself. */
  function SpecialSymbolText(c: char): (r: string)
    ensures !IsTypographic(c) <==> r == [c]
    ensures IsTypographic(c) ==> 2 <= |r| <= 3 && forall i :: 0 <= i < |r| ==> r[i] < '\U{0080}'
  {
    if c == '\U{201C}' then "<<"
    else if c == '\U{201D}' then ">>"
    else if c == '\U{2014}' then "---"
    else if c == '\U{2026}' then "..."
    else if c == '\U{2013}' then "--"
    else [c]
  }

  /** What beginHeader prints after the separator: `=` repeated `level` times and a space,
      for levels above 2 only. */
  function HeaderOpen(level: int): string
  {
    if level > 2 then Repeat("=", level) + " " else ""
  }

  /** What endHeader prints once the heading text is known. */
  function HeaderClose(level: int, heading: string): string
  {
    if level == 1 then heading + "\n" + Repeat("=", |heading|)
    else if level == 2 then heading + "\n" + Repeat("-", |heading|)
    else heading + " " + Repeat("=", level)
  }

  /** The underline character of a level 1 or 2 heading. */
  function UnderlineChar(level: int): char
  {
    if level == 1 then '=' else '-'
  }

  /**
   * A level 1 or 2 heading is two lines: the heading text, then an underline exactly
   * as long as that text, made of `=` for level 1 and `-` for level 2.
   */
  lemma HeaderUnderline(level: int, heading: string)
    requires level == 1 || level == 2
    requires '\n' !in heading && !EndsWithCarriageReturn(heading)
    ensures HeaderOpen(level) == ""
    ensures |Pieces(HeaderClose(level, heading))| == 2
    ensures Pieces(HeaderClose(level, heading))[0] == heading
    ensures |Pieces(HeaderClose(level, heading))[1]| == |heading|
    ensures forall i :: 0 <= i < |heading| ==> Pieces(HeaderClose(level, heading))[1][i] == UnderlineChar(level)
  {
    var u := Repeat([UnderlineChar(level)], |heading|);
    assert HeaderClose(level, heading) == heading + "\n" + u;
    PiecesOfLineThen(heading, u);
    RepeatCharAll(UnderlineChar(level), |heading|);
    assert '\n' !in u by {
      forall i | 0 <= i < |u| ensures u[i] != '\n' { assert u[i] == UnderlineChar(level); }
    }
    PiecesOfLine(u);
  }

  /**
   * A heading of level above 2 stays on one line, fenced on both sides by `=` repeated
   * `level` times, with one space between fence and text.
   */
  lemma HeaderFenced(level: int, heading: string)
    requires level > 2
    ensures var t := HeaderOpen(level) + HeaderClose(level, heading);
      |t| == 2 * level + 2 + |heading|
      && t[..level + 1] == Repeat("=", level) + " "
      && t[level + 1..level + 1 + |heading|] == heading
      && t[level + 1 + |heading|..] == " " + Repeat("=", level)
  {
    var bar := Repeat("=", level);
    var open, close := bar + " ", " " + bar;
    assert HeaderClose(level, heading) == heading + " " + bar;
    AppendAssoc(open, heading + " ", bar);
    AppendAssoc(open, heading, " ");
    AppendAssoc(open + heading, " ", bar);
    ThreeParts(open, heading, close);
    var t := open + heading + close;
    assert t[level + 1..level + 1 + |heading|] == heading;
  }

  /** The marker beginList pushes on the list-style stack. */
  function ListMarker(t: ListType): (r: string)
    ensures r == "*" || r == "1"
    ensures ContainsOne(r) <==> t == Numbered
  {
    if t == Bulleted then assert !ContainsOne("*") by { assert "*"[0] != '1'; } "*"
    else assert t == Numbered; assert ContainsOne("1") by { assert "1"[0] == '1'; } "1"
  }

  /** StringUtils.contains(marker, '1'). */
  predicate ContainsOne(marker: string)
  {
    '1' in marker
  }

  /** What beginListItem prints: a line feed before every item but the first, four
      spaces per enclosing list, the marker, a period after a numbered marker, a space. */
  function ListItemPrefix(itemIndex: int, depth: int, marker: string): string
  {
    (if itemIndex > 0 then "\n" else "")
    + Repeat(" ", (depth - 1) * 4)
    + marker + (if ContainsOne(marker) then "." else "") + " "
  }

  /**
   * The item line starts with a line feed exactly when the item is not the first one;
   * after it come `4 * (depth - 1)` spaces and then `* ` for a bulleted list or `1. `
   * for a numbered one.
   */
  lemma ListItemPrefixShape(itemIndex: int, depth: int, marker: string)
    requires marker == "*" || marker == "1"
    requires depth >= 1
    ensures var p := ListItemPrefix(itemIndex, depth, marker);
      var n := if itemIndex > 0 then 1 else 0;
      var indent := 4 * (depth - 1);
      (p[0] == '\n' <==> itemIndex > 0)
      && |p| == n + indent + (if marker == "1" then 3 else 2)
      && (forall i :: n <= i < n + indent ==> p[i] == ' ')
      && p[n + indent..] == (if marker == "1" then "1. " else "* ")
  {
    var nl := if itemIndex > 0 then "\n" else "";
    var sp := Repeat(" ", (depth - 1) * 4);
    var tail := marker + (if ContainsOne(marker) then "." else "") + " ";
    assert ContainsOne(marker) <==> marker == "1" by {
      if marker == "*" { assert marker[0] != '1'; }
    }
    if marker == "1" {
      assert tail == "1. ";
    } else {
      assert tail == "* ";
    }
    var dot := if ContainsOne(marker) then "." else "";
    AppendAssoc(nl + sp, marker + dot, " ");
    AppendAssoc(nl + sp, marker, dot);
    ThreeParts(nl, sp, tail);
    RepeatCharAll(' ', (depth - 1) * 4);
    var p := nl + sp + tail;
    if itemIndex > 0 {
      assert p[0] == p[..1][0];
    } else if depth > 1 {
      assert p[0] == sp[0];
    } else {
      assert p[0] == tail[0] == marker[0];
    }
  }

  /** Whatever is printed before it, an item prefix ends with `* ` for a bulleted marker
      and with `1. ` for a numbered one. */
  lemma ListItemMarkerEnd(base: string, itemIndex: int, depth: int, marker: string)
    requires marker == "*" || marker == "1"
    ensures var t := base + ListItemPrefix(itemIndex, depth, marker);
      && (marker == "*" ==> |t| >= 2 && t[|t| - 2..] == "* ")
      && (marker == "1" ==> |t| >= 3 && t[|t| - 3..] == "1. ")
  {
    var pre := (if itemIndex > 0 then "\n" else "") + Repeat(" ", (depth - 1) * 4);
    var dot := if ContainsOne(marker) then "." else "";
    var tail := marker + dot + " ";
    assert ListItemPrefix(itemIndex, depth, marker) == pre + marker + dot + " ";
    AppendAssoc(pre, marker, dot);
    AppendAssoc(pre, marker + dot, " ");
    AppendAssoc(base, pre, tail);
    SuffixOfAppend(base + pre, tail);
    if marker == "1" {
      assert tail == "1. ";
    } else {
      assert marker[0] != '1';
      assert tail == "* ";
    }
  }

  /** The end of a concatenation is its second part. */
  lemma SuffixOfAppend(a: string, b: string)
    ensures |a + b| >= |b| && (a + b)[|a + b| - |b|..] == b
  {
    assert (a + b)[|a|..] == b;
  }

  /** The item prefix behind the text printed before it, in the grouping in which
      beginListItem prints it part by part. */
  lemma ListItemPrefixAfter(base: string, itemIndex: int, depth: int, marker: string)
    ensures base + ListItemPrefix(itemIndex, depth, marker)
      == base + (if itemIndex > 0 then "\n" else "") + Repeat(" ", (depth - 1) * 4) + marker
         + (if ContainsOne(marker) then "." else "") + " "
  {
    var nl := if itemIndex > 0 then "\n" else "";
    var sp := Repeat(" ", (depth - 1) * 4);
    var dot := if ContainsOne(marker) then "." else "";
    AppendAssoc(base, nl + sp + marker + dot, " ");
    AppendAssoc(base, nl + sp + marker, dot);
    AppendAssoc(base, nl + sp, marker);
    AppendAssoc(base, nl, sp);
  }

  /** What beginDefinitionDescription prints. */
  function DefinitionDescriptionPrefix(itemIndex: int, depth: int): string
  {
    (if itemIndex > 0 then "\n" else "") + Repeat(" ", 4 * (depth - 1)) + ":   "
  }

  /** What beginDefinitionTerm prints after the separator. */
  function DefinitionTermPrefix(depth: int): string
  {
    Repeat(" ", 4 * (depth - 1))
  }

  /** The description marker `:   ` follows four spaces per enclosing definition list. */
  lemma DefinitionDescriptionShape(itemIndex: int, depth: int)
    requires depth >= 1
    ensures var p := DefinitionDescriptionPrefix(itemIndex, depth);
      var n := if itemIndex > 0 then 1 else 0;
      |p| == n + 4 * depth
      && (forall i :: n <= i < n + 4 * (depth - 1) ==> p[i] == ' ')
      && p[n + 4 * (depth - 1)..] == ":   "
      && p[..n] == (if itemIndex > 0 then "\n" else "")
  {
    var nl := if itemIndex > 0 then "\n" else "";
    ThreeParts(nl, Repeat(" ", 4 * (depth - 1)), ":   ");
    RepeatCharAll(' ', 4 * (depth - 1));
  }

  /** The description prefix behind the text printed before it, in the grouping in which
      beginDefinitionDescription prints it. */
  lemma DefinitionDescriptionAfter(base: string, itemIndex: int, depth: int)
    ensures base + DefinitionDescriptionPrefix(itemIndex, depth)
      == base + (if itemIndex > 0 then "\n" else "") + (RepeatChar(' ', 4 * (depth - 1)) + ":   ")
  {
    var nl := if itemIndex > 0 then "\n" else "";
    var sp := Repeat(" ", 4 * (depth - 1));
    assert sp == RepeatChar(' ', 4 * (depth - 1));
    AppendAssoc(base, nl + sp, ":   ");
    AppendAssoc(base, nl, sp);
    AppendAssoc(base + nl, sp, ":   ");
  }

  /** What beginQuotationLine prints: for every line but the first, a line holding `>`
      followed by ` >` for each nesting level of the recorded quotation beyond the second,
      then `> ` repeated the current quotation depth. */
  function QuotationLinePrefix(lineIndex: int, previousDepth: int, depth: int): string
  {
    (if lineIndex > 0
     then "\n" + ">" + (if previousDepth > 2 then Repeat(" >", previousDepth - 2) else "") + "\n"
     else "")
    + Repeat("> ", depth)
  }

  /**
   * Whatever came before, the line a quotation line starts is `> ` repeated the current
   * depth, and a quotation line other than the first is preceded by one re-anchoring line
   * of `>` characters, one more than the recorded depth minus two (at least one).
   */
  lemma QuotationLineShape(lineIndex: int, previousDepth: int, depth: int)
    ensures var ps := Pieces(QuotationLinePrefix(lineIndex, previousDepth, depth));
      var extra := if previousDepth > 2 then previousDepth - 2 else 0;
      && ps[|ps| - 1] == Repeat("> ", depth)
      && (lineIndex > 0 ==> ps == ["", ">" + Repeat(" >", extra), Repeat("> ", depth)])
      && (lineIndex <= 0 ==> ps == [Repeat("> ", depth)])
  {
    var p := QuotationLinePrefix(lineIndex, previousDepth, depth);
    var q := Repeat("> ", depth);
    var extra := if previousDepth > 2 then previousDepth - 2 else 0;
    var mid := ">" + Repeat(" >", extra);
    RepeatNoLineEnd("> ", depth);
    RepeatNoLineEnd(" >", extra);
    if lineIndex > 0 {
      assert p == "\n" + mid + "\n" + q;
      QuotationPieces(mid, q);
    } else {
      assert p == q;
      PiecesOfLine(q);
    }
  }

  /** The re-anchoring line after a line feed, then the prefix line. */
  lemma QuotationPieces(mid: string, q: string)
    requires '\n' !in mid && '\r' !in mid && '\n' !in q
    ensures Pieces("\n" + mid + "\n" + q) == ["", mid, q]
  {
    var t := "\n" + mid + "\n" + q;
    assert t[0] == '\n' && t[1..] == mid + "\n" + q;
    PiecesOfLineThen(mid, q);
    PiecesOfLine(q);
  }

  /** Repeating a text without line ends gives a text without line ends. */
  lemma {:induction false} RepeatNoLineEnd(s: string, n: int)
    requires '\n' !in s && '\r' !in s
    ensures '\n' !in Repeat(s, n) && '\r' !in Repeat(s, n)
    decreases n
  {
    if n > 0 {
      RepeatNoLineEnd(s, n - 1);
      assert Repeat(s, n) == s + Repeat(s, n - 1);
    }
  }

  /** endLink: the bare-reference form `[[REF]]` for an empty caption, `[LABEL](REF)` otherwise. */
  function LinkText(caption: string, reference: string): string
  {
    if caption == "" then "[[" + reference + "]]" else "[" + caption + "](" + reference + ")"
  }

  /**
   * The two link forms can be told apart by their last character, and the caption and
   * the reference stand at fixed places in the text.
   */
  lemma LinkForms(caption: string, reference: string)
    ensures var t := LinkText(caption, reference);
      && (t[|t| - 1] == ')' <==> caption != "")
      && (caption == "" ==> |t| == |reference| + 4 && t[2..2 + |reference|] == reference)
      && (caption != "" ==>
            |t| == |caption| + |reference| + 4
            && t[1..1 + |caption|] == caption && t[|caption| + 3..|t| - 1] == reference)
  {
    var t := LinkText(caption, reference);
    if caption == "" {
      assert t == "[[" + reference + "]]";
      assert t[|t| - 1] == ']';
    } else {
      assert t == "[" + caption + "](" + reference + ")";
    }
  }

  /** onImage: the alt parameter, or the serialized reference when it is blank. */
  function ImageAlt(alt: Option<string>, reference: string): (r: string)
    ensures r == reference || Some(r) == alt
    ensures !IsBlank(Some(reference)) ==> !IsBlank(Some(r))
  {
    if IsBlank(alt) then reference else alt.value
  }

  /** onImage: `![ALT](REF)`. */
  function ImageText(alt: Option<string>, reference: string): string
  {
    "![" + ImageAlt(alt, reference) + "](" + reference + ")"
  }

  /** An image is the link form of its alt text preceded by `!`, whenever that alt text
      is not empty. */
  lemma ImageIsBangLink(alt: Option<string>, reference: string)
    requires ImageAlt(alt, reference) != ""
    ensures ImageText(alt, reference) == "!" + LinkText(ImageAlt(alt, reference), reference)
  {
    BangLink(ImageAlt(alt, reference), reference);
  }

  lemma BangLink(caption: string, reference: string)
    requires caption != ""
    ensures "![" + caption + "](" + reference + ")" == "!" + LinkText(caption, reference)
  {
    var t := "[" + caption + "](" + reference + ")";
    assert "!" + t == "![" + caption + "](" + reference + ")" by {
      AppendAssoc("!", "[", caption);
      AppendAssoc("!", "[" + caption, "](");
      AppendAssoc("!", "[" + caption + "](", reference);
      AppendAssoc("!", "[" + caption + "](" + reference, ")");
    }
  }

  /** The code macro inline: the content between single backticks. */
  function InlineCode(content: string): string
  {
    "`" + content + "`"
  }

  /** The code macro as a block with a language: a fence line naming the language, the
      content, and a closing fence line. */
  function FencedCode(language: string, content: string): string
  {
    "```" + language + "\n" + content + "\n" + "```"
  }

  /** Every line after four spaces. */
  function Indent(lines: seq<string>): seq<string>
  {
    seq(|lines|, i requires 0 <= i < |lines| => "    " + lines[i])
  }

  /** The lines of an indented code block: every line of the content after four spaces. */
  function IndentedLines(content: string): seq<string>
  {
    Indent(SplitLines(content))
  }

  /** The code macro as a block without a language: the indented lines joined by line
      feeds, none after the last. */
  function IndentedCode(content: string): string
  {
    Join(IndentedLines(content), "\n")
  }

  /** What handleCodeMacro prints: nothing for a macro other than `code`; otherwise the
      inline form, the fenced form when a language parameter is present (even an empty
      one), or the indented form. */
  function CodeMacroText(id: string, parameters: map<string, string>, content: string, isInline: bool): string
  {
    if id != "code" then ""
    else if isInline then InlineCode(content)
    else if "language" in parameters then FencedCode(parameters["language"], content)
    else IndentedCode(content)
  }

  /**
   * A fenced block opens with a line that is the fence and the language, and ends with
   * a line that is the bare fence, whatever the content.
   */
  lemma FencedCodeFences(language: string, content: string)
    requires '\n' !in language && !EndsWithCarriageReturn(language)
    ensures var ps := Pieces(FencedCode(language, content));
      |ps| >= 3 && ps[0] == "```" + language && ps[|ps| - 1] == "```"
  {
    var opening := "```" + language;
    var body := content + "\n" + "```";
    assert FencedCode(language, content) == opening + "\n" + body;
    PiecesOfLineThen(opening, body);
    PiecesLastAfterNewline(content, "```");
    PiecesOfLine("```");
  }

  /** The last piece of a text followed by a line feed and more text is the last piece of
      that more text. */
  lemma {:induction false} PiecesLastAfterNewline(s: string, t: string)
    ensures var ps := Pieces(s + "\n" + t);
      |ps| >= 2 && ps[|ps| - 1] == Pieces(t)[|Pieces(t)| - 1]
    decreases |s|
  {
    var u := s + "\n" + t;
    if |s| == 0 {
      assert u == "\n" + t && u[1..] == t;
      assert Pieces(u) == [""] + Pieces(t);
    } else if s[0] == '\r' && |s| == 1 {
      assert u[0] == '\r' && u[1] == '\n' && u[2..] == t;
      assert Pieces(u) == [""] + Pieces(t);
    } else {
      var k := if s[0] == '\r' && s[1] == '\n' then 2 else 1;
      assert u[k..] == s[k..] + "\n" + t;
      PiecesLastAfterNewline(s[k..], t);
      PiecesLastOfTail(u, k);
    }
  }

  /** Dropping the first character, or a leading CR LF, from a text with at least two
      pieces keeps its last piece and does not add pieces. */
  lemma PiecesLastOfTail(u: string, k: nat)
    requires 1 <= k <= 2 && k <= |u|
    requires k == 2 <==> u[0] == '\r' && |u| > 1 && u[1] == '\n'
    requires |Pieces(u[k..])| >= 2
    ensures var ps, qs := Pieces(u), Pieces(u[k..]);
      |ps| >= 2 && ps[|ps| - 1] == qs[|qs| - 1]
  {
    var rest := Pieces(u[k..]);
    if k == 2 || u[0] == '\n' {
      PiecesSkipSeparator(u, k);
      LastOfCons("", rest);
    } else {
      PiecesFirstChar(u);
      LastOfConsTail([u[0]] + rest[0], rest);
    }
  }

  /** A leading line end ends an empty first piece. */
  lemma PiecesSkipSeparator(u: string, k: nat)
    requires (k == 1 && |u| >= 1 && u[0] == '\n') || (k == 2 && |u| >= 2 && u[0] == '\r' && u[1] == '\n')
    ensures Pieces(u) == [""] + Pieces(u[k..])
  {
  }

  /** Any other first character starts the first piece. */
  lemma PiecesFirstChar(u: string)
    requires |u| >= 1 && u[0] != '\n' && !(u[0] == '\r' && |u| > 1 && u[1] == '\n')
    ensures Pieces(u) == [[u[0]] + Pieces(u[1..])[0]] + Pieces(u[1..])[1..]
  {
  }

  lemma LastOfCons<T>(x: T, xs: seq<T>)
    requires |xs| >= 1
    ensures var ys := [x] + xs; |ys| == |xs| + 1 && ys[|ys| - 1] == xs[|xs| - 1]
  {
  }

  lemma LastOfConsTail<T>(x: T, xs: seq<T>)
    requires |xs| >= 2
    ensures var ys := [x] + xs[1..]; |ys| == |xs| && ys[|ys| - 1] == xs[|xs| - 1]
  {
  }

  /**
   * An indented block has one line per line of the content, each that line after four
   * spaces, when the content has at least one line and no line before the last ends with
   * a carriage return (IndentedCodeCarriageReturn shows what happens otherwise).
   */
  lemma IndentedCodeLines(content: string)
    requires |SplitLines(content)| > 0
    requires forall i :: 0 <= i < |SplitLines(content)| - 1 ==> !EndsWithCarriageReturn(SplitLines(content)[i])
    ensures Pieces(IndentedCode(content)) == IndentedLines(content)
  {
    var lines := IndentedLines(content);
    forall i | 0 <= i < |lines|
      ensures '\n' !in lines[i]
      ensures i < |lines| - 1 ==> !EndsWithCarriageReturn(lines[i])
    {
      assert lines[i] == "    " + SplitLines(content)[i];
    }
    PiecesOfJoin(lines);
  }

  /**
   * A line ending with a carriage return, then CR LF, is printed as that line and a line
   * feed; the carriage return then reads as part of the line end, so the block splits back
   * into different lines.
   */
  lemma IndentedCodeCarriageReturn()
    ensures IndentedLines("a\r\r\nb") == ["    a\r", "    b"]
    ensures Pieces(IndentedCode("a\r\r\nb")) == ["    a", "    b"]
  {
    var content := "a\r\r\nb";
    CarriageReturnLines(content, "a\r", "b");
    var lines := IndentedLines(content);
    assert lines == ["    " + "a\r", "    " + "b"];
    assert "    " + "a\r" == "    a\r" && "    " + "b" == "    b";
    CarriageReturnLines(IndentedCode(content), "    a", "    b");
  }

  /** A text that is one line, CR LF, and a last line splits into those two lines. */
  lemma CarriageReturnLines(s: string, line: string, last: string)
    requires s == line + "\r\n" + last
    requires '\n' !in line && '\n' !in last && last != ""
    ensures Pieces(s) == [line, last] && SplitLines(s) == [line, last]
  {
    PiecesOfLineThenCrLf(line, last);
    PiecesOfLine(last);
  }

  /**
   * The round trip of the indented form: removing the four leading spaces of every
   * line and joining the lines gives back a content that does not end with a line feed,
   * with its CR LF line ends written as line feeds.
   */
  lemma IndentedCodeRoundTrip(content: string)
    requires |content| == 0 || content[|content| - 1] != '\n'
    ensures var lines := IndentedLines(content);
      Join(seq(|lines|, i requires 0 <= i < |lines| => lines[i][4..]), "\n") == UnixLineEnds(content)
  {
    var lines := IndentedLines(content);
    var stripped := seq(|lines|, i requires 0 <= i < |lines| => lines[i][4..]);
    assert stripped == SplitLines(content) by {
      forall i | 0 <= i < |lines| ensures stripped[i] == SplitLines(content)[i] {
        assert lines[i] == "    " + SplitLines(content)[i];
      }
    }
    SplitLinesRoundTrip(content);
  }
}
