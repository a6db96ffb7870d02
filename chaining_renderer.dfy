/**
 * The event-to-Markdown renderer: one method per listener event, writing to the active
 * printer of a printer stack and keeping the renderer's own state (first-element flag,
 * list-style stack, table accumulator, abbreviation maps, recorded quotation depth).
 *
 * The printer stack is kept as the text of the active printer (`printer`) and the texts
 * of the printers suspended below it (`printerStack`, the document-level printer first).
 * The escaping printer is plain buffering here: printing appends to the active text and
 * flushing changes nothing. The block-state tracker's queries are parameters of the
 * events that read them; the reference serializers and the XML parser are collaborators
 * given to the constructor.
 */
module ChainingRenderer {
  import opened JavaText
  import opened Abbreviations
  import opened MarkdownSyntax
  import opened MarkdownTables

  /** A link or image target, opaque to the renderer. */
  datatype ResourceReference = ResourceReference(kind: string, reference: string)

  /** What the abbreviation handling reads from a parsed document: the root element's
      own text and its attributes (name, value). */
  datatype XmlElement = XmlElement(text: string, attributes: seq<(string, string)>)

  /** Element.getAttributeValue: the value of the first attribute with that name. */
  function AttributeValue(attributes: seq<(string, string)>, name: string): (r: Option<string>)
    ensures r.Some? <==> exists i :: 0 <= i < |attributes| && attributes[i].0 == name
    ensures r.Some? ==> exists i :: 0 <= i < |attributes| && attributes[i] == (name, r.value)
    decreases |attributes|
  {
    if |attributes| == 0 then None
    else if attributes[0].0 == name then Some(attributes[0].1)
    else
      var rest := AttributeValue(attributes[1..], name);
      assert forall i :: 0 < i < |attributes| ==> attributes[i] == attributes[1..][i - 1];
      rest
  }

  /** The expansion recorded for an abbreviation: its title, or what Java's string
      concatenation makes of a missing (null) title. */
  function TitleText(e: XmlElement): (r: string)
    ensures || (exists i :: 0 <= i < |e.attributes| && e.attributes[i] == ("title", r))
            || (r == "null" && forall i :: 0 <= i < |e.attributes| ==> e.attributes[i].0 != "title")
  {
    match AttributeValue(e.attributes, "title")
    case Some(v) => v
    case None => "null"
  }

  /** What printEmptyLine prints: the blank-line separator, except before the first element. */
  function EmptyLine(rendered: bool): (r: string)
    ensures r == "" <==> !rendered
  {
    if rendered then "\n\n" else ""
  }

  /** The table accumulator after `cell` was added to the last row of the current table. */
  function WithCell(tables: seq<seq<Row>>, cell: string): (r: seq<seq<Row>>)
    requires |tables| > 0 && |tables[|tables| - 1]| > 0
    ensures |r| == |tables| && r[..|r| - 1] == tables[..|tables| - 1]
    ensures var t, u := tables[|tables| - 1], r[|r| - 1];
      |u| == |t| && u[..|u| - 1] == t[..|t| - 1] && u[|u| - 1] == t[|t| - 1] + [cell]
  {
    var t := tables[|tables| - 1];
    tables[..|tables| - 1] + [t[..|t| - 1] + [t[|t| - 1] + [cell]]]
  }

  /** The fenced code block behind the text printed before it, in the grouping in which
      handleCodeMacro prints it. */
  lemma FencedCodeAfter(base: string, language: string, content: string)
    ensures base + FencedCode(language, content) == base + ("```" + language + "\n") + content + ("\n" + "```")
  {
    var open := "```" + language + "\n";
    AppendAssoc(base + open + content, "\n", "```");
    AppendAssoc(base, open + content + "\n", "```");
    AppendAssoc(base, open + content, "\n");
    AppendAssoc(base, open, content);
  }

  class MarkdownChainingRenderer {
    /** Serializes link targets (the link renderer built from it is never used). */
    const linkReferenceSerializer: ResourceReference -> string
    /** Serializes image targets, and link targets too (see EndLink). */
    const imageReferenceSerializer: ResourceReference -> string
    /** The XML parser used on raw abbreviation markup; None when parsing fails. */
    const xmlParser: string -> Option<XmlElement>

    /** The text of the active printer. */
    var printer: string
    /** The texts of the suspended printers, the document-level printer first. */
    var printerStack: seq<string>
    var isFirstElementRendered: bool
    /** One marker per open list: "*" for bulleted, "1" for numbered. */
    var listStyle: seq<string>
    var previousQuoteDepth: int
    /** One entry per open table: its rows so far. */
    var tableCells: seq<seq<Row>>
    /** One abbreviation map per open document. */
    var abbreviations: seq<Entries>

    /** Every list marker is one of the two markers, and every abbreviation map is a map. */
    ghost predicate Valid()
      reads this`listStyle, this`abbreviations
    {
      && (forall i :: 0 <= i < |listStyle| ==> listStyle[i] == "*" || listStyle[i] == "1")
      && (forall i :: 0 <= i < |abbreviations| ==> UniqueKeys(abbreviations[i]))
    }

    constructor (linkSerializer: ResourceReference -> string, imageSerializer: ResourceReference -> string,
                 parser: string -> Option<XmlElement>)
      ensures Valid()
      ensures linkReferenceSerializer == linkSerializer && imageReferenceSerializer == imageSerializer
      ensures xmlParser == parser
      ensures printer == "" && printerStack == []
      ensures !isFirstElementRendered && listStyle == [] && previousQuoteDepth == 0
      ensures tableCells == [] && abbreviations == []
    {
      linkReferenceSerializer := linkSerializer;
      imageReferenceSerializer := imageSerializer;
      xmlParser := parser;
      printer := "";
      printerStack := [];
      isFirstElementRendered := false;
      listStyle := [];
      previousQuoteDepth := 0;
      tableCells := [];
      abbreviations := [];
    }

    /** The (key, expansion) that handleAbbreviations records for a raw text: the text must
        start with `<abbr `, parse, and its root element must have exactly one attribute. */
    function ParsedAbbreviation(text: string): Option<(string, string)>
    {
      if !StartsWith(text, "<abbr ") then None
      else match xmlParser(text)
        case None => None
        case Some(e) => if |e.attributes| == 1 then Some((e.text, TitleText(e))) else None
    }

    method Print(text: string)
      modifies this`printer
      ensures printer == old(printer) + text
    {
      printer := printer + text;
    }

    method Println(text: string)
      modifies this`printer
      ensures printer == old(printer) + text + "\n"
    {
      Print(text + "\n");
    }

    /** Nothing before the first element, the blank-line separator before every later one;
        the flag is set once and never reset. */
    method PrintEmptyLine()
      modifies this`printer, this`isFirstElementRendered
      ensures isFirstElementRendered
      ensures printer == old(printer) + EmptyLine(old(isFirstElementRendered))
    {
      if isFirstElementRendered {
        Print("\n\n");
      } else {
        isFirstElementRendered := true;
      }
    }

    /** Suspends the active printer and makes a new, empty one active. */
    method PushPrinter()
      modifies this`printer, this`printerStack
      ensures printerStack == old(printerStack) + [old(printer)] && printer == ""
    {
      printerStack := printerStack + [printer];
      printer := "";
    }

    /** Flushes the active printer (nothing to do without escaping), drops it and makes the
        printer suspended last active again. */
    method PopPrinter()
      requires |printerStack| > 0
      modifies this`printer, this`printerStack
      ensures printer == old(printerStack[|printerStack| - 1])
      ensures printerStack == old(printerStack[..|printerStack| - 1])
    {
      printer := printerStack[|printerStack| - 1];
      printerStack := printerStack[..|printerStack| - 1];
    }

    method BeginDocument()
      requires Valid()
      modifies this`abbreviations
      ensures Valid()
      ensures abbreviations == old(abbreviations) + [[]]
    {
      abbreviations := abbreviations + [[]];
    }

    /** Prints the abbreviation definitions of the document, if any, after one separator,
        one line per entry in insertion order, then drops the document's map. */
    method EndDocument()
      requires Valid() && |abbreviations| > 0
      modifies this`printer, this`isFirstElementRendered, this`abbreviations
      ensures Valid()
      ensures var m := old(abbreviations[|abbreviations| - 1]);
        && printer == old(printer)
             + (if |m| == 0 then "" else EmptyLine(old(isFirstElementRendered)) + DefinitionBlock(m))
        && isFirstElementRendered == (old(isFirstElementRendered) || |m| > 0)
      ensures abbreviations == old(abbreviations[..|abbreviations| - 1])
    {
      var m := abbreviations[|abbreviations| - 1];
      if |m| > 0 {
        PrintEmptyLine();
        PrintDefinitions(m);
        AppendAssoc(old(printer), EmptyLine(old(isFirstElementRendered)), DefinitionBlock(m));
      } else {
        AppendEmpty(printer);
      }
      abbreviations := abbreviations[..|abbreviations| - 1];
    }

    /** The definition loop of endDocument: one line per entry, a line feed between two. */
    method PrintDefinitions(m: Entries)
      modifies this`printer
      ensures printer == old(printer) + DefinitionBlock(m)
    {
      ghost var lines := DefinitionLines(m);
      var i := 0;
      while i < |m|
        invariant 0 <= i <= |m|
        invariant printer == if i == 0 then old(printer)
          else if i < |m| then old(printer) + Join(lines[..i], "\n") + "\n"
          else old(printer) + Join(lines[..i], "\n")
      {
        JoinStepAfter(old(printer), lines, "\n", i);
        Print("*[" + m[i].0 + "]: " + m[i].1);
        if i < |m| - 1 {
          Print("\n");
        }
        i := i + 1;
      }
      if |m| == 0 {
        AppendEmpty(printer);
      } else {
        assert lines[..|m|] == lines;
      }
    }

    method BeginFormat(format: Format)
      modifies this`printer
      ensures printer == old(printer) + FormatOpen(format)
    {
      match format
      case Bold => Print("**");
      case Italic => Print("_");
      case Strikedout => Print("~~");
      case Underlined => Print("__");
      case Superscript => Print("<sup>");
      case Subscript => Print("<sub>");
      case Monospace => Print("`");
      case NoFormat =>
    }

    method EndFormat(format: Format)
      modifies this`printer
      ensures printer == old(printer) + FormatClose(format)
    {
      match format
      case Bold => Print("**");
      case Italic => Print("_");
      case Strikedout => Print("~~");
      case Underlined => Print("__");
      case Superscript => Print("</sup>");
      case Subscript => Print("</sub>");
      case Monospace => Print("`");
      case NoFormat =>
    }

    method OnHorizontalLine()
      modifies this`printer, this`isFirstElementRendered
      ensures isFirstElementRendered
      ensures printer == old(printer) + EmptyLine(old(isFirstElementRendered)) + "---"
    {
      PrintEmptyLine();
      Print("---");
    }

    method BeginParagraph()
      modifies this`printer, this`isFirstElementRendered
      ensures isFirstElementRendered
      ensures printer == old(printer) + EmptyLine(old(isFirstElementRendered))
    {
      PrintEmptyLine();
    }

    /** Prints the separator and, above level 2, the opening fence; then defers the
        heading text to a new printer. */
    method BeginHeader(level: int)
      requires 1 <= level <= 6
      modifies this`printer, this`printerStack, this`isFirstElementRendered
      ensures isFirstElementRendered
      ensures printerStack == old(printerStack) + [old(printer) + EmptyLine(old(isFirstElementRendered)) + HeaderOpen(level)]
      ensures printer == ""
    {
      PrintEmptyLine();
      if level > 2 {
        Print(Repeat("=", level) + " ");
      } else {
        AppendEmpty(printer);
      }
      PushPrinter();
    }

    /** Pops the heading printer and prints its text with the underline or closing fence
        of the level. */
    method EndHeader(level: int)
      requires 1 <= level <= 6 && |printerStack| > 0
      modifies this`printer, this`printerStack
      ensures printerStack == old(printerStack[..|printerStack| - 1])
      ensures printer == old(printerStack[|printerStack| - 1]) + HeaderClose(level, old(printer))
    {
      var heading := printer;
      PopPrinter();
      ghost var base := printer;
      Print(heading);
      if level == 1 {
        Print("\n");
        Print(Repeat("=", |heading|));
        AppendAssoc(base, heading + "\n", Repeat("=", |heading|));
        AppendAssoc(base, heading, "\n");
      } else if level == 2 {
        Print("\n");
        Print(Repeat("-", |heading|));
        AppendAssoc(base, heading + "\n", Repeat("-", |heading|));
        AppendAssoc(base, heading, "\n");
      } else {
        Print(" " + Repeat("=", level));
        AppendAssoc(base, heading, " " + Repeat("=", level));
        AppendAssoc(heading, " ", Repeat("=", level));
      }
    }

    /** A separator before an outermost list, a line feed before a nested one; pushes the
        list's marker. */
    method BeginList(listType: ListType, listDepth: int)
      requires Valid()
      modifies this`printer, this`isFirstElementRendered, this`listStyle
      ensures Valid()
      ensures listStyle == old(listStyle) + [ListMarker(listType)]
      ensures printer == old(printer) + (if listDepth == 1 then EmptyLine(old(isFirstElementRendered)) else "\n")
      ensures isFirstElementRendered == (old(isFirstElementRendered) || listDepth == 1)
    {
      if listDepth == 1 {
        PrintEmptyLine();
      } else {
        Print("\n");
      }
      if listType == Bulleted {
        listStyle := listStyle + ["*"];
      } else {
        listStyle := listStyle + ["1"];
      }
    }

    /** Pops the marker of the closing list (and flushes, which changes nothing). */
    method EndList()
      requires Valid() && |listStyle| > 0
      modifies this`listStyle
      ensures Valid()
      ensures listStyle == old(listStyle[..|listStyle| - 1])
    {
      listStyle := listStyle[..|listStyle| - 1];
    }

    /** The item prefix for the innermost list's marker; by the marker invariant the item
        text then follows `* ` or `1. `. */
    method BeginListItem(listItemIndex: int, listDepth: int)
      requires Valid() && |listStyle| > 0
      modifies this`printer
      ensures printer == old(printer) + ListItemPrefix(listItemIndex, listDepth, listStyle[|listStyle| - 1])
      ensures listStyle[|listStyle| - 1] == "*" ==> |printer| >= 2 && printer[|printer| - 2..] == "* "
      ensures listStyle[|listStyle| - 1] != "*" ==> |printer| >= 3 && printer[|printer| - 3..] == "1. "
    {
      var marker := listStyle[|listStyle| - 1];
      ghost var expected := printer + ListItemPrefix(listItemIndex, listDepth, marker);
      ListItemPrefixAfter(printer, listItemIndex, listDepth, marker);
      ListItemMarkerEnd(printer, listItemIndex, listDepth, marker);
      if listItemIndex > 0 {
        Print("\n");
      } else {
        AppendEmpty(printer);
      }
      Print(Repeat(" ", (listDepth - 1) * 4));
      Print(marker);
      if ContainsOne(marker) {
        Print(".");
      } else {
        AppendEmpty(printer);
      }
      Print(" ");
      assert printer == expected;
    }

    method BeginDefinitionDescription(definitionListItemIndex: int, definitionListDepth: int)
      modifies this`printer
      ensures printer == old(printer) + DefinitionDescriptionPrefix(definitionListItemIndex, definitionListDepth)
    {
      if definitionListItemIndex > 0 {
        Print("\n");
      } else {
        AppendEmpty(printer);
      }
      Print(RepeatChar(' ', 4 * (definitionListDepth - 1)) + ":   ");
      DefinitionDescriptionAfter(old(printer), definitionListItemIndex, definitionListDepth);
    }

    method BeginDefinitionTerm(definitionListDepth: int)
      modifies this`printer, this`isFirstElementRendered
      ensures isFirstElementRendered
      ensures printer == old(printer) + EmptyLine(old(isFirstElementRendered)) + DefinitionTermPrefix(definitionListDepth)
    {
      PrintEmptyLine();
      Print(RepeatChar(' ', 4 * (definitionListDepth - 1)));
      assert Repeat(" ", 4 * (definitionListDepth - 1)) == RepeatChar(' ', 4 * (definitionListDepth - 1));
    }

    /** Definition descriptions and terms and quotation lines end by flushing the active
        printer, which prints nothing without escaping. */
    method EndDefinitionDescription()
      ensures printer == old(printer)
    {
    }

    method EndDefinitionTerm()
      ensures printer == old(printer)
    {
    }

    /** A separator unless already inside a quotation line; records the quotation depth. */
    method BeginQuotation(isInQuotationLine: bool, quotationDepth: int)
      modifies this`printer, this`isFirstElementRendered, this`previousQuoteDepth
      ensures previousQuoteDepth == quotationDepth
      ensures printer == old(printer) + (if isInQuotationLine then "" else EmptyLine(old(isFirstElementRendered)))
      ensures isFirstElementRendered == (old(isFirstElementRendered) || !isInQuotationLine)
    {
      if !isInQuotationLine {
        PrintEmptyLine();
      }
      previousQuoteDepth := quotationDepth;
    }

    method BeginQuotationLine(quotationLineIndex: int, quotationDepth: int)
      modifies this`printer
      ensures printer == old(printer) + QuotationLinePrefix(quotationLineIndex, previousQuoteDepth, quotationDepth)
    {
      if quotationLineIndex > 0 {
        Print("\n");
        Print(">");
        if previousQuoteDepth > 2 {
          Print(Repeat(" >", previousQuoteDepth - 2));
        }
        Print("\n");
      }
      Print(Repeat("> ", quotationDepth));
    }

    method EndQuotationLine()
      ensures printer == old(printer)
    {
    }

    /** Defers the link label to a new printer. */
    method BeginLink()
      modifies this`printer, this`printerStack
      ensures printerStack == old(printerStack) + [old(printer)] && printer == ""
    {
      PushPrinter();
    }

    /** Pops the label printer and prints the link in the form its label calls for; the
        target is serialized with the image serializer, as the source does. */
    method EndLink(reference: ResourceReference)
      requires |printerStack| > 0
      modifies this`printer, this`printerStack
      ensures printerStack == old(printerStack[..|printerStack| - 1])
      ensures printer == old(printerStack[|printerStack| - 1])
        + LinkText(old(printer), imageReferenceSerializer(reference))
    {
      var caption := printer;
      PopPrinter();
      var serializedReference := imageReferenceSerializer(reference);
      if caption == "" {
        Print("[[" + serializedReference + "]]");
      } else {
        Print("[" + caption + "](" + serializedReference + ")");
      }
    }

    method OnImage(reference: ResourceReference, parameters: map<string, string>)
      modifies this`printer
      ensures printer == old(printer)
        + ImageText(if "alt" in parameters then Some(parameters["alt"]) else None, imageReferenceSerializer(reference))
    {
      var alt := if "alt" in parameters then Some(parameters["alt"]) else None;
      var serializedReference := imageReferenceSerializer(reference);
      var shown := if IsBlank(alt) then serializedReference else alt.value;
      Print("![" + shown + "](" + serializedReference + ")");
    }

    method OnSpace()
      modifies this`printer
      ensures printer == old(printer) + " "
    {
      Print(" ");
    }

    /** A hard line break: two spaces, then a line feed. */
    method OnNewLine()
      modifies this`printer
      ensures printer == old(printer) + "  \n"
    {
      Print("  ");
      Print("\n");
      assert "  " + "\n" == "  \n";
    }

    method OnWord(word: string)
      modifies this`printer
      ensures printer == old(printer) + word
    {
      Print(word);
    }

    method OnSpecialSymbol(symbol: char)
      modifies this`printer
      ensures printer == old(printer) + SpecialSymbolText(symbol)
    {
      if symbol == '\U{201C}' {
        Print("<<");
      } else if symbol == '\U{201D}' {
        Print(">>");
      } else if symbol == '\U{2014}' {
        Print("---");
      } else if symbol == '\U{2026}' {
        Print("...");
      } else if symbol == '\U{2013}' {
        Print("--");
      } else {
        Print([symbol]);
      }
    }

    /** A separator, then a new, empty table. */
    method BeginTable()
      modifies this`printer, this`isFirstElementRendered, this`tableCells
      ensures isFirstElementRendered
      ensures printer == old(printer) + EmptyLine(old(isFirstElementRendered))
      ensures tableCells == old(tableCells) + [[]]
    {
      PrintEmptyLine();
      tableCells := tableCells + [[]];
    }

    /** Prints the whole current table with the column sizes computed from all its rows,
        then drops it. */
    method EndTable()
      requires |tableCells| > 0
      modifies this`printer, this`tableCells
      ensures var rows := old(tableCells[|tableCells| - 1]);
        printer == old(printer) + TableText(rows, ColumnSizes(rows))
      ensures tableCells == old(tableCells[..|tableCells| - 1])
    {
      var stack := tableCells;
      var rows := stack[|stack| - 1];
      var maxColumnSizes := MaxColumnSizes(rows);
      var i := 0;
      while i < |rows|
        invariant 0 <= i <= |rows|
        invariant printer == if i == 0 then old(printer)
          else if i < |rows| then old(printer) + TableTextUpTo(rows, maxColumnSizes, i) + "\n"
          else old(printer) + TableTextUpTo(rows, maxColumnSizes, i)
      {
        TableTextStep(old(printer), rows, maxColumnSizes, i);
        PrintTableRow(rows[i], ' ', true, maxColumnSizes);
        if i == 0 {
          Print("\n");
          PrintTableRow(rows[i], '-', false, maxColumnSizes);
        }
        assert printer == old(printer) + TableTextUpTo(rows, maxColumnSizes, i + 1);
        if i < |rows| - 1 {
          Print("\n");
        }
        i := i + 1;
      }
      if |rows| == 0 {
        AppendEmpty(printer);
      }
      tableCells := stack[..|stack| - 1];
    }

    /** printTableRow: the opening bar, then every cell padded to its column's size, the
        free room of the column split in two with the smaller half before the text. */
    method PrintTableRow(columnCells: Row, separator: char, printCellText: bool, maxColumnSizes: seq<int>)
      requires |columnCells| <= |maxColumnSizes|
      modifies this`printer
      ensures printer == old(printer) + RowText(columnCells, separator, printCellText, maxColumnSizes)
    {
      Print("|");
      AppendEmpty(printer);
      ghost var texts := CellTexts(columnCells, separator, printCellText, maxColumnSizes);
      var j := 0;
      while j < |columnCells|
        invariant 0 <= j <= |columnCells|
        invariant printer == old(printer) + "|" + Concat(texts, j)
      {
        PrintCell(columnCells[j], separator, printCellText, maxColumnSizes[j]);
        ConcatStep(old(printer) + "|", texts, j);
        j := j + 1;
      }
      AppendAssoc(old(printer), "|", Concat(texts, |columnCells|));
    }

    /** One cell of printTableRow: the free room of the column split in two, the smaller
        half before the text. */
    method PrintCell(cell: string, separator: char, printCellText: bool, size: int)
      modifies this`printer
      ensures printer == old(printer) + CellText(cell, separator, printCellText, size)
    {
      var spaceSize := JavaHalf(size - |cell|);
      ghost var open := CellOpen(separator, spaceSize);
      ghost var text := if printCellText then cell else RepeatChar(separator, |cell|);
      ghost var rest := RepeatChar(separator, size - |cell| - spaceSize);
      Print(" ");
      Print(RepeatChar(separator, spaceSize));
      AppendAssoc(old(printer), " ", RepeatChar(separator, spaceSize));
      if printCellText {
        Print(cell);
      } else {
        Print(RepeatChar(separator, |cell|));
      }
      AppendAssoc(old(printer), open, text);
      ghost var front := printer;
      Print(RepeatChar(separator, size - |cell| - spaceSize));
      Print(" ");
      Print("|");
      AppendAssoc(front, rest + " ", "|");
      AppendAssoc(front, rest, " ");
      assert spaceSize == LeftPad(size, |cell|) && size - |cell| - spaceSize == RightPad(size, |cell|);
      AppendAssoc(old(printer), open + text, CellClose(separator, size - |cell| - spaceSize));
    }

    /** Defers the cell text to a new printer. */
    method BeginTableCell()
      modifies this`printer, this`printerStack
      ensures printerStack == old(printerStack) + [old(printer)] && printer == ""
    {
      PushPrinter();
    }

    /** Pops the cell printer and adds its text as one more cell of the last row of the
        current table; every other row and table stays as it was. */
    method EndTableCell()
      requires |printerStack| > 0
      requires |tableCells| > 0 && |tableCells[|tableCells| - 1]| > 0
      modifies this`printer, this`printerStack, this`tableCells
      ensures printer == old(printerStack[|printerStack| - 1])
      ensures printerStack == old(printerStack[..|printerStack| - 1])
      ensures tableCells == WithCell(old(tableCells), old(printer))
    {
      var cellText := printer;
      PopPrinter();
      tableCells := WithCell(tableCells, cellText);
    }

    method BeginTableHeadCell()
      modifies this`printer, this`printerStack
      ensures printerStack == old(printerStack) + [old(printer)] && printer == ""
    {
      BeginTableCell();
    }

    method EndTableHeadCell()
      requires |printerStack| > 0
      requires |tableCells| > 0 && |tableCells[|tableCells| - 1]| > 0
      modifies this`printer, this`printerStack, this`tableCells
      ensures printer == old(printerStack[|printerStack| - 1])
      ensures printerStack == old(printerStack[..|printerStack| - 1])
      ensures tableCells == WithCell(old(tableCells), old(printer))
    {
      EndTableCell();
    }

    /** Adds a new, empty row to the current table. */
    method BeginTableRow()
      requires |tableCells| > 0
      modifies this`tableCells
      ensures var t := old(tableCells[|tableCells| - 1]);
        tableCells == old(tableCells[..|tableCells| - 1]) + [t + [[]]]
    {
      var t := tableCells[|tableCells| - 1];
      tableCells := tableCells[..|tableCells| - 1] + [t + [[]]];
    }

    /** Raw text: an abbreviation is recorded and its key printed; anything else is printed
        verbatim, after a separator when not inside inline content. */
    method OnRawText(text: string, isInLine: bool)
      requires Valid()
      modifies this`printer, this`isFirstElementRendered, this`abbreviations
      ensures Valid()
      ensures var handled := |old(abbreviations)| > 0 && ParsedAbbreviation(text).Some?;
        && (handled ==>
              && printer == old(printer) + ParsedAbbreviation(text).value.0
              && isFirstElementRendered == old(isFirstElementRendered)
              && abbreviations == old(abbreviations[..|abbreviations| - 1])
                   + [Put(old(abbreviations[|abbreviations| - 1]), ParsedAbbreviation(text).value.0,
                          ParsedAbbreviation(text).value.1)])
        && (!handled ==>
              && printer == old(printer) + (if isInLine then "" else EmptyLine(old(isFirstElementRendered))) + text
              && isFirstElementRendered == (old(isFirstElementRendered) || !isInLine)
              && abbreviations == old(abbreviations))
    {
      var handled := HandleAbbreviations(text);
      if !handled {
        if !isInLine {
          PrintEmptyLine();
        }
        Print(text);
      }
    }

    /**
     * Records an abbreviation in the current document's map and prints its key. Markup
     * that does not start with `<abbr `, does not parse, or has other than one attribute
     * is left unhandled; so is any markup met outside a document, where looking up the
     * current map fails inside the same exception handler.
     */
    method HandleAbbreviations(text: string) returns (isHandled: bool)
      requires Valid()
      modifies this`printer, this`abbreviations
      ensures Valid()
      ensures isHandled <==>
        && |old(abbreviations)| > 0 && StartsWith(text, "<abbr ") && xmlParser(text).Some?
        && |xmlParser(text).value.attributes| == 1
      ensures isHandled ==> ParsedAbbreviation(text) == Some((xmlParser(text).value.text, TitleText(xmlParser(text).value)))
      ensures isHandled ==>
        var entry := ParsedAbbreviation(text).value;
        var n := |old(abbreviations)|;
        && abbreviations == old(abbreviations[..n - 1]) + [Put(old(abbreviations[n - 1]), entry.0, entry.1)]
        && printer == old(printer) + entry.0
        && Get(abbreviations[n - 1], entry.0) == Some(entry.1)
      ensures !isHandled ==> printer == old(printer) && abbreviations == old(abbreviations)
    {
      isHandled := false;
      if StartsWith(text, "<abbr ") {
        var document := xmlParser(text);
        if document.Some? && |document.value.attributes| == 1 && |abbreviations| > 0 {
          var key := document.value.text;
          var value := TitleText(document.value);
          var n := |abbreviations|;
          PutUniqueKeys(abbreviations[n - 1], key, value);
          PutGet(abbreviations[n - 1], key, value, key);
          abbreviations := abbreviations[..n - 1] + [Put(abbreviations[n - 1], key, value)];
          Print(key);
          isHandled := true;
        }
      }
    }

    method OnMacro(id: string, parameters: map<string, string>, content: string, isInline: bool)
      modifies this`printer
      ensures printer == old(printer) + CodeMacroText(id, parameters, content, isInline)
    {
      var _ := HandleCodeMacro(id, parameters, content, isInline);
    }

    /** The code macro: handled, and printed in one of its three forms, exactly when the
        macro is `code`; any other macro prints nothing and is reported unhandled. */
    method HandleCodeMacro(id: string, parameters: map<string, string>, content: string, isInline: bool)
      returns (isHandled: bool)
      modifies this`printer
      ensures isHandled <==> id == "code"
      ensures printer == old(printer) + CodeMacroText(id, parameters, content, isInline)
    {
      isHandled := true;
      if id == "code" {
        if isInline {
          Print("`" + content + "`");
        } else if "language" in parameters {
          var language := parameters["language"];
          Println("```" + language);
          Print(content);
          Print("\n" + "```");
          FencedCodeAfter(old(printer), language, content);
        } else {
          var lines := SplitLines(content);
          PrintIndentedLines(lines);
        }
      } else {
        isHandled := false;
        AppendEmpty(printer);
      }
    }

    /** The loop of the indented form of the code macro: each line after four spaces,
        a line feed between two lines. */
    method PrintIndentedLines(lines: seq<string>)
      modifies this`printer
      ensures printer == old(printer) + Join(Indent(lines), "\n")
    {
      ghost var indented := Indent(lines);
      var i := 0;
      while i < |lines|
        invariant 0 <= i <= |lines|
        invariant printer == if i == 0 then old(printer)
          else if i < |lines| then old(printer) + Join(indented[..i], "\n") + "\n"
          else old(printer) + Join(indented[..i], "\n")
      {
        assert |indented| == |lines| && indented[i] == "    " + lines[i];
        JoinStepAfter(old(printer), indented, "\n", i);
        Print("    " + lines[i]);
        if i < |lines| - 1 {
          Print("\n");
        }
        i := i + 1;
      }
      if |lines| == 0 {
        AppendEmpty(printer);
      } else {
        assert indented[..|lines|] == indented;
      }
    }
  }
}
