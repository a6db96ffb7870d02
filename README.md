# Markdown 1.0 chaining renderer, modelled in Dafny

This project models XWiki's Markdown 1.0 renderer, `MarkdownChainingRenderer`. The
renderer receives the events of a parsed document one at a time (begin/end of a document,
header, list, table, link and so on, plus words, spaces, images, raw text and macros). For
each event it appends Markdown text to the active printer.

Header text, link labels and table cells are not printed where they occur. The renderer
pushes a new printer for them and pops it at the matching end event; at that point the
collected text is measured (underlines, column widths) or wrapped (link syntax). The state
the renderer keeps besides the printers is:

- the first-element flag, which suppresses the very first blank-line separator;
- the list-style stack (`*` or `1` per open list);
- the table accumulator (per open table, the rows of cell texts);
- one abbreviation map per open document, kept in insertion order;
- the quotation depth recorded at the start of a quotation.

The model is imperative where the renderer is. `ChainingRenderer.MarkdownChainingRenderer`
is a class with those fields. Each event handler is a method that states its effect on the
printer and on the state. The printer stack is two fields: the text of the active printer
(`printer`) and the texts of the printers suspended under it (`printerStack`). The loops
of `endTable`, `printTableRow`, `endDocument` and `handleCodeMacro` are kept as loops and
proved against specification functions:

- `TableText` and `ColumnSizes` for `endTable`;
- `RowText` and `CellText` for `printTableRow`;
- `DefinitionBlock` for `endDocument`;
- `CodeMacroText` for `handleCodeMacro`.

The properties the renderer promises are then proved about those functions:

- heading underlines as long as the heading;
- each column as wide as its widest cell;
- every row ending its columns at the same positions;
- the separator row made of bars, spaces and dashes;
- the link and image forms;
- the code-macro forms, including the round trip of the indented form;
- the abbreviation map keeping one entry per key in insertion order.

Modules:

- `JavaText`:
  - `StringUtils.repeat` (nothing for counts up to zero) and `StringUtils.isBlank`;
  - `String.split("\\r?\\n")`, following Java: trailing empty strings are dropped, and a
    text with no line end is returned as its only element;
  - joining with a separator.
- `Abbreviations`: the `LinkedHashMap` of abbreviations as a sequence of entries, with
  `put` and `get`, and the trailing definition block.
- `MarkdownSyntax`: the fixed fragments printed for single events (format markers,
  special symbols, header, list, definition and quotation prefixes, links, images, the
  three code-macro forms).
- `MarkdownTables`: column sizes and the text of rows and tables.
- `ChainingRenderer`: the renderer class.

Integer division in the cell padding is Java's, truncating toward zero (`JavaHalf`).
String lengths are counted in characters.

Points where the model follows the code rather than what one might expect of it:

- Putting an abbreviation whose key is already in the map replaces its expansion and
  keeps the key's position. This is what `LinkedHashMap.put` does at
  MarkdownChainingRenderer.java line 537. The last expansion wins, not the first.
- `endLink` serializes the link target with the image serializer (line 344), not the link
  serializer.
- An abbreviation tag whose only attribute is not `title` records the expansion `null`.
  `getAttributeValue` returns null, and Java prints a null value as `null`.
- Raw abbreviation markup met outside a document is printed verbatim. The lookup of the
  current map fails inside the same exception handler as a parse failure.

## Model

| member | source | states |
|---|---|---|
| JavaText.Repeat | syntax-markdown-markdown10/src/main/java/org/xwiki/rendering/internal/renderer/markdown/MarkdownChainingRenderer.java:216-221 | `StringUtils.repeat`: the empty text for a count up to zero; for a one-character argument, that character repeated |
| JavaText.RepeatChar | syntax-markdown-markdown10/src/main/java/org/xwiki/rendering/internal/renderer/markdown/MarkdownChainingRenderer.java:272 | `StringUtils.repeat(char, n)` has length `n`, or 0 when `n <= 0` |
| JavaText.RepeatCharAll | syntax-markdown-markdown10/src/main/java/org/xwiki/rendering/internal/renderer/markdown/MarkdownChainingRenderer.java:464-472 | every character of a character repetition is that character |
| JavaText.IsJavaWhitespace | syntax-markdown-markdown10/src/main/java/org/xwiki/rendering/internal/renderer/markdown/MarkdownChainingRenderer.java:359 | `Character.isWhitespace`, as used by `StringUtils.isBlank`: its ranges hold exactly the 25 listed whitespace characters |
| JavaText.IsBlank | syntax-markdown-markdown10/src/main/java/org/xwiki/rendering/internal/renderer/markdown/MarkdownChainingRenderer.java:359 | `StringUtils.isBlank`: an absent (null) and an empty text are blank, and a present text is blank exactly when every character of it is Java whitespace |
| JavaText.StartsWith | syntax-markdown-markdown10/src/main/java/org/xwiki/rendering/internal/renderer/markdown/MarkdownChainingRenderer.java:529 | `String.startsWith`: the text is the prefix followed by the rest, and any text formed as the prefix followed by something starts with it |
| JavaText.Pieces | syntax-markdown-markdown10/src/main/java/org/xwiki/rendering/internal/renderer/markdown/MarkdownChainingRenderer.java:607 | the pieces between matches of `\r?\n`: at least one, none holding a line feed |
| JavaText.UnixLineEnds | syntax-markdown-markdown10/src/main/java/org/xwiki/rendering/internal/renderer/markdown/MarkdownChainingRenderer.java:607 | writing CR LF pairs as line feeds never lengthens a text, and leaves a text without carriage returns unchanged |
| JavaText.SplitLines | syntax-markdown-markdown10/src/main/java/org/xwiki/rendering/internal/renderer/markdown/MarkdownChainingRenderer.java:607 | no line of `content.split("\\r?\\n")` contains a line feed |
| JavaText.JoinSnoc | syntax-markdown-markdown10/src/main/java/org/xwiki/rendering/internal/renderer/markdown/MarkdownChainingRenderer.java:608-613 | joining one more line adds the separator and that line, and nothing before the first line |
| JavaText.PiecesOfLine | syntax-markdown-markdown10/src/main/java/org/xwiki/rendering/internal/renderer/markdown/MarkdownChainingRenderer.java:607 | a text without a line feed splits into itself alone |
| JavaText.JoinPieces | syntax-markdown-markdown10/src/main/java/org/xwiki/rendering/internal/renderer/markdown/MarkdownChainingRenderer.java:607 | joining the untrimmed pieces of the split with line feeds gives the text back, each CR LF pair written as one line feed |
| JavaText.PiecesOfJoin | syntax-markdown-markdown10/src/main/java/org/xwiki/rendering/internal/renderer/markdown/MarkdownChainingRenderer.java:607-613 | lines without line feeds, none before the last ending with a carriage return, joined by line feeds split back into exactly those lines |
| JavaText.PiecesOfLineThen | syntax-markdown-markdown10/src/main/java/org/xwiki/rendering/internal/renderer/markdown/MarkdownChainingRenderer.java:607 | a line without line feeds and not ending with a carriage return, then a line feed, is the first piece of the split, and the rest splits on its own |
| JavaText.PiecesOfLineThenCrLf | syntax-markdown-markdown10/src/main/java/org/xwiki/rendering/internal/renderer/markdown/MarkdownChainingRenderer.java:607 | a line without line feeds, then CR LF, is the first piece of the split whatever the line ends with, so a CR LF pair counts as one line end |
| JavaText.SplitLinesRoundTrip | syntax-markdown-markdown10/src/main/java/org/xwiki/rendering/internal/renderer/markdown/MarkdownChainingRenderer.java:607-613 | for content not ending with a line feed, joining the split lines with line feeds gives the content back with its CR LF line ends as line feeds; content without carriage returns comes back unchanged |
| JavaText.SplitOnlyNewlines | syntax-markdown-markdown10/src/main/java/org/xwiki/rendering/internal/renderer/markdown/MarkdownChainingRenderer.java:607 | content made only of line feeds splits into no lines at all, as Java drops trailing empty strings |
| JavaText.PiecesLastNonEmpty | syntax-markdown-markdown10/src/main/java/org/xwiki/rendering/internal/renderer/markdown/MarkdownChainingRenderer.java:607 | a text not ending with a line feed has a non-empty last piece, so the split drops nothing from it |
| Abbreviations.Put | syntax-markdown-markdown10/src/main/java/org/xwiki/rendering/internal/renderer/markdown/MarkdownChainingRenderer.java:537 | `LinkedHashMap.put`: the key order is unchanged when the key is present, and otherwise gains the key at the end |
| Abbreviations.PutGet | syntax-markdown-markdown10/src/main/java/org/xwiki/rendering/internal/renderer/markdown/MarkdownChainingRenderer.java:537 | after `put(k, v)`, `k` maps to `v` and every other key keeps its value |
| Abbreviations.PutUniqueKeys | syntax-markdown-markdown10/src/main/java/org/xwiki/rendering/internal/renderer/markdown/MarkdownChainingRenderer.java:537 | `put` keeps the keys unique, so the entries stay a map |
| Abbreviations.DefinitionBlockLines | syntax-markdown-markdown10/src/main/java/org/xwiki/rendering/internal/renderer/markdown/MarkdownChainingRenderer.java:106-116 | when keys and values have no line ends, the definition block is exactly one line `*[KEY]: VALUE` per entry, in insertion order |
| MarkdownSyntax.FormatOpen | syntax-markdown-markdown10/src/main/java/org/xwiki/rendering/internal/renderer/markdown/MarkdownChainingRenderer.java:122-150 | `beginFormat` prints nothing exactly for the NONE format |
| MarkdownSyntax.FormatClose | syntax-markdown-markdown10/src/main/java/org/xwiki/rendering/internal/renderer/markdown/MarkdownChainingRenderer.java:153-181 | `endFormat` prints the opening marker again, or the closing tag of an HTML opening tag; nothing exactly for NONE |
| MarkdownSyntax.SpecialSymbolText | syntax-markdown-markdown10/src/main/java/org/xwiki/rendering/internal/renderer/markdown/MarkdownChainingRenderer.java:385-404 | a symbol prints as itself exactly when it is not one of the five typographic symbols; those print as two or three ASCII characters |
| MarkdownSyntax.HeaderUnderline | syntax-markdown-markdown10/src/main/java/org/xwiki/rendering/internal/renderer/markdown/MarkdownChainingRenderer.java:197-219 | a level 1 or 2 heading has no prefix and is two lines: the text, then an underline of `=` (level 1) or `-` (level 2) exactly as long as the text |
| MarkdownSyntax.HeaderFenced | syntax-markdown-markdown10/src/main/java/org/xwiki/rendering/internal/renderer/markdown/MarkdownChainingRenderer.java:197-222 | above level 2 a heading is `=`×level, a space, the text, a space, `=`×level |
| MarkdownSyntax.ListMarker | syntax-markdown-markdown10/src/main/java/org/xwiki/rendering/internal/renderer/markdown/MarkdownChainingRenderer.java:234-238 | the pushed marker is `*` or `1`, and contains a `1` (so `beginListItem` adds the period) exactly for a numbered list |
| MarkdownSyntax.ListItemPrefixShape | syntax-markdown-markdown10/src/main/java/org/xwiki/rendering/internal/renderer/markdown/MarkdownChainingRenderer.java:251-263 | an item starts with a line feed exactly when its index is positive, then 4×(depth−1) spaces, then `* ` or `1. ` |
| MarkdownSyntax.ListItemMarkerEnd | syntax-markdown-markdown10/src/main/java/org/xwiki/rendering/internal/renderer/markdown/MarkdownChainingRenderer.java:251-263 | whatever was printed before, an item prefix ends with `* ` for a bulleted marker and `1. ` for a numbered one |
| MarkdownSyntax.DefinitionDescriptionShape | syntax-markdown-markdown10/src/main/java/org/xwiki/rendering/internal/renderer/markdown/MarkdownChainingRenderer.java:266-273 | a description starts with a line feed exactly when its index is positive, then 4×(depth−1) spaces, then `:   ` |
| MarkdownSyntax.QuotationLineShape | syntax-markdown-markdown10/src/main/java/org/xwiki/rendering/internal/renderer/markdown/MarkdownChainingRenderer.java:304-316 | a quotation line is `> ` repeated the depth; every line after the first is preceded by a line break, a line `>` plus ` >` per recorded level beyond two, and another line break |
| MarkdownSyntax.LinkForms | syntax-markdown-markdown10/src/main/java/org/xwiki/rendering/internal/renderer/markdown/MarkdownChainingRenderer.java:345-351 | the link ends with `)` exactly when the label is non-empty; `[[REF]]` holds the reference at position 2, `[LABEL](REF)` the label at 1 and the reference before the last character |
| MarkdownSyntax.ImageAlt | syntax-markdown-markdown10/src/main/java/org/xwiki/rendering/internal/renderer/markdown/MarkdownChainingRenderer.java:357-361 | the alt text is the alt parameter or the serialized reference, and it is never blank unless the reference is |
| MarkdownSyntax.ImageIsBangLink | syntax-markdown-markdown10/src/main/java/org/xwiki/rendering/internal/renderer/markdown/MarkdownChainingRenderer.java:355-363 | an image with a non-empty alt text is `!` followed by the labelled link form of that alt text |
| MarkdownSyntax.FencedCodeFences | syntax-markdown-markdown10/src/main/java/org/xwiki/rendering/internal/renderer/markdown/MarkdownChainingRenderer.java:601-605 | whatever the content, a fenced block opens with the line ```` ```LANG ```` and ends with the line ```` ``` ```` |
| MarkdownSyntax.PiecesLastAfterNewline | syntax-markdown-markdown10/src/main/java/org/xwiki/rendering/internal/renderer/markdown/MarkdownChainingRenderer.java:604-605 | whatever precedes a line feed, the last line after it is the last line of the text that follows |
| MarkdownSyntax.IndentedCodeLines | syntax-markdown-markdown10/src/main/java/org/xwiki/rendering/internal/renderer/markdown/MarkdownChainingRenderer.java:606-613 | the indented block splits back into exactly the indented lines, one per content line, whenever no line before the last ends with a carriage return; CR LF line ends included |
| MarkdownSyntax.IndentedCodeCarriageReturn | syntax-markdown-markdown10/src/main/java/org/xwiki/rendering/internal/renderer/markdown/MarkdownChainingRenderer.java:606-613 | the exception to the previous row: content `a\r\r\nb` has lines `a\r` and `b`, and its indented block `    a\r\n    b` splits into `    a` and `    b` |
| MarkdownSyntax.IndentedCodeRoundTrip | syntax-markdown-markdown10/src/main/java/org/xwiki/rendering/internal/renderer/markdown/MarkdownChainingRenderer.java:606-613 | removing the four leading spaces of every line and joining gives the content back, CR LF line ends written as line feeds (content not ending with a line feed) |
| MarkdownTables.MaxRowLength | syntax-markdown-markdown10/src/main/java/org/xwiki/rendering/internal/renderer/markdown/MarkdownChainingRenderer.java:421-426 | no row is longer than the column count |
| MarkdownTables.MaxRowLengthIsMax | syntax-markdown-markdown10/src/main/java/org/xwiki/rendering/internal/renderer/markdown/MarkdownChainingRenderer.java:421-426 | the column count is the largest row length: no row is longer, and some row has it |
| MarkdownTables.ColumnWidthIsMax | syntax-markdown-markdown10/src/main/java/org/xwiki/rendering/internal/renderer/markdown/MarkdownChainingRenderer.java:432-439 | a column's width bounds every cell of that column and is reached by one; it is -1 exactly when no row has the column |
| MarkdownTables.ColumnSizesAreMaxima | syntax-markdown-markdown10/src/main/java/org/xwiki/rendering/internal/renderer/markdown/MarkdownChainingRenderer.java:419-439 | one size per column of the longest row; size j bounds every cell j and equals the length of one of them |
| MarkdownTables.RowsFitColumnSizes | syntax-markdown-markdown10/src/main/java/org/xwiki/rendering/internal/renderer/markdown/MarkdownChainingRenderer.java:432-439 | every row fits the computed column sizes |
| MarkdownTables.MaxColumnSizes | syntax-markdown-markdown10/src/main/java/org/xwiki/rendering/internal/renderer/markdown/MarkdownChainingRenderer.java:419-439 | the three sizing loops of `endTable` compute exactly `ColumnSizes` |
| MarkdownTables.MaxColumns | syntax-markdown-markdown10/src/main/java/org/xwiki/rendering/internal/renderer/markdown/MarkdownChainingRenderer.java:421-426 | the first loop gives -1 for a table without rows and the largest row length otherwise |
| MarkdownTables.ColumnWidthStep | syntax-markdown-markdown10/src/main/java/org/xwiki/rendering/internal/renderer/markdown/MarkdownChainingRenderer.java:433-437 | one more row raises each column's width to that row's cell, if it has one |
| MarkdownTables.JavaHalf | syntax-markdown-markdown10/src/main/java/org/xwiki/rendering/internal/renderer/markdown/MarkdownChainingRenderer.java:463 | Java's `x / 2`: twice the result is `x` or `x - 1` for non-negative `x`, and `x` or `x + 1` for negative `x` |
| MarkdownTables.CellTexts | syntax-markdown-markdown10/src/main/java/org/xwiki/rendering/internal/renderer/markdown/MarkdownChainingRenderer.java:460-474 | one cell text per cell, in column order, each drawn with its column's size |
| MarkdownTables.CellLayout | syntax-markdown-markdown10/src/main/java/org/xwiki/rendering/internal/renderer/markdown/MarkdownChainingRenderer.java:462-474 | a fitting cell's left pad is half the free room, the right pad is equal or one more, and the cell is its size plus three characters, the last being the bar |
| MarkdownTables.CellLength | syntax-markdown-markdown10/src/main/java/org/xwiki/rendering/internal/renderer/markdown/MarkdownChainingRenderer.java:464-472 | a cell's length does not depend on the fill character or on whether its text is shown |
| MarkdownTables.RowBars | syntax-markdown-markdown10/src/main/java/org/xwiki/rendering/internal/renderer/markdown/MarkdownChainingRenderer.java:457-476 | in a fitting row the bar closing column k−1 stands at `RowWidth(sizes, k) − 1`, the same in every row, and the row is `RowWidth(sizes, |cells|)` long |
| MarkdownTables.SeparatorMatchesRow | syntax-markdown-markdown10/src/main/java/org/xwiki/rendering/internal/renderer/markdown/MarkdownChainingRenderer.java:441-447 | the separator row is exactly as long as the header row it is drawn from |
| MarkdownTables.SeparatorCharacters | syntax-markdown-markdown10/src/main/java/org/xwiki/rendering/internal/renderer/markdown/MarkdownChainingRenderer.java:446-447 | the separator row holds only bars, spaces and dashes |
| MarkdownTables.TableTextStep | syntax-markdown-markdown10/src/main/java/org/xwiki/rendering/internal/renderer/markdown/MarkdownChainingRenderer.java:441-452 | the first row adds the header line, a line feed and the separator line; each later row adds a line feed and its line |
| MarkdownTables.TableLineAt | syntax-markdown-markdown10/src/main/java/org/xwiki/rendering/internal/renderer/markdown/MarkdownChainingRenderer.java:441-452 | the table's lines are the header row, its separator, then the other rows in order |
| MarkdownTables.TableLinesKeep | syntax-markdown-markdown10/src/main/java/org/xwiki/rendering/internal/renderer/markdown/MarkdownChainingRenderer.java:441-452 | printing one more row leaves the lines already printed unchanged |
| MarkdownTables.RowWidthOfRow | syntax-markdown-markdown10/src/main/java/org/xwiki/rendering/internal/renderer/markdown/MarkdownChainingRenderer.java:457-476 | a row that fits is `RowWidth(sizes, |cells|)` characters long |
| MarkdownTables.TableLineWidth | syntax-markdown-markdown10/src/main/java/org/xwiki/rendering/internal/renderer/markdown/MarkdownChainingRenderer.java:441-452 | each line after the header is as long as the row it is drawn from |
| MarkdownTables.TableLayout | syntax-markdown-markdown10/src/main/java/org/xwiki/rendering/internal/renderer/markdown/MarkdownChainingRenderer.java:414-455 | with the computed sizes a table has one line per row plus the separator; the separator is as long as the header; every line's length follows from its row's cell count, and full rows all have the same width |
| MarkdownTables.LayoutWithSizes | syntax-markdown-markdown10/src/main/java/org/xwiki/rendering/internal/renderer/markdown/MarkdownChainingRenderer.java:441-476 | the same layout for any column sizes the rows fit |
| ChainingRenderer.AttributeValue | syntax-markdown-markdown10/src/main/java/org/xwiki/rendering/internal/renderer/markdown/MarkdownChainingRenderer.java:535 | an attribute value is found exactly when an attribute has that name, and it is that attribute's value |
| ChainingRenderer.TitleText | syntax-markdown-markdown10/src/main/java/org/xwiki/rendering/internal/renderer/markdown/MarkdownChainingRenderer.java:535 | the recorded expansion is the value of a `title` attribute, or `null` when the element has no `title` attribute |
| ChainingRenderer.EmptyLine | syntax-markdown-markdown10/src/main/java/org/xwiki/rendering/internal/renderer/markdown/MarkdownChainingRenderer.java:660-667 | the separator is empty exactly before the first element |
| ChainingRenderer.WithCell | syntax-markdown-markdown10/src/main/java/org/xwiki/rendering/internal/renderer/markdown/MarkdownChainingRenderer.java:491-492 | adding a cell leaves every table and every row unchanged except the last row of the last table, which gains exactly that cell at its end |
| ChainingRenderer.MarkdownChainingRenderer.constructor | syntax-markdown-markdown10/src/main/java/org/xwiki/rendering/internal/renderer/markdown/MarkdownChainingRenderer.java:86-95 | keeps the two serializers; the state starts empty and the first-element flag unset |
| ChainingRenderer.MarkdownChainingRenderer.Print | syntax-markdown-markdown10/src/main/java/org/xwiki/rendering/internal/renderer/markdown/MarkdownChainingRenderer.java:623-626 | appends the text to the active printer |
| ChainingRenderer.MarkdownChainingRenderer.Println | syntax-markdown-markdown10/src/main/java/org/xwiki/rendering/internal/renderer/markdown/MarkdownChainingRenderer.java:628-631 | appends the text and a line feed |
| ChainingRenderer.MarkdownChainingRenderer.PrintEmptyLine | syntax-markdown-markdown10/src/main/java/org/xwiki/rendering/internal/renderer/markdown/MarkdownChainingRenderer.java:660-667 | prints nothing the first time and `\n\n` every later time; the flag is set afterwards and never reset |
| ChainingRenderer.MarkdownChainingRenderer.PushPrinter | syntax-markdown-markdown10/src/main/java/org/xwiki/rendering/internal/renderer/markdown/MarkdownChainingRenderer.java:203 | suspends the active printer and makes a new empty one active |
| ChainingRenderer.MarkdownChainingRenderer.PopPrinter | syntax-markdown-markdown10/src/main/java/org/xwiki/rendering/internal/renderer/markdown/MarkdownChainingRenderer.java:575-581 | drops the active printer and reactivates the one suspended last, unchanged |
| ChainingRenderer.MarkdownChainingRenderer.BeginDocument | syntax-markdown-markdown10/src/main/java/org/xwiki/rendering/internal/renderer/markdown/MarkdownChainingRenderer.java:98-101 | pushes an empty abbreviation map |
| ChainingRenderer.MarkdownChainingRenderer.EndDocument | syntax-markdown-markdown10/src/main/java/org/xwiki/rendering/internal/renderer/markdown/MarkdownChainingRenderer.java:104-119 | prints nothing for an empty map; otherwise the separator then the definition block; pops the map |
| ChainingRenderer.MarkdownChainingRenderer.PrintDefinitions | syntax-markdown-markdown10/src/main/java/org/xwiki/rendering/internal/renderer/markdown/MarkdownChainingRenderer.java:109-115 | the iteration prints exactly the definition lines joined by line feeds |
| ChainingRenderer.MarkdownChainingRenderer.BeginFormat | syntax-markdown-markdown10/src/main/java/org/xwiki/rendering/internal/renderer/markdown/MarkdownChainingRenderer.java:122-150 | prints the format's opening marker |
| ChainingRenderer.MarkdownChainingRenderer.EndFormat | syntax-markdown-markdown10/src/main/java/org/xwiki/rendering/internal/renderer/markdown/MarkdownChainingRenderer.java:153-181 | prints the format's closing marker |
| ChainingRenderer.MarkdownChainingRenderer.OnHorizontalLine | syntax-markdown-markdown10/src/main/java/org/xwiki/rendering/internal/renderer/markdown/MarkdownChainingRenderer.java:184-188 | prints the separator then `---` |
| ChainingRenderer.MarkdownChainingRenderer.BeginParagraph | syntax-markdown-markdown10/src/main/java/org/xwiki/rendering/internal/renderer/markdown/MarkdownChainingRenderer.java:191-194 | prints the separator |
| ChainingRenderer.MarkdownChainingRenderer.BeginHeader | syntax-markdown-markdown10/src/main/java/org/xwiki/rendering/internal/renderer/markdown/MarkdownChainingRenderer.java:197-204 | prints the separator and, above level 2, the opening fence, then suspends that printer under a new empty one |
| ChainingRenderer.MarkdownChainingRenderer.EndHeader | syntax-markdown-markdown10/src/main/java/org/xwiki/rendering/internal/renderer/markdown/MarkdownChainingRenderer.java:207-223 | pops the heading printer and prints its text with the level's underline or closing fence |
| ChainingRenderer.MarkdownChainingRenderer.BeginList | syntax-markdown-markdown10/src/main/java/org/xwiki/rendering/internal/renderer/markdown/MarkdownChainingRenderer.java:226-239 | prints the separator for an outermost list and a line feed for a nested one; pushes exactly one marker |
| ChainingRenderer.MarkdownChainingRenderer.EndList | syntax-markdown-markdown10/src/main/java/org/xwiki/rendering/internal/renderer/markdown/MarkdownChainingRenderer.java:242-248 | pops the marker, restoring the stack `BeginList` extended |
| ChainingRenderer.MarkdownChainingRenderer.BeginListItem | syntax-markdown-markdown10/src/main/java/org/xwiki/rendering/internal/renderer/markdown/MarkdownChainingRenderer.java:251-263 | prints the item prefix for the top marker; by the marker invariant the printed text then ends with `* ` for a bulleted list and `1. ` otherwise |
| ChainingRenderer.MarkdownChainingRenderer.BeginDefinitionDescription | syntax-markdown-markdown10/src/main/java/org/xwiki/rendering/internal/renderer/markdown/MarkdownChainingRenderer.java:266-273 | prints the description prefix |
| ChainingRenderer.MarkdownChainingRenderer.BeginDefinitionTerm | syntax-markdown-markdown10/src/main/java/org/xwiki/rendering/internal/renderer/markdown/MarkdownChainingRenderer.java:276-280 | prints the separator then 4×(depth−1) spaces |
| ChainingRenderer.MarkdownChainingRenderer.EndDefinitionDescription | syntax-markdown-markdown10/src/main/java/org/xwiki/rendering/internal/renderer/markdown/MarkdownChainingRenderer.java:283-286 | flushing prints nothing |
| ChainingRenderer.MarkdownChainingRenderer.EndDefinitionTerm | syntax-markdown-markdown10/src/main/java/org/xwiki/rendering/internal/renderer/markdown/MarkdownChainingRenderer.java:289-292 | flushing prints nothing |
| ChainingRenderer.MarkdownChainingRenderer.BeginQuotation | syntax-markdown-markdown10/src/main/java/org/xwiki/rendering/internal/renderer/markdown/MarkdownChainingRenderer.java:295-301 | prints the separator unless inside a quotation line; records the quotation depth |
| ChainingRenderer.MarkdownChainingRenderer.BeginQuotationLine | syntax-markdown-markdown10/src/main/java/org/xwiki/rendering/internal/renderer/markdown/MarkdownChainingRenderer.java:304-316 | prints the quotation line prefix for the recorded and current depths |
| ChainingRenderer.MarkdownChainingRenderer.EndQuotationLine | syntax-markdown-markdown10/src/main/java/org/xwiki/rendering/internal/renderer/markdown/MarkdownChainingRenderer.java:319-322 | flushing prints nothing |
| ChainingRenderer.MarkdownChainingRenderer.BeginLink | syntax-markdown-markdown10/src/main/java/org/xwiki/rendering/internal/renderer/markdown/MarkdownChainingRenderer.java:325-334 | suspends the active printer under a new empty one for the label |
| ChainingRenderer.MarkdownChainingRenderer.EndLink | syntax-markdown-markdown10/src/main/java/org/xwiki/rendering/internal/renderer/markdown/MarkdownChainingRenderer.java:337-352 | pops the label printer and prints the link form for that label, with the target serialized by the image serializer |
| ChainingRenderer.MarkdownChainingRenderer.OnImage | syntax-markdown-markdown10/src/main/java/org/xwiki/rendering/internal/renderer/markdown/MarkdownChainingRenderer.java:355-363 | prints `![ALT](REF)` with the alt text falling back to the reference |
| ChainingRenderer.MarkdownChainingRenderer.OnSpace | syntax-markdown-markdown10/src/main/java/org/xwiki/rendering/internal/renderer/markdown/MarkdownChainingRenderer.java:366-369 | prints one space |
| ChainingRenderer.MarkdownChainingRenderer.OnNewLine | syntax-markdown-markdown10/src/main/java/org/xwiki/rendering/internal/renderer/markdown/MarkdownChainingRenderer.java:372-376 | prints two spaces and a line feed |
| ChainingRenderer.MarkdownChainingRenderer.OnWord | syntax-markdown-markdown10/src/main/java/org/xwiki/rendering/internal/renderer/markdown/MarkdownChainingRenderer.java:379-382 | prints the word |
| ChainingRenderer.MarkdownChainingRenderer.OnSpecialSymbol | syntax-markdown-markdown10/src/main/java/org/xwiki/rendering/internal/renderer/markdown/MarkdownChainingRenderer.java:385-404 | prints the symbol's ASCII spelling |
| ChainingRenderer.MarkdownChainingRenderer.BeginTable | syntax-markdown-markdown10/src/main/java/org/xwiki/rendering/internal/renderer/markdown/MarkdownChainingRenderer.java:407-411 | prints the separator and pushes an empty table |
| ChainingRenderer.MarkdownChainingRenderer.EndTable | syntax-markdown-markdown10/src/main/java/org/xwiki/rendering/internal/renderer/markdown/MarkdownChainingRenderer.java:414-455 | prints exactly the table text for the computed column sizes, then pops the table |
| ChainingRenderer.MarkdownChainingRenderer.PrintTableRow | syntax-markdown-markdown10/src/main/java/org/xwiki/rendering/internal/renderer/markdown/MarkdownChainingRenderer.java:457-476 | prints the opening bar and then every cell text of the row |
| ChainingRenderer.MarkdownChainingRenderer.PrintCell | syntax-markdown-markdown10/src/main/java/org/xwiki/rendering/internal/renderer/markdown/MarkdownChainingRenderer.java:460-474 | prints one cell: a space, the left pad, the text or its fill, the right pad, a space, a bar |
| ChainingRenderer.MarkdownChainingRenderer.BeginTableCell | syntax-markdown-markdown10/src/main/java/org/xwiki/rendering/internal/renderer/markdown/MarkdownChainingRenderer.java:479-482 | suspends the active printer under a new empty one for the cell |
| ChainingRenderer.MarkdownChainingRenderer.EndTableCell | syntax-markdown-markdown10/src/main/java/org/xwiki/rendering/internal/renderer/markdown/MarkdownChainingRenderer.java:485-493 | pops the cell printer and appends its text, as one cell, to the last row of the current table |
| ChainingRenderer.MarkdownChainingRenderer.BeginTableHeadCell | syntax-markdown-markdown10/src/main/java/org/xwiki/rendering/internal/renderer/markdown/MarkdownChainingRenderer.java:496-499 | the same as `BeginTableCell` |
| ChainingRenderer.MarkdownChainingRenderer.EndTableHeadCell | syntax-markdown-markdown10/src/main/java/org/xwiki/rendering/internal/renderer/markdown/MarkdownChainingRenderer.java:502-505 | the same as `EndTableCell` |
| ChainingRenderer.MarkdownChainingRenderer.BeginTableRow | syntax-markdown-markdown10/src/main/java/org/xwiki/rendering/internal/renderer/markdown/MarkdownChainingRenderer.java:508-511 | adds an empty row to the current table |
| ChainingRenderer.MarkdownChainingRenderer.OnRawText | syntax-markdown-markdown10/src/main/java/org/xwiki/rendering/internal/renderer/markdown/MarkdownChainingRenderer.java:514-524 | an abbreviation is recorded with its key printed; any other text is printed verbatim, after the separator when not inline |
| ChainingRenderer.MarkdownChainingRenderer.HandleAbbreviations | syntax-markdown-markdown10/src/main/java/org/xwiki/rendering/internal/renderer/markdown/MarkdownChainingRenderer.java:526-545 | handled exactly when inside a document, the text starts with `<abbr `, parses, and its root has exactly one attribute; then the root's text and title are put in the current map, so that the key now gives the title, and the key is printed; otherwise nothing changes |
| ChainingRenderer.MarkdownChainingRenderer.OnMacro | syntax-markdown-markdown10/src/main/java/org/xwiki/rendering/internal/renderer/markdown/MarkdownChainingRenderer.java:584-587 | prints what the code macro prints |
| ChainingRenderer.MarkdownChainingRenderer.HandleCodeMacro | syntax-markdown-markdown10/src/main/java/org/xwiki/rendering/internal/renderer/markdown/MarkdownChainingRenderer.java:589-621 | handled exactly for `code`; prints the inline, fenced or indented form, and nothing for another macro |
| ChainingRenderer.MarkdownChainingRenderer.PrintIndentedLines | syntax-markdown-markdown10/src/main/java/org/xwiki/rendering/internal/renderer/markdown/MarkdownChainingRenderer.java:608-613 | prints the lines, each after four spaces, joined by line feeds, with none after the last |

## Left out

- The escaping printer (`MarkdownEscapeWikiPrinter`) is not part of this model. Printing
  appends the text unescaped, and flushing prints nothing. So heading underlines and
  column widths are measured on the unescaped text. The line-start flag that `beginLink`
  hands to the label printer (lines 328-331) is not modelled.
- XML parsing of raw abbreviation markup (`SAXBuilder`) is a parameter of the renderer: a
  parser function returning the root element's text and attributes, or nothing on
  failure.
- The reference serializers are parameters of the renderer. The link and image resource
  renderers built in the constructor, and their getters and factories (lines 633-653),
  are never used by the events and are left out.
- The block-state tracker and listener chain are not part of this model. The values read
  from them become parameters of the events that read them: list depth, list item index,
  definition list depth and item index, quotation depth, quotation line index, "in
  quotation line" and "inline".
- `setPrinter`, `getMarkdownPrinter` and `createMarkdownPrinter` (lines 547-572) wrap the
  base printer in the escaping printer. They are covered by the `printer` field.
- String lengths are counted in Unicode characters, not UTF-16 code units. A heading or
  cell with characters outside the Basic Multilingual Plane is measured differently from
  Java's `length()`.
- Whitespace follows the Unicode tables of Java 9 and later. Under Java 8, U+180E
  (Mongolian vowel separator) is whitespace as well, so a blank alt text could also be
  made of it.
- HandleCodeMacro and OnMacro take the content as a text and do not model a null content.
  In Java an inline `code` macro without content prints `` `null` `` (line 597), the fenced
  form hands the null content to the printer (line 604), and the indented form throws
  `NullPointerException` at `content.split` (line 607), which nothing catches.
- Null map values, other than a missing `title` attribute, are not modelled. Parameters
  without the key are absent from the map.
- A missing table, list or document scope (calling `peek` or `pop` on an empty stack
  outside the exception handler) is a precondition of the methods, not a modelled
  exception. So are two more conditions: `EndTableCell` and `EndTableHeadCell` require
  the current table to have a row (otherwise line 491 calls `get(-1)` and throws
  `IndexOutOfBoundsException`), and `PopPrinter`, `EndHeader`, `EndLink`,
  `EndTableCell` and `EndTableHeadCell` require a suspended printer (the base class's
  printer stack is not empty).
- syntax-markdown-markdown10/src/main/java/org/xwiki/rendering/internal/parser/markdown/AbstractFormattingPegdownVisitor.java
  is not part of this model. It maps pegdown strong and emphasis nodes to formats.
- syntax-markdown-markdown12/src/main/java/org/xwiki/contrib/rendering/markdown/markdown12/internal/parser/Markdown12StreamParser.java
  is not part of this model. It only registers a parser component.
