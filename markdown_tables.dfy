/**
 * Tables: the rows of cell texts the renderer accumulates, the column widths endTable
 * computes from them, and the text of each rendered row.
 */
module MarkdownTables {
  import opened JavaText

  /** One table row: the rendered text of its cells, left to right. */
  type Row = seq<string>

  function Max(a: int, b: int): int
  {
    if a < b then b else a
  }

  /** The number of columns: the length of the longest row, none for a table without rows. */
  function MaxRowLength(rows: seq<Row>): (n: nat)
    ensures forall r :: 0 <= r < |rows| ==> |rows[r]| <= n
    decreases |rows|
  {
    if |rows| == 0 then 0
    else
      var init := rows[..|rows| - 1];
      assert forall r :: 0 <= r < |init| ==> init[r] == rows[r];
      Max(MaxRowLength(init), |rows[|rows| - 1]|)
  }

  /** The width of column `j`: the length of the longest cell `j` among the rows that
      have one, and -1 when no row does. */
  function ColumnWidth(rows: seq<Row>, j: nat): int
    decreases |rows|
  {
    if |rows| == 0 then -1
    else
      var last := rows[|rows| - 1];
      Max(ColumnWidth(rows[..|rows| - 1], j), if j < |last| then |last[j]| else -1)
  }

  /** The width of every column, in column order. */
  function ColumnSizes(rows: seq<Row>): seq<int>
  {
    seq(MaxRowLength(rows), j requires 0 <= j => ColumnWidth(rows, j))
  }

  /** The column count is the length of the longest row: no row is longer, and one row has
      that length. */
  lemma {:induction false} MaxRowLengthIsMax(rows: seq<Row>)
    ensures forall r :: 0 <= r < |rows| ==> |rows[r]| <= MaxRowLength(rows)
    ensures |rows| > 0 ==> exists r :: 0 <= r < |rows| && |rows[r]| == MaxRowLength(rows)
    decreases |rows|
  {
    if |rows| > 0 {
      var init := rows[..|rows| - 1];
      MaxRowLengthIsMax(init);
      assert forall r :: 0 <= r < |init| ==> init[r] == rows[r];
      if |init| > 0 && MaxRowLength(init) >= |rows[|rows| - 1]| {
        var r :| 0 <= r < |init| && |init[r]| == MaxRowLength(init);
        assert |rows[r]| == MaxRowLength(rows);
      } else {
        assert |rows[|rows| - 1]| == MaxRowLength(rows);
      }
    }
  }

  /** A column's width is the length of its longest cell: no cell of the column is longer,
      and the longest is reached by some row; it is -1 exactly when no row has the column. */
  lemma {:induction false} ColumnWidthIsMax(rows: seq<Row>, j: nat)
    ensures forall r :: 0 <= r < |rows| && j < |rows[r]| ==> |rows[r][j]| <= ColumnWidth(rows, j)
    ensures ColumnWidth(rows, j) == -1 <==> forall r :: 0 <= r < |rows| ==> |rows[r]| <= j
    ensures ColumnWidth(rows, j) != -1 ==>
      exists r :: 0 <= r < |rows| && j < |rows[r]| && |rows[r][j]| == ColumnWidth(rows, j)
    decreases |rows|
  {
    if |rows| > 0 {
      var init := rows[..|rows| - 1];
      ColumnWidthIsMax(init, j);
      assert forall r :: 0 <= r < |init| ==> init[r] == rows[r];
      if ColumnWidth(init, j) != -1 && ColumnWidth(rows, j) == ColumnWidth(init, j) {
        var r :| 0 <= r < |init| && j < |init[r]| && |init[r][j]| == ColumnWidth(init, j);
        assert j < |rows[r]| && |rows[r][j]| == ColumnWidth(rows, j);
      }
    }
  }

  /**
   * The column sizes endTable works with: one entry per column of the longest row, and
   * entry j is the length of the longest cell j over the rows that have a column j.
   */
  lemma ColumnSizesAreMaxima(rows: seq<Row>)
    ensures var sizes := ColumnSizes(rows);
      && (forall r :: 0 <= r < |rows| ==> |rows[r]| <= |sizes|)
      && (|rows| > 0 ==> exists r :: 0 <= r < |rows| && |rows[r]| == |sizes|)
      && (forall r, j :: 0 <= r < |rows| && 0 <= j < |rows[r]| ==> |rows[r][j]| <= sizes[j])
      && (forall j :: 0 <= j < |sizes| ==>
            exists r :: 0 <= r < |rows| && j < |rows[r]| && |rows[r][j]| == sizes[j])
  {
    var sizes := ColumnSizes(rows);
    MaxRowLengthIsMax(rows);
    forall j | 0 <= j < |sizes|
      ensures forall r :: 0 <= r < |rows| && j < |rows[r]| ==> |rows[r][j]| <= sizes[j]
      ensures exists r :: 0 <= r < |rows| && j < |rows[r]| && |rows[r][j]| == sizes[j]
    {
      ColumnWidthIsMax(rows, j);
      var r :| 0 <= r < |rows| && |rows[r]| == MaxRowLength(rows);
      assert j < |rows[r]|;
    }
  }

  /** Every cell fits its column. */
  predicate FitsColumns(cells: Row, sizes: seq<int>)
  {
    |cells| <= |sizes| && forall j :: 0 <= j < |cells| ==> |cells[j]| <= sizes[j]
  }

  lemma RowsFitColumnSizes(rows: seq<Row>)
    ensures forall r :: 0 <= r < |rows| ==> FitsColumns(rows[r], ColumnSizes(rows))
  {
    ColumnSizesAreMaxima(rows);
  }

  /**
   * The loops of endTable that compute the column sizes: first the largest row length
   * (starting from -1), then one entry of -1 per column, then every cell of every row
   * raises the entry of its column to its length.
   */
  method MaxColumnSizes(rows: seq<Row>) returns (sizes: seq<int>)
    ensures sizes == ColumnSizes(rows)
  {
    var maxColumns := MaxColumns(rows);
    sizes := [];
    var i := 0;
    while i < maxColumns
      invariant 0 <= i <= Max(maxColumns, 0)
      invariant |sizes| == i && forall j :: 0 <= j < i ==> sizes[j] == -1
    {
      sizes := sizes + [-1];
      i := i + 1;
    }
    ghost var columns := MaxRowLength(rows);
    if |rows| == 0 {
      assert columns == 0;
      assert |sizes| == columns;
    } else {
      assert i == maxColumns;
      assert |sizes| == columns;
    }
    MaxRowLengthIsMax(rows);
    var r := 0;
    while r < |rows|
      invariant 0 <= r <= |rows|
      invariant |sizes| == columns
      invariant forall j :: 0 <= j < columns ==> sizes[j] == ColumnWidth(rows[..r], j)
    {
      var row := rows[r];
      i := 0;
      while i < |row|
        invariant 0 <= i <= |row| <= columns
        invariant |sizes| == columns
        invariant forall j :: 0 <= j < i ==> sizes[j] == ColumnWidth(rows[..r + 1], j)
        invariant forall j :: i <= j < columns ==> sizes[j] == ColumnWidth(rows[..r], j)
      {
        ColumnWidthStep(rows, r, i);
        if |row[i]| > sizes[i] {
          sizes := sizes[i := |row[i]|];
        }
        i := i + 1;
      }
      forall j | |row| <= j < columns ensures sizes[j] == ColumnWidth(rows[..r + 1], j) {
        ColumnWidthStep(rows, r, j);
      }
      r := r + 1;
    }
    assert rows[..|rows|] == rows;
  }

  /** The first loop of endTable: the largest row length, starting from -1. */
  method MaxColumns(rows: seq<Row>) returns (maxColumns: int)
    ensures maxColumns == if |rows| == 0 then -1 else MaxRowLength(rows)
  {
    maxColumns := -1;
    var r := 0;
    while r < |rows|
      invariant 0 <= r <= |rows|
      invariant maxColumns == if r == 0 then -1 else MaxRowLength(rows[..r])
    {
      assert rows[..r + 1][..r] == rows[..r];
      if |rows[r]| > maxColumns {
        maxColumns := |rows[r]|;
      }
      r := r + 1;
    }
    assert rows[..|rows|] == rows;
  }

  /** Taking one more row into account raises a column's width to that row's cell. */
  lemma ColumnWidthStep(rows: seq<Row>, r: nat, j: nat)
    requires r < |rows|
    ensures ColumnWidth(rows[..r + 1], j)
      == Max(ColumnWidth(rows[..r], j), if j < |rows[r]| then |rows[r][j]| else -1)
  {
    assert rows[..r + 1][..r] == rows[..r];
    assert rows[..r + 1][r] == rows[r];
  }

  /** Java's `x / 2` on an int: the quotient truncated toward zero. */
  function JavaHalf(x: int): (r: int)
    ensures x >= 0 ==> 0 <= x - 2 * r <= 1
    ensures x < 0 ==> -1 <= x - 2 * r <= 0
  {
    if x >= 0 then x / 2 else -((-x) / 2)
  }

  /** The padding printTableRow puts before a cell: half the free room, rounded down. */
  function LeftPad(size: int, len: nat): int
  {
    JavaHalf(size - len)
  }

  /** The padding after a cell: the rest of the free room. */
  function RightPad(size: int, len: nat): int
  {
    size - len - LeftPad(size, len)
  }

  /** One cell of a row: a space, the padding, the text (or, in the separator row, as many
      fill characters), the remaining padding, a space and the closing bar. */
  function CellText(cell: string, fill: char, printCellText: bool, size: int): string
  {
    CellOpen(fill, LeftPad(size, |cell|))
    + (if printCellText then cell else RepeatChar(fill, |cell|))
    + CellClose(fill, RightPad(size, |cell|))
  }

  /** What comes before the text of a cell: a space and the padding. */
  function CellOpen(fill: char, pad: int): string
  {
    " " + RepeatChar(fill, pad)
  }

  /** What comes after the text of a cell: the padding, a space and the closing bar. */
  function CellClose(fill: char, pad: int): string
  {
    RepeatChar(fill, pad) + " " + "|"
  }

  /** The text of every cell of a row, in column order. */
  function CellTexts(cells: Row, fill: char, printCellText: bool, sizes: seq<int>): (r: seq<string>)
    requires |cells| <= |sizes|
    ensures |r| == |cells|
    ensures forall j :: 0 <= j < |r| ==> r[j] == CellText(cells[j], fill, printCellText, sizes[j])
    decreases |cells|
  {
    if |cells| == 0 then []
    else
      var init := cells[..|cells| - 1];
      CellTexts(init, fill, printCellText, sizes) + [CellText(cells[|cells| - 1], fill, printCellText, sizes[|cells| - 1])]
  }

  /** The first `k` parts, one after the other. */
  function Concat(parts: seq<string>, k: nat): string
    requires k <= |parts|
    decreases k
  {
    if k == 0 then "" else Concat(parts, k - 1) + parts[k - 1]
  }

  /** printTableRow: the opening bar, then every cell of the row. */
  function RowText(cells: Row, fill: char, printCellText: bool, sizes: seq<int>): string
    requires |cells| <= |sizes|
  {
    "|" + Concat(CellTexts(cells, fill, printCellText, sizes), |cells|)
  }

  /** The position just past the bar that closes column `k - 1`: one bar, then every
      column takes its width plus two spaces plus its closing bar. */
  function RowWidth(sizes: seq<int>, k: nat): int
    requires k <= |sizes|
    decreases k
  {
    if k == 0 then 1 else RowWidth(sizes, k - 1) + sizes[k - 1] + 3
  }

  /** One more part behind the text printed before the parts. */
  lemma ConcatStep(base: string, parts: seq<string>, k: nat)
    requires k < |parts|
    ensures base + Concat(parts, k + 1) == base + Concat(parts, k) + parts[k]
  {
    AppendAssoc(base, Concat(parts, k), parts[k]);
  }

  lemma {:induction false} ConcatPrefix(parts: seq<string>, k: nat, n: nat)
    requires k <= n <= |parts|
    ensures Concat(parts, k) <= Concat(parts, n)
    decreases n
  {
    if k < n {
      ConcatPrefix(parts, k, n - 1);
      PrefixConcat(Concat(parts, k), Concat(parts, n - 1), parts[n - 1]);
    }
  }

  lemma PrefixConcat(p: string, a: string, b: string)
    requires p <= a
    ensures p <= a + b
  {
  }

  lemma PrefixBehindBar(p: string, s: string)
    requires p <= s
    ensures "|" + p <= "|" + s
  {
    assert forall i :: 0 <= i < |p| ==> ("|" + p)[i + 1] == p[i] && ("|" + s)[i + 1] == s[i];
  }

  /** Parts of a column's width plus three characters add up to the row width. */
  lemma {:induction false} ConcatWidth(parts: seq<string>, sizes: seq<int>, k: nat)
    requires k <= |parts| <= |sizes|
    requires forall j :: 0 <= j < |parts| ==> |parts[j]| == sizes[j] + 3
    ensures |Concat(parts, k)| == RowWidth(sizes, k) - 1
    decreases k
  {
    if k > 0 {
      ConcatWidth(parts, sizes, k - 1);
    }
  }

  /** After the opening bar, parts that each end with a bar leave a bar at the end. */
  lemma ConcatEndsWithBar(parts: seq<string>, k: nat)
    requires k <= |parts|
    requires forall j :: 0 <= j < |parts| ==> |parts[j]| > 0 && parts[j][|parts[j]| - 1] == '|'
    ensures var p := "|" + Concat(parts, k); p[|p| - 1] == '|'
  {
    if k > 0 {
      var last := parts[k - 1];
      assert ("|" + Concat(parts, k - 1)) + last == "|" + Concat(parts, k);
      assert ("|" + Concat(parts, k))[|"|" + Concat(parts, k)| - 1] == last[|last| - 1];
    }
  }

  /** Parts of the same lengths make texts of the same length. */
  lemma {:induction false} ConcatSameLength(a: seq<string>, b: seq<string>, k: nat)
    requires k <= |a| == |b|
    requires forall j :: 0 <= j < |a| ==> |a[j]| == |b[j]|
    ensures |Concat(a, k)| == |Concat(b, k)|
    decreases k
  {
    if k > 0 {
      ConcatSameLength(a, b, k - 1);
    }
  }

  lemma {:induction false} ConcatSeparatorOnly(parts: seq<string>, k: nat)
    requires k <= |parts|
    requires forall j :: 0 <= j < |parts| ==> SeparatorOnly(parts[j])
    ensures SeparatorOnly(Concat(parts, k))
    decreases k
  {
    if k > 0 {
      ConcatSeparatorOnly(parts, k - 1);
      SeparatorOnlyConcat(Concat(parts, k - 1), parts[k - 1]);
    }
  }

  /**
   * A cell that fits its column is split evenly: the two paddings differ by at most one,
   * the larger after the text, and the cell takes its column width plus two spaces
   * between the bars.
   */
  lemma CellLayout(cell: string, fill: char, printCellText: bool, size: int)
    requires |cell| <= size
    ensures LeftPad(size, |cell|) == (size - |cell|) / 2
    ensures 0 <= LeftPad(size, |cell|) <= RightPad(size, |cell|) <= LeftPad(size, |cell|) + 1
    ensures |CellText(cell, fill, printCellText, size)| == size + 3
    ensures CellText(cell, fill, printCellText, size)[size + 2] == '|'
  {
  }

  /** How long a cell is does not depend on the fill character or on whether its text is
      shown. */
  lemma CellLength(cell: string, fill: char, printCellText: bool, size: int)
    ensures |CellText(cell, fill, printCellText, size)| == |CellText(cell, ' ', true, size)|
  {
  }

  /**
   * Rows are aligned: in a row whose cells fit the column widths, the bar that closes
   * column k - 1 stands at position `RowWidth(sizes, k) - 1`, the same in every row, and
   * the row is exactly `RowWidth(sizes, |cells|)` characters long.
   */
  lemma RowBars(cells: Row, fill: char, printCellText: bool, sizes: seq<int>, k: nat)
    requires FitsColumns(cells, sizes)
    requires k <= |cells|
    ensures |RowText(cells, fill, printCellText, sizes)| == RowWidth(sizes, |cells|)
    ensures 1 <= RowWidth(sizes, k) <= RowWidth(sizes, |cells|)
    ensures RowText(cells, fill, printCellText, sizes)[RowWidth(sizes, k) - 1] == '|'
  {
    var texts := CellTexts(cells, fill, printCellText, sizes);
    CellTextsLayout(cells, fill, printCellText, sizes);
    BarLayout(texts, sizes, k);
  }

  /** RowBars for any parts that each take their column's width plus three characters
      and end with a bar. */
  lemma BarLayout(parts: seq<string>, sizes: seq<int>, k: nat)
    requires k <= |parts| <= |sizes|
    requires forall j :: 0 <= j < |parts| ==> 0 <= sizes[j] && |parts[j]| == sizes[j] + 3 && parts[j][|parts[j]| - 1] == '|'
    ensures |"|" + Concat(parts, |parts|)| == RowWidth(sizes, |parts|)
    ensures 1 <= RowWidth(sizes, k) <= RowWidth(sizes, |parts|)
    ensures ("|" + Concat(parts, |parts|))[RowWidth(sizes, k) - 1] == '|'
  {
    ConcatWidth(parts, sizes, |parts|);
    ConcatWidth(parts, sizes, k);
    ConcatPrefix(parts, k, |parts|);
    ConcatEndsWithBar(parts, k);
    PrefixBehindBar(Concat(parts, k), Concat(parts, |parts|));
    var t := "|" + Concat(parts, |parts|);
    var p := "|" + Concat(parts, k);
    assert t[|p| - 1] == p[|p| - 1];
  }

  /** Every cell of a row that fits takes its column's width plus three characters and
      ends with a bar. */
  lemma CellTextsLayout(cells: Row, fill: char, printCellText: bool, sizes: seq<int>)
    requires FitsColumns(cells, sizes)
    ensures var texts := CellTexts(cells, fill, printCellText, sizes);
      forall j :: 0 <= j < |texts| ==> 0 <= sizes[j] && |texts[j]| == sizes[j] + 3 && texts[j][|texts[j]| - 1] == '|'
  {
    var texts := CellTexts(cells, fill, printCellText, sizes);
    forall j | 0 <= j < |texts|
      ensures 0 <= sizes[j] && |texts[j]| == sizes[j] + 3 && texts[j][|texts[j]| - 1] == '|'
    {
      CellLayout(cells[j], fill, printCellText, sizes[j]);
    }
  }

  /** The separator row has exactly the length of the row it is drawn from, whatever the
      cells hold. */
  lemma SeparatorMatchesRow(cells: Row, sizes: seq<int>)
    requires |cells| <= |sizes|
    ensures |RowText(cells, '-', false, sizes)| == |RowText(cells, ' ', true, sizes)|
  {
    var separator := CellTexts(cells, '-', false, sizes);
    var row := CellTexts(cells, ' ', true, sizes);
    forall j | 0 <= j < |cells| ensures |separator[j]| == |row[j]| {
      CellLength(cells[j], '-', false, sizes[j]);
    }
    ConcatSameLength(separator, row, |cells|);
  }

  /** The separator row is made of bars, spaces and dashes only. */
  lemma SeparatorCharacters(cells: Row, sizes: seq<int>)
    requires |cells| <= |sizes|
    ensures SeparatorOnly(RowText(cells, '-', false, sizes))
  {
    var separator := CellTexts(cells, '-', false, sizes);
    forall j | 0 <= j < |cells| ensures SeparatorOnly(separator[j]) {
      SeparatorCell(cells[j], sizes[j]);
    }
    ConcatSeparatorOnly(separator, |cells|);
    SeparatorOnlyConcat("|", Concat(separator, |cells|));
  }

  /** Only bars, spaces and dashes. */
  predicate SeparatorOnly(s: string)
  {
    forall i :: 0 <= i < |s| ==> s[i] == '|' || s[i] == ' ' || s[i] == '-'
  }

  lemma SeparatorOnlyConcat(a: string, b: string)
    requires SeparatorOnly(a) && SeparatorOnly(b)
    ensures SeparatorOnly(a + b)
  {
    forall i | 0 <= i < |a + b| ensures (a + b)[i] == '|' || (a + b)[i] == ' ' || (a + b)[i] == '-' {
      if i >= |a| {
        assert (a + b)[i] == b[i - |a|];
      }
    }
  }

  lemma SeparatorCell(cell: string, size: int)
    ensures SeparatorOnly(CellText(cell, '-', false, size))
  {
    var a := RepeatChar('-', LeftPad(size, |cell|));
    var t := RepeatChar('-', |cell|);
    var b := RepeatChar('-', RightPad(size, |cell|));
    RepeatCharAll('-', LeftPad(size, |cell|));
    RepeatCharAll('-', |cell|);
    RepeatCharAll('-', RightPad(size, |cell|));
    SeparatorOnlyConcat(" ", a);
    SeparatorOnlyConcat(b, " ");
    SeparatorOnlyConcat(b + " ", "|");
    var open, close := CellOpen('-', LeftPad(size, |cell|)), CellClose('-', RightPad(size, |cell|));
    SeparatorOnlyConcat(open, t);
    SeparatorOnlyConcat(open + t, close);
  }

  /** The lines endTable prints for the first `n` rows: the first row, the separator
      drawn from it, then the other rows in order. */
  function TableLinesUpTo(rows: seq<Row>, sizes: seq<int>, n: nat): (r: seq<string>)
    requires n <= |rows|
    requires forall i :: 0 <= i < |rows| ==> |rows[i]| <= |sizes|
    ensures |r| == if n == 0 then 0 else n + 1
    decreases n
  {
    if n == 0 then []
    else if n == 1 then [RowText(rows[0], ' ', true, sizes), RowText(rows[0], '-', false, sizes)]
    else TableLinesUpTo(rows, sizes, n - 1) + [RowText(rows[n - 1], ' ', true, sizes)]
  }

  /** The lines of the whole table. */
  function TableLines(rows: seq<Row>, sizes: seq<int>): (r: seq<string>)
    requires forall i :: 0 <= i < |rows| ==> |rows[i]| <= |sizes|
    ensures |r| == if |rows| == 0 then 0 else |rows| + 1
  {
    TableLinesUpTo(rows, sizes, |rows|)
  }

  /** The text of the first `n` rows: their lines joined by line feeds. */
  function TableTextUpTo(rows: seq<Row>, sizes: seq<int>, n: nat): string
    requires n <= |rows|
    requires forall i :: 0 <= i < |rows| ==> |rows[i]| <= |sizes|
  {
    Join(TableLinesUpTo(rows, sizes, n), "\n")
  }

  /** The whole table: its lines joined by line feeds, none after the last. */
  function TableText(rows: seq<Row>, sizes: seq<int>): string
    requires forall i :: 0 <= i < |rows| ==> |rows[i]| <= |sizes|
  {
    TableTextUpTo(rows, sizes, |rows|)
  }

  /** What printing row `i` adds to the table text after what was printed before it:
      the header row and its separator line for the first row, a line feed and the row
      for every later one. */
  lemma TableTextStep(base: string, rows: seq<Row>, sizes: seq<int>, i: nat)
    requires i < |rows|
    requires forall r :: 0 <= r < |rows| ==> |rows[r]| <= |sizes|
    ensures i == 0 ==> (base + TableTextUpTo(rows, sizes, 1)
      == base + RowText(rows[0], ' ', true, sizes) + "\n" + RowText(rows[0], '-', false, sizes))
    ensures i > 0 ==> (base + TableTextUpTo(rows, sizes, i + 1)
      == base + TableTextUpTo(rows, sizes, i) + "\n" + RowText(rows[i], ' ', true, sizes))
  {
    if i == 0 {
      var header := RowText(rows[0], ' ', true, sizes);
      var separator := RowText(rows[0], '-', false, sizes);
      assert Join([header, separator], "\n") == header + "\n" + separator;
      AppendAssoc(base, header + "\n", separator);
      AppendAssoc(base, header, "\n");
    } else {
      var row := RowText(rows[i], ' ', true, sizes);
      JoinSnoc(TableLinesUpTo(rows, sizes, i), "\n", row);
      AppendAssoc(base, TableTextUpTo(rows, sizes, i) + "\n", row);
      AppendAssoc(base, TableTextUpTo(rows, sizes, i), "\n");
    }
  }

  /** The length of a row line, as RowBars states it. */
  lemma RowWidthOfRow(cells: Row, sizes: seq<int>)
    requires FitsColumns(cells, sizes)
    ensures |RowText(cells, ' ', true, sizes)| == RowWidth(sizes, |cells|)
  {
    RowBars(cells, ' ', true, sizes, 0);
  }

  /**
   * The table output: with the computed column sizes every line of the table is as long
   * as its row's cells allow, the separator line has the header row's length, and a row
   * with as many cells as the widest row has the full table width.
   */
  lemma TableLayout(rows: seq<Row>)
    requires |rows| > 0
    ensures var sizes := ColumnSizes(rows);
      var lines := TableLines(rows, sizes);
      && |lines| == |rows| + 1
      && |lines[1]| == |lines[0]|
      && (forall i :: 1 <= i < |lines| ==> |lines[i]| == RowWidth(sizes, |rows[i - 1]|))
      && (forall i :: 1 <= i < |lines| && |rows[i - 1]| == |sizes| ==> |lines[i]| == RowWidth(sizes, |sizes|))
  {
    RowsFitColumnSizes(rows);
    LayoutWithSizes(rows, ColumnSizes(rows));
  }

  /** TableLayout for any column sizes the rows fit in. */
  lemma LayoutWithSizes(rows: seq<Row>, sizes: seq<int>)
    requires |rows| > 0
    requires forall r :: 0 <= r < |rows| ==> |rows[r]| <= |sizes| && FitsColumns(rows[r], sizes)
    ensures var lines := TableLines(rows, sizes);
      && |lines| == |rows| + 1
      && |lines[1]| == |lines[0]|
      && (forall i :: 1 <= i < |lines| ==> |lines[i]| == RowWidth(sizes, |rows[i - 1]|))
  {
    var lines := TableLines(rows, sizes);
    TableLineAt(rows, sizes, |rows|, 0);
    TableLineAt(rows, sizes, |rows|, 1);
    SeparatorMatchesRow(rows[0], sizes);
    forall i | 1 <= i < |lines| ensures |lines[i]| == RowWidth(sizes, |rows[i - 1]|) {
      TableLineWidth(rows, sizes, i);
    }
  }

  /** Line `i` of the table, past the header, is as long as the row it is drawn from. */
  lemma TableLineWidth(rows: seq<Row>, sizes: seq<int>, i: nat)
    requires 1 <= i <= |rows|
    requires forall r :: 0 <= r < |rows| ==> |rows[r]| <= |sizes|
    requires FitsColumns(rows[i - 1], sizes)
    ensures |TableLines(rows, sizes)[i]| == RowWidth(sizes, |rows[i - 1]|)
  {
    TableLineAt(rows, sizes, |rows|, i);
    if i == 1 {
      SeparatorMatchesRow(rows[0], sizes);
    }
    RowWidthOfRow(rows[i - 1], sizes);
  }

  /** Line `i` of a table: the header row, the separator drawn from it, or row `i - 1`. */
  function TableLine(rows: seq<Row>, sizes: seq<int>, i: nat): string
    requires i <= |rows| && 0 < |rows|
    requires forall r :: 0 <= r < |rows| ==> |rows[r]| <= |sizes|
  {
    if i == 0 then RowText(rows[0], ' ', true, sizes)
    else if i == 1 then RowText(rows[0], '-', false, sizes)
    else RowText(rows[i - 1], ' ', true, sizes)
  }

  /** The lines printed for the first `n` rows are the table's lines, in order. */
  lemma {:induction false} TableLineAt(rows: seq<Row>, sizes: seq<int>, n: nat, i: nat)
    requires 1 <= n <= |rows| && i <= n
    requires forall r :: 0 <= r < |rows| ==> |rows[r]| <= |sizes|
    ensures TableLinesUpTo(rows, sizes, n)[i] == TableLine(rows, sizes, i)
    decreases n
  {
    if n > 1 && i < n {
      TableLinesKeep(rows, sizes, n, i);
      TableLineAt(rows, sizes, n - 1, i);
    }
  }

  /** Printing one more row leaves the lines already printed as they were. */
  lemma TableLinesKeep(rows: seq<Row>, sizes: seq<int>, n: nat, i: nat)
    requires 2 <= n <= |rows| && i < n
    requires forall r :: 0 <= r < |rows| ==> |rows[r]| <= |sizes|
    ensures TableLinesUpTo(rows, sizes, n)[i] == TableLinesUpTo(rows, sizes, n - 1)[i]
  {
  }
}
