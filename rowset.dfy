/** The fixed-width grid renderer `renderRowSet` (rsformat.js:236-257):
    a count banner, a header line, a dash separator and one line per
    record; each field is right-padded to its column's width and the
    whole text is escaped once when embedded in markup. */
module RowSet {
  import opened Text
  import opened Values
  import opened Escaping

  /** The width of column `col`: the longest of its name and of every
      value shown in it (see ColumnWidthIsMaximum). */
  function ColumnWidth(col: string, data: Dataset): nat
    decreases |data|
  {
    if data == [] then |col|
    else
      var w0 := ColumnWidth(col, data[..|data| - 1]);
      var len := |FieldText(data[|data| - 1], col)|;
      if len > w0 then len else w0
  }

  /** The column width is the maximum: no shorter than the column's name
      or any of its values, and equal to one of them. */
  lemma {:induction false} ColumnWidthIsMaximum(col: string, data: Dataset)
    ensures ColumnWidth(col, data) >= |col|
    ensures forall k :: 0 <= k < |data| ==> |FieldText(data[k], col)| <= ColumnWidth(col, data)
    ensures ColumnWidth(col, data) == |col|
      || exists k :: 0 <= k < |data| && ColumnWidth(col, data) == |FieldText(data[k], col)|
    decreases |data|
  {
    if data != [] {
      var init := data[..|data| - 1];
      ColumnWidthIsMaximum(col, init);
      assert forall k :: 0 <= k < |init| ==> init[k] == data[k];
      var w := ColumnWidth(col, data);
      if w != |col| {
        if w == ColumnWidth(col, init) {
          var k :| 0 <= k < |init| && w == |FieldText(init[k], col)|;
          assert w == |FieldText(data[k], col)|;
        } else {
          assert w == |FieldText(data[|data| - 1], col)|;
        }
      }
    }
  }

  function Widths(columns: seq<string>, data: Dataset): (ws: seq<nat>)
    ensures |ws| == |columns|
  {
    seq(|columns|, i requires 0 <= i < |columns| => ColumnWidth(columns[i], data))
  }

  /** `columns.map((c, i) => String(c).padEnd(colWidths[i])).join(' | ')`. */
  function HeaderLine(columns: seq<string>, widths: seq<nat>): string
    requires |widths| == |columns|
  {
    Join(seq(|columns|, i requires 0 <= i < |columns| => PadEnd(columns[i], widths[i])), " | ")
  }

  /** `columns.map((c, i) => '-'.repeat(colWidths[i])).join('-|-')`. */
  function SeparatorLine(widths: seq<nat>): string
  {
    Join(seq(|widths|, i requires 0 <= i < |widths| => Repeat('-', widths[i])), "-|-")
  }

  /** `columns.map((c, i) => String(row[c] ?? '').padEnd(colWidths[i])).join(' | ')`. */
  function DataLine(columns: seq<string>, row: Record, widths: seq<nat>): string
    requires |widths| == |columns|
  {
    Join(seq(|columns|, i requires 0 <= i < |columns| => PadEnd(FieldText(row, columns[i]), widths[i])), " | ")
  }

  /** The lines after the banner: header, separator, one per record. */
  function GridLines(columns: seq<string>, data: Dataset): seq<string>
  {
    var ws := Widths(columns, data);
    [HeaderLine(columns, ws), SeparatorLine(ws)]
      + seq(|data|, k requires 0 <= k < |data| => DataLine(columns, data[k], ws))
  }

  /** Lines each followed by a line feed. */
  function Lines(ls: seq<string>): string
    decreases |ls|
  {
    if ls == [] then "" else Lines(ls[..|ls| - 1]) + ls[|ls| - 1] + "\n"
  }

  /** The count banner: "query succeeded, N rows returned", then a blank line. */
  function Banner(n: nat): string
  {
    "查詢成功，共回傳 " + NatToString(n) + " 筆資料。\n\n"
  }

  function GridText(columns: seq<string>, data: Dataset): string
  {
    Banner(|data|) + Lines(GridLines(columns, data))
  }

  const GRID_OPEN := "<div class=\"rsformat-container\"><pre class=\"rsformat-rowset\">"
  const GRID_CLOSE := "</pre></div>"

  /** The markup `renderRowSet` puts into the container. */
  function GridHtml(columns: seq<string>, data: Dataset): string
  {
    GRID_OPEN + EscapeHtml(Str(GridText(columns, data))) + GRID_CLOSE
  }

  lemma HeaderLineLength(columns: seq<string>, ws: seq<nat>)
    requires |ws| == |columns|
    requires forall i :: 0 <= i < |columns| ==> |columns[i]| <= ws[i]
    ensures |HeaderLine(columns, ws)| == JoinedLength(ws, 3)
  {
    var parts := seq(|columns|, i requires 0 <= i < |columns| => PadEnd(columns[i], ws[i]));
    JoinLength(parts, " | ", ws);
  }

  lemma SeparatorLineLength(ws: seq<nat>)
    ensures |SeparatorLine(ws)| == JoinedLength(ws, 3)
  {
    var parts := seq(|ws|, i requires 0 <= i < |ws| => Repeat('-', ws[i]));
    JoinLength(parts, "-|-", ws);
  }

  lemma DataLineLength(columns: seq<string>, data: Dataset, k: nat)
    requires k < |data|
    ensures |DataLine(columns, data[k], Widths(columns, data))| == JoinedLength(Widths(columns, data), 3)
  {
    var ws := Widths(columns, data);
    var parts := seq(|columns|, i requires 0 <= i < |columns| => PadEnd(FieldText(data[k], columns[i]), ws[i]));
    forall i | 0 <= i < |columns| ensures |parts[i]| == ws[i] {
      ColumnWidthIsMaximum(columns[i], data);
    }
    JoinLength(parts, " | ", ws);
  }

  /** The grid is aligned: after the banner there is one line per record
      besides the header and the separator, and all of those lines have the
      same length, the column widths joined by three-character separators. */
  lemma GridLinesAligned(columns: seq<string>, data: Dataset)
    ensures var ls := GridLines(columns, data);
      && |ls| == |data| + 2
      && forall j :: 0 <= j < |ls| ==> |ls[j]| == JoinedLength(Widths(columns, data), 3)
  {
    var ws := Widths(columns, data);
    var ls := GridLines(columns, data);
    forall i | 0 <= i < |columns| ensures |columns[i]| <= ws[i] {
      ColumnWidthIsMaximum(columns[i], data);
    }
    HeaderLineLength(columns, ws);
    SeparatorLineLength(ws);
    forall j | 0 <= j < |ls| ensures |ls[j]| == JoinedLength(ws, 3) {
      if j >= 2 {
        assert ls[j] == DataLine(columns, data[j - 2], ws);
        DataLineLength(columns, data, j - 2);
      }
    }
  }

  /** Each field of a data line is the value's text followed by spaces only,
      filling exactly its column's width. */
  lemma FieldsArePadded(columns: seq<string>, data: Dataset, k: nat, i: nat)
    requires k < |data| && i < |columns|
    ensures var ws := Widths(columns, data);
      var v := FieldText(data[k], columns[i]);
      var f := PadEnd(v, ws[i]);
      |f| == ws[i] && f[..|v|] == v && forall m :: |v| <= m < |f| ==> f[m] == ' '
  {
    ColumnWidthIsMaximum(columns[i], data);
  }

  /** One more record widens a column to that record's text if it is longer. */
  lemma ColumnWidthStep(col: string, data: Dataset, k: nat)
    requires k < |data|
    ensures var w := ColumnWidth(col, data[..k]);
      var len := |FieldText(data[k], col)|;
      ColumnWidth(col, data[..k + 1]) == if len > w then len else w
  {
    assert data[..k + 1][..k] == data[..k];
  }

  lemma LinesStep(pre: string, ls: seq<string>, k: nat)
    requires k < |ls|
    ensures pre + Lines(ls[..k + 1]) == pre + Lines(ls[..k]) + ls[k] + "\n"
  {
    assert ls[..k + 1][..k] == ls[..k];
  }

  /** The column widths of `renderRowSet` (rsformat.js:239-247), kept in an
      array that is widened in place, record by record and column by column. */
  method ComputeWidths(columns: seq<string>, data: Dataset) returns (ws: seq<nat>)
    ensures ws == Widths(columns, data)
  {
    var colWidths := new nat[|columns|](i requires 0 <= i < |columns| => |columns[i]|);
    var k := 0;
    while k < |data|
      invariant 0 <= k <= |data|
      invariant colWidths[..] == Widths(columns, data[..k])
    {
      ghost var prev := Widths(columns, data[..k]);
      ghost var next := Widths(columns, data[..k + 1]);
      var i := 0;
      while i < |columns|
        invariant 0 <= i <= |columns|
        invariant forall m :: 0 <= m < i ==> colWidths[m] == next[m]
        invariant forall m :: i <= m < |columns| ==> colWidths[m] == prev[m]
      {
        var val := FieldText(data[k], columns[i]);
        ColumnWidthStep(columns[i], data, k);
        if |val| > colWidths[i] {
          colWidths[i] := |val|;
        }
        assert colWidths[i] == next[i];
        i := i + 1;
      }
      assert colWidths[..] == next;
      k := k + 1;
    }
    assert data[..|data|] == data;
    ws := colWidths[..];
  }

  lemma GridLinesShape(columns: seq<string>, data: Dataset)
    ensures var ls := GridLines(columns, data);
      var ws := Widths(columns, data);
      && |ls| == |data| + 2
      && ls[0] == HeaderLine(columns, ws)
      && ls[1] == SeparatorLine(ws)
      && forall k :: 0 <= k < |data| ==> ls[k + 2] == DataLine(columns, data[k], ws)
  {
  }

  /** The text of `renderRowSet` (rsformat.js:237-254): the banner, then
      the header, separator and record lines appended one by one. */
  method BuildGridText(columns: seq<string>, data: Dataset) returns (text: string)
    ensures text == GridText(columns, data)
  {
    text := Banner(|data|);
    var ws := ComputeWidths(columns, data);
    ghost var ls := GridLines(columns, data);
    ghost var banner := text;
    GridLineStep(banner, text, columns, data, 0, HeaderLine(columns, ws));
    text := text + HeaderLine(columns, ws) + "\n";
    GridLineStep(banner, text, columns, data, 1, SeparatorLine(ws));
    text := text + SeparatorLine(ws) + "\n";
    var k := 0;
    while k < |data|
      invariant 0 <= k <= |data|
      invariant text == banner + Lines(ls[..k + 2])
    {
      var line := DataLine(columns, data[k], ws);
      GridLineStep(banner, text, columns, data, k + 2, line);
      text := text + line + "\n";
      k := k + 1;
    }
    assert ls[..|data| + 2] == ls;
  }

  /** Appending grid line `j` to the text of the lines before it. */
  lemma GridLineStep(banner: string, text: string, columns: seq<string>, data: Dataset, j: nat, line: string)
    requires j < |data| + 2
    requires text == banner + Lines(GridLines(columns, data)[..j])
    requires line == (var ws := Widths(columns, data);
      if j == 0 then HeaderLine(columns, ws)
      else if j == 1 then SeparatorLine(ws)
      else DataLine(columns, data[j - 2], ws))
    ensures text + line + "\n" == banner + Lines(GridLines(columns, data)[..j + 1])
  {
    var ls := GridLines(columns, data);
    GridLinesShape(columns, data);
    assert ls[j] == line;
    LinesStep(banner, ls, j);
  }

  /** `renderRowSet(container, columns, data)`: the grid text, escaped once,
      inside the container. */
  method RenderRowSet(columns: seq<string>, data: Dataset) returns (html: string)
    ensures html == GridHtml(columns, data)
  {
    var text := BuildGridText(columns, data);
    html := GRID_OPEN + EscapeHtml(Str(text)) + GRID_CLOSE;
  }
}
