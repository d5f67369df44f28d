/** The markup table renderer `renderHtmlTable` (rsformat.js:259-318) and
    its vertical merging: in each of the first `rowspanCount` columns, a
    run of equal values in consecutive rows becomes one cell spanning the
    run. Each column is merged on its own values only. */
module HtmlTable {
  import opened Text
  import opened Values
  import opened Escaping

  /** What a row contributes in one column: nothing (the cell above spans
      over it) or a cell spanning `span` rows. */
  datatype Slot = Omitted | Emitted(span: nat)

  /** The values of column `col`, top to bottom. */
  function ColumnValues(data: Dataset, col: string): (vs: seq<Value>)
    ensures |vs| == |data| && forall i :: 0 <= i < |data| ==> vs[i] == Lookup(data[i], col)
  {
    seq(|data|, i requires 0 <= i < |data| => Lookup(data[i], col))
  }

  /** The length of the maximal run of values equal to `vs[i]` starting at `i`. */
  function RunLength(vs: seq<Value>, i: nat): (n: nat)
    requires i < |vs|
    ensures 1 <= n <= |vs| - i
    ensures forall k :: i <= k < i + n ==> vs[k] == vs[i]
    ensures i + n < |vs| ==> vs[i + n] != vs[i]
    decreases |vs| - i
  {
    if i + 1 < |vs| && vs[i + 1] == vs[i] then 1 + RunLength(vs, i + 1) else 1
  }

  /** A run of equal values cut off by the end or by a different value is
      the maximal run. */
  lemma {:induction false} RunLengthUnique(vs: seq<Value>, i: nat, n: nat)
    requires i < |vs| && 1 <= n && i + n <= |vs|
    requires forall k :: i <= k < i + n ==> vs[k] == vs[i]
    requires i + n == |vs| || vs[i + n] != vs[i]
    ensures RunLength(vs, i) == n
    decreases n
  {
    if n > 1 {
      assert vs[i + 1] == vs[i];
      RunLengthUnique(vs, i + 1, n - 1);
    }
  }

  /** A run of equal values from `i` up to `e` lies within the maximal run. */
  lemma {:induction false} RunLengthReaches(vs: seq<Value>, i: nat, e: nat)
    requires i <= e < |vs|
    requires forall k :: i <= k <= e ==> vs[k] == vs[i]
    ensures i + RunLength(vs, i) > e
    decreases e - i
  {
    if i < e {
      assert vs[i + 1] == vs[i];
      RunLengthReaches(vs, i + 1, e);
    }
  }

  /** The slot of row `i` in a merged column holding `vs`. */
  function MergedSlot(vs: seq<Value>, i: nat): Slot
    requires i < |vs|
  {
    if i > 0 && vs[i] == vs[i - 1] then Omitted else Emitted(RunLength(vs, i))
  }

  /** The slot of row `i` in column `j`: columns from `rowspanCount` on
      (all columns when it is zero or negative) never merge; in a merged
      column a cell is left out exactly when its value is the one in the
      row above in that same column, and otherwise spans the maximal run
      of equal values below it. */
  function CellSlot(columns: seq<string>, data: Dataset, rowspanCount: int, i: nat, j: nat): (s: Slot)
    requires i < |data| && j < |columns|
    ensures j >= rowspanCount ==> s == Emitted(1)
    ensures j < rowspanCount ==>
      (s.Omitted? <==> i > 0 && Lookup(data[i], columns[j]) == Lookup(data[i - 1], columns[j]))
    ensures j < rowspanCount && s.Emitted? ==>
      && i + s.span <= |data|
      && (forall k :: i <= k < i + s.span ==> Lookup(data[k], columns[j]) == Lookup(data[i], columns[j]))
      && (i + s.span < |data| ==> Lookup(data[i + s.span], columns[j]) != Lookup(data[i], columns[j]))
  {
    if j < rowspanCount then MergedSlot(ColumnValues(data, columns[j]), i) else Emitted(1)
  }

  // ---------------------------------------------------------------------
  // The shape of a merged column

  /** The slots of column `j`, top to bottom. */
  function ColumnSlots(columns: seq<string>, data: Dataset, rowspanCount: int, j: nat): (ss: seq<Slot>)
    requires j < |columns|
    ensures |ss| == |data|
  {
    seq(|data|, i requires 0 <= i < |data| => CellSlot(columns, data, rowspanCount, i, j))
  }

  /** The rows the slots span, added up. */
  function SpanSum(ss: seq<Slot>): nat
    decreases |ss|
  {
    if ss == [] then 0
    else (match ss[0] case Omitted => 0 case Emitted(n) => n) + SpanSum(ss[1..])
  }

  lemma {:induction false} SkipOmitted(ss: seq<Slot>, a: nat, b: nat)
    requires a <= b <= |ss|
    requires forall k :: a <= k < b ==> ss[k] == Omitted
    ensures SpanSum(ss[a..]) == SpanSum(ss[b..])
    decreases b - a
  {
    if a < b {
      assert ss[a..][1..] == ss[a + 1..];
      SkipOmitted(ss, a + 1, b);
    }
  }

  /** From the first row of a run on, the merged spans add up to the rows left. */
  lemma {:induction false} MergedSpanSumFrom(ss: seq<Slot>, vs: seq<Value>, i: nat)
    requires |ss| == |vs| && forall k :: 0 <= k < |vs| ==> ss[k] == MergedSlot(vs, k)
    requires i <= |vs|
    requires i == 0 || i == |vs| || vs[i] != vs[i - 1]
    ensures SpanSum(ss[i..]) == |vs| - i
    decreases |vs| - i
  {
    if i < |vs| {
      var n := RunLength(vs, i);
      assert ss[i] == Emitted(n);
      assert ss[i..][1..] == ss[i + 1..];
      forall k | i + 1 <= k < i + n ensures ss[k] == Omitted {
        assert vs[k] == vs[i] && vs[k - 1] == vs[i];
      }
      SkipOmitted(ss, i + 1, i + n);
      MergedSpanSumFrom(ss, vs, i + n);
    }
  }

  lemma {:induction false} UnitSpanSum(ss: seq<Slot>)
    requires forall k :: 0 <= k < |ss| ==> ss[k] == Emitted(1)
    ensures SpanSum(ss) == |ss|
    decreases |ss|
  {
    if ss != [] {
      UnitSpanSum(ss[1..]);
    }
  }

  /** In every column the spans of the emitted cells add up to the number
      of records: merging never loses or invents a row. */
  lemma ColumnSpansCoverRows(columns: seq<string>, data: Dataset, rowspanCount: int, j: nat)
    requires j < |columns|
    ensures SpanSum(ColumnSlots(columns, data, rowspanCount, j)) == |data|
  {
    var ss := ColumnSlots(columns, data, rowspanCount, j);
    if j < rowspanCount {
      var vs := ColumnValues(data, columns[j]);
      assert ss[0..] == ss;
      MergedSpanSumFrom(ss, vs, 0);
    } else {
      UnitSpanSum(ss);
    }
  }

  /** The emitted cell in column `j` at row `s` covers row `i`. */
  predicate Covers(columns: seq<string>, data: Dataset, rowspanCount: int, s: nat, j: nat, i: nat)
    requires s < |data| && j < |columns|
  {
    match CellSlot(columns, data, rowspanCount, s, j)
    case Omitted => false
    case Emitted(n) => s <= i < s + n
  }

  /** The first row of the run of equal values containing row `i`. */
  function RunStart(vs: seq<Value>, i: nat): (s: nat)
    requires i < |vs|
    ensures s <= i && (s == 0 || vs[s] != vs[s - 1])
    ensures forall k :: s <= k <= i ==> vs[k] == vs[i]
    decreases i
  {
    if i == 0 || vs[i] != vs[i - 1] then i else RunStart(vs, i - 1)
  }

  /** A row that starts a run reaching row `i` is the start of `i`'s run. */
  lemma {:induction false} RunStartUnique(vs: seq<Value>, s: nat, i: nat)
    requires s <= i < |vs|
    requires s == 0 || vs[s] != vs[s - 1]
    requires forall k :: s <= k <= i ==> vs[k] == vs[s]
    ensures RunStart(vs, i) == s
    decreases i - s
  {
    if s < i {
      assert vs[i] == vs[i - 1];
      RunStartUnique(vs, s, i - 1);
    }
  }

  /** The emitted cells of a merged column covering row `i` are exactly
      the one at the start of `i`'s run. */
  lemma CoveringCellIsRunStart(columns: seq<string>, data: Dataset, rowspanCount: int, s: nat, i: nat, j: nat)
    requires s < |data| && i < |data| && j < |columns| && j < rowspanCount
    ensures Covers(columns, data, rowspanCount, s, j, i) <==> s == RunStart(ColumnValues(data, columns[j]), i)
  {
    var vs := ColumnValues(data, columns[j]);
    if Covers(columns, data, rowspanCount, s, j, i) {
      RunStartUnique(vs, s, i);
    }
    if s == RunStart(vs, i) {
      RunLengthReaches(vs, s, i);
    }
  }

  /** Every row of every column lies under exactly one emitted cell, so the
      merged table stays rectangular. */
  lemma EachRowCoveredOnce(columns: seq<string>, data: Dataset, rowspanCount: int, i: nat, j: nat)
    requires i < |data| && j < |columns|
    ensures exists s :: 0 <= s <= i && Covers(columns, data, rowspanCount, s, j, i)
    ensures forall s1, s2 ::
      (0 <= s1 < |data| && 0 <= s2 < |data|
        && Covers(columns, data, rowspanCount, s1, j, i)
        && Covers(columns, data, rowspanCount, s2, j, i)) ==> s1 == s2
  {
    if j < rowspanCount {
      var start := RunStart(ColumnValues(data, columns[j]), i);
      CoveringCellIsRunStart(columns, data, rowspanCount, start, i, j);
      forall s | 0 <= s < |data|
        ensures Covers(columns, data, rowspanCount, s, j, i) <==> s == start
      {
        CoveringCellIsRunStart(columns, data, rowspanCount, s, i, j);
      }
    } else {
      assert Covers(columns, data, rowspanCount, i, j, i);
    }
  }

  /** A merged cell shows the value of every row it covers. */
  lemma CoveredRowsAgree(columns: seq<string>, data: Dataset, rowspanCount: int, s: nat, j: nat, i: nat)
    requires s < |data| && i < |data| && j < |columns|
    requires Covers(columns, data, rowspanCount, s, j, i)
    ensures Lookup(data[i], columns[j]) == Lookup(data[s], columns[j])
  {
  }

  /** Merging the first column of `dept`/`emp` records: the two `A` rows
      share one cell spanning two rows and `B` gets its own; `emp` is not
      merged. */
  lemma DepartmentsMerge()
    ensures var data := [[Field("dept", Str("A")), Field("emp", Str("1"))],
                         [Field("dept", Str("A")), Field("emp", Str("2"))],
                         [Field("dept", Str("B")), Field("emp", Str("3"))]];
      var columns := ["dept", "emp"];
      && CellSlot(columns, data, 1, 0, 0) == Emitted(2)
      && CellSlot(columns, data, 1, 1, 0) == Omitted
      && CellSlot(columns, data, 1, 2, 0) == Emitted(1)
      && forall i :: 0 <= i < 3 ==> CellSlot(columns, data, 1, i, 1) == Emitted(1)
  {
    var data := [[Field("dept", Str("A")), Field("emp", Str("1"))],
                 [Field("dept", Str("A")), Field("emp", Str("2"))],
                 [Field("dept", Str("B")), Field("emp", Str("3"))]];
    var vs := ColumnValues(data, "dept");
    assert vs == [Str("A"), Str("A"), Str("B")];
    assert Str("A") != Str("B") by { assert "A"[0] != "B"[0]; }
    RunLengthUnique(vs, 0, 2);
  }

  /** Columns merge independently: a span in the second column runs on
      past a change of value in the first. */
  lemma ColumnsMergeIndependently()
    ensures var data := [[Field("a", Str("x")), Field("b", Str("p"))],
                         [Field("a", Str("y")), Field("b", Str("p"))]];
      var columns := ["a", "b"];
      && CellSlot(columns, data, 2, 1, 0) == Emitted(1)
      && CellSlot(columns, data, 2, 0, 1) == Emitted(2)
      && CellSlot(columns, data, 2, 1, 1) == Omitted
  {
    var data := [[Field("a", Str("x")), Field("b", Str("p"))],
                 [Field("a", Str("y")), Field("b", Str("p"))]];
    assert Str("x") != Str("y") by { assert "x"[0] != "y"[0]; }
    var vs := ColumnValues(data, "b");
    assert vs == [Str("p"), Str("p")];
    RunLengthUnique(vs, 0, 2);
  }

  // ---------------------------------------------------------------------
  // The markup

  const CONTAINER_OPEN := "<div class=\"rsformat-container\">"
  const TABLE_OPEN := CONTAINER_OPEN + "<table class=\"rsformat-table\"><thead><tr>"
  const HEAD_CLOSE := "</tr></thead><tbody>"
  const TABLE_CLOSE := "</tbody></table></div>"

  /** A cell's content: escaped, and with line breaks as break tags when asked. */
  function CellText(v: Value, useBr: bool): string
  {
    if useBr then ConvertNewlineToBr(v) else EscapeHtml(v)
  }

  function SpanAttr(span: nat): string
  {
    if span > 1 then " rowspan=\"" + NatToString(span) + "\"" else ""
  }

  function CellHtml(slot: Slot, v: Value, useBr: bool): string
  {
    match slot
    case Omitted => ""
    case Emitted(n) => "<td" + SpanAttr(n) + ">" + CellText(v, useBr) + "</td>"
  }

  /** `acc` with one escaped header cell appended per label, for the
      first `n` labels. */
  function HeaderCells(acc: string, labels: seq<Value>, n: nat): string
    requires n <= |labels|
    decreases n
  {
    if n == 0 then acc
    else HeaderCells(acc, labels, n - 1) + ("<th>" + EscapeHtml(labels[n - 1]) + "</th>")
  }

  function Labels(columns: seq<string>): (ls: seq<Value>)
    ensures |ls| == |columns| && forall i :: 0 <= i < |columns| ==> ls[i] == Str(columns[i])
  {
    seq(|columns|, i requires 0 <= i < |columns| => Str(columns[i]))
  }

  /** `acc` with the first `n` cells of row `i` appended. */
  function RowCells(acc: string, columns: seq<string>, data: Dataset, rowspanCount: int, useBr: bool, i: nat, n: nat): string
    requires i < |data| && n <= |columns|
    decreases n
  {
    if n == 0 then acc
    else
      var cell := CellHtml(CellSlot(columns, data, rowspanCount, i, n - 1), Lookup(data[i], columns[n - 1]), useBr);
      RowCells(acc, columns, data, rowspanCount, useBr, i, n - 1) + cell
  }

  /** `acc` with the first `m` body rows appended. */
  function BodyRows(acc: string, columns: seq<string>, data: Dataset, rowspanCount: int, useBr: bool, m: nat): string
    requires m <= |data|
    decreases m
  {
    if m == 0 then acc
    else RowCells(BodyRows(acc, columns, data, rowspanCount, useBr, m - 1) + "<tr>",
                  columns, data, rowspanCount, useBr, m - 1, |columns|) + "</tr>"
  }

  /** The markup `renderHtmlTable` puts into the container. */
  function TableHtml(columns: seq<string>, data: Dataset, rowspanCount: int, useBr: bool): string
  {
    var head := HeaderCells(TABLE_OPEN, Labels(columns), |columns|) + HEAD_CLOSE;
    BodyRows(head, columns, data, rowspanCount, useBr, |data|) + TABLE_CLOSE
  }

  /** A cell spanning one row carries no `rowspan` attribute. */
  lemma UnitCellHtml(v: Value, useBr: bool)
    ensures CellHtml(Emitted(1), v, useBr) == "<td>" + CellText(v, useBr) + "</td>"
  {
    assert "<td" + SpanAttr(1) + ">" == "<td>";
  }

  // ---------------------------------------------------------------------
  // The renderer

  /** The header row (rsformat.js:260-266). */
  method RenderHeader(columns: seq<string>) returns (html: string)
    ensures html == HeaderCells(TABLE_OPEN, Labels(columns), |columns|) + HEAD_CLOSE
  {
    html := CONTAINER_OPEN;
    html := html + "<table class=\"rsformat-table\"><thead><tr>";
    ghost var labels := Labels(columns);
    for c := 0 to |columns|
      invariant html == HeaderCells(TABLE_OPEN, labels, c)
    {
      html := html + ("<th>" + EscapeHtml(Str(columns[c])) + "</th>");
    }
    html := html + "</tr></thead><tbody>";
  }

  /** The span of the cell at row `i` of column `col` (rsformat.js:286-295):
      one, plus one for each following row holding the same value, until
      the first that does not. */
  method SpanBelow(data: Dataset, col: string, i: nat) returns (span: nat)
    requires i < |data|
    ensures span == RunLength(ColumnValues(data, col), i)
  {
    ghost var vs := ColumnValues(data, col);
    var cellValue := Lookup(data[i], col);
    span := 1;
    for k := i + 1 to |data|
      invariant span == k - i
      invariant forall m :: i <= m < k ==> vs[m] == cellValue
    {
      if Lookup(data[k], col) == cellValue {
        span := span + 1;
      } else {
        break;
      }
    }
    RunLengthUnique(vs, i, span);
  }

  /** One emitted cell of a merged table (rsformat.js:297-299). */
  method SpanCell(cellValue: Value, span: nat, useBr: bool) returns (cell: string)
    ensures cell == CellHtml(Emitted(span), cellValue, useBr)
  {
    var displayValue := if useBr then ConvertNewlineToBr(cellValue) else EscapeHtml(cellValue);
    var rowspanAttr := if span > 1 then " rowspan=\"" + NatToString(span) + "\"" else "";
    cell := "<td" + rowspanAttr + ">" + displayValue + "</td>";
  }

  /** `lastValues[m]` holds the value of column `m` in `row`, for the merged
      columns from `lo` up to `hi`. */
  predicate Remembers(lastValues: seq<Value>, columns: seq<string>, row: Record, lo: nat, hi: nat)
  {
    forall m :: lo <= m < hi && m < |columns| && m < |lastValues| ==> lastValues[m] == Lookup(row, columns[m])
  }

  /** One row when merging is on (rsformat.js:272-302). A merged cell is
      skipped when its value is the one `lastValues` remembers from the row
      above; otherwise it is remembered and emitted with its span. */
  method RenderMergedRow(columns: seq<string>, data: Dataset, rowspanCount: int, useBr: bool, i: nat,
                         lastValues: array<Value>, pre: string)
    returns (html: string)
    requires i < |data| && lastValues.Length == rowspanCount
    requires i > 0 ==> Remembers(lastValues[..], columns, data[i - 1], 0, |columns|)
    modifies lastValues
    ensures html == RowCells(pre, columns, data, rowspanCount, useBr, i, |columns|)
    ensures Remembers(lastValues[..], columns, data[i], 0, |columns|)
  {
    html := pre;
    for j := 0 to |columns|
      invariant html == RowCells(pre, columns, data, rowspanCount, useBr, i, j)
      invariant Remembers(lastValues[..], columns, data[i], 0, j)
      invariant i > 0 ==> Remembers(lastValues[..], columns, data[i - 1], j, |columns|)
    {
      var col := columns[j];
      var isSpanCol := j < rowspanCount;
      var cellValue := Lookup(data[i], col);
      ghost var slot := CellSlot(columns, data, rowspanCount, i, j);

      if isSpanCol && i > 0 && cellValue == lastValues[j] {
        assert slot == Omitted;
        assert html + "" == html;
        continue;
      }

      if isSpanCol {
        lastValues[j] := cellValue;
      }

      var span := 1;
      if isSpanCol {
        span := SpanBelow(data, col, i);
      }
      assert slot == Emitted(span);

      var cell := SpanCell(cellValue, span, useBr);
      html := html + cell;
    }
  }

  /** The body rows when merging is on (rsformat.js:268-304): `lastValues`
      remembers, per merged column, the value of the last row processed. */
  method RenderMergedRows(columns: seq<string>, data: Dataset, rowspanCount: int, useBr: bool, pre: string)
    returns (html: string)
    requires rowspanCount > 0
    ensures html == BodyRows(pre, columns, data, rowspanCount, useBr, |data|)
  {
    html := pre;
    var lastValues := new Value[rowspanCount](_ => Null);
    for i := 0 to |data|
      invariant html == BodyRows(pre, columns, data, rowspanCount, useBr, i)
      invariant i > 0 ==> Remembers(lastValues[..], columns, data[i - 1], 0, |columns|)
    {
      html := html + "<tr>";
      html := RenderMergedRow(columns, data, rowspanCount, useBr, i, lastValues, html);
      html := html + "</tr>";
    }
  }

  /** One cell of an unmerged table (rsformat.js:308-309). */
  method PlainCell(value: Value, useBr: bool) returns (cell: string)
    ensures cell == CellHtml(Emitted(1), value, useBr)
  {
    var displayValue := if useBr then ConvertNewlineToBr(value) else EscapeHtml(value);
    UnitCellHtml(value, useBr);
    cell := "<td>" + displayValue + "</td>";
  }

  /** One row when merging is off (rsformat.js:306-312). */
  method RenderPlainRow(columns: seq<string>, data: Dataset, rowspanCount: int, useBr: bool, i: nat, pre: string)
    returns (html: string)
    requires i < |data| && rowspanCount <= 0
    ensures html == RowCells(pre, columns, data, rowspanCount, useBr, i, |columns|)
  {
    html := pre;
    for j := 0 to |columns|
      invariant html == RowCells(pre, columns, data, rowspanCount, useBr, i, j)
    {
      assert CellSlot(columns, data, rowspanCount, i, j) == Emitted(1);
      var cell := PlainCell(Lookup(data[i], columns[j]), useBr);
      html := html + cell;
    }
  }

  /** The body rows when merging is off or there are no records
      (rsformat.js:305-313): every cell emitted, none spanning. */
  method RenderPlainRows(columns: seq<string>, data: Dataset, rowspanCount: int, useBr: bool, pre: string)
    returns (html: string)
    requires rowspanCount <= 0 || |data| == 0
    ensures html == BodyRows(pre, columns, data, rowspanCount, useBr, |data|)
  {
    html := pre;
    for i := 0 to |data|
      invariant html == BodyRows(pre, columns, data, rowspanCount, useBr, i)
    {
      html := html + "<tr>";
      html := RenderPlainRow(columns, data, rowspanCount, useBr, i, html);
      html := html + "</tr>";
    }
  }

  /** `renderHtmlTable(container, columns, data, rowspanCount, useBr)`. */
  method RenderHtmlTable(columns: seq<string>, data: Dataset, rowspanCount: int, useBr: bool)
    returns (html: string)
    ensures html == TableHtml(columns, data, rowspanCount, useBr)
  {
    var head := RenderHeader(columns);
    if rowspanCount > 0 && |data| > 0 {
      html := RenderMergedRows(columns, data, rowspanCount, useBr, head);
    } else {
      html := RenderPlainRows(columns, data, rowspanCount, useBr, head);
    }
    html := html + "</tbody></table></div>";
  }
}
