/** The renderer of the pivoted table, `renderTransposedTable`
    (rsformat.js:320-340): one header cell per header value and one row
    per body row, every cell escaped and none merged. */
module TransposedTable {
  import opened Values
  import opened Escaping
  import opened Shaping
  import opened HtmlTable

  /** `acc` with the first `n` cells of `cells` appended. */
  function PlainCells(acc: string, cells: seq<Value>, useBr: bool, n: nat): string
    requires n <= |cells|
    decreases n
  {
    if n == 0 then acc
    else PlainCells(acc, cells, useBr, n - 1) + CellHtml(Emitted(1), cells[n - 1], useBr)
  }

  /** `acc` with the first `m` rows of `body` appended. */
  function PlainBody(acc: string, body: seq<seq<Value>>, useBr: bool, m: nat): string
    requires m <= |body|
    decreases m
  {
    if m == 0 then acc
    else PlainCells(PlainBody(acc, body, useBr, m - 1) + "<tr>", body[m - 1], useBr, |body[m - 1]|) + "</tr>"
  }

  /** The markup `renderTransposedTable` puts into the container. */
  function TransposedHtml(headers: seq<Value>, body: seq<seq<Value>>, useBr: bool): string
  {
    var head := HeaderCells(TABLE_OPEN, headers, |headers|) + HEAD_CLOSE;
    PlainBody(head, body, useBr, |body|) + TABLE_CLOSE
  }

  /** The header row (rsformat.js:321-327). */
  method RenderTransposedHeader(headers: seq<Value>) returns (html: string)
    ensures html == HeaderCells(TABLE_OPEN, headers, |headers|) + HEAD_CLOSE
  {
    html := CONTAINER_OPEN;
    html := html + "<table class=\"rsformat-table\"><thead><tr>";
    for c := 0 to |headers|
      invariant html == HeaderCells(TABLE_OPEN, headers, c)
    {
      html := html + ("<th>" + EscapeHtml(headers[c]) + "</th>");
    }
    html := html + "</tr></thead><tbody>";
  }

  /** One body row (rsformat.js:330-334). */
  method RenderTransposedRow(cells: seq<Value>, useBr: bool, pre: string) returns (html: string)
    ensures html == PlainCells(pre, cells, useBr, |cells|)
  {
    html := pre;
    for k := 0 to |cells|
      invariant html == PlainCells(pre, cells, useBr, k)
    {
      var cell := PlainCell(cells[k], useBr);
      html := html + cell;
    }
  }

  /** `renderTransposedTable(container, headers, bodyData, useBr)`. */
  method RenderTransposedTable(headers: seq<Value>, bodyData: seq<seq<Value>>, useBr: bool)
    returns (html: string)
    ensures html == TransposedHtml(headers, bodyData, useBr)
  {
    html := RenderTransposedHeader(headers);
    ghost var head := html;
    for r := 0 to |bodyData|
      invariant html == PlainBody(head, bodyData, useBr, r)
    {
      html := html + "<tr>";
      html := RenderTransposedRow(bodyData[r], useBr, html);
      html := html + "</tr>";
    }
    html := html + "</tbody></table></div>";
  }

  /** Mapping null and undefined to `''` before rendering, as the pivot
      does, shows the same cell text as rendering them directly. */
  lemma EmptyFillShowsSame(v: Value, useBr: bool)
    ensures CellText(OrEmpty(v), useBr) == CellText(v, useBr)
  {
    if IsNullish(v) {
      assert EscapeHtml(Str("")) == "";
      assert ConvertNewlineToBr(Str("")) == "";
    }
  }

  /** The pivoted table shows, in body row `r` and cell `k + 1`, the text of
      record `k`'s value in column `r + 1`; its header row, which is only
      escaped, shows the escaped first column. */
  lemma TransposedCellsShowData(columns: seq<string>, data: Dataset, useBr: bool, c: nat, k: nat)
    requires c < |columns| && k < |data|
    ensures var p := TransposeData(columns, data);
      c == 0 ==> EscapeHtml(p.headers[k + 1]) == EscapeHtml(Lookup(data[k], columns[0]))
    ensures var p := TransposeData(columns, data);
      c > 0 ==> CellText(p.body[c - 1][k + 1], useBr) == CellText(Lookup(data[k], columns[c]), useBr)
  {
    PivotCellsAreTableCells(columns, data, c, k);
    EmptyFillShowsSame(Lookup(data[k], columns[c]), useBr);
    EmptyFillShowsSame(Lookup(data[k], columns[c]), false);
  }
}
