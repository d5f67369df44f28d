/** The `RSFormatter` object (rsformat.js:349-598) reduced to its state:
    the dataset, its column list and the display options. Rendering picks
    a view from that state; the handlers of the controls overwrite it. */
module Formatter {
  import opened Values
  import opened Shaping
  import opened RowSet
  import opened HtmlTable
  import opened TransposedTable
  import opened Csv

  /** The options a caller passes; `None` is an option left out. */
  datatype UserOptions = UserOptions(
    columns: Option<seq<string>>,
    format: Option<string>,
    showId: Option<bool>,
    transpose: Option<bool>,
    rowspan: Option<int>,
    newlineToBr: Option<bool>)

  /** The options in force. */
  datatype Options = Options(format: string, showId: bool, transpose: bool, rowspan: int, newlineToBr: bool)

  const NO_OPTIONS := UserOptions(None, None, None, None, None, None)

  /** The defaults of rsformat.js:355-362: `format || 'table'` (so an empty
      format also gives the table), `showId || false`, `transpose || false`,
      `rowspan ?? 3` and `newlineToBr !== false`. */
  function ResolveOptions(u: UserOptions): (o: Options)
    ensures u == NO_OPTIONS ==> o == Options("table", false, false, 3, true)
    ensures u.format.Some? && u.format.value != "" ==> o.format == u.format.value
    ensures u.format.None? || u.format == Some("") ==> o.format == "table"
    ensures o.format != ""
    ensures o.showId <==> u.showId == Some(true)
    ensures o.transpose <==> u.transpose == Some(true)
    ensures u.rowspan.Some? ==> o.rowspan == u.rowspan.value
    ensures u.rowspan.None? ==> o.rowspan == 3
    ensures !o.newlineToBr <==> u.newlineToBr == Some(false)
  {
    Options(
      format := match u.format case Some(f) => (if f == "" then "table" else f) case None => "table",
      showId := match u.showId case Some(b) => b case None => false,
      transpose := match u.transpose case Some(b) => b case None => false,
      rowspan := match u.rowspan case Some(n) => n case None => 3,
      newlineToBr := match u.newlineToBr case Some(b) => b case None => true)
  }

  /** What `render` shows. `JsonView` carries the records that would be
      serialised; the serialisation itself is not modelled. */
  datatype View =
    | NoDataView(html: string)
    | GridView(html: string)
    | TableView(html: string)
    | JsonView(records: Dataset)
    | TransposedView(html: string)
    | UnsupportedView(html: string)

  const NO_DATA_HTML := "<div class=\"rsformat-error\">沒有資料可顯示</div>"

  function UnsupportedHtml(format: string): string
  {
    "<div class=\"rsformat-error\">不支援的格式: " + format + "</div>"
  }

  /** The view for a state: no data wins over everything, then transposing
      wins over the format, and any format but the three known ones is
      reported as unsupported. */
  function ViewFor(data: Dataset, columns: seq<string>, o: Options): (v: View)
    ensures data == [] <==> v == NoDataView(NO_DATA_HTML)
    ensures data != [] && o.transpose ==> v.TransposedView?
    ensures data != [] && !o.transpose ==>
      && (v.GridView? <==> o.format == "rowset")
      && (v.TableView? <==> o.format == "table")
      && (v.JsonView? <==> o.format == "json")
      && (v.UnsupportedView? <==> o.format != "rowset" && o.format != "table" && o.format != "json")
    ensures v.UnsupportedView? ==> v.html == UnsupportedHtml(o.format)
    ensures v.JsonView? ==> v.records == ShownData(data, o.showId)
  {
    if data == [] then NoDataView(NO_DATA_HTML)
    else
      var cols := ShownColumns(columns, o.showId);
      var rows := ShownData(data, o.showId);
      if o.transpose then
        var p := TransposeData(cols, rows);
        TransposedView(TransposedHtml(p.headers, p.body, o.newlineToBr))
      else if o.format == "rowset" then GridView(GridHtml(cols, rows))
      else if o.format == "table" then TableView(TableHtml(cols, rows, o.rowspan, o.newlineToBr))
      else if o.format == "json" then JsonView(rows)
      else UnsupportedView(UnsupportedHtml(o.format))
  }

  class RSFormatter {
    var originalData: Dataset
    var originalColumns: seq<string>
    var options: Options

    /** `new RSFormatter(selector, data, options)`: absent data is the
        empty dataset and absent columns are taken from the first record. */
    constructor (data: Option<Dataset>, user: UserOptions)
      ensures originalData == (if data.Some? then data.value else [])
      ensures originalColumns == (if user.columns.Some? then user.columns.value else ExtractColumns(originalData))
      ensures options == ResolveOptions(user)
    {
      originalData := if data.Some? then data.value else [];
      originalColumns := if user.columns.Some? then user.columns.value else ExtractColumns(if data.Some? then data.value else []);
      options := ResolveOptions(user);
    }

    /** `render()` (rsformat.js:514-551). */
    method Render() returns (view: View)
      ensures view == ViewFor(originalData, originalColumns, options)
    {
      if |originalData| == 0 {
        return NoDataView(NO_DATA_HTML);
      }
      var columns := originalColumns;
      var processedData := originalData;
      if options.showId {
        processedData := AddIdColumn(processedData);
        columns := ["ID"] + columns;
      }
      if options.transpose {
        var transposed := TransposeData(columns, processedData);
        var html := RenderTransposedTable(transposed.headers, transposed.body, options.newlineToBr);
        return TransposedView(html);
      }
      if options.format == "rowset" {
        var html := RenderRowSet(columns, processedData);
        view := GridView(html);
      } else if options.format == "table" {
        var html := RenderHtmlTable(columns, processedData, options.rowspan, options.newlineToBr);
        view := TableView(html);
      } else if options.format == "json" {
        view := JsonView(processedData);
      } else {
        view := UnsupportedView("<div class=\"rsformat-error\">不支援的格式: " + options.format + "</div>");
      }
    }

    /** `setData(data, columns)` (rsformat.js:586-590): replaces the dataset
        and its columns, keeps the options, and renders. */
    method SetData(data: Option<Dataset>, columns: Option<seq<string>>) returns (view: View)
      modifies this
      ensures originalData == (if data.Some? then data.value else [])
      ensures originalColumns == (if columns.Some? then columns.value else ExtractColumns(originalData))
      ensures options == old(options)
      ensures view == ViewFor(originalData, originalColumns, options)
    {
      originalData := if data.Some? then data.value else [];
      originalColumns := if columns.Some? then columns.value else ExtractColumns(originalData);
      view := Render();
    }

    /** `setFormat(format)` (rsformat.js:502-512), without the buttons. */
    method SetFormat(format: string) returns (view: View)
      modifies this
      ensures options == old(options).(format := format)
      ensures originalData == old(originalData) && originalColumns == old(originalColumns)
      ensures view == ViewFor(originalData, originalColumns, options)
    {
      options := options.(format := format);
      view := Render();
    }

    /** The ID check box handler (rsformat.js:430-433). */
    method SetShowId(checked: bool) returns (view: View)
      modifies this
      ensures options == old(options).(showId := checked)
      ensures originalData == old(originalData) && originalColumns == old(originalColumns)
      ensures view == ViewFor(originalData, originalColumns, options)
    {
      options := options.(showId := checked);
      view := Render();
    }

    /** The transpose check box handler (rsformat.js:437-440). */
    method SetTranspose(checked: bool) returns (view: View)
      modifies this
      ensures options == old(options).(transpose := checked)
      ensures originalData == old(originalData) && originalColumns == old(originalColumns)
      ensures view == ViewFor(originalData, originalColumns, options)
    {
      options := options.(transpose := checked);
      view := Render();
    }

    /** The rowspan input handler (rsformat.js:457-460), given the input
        already read as an integer, or `None` when it does not read as one;
        that case, like zero, turns merging off. */
    method SetRowspan(parsed: Option<int>) returns (view: View)
      modifies this
      ensures options == old(options).(rowspan := if parsed.Some? then parsed.value else 0)
      ensures originalData == old(originalData) && originalColumns == old(originalColumns)
      ensures view == ViewFor(originalData, originalColumns, options)
    {
      options := options.(rowspan := if parsed.Some? then parsed.value else 0);
      view := Render();
    }

    /** `exportCsv(filename)` (rsformat.js:553-584) up to the file content:
        unlike the standalone export it does not refuse an empty dataset. */
    method ExportCsv() returns (payload: string)
      ensures payload == CsvPayload(ShownColumns(originalColumns, options.showId), ShownData(originalData, options.showId))
    {
      var columns := originalColumns;
      var processedData := originalData;
      if options.showId {
        processedData := AddIdColumn(processedData);
        columns := ["ID"] + columns;
      }
      var csvContent := BuildCsv(columns, processedData);
      payload := [BOM] + csvContent;
    }
  }

  /** Transposing decides alone: the format does not matter then. */
  lemma TransposeOverridesFormat(data: Dataset, columns: seq<string>, o: Options, format: string)
    requires o.transpose
    ensures ViewFor(data, columns, o.(format := format)) == ViewFor(data, columns, o)
  {
  }

  /** With the ID column on, the columns shown start with `ID`, and record
      `k`'s ID is its ordinal unless it has its own. */
  lemma ShowIdPrependsId(data: Dataset, columns: seq<string>, o: Options, k: nat)
    requires o.showId && k < |data|
    ensures ShownColumns(columns, o.showId)[0] == "ID"
    ensures Lookup(ShownData(data, o.showId)[k], "ID")
      == if "ID" in Keys(data[k]) then Lookup(data[k], "ID") else Num(k + 1)
  {
  }

  /** With the ID column on, every view, markup or JSON, is the view of the
      numbered records under `["ID"] + columns` with the ID column off. */
  lemma ShowIdIsNumberedData(data: Dataset, columns: seq<string>, o: Options)
    ensures ViewFor(data, columns, o.(showId := true))
      == ViewFor(AddIdColumn(data), ["ID"] + columns, o.(showId := false))
  {
    assert |AddIdColumn(data)| == |data|;
  }

  /** The object's export of an empty dataset is the header line alone,
      where the standalone export produces nothing. */
  lemma EmptyExportIsHeaderOnly(columns: seq<string>)
    ensures CsvPayload(columns, []) == [BOM] + CsvLine(columns)
    ensures ParseCsv(CsvPayload(columns, [])[1..]) == Some([columns])
  {
    assert CsvRows(columns, []) == [columns];
    assert [columns][..0] == [];
    assert CsvText([columns]) == "" + CsvLine(columns);
    assert "" + CsvLine(columns) == CsvLine(columns);
    ExportReadsBack(columns, []);
  }
}
