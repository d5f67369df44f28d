/** CSV export (rsformat.js:564-574 and 613-636): a header line of column
    names, then one line per record; every field is wrapped in double
    quotes with inner quotes doubled, fields are separated by commas, every
    line ends in CR LF, and the payload starts with a byte-order mark.

    A reader for this fully quoted dialect is defined alongside, and the
    export is proved to read back as exactly the header and the records. */
module Csv {
  import opened Text
  import opened Values
  import opened Shaping

  /** `"${s.replace(/"/g, '""')}"`. */
  function QuoteField(s: string): (q: string)
    ensures |q| >= 2 && q[0] == '"' && q[|q| - 1] == '"'
    ensures '"' !in s ==> q == "\"" + s + "\""
  {
    "\"" + ReplaceChar(s, '"', "\"\"") + "\""
  }

  function QuoteAll(fields: seq<string>): (qs: seq<string>)
    ensures |qs| == |fields| && forall i :: 0 <= i < |fields| ==> qs[i] == QuoteField(fields[i])
  {
    seq(|fields|, i requires 0 <= i < |fields| => QuoteField(fields[i]))
  }

  /** One line: the quoted fields joined by commas, then CR LF. */
  function CsvLine(fields: seq<string>): string
  {
    Join(QuoteAll(fields), ",") + "\r\n"
  }

  /** `String(row[col] ?? '')` for each column. */
  function RecordFields(columns: seq<string>, row: Record): (fs: seq<string>)
    ensures |fs| == |columns| && forall i :: 0 <= i < |columns| ==> fs[i] == FieldText(row, columns[i])
  {
    seq(|columns|, i requires 0 <= i < |columns| => FieldText(row, columns[i]))
  }

  /** The table the export writes: the header, then the records in order. */
  function CsvRows(columns: seq<string>, data: Dataset): (rows: seq<seq<string>>)
    ensures |rows| == |data| + 1 && rows[0] == columns
    ensures forall k :: 0 <= k < |data| ==> rows[k + 1] == RecordFields(columns, data[k])
  {
    [columns] + seq(|data|, k requires 0 <= k < |data| => RecordFields(columns, data[k]))
  }

  /** The lines of `rows`, in order. */
  function CsvText(rows: seq<seq<string>>): string
    decreases |rows|
  {
    if rows == [] then "" else CsvText(rows[..|rows| - 1]) + CsvLine(rows[|rows| - 1])
  }

  const BOM: char := '\U{FEFF}'

  /** The exported file's content. */
  function CsvPayload(columns: seq<string>, data: Dataset): string
  {
    [BOM] + CsvText(CsvRows(columns, data))
  }

  // ---------------------------------------------------------------------
  // Writing

  /** The content built by both exports: the header line, then one line
      appended per record. */
  method BuildCsv(columns: seq<string>, data: Dataset) returns (csvContent: string)
    ensures csvContent == CsvText(CsvRows(columns, data))
  {
    ghost var rows := CsvRows(columns, data);
    csvContent := "";
    assert rows[..1][..0] == [];
    csvContent := csvContent + CsvLine(columns);
    for k := 0 to |data|
      invariant csvContent == CsvText(rows[..k + 1])
    {
      assert rows[..k + 2][..k + 1] == rows[..k + 1];
      csvContent := csvContent + CsvLine(RecordFields(columns, data[k]));
    }
    assert rows[..|data| + 1] == rows;
  }

  /** The standalone `exportCsv(data, filename, options)`: absent or empty
      data exports nothing; otherwise the columns are the given ones or
      those of the first record, with `ID` first when asked for. */
  method ExportCsv(data: Option<Dataset>, columns: Option<seq<string>>, showId: bool)
    returns (payload: Option<string>)
    ensures data.None? || data.value == [] <==> payload.None?
    ensures payload.Some? ==>
      var cols := if columns.Some? then columns.value else ExtractColumns(data.value);
      payload.value == CsvPayload(ShownColumns(cols, showId), ShownData(data.value, showId))
  {
    if data.None? || |data.value| == 0 {
      return None;
    }
    var cols := if columns.Some? then columns.value else ExtractColumns(data.value);
    var processedData := data.value;
    if showId {
      processedData := AddIdColumn(processedData);
      cols := ["ID"] + cols;
    }
    var csvContent := BuildCsv(cols, processedData);
    payload := Some([BOM] + csvContent);
  }

  // ---------------------------------------------------------------------
  // Reading back

  /** The inside of a quoted field, after its opening quote: `""` stands
      for one quote and a lone quote closes the field. Gives the field and
      what follows the closing quote. */
  function Unquote(s: string): (res: Option<(string, string)>)
    ensures res.Some? ==> |res.value.1| < |s|
    decreases |s|
  {
    if s == [] then None
    else if s[0] == '"' then
      if |s| >= 2 && s[1] == '"' then
        match Unquote(s[2..])
        case None => None
        case Some(p) => Some(("\"" + p.0, p.1))
      else Some(("", s[1..]))
    else
      match Unquote(s[1..])
      case None => None
      case Some(p) => Some(([s[0]] + p.0, p.1))
  }

  /** One or more quoted fields separated by commas, up to and including
      the CR LF ending the line. */
  function ParseFields(s: string): (res: Option<(seq<string>, string)>)
    ensures res.Some? ==> |res.value.1| < |s|
    decreases |s|
  {
    if s == [] || s[0] != '"' then None
    else
      match Unquote(s[1..])
      case None => None
      case Some(p) =>
        var rest := p.1;
        if |rest| >= 2 && rest[0] == '\r' && rest[1] == '\n' then Some(([p.0], rest[2..]))
        else if rest != [] && rest[0] == ',' then
          match ParseFields(rest[1..])
          case None => None
          case Some(q) => Some(([p.0] + q.0, q.1))
        else None
  }

  /** A line: nothing but CR LF for no fields, or the fields. */
  function ParseLine(s: string): (res: Option<(seq<string>, string)>)
    ensures res.Some? ==> |res.value.1| < |s|
  {
    if |s| >= 2 && s[0] == '\r' && s[1] == '\n' then Some(([], s[2..])) else ParseFields(s)
  }

  /** Every line of `s`, or None when `s` is not such a file. */
  function ParseCsv(s: string): Option<seq<seq<string>>>
    decreases |s|
  {
    if s == [] then Some([])
    else
      match ParseLine(s)
      case None => None
      case Some(p) =>
        match ParseCsv(p.1)
        case None => None
        case Some(rows) => Some([p.0] + rows)
  }

  /** A quoted field reads back as itself. */
  lemma {:induction false} UnquoteRoundTrip(f: string, rest: string)
    requires rest == [] || rest[0] != '"'
    ensures Unquote(ReplaceChar(f, '"', "\"\"") + "\"" + rest) == Some((f, rest))
    decreases |f|
  {
    if f == [] {
      var s := ReplaceChar(f, '"', "\"\"") + "\"" + rest;
      assert s == "\"" + rest;
      assert s[1..] == rest;
    } else {
      UnquoteRoundTrip(f[1..], rest);
      UnquoteStep(f, rest);
    }
  }

  /** One more character in front of a field that reads back. */
  lemma UnquoteStep(f: string, rest: string)
    requires f != []
    requires Unquote(ReplaceChar(f[1..], '"', "\"\"") + "\"" + rest) == Some((f[1..], rest))
    ensures Unquote(ReplaceChar(f, '"', "\"\"") + "\"" + rest) == Some((f, rest))
  {
    var body := ReplaceChar(f[1..], '"', "\"\"");
    var t := body + "\"" + rest;
    var s := ReplaceChar(f, '"', "\"\"") + "\"" + rest;
    if f[0] == '"' {
      assert s == "\"\"" + t by {
        assert ReplaceChar(f, '"', "\"\"") == "\"\"" + body;
        ConcatAssoc("\"\"" + body, "\"", rest);
        ConcatAssoc("\"\"", body, "\"" + rest);
        ConcatAssoc(body, "\"", rest);
      }
      UnquoteDoubled(s, t);
      assert "\"" + f[1..] == f;
    } else {
      assert s == [f[0]] + t by {
        assert ReplaceChar(f, '"', "\"\"") == [f[0]] + body;
        ConcatAssoc([f[0]] + body, "\"", rest);
        ConcatAssoc([f[0]], body, "\"" + rest);
        ConcatAssoc(body, "\"", rest);
      }
      UnquoteOther(s, t, f[0]);
      assert [f[0]] + f[1..] == f;
    }
  }

  /** A doubled quote inside a field reads as one quote. */
  lemma UnquoteDoubled(s: string, t: string)
    requires s == "\"\"" + t
    ensures Unquote(s) == match Unquote(t) case None => None case Some(p) => Some(("\"" + p.0, p.1))
  {
    assert s[0] == '"' && s[1] == '"' && s[2..] == t;
  }

  /** Any other character inside a field reads as itself. */
  lemma UnquoteOther(s: string, t: string, c: char)
    requires c != '"' && s == [c] + t
    ensures Unquote(s) == match Unquote(t) case None => None case Some(p) => Some(([c] + p.0, p.1))
  {
    assert s[0] == c && s[1..] == t;
  }

  lemma {:induction false} FieldsRoundTrip(fields: seq<string>, rest: string)
    requires fields != []
    ensures ParseFields(Join(QuoteAll(fields), ",") + "\r\n" + rest) == Some((fields, rest))
    decreases |fields|
  {
    if |fields| == 1 {
      LastFieldRoundTrip(fields, rest);
    } else {
      FieldsRoundTrip(fields[1..], rest);
      FieldsStep(fields, rest);
    }
  }

  /** The last field of a line reads back, up to the line's end. */
  lemma LastFieldRoundTrip(fields: seq<string>, rest: string)
    requires |fields| == 1
    ensures ParseFields(Join(QuoteAll(fields), ",") + "\r\n" + rest) == Some((fields, rest))
  {
    var f := fields[0];
    var body := ReplaceChar(f, '"', "\"\"");
    var s := Join(QuoteAll(fields), ",") + "\r\n" + rest;
    assert s == "\"" + (body + "\"" + ("\r\n" + rest)) by {
      assert Join(QuoteAll(fields), ",") == QuoteField(f);
    }
    assert s[1..] == body + "\"" + ("\r\n" + rest);
    UnquoteRoundTrip(f, "\r\n" + rest);
    assert ("\r\n" + rest)[2..] == rest;
    assert fields == [f];
  }

  /** One more field in front of fields that read back. */
  lemma FieldsStep(fields: seq<string>, rest: string)
    requires |fields| >= 2
    requires ParseFields(Join(QuoteAll(fields[1..]), ",") + "\r\n" + rest) == Some((fields[1..], rest))
    ensures ParseFields(Join(QuoteAll(fields), ",") + "\r\n" + rest) == Some((fields, rest))
  {
    var f := fields[0];
    var body := ReplaceChar(f, '"', "\"\"");
    var qs := QuoteAll(fields);
    var s := Join(qs, ",") + "\r\n" + rest;
    var tail := Join(QuoteAll(fields[1..]), ",") + "\r\n" + rest;
    assert s == "\"" + (body + "\"" + ("," + tail)) by {
      assert Join(qs, ",") == qs[0] + "," + Join(qs[1..], ",");
      assert qs[0] == "\"" + body + "\"";
      assert QuoteAll(fields[1..]) == qs[1..];
      Regroup(s, body, Join(qs[1..], ","), rest);
    }
    assert s[0] == '"' && s[1..] == body + "\"" + ("," + tail);
    UnquoteRoundTrip(f, "," + tail);
    ParseFieldsComma(s, f, tail);
    assert [f] + fields[1..] == fields;
  }

  lemma Regroup(s: string, body: string, j: string, rest: string)
    requires s == "\"" + body + "\"" + "," + j + "\r\n" + rest
    ensures s == "\"" + (body + "\"" + ("," + (j + "\r\n" + rest)))
  {
  }

  /** A field followed by a comma: the fields after the comma follow it. */
  lemma ParseFieldsComma(s: string, f: string, tail: string)
    requires s != [] && s[0] == '"' && Unquote(s[1..]) == Some((f, "," + tail))
    ensures ParseFields(s) == match ParseFields(tail) case None => None case Some(q) => Some(([f] + q.0, q.1))
  {
    assert ("," + tail)[0] == ',' && ("," + tail)[1..] == tail;
  }

  /** A line reads back as its fields. */
  lemma LineRoundTrip(fields: seq<string>, rest: string)
    ensures ParseLine(CsvLine(fields) + rest) == Some((fields, rest))
  {
    if fields == [] {
      assert CsvLine(fields) + rest == "\r\n" + rest;
      assert ("\r\n" + rest)[2..] == rest;
    } else {
      var quoted := QuoteAll(fields);
      assert quoted[0] == QuoteField(fields[0]);
      FieldsRoundTrip(fields, rest);
    }
  }

  lemma {:induction false} CsvTextCons(r: seq<string>, rows: seq<seq<string>>)
    ensures CsvText([r] + rows) == CsvLine(r) + CsvText(rows)
    decreases |rows|
  {
    var all := [r] + rows;
    if rows == [] {
      assert all[..0] == [];
    } else {
      var init := rows[..|rows| - 1];
      var last := rows[|rows| - 1];
      assert all[..|all| - 1] == [r] + init;
      assert all[|all| - 1] == last;
      CsvTextCons(r, init);
      ConcatAssoc(CsvLine(r), CsvText(init), CsvLine(last));
    }
  }

  /** A file of lines reads back as those lines. */
  lemma {:induction false} CsvRoundTrip(rows: seq<seq<string>>)
    ensures ParseCsv(CsvText(rows)) == Some(rows)
    decreases |rows|
  {
    if rows != [] {
      CsvTextCons(rows[0], rows[1..]);
      assert [rows[0]] + rows[1..] == rows;
      var rest := CsvText(rows[1..]);
      LineRoundTrip(rows[0], rest);
      assert CsvText(rows) != [] by {
        assert |CsvLine(rows[0])| >= 2 by {
          assert CsvLine(rows[0])[|CsvLine(rows[0])| - 1] == '\n';
        }
      }
      CsvRoundTrip(rows[1..]);
    }
  }

  /** The export reads back as the header, then one line per record holding
      each column's text in order, nothing more. */
  lemma ExportReadsBack(columns: seq<string>, data: Dataset)
    ensures var p := CsvPayload(columns, data);
      && p[0] == BOM
      && ParseCsv(p[1..]) == Some(CsvRows(columns, data))
  {
    var p := CsvPayload(columns, data);
    assert p[1..] == CsvText(CsvRows(columns, data));
    CsvRoundTrip(CsvRows(columns, data));
  }
}
