/** The CSV export (utils/csv.ts `exportToCSV`): the text of the file, built
    line by line, and a reader for the quoting it uses, against which the
    export is shown to lose nothing. The download itself is not modelled. */
module Csv {

  import opened Types
  import opened Text
  import opened PriceDisplay

  /** U+FEFF, written first so that spreadsheet programs read the file as UTF-8. */
  const Bom: string := "\U{FEFF}"

  /** The column names, in order; `id` is not exported. */
  const CsvHeaders: seq<string> := ["date", "province", "price (K VND/kg)"]

  /** The first line: `csvHeaders.join(',')`. */
  const HeaderLine: string := CsvHeaders[0] + "," + CsvHeaders[1] + "," + CsvHeaders[2]

  /** The first line is exactly `date,province,price (K VND/kg)`. */
  lemma HeaderLineText()
    ensures HeaderLine == "date,province,price (K VND/kg)"
  {
  }

  /** A date or province as written to the file: wrapped in double quotes
      when it contains a comma. Embedded double quotes are not escaped. */
  function CsvValue(s: string): (v: string)
    ensures ',' !in s ==> v == s
    ensures ',' in s ==> v == "\"" + s + "\""
  {
    if ',' in s then "\"" + s + "\"" else s
  }

  /** One data line: date, province and the shown price, never quoted. */
  function CsvRow(item: HogPriceData): (line: string)
    ensures |line| == |CsvValue(item.date)| + |CsvValue(item.province)| + |DisplayText(item.price)| + 2
    ensures line[..|CsvValue(item.date)| + 1] == CsvValue(item.date) + ","
    ensures line[|line| - |DisplayText(item.price)|..] == DisplayText(item.price)
  {
    var head := CsvValue(item.date) + ",";
    var line := head + CsvValue(item.province) + "," + DisplayText(item.price);
    assert line == head + (CsvValue(item.province) + "," + DisplayText(item.price));
    line
  }

  /** `lines.join('\n')` */
  function JoinLines(lines: seq<string>): string {
    if |lines| == 0 then ""
    else if |lines| == 1 then lines[0]
    else lines[0] + "\n" + JoinLines(lines[1..])
  }

  /** The lines of the file: the header, then one line per record in order. */
  function CsvLines(data: seq<HogPriceData>): (lines: seq<string>)
    ensures |lines| == |data| + 1 && lines[0] == HeaderLine
    ensures forall i :: 0 <= i < |data| ==> lines[i + 1] == CsvRow(data[i])
  {
    [HeaderLine] + seq(|data|, i requires 0 <= i < |data| => CsvRow(data[i]))
  }

  /** What the export writes: nothing at all for an empty table, otherwise
      the byte-order mark followed by the joined lines. */
  function CsvDocument(data: seq<HogPriceData>): (file: Option<string>)
    ensures file.None? <==> |data| == 0
    ensures file.Some? ==> |file.value| > 0 && file.value[0] == Bom[0] && file.value[1..] == JoinLines(CsvLines(data))
  {
    if |data| == 0 then None
    else
      var file := Bom + JoinLines(CsvLines(data));
      assert |Bom| == 1;
      Some(file)
  }

  /** `exportToCSV`: returns the contents of the file it would offer for
      download, or None when it only warns that there is nothing to export. */
  method ExportToCsv(data: seq<HogPriceData>) returns (file: Option<string>)
    ensures file == CsvDocument(data)
  {
    if |data| == 0 {
      return None;
    }
    var csvRows := [HeaderLine];
    for i := 0 to |data|
      invariant |csvRows| == i + 1 && csvRows[0] == HeaderLine
      invariant forall k :: 0 <= k < i ==> csvRows[k + 1] == CsvRow(data[k])
    {
      var date := CsvValue(data[i].date);
      var province := CsvValue(data[i].province);
      var price := DisplayText(data[i].price);
      var line := date + "," + province + "," + price;
      assert line == CsvRow(data[i]);
      csvRows := csvRows + [line];
    }
    var lines := CsvLines(data);
    assert |csvRows| == |lines|;
    assert forall k :: 0 <= k < |lines| ==> csvRows[k] == lines[k] by {
      forall k | 0 < k < |lines| ensures csvRows[k] == lines[k] {
        assert csvRows[(k - 1) + 1] == CsvRow(data[k - 1]);
      }
    }
    assert csvRows == lines;
    file := Some(Bom + JoinLines(csvRows));
  }

  // ---------------------------------------------------------------------
  // Reading the file back
  // ---------------------------------------------------------------------

  /** Splits text at every line feed, as `text.split('\n')` does; `cur` is
      the line read so far. */
  function SplitLinesFrom(s: string, cur: string): (lines: seq<string>)
    ensures |lines| >= 1
    decreases |s|
  {
    if s == [] then [cur]
    else if s[0] == '\n' then [cur] + SplitLinesFrom(s[1..], [])
    else SplitLinesFrom(s[1..], cur + [s[0]])
  }

  function SplitLines(s: string): seq<string> {
    SplitLinesFrom(s, [])
  }

  lemma {:induction false} SplitThrough(t: string, rest: string, cur: string)
    requires '\n' !in t
    ensures SplitLinesFrom(t + rest, cur) == SplitLinesFrom(rest, cur + t)
    decreases |t|
  {
    if t != [] {
      var s := t + rest;
      assert s[0] == t[0] != '\n' && s[1..] == t[1..] + rest;
      assert SplitLinesFrom(s, cur) == SplitLinesFrom(s[1..], cur + [t[0]]);
      assert '\n' !in t[1..] by {
        forall k | 0 <= k < |t[1..]| ensures t[1..][k] != '\n' { assert t[1..][k] == t[k + 1]; }
      }
      SplitThrough(t[1..], rest, cur + [t[0]]);
      assert cur + [t[0]] + t[1..] == cur + t;
    } else {
      assert t + rest == rest && cur + t == cur;
    }
  }

  /** Splitting the joined lines gives the lines back, when none of them
      holds a line feed. */
  lemma {:induction false} SplitJoinLines(lines: seq<string>)
    requires |lines| >= 1
    requires forall i :: 0 <= i < |lines| ==> '\n' !in lines[i]
    ensures SplitLines(JoinLines(lines)) == lines
    decreases |lines|
  {
    if |lines| == 1 {
      SplitThrough(lines[0], [], []);
      assert lines[0] + [] == lines[0];
    } else {
      var rest := JoinLines(lines[1..]);
      var nl := "\n" + rest;
      assert JoinLines(lines) == lines[0] + nl;
      SplitThrough(lines[0], nl, []);
      assert [] + lines[0] == lines[0];
      assert nl[0] == '\n' && nl[1..] == rest;
      assert SplitLinesFrom(nl, lines[0]) == [lines[0]] + SplitLines(rest);
      SplitJoinLines(lines[1..]);
      assert lines == [lines[0]] + lines[1..];
    }
  }

  /** Reads the fields of one line: a double quote opens or closes a quoted
      stretch (and is dropped), a comma outside quotes ends a field. */
  function ReadFields(s: string, inQuotes: bool, cur: string, acc: seq<string>): seq<string>
    decreases |s|
  {
    if s == [] then acc + [cur]
    else if s[0] == '"' then ReadFields(s[1..], !inQuotes, cur, acc)
    else if s[0] == ',' && !inQuotes then ReadFields(s[1..], false, [], acc + [cur])
    else ReadFields(s[1..], inQuotes, cur + [s[0]], acc)
  }

  function ReadRow(line: string): seq<string> {
    ReadFields(line, false, [], [])
  }

  lemma {:induction false} ReadThrough(t: string, rest: string, inQuotes: bool, cur: string, acc: seq<string>)
    requires '"' !in t && (inQuotes || ',' !in t)
    ensures ReadFields(t + rest, inQuotes, cur, acc) == ReadFields(rest, inQuotes, cur + t, acc)
    decreases |t|
  {
    if t != [] {
      var s := t + rest;
      assert s[0] == t[0] != '"' && s[1..] == t[1..] + rest;
      assert inQuotes || t[0] != ',';
      assert ReadFields(s, inQuotes, cur, acc) == ReadFields(s[1..], inQuotes, cur + [t[0]], acc);
      assert '"' !in t[1..] && (inQuotes || ',' !in t[1..]) by {
        forall k | 0 <= k < |t[1..]| ensures t[1..][k] == t[k + 1] {}
      }
      ReadThrough(t[1..], rest, inQuotes, cur + [t[0]], acc);
      assert cur + [t[0]] + t[1..] == cur + t;
    } else {
      assert t + rest == rest && cur + t == cur;
    }
  }

  /** A quote-free value, as CsvValue writes it, reads back as itself. */
  lemma ReadValue(v: string, rest: string, acc: seq<string>)
    requires '"' !in v
    ensures ReadFields(CsvValue(v) + "," + rest, false, [], acc) == ReadFields(rest, false, [], acc + [v])
  {
    if ',' in v {
      var s := CsvValue(v) + "," + rest;
      assert CsvValue(v) == "\"" + v + "\"";
      assert s == "\"" + (v + ("\"" + "," + rest));
      assert s[1..] == v + ("\"" + "," + rest);
      var q := "\"" + "," + rest;
      ReadThrough(v, q, true, [], acc);
      assert [] + v == v;
      assert q[0] == '"' && q[1..] == "," + rest;
      assert ReadFields(q, true, v, acc) == ReadFields("," + rest, false, v, acc);
      assert ("," + rest)[1..] == rest;
    } else {
      var c := "," + rest;
      assert CsvValue(v) == v;
      assert CsvValue(v) + "," + rest == v + c;
      ReadThrough(v, c, false, [], acc);
      assert [] + v == v;
      assert c[0] == ',' && c[1..] == rest;
      assert ReadFields(c, false, v, acc) == ReadFields(rest, false, [], acc + [v]);
    }
  }

  /** A data line reads back as date, province and shown price, provided
      neither text field holds a double quote. */
  lemma ReadCsvRow(item: HogPriceData)
    requires '"' !in item.date && '"' !in item.province
    ensures ReadRow(CsvRow(item)) == [item.date, item.province, DisplayText(item.price)]
  {
    var p := DisplayText(item.price);
    assert '"' !in p && ',' !in p by {
      IntToStringChars(DisplayPrice(item.price));
    }
    var tail := CsvValue(item.province) + "," + p;
    assert CsvRow(item) == CsvValue(item.date) + "," + tail;
    calc {
      ReadRow(CsvRow(item));
      ReadFields(CsvValue(item.date) + "," + tail, false, [], []);
      { ReadValue(item.date, tail, []); assert [] + [item.date] == [item.date]; }
      ReadFields(tail, false, [], [item.date]);
      { ReadValue(item.province, p, [item.date]); assert [item.date] + [item.province] == [item.date, item.province]; }
      ReadFields(p, false, [], [item.date, item.province]);
      { ReadThrough(p, [], false, [], [item.date, item.province]); assert p + [] == p && [] + p == p; }
      [item.date, item.province, p];
    }
  }

  /** Every character of a data line comes from the date, the province,
      the separators and quotes, or the digits and sign of the price. */
  lemma CsvRowChars(item: HogPriceData, c: char)
    requires c in CsvRow(item)
    ensures c in item.date || c in item.province || c == ',' || c == '"' || IsDigit(c) || c == '-'
  {
    IntToStringChars(DisplayPrice(item.price));
    var p := DisplayText(item.price);
    assert c in CsvValue(item.date) || c in "," || c in CsvValue(item.province) || c in p;
  }

  /** The file read back: every line split into its fields. */
  function ReadCsv(text: string): seq<seq<string>> {
    ReadAll(SplitLines(text))
  }

  function ReadAll(lines: seq<string>): (rows: seq<seq<string>>)
    ensures |rows| == |lines| && forall i :: 0 <= i < |lines| ==> rows[i] == ReadRow(lines[i])
  {
    seq(|lines|, i requires 0 <= i < |lines| => ReadRow(lines[i]))
  }

  /** A whole file read back: the byte-order mark, then the table. */
  function ReadCsvDocument(doc: string): Option<seq<seq<string>>> {
    if doc != [] && doc[..1] == Bom then Some(ReadCsv(doc[1..])) else None
  }

  /** Text fields the reader can take back: no double quote, no line feed. */
  predicate PlainText(s: string) {
    '"' !in s && '\n' !in s
  }

  /** The cells a record contributes: date, province, shown price. */
  function RecordCells(item: HogPriceData): seq<string> {
    [item.date, item.province, DisplayText(item.price)]
  }

  /** The cells of every record, in order. */
  function Cells(data: seq<HogPriceData>): (cells: seq<seq<string>>)
    ensures |cells| == |data| && forall i :: 0 <= i < |data| ==> cells[i] == RecordCells(data[i])
  {
    seq(|data|, i requires 0 <= i < |data| => RecordCells(data[i]))
  }

  /** The export loses nothing: the file is the byte-order mark followed by
      exactly n + 1 lines (no trailing empty line), the header and then one
      line per record, and the data lines read back, in order, as each
      record's date, province and shown price. */
  lemma CsvRoundTrip(data: seq<HogPriceData>)
    requires |data| > 0
    requires forall i :: 0 <= i < |data| ==> PlainText(data[i].date) && PlainText(data[i].province)
    ensures CsvDocument(data).Some?
    ensures SplitLines(CsvDocument(data).value[1..]) == CsvLines(data)
    ensures ReadCsvDocument(CsvDocument(data).value).Some?
    ensures ReadCsvDocument(CsvDocument(data).value).value[1..] == Cells(data)
  {
    var lines := CsvLines(data);
    var doc := Bom + JoinLines(lines);
    assert doc[..1] == Bom && doc[1..] == JoinLines(lines);
    CsvLinesHaveNoLineFeed(data);
    SplitJoinLines(lines);
    ReadLines(data);
  }

  lemma ReadLines(data: seq<HogPriceData>)
    requires forall i :: 0 <= i < |data| ==> PlainText(data[i].date) && PlainText(data[i].province)
    ensures ReadAll(CsvLines(data))[1..] == Cells(data)
  {
    var read := ReadAll(CsvLines(data))[1..];
    var want := Cells(data);
    forall i | 0 <= i < |data| ensures read[i] == want[i] {
      assert read[i] == ReadRow(CsvRow(data[i]));
      ReadCsvRow(data[i]);
    }
  }

  /** The header line reads back as the three column names. */
  lemma ReadHeader()
    ensures ReadRow(HeaderLine) == CsvHeaders
  {
    ReadUnquotedRow(CsvHeaders[0], CsvHeaders[1], CsvHeaders[2]);
  }

  /** Three fields free of commas and quotes, joined by commas, read back. */
  lemma ReadUnquotedRow(a: string, b: string, c: string)
    requires '"' !in a && ',' !in a && '"' !in b && ',' !in b && '"' !in c && ',' !in c
    ensures ReadRow(a + "," + b + "," + c) == [a, b, c]
  {
    assert a + "," + b + "," + c == CsvValue(a) + "," + (CsvValue(b) + "," + c);
    ReadValue(a, CsvValue(b) + "," + c, []);
    ReadValue(b, c, [a]);
    assert [] + [a] == [a] && [a] + [b] == [a, b];
    ReadThrough(c, [], false, [], [a, b]);
    assert c + [] == c && [] + c == c;
  }

  lemma CsvLinesHaveNoLineFeed(data: seq<HogPriceData>)
    requires forall i :: 0 <= i < |data| ==> PlainText(data[i].date) && PlainText(data[i].province)
    ensures forall i :: 0 <= i < |CsvLines(data)| ==> '\n' !in CsvLines(data)[i]
  {
    var lines := CsvLines(data);
    forall i | 0 <= i < |lines| ensures '\n' !in lines[i] {
      if i > 0 {
        assert lines[i] == CsvRow(data[i - 1]);
        CsvRowHasNoLineFeed(data[i - 1]);
      } else {
        assert '\n' !in HeaderLine;
      }
    }
  }

  lemma CsvRowHasNoLineFeed(item: HogPriceData)
    requires PlainText(item.date) && PlainText(item.province)
    ensures '\n' !in CsvRow(item)
  {
    if '\n' in CsvRow(item) {
      CsvRowChars(item, '\n');
    }
  }

  /** The file never ends with a line feed: its last character is the last
      digit of the last record's shown price. */
  lemma {:induction false} JoinLinesEndsWithLastLine(lines: seq<string>)
    requires |lines| >= 1 && lines[|lines| - 1] != []
    ensures JoinLines(lines) != [] && JoinLines(lines)[|JoinLines(lines)| - 1] == lines[|lines| - 1][|lines[|lines| - 1]| - 1]
    decreases |lines|
  {
    if |lines| > 1 {
      JoinLinesEndsWithLastLine(lines[1..]);
    }
  }

  lemma CsvEndsWithDigit(data: seq<HogPriceData>)
    requires |data| > 0
    ensures var text := CsvDocument(data).value; IsDigit(text[|text| - 1])
  {
    var lines := CsvLines(data);
    JoinLinesEndsWithLastLine(lines);
  }

  /** Comma-free values are written verbatim, others inside double quotes,
      in the date column and in the province column alike; the price column
      is never quoted. */
  lemma CsvQuoting(item: HogPriceData)
    ensures ',' !in item.date ==> CsvRow(item)[..|item.date| + 1] == item.date + ","
    ensures ',' in item.date ==> CsvRow(item)[..|item.date| + 3] == "\"" + item.date + "\","
    ensures ',' !in item.province ==>
              CsvRow(item)[|CsvValue(item.date)| + 1..] == item.province + "," + DisplayText(item.price)
    ensures ',' in item.province ==>
              CsvRow(item)[|CsvValue(item.date)| + 1..] == "\"" + item.province + "\"," + DisplayText(item.price)
    ensures '"' !in DisplayText(item.price)
  {
    IntToStringChars(DisplayPrice(item.price));
    var head := CsvValue(item.date) + ",";
    var tail := CsvValue(item.province) + "," + DisplayText(item.price);
    assert CsvRow(item) == head + tail;
    assert CsvRow(item)[|head|..] == tail;
    if ',' in item.province {
      assert tail == "\"" + item.province + "\"," + DisplayText(item.price);
    }
  }

  /** The ids are not exported: tables that differ only in their ids give
      the same file. */
  lemma CsvIgnoresIds(data: seq<HogPriceData>, other: seq<HogPriceData>)
    requires |data| == |other|
    requires forall i :: 0 <= i < |data| ==> data[i].(id := other[i].id) == other[i]
    ensures CsvDocument(data) == CsvDocument(other)
  {
    var a, b := CsvLines(data), CsvLines(other);
    forall k | 0 <= k < |a| ensures a[k] == b[k] {
      if k > 0 {
        assert data[k - 1].(id := other[k - 1].id) == other[k - 1];
      }
    }
    assert a == b;
  }

  /** The worked example: one record at 68500 VND/kg gives the byte-order
      mark, the header, a line feed and `2024-01-01,Hà Nội,69`. */
  lemma CsvExample()
    ensures CsvDocument([HogPriceData(1, "2024-01-01", "Hà Nội", 68500)])
         == Some(Bom + HeaderLine + "\n" + "2024-01-01,Hà Nội,69")
  {
    var item := HogPriceData(1, "2024-01-01", "Hà Nội", 68500);
    assert forall i :: 0 <= i < |item.date| ==> item.date[i] != ',';
    assert forall i :: 0 <= i < |item.province| ==> item.province[i] != ',';
    assert CsvValue(item.date) == item.date && CsvValue(item.province) == item.province;
    assert DisplayText(68500) == "69";
    assert CsvRow(item) == "2024-01-01,Hà Nội,69";
    var lines := CsvLines([item]);
    assert lines == [HeaderLine, "2024-01-01,Hà Nội,69"];
    assert JoinLines(lines) == HeaderLine + "\n" + "2024-01-01,Hà Nội,69";
    assert Bom + JoinLines(lines) == Bom + HeaderLine + "\n" + "2024-01-01,Hà Nội,69";

  }
}
