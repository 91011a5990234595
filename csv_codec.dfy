/**
  The browser side of import and export: `parseCSVRow` (a quote-aware scan of one line),
  `convertToCSV` (the export objects as CSV text) and `parseCSV` (finding the header line and
  turning the data lines after it into row objects for the import endpoint).
*/
module CsvCodec {
  import opened Wrappers
  import opened JsText
  import opened JsObject
  import VirtualItems

  // ---------------------------------------------------------------- parseCSVRow

  /** The cells `parseCSVRow` still emits from the rest `s` of a line, inside or outside quotes,
      with `current` the text of the cell being read. A doubled quote inside quotes is one
      literal quote; any other quote toggles quoting; a comma outside quotes ends a cell; every
      cell is trimmed. */
  function Cells(s: string, inQuotes: bool, current: string): (r: seq<string>)
    ensures |r| >= 1
    decreases |s|
  {
    if s == [] then [Trim(current)]
    else if s[0] == '"' then
      if inQuotes && |s| > 1 && s[1] == '"' then Cells(s[2..], inQuotes, current + "\"")
      else Cells(s[1..], !inQuotes, current)
    else if s[0] == ',' && !inQuotes then [Trim(current)] + Cells(s[1..], false, [])
    else Cells(s[1..], inQuotes, current + [s[0]])
  }

  /** Every cell the scan emits is trimmed. */
  lemma {:induction false} CellsTrimmed(s: string, inQuotes: bool, current: string)
    ensures forall k :: 0 <= k < |Cells(s, inQuotes, current)| ==> IsTrimmed(Cells(s, inQuotes, current)[k])
    decreases |s|
  {
    if s == [] {
      TrimSpec(current);
    } else if s[0] == '"' {
      if inQuotes && |s| > 1 && s[1] == '"' {
        CellsTrimmed(s[2..], inQuotes, current + "\"");
      } else {
        CellsTrimmed(s[1..], !inQuotes, current);
      }
    } else if s[0] == ',' && !inQuotes {
      TrimSpec(current);
      CellsTrimmed(s[1..], false, []);
    } else {
      CellsTrimmed(s[1..], inQuotes, current + [s[0]]);
    }
  }

  /** The commas of `s` that stand outside quotes, when every quote switches between inside and
      outside. (A doubled quote inside quotes switches twice and so changes nothing.) */
  function CommasOutside(s: string, inQuotes: bool): nat
    decreases |s|
  {
    if s == [] then 0
    else if s[0] == '"' then CommasOutside(s[1..], !inQuotes)
    else (if s[0] == ',' && !inQuotes then 1 else 0) + CommasOutside(s[1..], inQuotes)
  }

  /** The scan emits one cell more than there are commas outside quotes. */
  lemma {:induction false} CellsCount(s: string, inQuotes: bool, current: string)
    ensures |Cells(s, inQuotes, current)| == 1 + CommasOutside(s, inQuotes)
    decreases |s|
  {
    if s == [] {
    } else if s[0] == '"' {
      if inQuotes && |s| > 1 && s[1] == '"' {
        CellsCount(s[2..], inQuotes, current + "\"");
        assert s[1..][0] == '"' && s[1..][1..] == s[2..];
      } else {
        CellsCount(s[1..], !inQuotes, current);
      }
    } else if s[0] == ',' && !inQuotes {
      CellsCount(s[1..], false, []);
    } else {
      CellsCount(s[1..], inQuotes, current + [s[0]]);
    }
  }

  /** The cells of one line. */
  function ParseRow(line: string): seq<string> {
    Cells(line, false, [])
  }

  /** `parseCSVRow(line)`. */
  method ParseCsvRow(line: string) returns (result: seq<string>)
    ensures result == ParseRow(line)
    ensures |result| == 1 + CommasOutside(line, false)
    ensures forall k :: 0 <= k < |result| ==> IsTrimmed(result[k])
  {
    CellsTrimmed(line, false, []);
    CellsCount(line, false, []);
    result := [];
    var current := "";
    var inQuotes := false;
    var i := 0;
    while i < |line|
      invariant 0 <= i <= |line|
      invariant result + Cells(line[i..], inQuotes, current) == ParseRow(line)
      decreases |line| - i
    {
      var c := line[i];
      assert line[i..][1..] == line[i + 1..];
      if c == '"' {
        if inQuotes && i + 1 < |line| && line[i + 1] == '"' {
          assert line[i..][2..] == line[i + 2..];
          current := current + "\"";
          i := i + 1;
        } else {
          inQuotes := !inQuotes;
        }
      } else if c == ',' && !inQuotes {
        assert result + Cells(line[i..], inQuotes, current)
            == (result + [Trim(current)]) + Cells(line[i + 1..], false, []);
        result := result + [Trim(current)];
        current := "";
      } else {
        current := current + [c];
      }
      i := i + 1;
    }
    result := result + [Trim(current)];
  }

  /** A quoted comma stays inside its cell: `A,"B,C",D` has three cells and two commas outside
      quotes. */
  lemma ParseRowExample()
    ensures ParseRow("A,\"B,C\",D") == ["A", "B,C", "D"]
    ensures CommasOutside("A,\"B,C\",D", false) == 2
  {
    var line := "A,\"B,C\",D";
    assert line[1..] == ",\"B,C\",D" && line[2..] == "\"B,C\",D";
    assert "" + ['A'] == "A";
    TrimSpec("A");
    calc {
      ParseRow(line);
      Cells(line[1..], false, "A");
      ["A"] + Cells(line[2..], false, "");
      == { ExampleQuotedCell(); }
      ["A"] + Cells(",D", false, "B,C");
      == { ExampleLastCell(); }
      ["A", "B,C", "D"];
    }
    CellsCount(line, false, "");
  }

  lemma ExampleQuotedCell()
    ensures Cells("\"B,C\",D", false, "") == Cells(",D", false, "B,C")
  {
    var quoted := "\"B,C\",D";
    assert quoted[1..] == "B,C\",D" && quoted[2..] == ",C\",D" && quoted[3..] == "C\",D";
    assert quoted[4..] == "\",D" && quoted[5..] == ",D";
    assert "" + ['B'] == "B" && "B" + [','] == "B," && "B," + ['C'] == "B,C";
  }

  lemma ExampleLastCell()
    ensures Cells(",D", false, "B,C") == ["B,C", "D"]
  {
    var tail := ",D";
    assert tail[1..] == "D" && tail[2..] == "";
    assert "" + ['D'] == "D";
    TrimSpec("B,C");
    TrimSpec("D");
  }

  function TrimAll(ss: seq<string>): (r: seq<string>)
    ensures |r| == |ss|
    ensures forall k :: 0 <= k < |ss| ==> r[k] == Trim(ss[k])
  {
    seq(|ss|, k requires 0 <= k < |ss| => Trim(ss[k]))
  }

  lemma TrimAllCons(x: string, xs: seq<string>)
    ensures TrimAll([x] + xs) == [Trim(x)] + TrimAll(xs)
  {
    var l, r := TrimAll([x] + xs), [Trim(x)] + TrimAll(xs);
    forall k | 0 <= k < |l| ensures l[k] == r[k] {
      if k > 0 {
        assert ([x] + xs)[k] == xs[k - 1];
      }
    }
  }

  /** Without quotes the scan is the plain split on commas, each piece trimmed. */
  lemma {:induction false} CellsPlain(s: string, current: string)
    requires '"' !in s
    ensures Cells(s, false, current)
         == TrimAll([current + Split(s, ',')[0]] + Split(s, ',')[1..])
    decreases |s|
  {
    if s == [] {
      assert current + [] == current;
    } else {
      var rest := Split(s[1..], ',');
      var pieces := Split(s, ',');
      assert s[0] != '"' && '"' !in s[1..];
      if s[0] == ',' {
        assert Cells(s, false, current) == [Trim(current)] + Cells(s[1..], false, []);
        assert pieces == [[]] + rest;
        assert pieces[0] == [] && pieces[1..] == rest;
        CellsPlain(s[1..], []);
        assert [] + rest[0] == rest[0];
        assert [rest[0]] + rest[1..] == rest;
        assert current + [] == current;
        TrimAllCons(current, rest);
      } else {
        assert pieces == [[s[0]] + rest[0]] + rest[1..];
        assert pieces[0] == [s[0]] + rest[0] && pieces[1..] == rest[1..];
        assert Cells(s, false, current) == Cells(s[1..], false, current + [s[0]]);
        CellsPlain(s[1..], current + [s[0]]);
        assert current + ([s[0]] + rest[0]) == current + [s[0]] + rest[0];
      }
    }
  }

  /** A line without quotes parses as its comma-separated pieces, trimmed. */
  lemma ParseRowPlain(line: string)
    requires '"' !in line
    ensures ParseRow(line) == TrimAll(Split(line, ','))
  {
    CellsPlain(line, []);
    var p := Split(line, ',');
    assert [] + p[0] == p[0];
    assert [p[0]] + p[1..] == p;
  }

  // ---------------------------------------------------------------- convertToCSV

  /** How `convertToCSV` writes one string value: in quotes with its quotes doubled when it
      contains a comma or a quote, as it is otherwise. */
  function Escape(v: string): string {
    if Contains(v, ",") || Contains(v, "\"") then "\"" + DoubleQuotes(v) + "\"" else v
  }

  /** `value || ''` for a missing value, `Escape` for a present one. */
  function CellText(value: Option<string>): string {
    match value
    case None => ""
    case Some(v) => Escape(v)
  }

  function EscapeAll(vs: seq<string>): (r: seq<string>)
    ensures |r| == |vs|
    ensures forall k :: 0 <= k < |vs| ==> r[k] == Escape(vs[k])
  {
    seq(|vs|, k requires 0 <= k < |vs| => Escape(vs[k]))
  }

  /** The line written for one object: its values under `headers`, comma-separated. */
  function RowLine(headers: seq<string>, row: Obj): string {
    Join(seq(|headers|, k requires 0 <= k < |headers| => CellText(Get(row, headers[k]))), ",")
  }

  /** The lines written for `rows`, in order. */
  function RowLines(headers: seq<string>, rows: seq<Obj>): (r: seq<string>)
    ensures |r| == |rows|
    ensures forall k :: 0 <= k < |rows| ==> r[k] == RowLine(headers, rows[k])
    decreases |rows|
  {
    if rows == [] then []
    else RowLines(headers, rows[..|rows| - 1]) + [RowLine(headers, rows[|rows| - 1])]
  }

  /** The header line (the keys of the first object, joined by commas as they are) and then one
      line per object. */
  function CsvLines(data: seq<Obj>): seq<string>
    requires data != []
  {
    [Join(Keys(data[0]), ",")] + RowLines(Keys(data[0]), data)
  }

  /** The text `convertToCSV` returns: empty for no data, the lines joined by newlines otherwise. */
  function CsvText(data: seq<Obj>): string {
    if data == [] then "" else Join(CsvLines(data), "\n")
  }

  /** `convertToCSV(data)`. */
  method ConvertToCsv(data: seq<Obj>) returns (text: string)
    ensures text == CsvText(data)
  {
    if |data| == 0 {
      return "";
    }
    var headers := Keys(data[0]);
    var headerLine := Join(headers, ",");
    var csvRows := [headerLine];
    for k := 0 to |data|
      invariant csvRows == [headerLine] + RowLines(headers, data[..k])
    {
      assert data[..k + 1][..k] == data[..k];
      csvRows := csvRows + [RowLine(headers, data[k])];
    }
    assert data[..|data|] == data;
    text := Join(csvRows, "\n");
  }

  /** No key and no value of the object holds a line break. */
  predicate SingleLine(o: Obj) {
    forall k :: 0 <= k < |o| ==> '\n' !in o[k].0 && '\n' !in o[k].1
  }

  /** A written value holds a line break only when the value does. */
  lemma EscapeExcludes(v: string, c: char)
    requires c != '"' && c !in v
    ensures c !in Escape(v)
  {
    DoubleQuotesWithin(v, c);
  }

  lemma RowLineSingle(headers: seq<string>, row: Obj)
    requires SingleLine(row)
    ensures '\n' !in RowLine(headers, row)
  {
    var cells := seq(|headers|, k requires 0 <= k < |headers| => CellText(Get(row, headers[k])));
    forall k | 0 <= k < |headers| ensures '\n' !in cells[k] {
      GetFirst(row, headers[k]);
      if Get(row, headers[k]).Some? {
        EscapeExcludes(Get(row, headers[k]).value, '\n');
      }
    }
    JoinExcludes(cells, ",", '\n');
  }

  /** A header line without line breaks, followed by the lines of objects without line breaks,
      splits back into those lines. */
  lemma LinesSplit(headerLine: string, headers: seq<string>, data: seq<Obj>)
    requires '\n' !in headerLine
    requires forall k :: 0 <= k < |data| ==> SingleLine(data[k])
    ensures Split(Join([headerLine] + RowLines(headers, data), "\n"), '\n') == [headerLine] + RowLines(headers, data)
  {
    var lines := [headerLine] + RowLines(headers, data);
    forall k | 0 <= k < |lines| ensures '\n' !in lines[k] {
      if k > 0 {
        RowLineSingle(headers, data[k - 1]);
      }
    }
    SplitJoin(lines, '\n');
  }

  /** When no key or value holds a line break, splitting the text on newlines gives back the
      header line (the first object's keys joined by commas) and one line per object, whose cells
      are the values under those keys. */
  lemma CsvTextLines(data: seq<Obj>)
    requires data != []
    requires forall k :: 0 <= k < |data| ==> SingleLine(data[k])
    ensures Split(CsvText(data), '\n') == CsvLines(data)
    ensures |CsvLines(data)| == |data| + 1
    ensures CsvLines(data)[0] == Join(Keys(data[0]), ",")
    ensures forall k :: 0 < k < |CsvLines(data)| ==> CsvLines(data)[k] == RowLine(Keys(data[0]), data[k - 1])
  {
    var headers := Keys(data[0]);
    assert SingleLine(data[0]);
    JoinExcludes(headers, ",", '\n');
    LinesSplit(Join(headers, ","), headers, data);
  }

  /** A written cell is read back as the value: quoting is undone and a value that needed no
      quoting is copied; `rest` is what follows the cell on the line. */
  lemma {:induction false} ScanPlain(v: string, rest: string, current: string)
    requires '"' !in v && ',' !in v
    ensures Cells(v + rest, false, current) == Cells(rest, false, current + v)
    decreases |v|
  {
    if v == [] {
      assert v + rest == rest;
      assert current + v == current;
    } else {
      var next := current + [v[0]];
      assert next + v[1..] == current + v;
      assert (v + rest)[0] == v[0] && (v + rest)[1..] == v[1..] + rest;
      calc {
        Cells(v + rest, false, current);
        Cells(v[1..] + rest, false, next);
        == { ScanPlain(v[1..], rest, next); }
        Cells(rest, false, next + v[1..]);
      }
    }
  }

  /** Inside quotes, the written form of the first character is read as that character. */
  lemma ScanQuotedStep(v: string, rest: string, current: string)
    requires v != []
    ensures Cells(DoubleQuotes(v) + rest, true, current)
         == Cells(DoubleQuotes(v[1..]) + rest, true, current + [v[0]])
  {
    var tail := DoubleQuotes(v[1..]) + rest;
    if v[0] == '"' {
      var s := "\"\"" + tail;
      assert DoubleQuotes(v) + rest == s;
      assert s[0] == '"' && s[1] == '"' && s[2..] == tail;
      assert current + "\"" == current + [v[0]];
    } else {
      var s := [v[0]] + tail;
      assert DoubleQuotes(v) + rest == s;
      assert s[0] == v[0] && s[1..] == tail;
    }
  }

  lemma {:induction false} ScanQuoted(v: string, rest: string, current: string)
    ensures Cells(DoubleQuotes(v) + rest, true, current) == Cells(rest, true, current + v)
    decreases |v|
  {
    if v == [] {
      assert DoubleQuotes(v) + rest == rest;
      assert current + v == current;
    } else {
      var next := current + [v[0]];
      assert next + v[1..] == current + v;
      calc {
        Cells(DoubleQuotes(v) + rest, true, current);
        == { ScanQuotedStep(v, rest, current); }
        Cells(DoubleQuotes(v[1..]) + rest, true, next);
        == { ScanQuoted(v[1..], rest, next); }
        Cells(rest, true, next + v[1..]);
      }
    }
  }

  /** A value is quoted exactly when it holds a comma or a quote. */
  lemma EscapeCases(v: string)
    ensures Escape(v) == if ',' in v || '"' in v then "\"" + DoubleQuotes(v) + "\"" else v
  {
    ContainsChar(v, ',');
    ContainsChar(v, '"');
  }

  lemma QuotedConcat(d: string, rest: string)
    ensures "\"" + d + "\"" + rest == ['"'] + (d + (['"'] + rest))
  {
  }

  /** A quoted cell is read back as the value inside the quotes. */
  lemma ScanQuotedCell(v: string, rest: string)
    requires rest == [] || rest[0] == ','
    ensures Cells("\"" + DoubleQuotes(v) + "\"" + rest, false, []) == Cells(rest, false, v)
  {
    assert [] + v == v;
    var close := ['"'] + rest;
    var inner := DoubleQuotes(v) + close;
    QuotedConcat(DoubleQuotes(v), rest);
    assert (['"'] + inner)[1..] == inner;
    assert close[1..] == rest && (|close| > 1 ==> close[1] == ',');
    calc {
      Cells(['"'] + inner, false, []);
      Cells(inner, true, []);
      == { ScanQuoted(v, close, []); }
      Cells(close, true, [] + v);
      Cells(rest, false, v);
    }
  }

  lemma ScanCell(v: string, rest: string)
    requires rest == [] || rest[0] == ','
    ensures Cells(Escape(v) + rest, false, []) == Cells(rest, false, v)
  {
    EscapeCases(v);
    if ',' in v || '"' in v {
      ScanQuotedCell(v, rest);
    } else {
      ScanPlain(v, rest, []);
      assert [] + v == v;
    }
  }

  /** Writing values as cells of one line and scanning the line gives the values back, trimmed. */
  lemma {:induction false} CellRoundTrip(vs: seq<string>)
    requires |vs| >= 1
    ensures ParseRow(Join(EscapeAll(vs), ",")) == TrimAll(vs)
    decreases |vs|
  {
    var es := EscapeAll(vs);
    if |vs| == 1 {
      ScanCell(vs[0], []);
      assert Escape(vs[0]) + [] == Escape(vs[0]);
    } else {
      var tail := Join(es[1..], ",");
      assert es[1..] == EscapeAll(vs[1..]);
      CellRoundTrip(vs[1..]);
      assert Join(es, ",") == Escape(vs[0]) + ("," + tail);
      ScanCell(vs[0], "," + tail);
      var s := "," + tail;
      assert s[0] == ',' && s[1..] == tail;
      assert Cells(s, false, vs[0]) == [Trim(vs[0])] + Cells(tail, false, []);
      TrimAllCons(vs[0], vs[1..]);
      assert [vs[0]] + vs[1..] == vs;
    }
  }

  /** Each line written for an object scans back to the object's values under the headers,
      trimmed, with `''` for a missing key. */
  lemma RowLineRoundTrip(headers: seq<string>, row: Obj)
    requires |headers| >= 1
    ensures ParseRow(RowLine(headers, row))
         == seq(|headers|, k requires 0 <= k < |headers| => Trim(GetOrEmpty(row, headers[k])))
  {
    var vs := seq(|headers|, k requires 0 <= k < |headers| => GetOrEmpty(row, headers[k]));
    forall k | 0 <= k < |headers| ensures CellText(Get(row, headers[k])) == EscapeAll(vs)[k] {
      ContainsChar([], ',');
      ContainsChar([], '"');
    }
    assert seq(|headers|, k requires 0 <= k < |headers| => CellText(Get(row, headers[k]))) == EscapeAll(vs);
    CellRoundTrip(vs);
  }

  // ---------------------------------------------------------------- parseCSV

  const NoHeaderRow := "Could not find valid header row in CSV"

  /** The header test on a trimmed line: non-empty and mentioning both `Platform` and `Title`. */
  predicate IsHeaderLine(line: string) {
    line != [] && Contains(line, "Platform") && Contains(line, "Title")
  }

  /** Line `k` trims to a header line. */
  predicate HeaderAt(lines: seq<string>, k: int)
    requires 0 <= k < |lines|
  {
    IsHeaderLine(Trim(lines[k]))
  }

  /** The index of the first line from `from` on that trims to a header line. */
  function FirstHeader(lines: seq<string>, from: nat): (r: Option<nat>)
    requires from <= |lines|
    ensures r.None? <==> forall k :: from <= k < |lines| ==> !HeaderAt(lines, k)
    ensures r.Some? ==> from <= r.value < |lines| && HeaderAt(lines, r.value)
    ensures r.Some? ==> forall k :: from <= k < r.value ==> !HeaderAt(lines, k)
    decreases |lines| - from
  {
    if from == |lines| then None
    else if HeaderAt(lines, from) then Some(from)
    else FirstHeader(lines, from + 1)
  }

  /** Each piece trimmed and stripped of quotes. */
  function CleanNames(pieces: seq<string>): (r: seq<string>)
    ensures |r| == |pieces|
    ensures forall k :: 0 <= k < |pieces| ==> r[k] == RemoveQuotes(Trim(pieces[k]))
    decreases |pieces|
  {
    if pieces == [] then []
    else CleanNames(pieces[..|pieces| - 1]) + [RemoveQuotes(Trim(pieces[|pieces| - 1]))]
  }

  /** The header names as `parseCSV` reads them: the trimmed line split on every comma,
      each piece trimmed and stripped of quotes. */
  function HeaderCells(line: string): (r: seq<string>)
    ensures |r| == |Split(line, ',')|
  {
    CleanNames(Split(line, ','))
  }

  /** A line of commas and blanks only. */
  predicate BlankCells(line: string) {
    forall k :: 0 <= k < |Split(line, ',')| ==> Trim(Split(line, ',')[k]) == []
  }

  /** A row with a non-empty first cell (Platform) and a non-empty eighth cell (Title). */
  predicate HasKeyCells(values: seq<string>) {
    |values| > 7 && values[0] != [] && values[7] != []
  }

  /** A trimmed data line that yields a row object. */
  predicate IsRecordLine(line: string) {
    line != [] && !BlankCells(line) && HasKeyCells(ParseRow(line))
  }

  /** `values[index] || ''`. */
  function CellAt(values: seq<string>, index: nat): string {
    if index < |values| then values[index] else ""
  }

  /** The row object: each header in turn set to its cell, so a repeated header keeps the
      position of its first occurrence and the cell of its last. */
  function RowObject(headers: seq<string>, values: seq<string>): (o: Obj)
    decreases |headers|
  {
    if headers == [] then []
    else
      var n := |headers| - 1;
      Put(RowObject(headers[..n], values), headers[n], CellAt(values, n))
  }

  /** The row objects of the data lines, in order. */
  function Records(headers: seq<string>, lines: seq<string>): (r: seq<Obj>)
    decreases |lines|
  {
    if lines == [] then []
    else
      var n := |lines| - 1;
      var line := Trim(lines[n]);
      Records(headers, lines[..n])
        + (if IsRecordLine(line) then [RowObject(headers, ParseRow(line))] else [])
  }

  /** What `parseCSV(csvText)` returns or throws when `names` reads the names of the trimmed
      header line. */
  function ParsedWith(csvText: string, names: string -> seq<string>): Result<seq<Obj>> {
    var lines := Split(csvText, '\n');
    match FirstHeader(lines, 0)
    case None => Err(NoHeaderRow)
    case Some(h) => Ok(Records(names(Trim(lines[h])), lines[h + 1..|lines|]))
  }

  /** What `parseCSV(csvText)` returns or throws: the header line is split on every comma, the
      data lines are read with the quote-aware scan. */
  function Parsed(csvText: string): Result<seq<Obj>> {
    ParsedWith(csvText, HeaderCells)
  }

  /** One more data line extends the objects by the row it yields, if any. */
  lemma RecordsStep(headers: seq<string>, lines: seq<string>, start: nat, j: nat)
    requires start <= j < |lines|
    ensures Records(headers, lines[start..j + 1])
         == Records(headers, lines[start..j])
            + (if IsRecordLine(Trim(lines[j])) then [RowObject(headers, ParseRow(Trim(lines[j])))] else [])
  {
    var next := lines[start..j + 1];
    assert next[..|next| - 1] == lines[start..j];
    assert next[|next| - 1] == lines[j];
  }

  /** The search for the header line: its index and its names, or `-1` when there is none. */
  method FindHeaderRow(lines: seq<string>) returns (headerRowIndex: int, headers: seq<string>)
    ensures headerRowIndex == -1 <==> FirstHeader(lines, 0).None?
    ensures headerRowIndex != -1 ==>
      headerRowIndex == FirstHeader(lines, 0).value && headers == HeaderCells(Trim(lines[headerRowIndex]))
  {
    headerRowIndex := -1;
    headers := [];
    var i := 0;
    while i < |lines|
      invariant 0 <= i <= |lines|
      invariant FirstHeader(lines, 0) == FirstHeader(lines, i)
      invariant headerRowIndex == -1
    {
      var line := Trim(lines[i]);
      if line != [] && Contains(line, "Platform") && Contains(line, "Title") {
        headerRowIndex := i;
        headers := HeaderCells(line);
        break;
      }
      i := i + 1;
    }
  }

  /** `headers.forEach((header, index) => row[header] = values[index] || '')`. */
  method BuildRow(headers: seq<string>, values: seq<string>) returns (row: Obj)
    ensures row == RowObject(headers, values)
  {
    row := [];
    for index := 0 to |headers|
      invariant row == RowObject(headers[..index], values)
    {
      assert headers[..index + 1][..index] == headers[..index];
      row := Put(row, headers[index], CellAt(values, index));
    }
    assert headers[..|headers|] == headers;
  }

  /** The body of the data-line loop for one trimmed line: blank lines, comma-only lines and
      lines without a Platform and a Title cell yield nothing. */
  method ReadDataLine(headers: seq<string>, line: string) returns (kept: seq<Obj>)
    ensures kept == if IsRecordLine(line) then [RowObject(headers, ParseRow(line))] else []
  {
    if line == [] {
      return [];
    }
    if BlankCells(line) {
      return [];
    }
    var values := ParseCsvRow(line);
    if |values| > 0 && values[0] != [] && |values| > 7 && values[7] != [] {
      var row := BuildRow(headers, values);
      return [row];
    }
    return [];
  }

  /** `parseCSV(csvText)`. */
  method ParseCsv(csvText: string) returns (r: Result<seq<Obj>>)
    ensures r == Parsed(csvText)
  {
    var lines := Split(csvText, '\n');
    var headerRowIndex, headers := FindHeaderRow(lines);
    if headerRowIndex == -1 {
      return Err(NoHeaderRow);
    }
    var data := ReadDataLines(headers, lines, headerRowIndex + 1);
    r := Ok(data);
  }

  /** The data-line loop: the lines from `start` on, read in order. */
  method ReadDataLines(headers: seq<string>, lines: seq<string>, start: nat) returns (data: seq<Obj>)
    requires start <= |lines|
    ensures data == Records(headers, lines[start..|lines|])
  {
    data := [];
    for j := start to |lines|
      invariant data == Records(headers, lines[start..j])
    {
      RecordsStep(headers, lines, start, j);
      var kept := ReadDataLine(headers, Trim(lines[j]));
      data := data + kept;
    }
  }

  /** A row object has exactly the header names as keys. */
  lemma {:induction false} RowObjectHas(headers: seq<string>, values: seq<string>, key: string)
    ensures Get(RowObject(headers, values), key).None? <==> key !in headers
    decreases |headers|
  {
    if headers != [] {
      var n := |headers| - 1;
      GetPut(RowObject(headers[..n], values), headers[n], CellAt(values, n), key);
      if key != headers[n] {
        RowObjectHas(headers[..n], values, key);
        if key in headers {
          var m :| 0 <= m < |headers| && headers[m] == key;
          assert headers[..n][m] == key;
        }
        if key in headers[..n] {
          var m :| 0 <= m < n && headers[..n][m] == key;
          assert headers[m] == key;
        }
      }
    }
  }

  /** A name reads the cell of the last column carrying it (`''` past the end of the row). */
  lemma {:induction false} RowObjectGet(headers: seq<string>, values: seq<string>, k: nat)
    requires k < |headers|
    requires forall m :: k < m < |headers| ==> headers[m] != headers[k]
    ensures Get(RowObject(headers, values), headers[k]) == Some(CellAt(values, k))
    decreases |headers|
  {
    var n := |headers| - 1;
    GetPut(RowObject(headers[..n], values), headers[n], CellAt(values, n), headers[k]);
    if k < n {
      RowObjectGet(headers[..n], values, k);
    }
  }

  /** Every object `parseCSV` returns comes from a kept data line below the header line, keyed by
      the header names. */
  lemma {:induction false} RecordsFrom(headers: seq<string>, lines: seq<string>, o: Obj)
    requires o in Records(headers, lines)
    ensures exists k :: 0 <= k < |lines| && IsRecordLine(Trim(lines[k]))
                     && o == RowObject(headers, ParseRow(Trim(lines[k])))
    decreases |lines|
  {
    var n := |lines| - 1;
    if o in Records(headers, lines[..n]) {
      RecordsFrom(headers, lines[..n], o);
      var k :| 0 <= k < n && IsRecordLine(Trim(lines[..n][k]))
               && o == RowObject(headers, ParseRow(Trim(lines[..n][k])));
      assert lines[..n][k] == lines[k];
    } else {
      assert IsRecordLine(Trim(lines[n]));
    }
  }

  /** `parseCSV` throws exactly when no line is a header line; otherwise every object it returns
      has the header names as keys, and a Platform and Title cell that are non-empty. */
  lemma ParsedShape(csvText: string, names: string -> seq<string>)
    ensures ParsedWith(csvText, names).Err? <==>
      forall k :: 0 <= k < |Split(csvText, '\n')| ==> !HeaderAt(Split(csvText, '\n'), k)
    ensures ParsedWith(csvText, names).Err? ==> ParsedWith(csvText, names).message == NoHeaderRow
    ensures ParsedWith(csvText, names).Ok? ==>
      forall o :: o in ParsedWith(csvText, names).value ==>
        exists values :: HasKeyCells(values) && o == RowObject(HeaderOf(csvText, names), values)
  {
    if ParsedWith(csvText, names).Ok? {
      var lines := Split(csvText, '\n');
      var h := FirstHeader(lines, 0).value;
      forall o | o in ParsedWith(csvText, names).value
        ensures exists values :: HasKeyCells(values) && o == RowObject(HeaderOf(csvText, names), values)
      {
        RecordsFrom(names(Trim(lines[h])), lines[h + 1..|lines|], o);
      }
    }
  }

  /** The header names `parseCSV` reads with `names`, when it finds a header line. */
  function HeaderOf(csvText: string, names: string -> seq<string>): seq<string> {
    var lines := Split(csvText, '\n');
    match FirstHeader(lines, 0)
    case None => []
    case Some(h) => names(Trim(lines[h]))
  }

  // ---------------------------------------------------------------- header names with commas

  /** Header names as read never hold a comma: the header line is split on every comma,
      quoted or not. */
  lemma HeaderCellsCommaFree(line: string)
    ensures forall k :: 0 <= k < |HeaderCells(line)| ==> ',' !in HeaderCells(line)[k]
  {
    var pieces := Split(line, ',');
    forall k | 0 <= k < |pieces| ensures ',' !in HeaderCells(line)[k] {
      TrimWithin(pieces[k]);
      RemoveQuotesWithin(Trim(pieces[k]), ',');
    }
  }

  /** So no object `parseCSV` returns has a key with a comma in it. */
  lemma ParsedLacksCommaKeys(csvText: string, key: string)
    requires ',' in key
    requires Parsed(csvText).Ok?
    ensures forall o :: o in Parsed(csvText).value ==> Get(o, key) == None
  {
    HeaderCellsCommaFree(Trim(Split(csvText, '\n')[FirstHeader(Split(csvText, '\n'), 0).value]));
    ParsedShape(csvText, HeaderCells);
    forall o | o in Parsed(csvText).value ensures Get(o, key) == None {
      var values :| HasKeyCells(values) && o == RowObject(HeaderOf(csvText, HeaderCells), values);
      RowObjectHas(HeaderOf(csvText, HeaderCells), values, key);
    }
  }

  /** The export's column name for the bonus media URL holds a comma. */
  lemma BonusLabelHasComma()
    ensures ',' in VirtualItems.Label(VirtualItems.BonusMediaUrl)
  {
    assert VirtualItems.Label(VirtualItems.BonusMediaUrl)[21] == ',';
  }

  /** The export writes the bonus media URL under a column name with a comma in it
      (`VirtualItems.ExportRowGet`), and an object `parseCSV` returns therefore never
      carries it: the store reads `''` for it, whatever the file holds. */
  lemma BonusMediaUrlNeverRead(csvText: string)
    requires Parsed(csvText).Ok?
    ensures forall o :: o in Parsed(csvText).value ==>
      VirtualItems.RowInput(o)[VirtualItems.BonusMediaUrl] == ""
  {
    BonusLabelHasComma();
    ParsedLacksCommaKeys(csvText, VirtualItems.Label(VirtualItems.BonusMediaUrl));
  }

  /** Splitting on every comma a header line whose names hold no comma except one name in the
      middle, `b1 + "," + b2`, gives one piece more: that name falls apart into `b1` and `b2`. */
  lemma SplitHeaderPieces(keys: seq<string>, at: nat, b1: string, b2: string)
    requires 0 < at < |keys| - 1
    requires forall i :: 0 <= i < |keys| && i != at ==> ',' !in keys[i]
    requires keys[at] == b1 + "," + b2 && ',' !in b1 && ',' !in b2
    ensures Split(Join(keys, ","), ',') == keys[..at] + [b1, b2] + keys[at + 1..]
  {
    var front, back := keys[..at], keys[at + 1..];
    var pieces := front + ([b1, b2] + back);
    assert pieces == keys[..at] + [b1, b2] + keys[at + 1..];
    forall k | 0 <= k < |pieces| ensures ',' !in pieces[k] {
      if k < at {
        assert pieces[k] == keys[k];
      } else if k > at + 1 {
        assert pieces[k] == keys[k - 1];
      }
    }
    assert keys == front + keys[at..];
    JoinAppend(front, keys[at..], ",");
    JoinCut(keys[at..], b1, b2);
    JoinAppend(front, [b1, b2] + back, ",");
    SplitJoin(pieces, ',');
  }

  /** Cutting the first name `b1 + "," + b2` of a list in two leaves its comma-joined text as it is. */
  lemma JoinCut(names: seq<string>, b1: string, b2: string)
    requires |names| >= 2 && names[0] == b1 + "," + b2
    ensures Join(names, ",") == Join([b1, b2] + names[1..], ",")
  {
    var back := names[1..];
    assert ([b1, b2] + back)[1..] == [b2] + back && ([b2] + back)[1..] == back;
  }

  /** The export's column names: 44 of them, no comma in any but the bonus media URL's, and the
      last three names as listed. */
  lemma ExportKeyCommas(fields: map<VirtualItems.Field, string>)
    requires VirtualItems.Complete(fields)
    ensures var keys := Keys(VirtualItems.ExportRow(fields));
      && |keys| == 44
      && (forall i :: 0 <= i < 44 && i != 41 ==> ',' !in keys[i])
      && keys[41] == VirtualItems.Label(VirtualItems.BonusMediaUrl)
      && keys[42] == VirtualItems.Label(VirtualItems.Copyright)
      && keys[43] == VirtualItems.Label(VirtualItems.Comments)
  {
    var keys := Keys(VirtualItems.ExportRow(fields));
    VirtualItems.ExportRowKeys(fields);
    forall i | 0 <= i < 44 && i != 41 ensures ',' !in keys[i] {
      assert keys[i] == VirtualItems.Label(VirtualItems.FieldAt(i));
      VirtualItems.IndexFieldAt(i);
      VirtualItems.LabelCommaFree(VirtualItems.FieldAt(i));
    }
    assert VirtualItems.FieldAt(41) == VirtualItems.BonusMediaUrl;
    assert VirtualItems.FieldAt(42) == VirtualItems.Copyright;
    assert VirtualItems.FieldAt(43) == VirtualItems.Comments;
  }

  /** The export's header line needs no trimming, and split on every comma it gives the column
      names with the bonus media URL's cut in two. */
  lemma ExportHeaderLine(fields: map<VirtualItems.Field, string>)
    requires VirtualItems.Complete(fields)
    ensures var keys := Keys(VirtualItems.ExportRow(fields));
      && |keys| == 44
      && Trim(Join(keys, ",")) == Join(keys, ",")
      && Split(Join(keys, ","), ',') == keys[..41] + ["Bonus Media URL (e.g.", " YouTube link)"] + keys[42..]
  {
    var keys := Keys(VirtualItems.ExportRow(fields));
    ExportKeyCommas(fields);
    VirtualItems.BonusLabelPieces();
    SplitHeaderPieces(keys, 41, "Bonus Media URL (e.g.", " YouTube link)");
    ExportKeysAt(fields);
    ExportNamesTrimmed();
    JoinFirst(keys, ",");
    JoinLast(keys, ",");
    TrimSpec(Join(keys, ","));
  }

  /** Read as written, the export's header line gives 45 names, the last four being the two
      halves of the bonus media URL's label, then Copyright and Comments. */
  lemma ExportHeaderNames(fields: map<VirtualItems.Field, string>)
    requires VirtualItems.Complete(fields)
    ensures var names := HeaderCells(Trim(Join(Keys(VirtualItems.ExportRow(fields)), ",")));
      && |names| == 45
      && names[41] == "Bonus Media URL (e.g." && names[42] == "YouTube link)"
      && names[43] == VirtualItems.Label(VirtualItems.Copyright)
      && names[44] == VirtualItems.Label(VirtualItems.Comments)
  {
    var keys := Keys(VirtualItems.ExportRow(fields));
    ExportHeaderLine(fields);
    var pieces := Split(Join(keys, ","), ',');
    assert pieces[41] == "Bonus Media URL (e.g." && pieces[42] == " YouTube link)";
    BonusHalvesClean();
    ExportHeaderLast(fields);
  }

  /** The last two of the 45 names are the Copyright and Comments labels. */
  lemma ExportHeaderLast(fields: map<VirtualItems.Field, string>)
    requires VirtualItems.Complete(fields)
    ensures var names := HeaderCells(Trim(Join(Keys(VirtualItems.ExportRow(fields)), ",")));
      && |names| == 45
      && names[43] == VirtualItems.Label(VirtualItems.Copyright)
      && names[44] == VirtualItems.Label(VirtualItems.Comments)
  {
    var keys := Keys(VirtualItems.ExportRow(fields));
    ExportHeaderLine(fields);
    ExportKeyCommas(fields);
    var pieces := Split(Join(keys, ","), ',');
    assert pieces[43] == keys[42] && pieces[44] == keys[43];
    LastNamesClean();
  }

  /** The two halves of the bonus media URL's label, as header names. */
  lemma BonusHalvesClean()
    ensures RemoveQuotes(Trim("Bonus Media URL (e.g.")) == "Bonus Media URL (e.g."
    ensures RemoveQuotes(Trim(" YouTube link)")) == "YouTube link)"
  {
    HeadClean("Bonus Media URL (e.g.");
    TailClean(" YouTube link)");
  }

  lemma HeadClean(head: string)
    requires head == "Bonus Media URL (e.g."
    ensures RemoveQuotes(Trim(head)) == head
  {
    assert IsTrimmed(head) && '"' !in head;
    NameClean(head);
  }

  lemma TailClean(tail: string)
    requires tail == " YouTube link)"
    ensures RemoveQuotes(Trim(tail)) == "YouTube link)"
  {
    assert tail[1..] == "YouTube link)";
    assert IsTrimmed(tail[1..]) && '"' !in tail[1..];
    BlankNameClean(tail);
  }

  /** The Copyright and Comments labels are read as they are. */
  lemma LastNamesClean()
    ensures RemoveQuotes(Trim(VirtualItems.Label(VirtualItems.Copyright))) == VirtualItems.Label(VirtualItems.Copyright)
    ensures RemoveQuotes(Trim(VirtualItems.Label(VirtualItems.Comments))) == VirtualItems.Label(VirtualItems.Comments)
  {
    LabelClean(VirtualItems.Copyright);
    LabelClean(VirtualItems.Comments);
  }

  /** The labels of the last two columns have no blank at either end and no quote. */
  lemma LabelClean(f: VirtualItems.Field)
    requires f == VirtualItems.Copyright || f == VirtualItems.Comments
    ensures RemoveQuotes(Trim(VirtualItems.Label(f))) == VirtualItems.Label(f)
  {
    var name := VirtualItems.Label(f);
    assert IsTrimmed(name) && '"' !in name;
    NameClean(name);
  }

  /** A trimmed name without quotes is read as it is. */
  lemma NameClean(name: string)
    requires IsTrimmed(name) && '"' !in name
    ensures RemoveQuotes(Trim(name)) == name
  {
    TrimSpec(name);
  }

  /** A name behind a single blank is read without the blank. */
  lemma BlankNameClean(blankName: string)
    requires blankName != [] && blankName[0] == ' ' && IsTrimmed(blankName[1..]) && '"' !in blankName[1..]
    ensures RemoveQuotes(Trim(blankName)) == blankName[1..]
  {
    TrimSpec(blankName[1..]);
    assert Trim(blankName) == Trim(blankName[1..]);
  }

  /** So in every object `parseCSV` builds under an export's header from a line of 44 cells, the
      Copyright column holds the last cell, which the export wrote for the comments, and the
      Comments column holds `''`. */
  lemma ExportColumnsShift(fields: map<VirtualItems.Field, string>, values: seq<string>)
    requires VirtualItems.Complete(fields)
    requires |values| == 44
    ensures var o := RowObject(HeaderCells(Trim(Join(Keys(VirtualItems.ExportRow(fields)), ","))), values);
      && Get(o, VirtualItems.Label(VirtualItems.Copyright)) == Some(values[43])
      && Get(o, VirtualItems.Label(VirtualItems.Comments)) == Some("")
  {
    var names := HeaderCells(Trim(Join(Keys(VirtualItems.ExportRow(fields)), ",")));
    ExportHeaderLast(fields);
    LastLabelsDiffer();
    ExtraName(names, values);
  }

  /** The Copyright and Comments columns have different labels. */
  lemma LastLabelsDiffer()
    ensures VirtualItems.Label(VirtualItems.Copyright) != VirtualItems.Label(VirtualItems.Comments)
  {
    VirtualItems.LabelInverse(VirtualItems.Copyright);
    VirtualItems.LabelInverse(VirtualItems.Comments);
  }

  /** With one name more than cells, the last name reads `''` and the one before it reads the
      last cell. */
  lemma ExtraName(names: seq<string>, values: seq<string>)
    requires |names| == |values| + 1 && |values| >= 1
    requires names[|names| - 1] != names[|names| - 2]
    ensures Get(RowObject(names, values), names[|names| - 2]) == Some(values[|values| - 1])
    ensures Get(RowObject(names, values), names[|names| - 1]) == Some("")
  {
    RowObjectGet(names, values, |names| - 1);
    RowObjectGet(names, values, |names| - 2);
  }

  /** The line written for a complete item under the export's header scans to 44 cells, the last
      one its comments; so, read back as written, the item's comments land in its Copyright and
      its Comments come back empty. */
  lemma ExportCommentsShift(fields: map<VirtualItems.Field, string>, item: map<VirtualItems.Field, string>)
    requires VirtualItems.Complete(fields) && VirtualItems.Complete(item)
    ensures var keys := Keys(VirtualItems.ExportRow(fields));
      var o := RowObject(HeaderCells(Trim(Join(keys, ","))), ParseRow(RowLine(keys, VirtualItems.ExportRow(item))));
      && VirtualItems.RowInput(o)[VirtualItems.Copyright] == Trim(item[VirtualItems.Comments])
      && VirtualItems.RowInput(o)[VirtualItems.Comments] == ""
  {
    var keys := Keys(VirtualItems.ExportRow(fields));
    var row := VirtualItems.ExportRow(item);
    var values := ParseRow(RowLine(keys, row));
    VirtualItems.ExportRowKeys(fields);
    RowLineRoundTrip(keys, row);
    assert keys[43] == VirtualItems.Label(VirtualItems.FieldAt(43)) == VirtualItems.Label(VirtualItems.Comments);
    VirtualItems.ExportRowGet(item, VirtualItems.Comments);
    assert values[43] == Trim(item[VirtualItems.Comments]);
    ExportColumnsShift(fields, values);
  }

  /** The header line as it is evidently meant to be written: each name escaped like a value. */
  function QuotedHeaderLine(keys: seq<string>): string {
    Join(EscapeAll(keys), ",")
  }

  /** The header names as they are evidently meant to be read: with the quote-aware scan. */
  function QuotedHeaderCells(line: string): seq<string> {
    ParseRow(line)
  }

  /** The lines `convertToCSV` evidently means to write: the header names escaped like values. */
  function CsvLinesQuoted(data: seq<Obj>): seq<string>
    requires data != []
  {
    [QuotedHeaderLine(Keys(data[0]))] + RowLines(Keys(data[0]), data)
  }

  /** The text `convertToCSV` evidently means to return. */
  function CsvTextQuoted(data: seq<Obj>): string {
    if data == [] then "" else Join(CsvLinesQuoted(data), "\n")
  }

  /** What `parseCSV(csvText)` evidently means to return: the header line read with the same
      quote-aware scan as the data lines. */
  function ParsedQuoted(csvText: string): Result<seq<Obj>> {
    ParsedWith(csvText, QuotedHeaderCells)
  }

  /** The corrected text splits back into its lines just as the text written today does. */
  lemma CsvTextQuotedLines(data: seq<Obj>)
    requires data != []
    requires forall k :: 0 <= k < |data| ==> SingleLine(data[k])
    ensures Split(CsvTextQuoted(data), '\n') == CsvLinesQuoted(data)
    ensures |CsvLinesQuoted(data)| == |data| + 1
  {
    var headers := Keys(data[0]);
    assert SingleLine(data[0]);
    forall k | 0 <= k < |headers| ensures '\n' !in EscapeAll(headers)[k] {
      EscapeExcludes(headers[k], '\n');
    }
    JoinExcludes(EscapeAll(headers), ",", '\n');
    LinesSplit(QuotedHeaderLine(headers), headers, data);
  }

  /** Names written with `QuotedHeaderLine` are read back by `QuotedHeaderCells` from the trimmed
      line, trimmed, commas and quotes included, provided the first and the last name are
      non-empty and have no surrounding whitespace. */
  lemma QuotedHeaderRoundTrip(keys: seq<string>)
    requires |keys| >= 1
    requires keys[0] != [] && IsTrimmed(keys[0])
    requires keys[|keys| - 1] != [] && IsTrimmed(keys[|keys| - 1])
    ensures QuotedHeaderCells(Trim(QuotedHeaderLine(keys))) == TrimAll(keys)
  {
    var es := EscapeAll(keys);
    var first, last := keys[0], keys[|keys| - 1];
    EscapeCases(first);
    EscapeCases(last);
    JoinFirst(es, ",");
    JoinLast(es, ",");
    assert IsTrimmed(QuotedHeaderLine(keys));
    TrimSpec(QuotedHeaderLine(keys));
    CellRoundTrip(keys);
  }

  /** A name with no surrounding whitespace is read back as written. */
  lemma QuotedNameAt(keys: seq<string>, i: nat)
    requires |keys| >= 1
    requires keys[0] != [] && IsTrimmed(keys[0])
    requires keys[|keys| - 1] != [] && IsTrimmed(keys[|keys| - 1])
    requires i < |keys| && IsTrimmed(keys[i])
    ensures var names := QuotedHeaderCells(Trim(QuotedHeaderLine(keys)));
      |names| == |keys| && names[i] == keys[i]
  {
    QuotedHeaderRoundTrip(keys);
    TrimSpec(keys[i]);
  }

  /** The export's first, last and bonus media URL column names have no surrounding whitespace. */
  lemma ExportNamesTrimmed()
    ensures TrimmedName(VirtualItems.Label(VirtualItems.Platform))
    ensures TrimmedName(VirtualItems.Label(VirtualItems.Comments))
    ensures TrimmedName(VirtualItems.Label(VirtualItems.BonusMediaUrl))
  {
  }

  predicate TrimmedName(name: string) {
    name != [] && !IsSpace(name[0]) && !IsSpace(name[|name| - 1])
  }

  /** Where the export puts the names that matter here. */
  lemma ExportKeysAt(fields: map<VirtualItems.Field, string>)
    requires VirtualItems.Complete(fields)
    ensures var keys := Keys(VirtualItems.ExportRow(fields));
      && |keys| == 44
      && keys[0] == VirtualItems.Label(VirtualItems.Platform)
      && keys[41] == VirtualItems.Label(VirtualItems.BonusMediaUrl)
      && keys[43] == VirtualItems.Label(VirtualItems.Comments)
  {
    VirtualItems.ExportRowKeys(fields);
    assert VirtualItems.FieldAt(0) == VirtualItems.Platform;
    assert VirtualItems.FieldAt(41) == VirtualItems.BonusMediaUrl;
    assert VirtualItems.FieldAt(43) == VirtualItems.Comments;
  }

  /** No column label of the export has whitespace at either end. */
  lemma LabelTrimmed(f: VirtualItems.Field)
    ensures IsTrimmed(VirtualItems.Label(f))
  {
    var i := VirtualItems.Index(f);
    if i < 4 { LabelTrimmedPart1(f); }
    else if i < 8 { LabelTrimmedPart2(f); }
    else if i < 12 { LabelTrimmedPart3(f); }
    else if i < 16 { LabelTrimmedPart4(f); }
    else if i < 20 { LabelTrimmedPart5(f); }
    else if i < 24 { LabelTrimmedPart6(f); }
    else if i < 28 { LabelTrimmedPart7(f); }
    else if i < 32 { LabelTrimmedPart8(f); }
    else if i < 37 { LabelTrimmedPart9(f); }
    else if i == 37 { VirtualItems.FieldAtIndex(f); LongLabelTrimmed(); }
    else if i < 41 { LabelTrimmedPart10(f); }
    else { LabelTrimmedPart11(f); }
  }

  lemma LabelTrimmedPart1(f: VirtualItems.Field)
    requires 0 <= VirtualItems.Index(f) < 4
    ensures IsTrimmed(VirtualItems.Label(f))
  {
  }

  lemma LabelTrimmedPart2(f: VirtualItems.Field)
    requires 4 <= VirtualItems.Index(f) < 8
    ensures IsTrimmed(VirtualItems.Label(f))
  {
  }

  lemma LabelTrimmedPart3(f: VirtualItems.Field)
    requires 8 <= VirtualItems.Index(f) < 12
    ensures IsTrimmed(VirtualItems.Label(f))
  {
  }

  lemma LabelTrimmedPart4(f: VirtualItems.Field)
    requires 12 <= VirtualItems.Index(f) < 16
    ensures IsTrimmed(VirtualItems.Label(f))
  {
  }

  lemma LabelTrimmedPart5(f: VirtualItems.Field)
    requires 16 <= VirtualItems.Index(f) < 20
    ensures IsTrimmed(VirtualItems.Label(f))
  {
  }

  lemma LabelTrimmedPart6(f: VirtualItems.Field)
    requires 20 <= VirtualItems.Index(f) < 24
    ensures IsTrimmed(VirtualItems.Label(f))
  {
  }

  lemma LabelTrimmedPart7(f: VirtualItems.Field)
    requires 24 <= VirtualItems.Index(f) < 28
    ensures IsTrimmed(VirtualItems.Label(f))
  {
  }

  lemma LabelTrimmedPart8(f: VirtualItems.Field)
    requires 28 <= VirtualItems.Index(f) < 32
    ensures IsTrimmed(VirtualItems.Label(f))
  {
  }

  lemma LabelTrimmedPart9(f: VirtualItems.Field)
    requires 32 <= VirtualItems.Index(f) < 37
    ensures IsTrimmed(VirtualItems.Label(f))
  {
  }

  lemma LabelTrimmedPart10(f: VirtualItems.Field)
    requires 38 <= VirtualItems.Index(f) < 41
    ensures IsTrimmed(VirtualItems.Label(f))
  {
  }

  lemma LabelTrimmedPart11(f: VirtualItems.Field)
    requires 41 <= VirtualItems.Index(f) < 44
    ensures IsTrimmed(VirtualItems.Label(f))
  {
  }

  lemma LongLabelTrimmed()
    ensures IsTrimmed(VirtualItems.Label(VirtualItems.LevelRankUpgradeType))
  {
    var head, tail := "Level/Rank Upgrade Type", " (Dynamic or Additional)";
    assert VirtualItems.Label(VirtualItems.LevelRankUpgradeType) == head + tail;
    assert (head + tail)[0] == head[0] == 'L';
    assert (head + tail)[|head + tail| - 1] == tail[|tail| - 1] == ')';
  }

  /** With the evident fix, every column name of the export is read back from the header line,
      the bonus media URL's included, so no column shifts. */
  lemma QuotedExportHeader(fields: map<VirtualItems.Field, string>)
    requires VirtualItems.Complete(fields)
    ensures var keys := Keys(VirtualItems.ExportRow(fields));
      var names := QuotedHeaderCells(Trim(QuotedHeaderLine(keys)));
      && names == keys
      && |names| == 44 && names[41] == VirtualItems.Label(VirtualItems.BonusMediaUrl)
  {
    var keys := Keys(VirtualItems.ExportRow(fields));
    ExportKeysAt(fields);
    ExportNamesTrimmed();
    VirtualItems.ExportRowKeys(fields);
    QuotedHeaderRoundTrip(keys);
    forall k | 0 <= k < |keys| ensures Trim(keys[k]) == keys[k] {
      assert keys[k] == VirtualItems.Label(VirtualItems.FieldAt(k));
      LabelTrimmed(VirtualItems.FieldAt(k));
      TrimSpec(keys[k]);
    }
  }
}
