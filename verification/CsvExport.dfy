/**
 CSV export of statistics (tools/stats_export.dart.go), and a reader of quoted
 fields in the manner of section 2 of RFC 4180, with the record end used here.
 */
module CsvExport {
  import opened Basics
  import opened Decimal

  const CSV_SEP := ","
  const CSV_LB := "\n\r"

  datatype Stat = Stat(x: string, y: int)
  datatype Entry = Entry(name: string, xName: string, yName: string, data: seq<Stat>)

  // --------------------------------------------------------------- Writing

  /** Every quote doubled. */
  function DoubleQuotes(s: string): string {
    if s == [] then "" else Doubled(s[0]) + DoubleQuotes(s[1..])
  }

  function Doubled(c: char): string {
    if c == '"' then "\"\"" else [c]
  }

  function CsvCell(val: string): string {
    "\"" + DoubleQuotes(val) + "\""
  }

  function Line(cells: seq<string>): string
    requires cells != []
  {
    CsvCell(cells[0]) + (if |cells| == 1 then CSV_LB else CSV_SEP + Line(cells[1..]))
  }

  predicate NoEmptyRow(rows: seq<seq<string>>) {
    [] !in rows
  }

  function Lines(rows: seq<seq<string>>): string
    requires NoEmptyRow(rows)
  {
    if rows == [] then "" else assert rows[0] in rows; Line(rows[0]) + Lines(rows[1..])
  }

  // ------------------------------------------------- What the table contains

  function Row(name: string, stat: Stat): (r: seq<string>)
    ensures |r| == 3
  {
    [name, stat.x, FormatInt(stat.y)]
  }

  function StatRows(name: string, data: seq<Stat>): (rows: seq<seq<string>>)
    ensures NoEmptyRow(rows)
  {
    seq(|data|, k requires 0 <= k < |data| => Row(name, data[k]))
  }

  function Rows(data: seq<Entry>): (rows: seq<seq<string>>)
    ensures NoEmptyRow(rows)
    decreases |data|
  {
    if data == [] then []
    else
      var last := data[|data| - 1];
      Rows(data[..|data| - 1]) + [["Name", last.xName, last.yName]] + StatRows(last.name, last.data)
  }

  // --------------------------------------------------------------- Reading

  /** The rest of a quoted field, and what follows its closing quote. */
  function ReadBody(s: string): (r: Option<(string, string)>)
    ensures r.Some? ==> |r.value.1| < |s|
    decreases |s|
  {
    if s == [] then None
    else if s[0] != '"' then Prefixed([s[0]], ReadBody(s[1..]))
    else if |s| > 1 && s[1] == '"' then Prefixed("\"", ReadBody(s[2..]))
    else Some(("", s[1..]))
  }

  function Prefixed(c: string, r: Option<(string, string)>): Option<(string, string)> {
    match r
    case None => None
    case Some((cell, rest)) => Some((c + cell, rest))
  }

  function ReadCell(s: string): (r: Option<(string, string)>)
    ensures r.Some? ==> |r.value.1| < |s|
  {
    if s != [] && s[0] == '"' then ReadBody(s[1..]) else None
  }

  function ReadLine(s: string): (r: Option<(seq<string>, string)>)
    ensures r.Some? ==> |r.value.1| < |s| && r.value.0 != []
    decreases |s|
  {
    match ReadCell(s)
    case None => None
    case Some((cell, rest)) =>
      if CSV_LB <= rest then Some(([cell], rest[2..]))
      else if CSV_SEP <= rest then
        match ReadLine(rest[1..])
        case None => None
        case Some((cells, rest2)) => Some(([cell] + cells, rest2))
      else None
  }

  function ReadLines(s: string): Option<seq<seq<string>>>
    decreases |s|
  {
    if s == [] then Some([])
    else
      match ReadLine(s)
      case None => None
      case Some((cells, rest)) =>
        match ReadLines(rest)
        case None => None
        case Some(rows) => Some([cells] + rows)
  }

  // -------------------------------------------------------------- Round trip

  lemma {:induction false} BodyRoundTrip(val: string, rest: string)
    requires rest != [] && rest[0] != '"'
    ensures ReadBody(DoubleQuotes(val) + ("\"" + rest)) == Some((val, rest))
  {
    hide ReadBody, Doubled;
    if val == [] {
      assert DoubleQuotes(val) + ("\"" + rest) == "\"" + rest;
      ClosingQuote(rest);
    } else {
      BodyRoundTrip(val[1..], rest);
      var tail := DoubleQuotes(val[1..]) + ("\"" + rest);
      assert DoubleQuotes(val) + ("\"" + rest) == Doubled(val[0]) + tail;
      ReadOneMore(val[0], tail);
      assert val == [val[0]] + val[1..];
    }
  }

  lemma ClosingQuote(rest: string)
    requires rest != [] && rest[0] != '"'
    ensures ReadBody("\"" + rest) == Some(("", rest))
  {
    assert ("\"" + rest)[1..] == rest;
  }

  lemma ReadOneMore(c: char, tail: string)
    ensures ReadBody(Doubled(c) + tail) == Prefixed([c], ReadBody(tail))
  {
    hide Prefixed;
    var s := Doubled(c) + tail;
    if c == '"' {
      assert s[2..] == tail;
    } else {
      assert s[1..] == tail;
    }
  }

  lemma CellRoundTrip(val: string, rest: string)
    requires rest != [] && rest[0] != '"'
    ensures ReadCell(CsvCell(val) + rest) == Some((val, rest))
  {
    BodyRoundTrip(val, rest);
    var s := CsvCell(val) + rest;
    assert s[1..] == DoubleQuotes(val) + ("\"" + rest);
  }

  lemma {:induction false} LineRoundTrip(cells: seq<string>, rest: string)
    requires cells != []
    ensures ReadLine(Line(cells) + rest) == Some((cells, rest))
  {
    hide CsvCell, ReadCell;
    if |cells| == 1 {
      CellRoundTrip(cells[0], CSV_LB + rest);
      assert Line(cells) + rest == CsvCell(cells[0]) + (CSV_LB + rest);
      assert (CSV_LB + rest)[2..] == rest && cells == [cells[0]];
    } else {
      var tail := Line(cells[1..]) + rest;
      LineRoundTrip(cells[1..], rest);
      CellRoundTrip(cells[0], CSV_SEP + tail);
      assert Line(cells) + rest == CsvCell(cells[0]) + (CSV_SEP + tail);
      assert (CSV_SEP + tail)[1..] == tail && !(CSV_LB <= CSV_SEP + tail);
      assert cells == [cells[0]] + cells[1..];
    }
  }

  /** Reading gives back every row that was written, whatever quotes, separators
      and line breaks the cells hold. */
  lemma {:induction false} LinesRoundTrip(rows: seq<seq<string>>)
    requires NoEmptyRow(rows)
    ensures ReadLines(Lines(rows)) == Some(rows)
  {
    hide Line, ReadLine;
    if rows != [] {
      assert rows[0] in rows;
      LineRoundTrip(rows[0], Lines(rows[1..]));
      LinesRoundTrip(rows[1..]);
      assert rows == [rows[0]] + rows[1..];
    }
  }

  lemma {:induction false} LinesOfMore(a: seq<seq<string>>, b: seq<seq<string>>)
    requires NoEmptyRow(a) && NoEmptyRow(b)
    ensures Lines(a + b) == Lines(a) + Lines(b)
  {
    hide Line;
    if a == [] {
      assert a + b == b;
    } else {
      LinesOfMore(a[1..], b);
      assert (a + b)[0] == a[0] && (a + b)[1..] == a[1..] + b;
    }
  }

  lemma OneLine(row: seq<string>)
    requires |row| == 3
    ensures Lines([row]) == CsvCell(row[0]) + CSV_SEP + CsvCell(row[1]) + CSV_SEP + CsvCell(row[2]) + CSV_LB
  {
    hide CsvCell;
    assert row[1..][1..] == [row[2]] && Line([row[2]]) == CsvCell(row[2]) + CSV_LB;
    assert Line(row[1..]) == CsvCell(row[1]) + CSV_SEP + Line([row[2]]);
    assert [row][1..] == [] && Lines([]) == "";
  }

  /** The rows of an entry: a header with the two axis names, and for each value the
      entry's name, the value's own and the number. Entries follow one another. */
  lemma RowsOfEntries(data: seq<Entry>, e: Entry)
    ensures Rows([]) == []
    ensures Rows(data + [e]) == Rows(data) + Rows([e])
    ensures |Rows([e])| == 1 + |e.data| && Rows([e])[0] == ["Name", e.xName, e.yName]
    ensures forall k :: 0 <= k < |e.data| ==> Rows([e])[1 + k] == [e.name, e.data[k].x, FormatInt(e.data[k].y)]
  {
    assert (data + [e])[..|data|] == data && [e][..0] == [];
    assert Rows([]) == [];
    assert Rows([e]) == [["Name", e.xName, e.yName]] + StatRows(e.name, e.data);
  }

  /** One row as it is written, with a quote in a cell. */
  lemma OneRowText()
    ensures Lines([["a", "b\"c"]]) == "\"a\",\"b\"\"c\"" + "\n\r"
  {
    var a, b := "a", "b\"c";
    assert DoubleQuotes("") == "";
    assert b[1..][1..] == "c" && "c"[1..] == "" && a[1..] == "" && b[1..] == "\"c";
    assert DoubleQuotes("c") == "c";
    assert DoubleQuotes(b[1..]) == "\"\"c";
    assert DoubleQuotes(b) == "b\"\"c" && DoubleQuotes(a) == "a";
    assert CsvCell(a) == "\"a\"" && CsvCell(b) == "\"b\"\"c\"";
    assert [a, b][1..] == [b] && [[a, b]][1..] == [];
    assert Line([b]) == "\"b\"\"c\"" + "\n\r";
    assert Line([a, b]) == "\"a\"" + "," + Line([b]);
    assert Lines([]) == "" && Lines([[a, b]]) == Line([a, b]) + "";
  }

  // -------------------------------------------------------------- The object

  class ExportStatsContainer {
    var data: seq<Entry>

    constructor ()
      ensures data == []
    {
      data := [];
    }

    /** The text reads back as the header and the rows of every entry, in order. */
    method ExportCsv() returns (result: string)
      ensures ReadLines(result) == Some(Rows(data))
      ensures result == Lines(Rows(data))
    {
      hide CsvCell, Lines, Row;
      result := "";
      assert Lines([]) == "" by { NoLines(); }
      for i := 0 to |data|
        invariant result == Lines(Rows(data[..i]))
      {
        var e := data[i];
        var header := ["Name", e.xName, e.yName];
        ghost var before := Rows(data[..i]) + [header];
        LinesOfMore(Rows(data[..i]), [header]);
        OneLine(header);
        result := result + CsvCell("Name") + CSV_SEP + CsvCell(e.xName) + CSV_SEP + CsvCell(e.yName) + CSV_LB;
        assert StatRows(e.name, e.data[..0]) == [] && before + [] == before;
        for j := 0 to |e.data|
          invariant result == Lines(before + StatRows(e.name, e.data[..j]))
        {
          var stat := e.data[j];
          ghost var rows := before + StatRows(e.name, e.data[..j]);
          LinesOfMore(rows, [Row(e.name, stat)]);
          RowIsLine(e.name, stat);
          assert before + StatRows(e.name, e.data[..j + 1]) == rows + [Row(e.name, stat)];
          result := result + CsvCell(e.name) + CSV_SEP + CsvCell(stat.x) + CSV_SEP
              + CsvCell(FormatInt(stat.y)) + CSV_LB;
        }
        assert data[..i + 1][..i] == data[..i] && e.data[..|e.data|] == e.data;
      }
      assert data[..|data|] == data;
      LinesRoundTrip(Rows(data));
    }
  }

  lemma NoLines()
    ensures Lines([]) == ""
  {
  }

  lemma RowIsLine(name: string, stat: Stat)
    ensures |Row(name, stat)| == 3
    ensures Lines([Row(name, stat)])
         == CsvCell(name) + CSV_SEP + CsvCell(stat.x) + CSV_SEP + CsvCell(FormatInt(stat.y)) + CSV_LB
  {
    OneLine(Row(name, stat));
  }
}
