/** The CSV reader of a run's data file, against the texts that section 2 of RFC 4180 writes a list of records as. */
module Csv {
  import opened Basics

  type Record = seq<string>

  datatype CsvError = EndsInsideQuotes | NoNames

  type Records = Result<seq<Record>, CsvError>

  const ByteOrderMark: char := '\U{FEFF}'

  // ---- The reader ----

  function Before(records: seq<Record>, rest: Records): Records {
    if rest.Ok? then Ok(records + rest.value) else rest
  }

  /** The records that begin with `record` and `field` and go on in `s`. */
  function Scan(s: string, record: Record, field: string, quoted: bool): Records
    decreases |s|
  {
    if s == "" then
      if quoted then Err(EndsInsideQuotes)
      else Ok(if field != "" || record != [] then [record + [field]] else [])
    else if quoted then
      if s[0] != '"' then Scan(s[1..], record, field + [s[0]], true)
      else if |s| > 1 && s[1] == '"' then Scan(s[2..], record, field + "\"", true)
      else Scan(s[1..], record, field, false)
    else if s[0] == '"' && field == "" then Scan(s[1..], record, field, true)
    else if s[0] == ',' then Scan(s[1..], record + [field], "", false)
    else if s[0] == '\n' then Before([record + [field]], Scan(s[1..], [], "", false))
    else if s[0] == '\r' && |s| > 1 && s[1] == '\n' then Before([record + [field]], Scan(s[2..], [], "", false))
    else Scan(s[1..], record, field + [s[0]], false)
  }

  function AfterMark(text: string): string {
    if text != "" && text[0] == ByteOrderMark then text[1..] else text
  }

  lemma {:induction false} BeforeBefore(a: seq<Record>, b: seq<Record>, rest: Records)
    ensures Before(a, Before(b, rest)) == Before(a + b, rest)
    ensures Before([], rest) == rest
  {
    if rest.Ok? {
      assert a + (b + rest.value) == (a + b) + rest.value;
      assert [] + rest.value == rest.value;
    }
  }

  method ParseCsv(text: string) returns (r: Records)
    ensures r == Scan(AfterMark(text), [], "", false)
  {
    var records: seq<Record> := [];
    var record: Record := [];
    var field := "";
    var quoted := false;
    var at := if text != "" && text[0] == ByteOrderMark then 1 else 0;
    ghost var whole := Scan(AfterMark(text), [], "", false);
    assert text[at..] == AfterMark(text);
    BeforeBefore([], [], whole);
    while at < |text|
      invariant 0 <= at <= |text|
      invariant Before(records, Scan(text[at..], record, field, quoted)) == whole
    {
      var c := text[at];
      ghost var s := text[at..];
      assert s[1..] == text[at + 1..] && (at + 1 < |text| ==> s[2..] == text[at + 2..]);
      if quoted {
        if c != '"' {
          field := field + [c];
        } else if at + 1 < |text| && text[at + 1] == '"' {
          field := field + "\"";
          at := at + 1;
        } else {
          quoted := false;
        }
      } else if c == '"' && field == "" {
        quoted := true;
      } else if c == ',' {
        record := record + [field];
        field := "";
      } else if c == '\n' || (c == '\r' && at + 1 < |text| && text[at + 1] == '\n') {
        if c == '\r' {
          at := at + 1;
        }
        BeforeBefore(records, [record + [field]], Scan(text[at + 1..], [], "", false));
        records := records + [record + [field]];
        record := [];
        field := "";
      } else {
        field := field + [c];
      }
      at := at + 1;
    }
    if quoted {
      return Err(EndsInsideQuotes);
    }
    assert text[at..] == "" && records + [] == records;
    r := Ok(if field != "" || record != [] then records + [record + [field]] else records);
  }

  // ---- The writer ----

  /** A field, and whether it is written in quotes. */
  datatype Cell = Cell(text: string, quoted: bool) {
    /** A field with a quote, a comma or a line break in it is quoted; any field may be. */
    predicate Valid() {
      !quoted ==> forall i :: 0 <= i < |text| ==> text[i] !in {'"', ',', '\r', '\n'}
    }
  }

  /** A record as a line, and whether it ends with CRLF or with LF. */
  datatype Line = Line(cells: seq<Cell>, crlf: bool) {
    predicate Valid() {
      cells != [] && forall k :: 0 <= k < |cells| ==> cells[k].Valid()
    }

    function Record(): Record {
      seq(|cells|, k requires 0 <= k < |cells| => cells[k].text)
    }

    function Break(): string {
      if crlf then "\r\n" else "\n"
    }
  }

  function Doubled(text: string): string {
    if text == "" then ""
    else (if text[0] == '"' then "\"\"" else [text[0]]) + Doubled(text[1..])
  }

  function CellText(cell: Cell): string {
    if cell.quoted then "\"" + Doubled(cell.text) + "\"" else cell.text
  }

  function CellsText(cells: seq<Cell>): string {
    if cells == [] then ""
    else if |cells| == 1 then CellText(cells[0])
    else CellText(cells[0]) + "," + CellsText(cells[1..])
  }

  /** The lines, the last of them with its line break or without one. */
  function LinesText(lines: seq<Line>, lastBreak: bool): string {
    if lines == [] then ""
    else if |lines| == 1 then CellsText(lines[0].cells) + if lastBreak then lines[0].Break() else ""
    else CellsText(lines[0].cells) + lines[0].Break() + LinesText(lines[1..], lastBreak)
  }

  function AllRecords(lines: seq<Line>): seq<Record> {
    seq(|lines|, k requires 0 <= k < |lines| => lines[k].Record())
  }

  predicate ValidLines(lines: seq<Line>) {
    forall k :: 0 <= k < |lines| ==> lines[k].Valid()
  }

  // ---- The reader inverts the writer ----

  lemma {:induction false} ScanQuoted(text: string, rest: string, record: Record, field: string)
    requires rest == "" || rest[0] != '"'
    ensures Scan(Doubled(text) + "\"" + rest, record, field, true) == Scan(rest, record, field + text, false)
    decreases |text|
  {
    var s := Doubled(text) + "\"" + rest;
    if text == "" {
      assert s == "\"" + rest && s[1..] == rest;
      assert field + text == field;
    } else {
      var inner := Doubled(text[1..]) + "\"" + rest;
      ScanQuoted(text[1..], rest, record, field + [text[0]]);
      assert field + [text[0]] + text[1..] == field + text;
      if text[0] == '"' {
        assert s == "\"\"" + inner && s[2..] == inner;
      } else {
        assert s == [text[0]] + inner && s[1..] == inner;
      }
    }
  }

  lemma {:induction false} ScanPlain(text: string, rest: string, record: Record, field: string)
    requires Cell(text, false).Valid()
    ensures Scan(text + rest, record, field, false) == Scan(rest, record, field + text, false)
    decreases |text|
  {
    if text == "" {
      assert text + rest == rest && field + text == field;
    } else {
      assert (text + rest)[1..] == text[1..] + rest;
      assert text[0] !in {'"', ',', '\r', '\n'};
      ScanPlain(text[1..], rest, record, field + [text[0]]);
      assert field + [text[0]] + text[1..] == field + text;
    }
  }

  /** What may follow a field: a comma, a line break, or the end. */
  predicate EndsField(rest: string) {
    rest == "" || rest[0] == ',' || rest[0] == '\n' || rest[0] == '\r'
  }

  lemma {:induction false} ScanCell(cell: Cell, rest: string, record: Record)
    requires cell.Valid() && EndsField(rest)
    ensures Scan(CellText(cell) + rest, record, "", false) == Scan(rest, record, cell.text, false)
  {
    assert "" + cell.text == cell.text;
    if cell.quoted {
      var inner := Doubled(cell.text) + "\"" + rest;
      assert CellText(cell) + rest == "\"" + inner && ("\"" + inner)[1..] == inner;
      ScanQuoted(cell.text, rest, record, "");
    } else {
      ScanPlain(cell.text, rest, record, "");
    }
  }

  lemma {:induction false} Reparted(first: string, others: string, rest: string)
    ensures (first + "," + others) + rest == first + ("," + (others + rest))
  {
  }

  lemma {:induction false} ScanCells(cells: seq<Cell>, rest: string, record: Record)
    requires Line(cells, false).Valid()
    requires EndsField(rest) && (rest != "" ==> rest[0] != ',')
    ensures var texts := Line(cells, false).Record();
            Scan(CellsText(cells) + rest, record, "", false)
            == Scan(rest, record + texts[..|texts| - 1], texts[|texts| - 1], false)
  {
    ValidFirst(cells);
    RecordFirst(cells);
    var others := cells[1..];
    var texts := Line(others, false).Record();
    if |cells| == 1 {
      hide Scan, Line.Record, Line.Valid, CellText;
      assert CellsText(cells) == CellText(cells[0]);
      ScanCell(cells[0], rest, record);
      assert record + [cells[0].text][..0] == record;
    } else {
      assert CellsText(cells) == CellText(cells[0]) + "," + CellsText(others);
      hide Scan, Line.Record, Line.Valid, CellText, CellsText;
      ScanCells(others, rest, record + [cells[0].text]);
      ScanMore(cells[0], CellsText(others), rest, record, texts);
    }
  }

  lemma {:induction false} ScanMore(first: Cell, others: string, rest: string, record: Record, texts: Record)
    requires first.Valid() && texts != []
    requires Scan(others + rest, record + [first.text], "", false)
          == Scan(rest, (record + [first.text]) + texts[..|texts| - 1], texts[|texts| - 1], false)
    ensures var all := [first.text] + texts;
            Scan((CellText(first) + "," + others) + rest, record, "", false)
            == Scan(rest, record + all[..|all| - 1], all[|all| - 1], false)
  {
    hide Scan, CellText;
    Reparted(CellText(first), others, rest);
    ScanCell(first, "," + (others + rest), record);
    ScanComma(others + rest, record, first.text);
    FirstOfMany(record, first.text, texts);
  }

  lemma {:induction false} ValidFirst(cells: seq<Cell>)
    requires Line(cells, false).Valid()
    ensures cells != [] && cells[0].Valid() && (|cells| > 1 ==> Line(cells[1..], false).Valid())
  {
  }

  lemma {:induction false} RecordFirst(cells: seq<Cell>)
    requires cells != []
    ensures Line(cells, false).Record() == [cells[0].text] + Line(cells[1..], false).Record()
    ensures |Line(cells, false).Record()| == |cells|
  {
  }

  lemma {:induction false} ScanComma(tail: string, record: Record, field: string)
    ensures Scan("," + tail, record, field, false) == Scan(tail, record + [field], "", false)
  {
    assert ("," + tail)[1..] == tail;
  }

  lemma {:induction false} FirstOfMany(record: Record, first: string, rest: Record)
    requires rest != []
    ensures var texts := [first] + rest;
            && record + [first] + rest[..|rest| - 1] == record + texts[..|texts| - 1]
            && rest[|rest| - 1] == texts[|texts| - 1]
  {
  }

  lemma {:induction false} ScanLine(line: Line, rest: string)
    requires line.Valid()
    ensures Scan(CellsText(line.cells) + line.Break() + rest, [], "", false)
         == Before([line.Record()], Scan(rest, [], "", false))
  {
    var tail := line.Break() + rest;
    ScanCells(line.cells, tail, []);
    assert CellsText(line.cells) + line.Break() + rest == CellsText(line.cells) + tail;
    assert tail[|line.Break()|..] == rest;
    WholeRecord(line);
  }

  lemma {:induction false} WholeRecord(line: Line)
    requires line.Valid()
    ensures var texts := line.Record();
            [] + texts[..|texts| - 1] + [texts[|texts| - 1]] == texts && Line(line.cells, false).Record() == texts
  {
  }

  /** A last line without a line break: one empty field leaves nothing to end. */
  lemma {:induction false} ScanLast(line: Line)
    requires line.Valid()
    ensures Scan(CellsText(line.cells), [], "", false) == Ok(if line.Record() == [""] then [] else [line.Record()])
  {
    ScanCells(line.cells, "", []);
    assert CellsText(line.cells) + "" == CellsText(line.cells);
    WholeRecord(line);
    var texts := line.Record();
    assert texts == [""] <==> |texts| == 1 && texts[|texts| - 1] == "";
    assert [] + texts[..|texts| - 1] == [] <==> |texts| == 1;
  }

  /** Whether what the reader takes for the end of the text leaves out the last record. */
  predicate LosesLast(lines: seq<Line>, lastBreak: bool) {
    lines != [] && !lastBreak && lines[|lines| - 1].Record() == [""]
  }

  /** The lines that are read. */
  function KeptLines(lines: seq<Line>, lastBreak: bool): (kept: seq<Line>)
    ensures |kept| == |lines| - if LosesLast(lines, lastBreak) then 1 else 0
    ensures kept == lines[..|kept|]
  {
    if LosesLast(lines, lastBreak) then lines[..|lines| - 1] else lines
  }

  /** What is read of lines: all their records, but for a last empty field that no line break ends. */
  lemma {:induction false} ScanLines(lines: seq<Line>, lastBreak: bool)
    requires ValidLines(lines)
    ensures Scan(LinesText(lines, lastBreak), [], "", false)
         == Ok(AllRecords(KeptLines(lines, lastBreak)))
  {
    hide Scan;
    var records := AllRecords(lines);
    if lines == [] {
      ScanNothing();
    } else if |lines| == 1 {
      if lastBreak {
        ScanLine(lines[0], "");
        ScanNothing();
        assert LinesText(lines, true) == CellsText(lines[0].cells) + lines[0].Break() + "";
        assert [lines[0].Record()] + [] == records;
      } else {
        ScanLast(lines[0]);
        assert LinesText(lines, false) == CellsText(lines[0].cells);
        assert records == [lines[0].Record()] && AllRecords([]) == [] && lines[..0] == [];
      }
    } else {
      ScanLine(lines[0], LinesText(lines[1..], lastBreak));
      ScanLines(lines[1..], lastBreak);
      KeptFirst(lines, lastBreak);
    }
  }

  lemma {:induction false} KeptFirst(lines: seq<Line>, lastBreak: bool)
    requires |lines| > 1
    ensures AllRecords(KeptLines(lines, lastBreak))
         == [lines[0].Record()] + AllRecords(KeptLines(lines[1..], lastBreak))
  {
    assert lines[1..][..|lines| - 2] == lines[..|lines| - 1][1..];
  }

  lemma {:induction false} ScanNothing()
    ensures Scan("", [], "", false) == Ok([])
  {
  }

  /** Whether the text of the lines begins with a byte order mark of its own. */
  predicate BeginsWithMark(lines: seq<Line>) {
    && lines != [] && lines[0].cells != []
    && var cell := lines[0].cells[0]; !cell.quoted && cell.text != "" && cell.text[0] == ByteOrderMark
  }

  lemma {:induction false} FirstCharacter(lines: seq<Line>, lastBreak: bool)
    requires ValidLines(lines)
    ensures var text := LinesText(lines, lastBreak);
            text != "" && text[0] == ByteOrderMark <==> BeginsWithMark(lines)
  {
    if lines != [] {
      var cells := lines[0].cells;
      var first := CellText(cells[0]);
      assert |CellsText(cells)| >= |first| && CellsText(cells)[..|first|] == first;
    }
  }

  /** The lines without the byte order mark they begin with. */
  function WithoutMark(lines: seq<Line>): (r: seq<Line>)
    requires BeginsWithMark(lines)
    ensures |r| == |lines|
  {
    var cell := lines[0].cells[0];
    lines[0 := lines[0].(cells := lines[0].cells[0 := Cell(cell.text[1..], false)])]
  }

  lemma {:induction false} MarkIsLost(lines: seq<Line>, lastBreak: bool)
    requires ValidLines(lines) && BeginsWithMark(lines)
    ensures ValidLines(WithoutMark(lines))
    ensures LinesText(lines, lastBreak)[1..] == LinesText(WithoutMark(lines), lastBreak)
    ensures WithoutMark(lines)[0].Record()[0] != lines[0].Record()[0]
  {
    var (cells, more) := (lines[0].cells, WithoutMark(lines)[0].cells);
    assert lines[0].Valid() && WithoutMark(lines)[0].Valid() && WithoutMark(lines)[1..] == lines[1..];
    assert more[0].text != cells[0].text;
    TextWithoutFirst(cells);
    hide CellsText, CellText, Line.Valid;
  }

  lemma {:induction false} TextWithoutFirst(cells: seq<Cell>)
    requires cells != [] && !cells[0].quoted && cells[0].text != ""
    ensures var more := cells[0 := Cell(cells[0].text[1..], false)];
            CellsText(cells) != "" && CellsText(cells)[1..] == CellsText(more)
  {
    var more := cells[0 := Cell(cells[0].text[1..], false)];
    assert more[1..] == cells[1..];
  }

  /** The text of a file of these lines, for each choice a writer has at its two ends. */
  function FileText(mark: bool, lines: seq<Line>, lastBreak: bool): string {
    (if mark then [ByteOrderMark] else "") + LinesText(lines, lastBreak)
  }

  /**
   * The round trip, for every text RFC 4180 allows for some records: they are read back exactly when the text does not
   * begin with a mark that is data, and does not end in an empty field that stands alone on a line without an end.
   */
  lemma {:induction false} RoundTrip(mark: bool, lines: seq<Line>, lastBreak: bool)
    requires ValidLines(lines)
    ensures Scan(AfterMark(FileText(mark, lines, lastBreak)), [], "", false) == Ok(AllRecords(lines))
            <==> (mark || !BeginsWithMark(lines)) && !LosesLast(lines, lastBreak)
  {
    hide Scan;
    var (text, whole) := (LinesText(lines, lastBreak), FileText(mark, lines, lastBreak));
    FirstCharacter(lines, lastBreak);
    ScanLines(lines, lastBreak);
    if mark {
      assert whole[1..] == text;
    } else {
      assert whole == text;
    }
    if !mark && BeginsWithMark(lines) {
      var rest := WithoutMark(lines);
      MarkIsLost(lines, lastBreak);
      ScanLines(rest, lastBreak);
      var kept := KeptLines(rest, lastBreak);
      if |kept| == |lines| {
        assert AllRecords(kept)[0][0] != AllRecords(lines)[0][0];
      } else {
        assert |AllRecords(kept)| != |AllRecords(lines)|;
      }
    } else if LosesLast(lines, lastBreak) {
      assert |AllRecords(KeptLines(lines, lastBreak))| != |AllRecords(lines)|;
    }
  }

  const MARKED: seq<Line> := [Line([Cell([ByteOrderMark] + "a", false)], false)]
  const ENDS_EMPTY: seq<Line> := [Line([Cell("a", false)], false), Line([Cell("", false)], false)]

  /** A first field that begins with the byte order mark, in a file without one, loses it. */
  lemma {:induction false} FirstMarkIsLost()
    ensures ValidLines(MARKED) && AllRecords(MARKED) == [[[ByteOrderMark] + "a"]]
    ensures Scan(AfterMark(FileText(false, MARKED, true)), [], "", false) == Ok([["a"]])
  {
    var rest := [Line([Cell("a", false)], false)];
    var text := LinesText(MARKED, true);
    assert AllRecords(MARKED)[0] == MARKED[0].Record() == [[ByteOrderMark] + "a"];
    assert text == [ByteOrderMark] + LinesText(rest, true);
    assert FileText(false, MARKED, true) == text && text[1..] == LinesText(rest, true);
    hide Scan;
    ScanLines(rest, true);
    assert rest[0].Record() == ["a"];
    assert KeptLines(rest, true) == rest && AllRecords(rest) == [["a"]];
  }

  /** A last record that is one empty field, without a line end, is not read. */
  lemma {:induction false} LastEmptyIsLost()
    ensures ValidLines(ENDS_EMPTY) && AllRecords(ENDS_EMPTY) == [["a"], [""]]
    ensures Scan(AfterMark(FileText(false, ENDS_EMPTY, false)), [], "", false) == Ok([["a"]])
  {
    assert ENDS_EMPTY[0].Record() == ["a"] && ENDS_EMPTY[1].Record() == [""];
    assert FileText(false, ENDS_EMPTY, false) == LinesText(ENDS_EMPTY, false);
    assert LinesText(ENDS_EMPTY, false)[0] == 'a';
    hide Scan;
    ScanLines(ENDS_EMPTY, false);
    assert KeptLines(ENDS_EMPTY, false) == [ENDS_EMPTY[0]];
    assert AllRecords([ENDS_EMPTY[0]]) == [["a"]];
  }

  // ---- The rows of a data file ----

  type Row = seq<(string, string)>

  /** What an empty line is scanned as. */
  predicate IsBlank(record: Record) {
    record == [""]
  }

  function NotBlank(records: seq<Record>): seq<Record> {
    if records == [] then []
    else
      var (before, last) := (NotBlank(records[..|records| - 1]), records[|records| - 1]);
      if IsBlank(last) then before else before + [last]
  }

  /** The row of a record: each of the first names that is not empty, with the field in its place. */
  function RowOf(names: Record, record: Record, count: nat): Row
    requires count <= |names|
  {
    if count == 0 then []
    else
      var (before, name) := (RowOf(names, record, count - 1), names[count - 1]);
      if name != "" then before + [(name, FieldAt(record, count - 1))] else before
  }

  function RowsOf(names: Record, records: seq<Record>): seq<Row> {
    seq(|records|, k requires 0 <= k < |records| => RowOf(names, records[k], |names|))
  }

  /**
   * What reading the text as CSV gives: the first record names the columns, each later one that is not blank is a row.
   */
  function DataRows(text: string): Result<seq<Row>, CsvError> {
    match Scan(AfterMark(text), [], "", false)
    case Err(e) => Err(e)
    case Ok(records) =>
      if records == [] || (forall k :: 0 <= k < |records[0]| ==> records[0][k] == "") then Err(NoNames)
      else Ok(RowsOf(records[0], NotBlank(records[1..])))
  }

  method ParseDataFile(text: string) returns (r: Result<seq<Row>, CsvError>)
    ensures r == DataRows(text)
  {
    var records := ParseCsv(text);
    if records.Err? {
      return Err(records.error);
    }
    if records.value == [] || (forall k :: 0 <= k < |records.value[0]| ==> records.value[0][k] == "") {
      return Err(NoNames);
    }
    r := Ok(RowsOf(records.value[0], NotBlank(records.value[1..])));
  }

  function FieldAt(record: Record, place: nat): string {
    if place < |record| then record[place] else ""
  }

  /** Places of a list, each once and in order. */
  ghost predicate ArePlaces(places: seq<nat>, size: nat) {
    && (forall j :: 0 <= j < |places| ==> places[j] < size)
    && (forall i, j :: 0 <= i < j < |places| ==> places[i] < places[j])
  }

  /** These are the places of the names that are not empty. */
  ghost predicate AreNamed(names: Record, places: seq<nat>) {
    ArePlaces(places, |names|) && forall k: nat :: k < |names| ==> (k in places <==> names[k] != "")
  }

  /** These are the places of the records that are not one empty field. */
  ghost predicate AreFilled(records: seq<Record>, places: seq<nat>) {
    ArePlaces(places, |records|) && forall k: nat :: k < |records| ==> (k in places <==> records[k] != [""])
  }

  /** A name of the header and what the record holds in the name's place: no text where it is too short. */
  predicate IsValue(pair: (string, string), names: Record, record: Record, place: nat)
    requires place < |names|
  {
    pair.0 == names[place] && (if place < |record| then pair.1 == record[place] else pair.1 == "")
  }

  /** A row has exactly the names that are not empty, in order, each with the record's field of its place. */
  ghost predicate IsRow(names: Record, record: Record, row: Row) {
    exists places: seq<nat> ::
      AreNamed(names, places) && |row| == |places| &&
      forall j :: 0 <= j < |places| ==> IsValue(row[j], names, record, places[j])
  }

  /** There is a row for each record that is not blank, in order. */
  ghost predicate AreRows(names: Record, records: seq<Record>, rows: seq<Row>) {
    exists places: seq<nat> ::
      AreFilled(records, places) && |rows| == |places| &&
      forall j :: 0 <= j < |places| ==> IsRow(names, records[places[j]], rows[j])
  }

  /** The places of the first names that are not empty, and what the row has in them. */
  lemma {:induction false} RowHas(names: Record, record: Record, count: nat) returns (places: seq<nat>)
    requires count <= |names|
    ensures ArePlaces(places, count) && forall k: nat :: k < count ==> (k in places <==> names[k] != "")
    ensures var row := RowOf(names, record, count);
            |row| == |places| && forall j :: 0 <= j < |places| ==> IsValue(row[j], names, record, places[j])
  {
    places := [];
    if count > 0 {
      places := RowHas(names, record, count - 1);
      if names[count - 1] != "" {
        places := places + [count - 1];
      }
    }
  }

  /** The row of a record is the one its header's names and its fields say. */
  lemma {:induction false} RowHasNames(names: Record, record: Record)
    ensures IsRow(names, record, RowOf(names, record, |names|))
  {
    var places := RowHas(names, record, |names|);
    assert AreNamed(names, places);
  }

  lemma {:induction false} NotBlankAre(records: seq<Record>) returns (places: seq<nat>)
    ensures AreFilled(records, places) && |NotBlank(records)| == |places|
    ensures forall j :: 0 <= j < |places| ==> places[j] < |records| && NotBlank(records)[j] == records[places[j]]
  {
    places := [];
    if records != [] {
      var n := |records| - 1;
      places := NotBlankAre(records[..n]);
      assert forall k :: 0 <= k < n ==> records[..n][k] == records[k];
      if !IsBlank(records[n]) {
        places := places + [n];
      }
    }
  }

  lemma {:induction false} RowsAre(names: Record, records: seq<Record>)
    ensures AreRows(names, records, RowsOf(names, NotBlank(records)))
  {
    var places := NotBlankAre(records);
    var rows := RowsOf(names, NotBlank(records));
    hide NotBlank, RowOf, AreFilled, IsRow;
    forall j | 0 <= j < |places| ensures IsRow(names, records[places[j]], rows[j]) {
      RowHasNames(names, records[places[j]]);
    }
  }

  /** The lines as they are read: a first field in a file without a mark gives one up for it. */
  function ReadLines(mark: bool, lines: seq<Line>): (read: seq<Line>)
    ensures |read| == |lines|
  {
    if !mark && BeginsWithMark(lines) then WithoutMark(lines) else lines
  }

  /** No cell names a column. */
  predicate NamesNothing(names: Record) {
    forall k :: 0 <= k < |names| ==> names[k] == ""
  }

  lemma {:induction false} ReadText(mark: bool, lines: seq<Line>, lastBreak: bool)
    requires ValidLines(lines)
    ensures var read := ReadLines(mark, lines);
            && ValidLines(read) && AfterMark(FileText(mark, lines, lastBreak)) == LinesText(read, lastBreak)
            && (lines != [] ==> read[1..] == lines[1..])
  {
    var (text, whole) := (LinesText(lines, lastBreak), FileText(mark, lines, lastBreak));
    FirstCharacter(lines, lastBreak);
    if mark {
      assert whole[1..] == text;
    } else {
      assert whole == text;
      if BeginsWithMark(lines) {
        MarkIsLost(lines, lastBreak);
        assert WithoutMark(lines)[1..] == lines[1..];
      }
    }
  }

  /**
   * Every data file that is written and read, with a mark or without, whatever its first line: a row for each record
   * below the names that is not blank, in order, under the names as they are read; or an error where there are none.
   */
  lemma {:induction false} DataFileRoundTrip(mark: bool, lines: seq<Line>, lastBreak: bool)
    requires ValidLines(lines)
    ensures var read := ReadLines(mark, lines);
            var rows := DataRows(FileText(mark, lines, lastBreak));
            if lines == [] || NamesNothing(read[0].Record()) then rows == Err(NoNames)
            else rows.Ok? && AreRows(read[0].Record(), AllRecords(lines[1..]), rows.value)
  {
    var read := ReadLines(mark, lines);
    ReadText(mark, lines, lastBreak);
    ScanLines(read, lastBreak);
    hide Scan, LinesText, NotBlank, RowOf, BeginsWithMark, ReadLines, FileText, AreRows;
    if KeptLines(read, lastBreak) == [] {
      NoneKept(read, lastBreak);
    } else {
      BlankRowsLost(read, lastBreak);
      RowsAre(read[0].Record(), AllRecords(lines[1..]));
    }
  }

  lemma {:induction false} NoneKept(lines: seq<Line>, lastBreak: bool)
    requires KeptLines(lines, lastBreak) == []
    ensures lines == [] || NamesNothing(lines[0].Record())
  {
  }

  lemma {:induction false} BlankRowsLost(lines: seq<Line>, lastBreak: bool)
    requires KeptLines(lines, lastBreak) != []
    ensures NotBlank(AllRecords(KeptLines(lines, lastBreak))[1..]) == NotBlank(AllRecords(lines[1..]))
  {
    var (records, kept) := (AllRecords(lines), AllRecords(KeptLines(lines, lastBreak)));
    assert records[1..] == AllRecords(lines[1..]);
    if LosesLast(lines, lastBreak) {
      assert kept[1..] == records[1..][..|lines| - 2];
    }
  }
}
