/** CSV as it is exported and as it is read back (compare section 2 of RFC 4180). */
module Csv {
  import opened Text

  const QUOTE: char := '\"'

  // ----- Writing -----

  /** Every quote written twice. */
  function Doubled(s: string): string {
    if s == "" then "" else (if s[0] == QUOTE then [QUOTE, QUOTE] else [s[0]]) + Doubled(s[1..])
  }

  function Escape(field: string): string {
    [QUOTE] + Doubled(field) + [QUOTE]
  }

  function Row(fields: seq<string>): string {
    if fields == [] then "" else if |fields| == 1 then Escape(fields[0]) else Escape(fields[0]) + [','] + Row(fields[1..])
  }

  /** Rows joined by carriage return and line feed. */
  function Body(rows: seq<seq<string>>): string {
    if rows == [] then "" else if |rows| == 1 then Row(rows[0]) else Row(rows[0]) + ['\r', '\n'] + Body(rows[1..])
  }

  const MARK: char := '\U{FEFF}'

  function Export(rows: seq<seq<string>>): string {
    [MARK] + Body(rows)
  }

  // ----- Reading a line -----

  /** The fields still to come, with the field begun and whether a quote is open. */
  function Fields(s: string, current: string, quoted: bool): seq<string> {
    if s == "" then [Trim(current)]
    else if s[0] == QUOTE && |s| > 1 && s[1] == QUOTE then Fields(s[2..], current + [QUOTE], quoted)
    else if s[0] == QUOTE then Fields(s[1..], current, !quoted)
    else if s[0] == ',' && !quoted then [Trim(current)] + Fields(s[1..], "", false)
    else Fields(s[1..], current + [s[0]], quoted)
  }

  /** The loop of the parser, index by index. */
  method Parse(line: string) returns (values: seq<string>)
    ensures values == Fields(line, "", false)
  {
    hide Trim;
    values := [];
    var current := "";
    var quoted := false;
    var i := 0;
    while i < |line|
      invariant 0 <= i <= |line|
      invariant Fields(line, "", false) == values + Fields(line[i..], current, quoted)
    {
      var c := line[i];
      ghost var rest := line[i..];
      assert rest[1..] == line[i + 1..];
      if c == QUOTE && i + 1 < |line| && line[i + 1] == QUOTE {
        assert rest[2..] == line[i + 2..] && rest[1] == line[i + 1];
        current := current + [QUOTE];
        i := i + 1;
      } else if c == QUOTE {
        quoted := !quoted;
      } else if c == ',' && !quoted {
        assert values + ([Trim(current)] + Fields(line[i + 1..], "", false)) == (values + [Trim(current)]) + Fields(line[i + 1..], "", false);
        values := values + [Trim(current)];
        current := "";
      } else {
        current := current + [c];
      }
      i := i + 1;
    }
    assert line[i..] == "";
    values := values + [Trim(current)];
  }

  // ----- What comes back -----

  predicate AllQuotes(s: string) {
    forall c <- s :: c == QUOTE
  }

  /** A field of nothing but quotes, the empty one included, comes back one quote longer; any other comes back trimmed. */
  function Decoded(field: string): string {
    if AllQuotes(field) then field + [QUOTE] else Trim(field)
  }

  function DecodedRow(fields: seq<string>): (r: seq<string>)
    ensures |r| == |fields| && forall i :: 0 <= i < |r| ==> r[i] == Decoded(fields[i])
  {
    seq(|fields|, i requires 0 <= i < |fields| => Decoded(fields[i]))
  }

  function Raw(field: string): string {
    if AllQuotes(field) then field + [QUOTE] else field
  }

  /** Inside open quotes the rest of a field and its closing quote are read as written. */
  lemma {:induction false} ReadsOpenField(f: string, rest: string, current: string)
    requires rest == "" || rest[0] == ','
    ensures Fields(Doubled(f) + [QUOTE] + rest, current, true) == Fields(rest, current + f, false)
    decreases |f|
  {
    hide Trim;
    var s := Doubled(f) + [QUOTE] + rest;
    if f == "" {
      assert s == [QUOTE] + rest && s[1..] == rest;
      assert |s| > 1 ==> s[1] == ',';
      assert current + f == current;
    } else {
      var tail := Doubled(f[1..]) + [QUOTE] + rest;
      assert f == [f[0]] + f[1..];
      assert current + f == (current + [f[0]]) + f[1..];
      ReadsOpenField(f[1..], rest, current + [f[0]]);
      if f[0] == QUOTE {
        assert s == [QUOTE, QUOTE] + tail && s[2..] == tail;
      } else {
        assert s == [f[0]] + tail && s[1..] == tail;
      }
    }
  }

  /** An escaped field is read up to its end, whatever follows. */
  lemma {:induction false} ReadsField(f: string, rest: string, current: string)
    requires rest == "" || rest[0] == ','
    ensures Fields(Escape(f) + rest, current, false) == Fields(rest, current + Raw(f), false)
    decreases |f|
  {
    hide Trim;
    var s := Escape(f) + rest;
    if f == "" {
      assert s == [QUOTE, QUOTE] + rest && s[2..] == rest;
      assert Raw(f) == [QUOTE];
    } else if f[0] == QUOTE {
      assert s == [QUOTE, QUOTE] + (Escape(f[1..]) + rest) && s[2..] == Escape(f[1..]) + rest;
      ReadsField(f[1..], rest, current + [QUOTE]);
      RawOfQuote(f);
      assert (current + [QUOTE]) + Raw(f[1..]) == current + Raw(f);
    } else {
      var tail := Doubled(f) + [QUOTE] + rest;
      assert s == [QUOTE] + tail && s[1..] == tail && tail[0] == f[0];
      assert f[0] in f;
      ReadsOpenField(f, rest, current);
    }
  }

  lemma RawOfQuote(f: string)
    requires f != "" && f[0] == QUOTE
    ensures Raw(f) == [QUOTE] + Raw(f[1..])
  {
    assert f == [QUOTE] + f[1..];
    if AllQuotes(f[1..]) {
      assert AllQuotes(f);
    }
    assert forall c <- f[1..] :: c in f;
  }

  lemma {:induction false} QuotesAreTrimmed(s: string)
    requires AllQuotes(s)
    ensures Trim(s) == s
  {
    if s != "" {
      assert s[0] in s && s[|s| - 1] in s;
      assert !IsSpace(QUOTE);
    }
  }

  lemma TrimmedRaw(f: string)
    ensures Trim("" + Raw(f)) == Decoded(f)
  {
    assert "" + Raw(f) == Raw(f);
    if AllQuotes(f) {
      QuotesAreTrimmed(f + [QUOTE]);
    }
  }

  /** Reading a written row gives each field decoded, none disturbing its neighbours. */
  lemma {:induction false} RowReadsBack(fields: seq<string>)
    requires fields != []
    ensures Fields(Row(fields), "", false) == DecodedRow(fields)
    decreases |fields|
  {
    hide Trim, Decoded, Raw;
    var f := fields[0];
    TrimmedRaw(f);
    if |fields| == 1 {
      ReadsField(f, "", "");
      assert Escape(f) + "" == Escape(f);
    } else {
      var rest := [','] + Row(fields[1..]);
      ReadsField(f, rest, "");
      assert Row(fields) == Escape(f) + rest;
      assert rest[1..] == Row(fields[1..]);
      RowReadsBack(fields[1..]);
      assert DecodedRow(fields) == [Decoded(f)] + DecodedRow(fields[1..]);
    }
  }

  /** A field that survives: trimmed, with something other than quotes in it. */
  predicate Survives(field: string) {
    Trimmed(field) && !AllQuotes(field)
  }

  lemma DecodedIsSame(f: string)
    ensures Decoded(f) == f <==> Survives(f)
  {
    if !AllQuotes(f) {
      var i, j := TrimIsCore(f);
      if Trimmed(f) && f != "" {
        assert i == 0 && j == |f| && f[i..j] == f;
      }
    } else {
      assert |Decoded(f)| == |f| + 1;
    }
  }

  /** The round trip holds exactly for rows of surviving fields. */
  lemma RowRoundTrip(fields: seq<string>)
    requires fields != []
    ensures Fields(Row(fields), "", false) == fields <==> forall f <- fields :: Survives(f)
  {
    hide Decoded, Survives, Row, Fields;
    RowReadsBack(fields);
    forall i | 0 <= i < |fields| ensures Decoded(fields[i]) == fields[i] <==> Survives(fields[i]) {
      DecodedIsSame(fields[i]);
    }
    if Fields(Row(fields), "", false) == fields {
      forall f | f in fields ensures Survives(f) {
        var i :| 0 <= i < |fields| && fields[i] == f;
        assert DecodedRow(fields)[i] == fields[i];
      }
    } else {
      var i :| 0 <= i < |fields| && DecodedRow(fields)[i] != fields[i];
      assert fields[i] in fields;
    }
  }

  // ----- Reading a file -----

  function WithoutReturn(s: string): string {
    if s != "" && s[|s| - 1] == '\r' then s[..|s| - 1] else s
  }

  /** Lines end at a line feed, with or without a carriage return before it. */
  function Lines(s: string, current: string): seq<string> {
    if s == "" then [current]
    else if s[0] == '\n' then [WithoutReturn(current)] + Lines(s[1..], "")
    else Lines(s[1..], current + [s[0]])
  }

  function NonBlank(lines: seq<string>): seq<string> {
    if lines == [] then []
    else (if Trim(lines[0]) != "" then [lines[0]] else []) + NonBlank(lines[1..])
  }

  function WithoutMark(text: string): string {
    if text != "" && text[0] == MARK then text[1..] else text
  }

  /** The lines of an uploaded file that are parsed. */
  function FileLines(text: string): seq<string> {
    NonBlank(Lines(WithoutMark(text), ""))
  }

  /** A record of an uploaded file: values by header, and the line it counts as. */
  datatype Record = Record(values: map<string, string>, number: nat)

  /** The header of a place; places beyond the headers share one name. */
  function HeaderAt(headers: seq<string>, i: nat): string {
    if i < |headers| then headers[i] else "undefined"
  }

  /** Values by header; of two values under one header the later counts. */
  function Named(headers: seq<string>, values: seq<string>): map<string, string> {
    if values == [] then map[]
    else
      var n := |values| - 1;
      Named(headers, values[..n])[HeaderAt(headers, n) := values[n]]
  }

  /** Under distinct headers every value is found, and nothing else. */
  lemma {:induction false} NamedHolds(headers: seq<string>, values: seq<string>)
    requires |values| <= |headers| && forall i, j :: 0 <= i < j < |headers| ==> headers[i] != headers[j]
    ensures forall i :: 0 <= i < |values| ==> headers[i] in Named(headers, values) && Named(headers, values)[headers[i]] == values[i]
    ensures forall k <- Named(headers, values) :: k in headers[..|values|]
  {
    if values != [] {
      NamedHolds(headers, values[..|values| - 1]);
    }
  }

  function HeaderLine(lines: seq<string>): string {
    if lines == [] then "" else lines[0]
  }

  /** The first line names the values of all others, which are numbered from 2. */
  function RecordsOf(text: string): (r: seq<Record>)
    ensures |r| == if FileLines(text) == [] then 0 else |FileLines(text)| - 1
  {
    var lines := FileLines(text);
    seq(if lines == [] then 0 else |lines| - 1, i requires 0 <= i < |lines| - 1 => RecordAt(lines, i))
  }

  function RecordAt(lines: seq<string>, i: nat): Record
    requires i < |lines| - 1
  {
    Record(Named(Fields(HeaderLine(lines), "", false), Fields(lines[i + 1], "", false)), i + 2)
  }

  /** csvRows: one line after the other. */
  method CsvRows(text: string) returns (records: seq<Record>)
    ensures records == RecordsOf(text)
  {
    hide FileLines, Fields, Named;
    var lines := FileLines(text);
    var headers := Parse(HeaderLine(lines));
    var rest := if lines == [] then [] else lines[1..];
    records := [];
    for n := 0 to |rest|
      invariant |records| == n
      invariant forall i :: 0 <= i < n ==> records[i] == RecordAt(lines, i)
    {
      var values := Parse(rest[n]);
      records := records + [Record(Named(headers, values), n + 2)];
    }
  }

  /** Text without a line feed runs into the current line. */
  lemma {:induction false} ReadsLine(line: string, rest: string, current: string)
    requires '\n' !in line
    ensures Lines(line + rest, current) == Lines(rest, current + line)
    decreases |line|
  {
    if line == "" {
      assert line + rest == rest && current + line == current;
    } else {
      assert line[0] in line;
      assert forall c <- line[1..] :: c in line;
      assert (line + rest)[1..] == line[1..] + rest;
      assert current + line == (current + [line[0]]) + line[1..];
      ReadsLine(line[1..], rest, current + [line[0]]);
    }
  }

  lemma ReadsEndedLine(line: string, rest: string)
    requires '\n' !in line
    ensures Lines(line + ['\r', '\n'] + rest, "") == [line] + Lines(rest, "")
  {
    var ended := line + ['\r'];
    var after := ['\n'] + rest;
    assert line + ['\r', '\n'] + rest == ended + after;
    ReadsLine(ended, after, "");
    assert "" + ended == ended && ended[..|ended| - 1] == line && after[1..] == rest;
  }

  predicate OneLine(fields: seq<string>) {
    forall f <- fields :: '\n' !in f
  }

  lemma {:induction false} DoubledHasNoFeed(s: string)
    requires '\n' !in s
    ensures '\n' !in Doubled(s)
  {
    if s != "" {
      assert s[0] in s;
      assert forall c <- s[1..] :: c in s;
      DoubledHasNoFeed(s[1..]);
    }
  }

  lemma {:induction false} RowHasNoFeed(fields: seq<string>)
    requires OneLine(fields) && fields != []
    ensures '\n' !in Row(fields) && Row(fields) != "" && Row(fields)[0] == QUOTE
  {
    assert fields[0] in fields;
    DoubledHasNoFeed(fields[0]);
    assert '\n' !in Escape(fields[0]) && Escape(fields[0])[0] == QUOTE;
    if |fields| > 1 {
      assert forall f <- fields[1..] :: f in fields;
      RowHasNoFeed(fields[1..]);
    }
  }

  lemma NotBlank(line: string)
    requires line != "" && line[0] == QUOTE
    ensures Trim(line) != ""
  {
    var i, j := TrimIsCore(line);
    assert i == 0 && j > 0;
  }

  lemma EmptyIsBlank()
    ensures Trim("") == ""
  {
  }

  /** The lines of an exported file are its rows. */
  lemma {:induction false} ExportedLines(rows: seq<seq<string>>)
    requires forall row <- rows :: row != [] && OneLine(row)
    ensures NonBlank(Lines(Body(rows), "")) == RowLines(rows)
  {
    hide Trim, Row, OneLine;
    if rows == [] {
      EmptyIsBlank();
    } else {
      assert rows[0] in rows;
      RowHasNoFeed(rows[0]);
      var line := Row(rows[0]);
      NotBlank(line);
      if |rows| == 1 {
        ReadsLine(line, "", "");
        assert line + "" == line && "" + line == line;
        assert Body(rows) == line;
        assert Lines(line, "") == [line];
        assert RowLines(rows) == [line];
      } else {
        assert forall row <- rows[1..] :: row in rows;
        ExportedLines(rows[1..]);
        ReadsEndedLine(line, Body(rows[1..]));
        assert ([line] + Lines(Body(rows[1..]), ""))[1..] == Lines(Body(rows[1..]), "");
      }
    }
  }

  function RowLines(rows: seq<seq<string>>): (r: seq<string>)
    ensures |r| == |rows| && forall i :: 0 <= i < |r| ==> r[i] == Row(rows[i])
  {
    if rows == [] then [] else [Row(rows[0])] + RowLines(rows[1..])
  }

  /** Reading an exported file gives every row back decoded: no row is lost, added or merged. */
  lemma FileReadsBack(rows: seq<seq<string>>)
    requires forall row <- rows :: row != [] && OneLine(row)
    ensures |FileLines(Export(rows))| == |rows|
    ensures forall i :: 0 <= i < |rows| ==> Fields(FileLines(Export(rows))[i], "", false) == DecodedRow(rows[i])
  {
    hide Trim, Row, Fields, Lines, Body;
    assert WithoutMark(Export(rows)) == Body(rows);
    ExportedLines(rows);
    forall i | 0 <= i < |rows| ensures Fields(Row(rows[i]), "", false) == DecodedRow(rows[i]) {
      assert rows[i] in rows;
      RowReadsBack(rows[i]);
    }
  }

  predicate DistinctNames(headers: seq<string>) {
    forall i, j :: 0 <= i < j < |headers| ==> headers[i] != headers[j]
  }

  /** Every field of the row is found in the record, decoded, under its decoded header, and nothing else is. */
  predicate Holds(record: Record, headers: seq<string>, row: seq<string>) {
    && |row| <= |headers|
    && (forall j :: 0 <= j < |row| ==> Decoded(headers[j]) in record.values && record.values[Decoded(headers[j])] == Decoded(row[j]))
    && (forall k <- record.values :: exists j :: 0 <= j < |row| && k == Decoded(headers[j]))
  }

  /** An exported table reads back as its rows, numbered from 2, if no field has a line feed and no two headers read alike. */
  lemma ExportReadsBack(headers: seq<string>, rows: seq<seq<string>>)
    requires headers != [] && OneLine(headers) && DistinctNames(DecodedRow(headers))
    requires forall row <- rows :: row != [] && OneLine(row) && |row| <= |headers|
    ensures var records := RecordsOf(Export([headers] + rows));
      && |records| == |rows|
      && forall i :: 0 <= i < |rows| ==> records[i].number == i + 2 && Holds(records[i], headers, rows[i])
  {
    hide FileLines, Fields, Export, OneLine, Decoded, Named;
    var all := [headers] + rows;
    FileReadsBack(all);
    var lines, names := FileLines(Export(all)), DecodedRow(headers);
    assert all[0] == headers && lines[0] == HeaderLine(lines);
    forall i | 0 <= i < |rows|
      ensures RecordsOf(Export(all))[i].number == i + 2 && Holds(RecordsOf(Export(all))[i], headers, rows[i])
    {
      assert all[i + 1] == rows[i] && rows[i] in rows;
      NamedHolds(names, DecodedRow(rows[i]));
      forall k | k in Named(names, DecodedRow(rows[i])) ensures exists j :: 0 <= j < |rows[i]| && k == Decoded(headers[j]) {
        var j :| 0 <= j < |rows[i]| && names[..|rows[i]|][j] == k;
      }
    }
  }

  /** The row as it was written is what the record holds. */
  predicate Keeps(record: Record, headers: seq<string>, row: seq<string>)
    requires |row| <= |headers|
  {
    forall j :: 0 <= j < |row| ==> headers[j] in record.values && record.values[headers[j]] == row[j]
  }

  /** Under headers that survive, the table comes back unchanged exactly if every field survives. */
  lemma ExportRoundTrip(headers: seq<string>, rows: seq<seq<string>>)
    requires headers != [] && OneLine(headers) && DistinctNames(headers) && forall f <- headers :: Survives(f)
    requires forall row <- rows :: row != [] && OneLine(row) && |row| <= |headers|
    ensures var records := RecordsOf(Export([headers] + rows));
      && |records| == |rows|
      && ((forall i :: 0 <= i < |rows| ==> Keeps(records[i], headers, rows[i]))
           <==> (forall i, j :: 0 <= i < |rows| && 0 <= j < |rows[i]| ==> Survives(rows[i][j])))
  {
    hide FileLines, Fields, Export, OneLine, Decoded, Survives;
    forall j | 0 <= j < |headers| ensures Decoded(headers[j]) == headers[j] {
      DecodedIsSame(headers[j]);
    }
    ExportReadsBack(headers, rows);
    var records := RecordsOf(Export([headers] + rows));
    forall i, j | 0 <= i < |rows| && 0 <= j < |rows[i]|
      ensures headers[j] in records[i].values && (records[i].values[headers[j]] == rows[i][j] <==> Survives(rows[i][j]))
    {
      assert Holds(records[i], headers, rows[i]);
      DecodedIsSame(rows[i][j]);
    }
  }

  // ----- Tables written by hand -----

  /** A field as it stands in a line: bare, or between quotes. */
  datatype Cell = Bare(text: string) | Quoted(text: string)

  predicate IsCell(c: Cell) {
    && '\n' !in c.text && (c.Bare? ==> QUOTE !in c.text && ',' !in c.text && '\r' !in c.text)
  }

  function Written(c: Cell): string {
    match c case Bare(text) => text case Quoted(text) => Escape(text)
  }

  /** What is read of it. */
  function Read(c: Cell): string {
    match c case Bare(text) => Trim(text) case Quoted(text) => Decoded(text)
  }

  function Line(cells: seq<Cell>): string {
    if cells == [] then "" else if |cells| == 1 then Written(cells[0]) else Written(cells[0]) + [','] + Line(cells[1..])
  }

  function ReadAll(cells: seq<Cell>): (r: seq<string>)
    ensures |r| == |cells| && forall i :: 0 <= i < |r| ==> r[i] == Read(cells[i])
  {
    seq(|cells|, i requires 0 <= i < |cells| => Read(cells[i]))
  }

  /** Outside quotes what is not a quote or a comma is read as written. */
  lemma {:induction false} ReadsBare(t: string, rest: string, current: string)
    requires QUOTE !in t && ',' !in t
    ensures Fields(t + rest, current, false) == Fields(rest, current + t, false)
    decreases |t|
  {
    hide Trim;
    if t == "" {
      assert t + rest == rest && current + t == current;
    } else {
      assert t[0] in t && forall c <- t[1..] :: c in t;
      assert (t + rest)[1..] == t[1..] + rest;
      assert current + t == (current + [t[0]]) + t[1..];
      ReadsBare(t[1..], rest, current + [t[0]]);
    }
  }

  lemma ReadsCell(c: Cell, rest: string)
    requires IsCell(c) && (rest == "" || rest[0] == ',')
    ensures Fields(Written(c) + rest, "", false) == if rest == "" then [Read(c)] else [Read(c)] + Fields(rest[1..], "", false)
  {
    hide Trim;
    if c.Bare? {
      ReadsBare(c.text, rest, "");
      assert "" + c.text == c.text;
    } else {
      ReadsField(c.text, rest, "");
      TrimmedRaw(c.text);
    }
  }

  /** A line of bare and quoted fields, in any mixture, gives what stands in each: bare fields trimmed, with no comma or
      quote lost or taken for text. */
  lemma {:induction false} LineReads(cells: seq<Cell>)
    requires cells != [] && forall c <- cells :: IsCell(c)
    ensures Fields(Line(cells), "", false) == ReadAll(cells)
    decreases |cells|
  {
    hide Fields, Read, Written;
    assert cells[0] in cells;
    if |cells| == 1 {
      ReadsCell(cells[0], "");
      assert Written(cells[0]) + "" == Written(cells[0]);
    } else {
      var rest := [','] + Line(cells[1..]);
      ReadsCell(cells[0], rest);
      assert Line(cells) == Written(cells[0]) + rest && rest[1..] == Line(cells[1..]);
      LineReads(cells[1..]);
    }
  }

  /** Lines ended by a line feed, or by a carriage return and a line feed; the last one may be left open. */
  function TextOf(lines: seq<string>, crlf: bool, closed: bool): string {
    if lines == [] then ""
    else if |lines| == 1 && !closed then lines[0]
    else lines[0] + (if crlf then ['\r', '\n'] else ['\n']) + TextOf(lines[1..], crlf, closed)
  }

  predicate IsLine(line: string) {
    '\n' !in line && (line != "" ==> line[|line| - 1] != '\r')
  }

  lemma ReadsEnded(line: string, crlf: bool, rest: string)
    requires IsLine(line)
    ensures Lines(line + (if crlf then ['\r', '\n'] else ['\n']) + rest, "") == [line] + Lines(rest, "")
  {
    if crlf {
      ReadsEndedLine(line, rest);
    } else {
      var after := ['\n'] + rest;
      assert line + ['\n'] + rest == line + after && after[1..] == rest;
      ReadsLine(line, after, "");
      assert "" + line == line;
    }
  }

  /** The lines of a text are the lines it was made of, but for the blank ones. */
  lemma {:induction false} LinesOfText(lines: seq<string>, crlf: bool, closed: bool)
    requires forall line <- lines :: IsLine(line)
    ensures NonBlank(Lines(TextOf(lines, crlf, closed), "")) == NonBlank(lines)
    decreases |lines|
  {
    hide Trim, IsLine;
    if lines == [] {
      EmptyIsBlank();
    } else {
      assert lines[0] in lines && forall line <- lines[1..] :: line in lines;
      if |lines| == 1 && !closed {
        assert '\n' !in lines[0] by { assert IsLine(lines[0]); LineHasNoFeed(lines[0]); }
        ReadsLine(lines[0], "", "");
        assert lines[0] + "" == lines[0] && "" + lines[0] == lines[0];
        assert Lines(lines[0], "") == [lines[0]];
        assert lines == [lines[0]];
      } else {
        LinesOfText(lines[1..], crlf, closed);
        ReadsEnded(lines[0], crlf, TextOf(lines[1..], crlf, closed));
        assert ([lines[0]] + Lines(TextOf(lines[1..], crlf, closed), ""))[1..] == Lines(TextOf(lines[1..], crlf, closed), "");
      }
    }
  }

  lemma LineHasNoFeed(line: string)
    requires IsLine(line)
    ensures '\n' !in line
  {
  }

  lemma {:induction false} AllAreKept(lines: seq<string>)
    requires forall line <- lines :: Trim(line) != ""
    ensures NonBlank(lines) == lines
  {
    if lines != [] {
      assert lines[0] in lines && forall line <- lines[1..] :: line in lines;
      AllAreKept(lines[1..]);
    }
  }

  function LinesFor(rows: seq<seq<Cell>>): (r: seq<string>)
    ensures |r| == |rows| && forall i :: 0 <= i < |r| ==> r[i] == Line(rows[i])
  {
    seq(|rows|, i requires 0 <= i < |rows| => Line(rows[i]))
  }

  predicate IsRow(row: seq<Cell>) {
    row != [] && (forall c <- row :: IsCell(c)) && Trim(Line(row)) != ""
  }

  lemma {:induction false} RowIsLine(row: seq<Cell>)
    requires forall c <- row :: IsCell(c)
    ensures IsLine(Line(row))
  {
    if row != [] {
      assert row[0] in row && forall c <- row[1..] :: c in row;
      CellIsLine(row[0]);
      RowIsLine(row[1..]);
      if |row| > 1 {
        assert Line(row) == Written(row[0]) + [','] + Line(row[1..]);
      }
    }
  }

  lemma CellIsLine(c: Cell)
    requires IsCell(c)
    ensures IsLine(Written(c))
  {
    if c.Quoted? {
      DoubledHasNoFeed(c.text);
    } else {
      assert c.text != "" ==> c.text[|c.text| - 1] in c.text;
    }
  }

  lemma TextBegins(lines: seq<string>, crlf: bool, closed: bool)
    requires lines != [] && lines[0] != ""
    ensures TextOf(lines, crlf, closed) != "" && TextOf(lines, crlf, closed)[0] == lines[0][0]
  {
  }

  function TableText(rows: seq<seq<Cell>>, crlf: bool, closed: bool, marked: bool): string {
    (if marked then [MARK] else "") + TextOf(LinesFor(rows), crlf, closed)
  }

  /** A byte order mark not meant as one would be taken for one. */
  predicate StartsClear(row: seq<Cell>) {
    Line(row) == "" || Line(row)[0] != MARK
  }

  lemma TableLines(rows: seq<seq<Cell>>, crlf: bool, closed: bool, marked: bool)
    requires rows != [] && (forall row <- rows :: IsRow(row)) && (marked || StartsClear(rows[0]))
    ensures FileLines(TableText(rows, crlf, closed, marked)) == LinesFor(rows)
  {
    hide Trim, Line, TextOf, IsCell;
    var lines := LinesFor(rows);
    EmptyIsBlank();
    forall line | line in lines ensures IsLine(line) && Trim(line) != "" {
      var i :| 0 <= i < |lines| && lines[i] == line;
      assert rows[i] in rows;
      RowIsLine(rows[i]);
    }
    assert rows[0] in rows && lines[0] == Line(rows[0]);
    TextBegins(lines, crlf, closed);
    assert WithoutMark(TableText(rows, crlf, closed, marked)) == TextOf(lines, crlf, closed);
    LinesOfText(lines, crlf, closed);
    AllAreKept(lines);
  }

  /** Every field of the row is in the record, as read, under its header as read, and nothing else is. */
  predicate Shows(record: Record, headers: seq<Cell>, row: seq<Cell>) {
    && |row| <= |headers|
    && (forall j :: 0 <= j < |row| ==> Read(headers[j]) in record.values && record.values[Read(headers[j])] == Read(row[j]))
    && (forall k <- record.values :: exists j :: 0 <= j < |row| && k == Read(headers[j]))
  }

  lemma RecordsAt(text: string)
    requires FileLines(text) != []
    ensures |RecordsOf(text)| == |FileLines(text)| - 1
    ensures forall i :: 0 <= i < |RecordsOf(text)| ==> RecordsOf(text)[i] == RecordAt(FileLines(text), i)
  {
  }

  lemma RowShows(headers: seq<Cell>, row: seq<Cell>, number: nat)
    requires DistinctNames(ReadAll(headers)) && |row| <= |headers|
    ensures Shows(Record(Named(ReadAll(headers), ReadAll(row)), number), headers, row)
  {
    hide Read, Named;
    NamedHolds(ReadAll(headers), ReadAll(row));
    forall k | k in Named(ReadAll(headers), ReadAll(row)) ensures exists j :: 0 <= j < |row| && k == Read(headers[j]) {
      var j :| 0 <= j < |row| && ReadAll(headers)[..|row|][j] == k;
    }
  }

  /** An uploaded table, its fields bare or quoted, its lines ended either way, with a byte order mark or without: one
      record per row, numbered from 2, with every field as read under its header as read, and nothing else. */
  lemma TableReads(headers: seq<Cell>, rows: seq<seq<Cell>>, crlf: bool, closed: bool, marked: bool)
    requires IsRow(headers) && DistinctNames(ReadAll(headers)) && (marked || StartsClear(headers))
    requires forall row <- rows :: IsRow(row) && |row| <= |headers|
    ensures var records := RecordsOf(TableText([headers] + rows, crlf, closed, marked));
      && |records| == |rows|
      && forall i :: 0 <= i < |rows| ==> records[i].number == i + 2 && Shows(records[i], headers, rows[i])
  {
    hide TableText, IsRow, Shows, FileLines, RecordsOf, StartsClear, DistinctNames, RecordAt, Line;
    var all := [headers] + rows;
    forall row | row in all ensures IsRow(row) {
    }
    assert all[0] == headers;
    TableLines(all, crlf, closed, marked);
    RecordsAt(TableText(all, crlf, closed, marked));
    forall i | 0 <= i < |rows| ensures |LinesFor(all)| == |rows| + 1 && RecordAt(LinesFor(all), i).number == i + 2 && Shows(RecordAt(LinesFor(all), i), headers, rows[i]) {
      TableRecord(headers, rows, i);
    }
  }

  lemma TableRecord(headers: seq<Cell>, rows: seq<seq<Cell>>, i: nat)
    requires i < |rows| && IsRow(headers) && DistinctNames(ReadAll(headers)) && IsRow(rows[i]) && |rows[i]| <= |headers|
    ensures var lines := LinesFor([headers] + rows);
            |lines| == |rows| + 1 && RecordAt(lines, i).number == i + 2 && Shows(RecordAt(lines, i), headers, rows[i])
  {
    hide Line, IsRow, Shows, DistinctNames, RecordAt;
    var all := [headers] + rows;
    assert all[0] == headers && all[i + 1] == rows[i];
    RowRecord(headers, rows[i], LinesFor(all), i);
  }

  lemma RowRecord(headers: seq<Cell>, row: seq<Cell>, lines: seq<string>, i: nat)
    requires IsRow(headers) && IsRow(row) && DistinctNames(ReadAll(headers)) && |row| <= |headers|
    requires i < |lines| - 1 && lines[0] == Line(headers) && lines[i + 1] == Line(row)
    ensures RecordAt(lines, i).number == i + 2 && Shows(RecordAt(lines, i), headers, row)
  {
    hide Fields, Line, Read, Named, Shows, DistinctNames;
    LineReads(headers);
    LineReads(row);
    RowShows(headers, row, i + 2);
  }

  // ----- Fields with line feeds -----

  lemma {:induction false} LinesNonEmpty(s: string, current: string)
    ensures Lines(s, current) != []
  {
    if s != "" && s[0] != '\n' {
      LinesNonEmpty(s[1..], current + [s[0]]);
    }
  }

  /** A line feed ends the line before it and begins the next. */
  lemma {:induction false} LinesAtFeed(a: string, b: string, current: string)
    ensures Lines(a, current) != []
    ensures var before := Lines(a, current);
      Lines(a + ['\n'] + b, current) == before[..|before| - 1] + [WithoutReturn(before[|before| - 1])] + Lines(b, "")
    decreases |a|
  {
    var s := a + ['\n'] + b;
    if a == "" {
      assert s == ['\n'] + b && s[1..] == b;
    } else {
      assert s[1..] == a[1..] + ['\n'] + b;
      if a[0] == '\n' {
        LinesAtFeed(a[1..], b, "");
        var rest := Lines(a[1..], "");
        assert Lines(a, current) == [WithoutReturn(current)] + rest;
        assert ([WithoutReturn(current)] + rest)[..|rest|] == [WithoutReturn(current)] + rest[..|rest| - 1];
      } else {
        LinesAtFeed(a[1..], b, current + [a[0]]);
      }
    }
  }

  lemma {:induction false} NonBlankOfParts(a: seq<string>, b: seq<string>)
    ensures NonBlank(a + b) == NonBlank(a) + NonBlank(b)
  {
    hide Trim;
    if a == [] {
      assert a + b == b;
    } else {
      assert (a + b)[1..] == a[1..] + b;
      NonBlankOfParts(a[1..], b);
    }
  }

  /** The last line of a text that ends in a carriage return is the last line without it, and the carriage return. */
  lemma {:induction false} LinesWithReturn(a: string, current: string)
    ensures var lines := Lines(a, current);
      lines != [] && Lines(a + ['\r'], current) == lines[..|lines| - 1] + [lines[|lines| - 1] + ['\r']]
    decreases |a|
  {
    var s := a + ['\r'];
    if a == "" {
      assert s == ['\r'] && s[1..] == "";
    } else {
      assert s[1..] == a[1..] + ['\r'];
      if a[0] == '\n' {
        LinesWithReturn(a[1..], "");
        var rest := Lines(a[1..], "");
        assert ([WithoutReturn(current)] + rest)[..|rest|] == [WithoutReturn(current)] + rest[..|rest| - 1];
      } else {
        LinesWithReturn(a[1..], current + [a[0]]);
      }
    }
  }

  /** Rows that are not the last end in a carriage return and a line feed that add no line of their own. */
  lemma LinesOfRows(row: string, rest: string)
    ensures Lines(row + ['\r', '\n'] + rest, "") == Lines(row, "") + Lines(rest, "")
  {
    var ended, lines := row + ['\r'], Lines(row, "");
    assert row + ['\r', '\n'] + rest == ended + ['\n'] + rest;
    LinesAtFeed(ended, rest, "");
    LinesWithReturn(row, "");
    var last := lines[|lines| - 1];
    assert WithoutReturn(last + ['\r']) == last by {
      assert (last + ['\r'])[..|last|] == last;
    }
    assert lines == lines[..|lines| - 1] + [last];
  }

  predicate EndsInQuotes(s: string) {
    s != "" && s[0] == QUOTE && s[|s| - 1] == QUOTE
  }

  lemma {:induction false} RowEndsInQuotes(fields: seq<string>)
    requires fields != []
    ensures EndsInQuotes(Row(fields))
  {
    if |fields| > 1 {
      RowEndsInQuotes(fields[1..]);
    }
  }

  lemma HasCharIsNotBlank(line: string, i: nat)
    requires i < |line| && line[i] == QUOTE
    ensures Trim(line) != ""
  {
    var _, _ := TrimIsCore(line);
    assert !IsSpace(QUOTE);
  }

  /** The last line of a text is what follows its last line feed. */
  lemma {:induction false} LastLineEnds(s: string, current: string)
    ensures Lines(s, current) != []
    ensures s != "" && s[|s| - 1] != '\n' ==>
      var last := Lines(s, current)[|Lines(s, current)| - 1]; last != "" && last[|last| - 1] == s[|s| - 1]
    decreases |s|
  {
    LinesNonEmpty(s, current);
    if s != "" && s[|s| - 1] != '\n' {
      if |s| == 1 {
        assert s[1..] == "";
        assert (current + [s[0]])[|current|] == s[0];
      } else if s[0] == '\n' {
        LinesNonEmpty(s[1..], "");
        LastLineEnds(s[1..], "");
      } else {
        LastLineEnds(s[1..], current + [s[0]]);
      }
    }
  }

  /** A text between quotes has one line if it has no line feed, and at least two that are not blank if it has. */
  lemma QuotedLines(s: string)
    requires EndsInQuotes(s)
    ensures '\n' !in s ==> |NonBlank(Lines(s, ""))| == 1
    ensures '\n' in s ==> |NonBlank(Lines(s, ""))| >= 2
  {
    if '\n' !in s {
      ReadsLine(s, "", "");
      assert s + "" == s && "" + s == s && Lines(s, "") == [s];
      HasCharIsNotBlank(s, 0);
    } else {
      hide Lines, Trim;
      var i := FirstFeed(s);
      assert s == s[..i] + ['\n'] + s[i + 1..];
      SplitQuotedLines(s[..i], s[i + 1..]);
    }
  }

  lemma SplitQuotedLines(a: string, b: string)
    requires a != "" && a[0] == QUOTE && '\n' !in a && b != "" && b[|b| - 1] == QUOTE
    ensures |NonBlank(Lines(a + ['\n'] + b, ""))| >= 2
  {
    LinesAtFeed(a, b, "");
    ReadsLine(a, "", "");
    assert a + "" == a && "" + a == a && Lines(a, "") == [a];
    hide Lines, Trim;
    HasCharIsNotBlank(WithoutReturn(a), 0);
    LastLineEnds(b, "");
    var lines := Lines(b, "");
    var last := lines[|lines| - 1];
    HasCharIsNotBlank(last, |last| - 1);
    assert lines == lines[..|lines| - 1] + [last];
    NonBlankOfParts(lines[..|lines| - 1], [last]);
    assert [a][..0] + [WithoutReturn(a)] + lines == [WithoutReturn(a)] + lines;
    NonBlankOfParts([WithoutReturn(a)], lines);
  }

  lemma FirstFeed(s: string) returns (i: nat)
    requires EndsInQuotes(s) && '\n' in s
    ensures 0 < i < |s| - 1 && s[i] == '\n' && '\n' !in s[..i]
  {
    i := 0;
    while s[i] != '\n'
      invariant i < |s| && '\n' !in s[..i]
      invariant exists k :: i <= k < |s| && s[k] == '\n'
      decreases |s| - i
    {
      i := i + 1;
    }
  }

  lemma {:induction false} DoubledHasFeed(s: string)
    ensures '\n' in Doubled(s) <==> '\n' in s
  {
    if s != "" {
      assert s == [s[0]] + s[1..];
      DoubledHasFeed(s[1..]);
    }
  }

  lemma {:induction false} RowHasFeed(fields: seq<string>)
    requires fields != []
    ensures '\n' in Row(fields) <==> !OneLine(fields)
  {
    DoubledHasFeed(fields[0]);
    if |fields| > 1 {
      assert fields == [fields[0]] + fields[1..];
      RowHasFeed(fields[1..]);
    } else {
      assert fields == [fields[0]];
    }
  }

  /** The rows that keep to one line. */
  predicate AllOneLine(rows: seq<seq<string>>) {
    forall row <- rows :: OneLine(row)
  }

  lemma {:induction false} BodyLines(rows: seq<seq<string>>)
    requires forall row <- rows :: row != []
    ensures |NonBlank(Lines(Body(rows), ""))| >= |rows|
    ensures |NonBlank(Lines(Body(rows), ""))| == |rows| <==> AllOneLine(rows)
  {
    hide Trim, Row, OneLine;
    if rows == [] {
      EmptyIsBlank();
    } else {
      assert rows[0] in rows;
      RowEndsInQuotes(rows[0]);
      RowHasFeed(rows[0]);
      QuotedLines(Row(rows[0]));
      if |rows| == 1 {
        assert Body(rows) == Row(rows[0]);
        assert AllOneLine(rows) <==> OneLine(rows[0]);
      } else {
        var rest := rows[1..];
        assert forall row <- rest :: row in rows;
        BodyLines(rest);
        LinesOfRows(Row(rows[0]), Body(rest));
        NonBlankOfParts(Lines(Row(rows[0]), ""), Lines(Body(rest), ""));
        assert rows == [rows[0]] + rest;
        assert AllOneLine(rows) <==> OneLine(rows[0]) && AllOneLine(rest);
      }
    }
  }

  /** An exported file has as many lines to parse as rows exactly if no field holds a line feed; each field that does
      splits its row. */
  lemma FileKeepsRowsExactly(rows: seq<seq<string>>)
    requires forall row <- rows :: row != []
    ensures |FileLines(Export(rows))| == |rows| <==> forall row <- rows :: OneLine(row)
  {
    hide Trim, Row, Lines, Body;
    assert WithoutMark(Export(rows)) == Body(rows);
    BodyLines(rows);
  }
}
