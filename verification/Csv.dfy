/** The CSV export of audit records and a reader for it
    (tools/admin-ui/web/src/audit.jsx, `toCSV` and `csvField`). */
module Csv {
  import opened Options
  import opened Text

  /** An audit record as the export sees it: the text of every field that is present and not null, and
      the record's JSON form. */
  datatype Entry = Entry(fields: map<string, string>, json: string)

  const COLUMNS := ["time", "outcome", "broker_id", "method", "path", "status", "latency_ms"]

  // ----- the printer -----

  predicate NeedsQuotes(s: string) {
    exists k :: 0 <= k < |s| && (s[k] == ',' || s[k] == '"' || s[k] == '\n' || s[k] == '\r')
  }

  function DoubleQuotes(s: string): string {
    if s == "" then ""
    else (if s[0] == '"' then "\"\"" else [s[0]]) + DoubleQuotes(s[1..])
  }

  /** None stands for null and undefined. */
  function CsvField(v: Option<string>): string {
    match v
    case None => ""
    case Some(s) => if NeedsQuotes(s) then "\"" + (DoubleQuotes(s) + "\"") else s
  }

  function Lookup(e: Entry, k: string): Option<string> {
    if k in e.fields then Some(e.fields[k]) else None
  }

  /** The values of one row, in column order, the JSON form last. */
  function RowValues(e: Entry): (r: seq<Option<string>>)
    ensures |r| == |COLUMNS| + 1
  {
    seq(|COLUMNS|, k requires 0 <= k < |COLUMNS| => Lookup(e, COLUMNS[k])) + [Some(e.json)]
  }

  function Printed(vs: seq<Option<string>>): (r: seq<string>)
    ensures |r| == |vs| && forall k :: 0 <= k < |vs| ==> r[k] == CsvField(vs[k])
  {
    seq(|vs|, k requires 0 <= k < |vs| => CsvField(vs[k]))
  }

  function RowText(e: Entry): string {
    JoinWith(Printed(RowValues(e)), ",")
  }

  function Rows(entries: seq<Entry>): (r: seq<string>)
    ensures |r| == |entries| && forall k :: 0 <= k < |entries| ==> r[k] == RowText(entries[k])
  {
    seq(|entries|, k requires 0 <= k < |entries| => RowText(entries[k]))
  }

  function Header(): seq<string> {
    COLUMNS + ["raw_json"]
  }

  function ToCSV(entries: seq<Entry>): string {
    (JoinWith(Header(), ",") + "\n") + (JoinWith(Rows(entries), "\n") + if entries != [] then "\n" else "")
  }

  // ----- a reader by the grammar of section 2 of RFC 4180 -----

  predicate IsPlain(c: char) {
    c != ',' && c != '"' && c != '\n' && c != '\r'
  }

  /** The longest prefix of plain characters, and the rest. */
  function ReadPlain(s: string): (r: (string, string))
    ensures |r.1| <= |s|
  {
    if s == "" || !IsPlain(s[0]) then ("", s)
    else
      var (head, rest) := ReadPlain(s[1..]);
      ([s[0]] + head, rest)
  }

  /** The text up to the closing quote, with doubled quotes taken as one, and the rest. */
  function ReadQuoted(s: string): (r: Option<(string, string)>)
    ensures r.Some? ==> |r.value.1| < |s|
    decreases |s|
  {
    if s == "" then None
    else if s[0] != '"' then
      var (body, rest) :- ReadQuoted(s[1..]);
      Some(([s[0]] + body, rest))
    else if |s| > 1 && s[1] == '"' then
      var (body, rest) :- ReadQuoted(s[2..]);
      Some((['"'] + body, rest))
    else Some(("", s[1..]))
  }

  function ReadField(s: string): (r: Option<(string, string)>)
    ensures r.Some? ==> |r.value.1| <= |s|
  {
    if s != "" && s[0] == '"' then ReadQuoted(s[1..]) else Some(ReadPlain(s))
  }

  /** Fields separated by commas up to a record break (CRLF, or LF alone) or the end. */
  function ReadRecord(s: string): (r: Option<(seq<string>, string)>)
    ensures r.Some? ==> |r.value.1| <= |s| && (s != "" ==> |r.value.1| < |s|)
    decreases |s|
  {
    var (field, rest) :- ReadField(s);
    if rest == "" then Some(([field], ""))
    else if rest[0] == ',' then
      var (fields, tail) :- ReadRecord(rest[1..]);
      Some(([field] + fields, tail))
    else if rest[0] == '\n' then Some(([field], rest[1..]))
    else if |rest| > 1 && rest[0] == '\r' && rest[1] == '\n' then Some(([field], rest[2..]))
    else None
  }

  function ReadFile(s: string): Option<seq<seq<string>>>
    decreases |s|
  {
    if s == "" then Some([])
    else
      var (record, rest) :- ReadRecord(s);
      var records :- ReadFile(rest);
      Some([record] + records)
  }

  // ----- the reader undoes the printer -----

  lemma {:induction false} ReadDoubled(s: string, rest: string)
    requires rest == "" || rest[0] != '"'
    ensures ReadQuoted(DoubleQuotes(s) + ("\"" + rest)) == Some((s, rest))
  {
    if s == "" {
      assert "" + ("\"" + rest) == "\"" + rest;
      assert ("\"" + rest)[1..] == rest;
    } else {
      ReadDoubled(s[1..], rest);
      var first := if s[0] == '"' then "\"\"" else [s[0]];
      var tail := DoubleQuotes(s[1..]) + ("\"" + rest);
      Regroup(first, DoubleQuotes(s[1..]), "\"" + rest);
      assert (first + tail)[|first|..] == tail;
      assert s == [s[0]] + s[1..];
    }
  }

  lemma {:induction false} ReadPlainText(s: string, rest: string)
    requires (forall k :: 0 <= k < |s| ==> IsPlain(s[k])) && (rest == "" || !IsPlain(rest[0]))
    ensures ReadPlain(s + rest) == (s, rest)
  {
    if s == "" {
      assert "" + rest == rest;
    } else {
      ReadPlainText(s[1..], rest);
      assert (s + rest)[1..] == s[1..] + rest;
      assert s == [s[0]] + s[1..];
    }
  }

  function Content(v: Option<string>): string {
    if v.None? then "" else v.value
  }

  /** A printed field reads back as its content, null as empty. */
  lemma ReadPrintedField(v: Option<string>, rest: string)
    requires rest != "" && (rest[0] == ',' || rest[0] == '\n')
    ensures ReadField(CsvField(v) + rest) == Some((Content(v), rest))
  {
    if v.Some? && NeedsQuotes(v.value) {
      var s := v.value;
      ReadDoubled(s, rest);
      Regroup("\"", DoubleQuotes(s) + "\"", rest);
      Regroup(DoubleQuotes(s), "\"", rest);
      assert ("\"" + (DoubleQuotes(s) + ("\"" + rest)))[1..] == DoubleQuotes(s) + ("\"" + rest);
    } else {
      ReadPlainText(Content(v), rest);
    }
  }

  function Contents(vs: seq<Option<string>>): (r: seq<string>)
    ensures |r| == |vs| && forall k :: 0 <= k < |vs| ==> r[k] == Content(vs[k])
  {
    seq(|vs|, k requires 0 <= k < |vs| => Content(vs[k]))
  }

  lemma RecordStep(s: string, field: string, rest: string, fields: seq<string>, tail: string)
    requires ReadField(s) == Some((field, "," + rest)) && ReadRecord(rest) == Some((fields, tail))
    ensures ReadRecord(s) == Some(([field] + fields, tail))
  {
    hide ReadField;
    assert ("," + rest)[1..] == rest;
  }

  lemma RecordEnd(s: string, field: string, rest: string)
    requires ReadField(s) == Some((field, "\n" + rest))
    ensures ReadRecord(s) == Some(([field], rest))
  {
    hide ReadField;
    assert ("\n" + rest)[1..] == rest;
  }

  lemma {:induction false} ReadPrintedRow(vs: seq<Option<string>>, rest: string)
    requires vs != []
    ensures ReadRecord(JoinWith(Printed(vs), ",") + ("\n" + rest)) == Some((Contents(vs), rest))
  {
    hide CsvField, ReadRecord, ReadField, Content;
    var first := CsvField(vs[0]);
    if |vs| == 1 {
      ReadPrintedField(vs[0], "\n" + rest);
      RecordEnd(first + ("\n" + rest), Content(vs[0]), rest);
      assert Contents(vs) == [Content(vs[0])];
    } else {
      var tail := JoinWith(Printed(vs[1..]), ",");
      assert Printed(vs)[1..] == Printed(vs[1..]);
      ReadPrintedRow(vs[1..], rest);
      ReadPrintedField(vs[0], "," + (tail + ("\n" + rest)));
      RecordStep(first + ("," + (tail + ("\n" + rest))), Content(vs[0]), tail + ("\n" + rest), Contents(vs[1..]), rest);
      Regroup(first, "," + tail, "\n" + rest);
      Regroup(",", tail, "\n" + rest);
      assert Contents(vs) == [Content(vs[0])] + Contents(vs[1..]);
    }
  }

  function RowContents(entries: seq<Entry>): (r: seq<seq<string>>)
    ensures |r| == |entries| && forall k :: 0 <= k < |entries| ==> r[k] == Contents(RowValues(entries[k]))
  {
    seq(|entries|, k requires 0 <= k < |entries| => Contents(RowValues(entries[k])))
  }

  lemma FileStep(s: string, record: seq<string>, rest: string, records: seq<seq<string>>)
    requires s != "" && ReadRecord(s) == Some((record, rest)) && ReadFile(rest) == Some(records)
    ensures ReadFile(s) == Some([record] + records)
  {
    hide ReadRecord;
  }

  function Body(entries: seq<Entry>): string {
    JoinWith(Rows(entries), "\n") + if entries != [] then "\n" else ""
  }

  lemma BodyStep(entries: seq<Entry>)
    requires entries != []
    ensures Body(entries) == RowText(entries[0]) + ("\n" + Body(entries[1..]))
  {
    hide RowText;
    assert Rows(entries)[1..] == Rows(entries[1..]);
    if |entries| == 1 {
      assert entries[1..] == [] && "\n" + "" == "\n";
    } else {
      var tail := JoinWith(Rows(entries[1..]), "\n");
      Regroup(RowText(entries[0]), "\n" + tail, "\n");
      Regroup("\n", tail, "\n");
    }
  }

  lemma {:induction false} ReadBody(entries: seq<Entry>)
    ensures ReadFile(Body(entries)) == Some(RowContents(entries))
  {
    hide RowValues, ReadRecord, JoinWith;
    if entries == [] {
      EmptyBody();
    } else {
      hide ReadFile, Body;
      var rest := Body(entries[1..]);
      ReadBody(entries[1..]);
      ReadPrintedRow(RowValues(entries[0]), rest);
      BodyStep(entries);
      FileStep(Body(entries), Contents(RowValues(entries[0])), rest, RowContents(entries[1..]));
      assert RowContents(entries) == [Contents(RowValues(entries[0]))] + RowContents(entries[1..]);
    }
  }

  lemma EmptyBody()
    ensures Body([]) == ""
  {
    assert Rows([]) == [];
  }

  lemma NamesArePlain()
    ensures !NeedsQuotes("time") && !NeedsQuotes("outcome") && !NeedsQuotes("broker_id") && !NeedsQuotes("method")
    ensures !NeedsQuotes("path") && !NeedsQuotes("status") && !NeedsQuotes("latency_ms") && !NeedsQuotes("raw_json")
  {
  }

  lemma HeaderIsPlain()
    ensures Printed(Somes(Header())) == Header() && Contents(Somes(Header())) == Header() && Header() != []
  {
    NamesArePlain();
    hide NeedsQuotes;
    assert Header() == ["time", "outcome", "broker_id", "method", "path", "status", "latency_ms", "raw_json"];
    forall k | 0 <= k < |Header()| ensures !NeedsQuotes(Header()[k]) {
    }
    PlainList(Header());
  }

  lemma PlainList(names: seq<string>)
    requires forall k :: 0 <= k < |names| ==> !NeedsQuotes(names[k])
    ensures Printed(Somes(names)) == names && Contents(Somes(names)) == names
  {
    hide NeedsQuotes;
  }

  function Somes(parts: seq<string>): (r: seq<Option<string>>)
    ensures |r| == |parts| && forall k :: 0 <= k < |parts| ==> r[k] == Some(parts[k])
  {
    seq(|parts|, k requires 0 <= k < |parts| => Some(parts[k]))
  }

  /** Reading the export of any list of records gives back the header and every row's values exactly,
      whatever commas, quotes and line breaks they hold. */
  lemma CsvRoundTrip(entries: seq<Entry>)
    ensures ReadFile(ToCSV(entries)) == Some([Header()] + RowContents(entries))
  {
    ReadBody(entries);
    HeaderIsPlain();
    hide Header, JoinWith, Rows, RowContents, ReadRecord, ReadFile, Printed;
    ReadPrintedRow(Somes(Header()), Body(entries));
    var head := JoinWith(Header(), ",");
    Regroup(head, "\n", Body(entries));
    assert ToCSV(entries) == head + ("\n" + Body(entries));
    FileStep(ToCSV(entries), Header(), Body(entries), RowContents(entries));
  }

  /** The text of a field, empty if the record does not have it. */
  function FieldText(e: Entry, name: string): string {
    if name in e.fields then e.fields[name] else ""
  }

  /** The row has, under every name of the header, the record's field of that name, and the record last. */
  predicate ShowsEntry(row: seq<string>, header: seq<string>, e: Entry) {
    && |row| == |header| == 8 && row[7] == e.json
    && forall k :: 0 <= k < 7 ==> row[k] == FieldText(e, header[k])
  }

  /** The file as a reader sees it: the eight names, and then a row for every record, in order. */
  predicate ShowsEntries(file: seq<seq<string>>, entries: seq<Entry>) {
    && |file| == |entries| + 1
    && file[0] == ["time", "outcome", "broker_id", "method", "path", "status", "latency_ms", "raw_json"]
    && forall i :: 0 <= i < |entries| ==> ShowsEntry(file[i + 1], file[0], entries[i])
  }

  /** Every cell of the export is what the name above it says. */
  lemma CellsUnderHeader(entries: seq<Entry>)
    ensures ReadFile(ToCSV(entries)).Some? && ShowsEntries(ReadFile(ToCSV(entries)).value, entries)
  {
    CsvRoundTrip(entries);
    HeaderNames();
    var file := [Header()] + RowContents(entries);
    hide ReadFile, ToCSV, Contents, RowValues, Header, ShowsEntry;
    forall i | 0 <= i < |entries| ensures ShowsEntry(file[i + 1], file[0], entries[i]) {
      RowCells(entries[i]);
      assert file[i + 1] == RowContents(entries)[i];
    }
  }

  lemma HeaderNames()
    ensures Header() == ["time", "outcome", "broker_id", "method", "path", "status", "latency_ms", "raw_json"]
  {
  }

  lemma RowCells(e: Entry)
    ensures ShowsEntry(Contents(RowValues(e)), Header(), e)
  {
  }

  /** So exports of different values are different texts. */
  lemma ExportDeterminesValues(xs: seq<Entry>, ys: seq<Entry>)
    requires ToCSV(xs) == ToCSV(ys)
    ensures RowContents(xs) == RowContents(ys) && |xs| == |ys|
    ensures forall i, name :: 0 <= i < |xs| && name in COLUMNS ==> FieldText(xs[i], name) == FieldText(ys[i], name)
    ensures forall i :: 0 <= i < |xs| ==> xs[i].json == ys[i].json
  {
    SameContents(xs, ys);
    CellsUnderHeader(xs);
    CellsUnderHeader(ys);
    HeaderNames();
    var file := ReadFile(ToCSV(xs)).value;
    assert file[0] == Header();
    hide ReadFile, ToCSV, FieldText, Header, COLUMNS, ShowsEntry;
    forall i, name | 0 <= i < |xs| && name in COLUMNS ensures FieldText(xs[i], name) == FieldText(ys[i], name) {
      SameRow(file[i + 1], xs[i], ys[i], name);
    }
    forall i | 0 <= i < |xs| ensures xs[i].json == ys[i].json {
      SameRecord(file[i + 1], file[0], xs[i], ys[i]);
    }
  }

  lemma SameContents(xs: seq<Entry>, ys: seq<Entry>)
    requires ToCSV(xs) == ToCSV(ys)
    ensures RowContents(xs) == RowContents(ys)
  {
    CsvRoundTrip(xs);
    CsvRoundTrip(ys);
    hide ToCSV, RowContents, ReadFile;
    assert ([Header()] + RowContents(xs))[1..] == RowContents(xs);
    assert ([Header()] + RowContents(ys))[1..] == RowContents(ys);
  }

  lemma SameRow(row: seq<string>, x: Entry, y: Entry, name: string)
    requires ShowsEntry(row, Header(), x) && ShowsEntry(row, Header(), y) && name in COLUMNS
    ensures FieldText(x, name) == FieldText(y, name)
  {
    var k :| 0 <= k < |COLUMNS| && COLUMNS[k] == name;
    assert Header()[k] == name && k < 7;
    hide FieldText, COLUMNS, Header;
    assert row[k] == FieldText(x, name) && row[k] == FieldText(y, name);
  }

  lemma SameRecord(row: seq<string>, header: seq<string>, x: Entry, y: Entry)
    requires ShowsEntry(row, header, x) && ShowsEntry(row, header, y)
    ensures x.json == y.json
  {
    hide FieldText;
  }
}
