/**
  The CSV printer of the analytics exports (analytics-reporting-service/src/analytics/csv.ts)
  and a reference parser for the grammar of section 2 of RFC 4180 that inverts it.

  A field is the text the printer's `String(value)` gives; numbers are already text here.
 */
module Csv {
  type Row = seq<string>

  // ----- The printer -----

  predicate NeedsQuotes(text: string) {
    '"' in text || ',' in text || '\r' in text || '\n' in text
  }

  /** `text.replace(/"/g, '""')` */
  function DoubleQuotes(text: string): string {
    if text == "" then ""
    else (if text[0] == '"' then "\"\"" else [text[0]]) + DoubleQuotes(text[1..])
  }

  function PrintField(text: string): string {
    if NeedsQuotes(text) then "\"" + DoubleQuotes(text) + "\"" else text
  }

  function Join(parts: seq<string>, separator: string): string {
    if parts == [] then ""
    else if |parts| == 1 then parts[0]
    else parts[0] + separator + Join(parts[1..], separator)
  }

  function PrintFields(row: Row): seq<string> {
    seq(|row|, i requires 0 <= i < |row| => PrintField(row[i]))
  }

  function PrintRow(row: Row): string {
    Join(PrintFields(row), ",")
  }

  function PrintRows(rows: seq<Row>): seq<string> {
    seq(|rows|, i requires 0 <= i < |rows| => PrintRow(rows[i]))
  }

  function ToCsv(headers: Row, rows: seq<Row>): string {
    Join(PrintRows([headers] + rows), "\r\n") + "\r\n"
  }

  // ----- The reference parser -----

  datatype FieldParse = Field(text: string, rest: string) | BadField
  datatype RecordParse = Record(fields: Row, rest: string) | BadRecord
  datatype FileParse = File(records: seq<Row>) | BadFile

  /** The rest of `escaped`, after its opening quote: two quotes are one, a single one closes. */
  function ParseQuoted(s: string): (r: FieldParse)
    ensures r.Field? ==> |r.rest| < |s|
  {
    if s == "" then BadField
    else if s[0] != '"' then
      var r := ParseQuoted(s[1..]);
      if r.BadField? then BadField else Field([s[0]] + r.text, r.rest)
    else if |s| > 1 && s[1] == '"' then
      var r := ParseQuoted(s[2..]);
      if r.BadField? then BadField else Field("\"" + r.text, r.rest)
    else Field("", s[1..])
  }

  predicate IsTextData(c: char) {
    c != '"' && c != ',' && c != '\r' && c != '\n'
  }

  /** `non-escaped`: the longest run of TEXTDATA. */
  function ParsePlain(s: string): (r: FieldParse)
    ensures r.Field? && |r.rest| <= |s|
  {
    if s == "" || !IsTextData(s[0]) then Field("", s)
    else
      var r := ParsePlain(s[1..]);
      Field([s[0]] + r.text, r.rest)
  }

  function ParseField(s: string): (r: FieldParse)
    ensures r.Field? ==> |r.rest| <= |s|
  {
    if s != "" && s[0] == '"' then ParseQuoted(s[1..]) else ParsePlain(s)
  }

  /** `record`: fields between commas, ended by a line break or by the end of the file. */
  function ParseRecord(s: string): (r: RecordParse)
    ensures r.Record? && s != "" ==> |r.rest| < |s|
    decreases |s|
  {
    var f := ParseField(s);
    if f.BadField? then BadRecord
    else if f.rest == "" then Record([f.text], "")
    else if f.rest[0] == ',' then
      var r := ParseRecord(f.rest[1..]);
      if r.BadRecord? then BadRecord else Record([f.text] + r.fields, r.rest)
    else if "\r\n" <= f.rest then Record([f.text], f.rest[2..])
    else BadRecord
  }

  /** `file`: records one after another; the last line break is optional. */
  function ParseFile(s: string): FileParse
    decreases |s|
  {
    if s == "" then File([])
    else
      var r := ParseRecord(s);
      if r.BadRecord? then BadFile
      else
        var rest := ParseFile(r.rest);
        if rest.BadFile? then BadFile else File([r.fields] + rest.records)
  }

  // ----- The parser inverts the printer -----

  /** What can follow a printed field. */
  predicate EndsField(rest: string) {
    rest == "" || rest[0] == ',' || rest[0] == '\r'
  }

  function Prefixed(c: char, r: FieldParse): FieldParse {
    if r.BadField? then BadField else Field([c] + r.text, r.rest)
  }

  lemma QuotedStep(s: string, c: char, tail: string)
    requires s == (if c == '"' then ['"', '"'] else [c]) + tail
    ensures ParseQuoted(s) == Prefixed(c, ParseQuoted(tail))
  {
  }

  /** `closing` is the closing quote and what follows the field. */
  lemma {:induction false} ParseQuotedInverts(text: string, closing: string)
    requires closing != "" && closing[0] == '"' && EndsField(closing[1..])
    ensures ParseQuoted(DoubleQuotes(text) + closing) == Field(text, closing[1..])
  {
    var s := DoubleQuotes(text) + closing;
    if text == "" {
      assert s == closing;
    } else {
      var tail := DoubleQuotes(text[1..]) + closing;
      assert s == (if text[0] == '"' then ['"', '"'] else [text[0]]) + tail;
      QuotedStep(s, text[0], tail);
      ParseQuotedInverts(text[1..], closing);
      assert text == [text[0]] + text[1..];
    }
  }

  lemma {:induction false} ParsePlainInverts(text: string, rest: string)
    requires !NeedsQuotes(text) && EndsField(rest)
    ensures ParsePlain(text + rest) == Field(text, rest)
  {
    if text == "" {
      assert text + rest == rest;
    } else {
      assert text[0] in text;
      assert (text + rest)[1..] == text[1..] + rest;
      ParsePlainInverts(text[1..], rest);
      assert text == [text[0]] + text[1..];
    }
  }

  lemma QuotedForm(body: string, rest: string)
    ensures var s := "\"" + body + "\"" + rest; s[0] == '"' && s[1..] == body + (['"'] + rest)
  {
  }

  lemma ParseFieldInverts(text: string, rest: string)
    requires EndsField(rest)
    ensures ParseField(PrintField(text) + rest) == Field(text, rest)
  {
    if NeedsQuotes(text) {
      QuotedForm(DoubleQuotes(text), rest);
      var closing := ['"'] + rest;
      assert closing[1..] == rest;
      ParseQuotedInverts(text, closing);
    } else {
      ParsePlainInverts(text, rest);
      if text != "" {
        assert (text + rest)[0] == text[0] && text[0] in text;
      } else {
        assert text + rest == rest;
      }
    }
  }

  lemma {:induction false} ParseRecordInverts(row: Row, rest: string)
    requires row != []
    ensures ParseRecord(PrintRow(row) + "\r\n" + rest) == Record(row, rest)
  {
    var s := PrintRow(row) + "\r\n" + rest;
    if |row| == 1 {
      ParseFieldInverts(row[0], "\r\n" + rest);
      assert s == PrintField(row[0]) + ("\r\n" + rest);
    } else {
      assert PrintFields(row)[1..] == PrintFields(row[1..]);
      var tail := PrintRow(row[1..]) + "\r\n" + rest;
      assert s == PrintField(row[0]) + ("," + tail);
      ParseFieldInverts(row[0], "," + tail);
      assert ("," + tail)[1..] == tail;
      ParseRecordInverts(row[1..], rest);
      assert row == [row[0]] + row[1..];
    }
  }

  /** The printed file is its lines, each one ended by a line break. */
  lemma JoinedLines(rows: seq<Row>)
    requires rows != []
    ensures Join(PrintRows(rows), "\r\n") + "\r\n" ==
            PrintRow(rows[0]) + "\r\n"
            + if |rows| == 1 then "" else Join(PrintRows(rows[1..]), "\r\n") + "\r\n"
  {
    if |rows| > 1 {
      assert PrintRows(rows)[1..] == PrintRows(rows[1..]);
    }
  }

  /** A row with no fields prints like a row with one empty field, and is read back as that. */
  function AsRead(row: Row): Row {
    if row == [] then [""] else row
  }

  function AllAsRead(rows: seq<Row>): seq<Row> {
    seq(|rows|, i requires 0 <= i < |rows| => AsRead(rows[i]))
  }

  lemma ReadsFirstRow(row: Row, rest: string)
    ensures PrintRow(row) + "\r\n" + rest != ""
    ensures ParseRecord(PrintRow(row) + "\r\n" + rest) == Record(AsRead(row), rest)
  {
    assert PrintRow([]) == PrintRow([""]);
    ParseRecordInverts(AsRead(row), rest);
  }

  lemma {:induction false} ParseFileInverts(rows: seq<Row>)
    requires rows != []
    ensures ParseFile(Join(PrintRows(rows), "\r\n") + "\r\n") == File(AllAsRead(rows))
  {
    JoinedLines(rows);
    var rest := if |rows| == 1 then "" else Join(PrintRows(rows[1..]), "\r\n") + "\r\n";
    ReadsFirstRow(rows[0], rest);
    if |rows| > 1 {
      ParseFileInverts(rows[1..]);
    }
    assert AllAsRead(rows) == [AsRead(rows[0])] + AllAsRead(rows[1..]);
  }

  /**
    Reading an export back gives exactly its header and rows, whatever commas, quotes and
    line breaks the fields contain, if and only if every row has at least one field.
   */
  lemma RoundTrip(headers: Row, rows: seq<Row>)
    ensures ParseFile(ToCsv(headers, rows)) == File(AllAsRead([headers] + rows))
    ensures ParseFile(ToCsv(headers, rows)) == File([headers] + rows)
            <==> headers != [] && forall i :: 0 <= i < |rows| ==> rows[i] != []
  {
    var all := [headers] + rows;
    ParseFileInverts(all);
    assert all[0] == headers && all[1..] == rows;
    if headers == [] {
      assert AllAsRead(all)[0] != all[0];
    } else if i :| 0 <= i < |rows| && rows[i] == [] {
      assert AllAsRead(all)[i + 1] != all[i + 1];
    } else {
      assert AllAsRead(all) == all;
    }
  }

  /** A row without fields is printed, and so read back, as one with an empty field. */
  lemma EmptyRowIsReadAsField()
    ensures ToCsv(["a"], [[]]) == ToCsv(["a"], [[""]])
    ensures ParseFile(ToCsv(["a"], [[]])) == File([["a"], [""]])
  {
    assert PrintRow([]) == PrintRow([""]);
    assert PrintRows([["a"]] + [[]]) == PrintRows([["a"]] + [[""]]);
    RoundTrip(["a"], [[""]]);
    assert AllAsRead([["a"]] + [[""]]) == [["a"], [""]];
  }

  /** So two different tables never print the same file. */
  lemma Injective(headers: Row, rows: seq<Row>, headers': Row, rows': seq<Row>)
    requires headers != [] && forall i :: 0 <= i < |rows| ==> rows[i] != []
    requires headers' != [] && forall i :: 0 <= i < |rows'| ==> rows'[i] != []
    requires ToCsv(headers, rows) == ToCsv(headers', rows')
    ensures headers == headers' && rows == rows'
  {
    RoundTrip(headers, rows);
    RoundTrip(headers', rows');
    assert ([headers] + rows)[0] == headers && ([headers] + rows)[1..] == rows;
    assert ([headers'] + rows')[0] == headers' && ([headers'] + rows')[1..] == rows';
  }
}
