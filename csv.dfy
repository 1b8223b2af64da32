/** The text Go's `encoding/csv` Writer produces with its defaults (comma
    separator, records ended by a single "\n", no CRLF), and a reader for
    unquoted tables as its partner. */
module Csv {
  import opened Wrappers
  import opened Text
  import Decimal

  /** The error the serialisers return when their input lists differ in length. */
  datatype CsvError = LengthsDiffer

  /** `unicode.IsSpace`: the characters with the Unicode White_Space property. */
  predicate IsSpace(c: char) {
    var u := c as int;
    (0x09 <= u <= 0x0D) || u == 0x20 || u == 0x85 || u == 0xA0 || u == 0x1680
    || (0x2000 <= u <= 0x200A) || u == 0x2028 || u == 0x2029 || u == 0x202F
    || u == 0x205F || u == 0x3000
  }

  /** The writer's test for a field that must be quoted: it holds a comma,
      a quote, a carriage return or a newline, is exactly `\.`, or starts
      with a space character.  The empty field is written as is. */
  predicate NeedsQuotes(field: string) {
    field != "" &&
    (field == "\\." || ',' in field || '"' in field || '\r' in field || '\n' in field
     || IsSpace(field[0]))
  }

  /** Doubles every quote character. */
  function EscapeQuotes(field: string): string {
    if field == "" then ""
    else (if field[0] == '"' then "\"\"" else [field[0]]) + EscapeQuotes(field[1..])
  }

  /** A field as the writer emits it. */
  function EncodeField(field: string): string {
    if NeedsQuotes(field) then "\"" + EscapeQuotes(field) + "\"" else field
  }

  function EncodeFields(fields: seq<string>): (r: seq<string>)
    ensures |r| == |fields|
    ensures forall k :: 0 <= k < |fields| ==> r[k] == EncodeField(fields[k])
  {
    if fields == [] then [] else [EncodeField(fields[0])] + EncodeFields(fields[1..])
  }

  /** One `Writer.Write(fields)`: the encoded fields joined by commas, then "\n". */
  function Record(fields: seq<string>): string {
    Join(EncodeFields(fields), ",") + "\n"
  }

  /** The records written one after another, in order. */
  function Records(rows: seq<seq<string>>): string {
    if rows == [] then "" else Records(rows[..|rows| - 1]) + Record(rows[|rows| - 1])
  }

  /** A header record followed by the data records. */
  function Table(header: seq<string>, rows: seq<seq<string>>): string {
    Record(header) + Records(rows)
  }

  /** A field the writer leaves unquoted. */
  predicate Plain(field: string) {
    !NeedsQuotes(field)
  }

  /** Writing one more record appends its text. */
  lemma RecordsSnoc(rows: seq<seq<string>>, row: seq<string>)
    ensures Records(rows + [row]) == Records(rows) + Record(row)
  {
    assert (rows + [row])[..|rows|] == rows;
  }

  /** The text of the first `i + 1` records extends that of the first `i`. */
  lemma RecordsPrefix(rows: seq<seq<string>>, i: nat)
    requires i < |rows|
    ensures Records(rows[..i + 1]) == Records(rows[..i]) + Record(rows[i])
  {
    assert rows[..i + 1] == rows[..i] + [rows[i]];
    RecordsSnoc(rows[..i], rows[i]);
  }

  /** `Records` read from the front. */
  lemma {:induction false} RecordsCons(row: seq<string>, rows: seq<seq<string>>)
    ensures Records([row] + rows) == Record(row) + Records(rows)
    decreases |rows|
  {
    if rows != [] {
      var init := rows[..|rows| - 1];
      RecordsCons(row, init);
      assert ([row] + rows)[..|rows|] == [row] + init;
    }
  }

  /** Every decimal integer is written unquoted. */
  lemma ItoaPlain(n: int)
    ensures Plain(Decimal.Itoa(n))
  {
    var s := Decimal.Itoa(n);
    Decimal.ItoaShape(n);
    forall c | c in s ensures c != ',' && c != '"' && c != '\r' && c != '\n' {
      var i :| 0 <= i < |s| && s[i] == c;
      if i > 0 { assert Decimal.IsDigit(s[i]); }
    }
    assert s != "\\." by { if |s| == 2 { assert Decimal.IsDigit(s[1]); } }
  }

  /** A record read back: the text before each "\n", split at each comma.
      This is the inverse of the writer on tables of unquoted fields. */
  function ParseRecords(text: string): seq<seq<string>>
    decreases |text|
  {
    match IndexOf(text, "\n")
    case None => if text == "" then [] else [Split(text, ",")]
    case Some(i) => [Split(text[..i], ",")] + ParseRecords(text[i + 1..])
  }

  /** The rows a writer may emit unquoted: every record non-empty, every field plain. */
  predicate PlainRows(rows: seq<seq<string>>) {
    forall r :: 0 <= r < |rows| ==> |rows[r]| > 0 && forall k :: 0 <= k < |rows[r]| ==> Plain(rows[r][k])
  }

  lemma PlainFieldsEncodeToThemselves(fields: seq<string>)
    requires forall k :: 0 <= k < |fields| ==> Plain(fields[k])
    ensures EncodeFields(fields) == fields
  {
  }

  /** A record of plain fields reads back as the same fields. */
  lemma ParseRecord(fields: seq<string>, rest: string)
    requires |fields| > 0 && forall k :: 0 <= k < |fields| ==> Plain(fields[k])
    ensures ParseRecords(Record(fields) + rest) == [fields] + ParseRecords(rest)
  {
    PlainFieldsEncodeToThemselves(fields);
    var line := Join(fields, ",");
    forall k | 0 <= k < |fields| ensures ',' !in fields[k] && '\n' !in fields[k] {
    }
    JoinNoNewline(fields);
    var text := line + "\n" + rest;
    assert Record(fields) + rest == text;
    forall j | 0 <= j < |line| ensures !OccursAt(text, "\n", j) {
      assert text[j] == line[j];
      assert text[j..j + 1] == [text[j]];
    }
    assert OccursAt(text, "\n", |line|) by { assert text[|line|..|line| + 1] == "\n"; }
    assert IndexOf(text, "\n") == Some(|line|);
    assert text[..|line|] == line;
    assert text[|line| + 1..] == rest;
    SplitJoin(fields, ',');
  }

  /** Joining fields free of newlines gives a line free of newlines. */
  lemma {:induction false} JoinNoNewline(fields: seq<string>)
    requires forall k :: 0 <= k < |fields| ==> '\n' !in fields[k]
    ensures '\n' !in Join(fields, ",")
    decreases |fields|
  {
    if |fields| > 1 {
      JoinNoNewline(fields[1..]);
    }
  }

  /** Reading back what the writer wrote gives the rows that were written. */
  lemma {:induction false} ParseRecordsRoundTrip(rows: seq<seq<string>>)
    requires PlainRows(rows)
    ensures ParseRecords(Records(rows)) == rows
    decreases |rows|
  {
    if rows != [] {
      RecordsCons(rows[0], rows[1..]);
      assert [rows[0]] + rows[1..] == rows;
      ParseRecord(rows[0], Records(rows[1..]));
      ParseRecordsRoundTrip(rows[1..]);
    }
  }

  /** A table reads back as its header followed by its rows. */
  lemma TableRoundTrip(header: seq<string>, rows: seq<seq<string>>)
    requires PlainRows([header] + rows)
    ensures ParseRecords(Table(header, rows)) == [header] + rows
  {
    assert ([header] + rows)[0] == header;
    assert PlainRows(rows) by {
      forall r | 0 <= r < |rows| ensures |rows[r]| > 0 && forall k :: 0 <= k < |rows[r]| ==> Plain(rows[r][k]) {
        assert rows[r] == ([header] + rows)[r + 1];
      }
    }
    ParseRecord(header, Records(rows));
    ParseRecordsRoundTrip(rows);
  }
}
