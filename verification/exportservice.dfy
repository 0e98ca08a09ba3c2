/**
 * The spreadsheet export of the report screen: one header line of twelve labels,
 * then one line per listed resident whose twelve cells are each wrapped in double
 * quotes with inner quotes doubled, lines joined by a line feed and the whole text
 * prefixed with a byte-order mark so that spreadsheet programs read it as UTF-8.
 *
 * The partner of the writer is a reader of the same dialect (comma-separated fields,
 * line-feed-separated records, double-quoted fields with doubled inner quotes, as in
 * RFC 4180 with LF in place of CRLF): reading the exported text gives back the header
 * labels followed by exactly the cells of every resident, in order.
 */
module ExportService {
  import opened Wrappers
  import opened Json
  import Text
  import Seqs

  const Headers: seq<string> := [
    "Nome", "Parentesco", "CPF", "RG", "Nascimento", "Status Civil",
    "Bairro", "Cidade", "Estudando", "Escola", "Serie", "Motivo Nao Estuda"
  ]

  const BOM: char := '\U{FEFF}'
  const YES := "Sim"
  const NO := "Não"

  /** `o || ''` printed: "" when `o` is falsy, and the text itself when it is a non-empty string. */
  predicate PrintsOr(o: Option<Value>, cell: string) {
    && (!Present(o) ==> cell == "")
    && (Present(o) && o.value.Str? ==> cell == o.value.s)
  }

  /**
   * The twelve cells of one resident. Name, relationship, CPF, RG and birth date are
   * printed as they are (an absent one prints "undefined"); the other text cells fall
   * back to "" when falsy; "Estudando" is "Sim" exactly when `education.isStudying`
   * is truthy.
   */
  function Cells(p: Record): (cells: seq<string>)
    ensures |cells| == |Headers|
    ensures cells[0] == ShowOpt(Field(p, "name")) && cells[1] == ShowOpt(Field(p, "relationship"))
    ensures cells[2] == ShowOpt(Field(p, "cpf")) && cells[3] == ShowOpt(Field(p, "rg"))
    ensures cells[4] == ShowOpt(Field(p, "birthDate"))
    ensures p.Keys == {} ==> cells[..5] == ["undefined", "undefined", "undefined", "undefined", "undefined"]
    ensures PrintsOr(Field(p, "civilStatus"), cells[5])
    ensures PrintsOr(Field(p, "neighborhood"), cells[6])
    ensures PrintsOr(Field(p, "city"), cells[7])
    ensures cells[8] == YES <==> Present(Chain(Field(p, "education"), "isStudying"))
    ensures cells[8] == YES || cells[8] == NO
    ensures PrintsOr(Chain(Field(p, "education"), "schoolName"), cells[9])
    ensures PrintsOr(Chain(Field(p, "education"), "grade"), cells[10])
    ensures PrintsOr(Chain(Field(p, "education"), "reasonNotStudying"), cells[11])
    ensures !Present(Field(p, "education")) ==> cells[8] == NO && cells[9] == "" && cells[10] == "" && cells[11] == ""
  {
    var education := Field(p, "education");
    [
      ShowOpt(Field(p, "name")),
      ShowOpt(Field(p, "relationship")),
      ShowOpt(Field(p, "cpf")),
      ShowOpt(Field(p, "rg")),
      ShowOpt(Field(p, "birthDate")),
      ShowOr(Field(p, "civilStatus"), ""),
      ShowOr(Field(p, "neighborhood"), ""),
      ShowOr(Field(p, "city"), ""),
      if Present(Chain(education, "isStudying")) then YES else NO,
      ShowOr(Chain(education, "schoolName"), ""),
      ShowOr(Chain(education, "grade"), ""),
      ShowOr(Chain(education, "reasonNotStudying"), "")
    ]
  }

  /** `s.replace(/"/g, '""')` */
  function Escape(s: string): string
  {
    if s == [] then []
    else (if s[0] == '"' then "\"\"" else [s[0]]) + Escape(s[1..])
  }

  /** A cell as written: quoted, with every inner quote doubled. */
  function Quote(s: string): (q: string)
    ensures |q| >= 2 && q[0] == '"' && q[|q| - 1] == '"'
  {
    "\"" + Escape(s) + "\""
  }

  function QuoteAll(cells: seq<string>): (qs: seq<string>)
    ensures |qs| == |cells|
    ensures forall i :: 0 <= i < |cells| ==> qs[i] == Quote(cells[i])
  {
    if cells == [] then [] else [Quote(cells[0])] + QuoteAll(cells[1..])
  }

  /** One data line: the quoted cells joined by commas. */
  function Line(cells: seq<string>): string
  {
    Text.Join(QuoteAll(cells), ",")
  }

  /** The data lines of the given rows of cells, in order. */
  function LinesOf(rows: seq<seq<string>>): (ls: seq<string>)
    ensures |ls| == |rows|
    ensures forall i :: 0 <= i < |rows| ==> ls[i] == Line(rows[i])
  {
    if rows == [] then [] else [Line(rows[0])] + LinesOf(rows[1..])
  }

  /** The cells of every resident, in the order listed. */
  function Rows(data: seq<Record>): (rows: seq<seq<string>>)
    ensures |rows| == |data|
    ensures forall i :: 0 <= i < |data| ==> rows[i] == Cells(data[i])
  {
    seq(|data|, i requires 0 <= i < |data| => Cells(data[i]))
  }

  /** The CSV text: the header line, then one line per resident, joined by line feeds. */
  function Content(data: seq<Record>): string
  {
    Text.Join([Text.Join(Headers, ",")] + LinesOf(Rows(data)), "\n")
  }

  /** The text placed in the downloaded file. */
  function CsvFile(data: seq<Record>): (f: string)
    ensures |f| >= 1 && f[0] == BOM && f[1..] == Content(data)
  {
    [BOM] + Content(data)
  }

  /** The rows a reader of the export recovers: the header labels, then each resident's cells. */
  function Table(data: seq<Record>): (t: seq<seq<string>>)
    ensures |t| == |data| + 1 && t[0] == Headers
    ensures forall i :: 0 <= i < |data| ==> t[i + 1] == Cells(data[i])
    ensures forall i :: 0 <= i < |t| ==> |t[i]| == |Headers|
  {
    var rows := Rows(data);
    assert forall i :: 0 <= i < |rows| ==> |rows[i]| == |Headers|;
    [Headers] + rows
  }

  // ---------------------------------------------------------------------------
  // The reader.
  // ---------------------------------------------------------------------------

  predicate Ends(c: char) {
    c == ',' || c == '\n'
  }

  /** `rest` may follow a field: nothing, or a separator. */
  predicate FieldBoundary(rest: string) {
    rest == [] || Ends(rest[0])
  }

  /** `rest` may follow a record: nothing, or a line feed. */
  predicate RecordBoundary(rest: string) {
    rest == [] || rest[0] == '\n'
  }

  /** Text that may stand unquoted in a field. */
  predicate Plain(s: string) {
    forall i :: 0 <= i < |s| ==> !Ends(s[i]) && s[i] != '"'
  }

  /** The length of the unquoted field at the start of `s`: up to the first separator. */
  function PlainLength(s: string): (n: nat)
    ensures n <= |s|
    ensures forall i :: 0 <= i < n ==> !Ends(s[i])
    ensures n < |s| ==> Ends(s[n])
  {
    if s == [] || Ends(s[0]) then 0 else 1 + PlainLength(s[1..])
  }

  /**
   * The inside of a quoted field, after its opening quote: the unescaped text and what
   * follows the closing quote. None when the closing quote is missing.
   */
  function ReadQuoted(s: string): (r: Option<(string, string)>)
    ensures r.Some? ==> |r.value.1| < |s|
  {
    if s == [] then None
    else if s[0] == '"' then
      if |s| >= 2 && s[1] == '"' then
        var (text, rest) :- ReadQuoted(s[2..]);
        Some(("\"" + text, rest))
      else
        Some(([], s[1..]))
    else
      var (text, rest) :- ReadQuoted(s[1..]);
      Some(([s[0]] + text, rest))
  }

  /** One field at the start of `s` and what follows it. */
  function ReadField(s: string): (r: Option<(string, string)>)
    ensures r.Some? ==> |r.value.1| <= |s|
  {
    if s != [] && s[0] == '"' then ReadQuoted(s[1..])
    else
      var n := PlainLength(s);
      Some((s[..n], s[n..]))
  }

  /** The comma-separated fields of one record and what follows the record. */
  function ReadRecord(s: string): (r: Option<(seq<string>, string)>)
    ensures r.Some? ==> |r.value.1| <= |s|
    decreases |s|
  {
    var (field, rest) :- ReadField(s);
    if rest != [] && rest[0] == ',' then
      var (fields, rest') :- ReadRecord(rest[1..]);
      Some(([field] + fields, rest'))
    else
      Some(([field], rest))
  }

  /** The records of a text, separated by line feeds. None on a malformed quoted field. */
  function ReadDocument(s: string): Option<seq<seq<string>>>
    decreases |s|
  {
    var (record, rest) :- ReadRecord(s);
    if rest == [] then Some([record])
    else if rest[0] == '\n' then
      var records :- ReadDocument(rest[1..]);
      Some([record] + records)
    else None
  }

  /** A CSV file: an optional byte-order mark, then the records. */
  function ReadCsv(f: string): Option<seq<seq<string>>>
  {
    if f != [] && f[0] == BOM then ReadDocument(f[1..]) else ReadDocument(f)
  }

  // ---------------------------------------------------------------------------
  // Reading back what was written.
  // ---------------------------------------------------------------------------

  /** The quoted text of a cell, its closing quote and anything not starting with a quote reads back as the cell. */
  lemma {:induction false} ReadEscaped(c: string, rest: string)
    requires rest == [] || rest[0] != '"'
    ensures ReadQuoted(Escape(c) + "\"" + rest) == Some((c, rest))
  {
    var s := Escape(c) + "\"" + rest;
    if c == [] {
      assert s == "\"" + rest;
      assert s[1..] == rest;
    } else {
      ReadEscaped(c[1..], rest);
      var tail := Escape(c[1..]) + "\"" + rest;
      if c[0] == '"' {
        assert s == "\"\"" + tail;
        assert s[2..] == tail;
        assert "\"" + c[1..] == c;
      } else {
        assert s == [c[0]] + tail;
        assert s[1..] == tail;
        assert [c[0]] + c[1..] == c;
      }
    }
  }

  /** A quoted cell followed by a separator or the end reads back as the cell. */
  lemma QuotedField(c: string, rest: string)
    requires FieldBoundary(rest)
    ensures ReadField(Quote(c) + rest) == Some((c, rest))
  {
    var s := Quote(c) + rest;
    assert s[1..] == Escape(c) + "\"" + rest;
    ReadEscaped(c, rest);
  }

  /** An unquoted word stops exactly at the separator that follows it. */
  lemma {:induction false} PlainLengthOfWord(word: string, rest: string)
    requires Plain(word) && FieldBoundary(rest)
    ensures PlainLength(word + rest) == |word|
  {
    if word == [] {
      assert word + rest == rest;
    } else {
      assert (word + rest)[0] == word[0];
      assert (word + rest)[1..] == word[1..] + rest;
      PlainLengthOfWord(word[1..], rest);
    }
  }

  /** An unquoted word followed by a separator or the end reads back as the word. */
  lemma PlainField(word: string, rest: string)
    requires Plain(word) && FieldBoundary(rest)
    ensures ReadField(word + rest) == Some((word, rest))
  {
    var s := word + rest;
    PlainLengthOfWord(word, rest);
    assert s[..|word|] == word && s[|word|..] == rest;
  }

  /** `Join([a] + more, sep) + rest` splits after `a`. */
  lemma JoinFirst(a: string, more: seq<string>, sep: string, rest: string)
    requires more != []
    ensures Text.Join([a] + more, sep) + rest == a + (sep + (Text.Join(more, sep) + rest))
  {
    assert ([a] + more)[1..] == more;
  }

  /** Fields, each of which reads back as itself, joined by commas, read back as the fields. */
  lemma {:induction false} QuotedRecord(cells: seq<string>, rest: string)
    requires cells != [] && RecordBoundary(rest)
    ensures ReadRecord(Line(cells) + rest) == Some((cells, rest))
  {
    var qs := QuoteAll(cells);
    if |cells| == 1 {
      assert qs == [Quote(cells[0])];
      assert Line(cells) == Quote(cells[0]);
      QuotedField(cells[0], rest);
      assert cells == [cells[0]];
    } else {
      var tail := Line(cells[1..]) + rest;
      assert qs == [Quote(cells[0])] + QuoteAll(cells[1..]);
      JoinFirst(Quote(cells[0]), QuoteAll(cells[1..]), ",", rest);
      assert Line(cells) + rest == Quote(cells[0]) + ("," + tail);
      QuotedField(cells[0], "," + tail);
      assert ("," + tail)[1..] == tail;
      QuotedRecord(cells[1..], rest);
      assert [cells[0]] + cells[1..] == cells;
    }
  }

  /** Unquoted labels joined by commas read back as the labels. */
  lemma {:induction false} PlainRecord(labels: seq<string>, rest: string)
    requires labels != [] && RecordBoundary(rest)
    requires forall i :: 0 <= i < |labels| ==> Plain(labels[i])
    ensures ReadRecord(Text.Join(labels, ",") + rest) == Some((labels, rest))
  {
    if |labels| == 1 {
      PlainField(labels[0], rest);
      assert labels == [labels[0]];
    } else {
      var tail := Text.Join(labels[1..], ",") + rest;
      JoinFirst(labels[0], labels[1..], ",", rest);
      assert [labels[0]] + labels[1..] == labels;
      PlainField(labels[0], "," + tail);
      assert ("," + tail)[1..] == tail;
      PlainRecord(labels[1..], rest);
    }
  }

  /** Data lines joined by line feeds read back as their rows of cells. */
  lemma {:induction false} ReadLines(rows: seq<seq<string>>)
    requires rows != []
    requires forall i :: 0 <= i < |rows| ==> rows[i] != []
    ensures ReadDocument(Text.Join(LinesOf(rows), "\n")) == Some(rows)
  {
    var first := Line(rows[0]);
    var ls := LinesOf(rows);
    if |rows| == 1 {
      assert Text.Join(ls, "\n") == first + [];
      QuotedRecord(rows[0], []);
      assert rows == [rows[0]];
    } else {
      var tail := Text.Join(LinesOf(rows[1..]), "\n");
      assert ls == [first] + LinesOf(rows[1..]);
      JoinFirst(first, LinesOf(rows[1..]), "\n", []);
      assert Text.Join(ls, "\n") == first + ("\n" + tail);
      QuotedRecord(rows[0], "\n" + tail);
      assert ("\n" + tail)[1..] == tail;
      ReadLines(rows[1..]);
      assert rows == [rows[0]] + rows[1..];
    }
  }

  lemma HeadersPlain()
    ensures forall i :: 0 <= i < |Headers| ==> Plain(Headers[i])
  {
  }

  /** A line of unquoted labels followed by a line feed and more text reads as the labels, then the rest. */
  lemma ReadHeaderThen(labels: seq<string>, tail: string, records: seq<seq<string>>)
    requires labels != []
    requires forall i :: 0 <= i < |labels| ==> Plain(labels[i])
    requires ReadDocument(tail) == Some(records)
    ensures ReadDocument(Text.Join(labels, ",") + ("\n" + tail)) == Some([labels] + records)
  {
    PlainRecord(labels, "\n" + tail);
    assert ("\n" + tail)[1..] == tail;
  }

  /** A line of unquoted labels alone reads as the labels. */
  lemma ReadHeaderOnly(labels: seq<string>)
    requires labels != []
    requires forall i :: 0 <= i < |labels| ==> Plain(labels[i])
    ensures ReadDocument(Text.Join(labels, ",")) == Some([labels])
  {
    var header := Text.Join(labels, ",");
    assert header == header + [];
    PlainRecord(labels, []);
  }

  /** Joining one line with more lines puts a line feed after the first. */
  lemma JoinLines(first: string, more: seq<string>)
    requires more != []
    ensures Text.Join([first] + more, "\n") == first + ("\n" + Text.Join(more, "\n"))
  {
    Seqs.TailOfConcat([first], more);
  }

  /** The header line with data lines after it reads back as the labels and the rows. */
  lemma ReadTableRows(labels: seq<string>, rows: seq<seq<string>>)
    requires labels != [] && rows != []
    requires forall i :: 0 <= i < |labels| ==> Plain(labels[i])
    requires forall i :: 0 <= i < |rows| ==> rows[i] != []
    ensures ReadDocument(Text.Join([Text.Join(labels, ",")] + LinesOf(rows), "\n")) == Some([labels] + rows)
  {
    var ls := LinesOf(rows);
    JoinLines(Text.Join(labels, ","), ls);
    ReadLines(rows);
    ReadHeaderThen(labels, Text.Join(ls, "\n"), rows);
  }

  /** A line of unquoted labels and data lines, joined by line feeds, read back as the labels and the rows. */
  lemma ReadTable(labels: seq<string>, rows: seq<seq<string>>)
    requires labels != []
    requires forall i :: 0 <= i < |labels| ==> Plain(labels[i])
    requires forall i :: 0 <= i < |rows| ==> rows[i] != []
    ensures ReadDocument(Text.Join([Text.Join(labels, ",")] + LinesOf(rows), "\n")) == Some([labels] + rows)
  {
    if rows == [] {
      var header := Text.Join(labels, ",");
      Seqs.ConcatEmpty([header]);
      Seqs.ConcatEmpty([labels]);
      ReadHeaderOnly(labels);
    } else {
      ReadTableRows(labels, rows);
    }
  }

  /**
   * Round trip of the export: reading the downloaded file gives the twelve header
   * labels followed by exactly the cells of every resident, in the order listed, so
   * quotes, commas and line feeds inside a cell survive.
   */
  lemma ExportRoundTrip(data: seq<Record>)
    ensures ReadCsv(CsvFile(data)) == Some(Table(data))
  {
    var rows := Rows(data);
    HeadersPlain();
    ReadTable(Headers, rows);
    var f := CsvFile(data);
    assert ReadCsv(f) == ReadDocument(Content(data));
  }

  /** The export has one record per resident after the header, each with twelve cells. */
  lemma ExportShape(data: seq<Record>)
    ensures var t := ReadCsv(CsvFile(data));
      t.Some? && |t.value| == |data| + 1 &&
      forall i :: 0 <= i < |t.value| ==> |t.value[i]| == |Headers|
  {
    ExportRoundTrip(data);
    var t := Table(data);
    assert forall i :: 0 <= i < |t| ==> |t[i]| == |Headers|;
  }
}
