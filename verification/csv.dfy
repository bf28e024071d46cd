/**
 * Comma-separated values as the client writes them: a field that needs
 * quoting is wrapped in `"` with every embedded `"` doubled (section 2 of
 * RFC 4180), fields are separated by `,` and records by `\n` (RFC 4180 uses
 * CRLF). A reader for that format is given so that the export can be shown
 * to round-trip.
 */
module Csv {
  import opened Wrappers
  import Strings
  import Seqs

  /** `v.replace(/"/g, '""')`: every `"` doubled. */
  function Escape(v: string): (r: string)
    ensures |r| >= |v|
    ensures '"' !in v ==> r == v
  {
    if v == [] then []
    else (if v[0] == '"' then "\"\"" else [v[0]]) + Escape(v[1..])
  }

  /** A quoted field: `"` + escaped value + `"`. */
  function Quote(v: string): (r: string)
    ensures |r| >= 2 && r[0] == '"' && r[|r| - 1] == '"'
  {
    "\"" + Escape(v) + "\""
  }

  /** How one field of a record is written. */
  datatype Cell = Quoted(v: string) | Plain(v: string)

  /** A value that can stand unquoted: no separator, record break or quote in it. */
  predicate PlainSafe(v: string) {
    ',' !in v && '\n' !in v && '"' !in v
  }

  predicate WellFormedCell(c: Cell) {
    c.Quoted? || PlainSafe(c.v)
  }

  function RenderCell(c: Cell): string {
    match c
    case Quoted(v) => Quote(v)
    case Plain(v) => v
  }

  function CellValue(c: Cell): string {
    c.v
  }

  /** The values a record holds. */
  function RowValues(row: seq<Cell>): seq<string> {
    Seqs.Map(row, CellValue)
  }

  /** One record: the rendered fields joined by `,`. */
  function RenderRow(cells: seq<Cell>): string {
    Strings.Join(Seqs.Map(cells, RenderCell), ",")
  }

  /** A whole file: the rendered records joined by `\n`. */
  function RenderFile(rows: seq<seq<Cell>>): string {
    Strings.Join(Seqs.Map(rows, RenderRow), "\n")
  }

  predicate WellFormedRow(row: seq<Cell>) {
    && row != []
    && (forall i :: 0 <= i < |row| ==> WellFormedCell(row[i]))
    && RenderRow(row) != ""
  }

  // ---------------------------------------------------------------------------
  // Reading

  /** The rest of a quoted field after its opening `"`: its value and what follows the closing `"`. */
  function ParseQuotedBody(s: string): (r: Option<(string, string)>)
    ensures r.Some? ==> |r.value.1| < |s|
  {
    if s == [] then None
    else if s[0] == '"' then
      if |s| > 1 && s[1] == '"' then
        match ParseQuotedBody(s[2..])
        case None => None
        case Some((v, rest)) => Some(("\"" + v, rest))
      else Some(("", s[1..]))
    else
      match ParseQuotedBody(s[1..])
      case None => None
      case Some((v, rest)) => Some(([s[0]] + v, rest))
  }

  /** An unquoted field: everything up to the next `,` or `\n`. */
  function ParsePlain(s: string): (r: (string, string))
    ensures |r.1| <= |s|
    ensures r.0 + r.1 == s
  {
    if s == [] || s[0] == ',' || s[0] == '\n' then ("", s)
    else
      var (v, rest) := ParsePlain(s[1..]);
      assert [s[0]] + v + rest == [s[0]] + (v + rest) == s;
      ([s[0]] + v, rest)
  }

  function ParseField(s: string): (r: Option<(string, string)>)
    ensures r.Some? ==> |r.value.1| <= |s|
    ensures r.Some? && r.value.1 == s ==> s == [] || s[0] == ',' || s[0] == '\n'
  {
    if s != [] && s[0] == '"' then ParseQuotedBody(s[1..]) else Some(ParsePlain(s))
  }

  /** One record and the text after its terminating `\n` (or the empty rest at the end of the input). */
  function ParseRecord(s: string): (r: Option<(seq<string>, string)>)
    ensures r.Some? ==> |r.value.1| <= |s| && (s != [] ==> |r.value.1| < |s|)
    decreases |s|
  {
    match ParseField(s)
    case None => None
    case Some((v, rest)) =>
      if rest == [] then Some(([v], []))
      else if rest[0] == '\n' then Some(([v], rest[1..]))
      else if rest[0] == ',' then
        match ParseRecord(rest[1..])
        case None => None
        case Some((vs, tail)) => Some(([v] + vs, tail))
      else None
  }

  /** All records of a file. */
  function ParseFile(s: string): Option<seq<seq<string>>>
    decreases |s|
  {
    if s == [] then Some([])
    else
      match ParseRecord(s)
      case None => None
      case Some((vs, tail)) =>
        match ParseFile(tail)
        case None => None
        case Some(more) => Some([vs] + more)
  }

  // ---------------------------------------------------------------------------
  // Round trip

  lemma {:induction false} QuotedBodyRoundTrip(v: string, rest: string)
    requires rest == [] || rest[0] != '"'
    ensures ParseQuotedBody(Escape(v) + "\"" + rest) == Some((v, rest))
  {
    if v != [] {
      QuotedBodyRoundTrip(v[1..], rest);
      var head := if v[0] == '"' then "\"\"" else [v[0]];
      var tail := Escape(v[1..]) + "\"";
      assert Escape(v) == head + Escape(v[1..]);
      Seqs.AppendAssoc(head, Escape(v[1..]), "\"");
      Seqs.AppendAssoc(head, tail, rest);
      assert (head + (tail + rest))[|head|..] == tail + rest;
      assert v == [v[0]] + v[1..];
    }
  }

  lemma {:induction false} PlainRoundTrip(v: string, rest: string)
    requires PlainSafe(v)
    requires rest == [] || rest[0] == ',' || rest[0] == '\n'
    ensures ParsePlain(v + rest) == (v, rest)
  {
    if v != [] {
      assert (v + rest)[1..] == v[1..] + rest;
      PlainRoundTrip(v[1..], rest);
      assert v == [v[0]] + v[1..];
    } else {
      assert v + rest == rest;
    }
  }

  lemma FieldRoundTrip(c: Cell, rest: string)
    requires WellFormedCell(c)
    requires rest == [] || rest[0] == ',' || rest[0] == '\n'
    ensures ParseField(RenderCell(c) + rest) == Some((c.v, rest))
  {
    match c
    case Quoted(v) =>
      var s := RenderCell(c) + rest;
      assert s == "\"" + (Escape(v) + "\"" + rest);
      assert s[1..] == Escape(v) + "\"" + rest;
      QuotedBodyRoundTrip(v, rest);
    case Plain(v) =>
      PlainRoundTrip(v, rest);
      if v != [] {
        assert (v + rest)[0] == v[0];
      } else {
        assert v + rest == rest;
      }
  }

  lemma JoinCons(a: string, more: seq<string>, sep: string)
    requires more != []
    ensures Strings.Join([a] + more, sep) == a + sep + Strings.Join(more, sep)
  {
    assert ([a] + more)[1..] == more;
  }

  /** A record of several cells is its first cell, a `,` and the record of the others. */
  lemma RowCons(cells: seq<Cell>)
    requires |cells| > 1
    ensures RenderRow(cells) == RenderCell(cells[0]) + "," + RenderRow(cells[1..])
    ensures RowValues(cells) == [cells[0].v] + RowValues(cells[1..])
  {
    Seqs.MapHead(cells, RenderCell);
    Seqs.MapHead(cells, CellValue);
    JoinCons(RenderCell(cells[0]), Seqs.Map(cells[1..], RenderCell), ",");
  }

  /** A written cell and a `,` in front of a readable record read as one more value. */
  lemma RecordStep(first: Cell, tail: string, vs: seq<string>, after: string)
    requires WellFormedCell(first)
    requires ParseRecord(tail) == Some((vs, after))
    ensures ParseRecord(RenderCell(first) + "," + tail) == Some(([first.v] + vs, after))
  {
    FieldRoundTrip(first, "," + tail);
    Seqs.AppendAssoc(RenderCell(first), ",", tail);
    assert ("," + tail)[1..] == tail;
  }

  /** What a reader leaves after a record: nothing at the end of the input, else the text after the `\n`. */
  function AfterBreak(suffix: string): string {
    if suffix == [] then [] else suffix[1..]
  }

  /** A record of one cell, followed by nothing or by `\n`, reads back as its value. */
  lemma RecordSingle(c: Cell, suffix: string)
    requires WellFormedCell(c)
    requires suffix == [] || suffix[0] == '\n'
    ensures ParseRecord(RenderRow([c]) + suffix) == Some((RowValues([c]), AfterBreak(suffix)))
  {
    assert RenderRow([c]) == RenderCell(c);
    FieldRoundTrip(c, suffix);
    assert RowValues([c]) == [c.v];
  }

  /** The step of the record round trip: one more cell in front of a record that reads back. */
  lemma RecordMore(cells: seq<Cell>, suffix: string)
    requires |cells| > 1 && WellFormedCell(cells[0])
    requires ParseRecord(RenderRow(cells[1..]) + suffix) == Some((RowValues(cells[1..]), AfterBreak(suffix)))
    ensures ParseRecord(RenderRow(cells) + suffix) == Some((RowValues(cells), AfterBreak(suffix)))
  {
    var more := cells[1..];
    RowCons(cells);
    RecordStep(cells[0], RenderRow(more) + suffix, RowValues(more), AfterBreak(suffix));
    Seqs.AppendAssoc(RenderCell(cells[0]) + ",", RenderRow(more), suffix);
  }

  /** A record followed by nothing or by `\n` reads back as the values of its cells. */
  lemma {:induction false} RecordRoundTrip(cells: seq<Cell>, suffix: string)
    requires cells != [] && forall i :: 0 <= i < |cells| ==> WellFormedCell(cells[i])
    requires suffix == [] || suffix[0] == '\n'
    ensures ParseRecord(RenderRow(cells) + suffix) == Some((RowValues(cells), AfterBreak(suffix)))
  {
    if |cells| == 1 {
      assert cells == [cells[0]];
      RecordSingle(cells[0], suffix);
    } else {
      RecordRoundTrip(cells[1..], suffix);
      RecordMore(cells, suffix);
    }
  }

  /** A file of several records is its first record, a `\n` and the file of the others. */
  lemma FileCons(rows: seq<seq<Cell>>)
    requires |rows| > 1
    ensures RenderFile(rows) == RenderRow(rows[0]) + "\n" + RenderFile(rows[1..])
  {
    Seqs.MapHead(rows, RenderRow);
    JoinCons(RenderRow(rows[0]), Seqs.Map(rows[1..], RenderRow), "\n");
  }

  /** A file whose first record is written non-empty is not empty. */
  lemma FileNotEmpty(rows: seq<seq<Cell>>)
    requires rows != [] && WellFormedRow(rows[0])
    ensures RenderFile(rows) != ""
  {
    if |rows| == 1 {
      assert RenderFile(rows) == RenderRow(rows[0]);
    } else {
      FileCons(rows);
    }
  }

  /** One step of the file reader: a record, then the records of what follows it. */
  lemma FileStep(text: string, vs: seq<string>, tail: string, more: seq<seq<string>>)
    requires text != [] && ParseRecord(text) == Some((vs, tail)) && ParseFile(tail) == Some(more)
    ensures ParseFile(text) == Some([vs] + more)
  {
  }

  /** A file of one record reads back as that record's values. */
  lemma FileSingle(rows: seq<seq<Cell>>)
    requires |rows| == 1 && WellFormedRow(rows[0])
    ensures ParseFile(RenderFile(rows)) == Some(Seqs.Map(rows, RowValues))
  {
    RecordRoundTrip(rows[0], "");
    assert RenderRow(rows[0]) + "" == RenderFile(rows);
    FileNotEmpty(rows);
    FileStep(RenderFile(rows), RowValues(rows[0]), [], []);
    Seqs.MapHead(rows, RowValues);
  }

  /** The step of the file round trip: one more record in front of a file that reads back. */
  lemma FileMore(rows: seq<seq<Cell>>)
    requires |rows| > 1 && WellFormedRow(rows[0])
    requires ParseFile(RenderFile(rows[1..])) == Some(Seqs.Map(rows[1..], RowValues))
    ensures ParseFile(RenderFile(rows)) == Some(Seqs.Map(rows, RowValues))
  {
    var more := rows[1..];
    FileCons(rows);
    RecordRoundTrip(rows[0], "\n" + RenderFile(more));
    assert AfterBreak("\n" + RenderFile(more)) == RenderFile(more);
    FileNotEmpty(rows);
    Seqs.AppendAssoc(RenderRow(rows[0]), "\n", RenderFile(more));
    FileStep(RenderFile(rows), RowValues(rows[0]), RenderFile(more), Seqs.Map(more, RowValues));
    Seqs.MapHead(rows, RowValues);
  }

  /** Reading a written file gives back exactly the values that were written, record by record. */
  lemma {:induction false} FileRoundTrip(rows: seq<seq<Cell>>)
    requires forall i :: 0 <= i < |rows| ==> WellFormedRow(rows[i])
    ensures ParseFile(RenderFile(rows)) == Some(Seqs.Map(rows, RowValues))
  {
    if rows == [] {
      assert RenderFile(rows) == "";
    } else if |rows| == 1 {
      FileSingle(rows);
    } else {
      FileRoundTrip(rows[1..]);
      FileMore(rows);
    }
  }

  // ---------------------------------------------------------------------------
  // Exported lines

  /**
   * How the pages write one field of an exported line: as it is, wrapped in quotes
   * (`"${v}"`, no escaping), or wrapped with every `"` doubled.
   */
  datatype Field = Raw(v: string) | Wrapped(v: string) | WrappedEscaped(v: string)

  function FieldText(f: Field): string {
    match f
    case Raw(v) => v
    case Wrapped(v) => "\"" + v + "\""
    case WrappedEscaped(v) => "\"" + Escape(v) + "\""
  }

  function FieldValue(f: Field): string {
    f.v
  }

  /** One exported line: the fields written and joined by `,`. */
  function Line(fields: seq<Field>): string {
    Strings.Join(Seqs.Map(fields, FieldText), ",")
  }

  /** The values of a line's fields. */
  function LineValues(fields: seq<Field>): seq<string> {
    Seqs.Map(fields, FieldValue)
  }

  // ---------------------------------------------------------------------------
  // Reading back what the pages write

  /** A field an RFC 4180 reader gets back: a raw one needs no quoting, a wrapped one holds no quote. */
  predicate Readable(f: Field) {
    match f
    case Raw(v) => PlainSafe(v)
    case Wrapped(v) => '"' !in v
    case WrappedEscaped(_) => true
  }

  function FieldCell(f: Field): Cell {
    if f.Raw? then Plain(f.v) else Quoted(f.v)
  }

  function LineCells(fields: seq<Field>): seq<Cell> {
    Seqs.Map(fields, FieldCell)
  }

  predicate ReadableLine(fields: seq<Field>) {
    |fields| >= 2 && forall i :: 0 <= i < |fields| ==> Readable(fields[i])
  }

  /** A record of at least two cells renders to a non-empty line. */
  lemma RowNotEmpty(cells: seq<Cell>)
    requires |cells| >= 2
    ensures RenderRow(cells) != ""
  {
    var parts := Seqs.Map(cells, RenderCell);
    assert Strings.Join(parts, ",") == parts[0] + "," + Strings.Join(parts[1..], ",");
  }

  /** A readable line is a well-formed record whose cells hold the fields' values. */
  lemma LineIsRow(fields: seq<Field>)
    requires ReadableLine(fields)
    ensures Line(fields) == RenderRow(LineCells(fields))
    ensures WellFormedRow(LineCells(fields))
    ensures RowValues(LineCells(fields)) == LineValues(fields)
  {
    var cells := LineCells(fields);
    forall i | 0 <= i < |fields| ensures RenderCell(cells[i]) == FieldText(fields[i]) {
      if fields[i].Wrapped? { assert Escape(fields[i].v) == fields[i].v; }
    }
    assert Seqs.Map(cells, RenderCell) == Seqs.Map(fields, FieldText);
    assert RowValues(cells) == LineValues(fields);
    RowNotEmpty(cells);
  }

  function PlainCell(v: string): Cell {
    Plain(v)
  }

  /** The header line is a record of plain cells. */
  lemma HeaderRow(headers: seq<string>)
    requires |headers| >= 2 && forall i :: 0 <= i < |headers| ==> PlainSafe(headers[i])
    ensures var head := Seqs.Map(headers, PlainCell);
      WellFormedRow(head) && RenderRow(head) == Strings.Join(headers, ",") && RowValues(head) == headers
  {
    var head := Seqs.Map(headers, PlainCell);
    assert Seqs.Map(head, RenderCell) == headers;
    assert RowValues(head) == headers;
    RowNotEmpty(head);
  }

  /** An exported file: the header line, then one line per record, joined by `\n`. */
  function Document(headers: seq<string>, lines: seq<seq<Field>>): string {
    Strings.Join([Strings.Join(headers, ",")] + Seqs.Map(lines, Line), "\n")
  }

  /**
   * A header line followed by readable lines reads back as the headers
   * followed by the values of every line, in order.
   */
  lemma {:induction false} DocumentRoundTrip(headers: seq<string>, lines: seq<seq<Field>>)
    requires |headers| >= 2 && forall i :: 0 <= i < |headers| ==> PlainSafe(headers[i])
    requires forall i :: 0 <= i < |lines| ==> ReadableLine(lines[i])
    ensures ParseFile(Document(headers, lines)) == Some([headers] + Seqs.Map(lines, LineValues))
  {
    var head := Seqs.Map(headers, PlainCell);
    HeaderRow(headers);
    var rows := Seqs.Map(lines, LineCells);
    forall i | 0 <= i < |lines|
      ensures RenderRow(rows[i]) == Line(lines[i])
      ensures WellFormedRow(rows[i])
      ensures RowValues(rows[i]) == LineValues(lines[i])
    {
      LineIsRow(lines[i]);
    }
    var all := [head] + rows;
    Seqs.MapCons(head, rows, RenderRow);
    Seqs.MapCons(head, rows, RowValues);
    assert Seqs.Map(rows, RenderRow) == Seqs.Map(lines, Line);
    assert Seqs.Map(rows, RowValues) == Seqs.Map(lines, LineValues);
    assert forall i :: 0 <= i < |all| ==> WellFormedRow(all[i]) by {
      forall i | 0 <= i < |all| ensures WellFormedRow(all[i]) {
        if i > 0 { assert all[i] == rows[i - 1]; }
      }
    }
    FileRoundTrip(all);
  }
}
