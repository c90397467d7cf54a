/**
  CSV export of the admin tables, and readers following section 2 of RFC 4180 with CRLF between records: its second rule
  leaves open whether the last record may end in a line break too.
 */
module Csv {
  import opened Prelude
  import opened Utf16

  const QUOTE: Unit := 34
  const COMMA: Unit := 44
  const CR: Unit := 13
  const LF: Unit := 10

  type Records = seq<seq<JsString>>

  predicate NeedsQuotes(value: JsString)
  {
    QUOTE in value || COMMA in value || CR in value || LF in value
  }

  /** `value.replace(/"/g, '""')`. */
  function DoubleQuotes(value: JsString): (s: JsString)
  {
    if value == [] then [] else (if value[0] == QUOTE then [QUOTE, QUOTE] else [value[0]]) + DoubleQuotes(value[1..])
  }

  /** `csvField`. */
  function CsvField(value: JsString): (s: JsString)
  {
    if NeedsQuotes(value) then [QUOTE] + DoubleQuotes(value) + [QUOTE] else value
  }

  /** `fields.map(csvField).join(',')`. */
  function Line(fields: seq<JsString>): (s: JsString)
  {
    if fields == [] then []
    else CsvField(fields[0]) + if |fields| == 1 then [] else [COMMA] + Line(fields[1..])
  }

  /** `lines.join('\r\n')`. */
  function Document(table: Records): (s: JsString)
  {
    if table == [] then []
    else Line(table[0]) + if |table| == 1 then [] else [CR, LF] + Document(table[1..])
  }

  /** A column: its header and how a row's cell is turned into text. */
  datatype Column<!Row> = Column(header: JsString, cell: Row -> JsString)

  /** The header record and one record per row. */
  function Table<Row>(rows: seq<Row>, columns: seq<Column<Row>>): (t: Records)
    ensures |t| == 1 + |rows| && forall i | 0 <= i < |t| :: |t[i]| == |columns|
  {
    [seq(|columns|, k requires 0 <= k < |columns| => columns[k].header)] +
    seq(|rows|, i requires 0 <= i < |rows| =>
      seq(|columns|, k requires 0 <= k < |columns| => columns[k].cell(rows[i])))
  }

  /** `toCsv`. */
  function ToCsv<Row>(rows: seq<Row>, columns: seq<Column<Row>>): (s: JsString)
  {
    Document(Table(rows, columns))
  }

  // ---------------------------------------------------------------- the reader

  datatype Read = Read(field: JsString, rest: JsString)

  function Prepend(u: Unit, r: Option<Read>): (q: Option<Read>)
  {
    match r
    case None => None
    case Some(Read(field, rest)) => Some(Read([u] + field, rest))
  }

  /** After an opening quote, up to the closing one; a doubled quote is a quote. */
  function ReadQuoted(s: JsString): (r: Option<Read>)
    ensures r.Some? ==> |r.value.rest| < |s|
  {
    if s == [] then None
    else if s[0] != QUOTE then Prepend(s[0], ReadQuoted(s[1..]))
    else if |s| > 1 && s[1] == QUOTE then Prepend(QUOTE, ReadQuoted(s[2..]))
    else Some(Read([], s[1..]))
  }

  predicate AtSeparator(s: JsString)
  {
    s == [] || s[0] == COMMA || (|s| > 1 && s[0] == CR && s[1] == LF)
  }

  /** Unquoted text up to a separator; quotes and stray line breaks are not allowed in it. */
  function ReadPlain(s: JsString): (r: Option<Read>)
    ensures r.Some? ==> |r.value.rest| <= |s|
  {
    if AtSeparator(s) then Some(Read([], s))
    else if s[0] == QUOTE || s[0] == CR || s[0] == LF then None
    else Prepend(s[0], ReadPlain(s[1..]))
  }

  function ReadField(s: JsString): (r: Option<Read>)
    ensures r.Some? ==> |r.value.rest| <= |s|
  {
    if s != [] && s[0] == QUOTE then ReadQuoted(s[1..]) else ReadPlain(s)
  }

  /** All records of a document; with `finalBreak`, a line break at the very end only ends the last record. */
  function ReadRecords(s: JsString, finalBreak: bool): (r: Option<Records>)
    ensures r.Some? ==> r.value != [] && r.value[0] != []
    decreases |s|
  {
    match ReadField(s)
    case None => None
    case Some(Read(field, rest)) =>
      if rest == [] then Some([[field]])
      else if rest[0] == COMMA then
        match ReadRecords(rest[1..], finalBreak)
        case None => None
        case Some(records) => Some([[field] + records[0]] + records[1..])
      else if AtSeparator(rest) then
        if finalBreak && |rest| == 2 then Some([[field]])
        else
          match ReadRecords(rest[2..], finalBreak)
          case None => None
          case Some(records) => Some([[field]] + records)
      else None
  }

  // ---------------------------------------------------------------- reading what was written

  lemma {:induction false} ReadBackQuoted(value: JsString, rest: JsString)
    requires rest == [] || rest[0] != QUOTE
    ensures ReadQuoted(DoubleQuotes(value) + [QUOTE] + rest) == Some(Read(value, rest))
  {
    if value == [] {
      assert ([] + [QUOTE] + rest)[1..] == rest;
    } else {
      ReadBackQuoted(value[1..], rest);
      var more := DoubleQuotes(value[1..]) + [QUOTE] + rest;
      assert value == [value[0]] + value[1..];
      if value[0] == QUOTE {
        Peel([QUOTE, QUOTE], DoubleQuotes(value[1..]), rest);
      } else {
        Peel([value[0]], DoubleQuotes(value[1..]), rest);
      }
    }
  }

  lemma Peel(front: JsString, body: JsString, rest: JsString)
    ensures (front + body + [QUOTE] + rest)[|front|..] == body + [QUOTE] + rest
    ensures forall i | 0 <= i < |front| :: (front + body + [QUOTE] + rest)[i] == front[i]
  {
  }

  lemma {:induction false} ReadBackPlain(value: JsString, rest: JsString)
    requires !NeedsQuotes(value) && AtSeparator(rest)
    ensures ReadPlain(value + rest) == Some(Read(value, rest))
  {
    if value == [] {
      assert value + rest == rest;
    } else {
      assert value[0] in value;
      assert (value + rest)[1..] == value[1..] + rest;
      ReadBackPlain(value[1..], rest);
      assert value == [value[0]] + value[1..];
    }
  }

  lemma ReadBackField(value: JsString, rest: JsString)
    requires AtSeparator(rest)
    ensures ReadField(CsvField(value) + rest) == Some(Read(value, rest))
  {
    var s := CsvField(value) + rest;
    if NeedsQuotes(value) {
      ReadBackQuoted(value, rest);
      QuotedBody(DoubleQuotes(value), rest);
    } else {
      ReadBackPlain(value, rest);
      StartsPlain(value, rest);
    }
  }

  lemma QuotedBody(body: JsString, rest: JsString)
    ensures ([QUOTE] + body + [QUOTE] + rest)[1..] == body + [QUOTE] + rest
  {
  }

  lemma StartsPlain(value: JsString, rest: JsString)
    requires !NeedsQuotes(value) && AtSeparator(rest)
    ensures value + rest == [] || (value + rest)[0] != QUOTE
  {
    if value != [] {
      assert (value + rest)[0] == value[0] && value[0] in value;
    } else {
      assert value + rest == rest;
    }
  }

  function Cells(table: Records): (n: nat)
  {
    if table == [] then 0 else 1 + |table[0]| + Cells(table[1..])
  }

  lemma AfterComma(s: JsString, field: JsString, more: JsString, finalBreak: bool)
    requires ReadField(s) == Some(Read(field, [COMMA] + more)) && ReadRecords(more, finalBreak).Some?
    ensures var records := ReadRecords(more, finalBreak).value;
            ReadRecords(s, finalBreak) == Some([[field] + records[0]] + records[1..])
  {
    assert ([COMMA] + more)[1..] == more;
  }

  lemma AfterBreak(s: JsString, field: JsString, more: JsString, finalBreak: bool)
    requires ReadField(s) == Some(Read(field, [CR, LF] + more)) && ReadRecords(more, finalBreak).Some?
    ensures ReadRecords(s, finalBreak)
            == Some([[field]] + if finalBreak && more == [] then [] else ReadRecords(more, finalBreak).value)
  {
    var rest := [CR, LF] + more;
    assert rest[2..] == more && rest[0] == CR && rest[1] == LF;
    if finalBreak && more == [] {
      assert ReadRecords(s, finalBreak) == Some([[field]]);
      assert [[field]] + [] == [[field]];
    }
  }

  /** After its first record the table has one more, the last, and that is one empty cell. */
  predicate EndsEmpty(table: Records)
  {
    |table| > 1 && table[|table| - 1] == [[]]
  }

  /** What a reader finds in a written document. */
  function Found(table: Records, finalBreak: bool): (t: Records)
  {
    if finalBreak && EndsEmpty(table) then table[..|table| - 1] else table
  }

  lemma FoundAfter(first: seq<JsString>, others: Records, finalBreak: bool)
    requires others != []
    ensures Found([first] + others, finalBreak)
            == [first] + if finalBreak && others == [[[]]] then [] else Found(others, finalBreak)
  {
    var table := [first] + others;
    assert table[|table| - 1] == others[|others| - 1];
    assert table[..|table| - 1] == [first] + others[..|others| - 1];
    if |others| == 1 {
      assert others == [others[0]];
      assert others[..0] == [];
    }
  }

  /** Only the table of one empty cell is written as nothing at all. */
  lemma WrittenAsNothing(table: Records)
    requires table != [] && table[0] != []
    ensures Document(table) == [] <==> table == [[[]]]
  {
    if table == [[[]]] {
      assert Line([[]]) == CsvField([]) == [];
    } else if |table| == 1 && |table[0]| == 1 {
      LastOfRecord(table);
      assert table == [table[0]] && table[0] == [table[0][0]];
    } else if |table[0]| > 1 {
      FirstFieldOff(table);
    }
  }

  /**
    Reading a written document gives back exactly its records, but for a last record of one empty cell if the reader
    takes the line break before it for the end of the document.
   */
  lemma {:induction false} ReadBack(table: Records, finalBreak: bool)
    requires table != [] && forall i | 0 <= i < |table| :: table[i] != []
    ensures ReadRecords(Document(table), finalBreak) == Some(Found(table, finalBreak))
    decreases Cells(table)
  {
    var first, others := table[0], table[1..];
    var field, fields := first[0], first[1..];
    if fields != [] {
      ReadBack([fields] + others, finalBreak);
      MoreFields(table, finalBreak);
    } else if others != [] {
      ReadBack(others, finalBreak);
      MoreRecords(table, finalBreak);
    } else {
      ReadBackField(field, []);
      LastOfRecord(table);
      assert first == [field] && table == [first];
    }
  }

  lemma MoreFields(table: Records, finalBreak: bool)
    requires table != [] && |table[0]| > 1
    requires var shorter := [table[0][1..]] + table[1..];
             ReadRecords(Document(shorter), finalBreak) == Some(Found(shorter, finalBreak))
    ensures ReadRecords(Document(table), finalBreak) == Some(Found(table, finalBreak))
  {
    var field, shorter := table[0][0], [table[0][1..]] + table[1..];
    ReadBackField(field, [COMMA] + Document(shorter));
    FirstFieldOff(table);
    AfterComma(Document(table), field, Document(shorter), finalBreak);
    FoundWiden(table, shorter, finalBreak);
  }

  lemma FoundWiden(table: Records, shorter: Records, finalBreak: bool)
    requires table != [] && |table[0]| > 1 && shorter == [table[0][1..]] + table[1..]
    ensures var found := Found(shorter, finalBreak);
            found != [] && [[table[0][0]] + found[0]] + found[1..] == Found(table, finalBreak)
  {
    assert [table[0][0]] + table[0][1..] == table[0];
    if |table| > 1 {
      FoundAfter(table[0], table[1..], finalBreak);
      FoundAfter(table[0][1..], table[1..], finalBreak);
      assert table == [table[0]] + table[1..];
    }
  }

  lemma MoreRecords(table: Records, finalBreak: bool)
    requires |table| > 1 && |table[0]| == 1 && table[1] != []
    requires ReadRecords(Document(table[1..]), finalBreak) == Some(Found(table[1..], finalBreak))
    ensures ReadRecords(Document(table), finalBreak) == Some(Found(table, finalBreak))
  {
    var field, others := table[0][0], table[1..];
    LastOfRecord(table);
    ReadBackField(field, [CR, LF] + Document(others));
    AfterBreak(Document(table), field, Document(others), finalBreak);
    FoundBefore(table, others, finalBreak);
  }

  lemma FoundBefore(table: Records, others: Records, finalBreak: bool)
    requires |table| > 1 && |table[0]| == 1 && table[1] != [] && others == table[1..]
    ensures Found(table, finalBreak) == [[table[0][0]]] + if finalBreak && Document(others) == [] then [] else Found(others, finalBreak)
  {
    WrittenAsNothing(others);
    assert table[0] == [table[0][0]] && table == [table[0]] + others;
    FoundAfter(table[0], others, finalBreak);
  }

  lemma LastOfRecord(table: Records)
    requires table != [] && |table[0]| == 1
    ensures Document(table) == CsvField(table[0][0]) + if |table| == 1 then [] else [CR, LF] + Document(table[1..])
  {
    assert CsvField(table[0][0]) + [] == CsvField(table[0][0]);
    assert Line(table[0]) == CsvField(table[0][0]);
  }

  lemma FirstFieldOff(table: Records)
    requires table != [] && |table[0]| > 1
    ensures Document(table) == CsvField(table[0][0]) + ([COMMA] + Document([table[0][1..]] + table[1..]))
  {
    var shorter := [table[0][1..]] + table[1..];
    assert shorter[1..] == table[1..];
    var f, l := CsvField(table[0][0]), Line(table[0][1..]);
    var end := if |table| == 1 then [] else [CR, LF] + Document(table[1..]);
    assert Line(table[0]) == f + ([COMMA] + l);
    assert (f + ([COMMA] + l)) + end == f + ([COMMA] + (l + end));
  }

  /**
    A reader that takes every line break between cells for the start of a record finds one record with each column's
    header and then one for each row, with that column's cell of that row in the same place.
   */
  lemma ExportReadsBack<Row>(rows: seq<Row>, columns: seq<Column<Row>>)
    requires columns != []
    ensures var read := ReadRecords(ToCsv(rows, columns), false);
            && read.Some? && |read.value| == 1 + |rows|
            && (forall i | 0 <= i < |read.value| :: |read.value[i]| == |columns|)
            && (forall k | 0 <= k < |columns| :: read.value[0][k] == columns[k].header)
            && (forall i, k | 0 <= i < |rows| && 0 <= k < |columns| :: read.value[1 + i][k] == columns[k].cell(rows[i]))
  {
    ReadBack(Table(rows, columns), false);
  }

  /** A field is written as it is exactly when it has no quote, comma or line break. */
  lemma FieldAsIs(value: JsString)
    ensures CsvField(value) == value
            <==> '"' as int !in value && ',' as int !in value && '\r' as int !in value && '\n' as int !in value
  {
    if NeedsQuotes(value) {
      DoublingGrows(value);
      assert |CsvField(value)| > |value|;
    }
  }

  lemma {:induction false} DoublingGrows(value: JsString)
    ensures |DoubleQuotes(value)| >= |value|
  {
    if value != [] {
      DoublingGrows(value[1..]);
    }
  }

  /** The separators are those of section 2 of RFC 4180. */
  lemma Separators()
    ensures QUOTE == '"' as int && COMMA == ',' as int && CR == '\r' as int && LF == '\n' as int
  {
  }

  /**
    A reader that allows a line break after the last record recovers them exactly when there is no row, or more than one
    column, or a last cell that is not empty; otherwise it finds every record but the last.
   */
  lemma ExportWithFinalBreak<Row>(rows: seq<Row>, columns: seq<Column<Row>>)
    requires columns != []
    ensures var read := ReadRecords(ToCsv(rows, columns), true);
            var table := Table(rows, columns);
            && (read == Some(table) <==> !(rows != [] && |columns| == 1 && columns[0].cell(rows[|rows| - 1]) == []))
            && (read != Some(table) ==> read == Some(table[..|rows|]))
  {
    var table := Table(rows, columns);
    ReadBack(table, true);
    LastRecord(rows, columns);
    assert EndsEmpty(table) ==> |Found(table, true)| < |table|;
  }

  lemma LastRecord<Row>(rows: seq<Row>, columns: seq<Column<Row>>)
    requires columns != []
    ensures EndsEmpty(Table(rows, columns)) <==> rows != [] && |columns| == 1 && columns[0].cell(rows[|rows| - 1]) == []
  {
    if rows != [] {
      var last := Table(rows, columns)[|rows|];
      assert last == seq(|columns|, k requires 0 <= k < |columns| => columns[k].cell(rows[|rows| - 1]));
      assert last[0] == columns[0].cell(rows[|rows| - 1]);
      assert |columns| == 1 ==> last == [last[0]];
    }
  }

  /** So a column with one empty cell at its end loses that row. */
  lemma LastRowIsLost(header: JsString)
    ensures ReadRecords(Document([[header], [[]]]), true) == Some([[header]])
  {
    var table: Records := [[header], [[]]];
    ReadBack(table, true);
    assert table[..1] == [[header]];
  }

  /** Different tables never share a document. */
  lemma DocumentIsInjective(a: Records, b: Records)
    requires a != [] && b != [] && (forall i | 0 <= i < |a| :: a[i] != []) && (forall i | 0 <= i < |b| :: b[i] != [])
    requires Document(a) == Document(b)
    ensures a == b
  {
    ReadBack(a, false);
    ReadBack(b, false);
  }
}
