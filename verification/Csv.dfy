/** Printing an export as CSV, and what a reader that follows RFC 4180, section 2, gets back. */
module Csv {
  import opened Wrappers

  /** A cell's value, with the texts JavaScript makes of a date, list item or object. */
  datatype Value = Null | Text(text: string) | Date(iso: string) | List(items: seq<string>) | Json(json: string)

  datatype Column<!T> = Column(header: string, value: T -> Value)

  const BOM: char := '\U{FEFF}'
  const CRLF := "\r\n"

  function Join(parts: seq<string>, sep: string): string {
    if parts == [] then "" else if |parts| == 1 then parts[0] else parts[0] + sep + Join(parts[1..], sep)
  }

  // ---- printing a cell ----------------------------------------------------------------

  predicate StartsFormula(s: string) { s != "" && s[0] in "=+-@\t\r" }

  predicate LongDigits(s: string) { |s| >= 12 && forall i :: 0 <= i < |s| ==> '0' <= s[i] <= '9' }

  function Neutralise(s: string): string { if StartsFormula(s) then "'" + s else s }

  function PreserveDigits(s: string): string { if LongDigits(s) then "'" + s else s }

  function Raw(v: Value): string {
    match v
    case Null => ""
    case Text(s) => s
    case Date(iso) => iso
    case List(items) => Join(items, "; ")
    case Json(json) => json
  }

  /** The text the file carries for a value. */
  function Safe(v: Value): string { PreserveDigits(Neutralise(Raw(v))) }

  predicate Special(c: char) { c == '"' || c == ',' || c == '\n' || c == '\r' }

  predicate HasSpecial(s: string) { exists i :: 0 <= i < |s| && Special(s[i]) }

  function Twice(c: char): string { if c == '"' then "\"\"" else [c] }

  function Doubled(s: string): string {
    if s == "" then "" else Twice(s[0]) + Doubled(s[1..])
  }

  function Quote(s: string): string { if HasSpecial(s) then "\"" + Doubled(s) + "\"" else s }

  function Cell(v: Value): string { if v.Null? then "" else Quote(Safe(v)) }

  // ---- printing rows and files -----------------------------------------------------------

  function Cells(values: seq<Value>): (r: seq<string>)
    ensures |r| == |values|
  {
    if values == [] then [] else [Cell(values[0])] + Cells(values[1..])
  }

  function Headers<T>(columns: seq<Column<T>>): (r: seq<Value>)
    ensures |r| == |columns|
  {
    if columns == [] then [] else [Text(columns[0].header)] + Headers(columns[1..])
  }

  function Values<T>(row: T, columns: seq<Column<T>>): (r: seq<Value>)
    ensures |r| == |columns|
  {
    if columns == [] then [] else [columns[0].value(row)] + Values(row, columns[1..])
  }

  function CsvHeader<T>(columns: seq<Column<T>>): string { Join(Cells(Headers(columns)), ",") }

  function CsvRow<T>(row: T, columns: seq<Column<T>>): string { Join(Cells(Values(row, columns)), ",") }

  function CsvRows<T>(rows: seq<T>, columns: seq<Column<T>>): (r: seq<string>)
    ensures |r| == |rows| && forall i :: 0 <= i < |rows| ==> r[i] == CsvRow(rows[i], columns)
  {
    if rows == [] then [] else [CsvRow(rows[0], columns)] + CsvRows(rows[1..], columns)
  }

  function ToCsv<T>(rows: seq<T>, columns: seq<Column<T>>): string {
    [BOM] + Join([CsvHeader(columns)] + CsvRows(rows, columns), CRLF) + CRLF
  }

  /** Every line followed by its own line break. */
  function Lines(lines: seq<string>): string {
    if lines == [] then "" else lines[0] + CRLF + Lines(lines[1..])
  }

  lemma {:induction false} JoinedLines(lines: seq<string>)
    requires lines != []
    ensures Join(lines, CRLF) + CRLF == Lines(lines)
  {
    if |lines| == 1 {
    } else {
      JoinedLines(lines[1..]);
      assert lines[0] + CRLF + Join(lines[1..], CRLF) + CRLF == lines[0] + CRLF + (Join(lines[1..], CRLF) + CRLF);
    }
  }

  lemma Associative(x: string, y: string, z: string)
    ensures x + y + z == x + (y + z)
  {
  }

  lemma {:induction false} LinesConcat(a: seq<string>, b: seq<string>)
    ensures Lines(a + b) == Lines(a) + Lines(b)
  {
    if a == [] {
      assert a + b == b;
    } else {
      LinesConcat(a[1..], b);
      assert (a + b)[0] == a[0] && (a + b)[1..] == a[1..] + b;
      Associative(a[0] + CRLF, Lines(a[1..]), Lines(b));
    }
  }

  lemma CsvRowsConcat<T>(a: seq<T>, b: seq<T>, columns: seq<Column<T>>)
    ensures CsvRows(a + b, columns) == CsvRows(a, columns) + CsvRows(b, columns)
  {
    var rows, both := CsvRows(a + b, columns), CsvRows(a, columns) + CsvRows(b, columns);
    assert forall i :: 0 <= i < |rows| ==> rows[i] == both[i];
  }

  // ---- what the printing does to a value ------------------------------------------------------

  /** Nothing a spreadsheet opens is a formula or a run of digits it would turn into a float. */
  lemma SafeCellsAreInert(v: Value)
    ensures !StartsFormula(Safe(v)) && !LongDigits(Safe(v))
  {
    var s := Neutralise(Raw(v));
    if LongDigits(s) { assert s[0] == s[0] && '0' <= s[0] <= '9'; }
  }

  predicate Altered(s: string) { StartsFormula(s) || LongDigits(s) }

  /** A value is carried unchanged exactly when it was inert to begin with. */
  lemma CarriedExactly(v: Value)
    ensures Safe(v) == Raw(v) <==> !Altered(Raw(v))
    ensures Altered(Raw(v)) ==> Safe(v) == "'" + Raw(v)
  {
    var s := Raw(v);
    if StartsFormula(s) {
      assert ("'" + s)[0] == '\'';
      assert !LongDigits("'" + s);
    }
    assert |"'" + s| == |s| + 1;
  }

  /**
   * Told from the characters: a quote goes in front exactly of what starts
   * with an equals, plus, minus or at sign, a tab or a carriage return, and of
   * twelve digits or more with nothing else.
   */
  lemma CarriedInCharacters(v: Value)
    ensures var raw := Raw(v);
            var formula := raw != "" && (raw[0] == '=' || raw[0] == '+' || raw[0] == '-' || raw[0] == '@'
                                         || raw[0] == '\t' || raw[0] == '\r');
            var digits := |raw| >= 12 && forall i :: 0 <= i < |raw| ==> '0' <= raw[i] <= '9';
            Safe(v) == if formula || digits then "'" + raw else raw
  {
    CarriedExactly(v);
  }

  /** A list is its items with a semicolon and a space between them. */
  lemma ListText(items: seq<string>)
    ensures Raw(List(items)) == if items == [] then ""
                                else if |items| == 1 then items[0] else items[0] + "; " + Raw(List(items[1..]))
  {
  }

  /** Which values the file cannot tell apart: one is the other with a quote already in front. */
  lemma TextsCollide(a: Value, b: Value)
    ensures Safe(a) == Safe(b)
            <==> || Raw(a) == Raw(b)
                 || (Altered(Raw(a)) && Raw(b) == "'" + Raw(a))
                 || (Altered(Raw(b)) && Raw(a) == "'" + Raw(b))
  {
    CarriedExactly(a);
    CarriedExactly(b);
    QuotedIsInert(Raw(a));
    QuotedIsInert(Raw(b));
    assert ("'" + Raw(a))[1..] == Raw(a) && ("'" + Raw(b))[1..] == Raw(b);
  }

  lemma QuotedIsInert(s: string)
    ensures !Altered("'" + s)
  {
    var q := "'" + s;
    assert q[0] == '\'';
  }

  // ---- reading it back -----------------------------------------------------------------------------

  /** The rest of an escaped field, after its opening quote, and what follows its closing one. */
  function ParseEscaped(s: string): (r: Option<(string, string)>)
    ensures r.Some? ==> |r.value.1| < |s|
    decreases |s|
  {
    if s == "" then None
    else if s[0] != '"' then
      var r := ParseEscaped(s[1..]);
      if r.None? then None else Some(([s[0]] + r.value.0, r.value.1))
    else if |s| > 1 && s[1] == '"' then
      var r := ParseEscaped(s[2..]);
      if r.None? then None else Some(("\"" + r.value.0, r.value.1))
    else Some(("", s[1..]))
  }

  function ParsePlain(s: string): (r: (string, string))
    ensures |r.1| <= |s|
  {
    if s == "" || Special(s[0]) then ("", s)
    else var r := ParsePlain(s[1..]); ([s[0]] + r.0, r.1)
  }

  function ParseField(s: string): (r: Option<(string, string)>)
    ensures r.Some? ==> |r.value.1| <= |s|
  {
    if s != "" && s[0] == '"' then ParseEscaped(s[1..]) else Some(ParsePlain(s))
  }

  /** One record and what follows it; only the last may go without its line break. */
  function ParseRecord(s: string): (r: Option<(seq<string>, string)>)
    ensures r.Some? && s != "" ==> |r.value.1| < |s|
    decreases |s|
  {
    var field := ParseField(s);
    if field.None? then None
    else
      var (text, rest) := field.value;
      if rest == "" then Some(([text], ""))
      else if rest[0] == ',' then
        var more := ParseRecord(rest[1..]);
        if more.None? then None else Some(([text] + more.value.0, more.value.1))
      else if |rest| >= 2 && rest[..2] == CRLF then Some(([text], rest[2..]))
      else None
  }

  function ParseFile(s: string): Option<seq<seq<string>>>
    decreases |s|
  {
    if s == "" then Some([])
    else
      var record := ParseRecord(s);
      if record.None? then None
      else
        var more := ParseFile(record.value.1);
        if more.None? then None else Some([record.value.0] + more.value)
  }

  function ParseDocument(s: string): Option<seq<seq<string>>> {
    if s != "" && s[0] == BOM then ParseFile(s[1..]) else ParseFile(s)
  }

  // ---- the round trip ------------------------------------------------------------------------------------

  lemma {:induction false} EscapedRoundTrip(t: string, rest: string)
    requires rest == "" || rest[0] != '"'
    ensures ParseEscaped(Doubled(t) + "\"" + rest) == Some((t, rest))
  {
    if t == "" {
      var s := Doubled(t) + "\"" + rest;
      assert s == "\"" + rest && s[1..] == rest;
    } else {
      EscapedRoundTrip(t[1..], rest);
      EscapedStep(t[0], Doubled(t[1..]) + "\"" + rest, t[1..], rest);
      assert [t[0]] + t[1..] == t;
      assert Doubled(t) + "\"" + rest == Twice(t[0]) + (Doubled(t[1..]) + "\"" + rest);
    }
  }

  lemma EscapedStep(c: char, tail: string, text: string, rest: string)
    requires ParseEscaped(tail) == Some((text, rest))
    ensures ParseEscaped(Twice(c) + tail) == Some(([c] + text, rest))
  {
    var s := Twice(c) + tail;
    assert s[|Twice(c)|..] == tail;
  }

  lemma {:induction false} PlainRoundTrip(t: string, rest: string)
    requires !HasSpecial(t) && (rest == "" || Special(rest[0]))
    ensures ParsePlain(t + rest) == (t, rest)
  {
    if t == "" {
      assert t + rest == rest;
    } else {
      assert !HasSpecial(t[1..]) by {
        assert forall i :: 0 <= i < |t| - 1 ==> t[1..][i] == t[i + 1] && !Special(t[i + 1]);
      }
      PlainRoundTrip(t[1..], rest);
      assert !Special(t[0]);
      PlainStep(t[0], t[1..] + rest);
      assert [t[0]] + t[1..] == t;
      assert t + rest == [t[0]] + (t[1..] + rest);
    }
  }

  lemma PlainStep(c: char, tail: string)
    requires !Special(c)
    ensures ParsePlain([c] + tail) == ([c] + ParsePlain(tail).0, ParsePlain(tail).1)
  {
    assert ([c] + tail)[1..] == tail;
  }

  lemma QuotedFieldRoundTrip(t: string, rest: string)
    requires HasSpecial(t) && (rest == "" || rest[0] != '"')
    ensures ParseField(Quote(t) + rest) == Some((t, rest))
  {
    var body := Doubled(t) + "\"" + rest;
    EscapedRoundTrip(t, rest);
    var s := "\"" + body;
    assert s[1..] == body;
    assert Quote(t) + rest == s;
  }

  lemma PlainFieldRoundTrip(t: string, rest: string)
    requires !HasSpecial(t) && (rest == "" || rest[0] == ',' || rest[0] == '\r')
    ensures ParseField(Quote(t) + rest) == Some((t, rest))
  {
    PlainRoundTrip(t, rest);
    assert t != "" ==> !Special(t[0]) && (t + rest)[0] == t[0];
    assert t == "" ==> t + rest == rest;
  }

  lemma CellRoundTrip(v: Value, rest: string)
    requires rest == "" || rest[0] == ',' || rest[0] == '\r'
    ensures ParseField(Cell(v) + rest) == Some((Safe(v), rest))
  {
    assert Cell(v) == Quote(Safe(v));
    if HasSpecial(Safe(v)) { QuotedFieldRoundTrip(Safe(v), rest); } else { PlainFieldRoundTrip(Safe(v), rest); }
  }

  lemma LastFieldOfRecord(cell: string, text: string, rest: string)
    requires ParseField(cell + (CRLF + rest)) == Some((text, CRLF + rest))
    ensures ParseRecord(cell + CRLF + rest) == Some(([text], rest))
  {
    var after := CRLF + rest;
    assert cell + CRLF + rest == cell + after;
    assert after[..2] == CRLF && after[2..] == rest;
  }

  lemma FieldThenRecord(cell: string, text: string, tail: string, texts: seq<string>, rest: string)
    requires ParseField(cell + ("," + tail)) == Some((text, "," + tail))
    requires ParseRecord(tail) == Some((texts, rest))
    ensures ParseRecord(cell + ("," + tail)) == Some(([text] + texts, rest))
  {
    assert ("," + tail)[1..] == tail;
  }

  /** The texts a record carries. */
  function Texts(values: seq<Value>): (r: seq<string>)
    ensures |r| == |values| && forall i :: 0 <= i < |r| ==> r[i] == Safe(values[i])
  {
    if values == [] then [] else [Safe(values[0])] + Texts(values[1..])
  }

  lemma {:induction false} RecordRoundTrip(values: seq<Value>, rest: string)
    requires values != []
    ensures ParseRecord(Join(Cells(values), ",") + CRLF + rest) == Some((Texts(values), rest))
  {
    if |values| == 1 {
      CellRoundTrip(values[0], CRLF + rest);
      LastFieldOfRecord(Cell(values[0]), Safe(values[0]), rest);
      assert Cells(values) == [Cell(values[0])] && Texts(values) == [Safe(values[0])];
    } else {
      RecordRoundTrip(values[1..], rest);
      var tail := Join(Cells(values[1..]), ",") + CRLF + rest;
      CellRoundTrip(values[0], "," + tail);
      FieldThenRecord(Cell(values[0]), Safe(values[0]), tail, Texts(values[1..]), rest);
      assert Cells(values)[1..] == Cells(values[1..]);
      CommaBetween(Cell(values[0]), Join(Cells(values[1..]), ","), rest);
    }
  }

  lemma CommaBetween(cell: string, cells: string, rest: string)
    ensures cell + "," + cells + CRLF + rest == cell + ("," + (cells + CRLF + rest))
  {
  }

  function RowTexts<T>(rows: seq<T>, columns: seq<Column<T>>): (r: seq<seq<string>>)
    ensures |r| == |rows|
    ensures forall i :: 0 <= i < |rows| ==> r[i] == Texts(Values(rows[i], columns))
  {
    if rows == [] then [] else [Texts(Values(rows[0], columns))] + RowTexts(rows[1..], columns)
  }

  lemma {:induction false} RowsRoundTrip<T>(rows: seq<T>, columns: seq<Column<T>>)
    requires columns != []
    ensures ParseFile(Lines(CsvRows(rows, columns))) == Some(RowTexts(rows, columns))
  {
    if rows == [] {
    } else {
      RowsRoundTrip(rows[1..], columns);
      var rest := Lines(CsvRows(rows[1..], columns));
      RecordRoundTrip(Values(rows[0], columns), rest);
      assert Lines(CsvRows(rows, columns)) == CsvRow(rows[0], columns) + CRLF + rest;
    }
  }

  lemma HeaderThenLines(header: string, rows: seq<string>)
    ensures [BOM] + Join([header] + rows, CRLF) + CRLF == [BOM] + header + CRLF + Lines(rows)
  {
    var lines := [header] + rows;
    assert lines[0] == header && lines[1..] == rows;
    JoinedLines(lines);
    Associative([BOM], Join(lines, CRLF), CRLF);
    Regroup([BOM], header, CRLF, Lines(rows));
  }

  lemma Regroup(a: string, b: string, c: string, d: string)
    ensures a + (b + c + d) == a + b + c + d
  {
  }

  lemma AsLines<T>(rows: seq<T>, columns: seq<Column<T>>)
    ensures ToCsv(rows, columns) == [BOM] + CsvHeader(columns) + CRLF + Lines(CsvRows(rows, columns))
  {
    HeaderThenLines(CsvHeader(columns), CsvRows(rows, columns));
  }

  lemma RecordThenFile(line: string, rest: string, texts: seq<string>, more: seq<seq<string>>)
    requires ParseRecord(line + CRLF + rest) == Some((texts, rest)) && ParseFile(rest) == Some(more)
    ensures ParseDocument([BOM] + line + CRLF + rest) == Some([texts] + more)
  {
    var body := line + CRLF + rest;
    var s := [BOM] + body;
    assert s[1..] == body;
    assert [BOM] + line + CRLF + rest == s;
  }

  /** A file with at least one column reads back as its headers and its rows' texts. */
  lemma CsvRoundTrip<T>(rows: seq<T>, columns: seq<Column<T>>)
    requires columns != []
    ensures ParseDocument(ToCsv(rows, columns)) == Some([Texts(Headers(columns))] + RowTexts(rows, columns))
  {
    var file, rest := ToCsv(rows, columns), Lines(CsvRows(rows, columns));
    AsLines(rows, columns);
    RowsRoundTrip(rows, columns);
    RecordRoundTrip(Headers(columns), rest);
    RecordThenFile(CsvHeader(columns), rest, Texts(Headers(columns)), RowTexts(rows, columns));
  }

  lemma ConsInjective<T>(x: T, xs: seq<T>, y: T, ys: seq<T>)
    requires [x] + xs == [y] + ys
    ensures x == y && xs == ys
  {
    assert ([x] + xs)[0] == x && ([x] + xs)[1..] == xs;
    assert ([y] + ys)[0] == y && ([y] + ys)[1..] == ys;
  }

  /** Two files with the same bytes carry the same number of rows and the same texts in every cell. */
  lemma SameFileSameTexts<T, U>(a: seq<T>, ca: seq<Column<T>>, b: seq<U>, cb: seq<Column<U>>)
    requires ca != [] && cb != [] && ToCsv(a, ca) == ToCsv(b, cb)
    ensures |a| == |b| && |ca| == |cb|
    ensures Texts(Headers(ca)) == Texts(Headers(cb))
    ensures forall i, j :: 0 <= i < |a| && 0 <= j < |ca| ==>
              Safe(Values(a[i], ca)[j]) == Safe(Values(b[i], cb)[j])
  {
    CsvRoundTrip(a, ca);
    CsvRoundTrip(b, cb);
    ConsInjective(Texts(Headers(ca)), RowTexts(a, ca), Texts(Headers(cb)), RowTexts(b, cb));
    assert |RowTexts(a, ca)| == |RowTexts(b, cb)|;
    assert |Texts(Headers(ca))| == |Texts(Headers(cb))|;
    forall i, j | 0 <= i < |a| && 0 <= j < |ca|
      ensures Safe(Values(a[i], ca)[j]) == Safe(Values(b[i], cb)[j])
    {
      assert RowTexts(a, ca)[i] == RowTexts(b, cb)[i];
      assert Texts(Values(a[i], ca))[j] == Texts(Values(b[i], cb))[j];
    }
  }
}
