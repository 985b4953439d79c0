/** The CSV dialect core/fill_ledger.py writes and reads: `csv.writer` with minimal quoting and CR LF
    line ends, and `csv.reader` in its default, lenient mode. */
module CsvText {
  type Row = seq<string>

  predicate NewLine(c: char) { c == '\r' || c == '\n' }

  predicate Special(c: char) { c == ',' || c == '"' || NewLine(c) }

  predicate NeedsQuotes(field: string)
  {
    exists i :: 0 <= i < |field| && Special(field[i])
  }

  function Doubled(field: string): string
  {
    if |field| == 0 then ""
    else
      var last := field[|field| - 1];
      Doubled(field[..|field| - 1]) + (if last == '"' then ['"', '"'] else [last])
  }

  function Quoted(field: string): string
  {
    if NeedsQuotes(field) then ['"'] + Doubled(field) + ['"'] else field
  }

  /** One written row. A row of a single empty field is written as a pair of quotes. */
  function Line(row: Row): string
    requires |row| > 0
  {
    if |row| == 1 then Quoted(row[0]) + ['\r', '\n']
    else Quoted(row[0]) + [','] + Line(row[1..])
  }

  function WriteRow(row: Row): string
    requires |row| > 0
  {
    if row == [""] then ['"', '"', '\r', '\n'] else Line(row)
  }

  // ---------------------------------------------------------------- the reader

  datatype Mode = StartRecord | StartField | InField | InQuotes | QuoteSeen

  /** The reader between two characters: finished rows, finished fields of the current row, the
      current field, and the mode. */
  datatype Reader = Reader(rows: seq<Row>, fields: Row, field: string, mode: Mode) {
    function EndField(): Reader { Reader(rows, fields + [field], "", StartField) }

    function EndRow(): Reader { Reader(rows + [fields + [field]], [], "", StartRecord) }

    function Add(c: char, m: Mode): Reader { Reader(rows, fields, field + [c], m) }

    function Read(c: char): Reader
    {
      match mode
      case StartRecord =>
        if NewLine(c) then this
        else if c == '"' then this.(mode := InQuotes)
        else if c == ',' then EndField()
        else Add(c, InField)
      case StartField =>
        if NewLine(c) then EndRow()
        else if c == '"' then this.(mode := InQuotes)
        else if c == ',' then EndField()
        else Add(c, InField)
      case InField =>
        if NewLine(c) then EndRow() else if c == ',' then EndField() else Add(c, InField)
      case InQuotes =>
        if c == '"' then this.(mode := QuoteSeen) else Add(c, InQuotes)
      case QuoteSeen =>
        if c == '"' then Add(c, InQuotes)
        else if NewLine(c) then EndRow()
        else if c == ',' then EndField()
        else Add(c, InField)
    }

    function ReadAll(text: string): Reader
    {
      if |text| == 0 then this else ReadAll(text[..|text| - 1]).Read(text[|text| - 1])
    }

    /** The rows at the end of the input; an unterminated row counts. */
    function Finish(): seq<Row>
    {
      if mode.StartRecord? then rows else rows + [fields + [field]]
    }
  }

  const BLANK: Reader := Reader([], [], "", StartRecord)

  function Parse(text: string): seq<Row>
  {
    BLANK.ReadAll(text).Finish()
  }

  lemma {:induction false} ReadAppend(r: Reader, a: string, b: string)
    ensures r.ReadAll(a + b) == r.ReadAll(a).ReadAll(b)
  {
    if |b| == 0 {
      assert a + b == a;
    } else {
      var m := |b| - 1;
      ReadAppend(r, a, b[..m]);
      assert (a + b)[..|a + b| - 1] == a + b[..m];
    }
  }

  /** Outside a record nothing is pending. */
  lemma {:induction false} StartIsEmpty(text: string)
    ensures var r := BLANK.ReadAll(text);
            && (r.mode.StartRecord? ==> r.fields == [] && r.field == "")
            && (r.mode.StartField? ==> r.field == "")
  {
    if |text| > 0 {
      StartIsEmpty(text[..|text| - 1]);
    }
  }

  // ---------------------------------------------------------------- reading what was written

  lemma {:induction false} ReadPlain(r: Reader, s: string)
    requires r.mode.InField? && forall i :: 0 <= i < |s| ==> !Special(s[i])
    ensures r.ReadAll(s) == r.(field := r.field + s)
  {
    if |s| > 0 {
      ReadPlain(r, s[..|s| - 1]);
      assert r.field + s == r.field + s[..|s| - 1] + [s[|s| - 1]];
    } else {
      assert r.field + s == r.field;
    }
  }

  lemma DoubledAppend(s: string, c: char)
    ensures Doubled(s + [c]) == Doubled(s) + (if c == '"' then ['"', '"'] else [c])
  {
    assert (s + [c])[..|s|] == s;
  }

  /** Any prefix of a doubled field keeps the reader inside the field; the whole of it gives the field
      back. */
  lemma {:induction false} ReadDoubled(r: Reader, s: string)
    requires r.mode.InQuotes?
    ensures r.ReadAll(Doubled(s)) == r.(field := r.field + s)
  {
    if |s| == 0 {
      assert r.field + s == r.field;
    } else {
      var init, c := s[..|s| - 1], s[|s| - 1];
      assert s == init + [c];
      DoubledAppend(init, c);
      ReadDoubled(r, init);
      var piece: string := if c == '"' then ['"', '"'] else [c];
      ReadAppend(r, Doubled(init), piece);
      var mid := r.(field := r.field + init);
      if c == '"' {
        assert piece[..1] == ['"'] && ['"'][..0] == "";
        assert mid.ReadAll(['"']) == mid.Read('"');
      } else {
        assert piece[..0] == "";
      }
      assert r.field + s == r.field + init + [c];
    }
  }

  /** Ready for a new field: at its start, with nothing pending. */
  predicate Ready(r: Reader)
  {
    r.field == "" && (r.mode.StartField? || (r.mode.StartRecord? && r.fields == []))
  }

  /** A written field followed by a comma is that field. */
  lemma ReadField(r: Reader, f: string)
    requires Ready(r)
    ensures r.ReadAll(Quoted(f) + [',']) == Reader(r.rows, r.fields + [f], "", StartField)
  {
    ReadAppend(r, Quoted(f), [',']);
    ReadUpTo(r, f);
    assert [','][..0] == "";
  }

  /** A written field followed by the line end is the last field of its row. */
  lemma ReadLast(r: Reader, f: string)
    requires Ready(r) && (r.mode.StartField? || f != "")
    ensures r.ReadAll(Quoted(f) + ['\r', '\n']) == Reader(r.rows + [r.fields + [f]], [], "", StartRecord)
  {
    var end: string := ['\r', '\n'];
    ReadAppend(r, Quoted(f), end);
    ReadUpTo(r, f);
    assert end[..1] == ['\r'] && ['\r'][..0] == "";
    var mid := r.ReadAll(Quoted(f));
    assert mid.ReadAll(['\r']) == mid.Read('\r');
  }

  lemma ReadUpTo(r: Reader, f: string)
    requires Ready(r)
    ensures var mid := r.ReadAll(Quoted(f));
            && mid.rows == r.rows && mid.fields == r.fields && mid.field == f
            && (f == "" ==> mid == r)
            && (f != "" ==> mid.mode == if NeedsQuotes(f) then QuoteSeen else InField)
  {
    if NeedsQuotes(f) {
      ReadAppend(r, ['"'] + Doubled(f), ['"']);
      ReadAppend(r, ['"'], Doubled(f));
      assert ['"'][..0] == "";
      assert r.ReadAll(['"']) == r.(mode := InQuotes);
      ReadDoubled(r.(mode := InQuotes), f);
    } else if f != "" {
      assert !Special(f[0]);
      assert f == [f[0]] + f[1..] && [f[0]][..0] == "";
      ReadAppend(r, [f[0]], f[1..]);
      assert r.ReadAll([f[0]]) == r.Read(f[0]) == r.Add(f[0], InField);
      ReadPlain(r.Add(f[0], InField), f[1..]);
    }
  }

  lemma {:induction false} ReadLine(r: Reader, row: Row)
    requires |row| > 0 && Ready(r) && (r.mode.StartField? || row != [""])
    ensures r.ReadAll(Line(row)) == Reader(r.rows + [r.fields + row], [], "", StartRecord)
    decreases row
  {
    hide Quoted, Reader.Read, Reader.ReadAll;
    if |row| == 1 {
      ReadLast(r, row[0]);
      assert row == [row[0]];
    } else {
      ReadAppend(r, Quoted(row[0]) + [','], Line(row[1..]));
      ReadField(r, row[0]);
      var next := Reader(r.rows, r.fields + [row[0]], "", StartField);
      ReadLine(next, row[1..]);
      assert r.fields + row == r.fields + [row[0]] + row[1..];
    }
  }

  /** Round trip. At a record boundary, whatever the fields contain, a written row is read back as one
      more row, equal to it, and the reader is at a record boundary again. */
  lemma ReadWritten(text: string, row: Row)
    requires |row| > 0 && BLANK.ReadAll(text).mode.StartRecord?
    ensures Parse(text + WriteRow(row)) == Parse(text) + [row]
    ensures BLANK.ReadAll(text + WriteRow(row)).mode.StartRecord?
  {
    var r := BLANK.ReadAll(text);
    StartIsEmpty(text);
    ReadAppend(BLANK, text, WriteRow(row));
    if row == [""] {
      var w := WriteRow(row);
      assert w[..3] == ['"', '"', '\r'] && w[..3][..2] == ['"', '"']
             && w[..3][..2][..1] == ['"'] && w[..3][..2][..1][..0] == "";
      assert r.ReadAll(w[..3][..2][..1]) == r.(mode := InQuotes);
      assert r.ReadAll(w[..3][..2]) == r.(mode := QuoteSeen);
      assert r.ReadAll(w[..3]) == r.EndRow();
    } else {
      ReadLine(r, row);
    }
    assert [] + row == row;
  }

  // ---------------------------------------------------------------- torn rows

  /** A cut inside a doubled field leaves the reader inside the field. */
  lemma {:induction false} CutDoubled(r: Reader, s: string, n: nat)
    requires r.mode.InQuotes? && n <= |Doubled(s)|
    ensures var t := r.ReadAll(Doubled(s)[..n]);
            t.rows == r.rows && t.fields == r.fields && (t.mode.InQuotes? || t.mode.QuoteSeen?)
  {
    if |s| > 0 {
      var init, c := s[..|s| - 1], s[|s| - 1];
      assert s == init + [c];
      DoubledAppend(init, c);
      if n <= |Doubled(init)| {
        CutDoubled(r, init, n);
        assert Doubled(s)[..n] == Doubled(init)[..n];
      } else if n == |Doubled(s)| {
        ReadDoubled(r, s);
        assert Doubled(s)[..n] == Doubled(s);
      } else {
        ReadDoubled(r, init);
        assert Doubled(s)[..n] == Doubled(init) + ['"'];
        ReadAppend(r, Doubled(init), ['"']);
        assert ['"'][..0] == "";
        assert r.(field := r.field + init).ReadAll(['"']) == r.(field := r.field + init).Read('"');
      }
    }
  }

  /** A cut inside a written field ends no field; in a field without special characters it cannot leave
      the reader inside quotes. */
  lemma CutField(r: Reader, f: string, n: nat)
    requires Ready(r) && n <= |Quoted(f)|
    ensures var t := r.ReadAll(Quoted(f)[..n]);
            && t.rows == r.rows && t.fields == r.fields
            && (n > 0 ==> !t.mode.StartRecord?)
            && (n == 0 ==> t == r)
            && (!NeedsQuotes(f) ==> !t.mode.InQuotes?)
  {
    if NeedsQuotes(f) {
      if n == |Quoted(f)| {
        ReadUpTo(r, f);
        assert Quoted(f)[..n] == Quoted(f);
      } else if n > 0 {
        CutQuoted(r, f, n - 1);
        assert Quoted(f)[..n] == ['"'] + Doubled(f)[..n - 1];
      }
    } else {
      assert !NeedsQuotes(f[..n]);
      assert Quoted(f[..n]) == f[..n] == Quoted(f)[..n];
      ReadUpTo(r, f[..n]);
    }
  }

  lemma CutQuoted(r: Reader, f: string, n: nat)
    requires Ready(r) && n <= |Doubled(f)|
    ensures var t := r.ReadAll(['"'] + Doubled(f)[..n]);
            t.rows == r.rows && t.fields == r.fields && (t.mode.InQuotes? || t.mode.QuoteSeen?)
  {
    var inner := r.(mode := InQuotes);
    assert ['"'][..0] == "";
    assert r.ReadAll(['"']) == r.Read('"') == inner;
    ReadAppend(r, ['"'], Doubled(f)[..n]);
    CutDoubled(inner, f, n);
  }

  /** What is left of a row cut after `n` characters: nothing, a fragment whose fields but the last are
      the row's own, or the whole row. `j` is the number of whole fields. */
  lemma {:induction false} CutLine(r: Reader, row: Row, n: nat) returns (j: nat)
    requires |row| > 0 && Ready(r) && (r.mode.StartField? || row != [""]) && n <= |Line(row)|
    ensures var t := r.ReadAll(Line(row)[..n]);
            || t == Reader(r.rows + [r.fields + row], [], "", StartRecord)
            || (j < |row| && t.rows == r.rows && t.fields == r.fields + row[..j] &&
                (t.mode.StartRecord? ==> n == 0) && (n == 0 ==> t == r))
    ensures (forall i :: 0 <= i < |row| ==> !NeedsQuotes(row[i])) ==> !r.ReadAll(Line(row)[..n]).mode.InQuotes?
    decreases row
  {
    hide Reader.Read, Quoted, NeedsQuotes;
    j := 0;
    assert r.fields + row[..0] == r.fields;
    var q := |Quoted(row[0])|;
    if n <= q {
      CutField(r, row[0], n);
      assert Line(row)[..n] == Quoted(row[0])[..n];
    } else if |row| == 1 {
      CutLastField(r, row[0], n);
      assert row == [row[0]];
    } else {
      ReadField(r, row[0]);
      var next := Reader(r.rows, r.fields + [row[0]], "", StartField);
      assert Line(row)[..n] == Quoted(row[0]) + [','] + Line(row[1..])[..n - q - 1];
      ReadAppend(r, Quoted(row[0]) + [','], Line(row[1..])[..n - q - 1]);
      var k := CutLine(next, row[1..], n - q - 1);
      assert r.fields + row == next.fields + row[1..];
      if k < |row| - 1 {
        assert r.fields + row[..k + 1] == next.fields + row[1..][..k];
      }
      j := k + 1;
    }
  }

  lemma CutLastField(r: Reader, f: string, n: nat)
    requires Ready(r) && (r.mode.StartField? || f != "")
    requires |Quoted(f)| < n <= |Quoted(f)| + 2
    ensures r.ReadAll((Quoted(f) + ['\r', '\n'])[..n]) == Reader(r.rows + [r.fields + [f]], [], "", StartRecord)
  {
    var end: string := ['\r', '\n'];
    if n == |Quoted(f)| + 2 {
      ReadLast(r, f);
      assert (Quoted(f) + end)[..n] == Quoted(f) + end;
    } else {
      assert (Quoted(f) + end)[..n] == Quoted(f) + ['\r'];
      ReadAppend(r, Quoted(f), ['\r']);
      ReadUpTo(r, f);
      assert ['\r'][..0] == "";
      var mid := r.ReadAll(Quoted(f));
      assert mid.ReadAll(['\r']) == mid.Read('\r');
    }
  }

  /** Inside quotes everything that follows belongs to the open field: whatever is read, the row in
      progress keeps an entry at this place that starts with what the field holds now. */
  predicate Swallows(r: Reader, t: Reader)
  {
    || (t.rows == r.rows && t.fields == r.fields && r.field <= t.field &&
        (t.mode.InQuotes? || t.mode.QuoteSeen? || t.mode.InField?))
    || (t.rows == r.rows && !t.mode.StartRecord? && |t.fields| > |r.fields| && r.field <= t.fields[|r.fields|])
    || (|t.rows| > |r.rows| && |t.rows[|r.rows|]| > |r.fields| && r.field <= t.rows[|r.rows|][|r.fields|])
  }

  lemma {:induction false} InQuotesSwallows(r: Reader, text: string)
    requires r.mode.InQuotes?
    ensures Swallows(r, r.ReadAll(text))
  {
    if |text| > 0 {
      InQuotesSwallows(r, text[..|text| - 1]);
      SwallowsStep(r, r.ReadAll(text[..|text| - 1]), text[|text| - 1]);
    }
  }

  lemma SwallowsStep(r: Reader, t: Reader, c: char)
    requires Swallows(r, t)
    ensures Swallows(r, t.Read(c))
  {
  }

  const CRLF: string := ['\r', '\n']

  /** Healing a torn tail. The line end written before the next row isolates the fragment, and the row is
      read back as its own last row, exactly when the fragment did not stop inside quotes. */
  lemma HealExact(text: string, row: Row)
    requires |row| > 1 && |text| > 0
    ensures var healed := text + CRLF + WriteRow(row);
            && (!BLANK.ReadAll(text).mode.InQuotes? <==> Parse(healed) == Parse(text) + [row])
            && (!BLANK.ReadAll(text).mode.InQuotes? ==> BLANK.ReadAll(healed).mode.StartRecord?)
  {
    hide Reader.ReadAll, Reader.Read, Reader.Finish, WriteRow, Swallows;
    var r := BLANK.ReadAll(text);
    ReadAppend(BLANK, text, CRLF);
    ReadAppend(BLANK, text + CRLF, WriteRow(row));
    StartIsEmpty(text);
    ReadCrLf(r);
    if r.mode.InQuotes? {
      var open := r.(field := r.field + CRLF);
      InQuotesSwallows(open, WriteRow(row));
      SwallowedDiffers(r, open, open.ReadAll(WriteRow(row)), row);
    } else {
      ReadWritten(text + CRLF, row);
    }
  }

  lemma ReadCrLf(r: Reader)
    requires r.mode.StartRecord? ==> r.fields == [] && r.field == ""
    ensures r.mode.InQuotes? ==> r.ReadAll(CRLF) == r.(field := r.field + CRLF)
    ensures !r.mode.InQuotes? ==> r.ReadAll(CRLF).mode.StartRecord? && r.ReadAll(CRLF).Finish() == r.Finish()
  {
    assert CRLF[..1] == ['\r'] && ['\r'][..0] == "";
    assert r.ReadAll(['\r']) == r.Read('\r');
    assert r.ReadAll(CRLF) == r.Read('\r').Read('\n');
    assert r.field + CRLF == r.field + ['\r'] + ['\n'];
  }

  lemma SwallowedField(r: Reader, t: Reader)
    requires Swallows(r, t)
    ensures |t.Finish()| > |r.rows| && |t.Finish()[|r.rows|]| > |r.fields|
    ensures r.field <= t.Finish()[|r.rows|][|r.fields|]
  {
  }

  lemma SwallowedDiffers(r: Reader, open: Reader, t: Reader, row: Row)
    requires r.mode.InQuotes? && open == r.(field := r.field + CRLF) && Swallows(open, t)
    ensures t.Finish() != r.Finish() + [row]
  {
    hide Swallows;
    SwallowedField(open, t);
    var before := r.Finish() + [row];
    assert before[|r.rows|] == r.fields + [r.field];
    assert |t.Finish()[|r.rows|][|r.fields|]| > |r.field|;
  }

  /** A text whose last character is a line feed is at a record boundary, unless it is inside quotes. */
  lemma EndsAtBoundary(text: string)
    requires |text| > 0 && text[|text| - 1] == '\n' && !BLANK.ReadAll(text).mode.InQuotes?
    ensures BLANK.ReadAll(text).mode.StartRecord?
  {
  }
}
