/** The per-fill execution ledger, core/fill_ledger.py: a CSV file that is appended to and never
    rewritten, guarded against replays by a key cache that a restart loses. */
module FillLedger {
  import opened Prelude
  import opened CsvText

  /** A rendered ledger row, `fill_row`'s dictionary after `str`. */
  type Fill = map<string, string>

  datatype Key = Key(order: string, size: string, price: string, remaining: string)

  const COLS: Row := ["ts", "order_id", "position_id", "purpose", "symbol", "side",
                      "ordertype", "post_only", "attempt", "fill_size", "fill_price",
                      "arrival_ref", "slip_bps", "fees_delta_usd", "remaining", "reason",
                      "exec_era", "book", "decision_fp"]

  const KEY_COLS: Row := ["order_id", "fill_size", "fill_price", "remaining"]

  function Get(fill: Fill, col: string): string { if col in fill then fill[col] else "" }

  function DupKey(fill: Fill): Key
  {
    Key(Get(fill, "order_id"), Get(fill, "fill_size"), Get(fill, "fill_price"), Get(fill, "remaining"))
  }

  /** What `csv.DictReader` gives for a column of a row: the last column of that name counts, a row too
      short for it yields Python's None, and a column the header lacks yields the default. */
  function Cell(header: Row, row: Row, col: string): string
  {
    if |header| == 0 then ""
    else
      var n := |header| - 1;
      if header[n] == col then (if n < |row| then row[n] else "None")
      else Cell(header[..n], row, col)
  }

  function RowKey(header: Row, row: Row): Key
  {
    Key(Cell(header, row, "order_id"), Cell(header, row, "fill_size"),
        Cell(header, row, "fill_price"), Cell(header, row, "remaining"))
  }

  /** The keys of the data rows, fragments included. */
  function Keys(rows: seq<Row>): set<Key>
  {
    if |rows| <= 1 then {} else Keys(rows[..|rows| - 1]) + {RowKey(rows[0], rows[|rows| - 1])}
  }

  function Values(cols: Row, fill: Fill): (row: Row)
    ensures |row| == |cols|
  {
    seq(|cols|, i requires 0 <= i < |cols| => Get(fill, cols[i]))
  }

  // ---------------------------------------------------------------- one append

  /** What the file system does to one append: which reads fail, and how many characters of the write
      reach the disk when it is cut short. */
  datatype Io = Io(loadFails: bool, scanFails: bool, tailFails: bool, headerFails: bool, written: Option<nat>)

  const GOOD: Io := Io(false, false, false, false, None)

  /** The file, empty when absent, and the key cache, None until the first successful load. */
  datatype State = State(file: string, seen: Option<set<Key>>)

  function Torn(file: string): bool { |file| > 0 && file[|file| - 1] != '\n' }

  function Columns(file: string, headerFails: bool): Row
  {
    var rows := Parse(file);
    if headerFails || |rows| == 0 || rows[0] == [] then COLS else rows[0]
  }

  /** Everything one append writes: the line end that heals a torn tail, the header of a new file, and
      the row in the file's own columns. */
  function Prologue(file: string): string
  {
    if |file| == 0 then WriteRow(COLS) else if Torn(file) then CRLF else ""
  }

  function NewRow(file: string, fill: Fill, headerFails: bool): (row: Row)
    ensures |row| > 0
  {
    Values(if |file| == 0 then COLS else Columns(file, headerFails), fill)
  }

  function Payload(file: string, fill: Fill, headerFails: bool): string
  {
    Prologue(file) + WriteRow(NewRow(file, fill, headerFails))
  }

  function Written(file: string, fill: Fill, io: Io): string
  {
    var payload := Payload(file, fill, io.headerFails);
    if |file| > 0 && io.tailFails then file
    else if io.written.Some? && io.written.value <= |payload| then file + payload[..io.written.value]
    else file + payload
  }

  function Append(s: State, fill: Fill, io: Io): State
  {
    var k := DupKey(fill);
    var cache := if s.seen.Some? then s.seen
                 else if |s.file| == 0 then Some({})
                 else if io.loadFails then None
                 else Some(Keys(Parse(s.file)));
    if cache.None? then
      if io.scanFails || k in Keys(Parse(s.file)) then s else State(Written(s.file, fill, io), None)
    else if k in cache.value then State(s.file, cache)
    else State(Written(s.file, fill, io), Some(cache.value + {k}))
  }

  class Ledger {
    var file: string
    var seen: Option<set<Key>>

    ghost function Now(): State reads this { State(file, seen) }

    constructor (onDisk: string)
      ensures Now() == State(onDisk, None)
    {
      file, seen := onDisk, None;
    }

    method LoadKeys(loadFails: bool) returns (keys: Option<set<Key>>)
      ensures keys == if loadFails then None else Some(Keys(Parse(file)))
    {
      if loadFails { return None; }
      var rows := Parse(file);
      var found: set<Key> := {};
      var i := 1;
      while i < |rows|
        invariant |rows| > 0 ==> i <= |rows| && found == Keys(rows[..i])
        invariant |rows| == 0 ==> found == {}
      {
        found := found + {RowKey(rows[0], rows[i])};
        i := i + 1;
        assert rows[..i][..i - 1] == rows[..i - 1];
      }
      assert rows[..|rows|] == rows;
      return Some(found);
    }

    method KeyOnDisk(k: Key) returns (found: bool)
      ensures found <==> k in Keys(Parse(file))
    {
      var rows := Parse(file);
      var i := 1;
      while i < |rows|
        invariant 1 <= i && (|rows| > 0 ==> i <= |rows| && k !in Keys(rows[..i]))
      {
        if RowKey(rows[0], rows[i]) == k {
          KeysInclude(rows, i);
          return true;
        }
        i := i + 1;
        assert rows[..i][..i - 1] == rows[..i - 1];
      }
      assert rows[..|rows|] == rows;
      return false;
    }

    method Write(fill: Fill, io: Io)
      modifies this`file
      ensures file == Written(old(file), fill, io)
    {
      hide Parse, WriteRow, Values;
      var torn, cols := false, COLS;
      if |file| > 0 {
        if io.tailFails { return; }
        torn := file[|file| - 1] != '\n';
        if !io.headerFails {
          var rows := Parse(file);
          if |rows| > 0 && rows[0] != [] {
            cols := rows[0];
          }
        }
      }
      var payload: string := "";
      if torn {
        payload := payload + CRLF;
      }
      if |file| == 0 {
        payload := payload + WriteRow(COLS);
      }
      payload := payload + WriteRow(Values(cols, fill));
      assert payload == Payload(file, fill, io.headerFails);
      if io.written.Some? && io.written.value <= |payload| {
        file := file + payload[..io.written.value];
      } else {
        file := file + payload;
      }
    }

    method AppendFill(fill: Fill, io: Io)
      modifies this
      ensures Now() == Append(old(Now()), fill, io)
    {
      hide Keys, Parse, Written, DupKey;
      var cache := seen;
      if cache.None? {
        if |file| == 0 {
          cache := Some({});
        } else {
          cache := LoadKeys(io.loadFails);
        }
        if cache.Some? {
          seen := cache;
        }
      }
      var k := DupKey(fill);
      if cache.None? {
        if io.scanFails { return; }
        var dup := KeyOnDisk(k);
        if dup { return; }
      } else {
        if k in cache.value { return; }
        seen := Some(cache.value + {k});
      }
      Write(fill, io);
    }

    /** A process death: the cache goes, the file stays. */
    method Restart()
      modifies this
      ensures Now() == State(old(file), None)
    {
      seen := None;
    }
  }

  lemma {:induction false} KeysInclude(rows: seq<Row>, i: nat)
    requires 1 <= i < |rows|
    ensures RowKey(rows[0], rows[i]) in Keys(rows)
  {
    if i < |rows| - 1 {
      KeysInclude(rows[..|rows| - 1], i);
    }
  }

  // ---------------------------------------------------------------- the state of the file

  /** The header can carry the key: the four key columns, none of them last. */
  predicate HeaderOk(header: Row)
  {
    |header| > 1 && header[|header| - 1] !in KEY_COLS && forall c :: c in KEY_COLS ==> c in header
  }

  /** A file with a finished, usable header that does not stop inside quotes. */
  predicate Healthy(file: string)
  {
    var r := BLANK.ReadAll(file);
    |r.rows| > 0 && HeaderOk(r.rows[0]) && !r.mode.InQuotes?
  }

  /** Row `i` is a data row of the header's width. */
  predicate Complete(rows: seq<Row>, i: int)
  {
    1 <= i < |rows| && |rows[i]| == |rows[0]|
  }

  /** The row's cells under the four columns that tell fills apart are the fill's own entries. */
  predicate Carries(header: Row, row: Row, fill: Fill)
  {
    && Cell(header, row, "order_id") == Get(fill, "order_id")
    && Cell(header, row, "fill_size") == Get(fill, "fill_size")
    && Cell(header, row, "fill_price") == Get(fill, "fill_price")
    && Cell(header, row, "remaining") == Get(fill, "remaining")
  }

  /** The rows have the same cells under all four. */
  predicate Agree(header: Row, a: Row, b: Row)
  {
    && Cell(header, a, "order_id") == Cell(header, b, "order_id")
    && Cell(header, a, "fill_size") == Cell(header, b, "fill_size")
    && Cell(header, a, "fill_price") == Cell(header, b, "fill_price")
    && Cell(header, a, "remaining") == Cell(header, b, "remaining")
  }

  lemma KeysAreCells(header: Row, a: Row, b: Row, fill: Fill)
    ensures RowKey(header, a) == RowKey(header, b) <==> Agree(header, a, b)
    ensures RowKey(header, a) == DupKey(fill) <==> Carries(header, a, fill)
  {
  }

  /** No two data rows of full width agree in order id, size, price and remaining size. */
  ghost predicate NoFillTwice(rows: seq<Row>)
  {
    forall i, j :: Complete(rows, i) && Complete(rows, j) && i < j ==> !Agree(rows[0], rows[i], rows[j])
  }

  /** The fill is in the ledger as a row of full width. */
  ghost predicate Recorded(rows: seq<Row>, fill: Fill)
  {
    exists i :: Complete(rows, i) && Carries(rows[0], rows[i], fill)
  }

  lemma NoFillTwiceExact(rows: seq<Row>)
    ensures NoFillTwice(rows) <==> NoKeyTwice(rows)
  {
    hide RowKey, DupKey, Agree;
    forall i, j | Complete(rows, i) && Complete(rows, j) && i < j
      ensures Agree(rows[0], rows[i], rows[j]) <==> RowKey(rows[0], rows[i]) == RowKey(rows[0], rows[j])
    {
      KeysAreCells(rows[0], rows[i], rows[j], map[]);
    }
  }

  lemma RecordedExact(rows: seq<Row>, fill: Fill)
    ensures Recorded(rows, fill) <==> KeyRecorded(rows, DupKey(fill))
  {
    hide RowKey, DupKey, Carries;
    forall i | Complete(rows, i)
      ensures Carries(rows[0], rows[i], fill) <==> RowKey(rows[0], rows[i]) == DupKey(fill)
    {
      KeysAreCells(rows[0], rows[i], rows[i], fill);
    }
  }

  ghost predicate NoKeyTwice(rows: seq<Row>)
  {
    forall i, j :: Complete(rows, i) && Complete(rows, j) && i < j
                   ==> RowKey(rows[0], rows[i]) != RowKey(rows[0], rows[j])
  }

  ghost predicate KeyRecorded(rows: seq<Row>, k: Key)
  {
    exists i :: Complete(rows, i) && RowKey(rows[0], rows[i]) == k
  }

  lemma ColsAreOk()
    ensures HeaderOk(COLS)
  {
    assert COLS[1] == "order_id" && COLS[9] == "fill_size" && COLS[10] == "fill_price" && COLS[14] == "remaining";
    assert COLS[18] == "decision_fp";
  }

  // ---------------------------------------------------------------- what an append adds

  /** A row that agrees with the written one except perhaps in its last column still carries its key. */
  lemma {:induction false} CellOfValues(header: Row, fill: Fill, row: Row, col: string)
    requires col in header
    requires |row| >= |header| && row[..|header|] == Values(header, fill)
    ensures Cell(header, row, col) == Get(fill, col)
  {
    var n := |header| - 1;
    assert row[n] == row[..|header|][n];
    if header[n] != col {
      assert col in header[..n];
      assert row[..n] == row[..|header|][..n] == Values(header[..n], fill);
      CellOfValues(header[..n], fill, row, col);
    }
  }

  lemma KeyOfValues(header: Row, fill: Fill, row: Row)
    requires HeaderOk(header) && |row| == |header|
    requires row[..|header| - 1] == Values(header, fill)[..|header| - 1]
    ensures RowKey(header, row) == DupKey(fill)
  {
    var n := |header| - 1;
    assert Values(header, fill)[..n] == Values(header[..n], fill);
    forall c | c in KEY_COLS
      ensures Cell(header, row, c) == Get(fill, c)
    {
      assert c in header[..n] by { assert c in header && header[n] != c; }
      assert row[..n] == Values(header[..n], fill);
      CellOfValues(header[..n], fill, row, c);
    }
    assert KEY_COLS[0] == "order_id" && KEY_COLS[1] == "fill_size" && KEY_COLS[2] == "fill_price"
           && KEY_COLS[3] == "remaining";
  }

  /** What an append that reached the write may leave behind: nothing, or one more row, which is a
      fragment narrower than the header or carries the key of the fill. */
  predicate AddsAtMost(before: seq<Row>, after: seq<Row>, k: Key)
    requires |before| > 0
  {
    || after == before
    || (|after| == |before| + 1 && after[..|before|] == before &&
        (|after[|before|]| < |before[0]| ||
         (|after[|before|]| == |before[0]| && RowKey(before[0], after[|before|]) == k)))
  }

  /** At a record boundary, writing the first `n` characters of the row adds at most one row. */
  lemma CutRowAdds(text: string, header: Row, fill: Fill, n: nat)
    requires BLANK.ReadAll(text).mode.StartRecord? && |BLANK.ReadAll(text).rows| > 0
    requires BLANK.ReadAll(text).rows[0] == header && HeaderOk(header)
    requires n <= |WriteRow(Values(header, fill))|
    ensures var after := BLANK.ReadAll(text + WriteRow(Values(header, fill))[..n]);
            AddsAtMost(Parse(text), after.Finish(), DupKey(fill)) && |after.rows| > 0 && after.rows[0] == header
  {
    hide Reader.ReadAll, Reader.Read, WriteRow, HeaderOk, RowKey, DupKey, Values;
    var r, row := BLANK.ReadAll(text), Values(header, fill);
    assert |header| > 1 by { HeaderWidth(header); }
    StartIsEmpty(text);
    ReadAppend(BLANK, text, WriteRow(row)[..n]);
    var t := r.ReadAll(WriteRow(row)[..n]);
    WriteIsLine(row);
    var j := CutLine(r, row, n);
    assert r.fields + row == row;
    if t == Reader(r.rows + [row], [], "", StartRecord) {
      KeyOfValues(header, fill, row);
    } else if n > 0 {
      assert t.fields == r.fields + row[..j] == row[..j];
      var last := row[..j] + [t.field];
      assert t.Finish() == r.rows + [last];
      if |last| == |header| {
        assert last[..|header| - 1] == row[..|header| - 1];
        KeyOfValues(header, fill, last);
      }
    }
  }

  lemma HeaderWidth(header: Row)
    requires HeaderOk(header)
    ensures |header| > 1
  {
  }

  lemma WriteIsLine(row: Row)
    requires |row| > 1
    ensures WriteRow(row) == Line(row)
  {
  }

  /** After the prologue the reader is at a record boundary with the old rows intact. */
  lemma PrologueHeals(file: string)
    requires |file| > 0 && Healthy(file)
    ensures BLANK.ReadAll(file + Prologue(file)).mode.StartRecord?
    ensures Parse(file + Prologue(file)) == Parse(file)
    ensures |BLANK.ReadAll(file + Prologue(file)).rows| > 0
    ensures BLANK.ReadAll(file + Prologue(file)).rows[0] == BLANK.ReadAll(file).rows[0] == Parse(file)[0]
  {
    hide Reader.ReadAll, HeaderOk;
    var r := BLANK.ReadAll(file);
    if Torn(file) {
      StartIsEmpty(file);
      ReadAppend(BLANK, file, CRLF);
      ReadCrLf(r);
    } else {
      assert file + "" == file;
      EndsAtBoundary(file);
    }
  }

  // ---------------------------------------------------------------- tears

  /** The data rows of a file, or of the file about to be created. */
  function Rows(file: string): seq<Row>
  {
    if |file| == 0 then [COLS] else Parse(file)
  }

  predicate Sound(file: string) { |file| == 0 || Healthy(file) }

  function Cut(payload: string, io: Io): nat
  {
    if io.written.Some? && io.written.value <= |payload| then io.written.value else |payload|
  }

  /** The write was cut in the data row, outside quotes (or left nothing), and the row was laid out by the
      header of the file. */
  predicate FairIo(file: string, fill: Fill, io: Io)
  {
    var payload := Payload(file, fill, io.headerFails);
    var n := Cut(payload, io);
    && (|file| > 0 ==> Columns(file, io.headerFails) == Columns(file, false))
    && (|file| == 0 ==> n == 0 || n >= |Prologue(file)|)
    && !BLANK.ReadAll(file + payload[..n]).mode.InQuotes?
  }

  /** The row a fair write lays out has the header's width, and the write adds at most that row. */
  lemma WrittenAdds(file: string, fill: Fill, io: Io)
    requires Sound(file) && FairIo(file, fill, io)
    ensures Sound(Written(file, fill, io)) && |Rows(file)| > 0
    ensures Rows(Written(file, fill, io))[0] == Rows(file)[0]
    ensures AddsAtMost(Rows(file), Rows(Written(file, fill, io)), DupKey(fill))
    ensures |NewRow(file, fill, io.headerFails)| == |Rows(file)[0]|
  {
    hide Reader.ReadAll, Reader.Read, WriteRow, HeaderOk, RowKey, DupKey, Values, Payload, Prologue, AddsAtMost;
    var payload := Payload(file, fill, io.headerFails);
    var n := Cut(payload, io);
    HeaderOfRow(file, fill, io);
    AddsNothing(Rows(file), DupKey(fill));
    WrittenIsCut(file, fill, io);
    if !(|file| > 0 && io.tailFails) {
      CutPayloadAdds(file, fill, io.headerFails, n);
    }
  }

  lemma AddsNothing(rows: seq<Row>, k: Key)
    requires |rows| > 0
    ensures AddsAtMost(rows, rows, k)
  {
  }

  lemma WrittenIsCut(file: string, fill: Fill, io: Io)
    ensures var payload := Payload(file, fill, io.headerFails);
            Written(file, fill, io) ==
            if |file| > 0 && io.tailFails then file else file + payload[..Cut(payload, io)]
  {
    hide Payload;
    var payload := Payload(file, fill, io.headerFails);
    assert payload[..|payload|] == payload;
  }

  lemma CutPayloadAdds(file: string, fill: Fill, headerFails: bool, n: nat)
    requires Sound(file) && |Rows(file)| > 0 && HeaderOk(Rows(file)[0])
    requires NewRow(file, fill, headerFails) == Values(Rows(file)[0], fill)
    requires n <= |Payload(file, fill, headerFails)|
    requires |file| == 0 ==> n == 0 || n >= |Prologue(file)|
    requires !BLANK.ReadAll(file + Payload(file, fill, headerFails)[..n]).mode.InQuotes?
    ensures var grown := file + Payload(file, fill, headerFails)[..n];
            Sound(grown) && |Rows(grown)| > 0 && Rows(grown)[0] == Rows(file)[0]
            && AddsAtMost(Rows(file), Rows(grown), DupKey(fill))
  {
    hide Reader.ReadAll, Reader.Read, WriteRow, HeaderOk, RowKey, DupKey, Values;
    var lead, header, row := Prologue(file), Rows(file)[0], NewRow(file, fill, headerFails);
    var payload := Payload(file, fill, headerFails);
    if n == 0 {
      assert file + payload[..0] == file;
    } else if n < |lead| {
      assert file + payload[..1] == file + ['\r'];
      HalfHealed(file);
    } else {
      Boundary(file);
      CutRowAdds(file + lead, header, fill, n - |lead|);
      assert file + payload[..n] == file + lead + WriteRow(row)[..n - |lead|];
    }
  }

  lemma HeaderOfRow(file: string, fill: Fill, io: Io)
    requires Sound(file) && FairIo(file, fill, io)
    ensures |Rows(file)| > 0 && HeaderOk(Rows(file)[0])
    ensures NewRow(file, fill, io.headerFails) == Values(Rows(file)[0], fill)
  {
    hide Reader.ReadAll, Payload, Values;
    ColsAreOk();
  }

  /** Wherever a sound file ends, the prologue leads to a record boundary with the rows as they were. */
  lemma Boundary(file: string)
    requires Sound(file)
    ensures var r := BLANK.ReadAll(file + Prologue(file));
            r.mode.StartRecord? && r.Finish() == Rows(file) && |r.rows| > 0
            && r.rows[0] == Rows(file)[0] && HeaderOk(r.rows[0])
  {
    hide Reader.ReadAll, HeaderOk, WriteRow;
    ColsAreOk();
    if |file| == 0 {
      assert BLANK.ReadAll("") == BLANK by { EmptyReads(BLANK); }
      ReadWritten("", COLS);
      assert "" + WriteRow(COLS) == WriteRow(COLS) == file + Prologue(file);
    } else {
      PrologueHeals(file);
    }
  }

  lemma EmptyReads(r: Reader)
    ensures r.ReadAll("") == r
  {
  }

  lemma HalfHealed(file: string)
    requires |file| > 0 && Healthy(file) && Torn(file)
    ensures Healthy(file + ['\r']) && Parse(file + ['\r']) == Parse(file)
  {
    hide HeaderOk;
    var r := BLANK.ReadAll(file);
    assert (file + ['\r'])[..|file|] == file;
    StartIsEmpty(file);
  }

  // ---------------------------------------------------------------- runs

  datatype Step = Deliver(fill: Fill, io: Io) | Death

  function Next(s: State, step: Step): State
  {
    match step
    case Deliver(fill, io) => Append(s, fill, io)
    case Death => State(s.file, None)
  }

  function Run(s: State, steps: seq<Step>): State
  {
    if |steps| == 0 then s else Next(Run(s, steps[..|steps| - 1]), steps[|steps| - 1])
  }

  predicate FairRun(s: State, steps: seq<Step>)
  {
    |steps| == 0 ||
    (FairRun(s, steps[..|steps| - 1]) &&
     (steps[|steps| - 1].Deliver? ==>
        FairIo(Run(s, steps[..|steps| - 1]).file, steps[|steps| - 1].fill, steps[|steps| - 1].io)))
  }

  /** The cache knows at least every complete row. */
  ghost predicate CacheCovers(s: State)
  {
    var rows := Rows(s.file);
    s.seen.Some? ==> forall i :: Complete(rows, i) ==> RowKey(rows[0], rows[i]) in s.seen.value
  }

  ghost predicate Inv(s: State)
  {
    Sound(s.file) && NoKeyTwice(Rows(s.file)) && CacheCovers(s)
  }

  lemma OneMoreRow(before: seq<Row>, after: seq<Row>, k: Key)
    requires |before| > 0 && AddsAtMost(before, after, k) && after[0] == before[0]
    requires NoKeyTwice(before) && !KeyRecorded(before, k)
    ensures NoKeyTwice(after)
    ensures forall i :: Complete(after, i) ==>
              (Complete(before, i) && after[i] == before[i]) || RowKey(after[0], after[i]) == k
  {
    if after != before {
      forall i | Complete(after, i) && i < |before|
        ensures Complete(before, i) && after[i] == before[i]
      {
        assert after[i] == after[..|before|][i];
      }
    }
  }

  lemma AppendKeeps(s: State, fill: Fill, io: Io)
    requires Inv(s) && FairIo(s.file, fill, io)
    ensures Inv(Append(s, fill, io)) && Rows(s.file) <= Rows(Append(s, fill, io).file)
  {
    hide Sound, FairIo, Written, RowKey, Parse, Keys;
    var k, rows := DupKey(fill), Rows(s.file);
    WrittenAdds(s.file, fill, io);
    CacheLoads(s, k);
    var next := Append(s, fill, io);
    if next.file != s.file {
      OneMoreRow(rows, Rows(next.file), k);
    }
  }

  /** A loaded cache covers the complete rows, and a key it lacks is not recorded. */
  lemma CacheLoads(s: State, k: Key)
    requires CacheCovers(s)
    ensures |s.file| > 0 ==> CacheCovers(State(s.file, Some(Keys(Parse(s.file)))))
    ensures |s.file| == 0 ==> !KeyRecorded(Rows(s.file), k)
    ensures |s.file| > 0 && KeyRecorded(Rows(s.file), k) ==> k in Keys(Parse(s.file))
    ensures s.seen.Some? && KeyRecorded(Rows(s.file), k) ==> k in s.seen.value
  {
    hide RowKey, Parse;
    var rows := Rows(s.file);
    if |s.file| > 0 {
      forall i | Complete(rows, i)
        ensures RowKey(rows[0], rows[i]) in Keys(rows)
      {
        KeysInclude(rows, i);
      }
    }
  }

  /** No run of fills, torn data rows, failing reads and restarts books a fill twice, loses a row it
      has, or lets a fragment run into a later row: the old rows stay as they are, in front. */
  lemma {:induction false} RunsNeverBookTwice(s: State, steps: seq<Step>)
    requires Inv(s) && FairRun(s, steps)
    ensures Inv(Run(s, steps)) && Rows(s.file) <= Rows(Run(s, steps).file)
    ensures NoFillTwice(Rows(Run(s, steps).file))
  {
    hide FairIo, Append, Sound, NoKeyTwice, NoFillTwice, Rows;
    NoFillTwiceExact(Rows(Run(s, steps).file));
    if |steps| > 0 {
      var before, step := Run(s, steps[..|steps| - 1]), steps[|steps| - 1];
      RunsNeverBookTwice(s, steps[..|steps| - 1]);
      if step.Deliver? {
        AppendKeeps(before, step.fill, step.io);
      }
    }
  }

  /** So for every run from an absent ledger: whatever is delivered, replayed, torn or restarted, no two complete rows
      share a key, and the header is the built-in one. */
  lemma NewLedgerNeverBooksTwice(steps: seq<Step>)
    requires FairRun(State("", None), steps)
    ensures var rows := Rows(Run(State("", None), steps).file); NoFillTwice(rows) && |rows| > 0 && rows[0] == COLS
  {
    hide Run, FairRun, NoKeyTwice, NoFillTwice, Sound;
    assert Inv(State("", None)) by { StartsSound(); }
    RunsNeverBookTwice(State("", None), steps);
  }

  /** A ledger starts sound: an absent or empty file with nothing cached. */
  lemma StartsSound()
    ensures Inv(State("", None))
  {
  }

  /** Where no field of the row needs quotes every cut of it is fair, so only a quoted field can take a run outside the
      results above. */
  lemma PlainRowsAreFair(file: string, fill: Fill, io: Io)
    requires Sound(file) && |Rows(file)| > 0 && Columns(file, io.headerFails) == Columns(file, false)
    requires |file| == 0 ==> Cut(Payload(file, fill, io.headerFails), io) >= |Prologue(file)|
    requires forall i :: 0 <= i < |Rows(file)[0]| ==> !NeedsQuotes(Get(fill, Rows(file)[0][i]))
    ensures FairIo(file, fill, io)
  {
    hide Reader.ReadAll, Reader.Read, WriteRow, HeaderOk, NeedsQuotes, Values;
    var payload, lead := Payload(file, fill, io.headerFails), Prologue(file);
    var n := Cut(payload, io);
    Boundary(file);
    RowOfHeader(file, fill, io.headerFails);
    if n < |lead| {
      PartOfProlog(file, n);
      assert file + payload[..n] == file + lead[..n];
    } else {
      assert |Rows(file)[0]| > 1 by { HeaderWidth(Rows(file)[0]); }
      TearExact(file + lead, Rows(file)[0], fill);
      var row := WriteRow(Values(Rows(file)[0], fill));
      assert file + payload[..n] == file + lead + row[..n - |lead|];
    }
  }

  lemma RowOfHeader(file: string, fill: Fill, headerFails: bool)
    requires Sound(file) && |Rows(file)| > 0 && Columns(file, headerFails) == Columns(file, false)
    ensures NewRow(file, fill, headerFails) == Values(Rows(file)[0], fill)
  {
    hide Reader.ReadAll, Values, HeaderOk;
    if |file| > 0 {
      assert |Rows(file)[0]| > 1 by { Boundary(file); HeaderWidth(Rows(file)[0]); }
    }
  }

  /** Half a line end before the row leaves the file outside quotes too. */
  lemma PartOfProlog(file: string, n: nat)
    requires |file| > 0 && Healthy(file) && n < |Prologue(file)|
    ensures !BLANK.ReadAll(file + Prologue(file)[..n]).mode.InQuotes?
  {
    hide HeaderOk, Reader.ReadAll;
    if n == 0 {
      assert file + Prologue(file)[..0] == file;
    } else {
      assert Prologue(file)[..n] == ['\r'];
      HalfHealed(file);
    }
  }

  lemma AppendRefuses(s: State, fill: Fill, io: Io)
    requires CacheCovers(s) && KeyRecorded(Rows(s.file), DupKey(fill))
    ensures Append(s, fill, io).file == s.file && CacheCovers(Append(s, fill, io))
  {
    hide Rows, Written, RowKey, Parse, Keys, CacheCovers;
    CacheLoads(s, DupKey(fill));
  }

  /** Replaying fills the ledger already has as complete rows changes nothing, in any order, over any
      restarts, and whichever reads and writes fail. */
  lemma {:induction false} ReplayChangesNothing(s: State, steps: seq<Step>)
    requires CacheCovers(s)
    requires forall i :: 0 <= i < |steps| && steps[i].Deliver? ==> Recorded(Rows(s.file), steps[i].fill)
    ensures Run(s, steps).file == s.file && CacheCovers(Run(s, steps))
  {
    hide Append, Rows, Recorded, KeyRecorded;
    if |steps| > 0 {
      var init, step := steps[..|steps| - 1], steps[|steps| - 1];
      ReplayChangesNothing(s, init);
      assert Run(s, steps) == Next(Run(s, init), step);
      if step.Deliver? {
        RecordedExact(Rows(s.file), step.fill);
        AppendRefuses(Run(s, init), step.fill, step.io);
      }
    }
  }

  /** What is recorded stays recorded, so a fill replayed at any later time is refused. */
  lemma ReplayLaterChangesNothing(s: State, steps: seq<Step>, fill: Fill, io: Io)
    requires Inv(s) && FairRun(s, steps) && Recorded(Rows(s.file), fill) && |Rows(s.file)| > 0
    ensures Append(Run(s, steps), fill, io).file == Run(s, steps).file
  {
    hide Append, Run, FairRun, Rows, RowKey;
    RunsNeverBookTwice(s, steps);
    RecordedExact(Rows(s.file), fill);
    var before, after := Rows(s.file), Rows(Run(s, steps).file);
    var i :| Complete(before, i) && RowKey(before[0], before[i]) == DupKey(fill);
    assert after[..|before|] == before && after[0] == before[0] && after[i] == before[i];
    AppendRefuses(Run(s, steps), fill, io);
  }

  /** After a restart with readable files a fill is refused exactly when some row on disk, complete or
      torn, reads as its key. */
  lemma RefusedExact(file: string, fill: Fill, io: Io)
    requires |file| > 0 && !io.loadFails && !io.tailFails && io.written.None?
    ensures Append(State(file, None), fill, io).file == file <==> DupKey(fill) in Keys(Parse(file))
  {
    hide Parse, Keys, DupKey, NewRow, Prologue;
    LineIsNotEmpty(NewRow(file, fill, io.headerFails));
  }

  /** The row can be torn after `m` characters of the field at `j`, when that field is written plain. */
  lemma {:induction false} TearInField(r: Reader, row: Row, j: nat, m: nat) returns (n: nat)
    requires Ready(r) && j < |row| && !NeedsQuotes(row[j]) && m <= |row[j]|
    ensures n <= |Line(row)|
    ensures var t := r.ReadAll(Line(row)[..n]);
            t.rows == r.rows && t.fields == r.fields + row[..j] && t.field == row[j][..m]
    ensures !r.ReadAll(Line(row)[..n]).mode.InQuotes?
    decreases row
  {
    hide Quoted;
    if j == 0 {
      n := m;
      assert !NeedsQuotes(row[0][..m]);
      PlainField(row[0]);
      PlainField(row[0][..m]);
      ReadUpTo(r, row[0][..m]);
      assert Line(row)[..m] == row[0][..m];
      assert r.fields + row[..0] == r.fields;
    } else {
      ReadField(r, row[0]);
      var lead, next := Quoted(row[0]) + [','], Reader(r.rows, r.fields + [row[0]], "", StartField);
      var k := TearInField(next, row[1..], j - 1, m);
      n := |lead| + k;
      assert Line(row)[..n] == lead + Line(row[1..])[..k];
      ReadAppend(r, lead, Line(row[1..])[..k]);
      assert next.fields + row[1..][..j - 1] == r.fields + row[..j];
    }
  }

  lemma PlainField(f: string)
    requires !NeedsQuotes(f)
    ensures Quoted(f) == f
  {
  }

  /** The key columns stand up to place `j` and nowhere after, the remaining size last. */
  predicate KeyEndsAt(header: Row, j: nat)
  {
    && j < |header| - 1 && header[j] == "remaining" && "remaining" !in header[..j]
    && (forall c :: c in KEY_COLS ==> c in header[..j + 1] && c !in header[j + 1..])
  }

  lemma {:induction false} CellOfPrefix(header: Row, row: Row, col: string, k: nat)
    requires k <= |header| && col !in header[k..]
    ensures Cell(header, row, col) == Cell(header[..k], row, col)
  {
    var n := |header| - 1;
    if k <= n {
      assert header[k..][n - k] == header[n];
      assert header[..n][k..] == header[k..][..n - k] && header[..n][..k] == header[..k];
      CellOfPrefix(header[..n], row, col, k);
    } else {
      assert header[..k] == header;
    }
  }

  /** A row torn inside its remaining size reads as the key of the fill that has what is left of it. */
  lemma FragmentKey(header: Row, a: Fill, b: Fill, j: nat)
    requires KeyEndsAt(header, j) && b == a["remaining" := Get(b, "remaining")]
    ensures RowKey(header, Values(header, a)[..j] + [Get(b, "remaining")]) == DupKey(b)
  {
    hide Cell;
    var torn, upTo := Values(header, a)[..j] + [Get(b, "remaining")], header[..j + 1];
    forall i | 0 <= i <= j
      ensures torn[i] == Get(b, upTo[i])
    {
      if i < j { assert header[..j][i] == header[i]; }
    }
    assert torn[..|upTo|] == torn == Values(upTo, b);
    forall c | c in KEY_COLS
      ensures Cell(header, torn, c) == Get(b, c)
    {
      CellOfPrefix(header, torn, c, j + 1);
      CellOfValues(upTo, b, torn, c);
    }
    KeyColumns();
  }

  lemma KeyColumns()
    ensures "order_id" in KEY_COLS && "fill_size" in KEY_COLS && "fill_price" in KEY_COLS && "remaining" in KEY_COLS
  {
    assert KEY_COLS[0] == "order_id" && KEY_COLS[1] == "fill_size" && KEY_COLS[2] == "fill_price";
    assert KEY_COLS[3] == "remaining";
  }

  /** How such a row gets there. At a record boundary the next row is torn inside its remaining size, and what
      is left reads as the key of another fill of the order, which is then refused after the restart although
      no complete row was added. */
  lemma FragmentRefuses(file: string, a: Fill, b: Fill, j: nat) returns (n: nat)
    requires |file| > 0 && !Torn(file) && BLANK.ReadAll(file).mode.StartRecord? && |Parse(file)| > 0
    requires KeyEndsAt(Parse(file)[0], j) && b == a["remaining" := Get(b, "remaining")]
    requires !NeedsQuotes(Get(a, "remaining"))
    requires Get(b, "remaining") < Get(a, "remaining")
    ensures FairIo(file, a, GOOD.(written := Some(n)))
    ensures var torn := Written(file, a, GOOD.(written := Some(n)));
            && |Parse(torn)| == |Parse(file)| + 1 && Parse(torn)[..|Parse(file)|] == Parse(file)
            && !Complete(Parse(torn), |Parse(file)|)
            && DupKey(a) != DupKey(b) && Append(State(torn, None), b, GOOD).file == torn
  {
    hide Reader.ReadAll, Reader.Read, NeedsQuotes, RowKey, WriteRow, HeaderOk;
    var header, left := Parse(file)[0], |Get(b, "remaining")|;
    var row := Values(header, a);
    var r := BLANK.ReadAll(file);
    StartIsEmpty(file);
    assert row[j] == Get(a, "remaining") && Get(b, "remaining") == row[j][..left];
    n := TearInField(r, row, j, left);
    WriteIsLine(row);
    var io := GOOD.(written := Some(n));
    PlainPayload(file, a);
    assert Cut(Payload(file, a, false), io) == n;
    WrittenIsCut(file, a, io);
    var torn := Written(file, a, io);
    assert torn == file + Line(row)[..n];
    ReadAppend(BLANK, file, Line(row)[..n]);
    StartIsEmpty(torn);
    assert r.fields + row[..j] == row[..j];
    var fragment := row[..j] + [Get(b, "remaining")];
    assert j > 0 by {
      KeyColumns();
      assert "order_id" in header[..j + 1];
    }
    TornParse(torn, r.rows, fragment);
    FragmentKey(header, a, b, j);
    KeysInclude(Parse(torn), |r.rows|);
    RefusedExact(torn, b, GOOD);
  }

  lemma PlainPayload(file: string, fill: Fill)
    requires |file| > 0 && !Torn(file) && |Parse(file)| > 0 && Parse(file)[0] != []
    ensures Payload(file, fill, false) == WriteRow(Values(Parse(file)[0], fill))
  {
    hide Parse, WriteRow, Values;
  }

  lemma TornParse(torn: string, rows: seq<Row>, fragment: Row)
    requires var t := BLANK.ReadAll(torn); t.rows == rows && t.fields + [t.field] == fragment && !t.mode.StartRecord?
    ensures Parse(torn) == rows + [fragment]
  {
  }

  /** A new ledger meets all of this as soon as its header is on disk. */
  lemma NewLedgerIsOpen()
    ensures var file := WriteRow(COLS);
            && |file| > 0 && !Torn(file) && BLANK.ReadAll(file).mode.StartRecord?
            && Parse(file) == [COLS] && KeyEndsAt(COLS, 14)
  {
    hide Reader.ReadAll, Reader.Read;
    Boundary("");
    assert "" + WriteRow(COLS) == WriteRow(COLS);
    ColsAreOk();
    WriteIsLine(COLS);
    LineEnds(COLS);
    ColsEndAt14();
  }

  /** From an absent file: the first fill dies right after the header, the second try inside its remaining size. */
  function TornRun(a: Fill, n: nat): seq<Step>
  {
    [Deliver(a, GOOD.(written := Some(|WriteRow(COLS)|))), Death, Deliver(a, GOOD.(written := Some(n))), Death]
  }

  /** In that fair run no complete row is ever written, and yet a fill of the order that was never delivered is
      refused for good. */
  lemma RefusedUnseen(a: Fill, b: Fill) returns (n: nat)
    requires b == a["remaining" := Get(b, "remaining")] && Get(b, "remaining") < Get(a, "remaining")
    requires !NeedsQuotes(Get(a, "remaining"))
    ensures var after := Run(State("", None), TornRun(a, n));
            && FairRun(State("", None), TornRun(a, n))
            && (forall i :: !Complete(Parse(after.file), i))
            && DupKey(a) != DupKey(b) && Append(after, b, GOOD).file == after.file
  {
    hide Parse, Reader.ReadAll, Reader.Read, WriteRow, NeedsQuotes, Get, KeyEndsAt, DupKey;
    NewLedgerIsOpen();
    var header := WriteRow(COLS);
    n := FragmentRefuses(header, a, b, 14);
    HeaderOnly(a);
    var start, steps := State("", None), TornRun(a, n);
    assert steps[..3][..2][..1][..0] == [] && steps[..3][..2][..1] == [steps[0]] && steps[..3][..2][1] == Death;
    assert steps[..3][2] == steps[2] && steps[3] == Death;
    RunStep(start, steps);
    RunStep(start, steps[..3]);
    RunStep(start, steps[..3][..2]);
    RunStep(start, steps[..3][..2][..1]);
    assert Run(start, steps[..3][..2]) == State(header, None);
    assert Run(start, steps) == State(Written(header, a, GOOD.(written := Some(n))), None) by {
      AppendNew(a, n);
    }
  }

  /** A first write cut right after the header leaves just that. */
  lemma HeaderOnly(a: Fill)
    ensures var io := GOOD.(written := Some(|WriteRow(COLS)|));
            FairIo("", a, io) && Append(State("", None), a, io).file == WriteRow(COLS)
  {
    hide Parse, Reader.ReadAll, WriteRow, NewRow, DupKey;
    var io := GOOD.(written := Some(|WriteRow(COLS)|));
    var payload := Payload("", a, false);
    assert payload[..|WriteRow(COLS)|] == WriteRow(COLS);
    assert "" + WriteRow(COLS) == WriteRow(COLS);
    NewLedgerIsOpen();
    WrittenIsCut("", a, io);
  }

  lemma AppendNew(a: Fill, n: nat)
    ensures var io := GOOD.(written := Some(n));
            Append(State(WriteRow(COLS), None), a, io).file == Written(WriteRow(COLS), a, io)
  {
    hide Parse, Written, WriteRow, DupKey;
    NewLedgerIsOpen();
  }

  lemma RunStep(s: State, steps: seq<Step>)
    requires |steps| > 0
    ensures var init, step := steps[..|steps| - 1], steps[|steps| - 1];
            && Run(s, steps) == Next(Run(s, init), step)
            && (FairRun(s, steps) <==> FairRun(s, init) &&
                                       (step.Deliver? ==> FairIo(Run(s, init).file, step.fill, step.io)))
  {
  }

  lemma {:induction false} LineEnds(row: Row)
    requires |row| > 0
    ensures |Line(row)| > 0 && Line(row)[|Line(row)| - 1] == '\n'
  {
    if |row| > 1 { LineEnds(row[1..]); }
  }

  lemma ColsEndAt14()
    ensures KeyEndsAt(COLS, 14)
  {
    assert COLS[..15][1] == "order_id" && COLS[..15][9] == "fill_size" && COLS[..15][10] == "fill_price";
    assert COLS[..15][14] == "remaining";
    assert COLS[15..] == ["reason", "exec_era", "book", "decision_fp"];
  }

  lemma LineIsNotEmpty(row: Row)
    requires |row| > 0
    ensures |WriteRow(row)| > 0
  {
  }

  /** Some data row, complete or torn, carries the fill's four entries. */
  ghost predicate ReadsAs(rows: seq<Row>, fill: Fill)
  {
    exists i :: 1 <= i < |rows| && Carries(rows[0], rows[i], fill)
  }

  lemma {:induction false} ReadsAsExact(rows: seq<Row>, fill: Fill)
    ensures ReadsAs(rows, fill) <==> DupKey(fill) in Keys(rows)
  {
    hide RowKey, DupKey, Carries;
    if |rows| > 1 {
      var n := |rows| - 1;
      ReadsAsExact(rows[..n], fill);
      KeysAreCells(rows[0], rows[n], rows[n], fill);
      assert forall i :: 1 <= i < n ==> rows[..n][i] == rows[i];
    }
  }

  /** What a restarted ledger does with a fill, told by the cells. Where no read or write fails and the file does
      not stop inside quotes, the fill is refused exactly when some row on disk agrees with it in order id, size,
      price and remaining size; a fill that differs in any of the four from every row is appended, as one more row
      with the fill's own value under every column. */
  lemma AppendedExact(file: string, fill: Fill)
    requires |file| > 0 && Healthy(file)
    ensures var rows, after := Parse(file), Append(State(file, None), fill, GOOD).file;
            && |rows| > 0
            && (ReadsAs(rows, fill) ==> after == file)
            && (!ReadsAs(rows, fill) ==>
                  && after != file && |Parse(after)| == |rows| + 1 && Parse(after)[..|rows|] == rows
                  && |Parse(after)[|rows|]| == |rows[0]| && Healthy(after)
                  && forall c :: c in rows[0] ==>
                       Cell(rows[0], Parse(after)[|rows|], c) == if c in fill then fill[c] else "")
  {
    hide Reader.ReadAll, Reader.Read, WriteRow, HeaderOk, RowKey, DupKey, Values, Keys, Carries;
    Boundary(file);
    var rows, row := Parse(file), Values(Parse(file)[0], fill);
    HeaderWidth(rows[0]);
    RefusedExact(file, fill, GOOD);
    ReadsAsExact(rows, fill);
    if !ReadsAs(rows, fill) {
      ReadWritten(file + Prologue(file), row);
      assert NewRow(file, fill, false) == row;
      assert file + Payload(file, fill, false) == file + Prologue(file) + WriteRow(row);
      WholeIsHealthy(file + Prologue(file), row);
      forall c | c in rows[0] ensures Cell(rows[0], row, c) == Get(fill, c) {
        assert row[..|rows[0]|] == row;
        CellOfValues(rows[0], fill, row, c);
      }
    }
  }

  lemma WholeIsHealthy(text: string, row: Row)
    requires BLANK.ReadAll(text).mode.StartRecord? && |row| > 0
    requires |BLANK.ReadAll(text).rows| > 0 && HeaderOk(BLANK.ReadAll(text).rows[0])
    ensures Healthy(text + WriteRow(row))
  {
    hide Reader.ReadAll, Reader.Read, WriteRow, HeaderOk;
    ReadWritten(text, row);
  }

  /** Two fills with the same order id, size, price and remaining size. */
  predicate Same(a: Fill, b: Fill)
  {
    && Get(a, "order_id") == Get(b, "order_id") && Get(a, "fill_size") == Get(b, "fill_size")
    && Get(a, "fill_price") == Get(b, "fill_price") && Get(a, "remaining") == Get(b, "remaining")
  }

  /** Attempted is remembered. Once the cache is loaded, a fill is refused from its first attempt on, however little of
      it reached the disk, and the cache forgets nothing. */
  lemma AttemptIsRemembered(s: State, a: Fill, b: Fill, io: Io, later: Io)
    requires Same(a, b) && (s.seen.Some? || |s.file| == 0 || !io.loadFails)
    ensures var t := Append(s, a, io);
            && t.seen.Some? && (s.seen.Some? ==> s.seen.value <= t.seen.value)
            && Append(t, b, later) == t
  {
    hide Keys, Parse, Written;
  }

  /** Without a cache, when the ledger cannot be loaded, the fill is looked up on disk: refused when that read fails too
      or when some row reads as it, written otherwise; and nothing is remembered. */
  lemma UnloadedExact(s: State, fill: Fill, io: Io)
    requires s.seen.None? && |s.file| > 0 && io.loadFails
    ensures Append(s, fill, io) ==
            State(if io.scanFails || ReadsAs(Parse(s.file), fill) then s.file else Written(s.file, fill, io), None)
  {
    hide Keys, Parse, Written;
    ReadsAsExact(Parse(s.file), fill);
  }

  // ---------------------------------------------------------------- the whole file, when nothing fails

  /** The fills delivered, each only the first time. */
  function Firsts(steps: seq<Step>): seq<Fill>
  {
    if |steps| == 0 then []
    else
      var before, step := Firsts(steps[..|steps| - 1]), steps[|steps| - 1];
      if step.Death? || (exists i :: 0 <= i < |before| && Same(before[i], step.fill)) then before
      else before + [step.fill]
  }

  function Lines(fills: seq<Fill>): (rows: seq<Row>)
    ensures |rows| == |fills|
  {
    seq(|fills|, i requires 0 <= i < |fills| => Values(COLS, fills[i]))
  }

  /** The file holds the header and these fills, and the cache, when loaded, their keys. */
  ghost predicate Holds(s: State, fills: seq<Fill>)
  {
    && (|fills| == 0 ==> s.file == "")
    && (|fills| > 0 ==> |s.file| > 0 && Healthy(s.file) && Parse(s.file) == [COLS] + Lines(fills) && !Torn(s.file))
    && (s.seen.Some? ==> forall k :: k in s.seen.value <==> exists i :: 0 <= i < |fills| && DupKey(fills[i]) == k)
  }

  lemma KeysOfLines(fills: seq<Fill>)
    ensures forall k :: k in Keys([COLS] + Lines(fills)) <==> exists i :: 0 <= i < |fills| && DupKey(fills[i]) == k
  {
    hide RowKey, DupKey, Values;
    ColsAreOk();
    if |fills| == 0 {
      assert [COLS] + Lines(fills) == [COLS];
    } else {
      var n := |fills| - 1;
      KeysOfLines(fills[..n]);
      assert ([COLS] + Lines(fills))[..n + 1] == [COLS] + Lines(fills[..n]);
      KeyOfValues(COLS, fills[n], Values(COLS, fills[n]));
    }
  }

  lemma SameIsKey(a: Fill, b: Fill)
    ensures Same(a, b) <==> DupKey(a) == DupKey(b)
  {
  }

  /** One delivery or death of a ledger that holds these fills. */
  lemma HoldsStep(s: State, fills: seq<Fill>, step: Step)
    requires Holds(s, fills) && (step.Deliver? ==> step.io == GOOD)
    ensures Holds(Next(s, step),
              if step.Death? || (exists i :: 0 <= i < |fills| && Same(fills[i], step.fill)) then fills
              else fills + [step.fill])
  {
    hide Reader.ReadAll, Reader.Read, WriteRow, HeaderOk, RowKey, DupKey, Values, Parse, Keys, Same, Written, Healthy;
    if step.Deliver? {
      var fill, k := step.fill, DupKey(step.fill);
      KeysOfLines(fills);
      forall i | 0 <= i < |fills| ensures Same(fills[i], fill) <==> DupKey(fills[i]) == k { SameIsKey(fills[i], fill); }
      if !exists i :: 0 <= i < |fills| && Same(fills[i], fill) {
        WrittenHolds(s.file, fills, fill);
        var grown := fills + [fill];
        assert grown[..|fills|] == fills && grown[|fills|] == fill;
      }
    }
  }

  lemma WrittenHolds(file: string, fills: seq<Fill>, fill: Fill)
    requires |fills| == 0 ==> file == ""
    requires |fills| > 0 ==> |file| > 0 && Healthy(file) && Parse(file) == [COLS] + Lines(fills) && !Torn(file)
    ensures var after := Written(file, fill, GOOD);
            |after| > 0 && Healthy(after) && Parse(after) == [COLS] + Lines(fills + [fill]) && !Torn(after)
  {
    hide Reader.ReadAll, Reader.Read, WriteRow, HeaderOk, Values;
    var text, row := file + Prologue(file), Values(COLS, fill);
    Boundary(file);
    assert Rows(file) == [COLS] + Lines(fills);
    assert NewRow(file, fill, false) == row;
    assert file + Payload(file, fill, false) == text + WriteRow(row);
    ReadWritten(text, row);
    WholeIsHealthy(text, row);
    assert [COLS] + Lines(fills + [fill]) == [COLS] + Lines(fills) + [row];
    WriteEnds(row);
  }

  lemma WriteEnds(row: Row)
    requires |row| > 0
    ensures |WriteRow(row)| > 0 && WriteRow(row)[|WriteRow(row)| - 1] == '\n'
  {
    LineEnds(row);
  }

  /** The file after any run in which no read or write fails, deaths and restarts anywhere: the built-in header, and
      a row for each fill delivered, in order, with the fill's own values, the first time its order id, size, price
      and remaining size come together. Fills that differ in one of the four are all there. */
  lemma {:induction false} FilesHoldTheFirsts(steps: seq<Step>)
    requires forall i :: 0 <= i < |steps| && steps[i].Deliver? ==> steps[i].io == GOOD
    ensures Holds(Run(State("", None), steps), Firsts(steps))
  {
    hide Next, Holds, Same;
    if |steps| == 0 {
      NothingHeld();
    } else {
      FilesHoldTheFirsts(steps[..|steps| - 1]);
      HoldsStep(Run(State("", None), steps[..|steps| - 1]), Firsts(steps[..|steps| - 1]), steps[|steps| - 1]);
    }
  }

  lemma NothingHeld()
    ensures Holds(State("", None), [])
  {
  }

  /** A fill that reaches the disk whole is read back as one more row, and nothing else changes, exactly
      when the file did not stop inside a quoted field. */
  lemma BookedExact(file: string, fill: Fill, headerFails: bool)
    requires |file| > 0 && Torn(file) && |NewRow(file, fill, headerFails)| > 1
    ensures var row := NewRow(file, fill, headerFails);
            Parse(file + Payload(file, fill, headerFails)) == Parse(file) + [row]
            <==> !BLANK.ReadAll(file).mode.InQuotes?
  {
    hide Parse, Reader.ReadAll, NewRow, WriteRow;
    var row := NewRow(file, fill, headerFails);
    HealExact(file, row);
    assert file + Payload(file, fill, headerFails) == file + CRLF + WriteRow(row);
  }

  /** A tear in the data row leaves the file fit for the next one wherever it falls, exactly when no field
      of the row needs quotes. */
  lemma TearExact(file: string, header: Row, fill: Fill)
    requires BLANK.ReadAll(file).mode.StartRecord? && |header| > 1
    ensures (forall n :: 0 <= n <= |WriteRow(Values(header, fill))|
              ==> !BLANK.ReadAll(file + WriteRow(Values(header, fill))[..n]).mode.InQuotes?)
            <==> forall i :: 0 <= i < |header| ==> !NeedsQuotes(Get(fill, header[i]))
  {
    hide Reader.ReadAll, Reader.Read, NeedsQuotes, WriteRow;
    var r, row := BLANK.ReadAll(file), Values(header, fill);
    StartIsEmpty(file);
    WriteIsLine(row);
    assert forall i :: 0 <= i < |header| ==> row[i] == Get(fill, header[i]);
    if forall i :: 0 <= i < |row| ==> !NeedsQuotes(row[i]) {
      forall i | 0 <= i < |header|
        ensures !NeedsQuotes(Get(fill, header[i]))
      {
        assert !NeedsQuotes(row[i]);
      }
      forall n | 0 <= n <= |WriteRow(row)|
        ensures !BLANK.ReadAll(file + WriteRow(row)[..n]).mode.InQuotes?
      {
        var j := CutLine(r, row, n);
        ReadAppend(BLANK, file, WriteRow(row)[..n]);
      }
    } else {
      var i :| 0 <= i < |row| && NeedsQuotes(row[i]);
      var n := TearInQuotes(r, row, i);
      ReadAppend(BLANK, file, WriteRow(row)[..n]);
      assert NeedsQuotes(Get(fill, header[i]));
    }
  }

  lemma {:induction false} TearInQuotes(r: Reader, row: Row, i: nat) returns (n: nat)
    requires Ready(r) && i < |row| && NeedsQuotes(row[i])
    ensures n <= |Line(row)| && r.ReadAll(Line(row)[..n]).mode.InQuotes?
    decreases row
  {
    hide NeedsQuotes;
    if i == 0 {
      n := 1;
      assert Line(row)[..1] == ['"'] && ['"'][..0] == "";
      assert r.ReadAll(['"']) == r.Read('"');
    } else {
      ReadField(r, row[0]);
      var lead, next := Quoted(row[0]) + [','], Reader(r.rows, r.fields + [row[0]], "", StartField);
      var k := TearInQuotes(next, row[1..], i - 1);
      n := |lead| + k;
      assert Line(row)[..n] == lead + Line(row[1..])[..k];
      ReadAppend(r, lead, Line(row[1..])[..k]);
    }
  }
}
