/** The money side of `_handle_fill` in main.py: averaging entries, splitting an order's cumulative fees
    over its fills, draining the entry-fee pool as a position is closed, and settling cash. */
module FillAccounting {
  import opened Prelude

  datatype Purpose = Entry | Hedge | Exit

  /** What identifies an order: its purpose, side and position never change over its life. */
  datatype Order = Order(id: int, purpose: Purpose, buy: bool, position: int)

  /** One fill event. `fees` is the order's cumulative `fees_usd` when the event is handled, which the venue
      may restate in either direction; `refused` is the provenance gate's verdict on a simulated fill. */
  datatype Fill = Fill(order: Order, size: real, price: real, fees: real, refused: bool)

  datatype Position = Position(long: bool, entry: real, size: real, original: real, pool: real) {
    function Sign(): (s: real) ensures s == 1.0 || s == -1.0 { if long then 1.0 else -1.0 }
  }

  datatype Closed = Closed(position: int, net: real)

  datatype Book = Book(positions: map<int, Position>, realized: map<int, real>,
                       seen: map<Order, real>, booked: map<Order, real>,
                       cash: real, feesTotal: real, closed: seq<Closed>)

  function Get<K>(m: map<K, real>, k: K): real { if k in m then m[k] else 0.0 }

  function Opens(order: Order): bool { order.purpose != Exit }

  /** The fill reaches the accounting: not refused, not a dust event, and an exit has its position. */
  predicate Counts(b: Book, f: Fill)
  {
    !f.refused && f.size > EPS && (Opens(f.order) || f.order.position in b.positions)
  }

  function Grown(p: Position, f: Fill): Position
    requires p.size + f.size != 0.0
  {
    var total := p.size + f.size;
    p.(entry := (p.entry * p.size + f.price * f.size) / total, size := total, original := Max(p.original, total))
  }

  function Share(p: Position, size: real): real
  {
    if p.size > EPS && p.pool > 0.0 then p.pool * Min(size / p.size, 1.0) else 0.0
  }

  function Shrunk(p: Position, size: real): Position
  {
    p.(pool := p.pool - Share(p, size), size := Max(p.size - size, 0.0))
  }

  predicate Finished(p: Position) { p.size <= p.original * DUST || p.size <= EPS }

  function Gross(p: Position, f: Fill): real { p.Sign() * (f.price - p.entry) * f.size }

  /** The fee the fill adds to its position: what the order has cost since its previous fill. */
  function FeeSeen(b: Book, f: Fill): real { f.fees - Get(b.seen, f.order) }

  function AfterEntry(b: Book, f: Fill): Book
    requires f.order.position in b.positions ==> b.positions[f.order.position].size + f.size != 0.0
  {
    var id := f.order.position;
    var p := if id in b.positions then Grown(b.positions[id], f)
             else Position(f.order.buy, f.price, f.size, f.size, 0.0);
    var due := f.fees - Get(b.booked, f.order);
    b.(positions := b.positions[id := p.(pool := p.pool + FeeSeen(b, f))],
       seen := b.seen[f.order := f.fees],
       booked := b.booked[f.order := f.fees],
       feesTotal := b.feesTotal + due,
       cash := b.cash - due)
  }

  function ExitNet(b: Book, f: Fill): real
    requires f.order.position in b.positions
  {
    Gross(b.positions[f.order.position], f) - FeeSeen(b, f)
  }

  /** The position's accumulated result after the exit fill. */
  function Accrued(b: Book, f: Fill): real
    requires f.order.position in b.positions
  {
    Get(b.realized, f.order.position) + (ExitNet(b, f) - Share(b.positions[f.order.position], f.size))
  }

  function AfterExit(b: Book, f: Fill): Book
    requires f.order.position in b.positions
  {
    var id := f.order.position;
    var p := Shrunk(b.positions[id], f.size);
    var c := b.(seen := b.seen[f.order := f.fees],
                feesTotal := b.feesTotal + FeeSeen(b, f),
                cash := b.cash + ExitNet(b, f));
    if Finished(p)
    then c.(positions := b.positions - {id}, realized := b.realized - {id},
            closed := b.closed + [Closed(id, Accrued(b, f))])
    else c.(positions := b.positions[id := p], realized := b.realized[id := Accrued(b, f)])
  }

  /** Open positions are larger than dust, and only they carry a result. */
  predicate Valid(b: Book)
  {
    && (forall id :: id in b.positions ==> b.positions[id].size > EPS)
    && (forall id :: id in b.realized ==> id in b.positions)
    && (forall o :: o in b.booked ==> Opens(o) && o in b.seen && b.booked[o] == b.seen[o])
    && (forall o :: o in b.seen && Opens(o) ==> o in b.booked)
  }

  function Handled(b: Book, f: Fill): Book
    requires Valid(b)
  {
    if !Counts(b, f) then b else if Opens(f.order) then AfterEntry(b, f) else AfterExit(b, f)
  }

  class Engine {
    var positions: map<int, Position>
    var posRealized: map<int, real>
    var feesSeen: map<Order, real>
    var feesBooked: map<Order, real>
    var cash: real
    var feesTotal: real
    var closed: seq<Closed>

    ghost function Now(): Book
      reads this
    {
      Book(positions, posRealized, feesSeen, feesBooked, cash, feesTotal, closed)
    }

    constructor (funds: real)
      ensures Now() == Book(map[], map[], map[], map[], funds, 0.0, []) && Valid(Now())
    {
      positions, posRealized, feesSeen, feesBooked := map[], map[], map[], map[];
      cash, feesTotal, closed := funds, 0.0, [];
    }

    method HandleEntry(f: Fill)
      requires Valid(Now()) && Counts(Now(), f) && Opens(f.order)
      modifies this
      ensures Now() == AfterEntry(old(Now()), f)
    {
      hide Max;
      var id := f.order.position;
      var p;
      if id !in positions {
        p := Position(f.order.buy, f.price, f.size, f.size, 0.0);
      } else {
        p := positions[id];
        var total := p.size + f.size;
        p := p.(entry := (p.entry * p.size + f.price * f.size) / total);
        p := p.(size := total, original := Max(p.original, total));
        assert p == Grown(old(positions)[id], f);
      }
      var seenDelta := f.fees - Get(feesSeen, f.order);
      positions := positions[id := p.(pool := p.pool + seenDelta)];
      feesSeen := feesSeen[f.order := f.fees];
      var bookedDelta := f.fees - Get(feesBooked, f.order);
      feesTotal := feesTotal + bookedDelta;
      cash := cash - bookedDelta;
      feesBooked := feesBooked[f.order := f.fees];
    }

    method HandleExit(f: Fill)
      requires Valid(Now()) && Counts(Now(), f) && !Opens(f.order)
      modifies this
      ensures Now() == AfterExit(old(Now()), f)
    {
      hide Max, Min, Valid, Get;
      var id := f.order.position;
      var p := positions[id];
      var feeDelta := f.fees - Get(feesSeen, f.order);
      feesSeen := feesSeen[f.order := f.fees];
      var gross := p.Sign() * (f.price - p.entry) * f.size;
      var net := gross - feeDelta;
      var share := 0.0;
      if p.size > EPS && p.pool > 0.0 {
        share := p.pool * Min(f.size / p.size, 1.0);
        p := p.(pool := p.pool - share);
      }
      assert share == Share(old(positions)[id], f.size) && gross == Gross(old(positions)[id], f);
      p := p.(size := Max(p.size - f.size, 0.0));
      feesTotal := feesTotal + feeDelta;
      cash := cash + net;
      var total := Get(posRealized, id) + (net - share);
      assert p == Shrunk(old(positions)[id], f.size);
      if p.size <= p.original * DUST || p.size <= EPS {
        posRealized := posRealized - {id};
        positions := positions - {id};
        closed := closed + [Closed(id, total)];
      } else {
        posRealized := posRealized[id := total];
        positions := positions[id := p];
      }
    }

    method HandleFill(f: Fill)
      requires Valid(Now())
      modifies this
      ensures Now() == Handled(old(Now()), f) && Valid(Now())
    {
      hide Valid, AfterEntry, AfterExit;
      HandledValid(Now(), f);
      if f.refused || f.size <= EPS { return; }
      if f.order.purpose != Exit {
        HandleEntry(f);
      } else {
        if f.order.position !in positions { return; }
        HandleExit(f);
      }
    }
  }

  lemma HandledValid(b: Book, f: Fill)
    requires Valid(b)
    ensures Valid(Handled(b, f))
  {
  }

  // ---------------------------------------------------------------- what the fills of a position add up to

  /** The fills of one position since it was opened, added up directly: notionals, fees, and the cash they
      moved. */
  datatype Tally = Tally(entries: real, exits: real, entryFees: real, exitFees: real, cash: real)

  const NOTHING: Tally := Tally(0.0, 0.0, 0.0, 0.0, 0.0)

  function Counted(b: Book, t: Tally, f: Fill): Tally
    requires Valid(b)
  {
    if Opens(f.order) then
      t.(entries := t.entries + f.price * f.size, entryFees := t.entryFees + FeeSeen(b, f),
         cash := t.cash - FeeSeen(b, f))
    else if f.order.position !in b.positions then t
    else
      var p := b.positions[f.order.position];
      t.(exits := t.exits + f.price * f.size, exitFees := t.exitFees + FeeSeen(b, f),
         cash := t.cash + (Gross(p, f) - FeeSeen(b, f)))
  }

  function Run(b: Book, fills: seq<Fill>): (r: Book)
    requires Valid(b)
    ensures Valid(r)
  {
    if |fills| == 0 then b
    else
      var before := Run(b, fills[..|fills| - 1]);
      HandledValid(before, fills[|fills| - 1]);
      Handled(before, fills[|fills| - 1])
  }

  /** The tally of the latest life of position `id`: it restarts when the position is opened. */
  function Account(b: Book, fills: seq<Fill>, id: int): Tally
    requires Valid(b)
  {
    if |fills| == 0 then NOTHING
    else
      var before, f := Run(b, fills[..|fills| - 1]), fills[|fills| - 1];
      var t := Account(b, fills[..|fills| - 1], id);
      if f.order.position != id || !Counts(before, f) then t
      else Counted(before, if id in before.positions then t else NOTHING, f)
  }

  /** What a position's fills have earned, its open part valued at its entry price: the signed difference of
      exit and entry value, less the exit fees and the entry fees drained from the pool. */
  function Earned(p: Position, t: Tally): real
  {
    p.Sign() * (t.exits - t.entries + Times(p.size, p.entry)) - t.exitFees - (t.entryFees - p.pool)
  }

  /** The true result of a closed position, every fee counted. */
  function TrueNet(p: Position, t: Tally): real
  {
    p.Sign() * (t.exits - t.entries) - t.exitFees - t.entryFees
  }

  /** The accrued result is what the fills earned, and cash has moved by it less the fees still pooled. */
  predicate Balanced(p: Position, result: real, t: Tally)
  {
    result == Earned(p, t) && t.cash == result - p.pool
  }

  lemma Averaged(p: Position, f: Fill)
    requires p.size + f.size > 0.0
    ensures Times(Grown(p, f).size, Grown(p, f).entry) == Times(p.size, p.entry) + f.price * f.size
  {
    var total, value := p.size + f.size, p.entry * p.size + f.price * f.size;
    assert total * (value / total) == value;
  }

  /** How far an exit fill goes beyond the position. */
  function Beyond(p: Position, size: real): real { Max(size - p.size, 0.0) }

  lemma ExitValue(p: Position, f: Fill)
    ensures var sold := f.price * f.size + Times(Shrunk(p, f.size).size, p.entry)
                       - Times(p.size, p.entry) - Times(Beyond(p, f.size), p.entry);
            Gross(p, f) == if p.long then sold else -sold
  {
    var left := Shrunk(p, f.size).size;
    assert left - p.size - Beyond(p, f.size) == -f.size;
    assert Times(left, p.entry) - Times(p.size, p.entry) - Times(Beyond(p, f.size), p.entry)
        == (left - p.size - Beyond(p, f.size)) * p.entry;
    assert (f.price - p.entry) * f.size == f.price * f.size - f.size * p.entry;
    if p.long {
      assert Gross(p, f) == (f.price - p.entry) * f.size;
    } else {
      assert Gross(p, f) == -((f.price - p.entry) * f.size) by { Negated(f.price - p.entry, f.size); }
    }
  }

  lemma Negated(a: real, b: real)
    ensures -1.0 * a * b == -(a * b)
  {
  }

  lemma TimesIs(a: real, b: real)
    ensures Times(a, b) == b * a
  {
  }

  lemma EntryKeepsBalance(b: Book, f: Fill, t: Tally)
    requires Valid(b) && Counts(b, f) && Opens(f.order)
    requires f.order.position in b.positions ==>
             Balanced(b.positions[f.order.position], Get(b.realized, f.order.position), t)
    ensures var c, id := Handled(b, f), f.order.position;
            Balanced(c.positions[id], Get(c.realized, id), Counted(b, if id in b.positions then t else NOTHING, f))
  {
    hide Times;
    var id := f.order.position;
    if id in b.positions {
      Averaged(b.positions[id], f);
    } else {
      TimesIs(f.size, f.price);
    }
  }

  /** What an exit fill adds to a balanced position: it stays balanced, but for the entry value of what the
      fill sold beyond the position. */
  lemma ExitKeepsBalance(b: Book, f: Fill, t: Tally)
    requires Valid(b) && Counts(b, f) && !Opens(f.order)
    requires Balanced(b.positions[f.order.position], Get(b.realized, f.order.position), t)
    ensures var p, u := b.positions[f.order.position], Counted(b, t, f);
            var left := Shrunk(p, f.size);
            && Accrued(b, f) == Earned(left, u) - p.Sign() * Times(Beyond(p, f.size), p.entry)
            && u.cash == Accrued(b, f) - left.pool
  {
    hide Times, Gross, Share, Get, Beyond;
    ExitValue(b.positions[f.order.position], f);
    if b.positions[f.order.position].long {} else {}
  }

  /** Conservation. For any interleaving of entry and exit fills, of any orders and positions, the result
      accrued for an open position is what its own fills earned, and cash moved by that less the fees still
      pooled. */
  lemma {:induction false} ConservationHolds(b: Book, fills: seq<Fill>, id: int)
    requires Valid(b) && id !in b.positions
    ensures var r := Run(b, fills);
            id in r.positions ==> Balanced(r.positions[id], Get(r.realized, id), Account(b, fills, id))
  {
    hide Balanced, AfterEntry, AfterExit, Valid, Counted;
    if |fills| > 0 {
      var before, f := Run(b, fills[..|fills| - 1]), fills[|fills| - 1];
      ConservationHolds(b, fills[..|fills| - 1], id);
      if f.order.position != id {
        OthersUntouched(before, f, id);
      } else if Counts(before, f) {
        if Opens(f.order) {
          EntryKeepsBalance(before, f, Account(b, fills[..|fills| - 1], id));
        } else {
          OpenAfterExit(before, f, Account(b, fills[..|fills| - 1], id));
        }
      }
    }
  }

  lemma OthersUntouched(b: Book, f: Fill, id: int)
    requires Valid(b) && f.order.position != id
    ensures var c := Handled(b, f);
            && (id in c.positions <==> id in b.positions) && (id in b.positions ==> c.positions[id] == b.positions[id])
            && Get(c.realized, id) == Get(b.realized, id)
  {
  }

  /** A position still open after an exit fill was not oversold. */
  lemma OpenAfterExit(b: Book, f: Fill, t: Tally)
    requires Valid(b) && Counts(b, f) && !Opens(f.order)
    requires Balanced(b.positions[f.order.position], Get(b.realized, f.order.position), t)
    ensures var c, id := Handled(b, f), f.order.position;
            id in c.positions ==> Balanced(c.positions[id], Get(c.realized, id), Counted(b, t, f))
  {
    hide Counted, Earned, Accrued, Share;
    ExitKeepsBalance(b, f, t);
    assert Times(0.0, b.positions[f.order.position].entry) == 0.0;
  }

  /** The fill that ends a position, flat or as dust, reports a result and closes it. The report is off the true
      net of all fees by the fees still pooled and by the entry value of what was sold beyond the position, or
      not sold, and exactly when the two cancel it is the true net; in cash the trade made the report less the
      fees still pooled. At a flat close that means: no unpaid rebate in the pool, and nothing oversold. */
  lemma CloseExact(b: Book, fills: seq<Fill>, f: Fill)
    requires Valid(b) && f.order.position !in b.positions
    requires var r := Run(b, fills);
             Counts(r, f) && !Opens(f.order) && Finished(Shrunk(r.positions[f.order.position], f.size))
    ensures var r, id := Run(b, fills), f.order.position;
            var p, t, report := r.positions[id], Account(b, fills + [f], id), Accrued(r, f);
            var pooled, beyond := Shrunk(p, f.size).pool, p.Sign() * Times(f.size - p.size, p.entry);
            && Handled(r, f).closed == r.closed + [Closed(id, report)] && id !in Handled(r, f).positions
            && report == TrueNet(p, t) + pooled - beyond && t.cash == report - pooled
            && (f.size >= p.size ==> pooled == Min(p.pool, 0.0))
            && (f.size == p.size ==> (report == TrueNet(p, t) <==> p.pool >= 0.0))
            && (f.size >= p.size && p.pool >= 0.0 && p.entry > 0.0 ==> (report == TrueNet(p, t) <==> f.size == p.size))
  {
    hide Accrued, Counted, Run, Account, Share, Balanced, Times;
    var r, id := Run(b, fills), f.order.position;
    var p, left := r.positions[id], Shrunk(r.positions[id], f.size);
    ConservationHolds(b, fills, id);
    assert (fills + [f])[..|fills|] == fills;
    AccountStep(b, fills, f, id);
    ExitKeepsBalance(r, f, Account(b, fills, id));
    BeyondOrLeft(p, f.size);
    if f.size >= p.size { DrainedAtFlat(p, f.size); }
    if p.entry > 0.0 && f.size > p.size { PositiveTimes(f.size - p.size, p.entry); }
  }

  /** What is left of the position and what was sold beyond it are the two sides of one difference. */
  lemma BeyondOrLeft(p: Position, size: real)
    ensures Times(Shrunk(p, size).size, p.entry) - Times(Beyond(p, size), p.entry) == -Times(size - p.size, p.entry)
    ensures size == p.size ==> Times(size - p.size, p.entry) == 0.0
  {
    var left, beyond := Shrunk(p, size).size, Beyond(p, size);
    assert left - beyond == -(size - p.size);
    assert left * p.entry - beyond * p.entry == (left - beyond) * p.entry;
  }

  lemma AccountStep(b: Book, fills: seq<Fill>, f: Fill, id: int)
    requires Valid(b) && f.order.position == id && Counts(Run(b, fills), f) && id in Run(b, fills).positions
    ensures Account(b, fills + [f], id) == Counted(Run(b, fills), Account(b, fills, id), f)
  {
    assert (fills + [f])[..|fills|] == fills;
  }

  /** A full exit drains a positive pool whole, and leaves a negative one. */
  lemma DrainedAtFlat(p: Position, size: real)
    requires p.size > EPS && size >= p.size
    ensures Shrunk(p, size).size == 0.0 && Shrunk(p, size).pool == Min(p.pool, 0.0)
  {
    assert size / p.size >= 1.0;
  }

  // ---------------------------------------------------------------- fees

  /** What the fills of one order add to the fees booked, and what the order cost when last handled. */
  function Charged(b: Book, fills: seq<Fill>, o: Order): real
    requires Valid(b)
  {
    if |fills| == 0 then 0.0
    else
      var before, f := Run(b, fills[..|fills| - 1]), fills[|fills| - 1];
      Charged(b, fills[..|fills| - 1], o) +
      if f.order == o then Handled(before, f).feesTotal - before.feesTotal else 0.0
  }

  function LastCost(b: Book, fills: seq<Fill>, o: Order): real
    requires Valid(b)
  {
    if |fills| == 0 then Get(b.seen, o)
    else
      var before, f := Run(b, fills[..|fills| - 1]), fills[|fills| - 1];
      if f.order == o && Counts(before, f) then f.fees else LastCost(b, fills[..|fills| - 1], o)
  }

  /** Every order's fees are booked once, however its fills are split and interleaved with others and however
      often the venue restates them. */
  lemma {:induction false} FeesCountedOnce(b: Book, fills: seq<Fill>, o: Order)
    requires Valid(b)
    ensures Charged(b, fills, o) == LastCost(b, fills, o) - Get(b.seen, o)
    ensures Get(Run(b, fills).seen, o) == LastCost(b, fills, o)
  {
    hide AfterEntry, AfterExit, Valid;
    if |fills| > 0 {
      FeesCountedOnce(b, fills[..|fills| - 1], o);
      ChargeStep(Run(b, fills[..|fills| - 1]), fills[|fills| - 1], o);
    }
  }

  lemma ChargeStep(b: Book, f: Fill, o: Order)
    requires Valid(b)
    ensures var c := Handled(b, f);
            && Get(c.seen, o) == (if Counts(b, f) && f.order == o then f.fees else Get(b.seen, o))
            && (f.order == o ==> c.feesTotal - b.feesTotal == Get(c.seen, o) - Get(b.seen, o))
  {
  }

  // ---------------------------------------------------------------- told from the fills alone

  /** An open position as its fills tell it: the side of the order that opened it, its size and largest size, the
      value and the fees of its entries and exits. */
  datatype Leg = Leg(bought: bool, size: real, original: real, entries: real, exits: real, fees: real)

  /** The fill takes effect after those before it: not refused, not dust, and no exit of a position that is closed. */
  predicate Effective(before: seq<Fill>, f: Fill)
    decreases |before|, 2
  {
    !f.refused && f.size > EPS && (f.order.purpose == Exit ==> LegOf(before, f.order.position).Some?)
  }

  /** What the order had cost at its last effective fill. */
  function CostSoFar(fills: seq<Fill>, o: Order): real
    decreases |fills|, 0
  {
    if |fills| == 0 then 0.0
    else
      var init, f := fills[..|fills| - 1], fills[|fills| - 1];
      if f.order == o && Effective(init, f) then f.fees else CostSoFar(init, o)
  }

  /** The position `id` after these fills, None when it is closed: flat, or down to dust. */
  function LegOf(fills: seq<Fill>, id: int): Option<Leg>
    decreases |fills|, 0
  {
    if |fills| == 0 then None
    else
      var init, f := fills[..|fills| - 1], fills[|fills| - 1];
      var open := LegOf(init, id);
      if f.order.position != id || !Effective(init, f) then open else Moved(open, f, f.fees - CostSoFar(init, f.order))
  }

  function Moved(open: Option<Leg>, f: Fill, fee: real): Option<Leg>
  {
    match open
    case None =>
      if f.order.purpose == Exit then None else Some(Leg(f.order.buy, f.size, f.size, f.size * f.price, 0.0, fee))
    case Some(leg) =>
      if f.order.purpose == Exit then
        var left := leg.size - f.size;
        if left <= leg.original * 0.0001 || left <= EPS then None
        else Some(leg.(size := left, exits := leg.exits + f.size * f.price, fees := leg.fees + fee))
      else
        var size := leg.size + f.size;
        Some(leg.(size := size, original := if size > leg.original then size else leg.original,
                  entries := leg.entries + f.size * f.price, fees := leg.fees + fee))
  }

  function Fresh(funds: real): Book { Book(map[], map[], map[], map[], funds, 0.0, []) }

  /** The book holds for a position what its fills tell. */
  ghost predicate Tells(b: Book, t: Tally, leg: Option<Leg>, id: int)
  {
    && (id in b.positions <==> leg.Some?)
    && (leg.Some? ==>
          var p := b.positions[id];
          && p.long == leg.value.bought && p.size == leg.value.size && p.original == leg.value.original > 0.0
          && t.entries == leg.value.entries && t.exits == leg.value.exits
          && t.entryFees + t.exitFees == leg.value.fees)
  }

  lemma EffectiveCounts(b: Book, before: seq<Fill>, f: Fill)
    requires f.order.position in b.positions <==> LegOf(before, f.order.position).Some?
    ensures Counts(b, f) <==> Effective(before, f)
  {
  }

  /** One fill that takes effect moves position and tale alike. */
  lemma MovedAlike(b: Book, t: Tally, leg: Option<Leg>, f: Fill)
    requires Valid(b) && Counts(b, f) && Tells(b, t, leg, f.order.position)
    ensures var id := f.order.position;
            Tells(Handled(b, f), Counted(b, if id in b.positions then t else NOTHING, f),
                  Moved(leg, f, FeeSeen(b, f)), id)
  {
    hide Share, Gross, Get;
  }

  /** After every run from a fresh book each position is open exactly when its fills say so, on the side of the order
      that opened it, with the size, values and fees they add up to; and each order's fee mark is what it cost at
      its last effective fill. */
  lemma {:induction false} BookTellsTheFills(funds: real, fills: seq<Fill>)
    ensures Valid(Fresh(funds))
    ensures forall id :: Tells(Run(Fresh(funds), fills), Account(Fresh(funds), fills, id), LegOf(fills, id), id)
    ensures forall o :: Get(Run(Fresh(funds), fills).seen, o) == CostSoFar(fills, o)
  {
    var b := Fresh(funds);
    if |fills| > 0 {
      hide Moved, Handled, Valid, Tells, Counts;
      var init, f := fills[..|fills| - 1], fills[|fills| - 1];
      BookTellsTheFills(funds, init);
      var before := Run(b, init);
      TellsOpen(before, Account(b, init, f.order.position), LegOf(init, f.order.position), f.order.position);
      EffectiveCounts(before, init, f);
      forall id
        ensures Tells(Run(b, fills), Account(b, fills, id), LegOf(fills, id), id)
      {
        if !Counts(before, f) {
          NotCounted(before, f);
        } else if f.order.position == id {
          MovedAlike(before, Account(b, init, id), LegOf(init, id), f);
        } else {
          OthersUntouched(before, f, id);
          SameTale(before, Handled(before, f), Account(b, init, id), LegOf(init, id), id);
        }
      }
      forall o
        ensures Get(Run(b, fills).seen, o) == CostSoFar(fills, o)
      {
        ChargeStep(before, f, o);
      }
    }
  }

  lemma NotCounted(b: Book, f: Fill)
    requires Valid(b) && !Counts(b, f)
    ensures Handled(b, f) == b
  {
  }

  lemma TellsOpen(b: Book, t: Tally, leg: Option<Leg>, id: int)
    requires Tells(b, t, leg, id)
    ensures id in b.positions <==> leg.Some?
    ensures leg.Some? ==>
              && b.positions[id].size == leg.value.size && b.positions[id].long == leg.value.bought
              && t.entries == leg.value.entries && t.exits == leg.value.exits
              && t.entryFees + t.exitFees == leg.value.fees
  {
  }

  lemma SameTale(b: Book, c: Book, t: Tally, leg: Option<Leg>, id: int)
    requires Tells(b, t, leg, id)
    requires (id in c.positions <==> id in b.positions) && (id in b.positions ==> c.positions[id] == b.positions[id])
    ensures Tells(c, t, leg, id)
  {
  }

  /** What a trade earned before fees: the value of its exits less that of its entries if the opening order bought, and
      the other way round if it sold. */
  function Profit(bought: bool, entries: real, exits: real): real
  {
    if bought then exits - entries else entries - exits
  }

  /** The flat close, told from the fills alone. After any run from a fresh book the exit fill that sells a position to
      the last unit reports exactly what its fills earned less every fee of its orders, up to a rebate still in
      the pool; a position bought at 100 and sold at 110 has made ten a unit, one sold and bought back has lost
      it. */
  lemma FlatCloseTold(funds: real, fills: seq<Fill>, f: Fill)
    requires Valid(Fresh(funds)) && f.order.purpose == Exit && Effective(fills, f)
    requires f.size == LegOf(fills, f.order.position).value.size
    ensures var id := f.order.position;
            var leg, r := LegOf(fills, id).value, Run(Fresh(funds), fills);
            var fees := leg.fees + (f.fees - CostSoFar(fills, f.order));
            && id in r.positions
            && Run(Fresh(funds), fills + [f]).closed == r.closed +
                 [Closed(id, Profit(leg.bought, leg.entries, leg.exits + f.size * f.price) - fees +
                             Min(r.positions[id].pool, 0.0))]
            && LegOf(fills + [f], id).None? && id !in Run(Fresh(funds), fills + [f]).positions
  {
    hide Moved, Handled, Counted, Tells, Counts, Run, Account, Accrued, Effective, TrueNet;
    var b, id := Fresh(funds), f.order.position;
    BookTellsTheFills(funds, fills);
    var r := Run(b, fills);
    TellsOpen(r, Account(b, fills, id), LegOf(fills, id), id);
    EffectiveCounts(r, fills, f);
    assert LegOf(fills, id).Some? by { assert Effective(fills, f); EffectiveOpen(fills, f); }
    FlatFinishes(r.positions[id]);
    CloseExact(b, fills, f);
    RunThen(b, fills, f);
    AccountStep(b, fills, f, id);
    FlatNet(r, Account(b, fills, id), f);
    BookTellsTheFills(funds, fills + [f]);
    TellsOpen(Run(b, fills + [f]), Account(b, fills + [f], id), LegOf(fills + [f], id), id);
    assert Times(f.size - r.positions[id].size, r.positions[id].entry) == 0.0;
  }

  lemma EffectiveOpen(fills: seq<Fill>, f: Fill)
    requires Effective(fills, f) && f.order.purpose == Exit
    ensures LegOf(fills, f.order.position).Some?
  {
  }

  lemma RunThen(b: Book, fills: seq<Fill>, f: Fill)
    requires Valid(b)
    ensures Run(b, fills + [f]) == Handled(Run(b, fills), f)
  {
    assert (fills + [f])[..|fills|] == fills;
  }

  lemma FlatFinishes(p: Position)
    ensures Finished(Shrunk(p, p.size))
  {
  }

  lemma FlatNet(b: Book, t: Tally, f: Fill)
    requires Valid(b) && Counts(b, f) && !Opens(f.order)
    ensures var p, u := b.positions[f.order.position], Counted(b, t, f);
            TrueNet(p, u)
            == Profit(p.long, t.entries, t.exits + f.size * f.price) - t.entryFees - t.exitFees - FeeSeen(b, f)
  {
    hide Gross;
  }

  // ---------------------------------------------------------------- cash over all positions

  /** Distinct ids. */
  predicate Different(ids: seq<int>) { forall i, j :: 0 <= i < j < |ids| ==> ids[i] != ids[j] }

  /** What an open position has accrued, less the fees still pooled. */
  function Part(b: Book, id: int): real
  {
    if id in b.positions then Get(b.realized, id) - b.positions[id].pool else 0.0
  }

  function OpenValue(b: Book, ids: seq<int>): real
  {
    if |ids| == 0 then 0.0 else OpenValue(b, ids[..|ids| - 1]) + Part(b, ids[|ids| - 1])
  }

  function Reported(closed: seq<Closed>): real
  {
    if |closed| == 0 then 0.0 else Reported(closed[..|closed| - 1]) + closed[|closed| - 1].net
  }

  /** The fees still pooled at each close: an unpaid rebate, or what dust leaves. */
  function LeftInPools(b: Book, fills: seq<Fill>): real
    requires Valid(b)
  {
    if |fills| == 0 then 0.0
    else
      var before, f := Run(b, fills[..|fills| - 1]), fills[|fills| - 1];
      LeftInPools(b, fills[..|fills| - 1]) +
      if Counts(before, f) && f.order.position !in Handled(before, f).positions
      then Shrunk(before.positions[f.order.position], f.size).pool else 0.0
  }

  lemma {:induction false} OpenValueSame(b: Book, c: Book, ids: seq<int>, id: int)
    requires id !in ids
    requires forall k :: k != id ==>
               (k in c.positions <==> k in b.positions) && (k in b.positions ==> c.positions[k] == b.positions[k]) &&
               Get(c.realized, k) == Get(b.realized, k)
    ensures OpenValue(c, ids) == OpenValue(b, ids)
  {
    if |ids| > 0 { OpenValueSame(b, c, ids[..|ids| - 1], id); }
  }

  /** One fill moves only its own position's part. */
  lemma {:induction false} OpenValueStep(b: Book, c: Book, ids: seq<int>, id: int)
    requires id in ids && Different(ids)
    requires forall k :: k != id ==>
               (k in c.positions <==> k in b.positions) && (k in b.positions ==> c.positions[k] == b.positions[k]) &&
               Get(c.realized, k) == Get(b.realized, k)
    ensures OpenValue(c, ids) - Part(c, id) == OpenValue(b, ids) - Part(b, id)
  {
    var n := |ids| - 1;
    if ids[n] == id {
      OpenValueSame(b, c, ids[..n], id);
    } else {
      OpenValueStep(b, c, ids[..n], id);
    }
  }

  /** What one fill does to cash, next to its position's part and the report it may make. */
  lemma CashStep(b: Book, f: Fill)
    requires Valid(b) && Counts(b, f)
    ensures var c, id := Handled(b, f), f.order.position;
            && (id in c.positions ==>
                  c.closed == b.closed && c.cash - b.cash == Part(c, id) - Part(b, id))
            && (id !in c.positions ==>
                  && !Opens(f.order) && id in b.positions && Part(c, id) == 0.0
                  && |c.closed| == |b.closed| + 1 && c.closed[..|b.closed|] == b.closed
                  && c.cash - b.cash == c.closed[|b.closed|].net - Shrunk(b.positions[id], f.size).pool - Part(b, id))
  {
    hide Gross;
  }

  /** Cash has moved by exactly the reports of the closed positions and what the open ones have accrued less the fees
      still pooled, and by the fees that were still pooled at a close, over every run and all positions at once. */
  lemma {:induction false} CashExact(b: Book, fills: seq<Fill>, ids: seq<int>)
    requires Valid(b) && Different(ids) && forall i :: 0 <= i < |fills| ==> fills[i].order.position in ids
    ensures var r := Run(b, fills);
            r.cash - b.cash == Reported(r.closed) - Reported(b.closed) + OpenValue(r, ids) - OpenValue(b, ids)
                               - LeftInPools(b, fills)
  {
    hide Handled, Valid, OpenValue, Different, Part, Counts;
    if |fills| > 0 {
      var init, f := fills[..|fills| - 1], fills[|fills| - 1];
      CashExact(b, init, ids);
      var before := Run(b, init);
      var after := Handled(before, f);
      if Counts(before, f) {
        CashStep(before, f);
        forall k | k != f.order.position
          ensures (k in after.positions <==> k in before.positions) && Get(after.realized, k) == Get(before.realized, k)
          ensures k in before.positions ==> after.positions[k] == before.positions[k]
        {
          OthersUntouched(before, f, k);
        }
        OpenValueStep(before, after, ids, f.order.position);
      } else {
        NotCounted(before, f);
      }
    }
  }
}
