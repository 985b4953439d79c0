/** The hypothesis population of core/idea_lab.py: a finite, pre-declared family of ideas, births when the
    market reading changes or the baseline is under pressure, retirement on negative excess. */
module IdeaLab {
  import opened Prelude
  import opened IdeaMarket
  import opened IdeaBooks
  import T = TargetBook

  datatype Kind = Born | Retired | Refused

  datatype Event = Event(at: nat, kind: Kind, id: string)

  /** The family is every idea the lab may ever hold, in its fixed order; `name` is the id of an idea. */
  datatype LabRules = LabRules(rules: Rules, start: real, name: Idea -> string, family: seq<Idea>, baseline: Idea,
                               readingWindow: nat, retireAfter: int, maxBirths: int, maxAlive: int, midAim: real)

  datatype Lab = Lab(books: seq<Book>, born: seq<string>, events: seq<Event>, last: Option<(Drift, bool)>)

  const EMPTY: Lab := Lab([], [], [], None)

  predicate PremiseMatches(idea: Idea, reading: Reading, midAim: real)
  {
    && !(reading.drift == Reverting && idea.tilt == Momentum)
    && !(reading.drift == Trending && idea.tilt == Reversal)
    && !(reading.drift == Neutral && idea.tilt != NoTilt)
    && (reading.shock ==> idea.aimRate <= midAim)
  }

  function Alive(books: seq<Book>): nat
  {
    if |books| == 0 then 0 else Alive(books[..|books| - 1]) + if books[|books| - 1].alive then 1 else 0
  }

  predicate Known(l: LabRules, s: Lab, id: string)
  {
    exists k :: 0 <= k < |s.books| && l.name(s.books[k].idea) == id
  }

  function Birth(l: LabRules, s: Lab, idea: Idea, i: nat): Lab
  {
    s.(books := s.books + [NewBook(idea, i, l.start)], born := s.born + [l.name(idea)],
       events := s.events + [Event(i, Born, l.name(idea))])
  }

  function Advanced(l: LabRules, b: Book, bars: Bars, i: nat): Book
    requires l.rules.Valid() && bars.Valid() && i + 1 < bars.length
  {
    if b.alive then Stepped(l.rules, b, bars, i) else b
  }

  function AllAdvanced(l: LabRules, books: seq<Book>, bars: Bars, i: nat): (r: seq<Book>)
    requires l.rules.Valid() && bars.Valid() && i + 1 < bars.length
    ensures |r| == |books| && forall k :: 0 <= k < |books| ==> r[k] == Advanced(l, books[k], bars, i)
  {
    if |books| == 0 then []
    else AllAdvanced(l, books[..|books| - 1], bars, i) + [Advanced(l, books[|books| - 1], bars, i)]
  }

  /** The sum of the excess returns over the buy-and-hold twin. */
  function Excess(b: Book): real
  {
    Sum(b.rets) - Sum(b.benchRets)
  }

  predicate Fails(l: LabRules, b: Book)
  {
    b.alive && l.name(b.idea) != l.name(l.baseline) && |b.rets| >= l.retireAfter && Excess(b) < 0.0
  }

  /** Book `k` retired if it fails. */
  function RetiredAt(l: LabRules, s: Lab, i: nat, k: nat): (t: Lab)
    requires k < |s.books|
    ensures |t.books| == |s.books|
  {
    var b := s.books[k];
    if Fails(l, b)
    then s.(books := s.books[k := b.(alive := false)], events := s.events + [Event(i, Retired, l.name(b.idea))])
    else s
  }

  function Retire(l: LabRules, s: Lab, i: nat, n: nat): (t: Lab)
    requires n <= |s.books|
    ensures |t.books| == |s.books|
  {
    if n == 0 then s else RetiredAt(l, Retire(l, s, i, n - 1), i, n - 1)
  }

  /** The proposals of one reading over what is left of the family. */
  function Proposed(l: LabRules, s: Lab, reading: Reading, i: nat, family: seq<Idea>, alive: int, births: int): Lab
    decreases |family|
  {
    if |family| == 0 || births >= l.maxBirths then s
    else if Known(l, s, l.name(family[0])) || !PremiseMatches(family[0], reading, l.midAim)
    then Proposed(l, s, reading, i, family[1..], alive, births)
    else if alive >= l.maxAlive then s.(events := s.events + [Event(i, Refused, l.name(family[0]))])
    else Proposed(l, Birth(l, s, family[0], i), reading, i, family[1..], alive + 1, births + 1)
  }

  function LabReading(l: LabRules, bars: Bars, i: nat): Reading
    requires bars.Valid() && i < bars.length
  {
    ReadMarket(bars, i, l.readingWindow, l.rules.k.volShort, l.rules.limits.volShock, l.rules.k.root)
  }

  /** The first half of a step: the baseline born if there is nothing yet, every live book advanced, the
      failing ones retired. The baseline is the first book. */
  function Aged(l: LabRules, s: Lab, bars: Bars, i: nat): (t: Lab)
    requires l.rules.Valid() && bars.Valid() && i + 1 < bars.length
    ensures |t.books| > 0
  {
    var u := if s.books == [] then Birth(l, s, l.baseline, i) else s;
    Retire(l, u.(books := AllAdvanced(l, u.books, bars, i)), i, |u.books|)
  }

  function Reacted(l: LabRules, s: Lab, reading: Reading, i: nat): Lab
    requires |s.books| > 0
  {
    var now := (reading.drift, reading.shock);
    if s.last == Some(now) && !s.books[0].pressured then s
    else
      var t := Proposed(l, s, reading, i, l.family, Alive(s.books), 0);
      if |t.books| == 0 then t
      else t.(last := Some(now), books := t.books[0 := t.books[0].(pressured := false)])
  }

  function LabStep(l: LabRules, s: Lab, bars: Bars, i: nat): Lab
    requires l.rules.Valid() && bars.Valid() && i + 1 < bars.length
  {
    Reacted(l, Aged(l, s, bars, i), LabReading(l, bars, i), i)
  }

  // ---------------------------------------------------------------- the class

  class Laboratory {
    const l: LabRules
    var books: seq<ShadowBook>
    var born: seq<string>
    var events: seq<Event>
    var last: Option<(Drift, bool)>
    /** The values of the books, in order. */
    ghost var accounts: seq<Book>

    ghost predicate Valid()
      reads this, books
    {
      && |accounts| == |books| && (forall k :: 0 <= k < |books| ==> books[k].Now() == accounts[k])
      && (forall j, k :: 0 <= j < k < |books| ==> books[j] != books[k])
    }

    ghost function Now(): Lab
      reads this
    {
      Lab(accounts, born, events, last)
    }

    constructor (rules: LabRules)
      ensures l == rules && Valid() && Now() == EMPTY
    {
      l := rules;
      books, born, events, last, accounts := [], [], [], None, [];
    }

    method Bear(idea: Idea, i: nat)
      requires Valid()
      modifies this
      ensures Valid() && Now() == Birth(l, old(Now()), idea, i)
      ensures |books| == |old(books)| + 1 && books[..|old(books)|] == old(books) && fresh(books[|old(books)|])
    {
      hide ShadowBook.Now;
      var b := new ShadowBook(idea, i, l.start);
      books := books + [b];
      accounts := accounts + [NewBook(idea, i, l.start)];
      born := born + [l.name(idea)];
      events := events + [Event(i, Born, l.name(idea))];
    }

    method AdvanceAll(bars: Bars, i: nat)
      requires Valid() && l.rules.Valid() && bars.Valid() && i + 1 < bars.length
      modifies this`accounts, books
      ensures Valid() && Now() == old(Now()).(books := AllAdvanced(l, old(Now()).books, bars, i))
    {
      hide IdeaBooks.Stepped;
      ghost var after := AllAdvanced(l, accounts, bars, i);
      for k := 0 to |books|
        invariant unchanged(`accounts)
        invariant forall j :: 0 <= j < |books| ==> books[j].Now() == if j < k then after[j] else accounts[j]
      {
        if books[k].alive {
          books[k].StepBook(l.rules, bars, i);
        }
      }
      accounts := after;
    }

    method ExcessOf(b: ShadowBook) returns (ex: real)
      requires |b.rets| == |b.benchRets|
      ensures ex == Excess(b.Now())
    {
      ex := 0.0;
      for n := 0 to |b.rets|
        invariant ex == Sum(b.rets[..n]) - Sum(b.benchRets[..n])
      {
        assert b.rets[..n + 1][..n] == b.rets[..n] && b.benchRets[..n + 1][..n] == b.benchRets[..n];
        ex := ex + (b.rets[n] - b.benchRets[n]);
      }
      assert b.rets[..|b.rets|] == b.rets && b.benchRets[..|b.rets|] == b.benchRets;
    }

    method Failing(b: ShadowBook) returns (fails: bool)
      requires |b.rets| == |b.benchRets|
      ensures fails <==> Fails(l, b.Now())
    {
      hide Excess;
      if !b.alive || l.name(b.idea) == l.name(l.baseline) { return false; }
      var ex := ExcessOf(b);
      return |b.rets| >= l.retireAfter && ex < 0.0;
    }

    method RetireAndFlag(i: nat)
      requires Valid() && Paired(accounts)
      modifies this`events, this`accounts, books
      ensures Valid() && Now() == Retire(l, old(Now()), i, |old(books)|)
    {
      hide Fails;
      ghost var before := Now();
      for k := 0 to |books|
        invariant Valid() && Paired(accounts) && Now() == Retire(l, before, i, k)
      {
        assert |accounts[k].rets| == |accounts[k].benchRets|;
        var fails := Failing(books[k]);
        if fails {
          RetireBook(k, i);
        }
      }
    }

    method RetireBook(k: nat, i: nat)
      requires Valid() && k < |books| && Paired(accounts)
      modifies this`events, this`accounts, books[k]
      ensures Valid() && Paired(accounts)
      ensures Now() == old(Now()).(books := old(accounts)[k := old(accounts)[k].(alive := false)],
                                   events := old(events) + [Event(i, Retired, l.name(old(accounts)[k].idea))])
    {
      events := events + [Event(i, Retired, l.name(books[k].idea))];
      hide ShadowBook.Now;
      books[k].Retire();
      accounts := accounts[k := accounts[k].(alive := false)];
    }

    method Living() returns (n: nat)
      requires Valid()
      ensures n == Alive(accounts)
    {
      n := 0;
      for k := 0 to |books|
        invariant n == Alive(accounts[..k])
      {
        assert accounts[..k + 1][..k] == accounts[..k];
        assert books[k].alive == accounts[k].alive;
        if books[k].alive {
          n := n + 1;
        }
      }
      assert accounts[..|books|] == accounts;
    }

    method Has(id: string) returns (found: bool)
      requires Valid()
      ensures found <==> Known(l, Now(), id)
    {
      for k := 0 to |books|
        invariant forall j :: 0 <= j < k ==> l.name(accounts[j].idea) != id
      {
        assert books[k].idea == accounts[k].idea;
        if l.name(books[k].idea) == id { return true; }
      }
      return false;
    }

    method Propose(reading: Reading, i: nat)
      requires Valid()
      modifies this
      ensures Valid() && Now() == Proposed(l, old(Now()), reading, i, l.family, Alive(old(accounts)), 0)
      ensures |books| >= |old(books)| && books[..|old(books)|] == old(books)
    {
      hide PremiseMatches, Known, Birth, Alive, ShadowBook.Now;
      var alive: int := Living();
      var births: int := 0;
      ghost var goal := Proposed(l, Now(), reading, i, l.family, alive, births);
      assert l.family[0..] == l.family;
      for k := 0 to |l.family|
        invariant Valid() && |books| >= |old(books)| && books[..|old(books)|] == old(books)
        invariant Proposed(l, Now(), reading, i, l.family[k..], alive, births) == goal
      {
        assert l.family[k..][1..] == l.family[k + 1..] && l.family[k..][0] == l.family[k];
        if births >= l.maxBirths { return; }
        var known := Has(l.name(l.family[k]));
        if known || !PremiseMatches(l.family[k], reading, l.midAim) { continue; }
        if alive >= l.maxAlive {
          events := events + [Event(i, Refused, l.name(l.family[k]))];
          return;
        }
        ghost var had := books;
        Bear(l.family[k], i);
        assert books[..|old(books)|] == books[..|had|][..|old(books)|];
        alive, births := alive + 1, births + 1;
      }
    }

    method BearBaseline(i: nat)
      requires Valid() && Paired(accounts)
      modifies this
      ensures Valid() && Paired(accounts) && |books| > 0
      ensures Now() == if old(books) == [] then Birth(l, old(Now()), l.baseline, i) else old(Now())
      ensures forall k :: 0 <= k < |books| ==> books[k] in old(books) || fresh(books[k])
    {
      hide ShadowBook.Now;
      if books == [] {
        Bear(l.baseline, i);
      }
    }

    method Age(bars: Bars, i: nat)
      requires Valid() && l.rules.Valid() && bars.Valid() && i + 1 < bars.length && Paired(accounts)
      modifies this, books
      ensures Valid() && Now() == Aged(l, old(Now()), bars, i)
      ensures |books| > 0 && forall k :: 0 <= k < |books| ==> books[k] in old(books) || fresh(books[k])
    {
      hide AllAdvanced, Retire, Birth, ShadowBook.Now, Paired;
      BearBaseline(i);
      Matched(l, accounts, bars, i);
      AdvanceAll(bars, i);
      RetireAndFlag(i);
    }

    method React(reading: Reading, i: nat)
      requires Valid() && |books| > 0
      modifies this, books
      ensures Valid() && Now() == Reacted(l, old(Now()), reading, i)
    {
      hide Proposed, Alive;
      var now := (reading.drift, reading.shock);
      assert books[0].Now() == accounts[0];
      if last == Some(now) && !books[0].pressured { return; }
      Propose(reading, i);
      assert books[0] == books[..|old(books)|][0];
      last := Some(now);
      CalmBaseline();
    }

    method CalmBaseline()
      requires Valid() && |books| > 0
      modifies books[0], this`accounts
      ensures Valid() && accounts == old(accounts)[0 := old(accounts)[0].(pressured := false)]
    {
      hide ShadowBook.Now;
      books[0].Calm();
      accounts := accounts[0 := accounts[0].(pressured := false)];
    }

    method Step(bars: Bars, i: nat)
      requires Valid() && l.rules.Valid() && bars.Valid() && i + 1 < bars.length && Paired(accounts)
      modifies this, books
      ensures Valid() && Now() == LabStep(l, old(Now()), bars, i)
    {
      hide Aged, Reacted, ReadMarket, ShadowBook.Now;
      Age(bars, i);
      var reading := ReadMarket(bars, i, l.readingWindow, l.rules.k.volShort, l.rules.limits.volShock, l.rules.k.root);
      React(reading, i);
    }
  }

  /** Every book has a twin return for each of its own. */
  predicate Paired(books: seq<Book>) { forall k :: 0 <= k < |books| ==> |books[k].rets| == |books[k].benchRets| }

  lemma Matched(l: LabRules, books: seq<Book>, bars: Bars, i: nat)
    requires l.rules.Valid() && bars.Valid() && i + 1 < bars.length && Paired(books)
    ensures Paired(AllAdvanced(l, books, bars, i))
  {
    hide IdeaBooks.Stepped;
    forall k | 0 <= k < |books| && books[k].alive
      ensures |AllAdvanced(l, books, bars, i)[k].rets| == |AllAdvanced(l, books, bars, i)[k].benchRets|
    {
      StepBalances(l.rules, books[k], bars, i, 0);
    }
  }

  // ---------------------------------------------------------------- the population

  /** Every id born once, in the order of the books; the baseline first and alive; the living within bounds. */
  predicate Inv(l: LabRules, s: Lab)
  {
    && |s.born| == |s.books|
    && (forall k :: 0 <= k < |s.books| ==>
          s.born[k] == l.name(s.books[k].idea) && |s.books[k].rets| == |s.books[k].benchRets|)
    && (forall j, k :: 0 <= j < k < |s.born| ==> s.born[j] != s.born[k])
    && (|s.books| > 0 ==> s.born[0] == l.name(l.baseline) && s.books[0].alive)
    && Alive(s.books) <= MaxInt(1, l.maxAlive)
  }

  /** The later population: the same books, perhaps retired, and perhaps more. */
  predicate Later(before: seq<Book>, after: seq<Book>)
  {
    |after| >= |before| &&
    forall k :: 0 <= k < |before| ==>
      after[k].idea == before[k].idea && after[k].born == before[k].born && (after[k].alive ==> before[k].alive)
  }

  lemma {:induction false} AliveLater(before: seq<Book>, after: seq<Book>)
    requires |after| == |before| && forall k :: 0 <= k < |before| && after[k].alive ==> before[k].alive
    ensures Alive(after) <= Alive(before)
  {
    if |before| > 0 {
      AliveLater(before[..|before| - 1], after[..|after| - 1]);
    }
  }

  lemma AliveAppend(books: seq<Book>, b: Book)
    ensures Alive(books + [b]) == Alive(books) + if b.alive then 1 else 0
  {
    assert (books + [b])[..|books|] == books;
  }

  lemma BirthKeeps(l: LabRules, s: Lab, idea: Idea, i: nat)
    requires Inv(l, s) && !Known(l, s, l.name(idea)) && (Alive(s.books) < l.maxAlive || s.books == [])
    requires s.books == [] ==> idea == l.baseline
    ensures Inv(l, Birth(l, s, idea, i)) && Later(s.books, Birth(l, s, idea, i).books)
    ensures Alive(Birth(l, s, idea, i).books) == Alive(s.books) + 1
  {
    AliveAppend(s.books, NewBook(idea, i, l.start));
    forall k | 0 <= k < |s.born|
      ensures s.born[k] != l.name(idea)
    {
      assert l.name(s.books[k].idea) == s.born[k];
    }
  }

  lemma AdvanceKeeps(l: LabRules, s: Lab, bars: Bars, i: nat)
    requires l.rules.Valid() && bars.Valid() && i + 1 < bars.length && Inv(l, s)
    ensures var t := s.(books := AllAdvanced(l, s.books, bars, i)); Inv(l, t) && Later(s.books, t.books)
  {
    hide Alive, IdeaBooks.Stepped;
    var books := AllAdvanced(l, s.books, bars, i);
    forall k | 0 <= k < |books|
      ensures books[k].idea == s.books[k].idea && books[k].born == s.books[k].born && books[k].alive == s.books[k].alive
      ensures |books[k].rets| == |books[k].benchRets|
    {
      if s.books[k].alive {
        StepBalances(l.rules, s.books[k], bars, i, 0);
      }
    }
    AliveLater(s.books, books);
  }

  lemma {:induction false} RetireKeeps(l: LabRules, s: Lab, i: nat, n: nat)
    requires Inv(l, s) && n <= |s.books|
    ensures var t := Retire(l, s, i, n);
            && Inv(l, t) && Later(s.books, t.books) && |t.books| == |s.books|
            && (forall k :: 0 <= k < |s.books| ==> t.books[k] == s.books[k].(alive := t.books[k].alive))
            && (forall k :: n <= k < |s.books| ==> t.books[k] == s.books[k])
  {
    hide RetiredAt, Alive, Inv;
    if n > 0 {
      RetireKeeps(l, s, i, n - 1);
      RetiredAtKeeps(l, Retire(l, s, i, n - 1), i, n - 1);
    }
  }

  /** A step retires exactly the living books, the baseline excepted, that have a record of the length asked for and
      whose returns add up to less than their twins'. */
  lemma {:induction false} RetireExact(l: LabRules, s: Lab, i: nat, n: nat)
    requires n <= |s.books|
    ensures var t := Retire(l, s, i, n);
            forall k :: 0 <= k < |s.books| ==>
              var b := s.books[k];
              t.books[k] ==
                if k < n && b.alive && l.name(b.idea) != l.name(l.baseline) && |b.rets| >= l.retireAfter
                   && Sum(b.rets) < Sum(b.benchRets)
                then b.(alive := false) else b
  {
    hide Fails, Sum;
    if n > 0 {
      RetireExact(l, s, i, n - 1);
      FailsExact(l, s.books[n - 1]);
    }
  }

  lemma FailsExact(l: LabRules, b: Book)
    ensures Fails(l, b) <==> b.alive && l.name(b.idea) != l.name(l.baseline) && |b.rets| >= l.retireAfter
                             && Sum(b.rets) < Sum(b.benchRets)
  {
  }

  lemma RetiredAtKeeps(l: LabRules, s: Lab, i: nat, k: nat)
    requires Inv(l, s) && k < |s.books|
    ensures var t := RetiredAt(l, s, i, k);
            && Inv(l, t) && t.books == s.books[k := t.books[k]]
            && t.books[k] == s.books[k].(alive := t.books[k].alive) && (t.books[k].alive ==> s.books[k].alive)
  {
    hide Fails, Alive, Inv;
    if Fails(l, s.books[k]) {
      RetireOne(l, s, k, s.events + [Event(i, Retired, l.name(s.books[k].idea))]);
    }
  }

  lemma RetireOne(l: LabRules, s: Lab, k: nat, events: seq<Event>)
    requires Inv(l, s) && k < |s.books| && Fails(l, s.books[k])
    ensures Inv(l, s.(books := s.books[k := s.books[k].(alive := false)], events := events))
  {
    hide Alive;
    AliveLater(s.books, s.books[k := s.books[k].(alive := false)]);
  }

  lemma {:induction false} ProposeKeeps(l: LabRules, s: Lab, reading: Reading, i: nat, family: seq<Idea>, births: int)
    requires Inv(l, s) && |s.books| > 0
    ensures var t := Proposed(l, s, reading, i, family, Alive(s.books), births);
            Inv(l, t) && Later(s.books, t.books) && |t.books| >= |s.books| && t.books[..|s.books|] == s.books
            && forall k :: |s.books| <= k < |t.books| ==> t.books[k] == NewBook(t.books[k].idea, i, l.start)
    decreases |family|
  {
    hide Inv, PremiseMatches, Known, Alive;
    if |family| > 0 && births < l.maxBirths {
      if Known(l, s, l.name(family[0])) || !PremiseMatches(family[0], reading, l.midAim) {
        ProposeKeeps(l, s, reading, i, family[1..], births);
      } else if Alive(s.books) < l.maxAlive {
        BirthKeeps(l, s, family[0], i);
        var t := Birth(l, s, family[0], i);
        ProposeKeeps(l, t, reading, i, family[1..], births + 1);
        var u := Proposed(l, t, reading, i, family[1..], Alive(t.books), births + 1);
        assert u.books[..|t.books|][..|s.books|] == u.books[..|s.books|];
      } else {
        EventsKeep(l, s, s.events + [Event(i, Refused, l.name(family[0]))]);
      }
    }
  }

  /** Every idea a reading brings to life is in the family, was never in the lab before, and is one the reading
      argues for; there are at most the allowed number of them. */
  lemma {:induction false} ProposalsFit(l: LabRules, s: Lab, reading: Reading, i: nat, family: seq<Idea>,
                                       alive: int, births: int)
    requires births <= MaxInt(l.maxBirths, 0)
    ensures var t := Proposed(l, s, reading, i, family, alive, births);
            && |s.books| <= |t.books| <= |s.books| + MaxInt(l.maxBirths, 0) - births
            && (forall k :: |s.books| <= k < |t.books| ==>
                  t.books[k].idea in family && PremiseMatches(t.books[k].idea, reading, l.midAim)
                  && !Known(l, s, l.name(t.books[k].idea)))
            && t.books[..|s.books|] == s.books
    decreases |family|
  {
    hide PremiseMatches;
    if |family| > 0 && births < l.maxBirths {
      if Known(l, s, l.name(family[0])) || !PremiseMatches(family[0], reading, l.midAim) {
        ProposalsFit(l, s, reading, i, family[1..], alive, births);
      } else if alive < l.maxAlive {
        var u := Birth(l, s, family[0], i);
        ProposalsFit(l, u, reading, i, family[1..], alive + 1, births + 1);
        var t := Proposed(l, u, reading, i, family[1..], alive + 1, births + 1);
        assert t.books[..|u.books|][..|s.books|] == t.books[..|s.books|];
        forall k | |s.books| <= k < |t.books|
          ensures t.books[k].idea in family && PremiseMatches(t.books[k].idea, reading, l.midAim)
          ensures !Known(l, s, l.name(t.books[k].idea))
        {
          if k == |s.books| {
            assert t.books[k] == t.books[..|u.books|][k];
          } else {
            KnownGrows(l, s, u, l.name(t.books[k].idea));
          }
        }
      }
    }
  }

  /** Which ideas a reading argues for, tilt by tilt: the plain one always, each of the others in the one market that
      pays it, and in a shock only the patient half. */
  predicate Argues(reading: Reading, idea: Idea, midAim: real)
  {
    && (match idea.tilt
        case NoTilt => true
        case Momentum => reading.drift == Trending
        case Reversal => reading.drift == Reverting)
    && !(reading.shock && idea.aimRate > midAim)
  }

  /** The members of the family a reading argues for whose names are not taken, each name once, in the family's
      order. */
  function Candidates(l: LabRules, taken: set<string>, reading: Reading, family: seq<Idea>): seq<Idea>
    decreases |family|
  {
    if |family| == 0 then []
    else if Argues(reading, family[0], l.midAim) && l.name(family[0]) !in taken
    then [family[0]] + Candidates(l, taken + {l.name(family[0])}, reading, family[1..])
    else Candidates(l, taken, reading, family[1..])
  }

  function Names(l: LabRules, s: Lab): set<string>
  {
    set k | 0 <= k < |s.books| :: l.name(s.books[k].idea)
  }

  function Cradle(l: LabRules, ideas: seq<Idea>, i: nat): (books: seq<Book>)
    ensures |books| == |ideas|
  {
    if |ideas| == 0 then [] else [NewBook(ideas[0], i, l.start)] + Cradle(l, ideas[1..], i)
  }

  function Called(l: LabRules, ideas: seq<Idea>): (ids: seq<string>)
    ensures |ids| == |ideas|
  {
    if |ideas| == 0 then [] else [l.name(ideas[0])] + Called(l, ideas[1..])
  }

  function Announced(ids: seq<string>, i: nat): seq<Event>
  {
    if |ids| == 0 then [] else [Event(i, Born, ids[0])] + Announced(ids[1..], i)
  }

  /** How many more may be born. */
  function Room(l: LabRules, alive: int, births: int): int
  {
    MaxInt(0, if l.maxBirths - births <= l.maxAlive - alive then l.maxBirths - births else l.maxAlive - alive)
  }

  /** The first `born` candidates brought to life, each with a book of its own; the next one noted as refused if
      `refuse`. */
  function Delivered(l: LabRules, s: Lab, w: seq<Idea>, born: nat, refuse: bool, i: nat): Lab
    requires born <= |w| && (refuse ==> born < |w|)
  {
    Lab(s.books + Cradle(l, w[..born], i), s.born + Called(l, w[..born]),
        s.events + Announced(Called(l, w[..born]), i)
        + if refuse then [Event(i, Refused, l.name(w[born]))] else [], s.last)
  }

  /** What a reading brings to life: exactly the first candidates, as many as both limits leave room for; the next one
      is noted as refused exactly when the limit on the living, and not the one on births, kept it out. */
  lemma {:induction false} ProposalsExact(l: LabRules, s: Lab, reading: Reading, i: nat, family: seq<Idea>,
                                          alive: int, births: int)
    ensures var w, room := Candidates(l, Names(l, s), reading, family), Room(l, alive, births);
            Proposed(l, s, reading, i, family, alive, births)
            == Delivered(l, s, w, if |w| <= room then |w| else room, |w| > room && births + room < l.maxBirths, i)
    decreases |family|
  {
    hide PremiseMatches, Argues, Names, Known, Room, Birth, Delivered;
    var w, room := Candidates(l, Names(l, s), reading, family), Room(l, alive, births);
    RoomIs(l, alive, births);
    if |family| == 0 || births >= l.maxBirths {
      NoneDelivered(l, s, w, i);
    } else {
      SameArgument(family[0], reading, l.midAim);
      NameIsKnown(l, s, l.name(family[0]));
      if Known(l, s, l.name(family[0])) || !PremiseMatches(family[0], reading, l.midAim) {
        ProposalsExact(l, s, reading, i, family[1..], alive, births);
      } else if alive < l.maxAlive {
        var u := Birth(l, s, family[0], i);
        BirthNames(l, s, family[0], i);
        ProposalsExact(l, u, reading, i, family[1..], alive + 1, births + 1);
        var rest := Candidates(l, Names(l, u), reading, family[1..]);
        OneDelivered(l, s, family[0], rest, if |rest| <= room - 1 then |rest| else room - 1,
                     |rest| > room - 1 && births + room < l.maxBirths, i);
      } else {
        NoneDelivered(l, s, w, i);
      }
    }
  }

  lemma NoneDelivered(l: LabRules, s: Lab, w: seq<Idea>, i: nat)
    ensures Delivered(l, s, w, 0, false, i) == s
    ensures |w| > 0 ==> Delivered(l, s, w, 0, true, i) == s.(events := s.events + [Event(i, Refused, l.name(w[0]))])
  {
  }

  lemma OneDelivered(l: LabRules, s: Lab, first: Idea, rest: seq<Idea>, born: nat, refuse: bool, i: nat)
    requires born <= |rest| && (refuse ==> born < |rest|)
    ensures Delivered(l, Birth(l, s, first, i), rest, born, refuse, i)
         == Delivered(l, s, [first] + rest, born + 1, refuse, i)
  {
    hide NewBook, Cradle, Called, Announced;
    assert ([first] + rest)[..born + 1] == [first] + rest[..born];
    FirstDelivered(l, first, rest[..born], i);
  }

  lemma FirstDelivered(l: LabRules, first: Idea, rest: seq<Idea>, i: nat)
    ensures Cradle(l, [first] + rest, i) == [NewBook(first, i, l.start)] + Cradle(l, rest, i)
    ensures Called(l, [first] + rest) == [l.name(first)] + Called(l, rest)
    ensures Announced([l.name(first)] + Called(l, rest), i)
         == [Event(i, Born, l.name(first))] + Announced(Called(l, rest), i)
  {
    hide NewBook;
    assert ([first] + rest)[1..] == rest;
    assert ([l.name(first)] + Called(l, rest))[1..] == Called(l, rest);
  }

  lemma RoomIs(l: LabRules, alive: int, births: int)
    ensures var room := Room(l, alive, births);
            && room >= 0 && (room == 0 <==> births >= l.maxBirths || alive >= l.maxAlive)
            && (room > 0 ==> Room(l, alive + 1, births + 1) == room - 1)
  {
  }

  lemma SameArgument(idea: Idea, reading: Reading, midAim: real)
    ensures PremiseMatches(idea, reading, midAim) <==> Argues(reading, idea, midAim)
  {
  }

  lemma NameIsKnown(l: LabRules, s: Lab, id: string)
    ensures Known(l, s, id) <==> id in Names(l, s)
  {
  }

  lemma BirthNames(l: LabRules, s: Lab, idea: Idea, i: nat)
    ensures Names(l, Birth(l, s, idea, i)) == Names(l, s) + {l.name(idea)}
  {
    var t := Birth(l, s, idea, i);
    forall id
      ensures id in Names(l, t) <==> id in Names(l, s) + {l.name(idea)}
    {
      if id in Names(l, s) {
        var k :| 0 <= k < |s.books| && l.name(s.books[k].idea) == id;
        assert t.books[k] == s.books[k];
      }
      assert t.books[|s.books|].idea == idea;
    }
  }

  lemma KnownGrows(l: LabRules, s: Lab, u: Lab, id: string)
    requires |u.books| >= |s.books| && u.books[..|s.books|] == s.books
    ensures Known(l, s, id) ==> Known(l, u, id)
  {
    if Known(l, s, id) {
      var k :| 0 <= k < |s.books| && l.name(s.books[k].idea) == id;
      assert u.books[..|s.books|][k] == u.books[k];
    }
  }

  lemma EventsKeep(l: LabRules, s: Lab, events: seq<Event>)
    requires Inv(l, s)
    ensures Inv(l, s.(events := events))
  {
  }

  lemma AgedKeeps(l: LabRules, s: Lab, bars: Bars, i: nat)
    requires l.rules.Valid() && bars.Valid() && i + 1 < bars.length && Inv(l, s)
    ensures Inv(l, Aged(l, s, bars, i)) && Later(s.books, Aged(l, s, bars, i).books)
  {
    hide Inv, Alive, Retire, AllAdvanced;
    if s.books == [] {
      assert !Known(l, s, l.name(l.baseline));
      BirthKeeps(l, s, l.baseline, i);
    }
    var u := if s.books == [] then Birth(l, s, l.baseline, i) else s;
    AdvanceKeeps(l, u, bars, i);
    var v := u.(books := AllAdvanced(l, u.books, bars, i));
    RetireKeeps(l, v, i, |v.books|);
  }

  lemma ReactedKeeps(l: LabRules, s: Lab, reading: Reading, i: nat)
    requires Inv(l, s) && |s.books| > 0
    ensures Inv(l, Reacted(l, s, reading, i)) && Later(s.books, Reacted(l, s, reading, i).books)
    ensures var t := Reacted(l, s, reading, i);
            && (forall k :: 0 <= k < |s.books| ==>
                  SameAccount(t.books[k], s.books[k]) && t.books[k].alive == s.books[k].alive)
            && (forall k :: |s.books| <= k < |t.books| ==> t.books[k] == NewBook(t.books[k].idea, i, l.start))
  {
    hide Proposed, Alive;
    ProposeKeeps(l, s, reading, i, l.family, 0);
    var t := Proposed(l, s, reading, i, l.family, Alive(s.books), 0);
    assert t.books[..|s.books|] == s.books;
    assert forall k :: 0 <= k < |s.books| ==> t.books[k] == t.books[..|s.books|][k];
    AliveLater(t.books, t.books[0 := t.books[0].(pressured := false)]);
  }

  /** The lab over a stretch of bars, from an empty start. */
  function Run(l: LabRules, bars: Bars, from: nat, n: nat): Lab
    requires l.rules.Valid() && bars.Valid() && from + n < bars.length
  {
    if n == 0 then EMPTY else LabStep(l, Run(l, bars, from, n - 1), bars, from + n - 1)
  }

  /** The last reading acted on is always the latest one: what a step does not act on reads the same. */
  lemma {:induction false} LastTold(l: LabRules, bars: Bars, from: nat, n: nat)
    requires l.rules.Valid() && bars.Valid() && from + n < bars.length && n > 0
    ensures var reading := LabReading(l, bars, from + n - 1);
            Run(l, bars, from, n).last == Some((reading.drift, reading.shock))
  {
    hide LabReading, Proposed, AllAdvanced, Retire, Birth;
    var before, at := Run(l, bars, from, n - 1), from + n - 1;
    if n > 1 { LastTold(l, bars, from, n - 1); }
    AgedLast(l, before, bars, at);
    var aged, reading := Aged(l, before, bars, at), LabReading(l, bars, at);
    ProposedKeeps(l, aged, reading, at, l.family, Alive(aged.books), 0);
  }

  lemma AgedLast(l: LabRules, s: Lab, bars: Bars, i: nat)
    requires l.rules.Valid() && bars.Valid() && i + 1 < bars.length
    ensures Aged(l, s, bars, i).last == s.last
  {
    hide AllAdvanced;
    var u := if s.books == [] then Birth(l, s, l.baseline, i) else s;
    RetireLast(l, u.(books := AllAdvanced(l, u.books, bars, i)), i, |u.books|);
  }

  lemma {:induction false} RetireLast(l: LabRules, s: Lab, i: nat, n: nat)
    requires n <= |s.books|
    ensures Retire(l, s, i, n).last == s.last
  {
    hide Fails;
    if n > 0 { RetireLast(l, s, i, n - 1); }
  }

  lemma {:induction false} ProposedKeeps(l: LabRules, s: Lab, reading: Reading, i: nat, family: seq<Idea>,
                                         alive: int, births: int)
    ensures var t := Proposed(l, s, reading, i, family, alive, births); t.last == s.last && |t.books| >= |s.books|
    decreases |family|
  {
    hide PremiseMatches, Known, NewBook;
    if |family| > 0 {
      ProposedKeeps(l, s, reading, i, family[1..], alive, births);
      ProposedKeeps(l, Birth(l, s, family[0], i), reading, i, family[1..], alive + 1, births + 1);
    }
  }

  /** When the lab proposes. In every run a step lets the reading bring ideas to life, and takes the pressure off the
      baseline, exactly when it is the first, or the market reads differently from the step before, or the baseline
      was pressed; any other step only ages the books. */
  lemma ProposesExact(l: LabRules, bars: Bars, from: nat, n: nat)
    requires l.rules.Valid() && bars.Valid() && from + n + 1 < bars.length
    ensures var s, i := Run(l, bars, from, n), from + n;
            var aged, reading := Aged(l, s, bars, i), LabReading(l, bars, i);
            var t, d := Run(l, bars, from, n + 1), Proposed(l, aged, reading, i, l.family, Alive(aged.books), 0);
            var same := n > 0 && var last := LabReading(l, bars, i - 1);
                                 last.drift == reading.drift && last.shock == reading.shock;
            if same && !aged.books[0].pressured then t == aged
            else
              && |d.books| > 0 && t.books == d.books[0 := d.books[0].(pressured := false)]
              && t.born == d.born && t.events == d.events
  {
    hide LabReading, Proposed, Aged, Alive;
    var s, i := Run(l, bars, from, n), from + n;
    if n > 0 { LastTold(l, bars, from, n); }
    AgedLast(l, s, bars, i);
    ProposedKeeps(l, Aged(l, s, bars, i), LabReading(l, bars, i), i, l.family, Alive(Aged(l, s, bars, i).books), 0);
  }

  lemma LabStepKeeps(l: LabRules, s: Lab, bars: Bars, i: nat)
    requires l.rules.Valid() && bars.Valid() && i + 1 < bars.length && Inv(l, s)
    ensures Inv(l, LabStep(l, s, bars, i)) && Later(s.books, LabStep(l, s, bars, i).books)
  {
    hide Inv, Aged, Reacted, LabReading;
    AgedKeeps(l, s, bars, i);
    ReactedKeeps(l, Aged(l, s, bars, i), LabReading(l, bars, i), i);
  }

  /** The population law, over every run: each id is born at most once, ever, retirement notwithstanding; the
      live books never exceed max(1, max_alive); the baseline is never retired. */
  lemma {:induction false} PopulationIsBounded(l: LabRules, bars: Bars, from: nat, n: nat)
    requires l.rules.Valid() && bars.Valid() && from + n < bars.length
    ensures Inv(l, Run(l, bars, from, n))
  {
    hide Inv, LabStep, Later;
    if n == 0 {
      EmptyIsSound(l);
    } else {
      PopulationIsBounded(l, bars, from, n - 1);
      LabStepKeeps(l, Run(l, bars, from, n - 1), bars, from + n - 1);
    }
  }

  /** No book is ever forgotten, renamed or brought back: what was born by bar `m` is there in its place at any
      later bar, and the retired stay retired. */
  lemma {:induction false} NothingIsRetried(l: LabRules, bars: Bars, from: nat, m: nat, n: nat)
    requires l.rules.Valid() && bars.Valid() && m <= n && from + n < bars.length
    ensures Later(Run(l, bars, from, m).books, Run(l, bars, from, n).books)
    decreases n
  {
    hide Inv, LabStep;
    if m < n {
      NothingIsRetried(l, bars, from, m, n - 1);
      PopulationIsBounded(l, bars, from, n - 1);
      LabStepKeeps(l, Run(l, bars, from, n - 1), bars, from + n - 1);
    }
  }

  lemma EmptyIsSound(l: LabRules)
    ensures Inv(l, EMPTY)
  {
  }

  // ---------------------------------------------------------------- no look-ahead

  /** A step of the lab at `i` reads nothing beyond bar `i + 1`: births, retirements, books and events are the
      same in any two histories that agree so far. */
  lemma LabDoesNotLookAhead(l: LabRules, s: Lab, b: Bars, c: Bars, i: nat)
    requires l.rules.Valid() && b.Valid() && c.Valid() && i + 1 < b.length && i + 1 < c.length && Agree(b, c, i + 1)
    ensures LabStep(l, s, b, i) == LabStep(l, s, c, i)
  {
    hide IdeaBooks.Stepped, Retire, ReadMarket, Reacted;
    AgreeEarlier(b, c, i + 1, i);
    SameReading(b, c, i, l.readingWindow, l.rules.k.volShort, l.rules.limits.volShock, l.rules.k.root);
    var u := if s.books == [] then Birth(l, s, l.baseline, i) else s;
    forall k | 0 <= k < |u.books|
      ensures AllAdvanced(l, u.books, b, i)[k] == AllAdvanced(l, u.books, c, i)[k]
    {
      StepsDoNotLookAhead(l.rules, u.books[k], b, c, i);
    }
    assert AllAdvanced(l, u.books, b, i) == AllAdvanced(l, u.books, c, i);
  }

  lemma {:induction false} RunsDoNotLookAhead(l: LabRules, b: Bars, c: Bars, from: nat, n: nat)
    requires l.rules.Valid() && b.Valid() && c.Valid() && from + n < b.length && from + n < c.length
             && Agree(b, c, from + n)
    ensures Run(l, b, from, n) == Run(l, c, from, n)
  {
    hide LabStep;
    if n > 0 {
      AgreeEarlier(b, c, from + n, from + n - 1);
      RunsDoNotLookAhead(l, b, c, from, n - 1);
      LabDoesNotLookAhead(l, Run(l, b, from, n - 1), b, c, from + n - 1);
    }
  }

  // ---------------------------------------------------------------- a book in the lab is a book alone

  /** The same money, holdings and record; the lab's own flags aside. */
  predicate SameAccount(b: Book, c: Book) { b == c.(alive := b.alive, pressured := b.pressured) }

  lemma {:induction false} PostingIgnoresFlags(b: Book, c: Book, trades: seq<Trade>, fee: real)
    requires SameAccount(b, c)
    ensures SameAccount(PostedAll(b, trades, fee), PostedAll(c, trades, fee))
  {
    if |trades| > 0 {
      PostingIgnoresFlags(b, c, trades[..|trades| - 1], fee);
    }
  }

  lemma {:induction false} ExecutionIgnoresFlags(r: Rules, b: Book, c: Book, orders: seq<T.Order>, bars: Bars, i: nat)
    requires r.Valid() && bars.Valid() && i + 1 < bars.length && Inside(orders, bars.Assets()) && SameAccount(b, c)
    ensures SameAccount(ExecutedAll(r, b, orders, bars, i), ExecutedAll(r, c, orders, bars, i))
  {
    hide Executed;
    if |orders| > 0 {
      var init, o := orders[..|orders| - 1], orders[|orders| - 1];
      ExecutionIgnoresFlags(r, b, c, init, bars, i);
      FillIgnoresFlags(r, ExecutedAll(r, b, init, bars, i), ExecutedAll(r, c, init, bars, i), o, bars, i);
    }
  }

  lemma FillIgnoresFlags(r: Rules, b: Book, c: Book, o: T.Order, bars: Bars, i: nat)
    requires r.Valid() && bars.Valid() && i + 1 < bars.length && o.asset < bars.Assets() && SameAccount(b, c)
    ensures SameAccount(Executed(r, b, o, bars, i), Executed(r, c, o, bars, i))
  {
    hide FillOf, Markout, Value, FeeOn, Held;
    TryIgnoresFlags(r, b, c, o, bars, i);
  }

  lemma TryIgnoresFlags(r: Rules, b: Book, c: Book, o: T.Order, bars: Bars, i: nat)
    requires r.Valid() && bars.Valid() && i + 1 < bars.length && o.asset < bars.Assets()
    requires b.cash == c.cash && b.units == c.units
    ensures FillOf(r, b, o, bars, i) == FillOf(r, c, o, bars, i)
  {
    hide Limit, Affordable, Through, Held;
  }

  lemma EquityIgnoresFlags(b: Book, c: Book, px: seq<real>)
    requires SameAccount(b, c)
    ensures Equity(b, px) == Equity(c, px) && Twin(b, px) == Twin(c, px)
  {
  }

  lemma ReadyIgnoresFlags(r: Rules, b: Book, c: Book, bars: Bars, i: nat)
    requires r.Valid() && bars.Valid() && i < bars.length && SameAccount(b, c)
    ensures SameAccount(Ready(r, b, bars, i), Ready(r, c, bars, i))
  {
    hide PostedAll, Targets, Equity, SeedTrades, Twinned;
    var px := bars.Closes(i);
    EquityIgnoresFlags(b, c, px);
    var trades := Opening(r, b, bars, i);
    assert trades == Opening(r, c, bars, i);
    PostingIgnoresFlags(b, c, trades, r.k.fee);
    EquityIgnoresFlags(PostedAll(b, trades, r.k.fee), PostedAll(c, trades, r.k.fee), px);
    TwinIgnoresFlags(r, PostedAll(b, trades, r.k.fee), PostedAll(c, trades, r.k.fee), px);
  }

  lemma TwinIgnoresFlags(r: Rules, b: Book, c: Book, px: seq<real>)
    requires |px| > 0 && (forall a :: 0 <= a < |px| ==> px[a] > 0.0) && SameAccount(b, c)
    ensures SameAccount(Twinned(r, b, px), Twinned(r, c, px))
  {
    hide Equity, PerAsset, TwinUnits;
    EquityIgnoresFlags(b, c, px);
  }

  lemma StepIgnoresFlags(r: Rules, b: Book, c: Book, bars: Bars, i: nat)
    requires r.Valid() && bars.Valid() && i + 1 < bars.length && SameAccount(b, c)
    ensures SameAccount(IdeaBooks.Stepped(r, b, bars, i), IdeaBooks.Stepped(r, c, bars, i))
  {
    hide Ready, Targets, ReadMarket, T.Orders, T.PressureFrom, Equity, ExecutedAll, Twin, Rows;
    ReadyIgnoresFlags(r, b, c, bars, i);
    EquityIgnoresFlags(Ready(r, b, bars, i), Ready(r, c, bars, i), bars.Closes(i));
    DecisionInside(r, b, bars, i);
    DecisionInside(r, c, bars, i);
    var d, e := Decided(r, b, bars, i), Decided(r, c, bars, i);
    assert d.orders == e.orders;
    EquityIgnoresFlags(d.book, e.book, bars.Closes(i));
    ExecutionIgnoresFlags(r, d.book, e.book, d.orders, bars, i);
    EquityIgnoresFlags(ExecutedAll(r, d.book, d.orders, bars, i), ExecutedAll(r, e.book, d.orders, bars, i),
                         bars.Closes(i));
    EquityIgnoresFlags(ExecutedAll(r, d.book, d.orders, bars, i), ExecutedAll(r, e.book, d.orders, bars, i),
                         bars.Closes(i + 1));
  }

  /** The bar of a book's first step: the baseline trades on the bar it is born on, a proposed idea from the
      next one, so that it is graded only on bars after its birth. */
  function First(k: nat, b: Book): nat { if k == 0 then b.born else b.born + 1 }

  /** Book `k` is at bar `now` what it would be had it traded alone for as many steps as it has returns; while
      it lives, that is every bar since its first. */
  predicate Alone(l: LabRules, k: nat, b: Book, bars: Bars, now: nat)
    requires l.rules.Valid() && bars.Valid() && now < bars.length
  {
    && First(k, b) + |b.rets| <= now && (b.alive ==> First(k, b) + |b.rets| == now)
    && SameAccount(b, Solo(l.rules, b.idea, b.born, l.start, bars, First(k, b), |b.rets|))
  }

  lemma AdvanceAlone(l: LabRules, k: nat, b: Book, bars: Bars, i: nat)
    requires l.rules.Valid() && bars.Valid() && i + 1 < bars.length && Alone(l, k, b, bars, i)
    ensures Alone(l, k, Advanced(l, b, bars, i), bars, i + 1)
  {
    hide IdeaBooks.Stepped, Solo, StepTrades;
    if b.alive {
      StepBalances(l.rules, b, bars, i, 0);
      SoloNext(l.rules, b.idea, b.born, l.start, bars, First(k, b), |b.rets|);
      StepIgnoresFlags(l.rules, b, Solo(l.rules, b.idea, b.born, l.start, bars, First(k, b), |b.rets|), bars, i);
    } else {
      assert Alone(l, k, b, bars, i + 1);
    }
  }

  lemma SoloNext(r: Rules, idea: Idea, born: nat, cash: real, bars: Bars, first: nat, n: nat)
    requires r.Valid() && bars.Valid() && first + n + 1 < bars.length
    ensures Solo(r, idea, born, cash, bars, first, n + 1) ==
            IdeaBooks.Stepped(r, Solo(r, idea, born, cash, bars, first, n), bars, first + n)
  {
  }

  lemma FlagsAlone(l: LabRules, k: nat, b: Book, c: Book, bars: Bars, now: nat)
    requires l.rules.Valid() && bars.Valid() && now < bars.length && Alone(l, k, b, bars, now)
    requires SameAccount(c, b) && (c.alive ==> b.alive)
    ensures Alone(l, k, c, bars, now)
  {
    hide Solo;
  }

  lemma NewbornAlone(l: LabRules, k: nat, idea: Idea, bars: Bars, i: nat, now: nat)
    requires l.rules.Valid() && bars.Valid() && now < bars.length && now == if k == 0 then i else i + 1
    ensures Alone(l, k, NewBook(idea, i, l.start), bars, now)
  {
  }

  predicate AllAlone(l: LabRules, s: Lab, bars: Bars, now: nat)
    requires l.rules.Valid() && bars.Valid() && now < bars.length
  {
    forall k :: 0 <= k < |s.books| ==> Alone(l, k, s.books[k], bars, now)
  }

  lemma FirstBirth(l: LabRules, s: Lab, i: nat)
    requires Inv(l, s) && s.books == []
    ensures Inv(l, Birth(l, s, l.baseline, i)) && Birth(l, s, l.baseline, i).books == [NewBook(l.baseline, i, l.start)]
  {
    assert !Known(l, s, l.name(l.baseline));
    BirthKeeps(l, s, l.baseline, i);
  }

  lemma AgedAlone(l: LabRules, s: Lab, bars: Bars, i: nat)
    requires l.rules.Valid() && bars.Valid() && i + 1 < bars.length && Inv(l, s) && AllAlone(l, s, bars, i)
    ensures AllAlone(l, Aged(l, s, bars, i), bars, i + 1)
  {
    hide Inv, Alone, Retire, Advanced, Bars.Valid, Bars.Aligned, Known, Birth, NewBook;
    var u := if s.books == [] then Birth(l, s, l.baseline, i) else s;
    if s.books == [] {
      FirstBirth(l, s, i);
      NewbornAlone(l, 0, l.baseline, bars, i, i);
    }
    AdvanceKeeps(l, u, bars, i);
    var v := u.(books := AllAdvanced(l, u.books, bars, i));
    RetireKeeps(l, v, i, |v.books|);
    var t := Retire(l, v, i, |v.books|);
    forall k | 0 <= k < |t.books|
      ensures Alone(l, k, t.books[k], bars, i + 1)
    {
      AdvanceAlone(l, k, u.books[k], bars, i);
      FlagsAlone(l, k, v.books[k], t.books[k], bars, i + 1);
    }
  }

  lemma ReactedAlone(l: LabRules, s: Lab, reading: Reading, bars: Bars, i: nat)
    requires l.rules.Valid() && bars.Valid() && i + 1 < bars.length && Inv(l, s) && |s.books| > 0
             && AllAlone(l, s, bars, i + 1)
    ensures AllAlone(l, Reacted(l, s, reading, i), bars, i + 1)
  {
    hide Inv, Alone, Reacted;
    ReactedKeeps(l, s, reading, i);
    var u := Reacted(l, s, reading, i);
    forall k | 0 <= k < |u.books|
      ensures Alone(l, k, u.books[k], bars, i + 1)
    {
      if k < |s.books| {
        FlagsAlone(l, k, s.books[k], u.books[k], bars, i + 1);
      } else {
        NewbornAlone(l, k, u.books[k].idea, bars, i, i + 1);
      }
    }
  }

  /** Non-interference: whatever else is born or retired beside it, a book's money, holdings and record in the
      lab are those of the same idea trading alone from its first bar. */
  lemma {:induction false} BooksAreAlone(l: LabRules, bars: Bars, from: nat, n: nat)
    requires l.rules.Valid() && bars.Valid() && from + n < bars.length
    ensures AllAlone(l, Run(l, bars, from, n), bars, from + n)
  {
    hide Inv, AllAlone, LabStep;
    if n == 0 {
      NobodyIsAlone(l, bars, from);
    } else {
      BooksAreAlone(l, bars, from, n - 1);
      PopulationIsBounded(l, bars, from, n - 1);
      LabStepAlone(l, Run(l, bars, from, n - 1), bars, from + n - 1);
    }
  }

  lemma LabStepAlone(l: LabRules, s: Lab, bars: Bars, i: nat)
    requires l.rules.Valid() && bars.Valid() && i + 1 < bars.length && Inv(l, s) && AllAlone(l, s, bars, i)
    ensures AllAlone(l, LabStep(l, s, bars, i), bars, i + 1)
  {
    hide Inv, AllAlone, Aged, Reacted, LabReading;
    AgedKeeps(l, s, bars, i);
    AgedAlone(l, s, bars, i);
    ReactedAlone(l, Aged(l, s, bars, i), LabReading(l, bars, i), bars, i);
  }

  lemma NobodyIsAlone(l: LabRules, bars: Bars, now: nat)
    requires l.rules.Valid() && bars.Valid() && now < bars.length
    ensures AllAlone(l, EMPTY, bars, now)
  {
  }

  /** The lab's ledger: in every run every book's starting cash is its cash, plus what its trades cost net of
      what they returned, plus its fees; and where the knobs leave room for the fee, no book ever has
      negative cash or a negative holding. */
  lemma LabLedgerBalances(l: LabRules, bars: Bars, from: nat, n: nat, k: nat, a: nat)
    requires l.rules.Valid() && bars.Valid() && from + n < bars.length && k < |Run(l, bars, from, n).books|
    ensures var b := Run(l, bars, from, n).books[k];
            First(k, b) + |b.rets| <= from + n &&
            var trades := SoloTrades(l.rules, b.idea, b.born, l.start, bars, First(k, b), |b.rets|);
            && b.cash + PaidAll(trades) + b.fees == l.start && Held(b.units, a) == MovedAll(trades, a)
            && (Prudent(l.rules) && l.start >= 0.0 ==> Solvent(b))
  {
    hide Run, Solo, SoloTrades, Prudent;
    BooksAreAlone(l, bars, from, n);
    var b := Run(l, bars, from, n).books[k];
    assert Alone(l, k, b, bars, from + n);
    LedgerBalances(l.rules, b.idea, b.born, l.start, bars, First(k, b), |b.rets|, a);
    if Prudent(l.rules) && l.start >= 0.0 {
      SoloSolvent(l.rules, b.idea, b.born, l.start, bars, First(k, b), |b.rets|);
    }
  }
}
