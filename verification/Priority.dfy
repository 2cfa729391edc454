/**
 The simple view of a side: one list of resting orders in priority order, filled greedily.
 The level-by-level engine is shown to compute exactly this.
 */
module Priority {
  import opened Options
  import opened BookSpec
  import opened BookLemmas
  import opened MatchSteps

  datatype Resting = Resting(id: string, price: u64, rem: nat)

  function Tag(price: u64, queue: seq<Entry>): seq<Resting> {
    seq(|queue|, i requires 0 <= i < |queue| => Resting(queue[i].id, price, queue[i].rem))
  }

  /** Best price first, oldest first within a price. */
  function Flat(levels: seq<Level>): seq<Resting> {
    if levels == [] then [] else Tag(levels[0].price, levels[0].queue) + Flat(levels[1..])
  }

  datatype Taken = Taken(rest: seq<Resting>, trades: seq<Trade>, left: nat)

  /** Take from the front of the list until the quantity or the price gives out. */
  function Greedy(s: seq<Resting>, t: Ticket, q: nat): Taken {
    if s == [] || q == 0 || !Crosses(t, s[0].price) then
      Taken(s, [], q)
    else if q < s[0].rem then
      Taken([s[0].(rem := s[0].rem - q)] + s[1..], [Trade(s[0].id, t.id, s[0].price, q)], 0)
    else
      var r := Greedy(s[1..], t, q - s[0].rem);
      Taken(r.rest, [Trade(s[0].id, t.id, s[0].price, s[0].rem)] + r.trades, r.left)
  }

  /** Behind everything at this price or better. */
  function Place(s: seq<Resting>, desc: bool, r: Resting): seq<Resting> {
    if s == [] || Better(desc, r.price, s[0].price) then [r] + s
    else [s[0]] + Place(s[1..], desc, r)
  }

  // ---- a level can be filled in one go ----------------------------------------------------

  lemma {:induction false} GreedyLevel(price: u64, queue: seq<Entry>, rest: seq<Resting>, t: Ticket, q: nat)
    requires Crosses(t, price) && AllPositive(queue)
    ensures
      var f := FillQueue(queue, q, t.id, price);
      var r := Greedy(rest, t, f.left);
      Greedy(Tag(price, queue) + rest, t, q) ==
        if f.queue == [] then Taken(r.rest, f.trades + r.trades, r.left)
        else Taken(Tag(price, f.queue) + rest, f.trades, f.left)
  {
    hide Greedy, FillQueue, Tag;
    if queue == [] {
      FillStops(queue, q, t.id, price);
      TagNothing(price);
      assert [] + rest == rest && [] + Greedy(rest, t, q).trades == Greedy(rest, t, q).trades;
    } else {
      var first, tail := Resting(queue[0].id, price, queue[0].rem), Tag(price, queue[1..]) + rest;
      TagCons(price, queue);
      assert Tag(price, queue) + rest == [first] + tail;
      if q == 0 {
        FillStops(queue, 0, t.id, price);
        GreedyNothing([first] + tail, t);
      } else if queue[0].rem <= q {
        GreedyLevel(price, queue[1..], rest, t, q - queue[0].rem);
        FillOne(queue, q, t.id, price);
        GreedyOne(first, tail, t, q);
        var f' := FillQueue(queue[1..], q - queue[0].rem, t.id, price);
        var trade, r := Trade(first.id, t.id, price, first.rem), Greedy(rest, t, f'.left);
        assert [trade] + (f'.trades + r.trades) == ([trade] + f'.trades) + r.trades;
      } else {
        LastOfLevel(price, queue, rest, t, q);
      }
    }
  }

  lemma TagNothing(price: u64)
    ensures Tag(price, []) == []
  {
  }

  lemma TagCons(price: u64, queue: seq<Entry>)
    requires queue != []
    ensures Tag(price, queue) == [Resting(queue[0].id, price, queue[0].rem)] + Tag(price, queue[1..])
    ensures Tag(price, []) == []
  {
  }

  lemma GreedyNothing(s: seq<Resting>, t: Ticket)
    ensures Greedy(s, t, 0) == Taken(s, [], 0)
  {
  }

  /** A greedy fill that uses up the first order goes on with the others. */
  lemma GreedyOne(first: Resting, tail: seq<Resting>, t: Ticket, q: nat)
    requires 0 < q && first.rem <= q && Crosses(t, first.price)
    ensures
      var r := Greedy(tail, t, q - first.rem);
      Greedy([first] + tail, t, q) == Taken(r.rest, [Trade(first.id, t.id, first.price, first.rem)] + r.trades, r.left)
  {
    assert ([first] + tail)[1..] == tail;
  }

  /** The fill ends inside the first order. */
  lemma LastOfLevel(price: u64, queue: seq<Entry>, rest: seq<Resting>, t: Ticket, q: nat)
    requires queue != [] && 0 < q < queue[0].rem && Crosses(t, price)
    ensures
      var f := FillQueue(queue, q, t.id, price);
      f.queue != [] && Greedy(Tag(price, queue) + rest, t, q) == Taken(Tag(price, f.queue) + rest, f.trades, f.left)
  {
    var s, e := Tag(price, queue) + rest, Entry(queue[0].id, queue[0].rem - q);
    assert s[1..] == Tag(price, queue[1..]) + rest;
    assert Tag(price, [e] + queue[1..]) + rest == [s[0].(rem := s[0].rem - q)] + s[1..];
  }

  /**
   Sweeping the levels is the greedy fill of the flat list, overflow or not; a level that is lost is
   the front of what is left over.
   */
  lemma {:induction false} SweepIsGreedy(levels: seq<Level>, t: Ticket, q: nat)
    requires Stocked(levels)
    ensures
      var s, g := Sweep(levels, t, q), Greedy(Flat(levels), t, q);
      && Flat(LostLevels([], s.lost) + s.levels) == g.rest && s.trades == g.trades && s.left == g.left
      && Stocked(s.levels)
  {
    hide FillQueue, Sweep, Greedy, Flat, Tag, Volume, AllPositive;
    if levels != [] && q > 0 && Crosses(t, levels[0].price) {
      var price, queue, rest := levels[0].price, levels[0].queue, levels[1..];
      var f := FillQueue(queue, q, t.id, price);
      var l := Level(price, f.queue);
      assert levels == [levels[0]] + rest && levels[0 := l] == [l] + rest;
      FlatCons(levels[0], rest);
      FlatCons(l, rest);
      GreedyLevel(price, queue, Flat(rest), t, q);
      FillPositive(queue, q, t.id, price);
      ZeroVolume(f.queue);
      SweepStep(levels, t, q);
      if f.queue == [] {
        SweepIsGreedy(rest, t, f.left);
      } else {
        SweepStops(rest, t, 0);
        SweepStops([l] + rest, t, 0);
        assert f.trades + [] == f.trades && [] + ([l] + rest) == [l] + rest == LostLevels([], Some(l)) + rest;
      }
    } else {
      SweepStops(levels, t, q);
      GreedyStops(levels, t, q);
      assert [] + levels == levels;
    }
  }

  lemma {:induction false} FlatAppend(a: seq<Level>, b: seq<Level>)
    ensures Flat(a + b) == Flat(a) + Flat(b)
  {
    hide Tag;
    if a == [] {
      assert a + b == b;
    } else {
      assert (a + b)[1..] == a[1..] + b;
      FlatAppend(a[1..], b);
    }
  }

  /** The orders of these levels have only their prices. */
  lemma {:induction false} FlatPrices(levels: seq<Level>, p: u64)
    requires forall j | 0 <= j < |levels| :: levels[j].price != p
    ensures forall i | 0 <= i < |Flat(levels)| :: Flat(levels)[i].price != p
  {
    if levels != [] {
      FlatPrices(levels[1..], p);
    }
  }

  lemma FlatCons(l: Level, rest: seq<Level>)
    ensures Flat([l] + rest) == Tag(l.price, l.queue) + Flat(rest)
  {
    assert ([l] + rest)[1..] == rest;
  }

  lemma GreedyStops(levels: seq<Level>, t: Ticket, q: nat)
    requires Stocked(levels)
    requires levels == [] || q == 0 || !Crosses(t, levels[0].price)
    ensures Greedy(Flat(levels), t, q) == Taken(Flat(levels), [], q)
  {
    if levels != [] {
      assert Flat(levels)[0].price == levels[0].price;
    }
  }

  lemma {:induction false} FillPositive(queue: seq<Entry>, q: nat, taker: string, price: u64)
    requires AllPositive(queue)
    ensures AllPositive(FillQueue(queue, q, taker, price).queue)
  {
    if queue != [] && queue[0].rem <= q {
      FillPositive(queue[1..], q - queue[0].rem, taker, price);
    }
  }

  /** While the counters are honest no level is lost. */
  lemma {:induction false} SweepSound(levels: seq<Level>, t: Ticket, q: nat)
    requires Sound(levels)
    ensures
      var s, g := Sweep(levels, t, q), Greedy(Flat(levels), t, q);
      s.lost == None && Sound(s.levels) && Flat(s.levels) == g.rest && s.trades == g.trades && s.left == g.left
  {
    hide Greedy;
    SweepIsGreedy(levels, t, q);
    SweepKeepsSound(levels, t, q);
    assert [] + Sweep(levels, t, q).levels == Sweep(levels, t, q).levels;
  }

  lemma {:induction false} SweepKeepsSound(levels: seq<Level>, t: Ticket, q: nat)
    requires Sound(levels)
    ensures Sweep(levels, t, q).lost == None && Sound(Sweep(levels, t, q).levels)
  {
    hide FillQueue, Volume;
    if levels != [] && q > 0 && Crosses(t, levels[0].price) {
      var f := FillQueue(levels[0].queue, q, t.id, levels[0].price);
      FillSound(levels[0].queue, q, t.id, levels[0].price);
      ZeroVolume(f.queue);
      if f.queue == [] {
        SweepKeepsSound(levels[1..], t, f.left);
      }
    }
  }

  lemma {:induction false} FillSound(queue: seq<Entry>, q: nat, taker: string, price: u64)
    requires AllPositive(queue) && Volume(queue) < TWO64
    ensures var f := FillQueue(queue, q, taker, price); AllPositive(f.queue) && Volume(f.queue) < TWO64
  {
    if queue != [] && queue[0].rem <= q {
      FillSound(queue[1..], q - queue[0].rem, taker, price);
    } else if queue != [] && q > 0 {
      FillShrinks(queue, q, taker, price);
    }
  }

  /** No level is empty, and every order in it has quantity left. */
  predicate Stocked(levels: seq<Level>) {
    forall i | 0 <= i < |levels| :: levels[i].queue != [] && AllPositive(levels[i].queue)
  }

  /** No level is empty, every order in it is live, and its counter is honest. */
  predicate Sound(levels: seq<Level>) {
    forall i | 0 <= i < |levels| :: SoundLevel(levels[i])
  }

  predicate SoundLevel(l: Level) {
    l.queue != [] && AllPositive(l.queue) && Volume(l.queue) < TWO64
  }

  lemma SoundStocked(levels: seq<Level>)
    requires Sound(levels)
    ensures Stocked(levels)
  {
  }

  lemma SoundCons(l: Level, rest: seq<Level>)
    ensures Sound([l] + rest) <==> SoundLevel(l) && Sound(rest)
  {
    var all := [l] + rest;
    assert forall i | 0 <= i < |rest| :: all[i+1] == rest[i];
    if Sound(all) {
      assert SoundLevel(all[0]);
      forall i | 0 <= i < |rest| ensures SoundLevel(rest[i]) {
        assert SoundLevel(all[i+1]);
      }
    }
  }
}
