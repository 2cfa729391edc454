/**
 What every call keeps: sorted and uncrossed sides always, and an honest book (non-empty levels
 with honest counters, unique ids, an exact index) exactly when the new order is admissible.
 */
module Invariants {
  import opened Options
  import opened BookSpec
  import opened BookLemmas
  import opened MatchSteps
  import opened Priority

  predicate Sorted(levels: seq<Level>, desc: bool) {
    forall i, j | 0 <= i < j < |levels| :: Better(desc, levels[i].price, levels[j].price)
  }

  predicate Uncrossed(b: Book) {
    forall i, j | 0 <= i < |b.bids| && 0 <= j < |b.asks| :: b.bids[i].price < b.asks[j].price
  }

  predicate Ordered(b: Book) {
    Sorted(b.bids, true) && Sorted(b.asks, false) && Uncrossed(b)
  }

  // ---- the sweep only drops and shortens ----------------------------------------------------

  /** The prices of `l'` are the last prices of `l`. */
  predicate LastPrices(l: seq<Level>, l': seq<Level>) {
    |l'| <= |l| && forall i | 0 <= i < |l'| :: l'[i].price == l[|l| - |l'| + i].price
  }

  lemma {:induction false} SweepPrices(levels: seq<Level>, t: Ticket, q: nat)
    ensures
      var s := Sweep(levels, t, q);
      LastPrices(levels, s.levels) && (s.left > 0 ==> s.levels == [] || !Crosses(t, s.levels[0].price))
  {
    hide FillQueue, Volume;
    if levels != [] && q > 0 && Crosses(t, levels[0].price) {
      var f := FillQueue(levels[0].queue, q, t.id, levels[0].price);
      SweepStep(levels, t, q);
      if Volume(f.queue) % TWO64 == 0 {
        SweepPrices(levels[1..], t, f.left);
      }
    }
  }

  lemma {:induction false} InsertPrices(levels: seq<Level>, desc: bool, price: u64, e: Entry)
    requires Sorted(levels, desc)
    ensures
      var r := Insert(levels, desc, price, e);
      && r != [] && Sorted(r, desc)
      && (forall i | 0 <= i < |r| :: r[i].price == price || exists j | 0 <= j < |levels| :: r[i].price == levels[j].price)
      && (if levels == [] || Better(desc, price, levels[0].price) then r[0].price == price else r[0].price == levels[0].price)
  {
    if levels != [] && !Better(desc, price, levels[0].price) && levels[0].price != price {
      InsertPrices(levels[1..], desc, price, e);
      var rest := Insert(levels[1..], desc, price, e);
      var r := [levels[0]] + rest;
      forall j | 0 <= j < |rest| ensures Better(desc, levels[0].price, rest[j].price) {
      }
    }
  }

  /** In every reachable state the sides are sorted and the best bid is below the best ask. */
  lemma ProcessOrdered(b: Book, t: Ticket)
    requires Ordered(b)
    ensures Ordered(Process(b, t).book)
  {
    hide Sweep, Insert;
    var buy := t.side == BUY;
    var own, opp := b.Side(buy), b.Side(!buy);
    var s := Sweep(opp, t, t.qty);
    SweepPrices(opp, t, t.qty);
    if t.qty > 0 && s.left > 0 && t.kind == LIMIT {
      InsertPrices(own, buy, t.price, Entry(t.id, s.left));
    }
  }

  lemma CutOrdered(b: Book, buy: bool, j: nat)
    requires Ordered(b) && j < |b.Side(buy)|
    ensures Ordered(Cut(b, buy, j))
  {
    var levels := b.Side(buy);
    assert forall i | 0 <= i < |levels| - 1 :: Without(levels, j)[i] == levels[if i < j then i else i + 1];
  }

  lemma DetachedOrdered(b: Book, id: string)
    requires Ordered(b) && Found(b, id)
    ensures Ordered(Detached(b, id))
  {
    hide FindLast, At;
    var s := b.live[id];
    var levels := b.List(s)[b.Position(s) := Shortened(b, id)];
    assert forall i | 0 <= i < |levels| :: levels[i].price == b.List(s)[i].price;
  }

  lemma CancelOrdered(b: Book, id: string)
    requires Ordered(b)
    ensures Ordered(Cancel(b, id).book)
  {
    hide Cut, Detached, Volume, FindLast, At, Sorted;
    if Found(b, id) {
      DetachedOrdered(b, id);
      var b', buy, price := Detached(b, id), b.live[id].buy, Shortened(b, id).price;
      if At(b'.Side(buy), price) < |b'.Side(buy)| {
        CutOrdered(b', buy, At(b'.Side(buy), price));
      }
    }
  }

  // ---- identities -------------------------------------------------------------------------

  predicate Distinct(s: seq<Resting>) {
    forall i, j | 0 <= i < j < |s| :: s[i].id != s[j].id
  }

  predicate Apart(s: seq<Resting>, s': seq<Resting>) {
    forall i, j | 0 <= i < |s| && 0 <= j < |s'| :: s[i].id != s'[j].id
  }

  function IdSet(s: seq<Resting>): set<string> {
    set i | 0 <= i < |s| :: s[i].id
  }

  /** The index leads to every order of one side. */
  predicate Indexed(s: seq<Resting>, buy: bool, live: map<string, Spot>) {
    forall i | 0 <= i < |s| :: s[i].id in live && live[s[i].id] == Listed(buy, s[i].price)
  }

  /** The same of both sides, with ids that are unique over both; `own` is the side `buy`. */
  predicate Known(own: seq<Resting>, opp: seq<Resting>, buy: bool, live: map<string, Spot>) {
    && Distinct(own) && Distinct(opp) && Apart(own, opp)
    && Indexed(own, buy, live) && Indexed(opp, !buy, live)
  }

  /** The index leads to every resting order, and to none in place of another. */
  predicate AllKnown(b: Book) {
    Known(Flat(b.bids), Flat(b.asks), true, b.live)
  }

  /** Honest levels, none lost, and an index that knows exactly the resting orders. */
  predicate Tidy(b: Book) {
    && Sound(b.bids) && Sound(b.asks) && b.lost == []
    && AllKnown(b) && b.live.Keys == IdSet(Flat(b.bids)) + IdSet(Flat(b.asks))
  }

  predicate WellFormed(b: Book) {
    Ordered(b) && Tidy(b)
  }

  /** What every reachable book is; ids may repeat, counters may wrap, and the index may miss orders. */
  predicate Solid(b: Book) {
    Ordered(b) && Stocked(b.bids) && Stocked(b.asks)
  }

  /** `rest` is the end of `s` with the same orders, perhaps reduced. */
  predicate EndOf(s: seq<Resting>, rest: seq<Resting>) {
    |rest| <= |s| && forall i | 0 <= i < |rest| :: SameOrder(rest[i], s[|s| - |rest| + i])
  }

  predicate SameOrder(r: Resting, r': Resting) {
    r.id == r'.id && r.price == r'.price && r.rem <= r'.rem
  }

  lemma EndOfTail(s: seq<Resting>, rest: seq<Resting>)
    requires s != [] && EndOf(s[1..], rest)
    ensures EndOf(s, rest)
  {
    forall i | 0 <= i < |rest| ensures SameOrder(rest[i], s[|s| - |rest| + i]) {
      assert s[1..][|s| - 1 - |rest| + i] == s[|s| - |rest| + i];
    }
  }

  /** Greedy fills consume a prefix of crossing orders; the rest keeps its order. */
  lemma {:induction false} GreedyRest(s: seq<Resting>, t: Ticket, q: nat)
    ensures EndOf(s, Greedy(s, t, q).rest)
  {
    hide EndOf;
    if s != [] && q > 0 && Crosses(t, s[0].price) && s[0].rem <= q {
      GreedyRest(s[1..], t, q - s[0].rem);
      EndOfTail(s, Greedy(s, t, q).rest);
    } else {
      FirstReduced(s, q);
    }
  }

  lemma FirstReduced(s: seq<Resting>, q: nat)
    ensures EndOf(s, s)
    ensures s != [] && q < s[0].rem ==> EndOf(s, [s[0].(rem := s[0].rem - q)] + s[1..])
  {
  }

  lemma {:induction false} GreedyCrossed(s: seq<Resting>, t: Ticket, q: nat)
    ensures |Greedy(s, t, q).rest| <= |s|
    ensures forall i | 0 <= i < |s| - |Greedy(s, t, q).rest| :: Crosses(t, s[i].price)
  {
    if s != [] && q > 0 && Crosses(t, s[0].price) && s[0].rem <= q {
      GreedyCrossed(s[1..], t, q - s[0].rem);
    }
  }

  /** `left` is as long as the end of `s`, and `gone` are the ids of what was in front of it. */
  predicate Consumed(s: seq<Resting>, left: seq<Resting>, gone: set<string>) {
    |left| <= |s| && gone == IdSet(s[..|s| - |left|])
  }

  lemma ConsumedNothing(s: seq<Resting>)
    ensures Consumed(s, s, {})
  {
  }

  lemma ConsumedAll(a: seq<Resting>, s: seq<Resting>, left: seq<Resting>, gone: set<string>, gone': set<string>)
    requires Consumed(a, [], gone) && Consumed(s, left, gone')
    ensures Consumed(a + s, left, gone + gone')
  {
    hide IdSet;
    var d := |s| - |left|;
    assert a[..|a| - 0] == a && (a + s)[..|a| + d] == a + s[..d];
    IdSetAppend(a, s[..d]);
  }

  lemma ConsumedPart(a: seq<Resting>, left: seq<Resting>, gone: set<string>, s: seq<Resting>)
    requires Consumed(a, left, gone)
    ensures Consumed(a + s, left + s, gone)
  {
    hide IdSet;
    assert (a + s)[..|a| - |left|] == a[..|a| - |left|];
  }

  lemma ConsumedOne(r: Resting)
    ensures Consumed([r], [], {r.id})
  {
    assert [r][..1] == [r];
    OneId(r);
  }

  lemma TagReduced(price: u64, queue: seq<Entry>, e: Entry)
    requires queue != []
    ensures |Tag(price, [e] + queue[1..])| == |Tag(price, queue)|
  {
  }

  lemma SameLength(s: seq<Resting>, left: seq<Resting>)
    requires |left| == |s|
    ensures Consumed(s, left, {})
  {
  }

  lemma {:induction false} FillGone(queue: seq<Entry>, q: nat, taker: string, price: u64)
    ensures var f := FillQueue(queue, q, taker, price); Consumed(Tag(price, queue), Tag(price, f.queue), f.gone)
  {
    hide Tag, Consumed;
    if queue == [] || q == 0 {
      ConsumedNothing(Tag(price, queue));
    } else if queue[0].rem <= q {
      var f' := FillQueue(queue[1..], q - queue[0].rem, taker, price);
      var r := Resting(queue[0].id, price, queue[0].rem);
      FillGone(queue[1..], q - queue[0].rem, taker, price);
      TagCons(price, queue);
      ConsumedOne(r);
      ConsumedAll([r], Tag(price, queue[1..]), Tag(price, f'.queue), {r.id}, f'.gone);
    } else {
      TagReduced(price, queue, Entry(queue[0].id, queue[0].rem - q));
      SameLength(Tag(price, queue), Tag(price, [Entry(queue[0].id, queue[0].rem - q)] + queue[1..]));
    }
  }

  lemma IdSetAppend(a: seq<Resting>, b: seq<Resting>)
    ensures IdSet(a + b) == IdSet(a) + IdSet(b)
  {
    forall x | x in IdSet(a) + IdSet(b) ensures x in IdSet(a + b) {
      if x in IdSet(a) {
        var i :| 0 <= i < |a| && a[i].id == x;
        assert (a + b)[i].id == x;
      } else {
        var i :| 0 <= i < |b| && b[i].id == x;
        assert (a + b)[|a| + i].id == x;
      }
    }
  }

  /** The ids a sweep takes out of the index are those of the orders it consumed. */
  lemma {:induction false} SweepGone(levels: seq<Level>, t: Ticket, q: nat)
    requires Stocked(levels)
    ensures
      var s := Sweep(levels, t, q);
      Consumed(Flat(levels), Flat(LostLevels([], s.lost) + s.levels), s.gone)
  {
    hide FillQueue, Sweep, Flat, Volume, Tag, AllPositive, Consumed;
    if levels != [] && q > 0 && Crosses(t, levels[0].price) {
      var price, queue, rest := levels[0].price, levels[0].queue, levels[1..];
      var f := FillQueue(queue, q, t.id, price);
      var l := Level(price, f.queue);
      assert levels == [levels[0]] + rest && levels[0 := l] == [l] + rest;
      FlatCons(levels[0], rest);
      FillGone(queue, q, t.id, price);
      FillPositive(queue, q, t.id, price);
      ZeroVolume(f.queue);
      SweepStep(levels, t, q);
      if f.queue == [] {
        var r := Sweep(rest, t, f.left);
        SweepGone(rest, t, f.left);
        TagCons(price, queue);
        ConsumedAll(Tag(price, queue), Flat(rest), Flat(LostLevels([], r.lost) + r.levels), f.gone, r.gone);
      } else {
        SweepStops(rest, t, 0);
        SweepStops([l] + rest, t, 0);
        FlatCons(l, rest);
        ConsumedPart(Tag(price, queue), Tag(price, f.queue), f.gone, Flat(rest));
        assert f.gone + {} == f.gone && [] + ([l] + rest) == [l] + rest == LostLevels([], Some(l)) + rest;
      }
    } else {
      SweepStops(levels, t, q);
      ConsumedNothing(Flat(levels));
      assert [] + levels == levels;
    }
  }

  /** A level is lost only by the last fill of an order, and it was ahead of all that remain. */
  lemma {:induction false} SweepLost(levels: seq<Level>, t: Ticket, q: nat, desc: bool)
    requires Sorted(levels, desc)
    ensures
      var s := Sweep(levels, t, q);
      s.lost != None ==>
        && s.left == 0 && Crosses(t, s.lost.value.price) && Volume(s.lost.value.queue) % TWO64 == 0
        && forall i | 0 <= i < |s.levels| :: s.levels[i].price != s.lost.value.price
  {
    hide FillQueue, Sweep, Volume;
    if levels != [] && q > 0 && Crosses(t, levels[0].price) {
      var f := FillQueue(levels[0].queue, q, t.id, levels[0].price);
      SweepStep(levels, t, q);
      if f.queue == [] && Volume(f.queue) % TWO64 == 0 {
        SweepLost(levels[1..], t, f.left, desc);
      } else {
        SweepStops(levels[1..], t, 0);
        SweepStops(levels[0 := Level(levels[0].price, f.queue)], t, 0);
      }
    } else {
      SweepStops(levels, t, q);
    }
  }

  lemma TagLength(price: u64, queue: seq<Entry>)
    ensures |Tag(price, queue)| == |queue|
  {
  }

  // ---- resting ------------------------------------------------------------------------------

  lemma {:induction false} PlaceSkips(price: u64, queue: seq<Entry>, rest: seq<Resting>, desc: bool, r: Resting)
    requires !Better(desc, r.price, price)
    ensures Place(Tag(price, queue) + rest, desc, r) == Tag(price, queue) + Place(rest, desc, r)
  {
    var s := Tag(price, queue) + rest;
    if queue == [] {
      assert s == rest;
    } else {
      assert s[1..] == Tag(price, queue[1..]) + rest;
      PlaceSkips(price, queue[1..], rest, desc, r);
      assert Tag(price, queue) == [s[0]] + Tag(price, queue[1..]);
    }
  }

  /** Inserting into the levels is placing behind every order at this price or better. */
  lemma {:induction false} InsertIsPlace(levels: seq<Level>, desc: bool, price: u64, e: Entry)
    requires Sorted(levels, desc) && Stocked(levels)
    ensures Flat(Insert(levels, desc, price, e)) == Place(Flat(levels), desc, Resting(e.id, price, e.rem))
  {
    hide Place, Volume;
    var r := Resting(e.id, price, e.rem);
    assert Tag(price, [e]) == [r];
    if levels == [] || Better(desc, price, levels[0].price) {
      PlaceFirst(levels, desc, r);
    } else {
      PlaceSkips(levels[0].price, levels[0].queue, Flat(levels[1..]), desc, r);
      if levels[0].price == price {
        PlaceFirst(levels[1..], desc, r);
        assert Tag(price, levels[0].queue + [e]) == Tag(price, levels[0].queue) + [r];
      } else {
        InsertIsPlace(levels[1..], desc, price, e);
      }
    }
  }

  lemma PlaceFirst(levels: seq<Level>, desc: bool, r: Resting)
    requires Stocked(levels) && (levels == [] || Better(desc, r.price, levels[0].price))
    ensures Place(Flat(levels), desc, r) == [r] + Flat(levels)
  {
    if levels != [] {
      assert Flat(levels)[0].price == levels[0].price;
    }
  }

  lemma {:induction false} PlaceSplits(s: seq<Resting>, desc: bool, r: Resting) returns (k: nat)
    ensures k <= |s| && Place(s, desc, r) == s[..k] + [r] + s[k..]
    ensures forall i | 0 <= i < k :: !Better(desc, r.price, s[i].price)
    ensures k < |s| ==> Better(desc, r.price, s[k].price)
  {
    if s == [] || Better(desc, r.price, s[0].price) {
      k := 0;
    } else {
      var k' := PlaceSplits(s[1..], desc, r);
      k := k' + 1;
      assert forall i | 0 < i < k :: s[i] == s[1..][i-1];
    }
  }

  // ---- quantities -----------------------------------------------------------------------------

  /** Remaining quantity over the orders that satisfy `f`. */
  function Total(s: seq<Resting>, f: Resting -> bool): nat {
    if s == [] then 0 else (if f(s[0]) then s[0].rem else 0) + Total(s[1..], f)
  }

  function Everyone(): Resting -> bool {
    (r: Resting) => true
  }

  function Crossing(t: Ticket): Resting -> bool {
    (r: Resting) => Crosses(t, r.price)
  }

  function AtPrice(p: u64): Resting -> bool {
    (r: Resting) => r.price == p
  }

  lemma {:induction false} TotalAppend(a: seq<Resting>, b: seq<Resting>, f: Resting -> bool)
    ensures Total(a + b, f) == Total(a, f) + Total(b, f)
  {
    if a == [] {
      assert a + b == b;
    } else {
      assert (a + b)[1..] == a[1..] + b;
      TotalAppend(a[1..], b, f);
    }
  }

  lemma {:induction false} TotalNone(s: seq<Resting>, f: Resting -> bool)
    requires forall i | 0 <= i < |s| :: !f(s[i])
    ensures Total(s, f) == 0
  {
    if s != [] {
      TotalNone(s[1..], f);
    }
  }

  predicate SortedFlat(s: seq<Resting>, desc: bool) {
    forall i, j | 0 <= i < j < |s| :: !Better(desc, s[j].price, s[i].price)
  }

  lemma {:induction false} FlatSorted(levels: seq<Level>, desc: bool)
    requires Sorted(levels, desc)
    ensures SortedFlat(Flat(levels), desc)
    ensures forall i | 0 <= i < |Flat(levels)| :: exists j | 0 <= j < |levels| :: Flat(levels)[i].price == levels[j].price
  {
    if levels != [] {
      FlatSorted(levels[1..], desc);
    }
  }

  /** The fill is the smaller of the order and everything it crosses, and what it leaves it does not cross. */
  lemma {:induction false} GreedyFill(s: seq<Resting>, t: Ticket, q: nat)
    requires SortedFlat(s, t.side != BUY)
    ensures
      var g := Greedy(s, t, q);
      var v := Total(s, Crossing(t));
      && g.left == (if q <= v then 0 else q - v)
      && (g.left > 0 ==> forall i | 0 <= i < |g.rest| :: !Crosses(t, g.rest[i].price))
  {
    if s != [] {
      if !Crosses(t, s[0].price) {
        TotalNone(s, Crossing(t));
      } else if q >= s[0].rem && q > 0 {
        GreedyFill(s[1..], t, q - s[0].rem);
      }
    }
  }

  // ---- when the book stays tidy -----------------------------------------------------------------

  /**
   A caller can check this before the call: if the order will rest, its id is not that of an
   order that stays in the book, and its remainder fits the counter of its level.
   */
  predicate Admissible(b: Book, t: Ticket) {
    var buy := t.side == BUY;
    var v := Total(Flat(b.Side(!buy)), Crossing(t));
    && FreeId(b, t)
    && (t.kind == LIMIT && t.qty > v ==> Total(Flat(b.Side(buy)), AtPrice(t.price)) + (t.qty - v) < TWO64)
  }

  /** If the order will rest, its id is not that of an order that stays in the book. */
  predicate FreeId(b: Book, t: Ticket) {
    var own, opp := Flat(b.Side(t.side == BUY)), Flat(b.Side(t.side != BUY));
    t.kind == LIMIT && t.qty > Total(opp, Crossing(t)) ==> IdFree(t, own, opp)
  }

  /** No order of the taker's side, and none it does not cross, has its id. */
  predicate IdFree(t: Ticket, own: seq<Resting>, opp: seq<Resting>) {
    && (forall i | 0 <= i < |own| :: own[i].id != t.id)
    && (forall i | 0 <= i < |opp| :: !Crosses(t, opp[i].price) ==> opp[i].id != t.id)
  }

  lemma {:induction false} TagTotal(price: u64, queue: seq<Entry>, p: u64)
    ensures Total(Tag(price, queue), AtPrice(p)) == if price == p then Volume(queue) else 0
  {
    if queue != [] {
      assert Tag(price, queue)[1..] == Tag(price, queue[1..]);
      TagTotal(price, queue[1..], p);
    }
  }

  lemma {:induction false} NoneAtPrice(levels: seq<Level>, p: u64)
    requires forall i | 0 <= i < |levels| :: levels[i].price != p
    ensures Total(Flat(levels), AtPrice(p)) == 0
  {
    if levels != [] {
      TagTotal(levels[0].price, levels[0].queue, p);
      TotalAppend(Tag(levels[0].price, levels[0].queue), Flat(levels[1..]), AtPrice(p));
      NoneAtPrice(levels[1..], p);
    }
  }

  /** Inserting keeps the counters honest exactly when the volume at the price still fits. */
  lemma {:induction false} InsertSound(levels: seq<Level>, desc: bool, price: u64, e: Entry)
    requires Sorted(levels, desc) && Sound(levels) && e.rem > 0
    ensures Sound(Insert(levels, desc, price, e)) <==> Total(Flat(levels), AtPrice(price)) + e.rem < TWO64
  {
    hide Flat, Total, Sorted, Sound, AllPositive, Volume;
    OneEntry(price, e);
    if levels == [] || Better(desc, price, levels[0].price) {
      WorseThan(levels, desc, price);
      NoneAtPrice(levels, price);
      SoundCons(Level(price, [e]), levels);
    } else {
      var queue, rest := levels[0].queue, levels[1..];
      assert levels == [levels[0]] + rest;
      SoundCons(levels[0], rest);
      WorseThan(levels, desc, price);
      FlatTotal(levels, AtPrice(price));
      TagTotal(levels[0].price, queue, price);
      if levels[0].price == price {
        NoneAtPrice(rest, price);
        VolumeAppend(queue, [e]);
        PositiveAppend(queue, e);
        SoundCons(Level(price, queue + [e]), rest);
      } else {
        InsertSound(rest, desc, price, e);
        SoundCons(levels[0], Insert(rest, desc, price, e));
      }
    }
  }

  lemma OneEntry(price: u64, e: Entry)
    ensures Volume([e]) == e.rem
    ensures e.rem > 0 ==> (SoundLevel(Level(price, [e])) <==> e.rem < TWO64)
  {
  }

  lemma PositiveAppend(queue: seq<Entry>, e: Entry)
    requires AllPositive(queue) && e.rem > 0
    ensures AllPositive(queue + [e])
  {
  }

  /** In a sorted side only the first level can have a price that is no better than the first's. */
  lemma WorseThan(levels: seq<Level>, desc: bool, price: u64)
    requires Sorted(levels, desc)
    ensures levels != [] ==> Sorted(levels[1..], desc)
    ensures (levels == [] || Better(desc, price, levels[0].price)) ==>
              forall i | 0 <= i < |levels| :: levels[i].price != price
    ensures levels != [] && levels[0].price == price ==> forall i | 0 <= i < |levels[1..]| :: levels[1..][i].price != price
  {
  }

  lemma FlatTotal(levels: seq<Level>, f: Resting -> bool)
    requires levels != []
    ensures Total(Flat(levels), f) == Total(Tag(levels[0].price, levels[0].queue), f) + Total(Flat(levels[1..]), f)
  {
    TotalAppend(Tag(levels[0].price, levels[0].queue), Flat(levels[1..]), f);
  }

  lemma PrefixIds(s: seq<Resting>, d: nat)
    requires d <= |s| && Distinct(s)
    ensures IdSet(s) - IdSet(s[..d]) == IdSet(s[d..]) && Distinct(s[d..])
  {
    assert s == s[..d] + s[d..];
    IdSetAppend(s[..d], s[d..]);
    forall x | x in IdSet(s[d..]) ensures x !in IdSet(s[..d]) {
      var i :| 0 <= i < |s[d..]| && s[d..][i].id == x;
      assert s[d+i].id == x;
    }
  }

  lemma SameIds(s: seq<Resting>, s': seq<Resting>)
    requires |s| == |s'| && forall i | 0 <= i < |s| :: s[i].id == s'[i].id
    ensures IdSet(s) == IdSet(s') && (Distinct(s) <==> Distinct(s'))
  {
    assert forall i | 0 <= i < |s| :: s'[i].id in IdSet(s') && s[i].id in IdSet(s);
  }

  lemma ApartIds(a: seq<Resting>, b: seq<Resting>)
    ensures Apart(a, b) <==> IdSet(a) !! IdSet(b)
  {
    assert forall i | 0 <= i < |a| :: a[i].id in IdSet(a);
    assert forall i | 0 <= i < |b| :: b[i].id in IdSet(b);
  }

  lemma IndexedKeeps(s: seq<Resting>, buy: bool, live: map<string, Spot>, gone: set<string>)
    requires Indexed(s, buy, live) && IdSet(s) !! gone
    ensures Indexed(s, buy, live - gone)
  {
    assert forall i | 0 <= i < |s| :: s[i].id in IdSet(s);
  }

  lemma IndexedEnd(s: seq<Resting>, rest: seq<Resting>, buy: bool, live: map<string, Spot>)
    requires Indexed(s, buy, live) && EndOf(s, rest)
    ensures Indexed(rest, buy, live)
  {
    forall i | 0 <= i < |rest| ensures rest[i].id in live && live[rest[i].id] == Listed(buy, rest[i].price) {
      assert SameOrder(rest[i], s[|s| - |rest| + i]);
    }
  }

  lemma IndexedThin(a: seq<Resting>, m: seq<Resting>, c: seq<Resting>, buy: bool, live: map<string, Spot>)
    requires Indexed(a + m + c, buy, live)
    ensures Indexed(a + c, buy, live)
  {
    var s := a + m + c;
    assert forall i | 0 <= i < |a| :: s[i] == a[i];
    assert forall i | 0 <= i < |c| :: s[|a| + |m| + i] == c[i];
  }

  /** Losing a level moves no spot of orders on the other side or at other prices. */
  lemma IndexedLost(s: seq<Resting>, buy: bool, live: map<string, Spot>, side: bool, k: nat, l: Option<Level>)
    requires Indexed(s, buy, live)
    requires l != None && side == buy ==> forall i | 0 <= i < |s| :: s[i].price != l.value.price
    ensures Indexed(s, buy, LostIndex(live, side, k, l))
  {
  }

  lemma KnownEither(own: seq<Resting>, opp: seq<Resting>, buy: bool, live: map<string, Spot>)
    ensures Known(own, opp, buy, live) <==> Known(opp, own, !buy, live)
  {
    ApartIds(own, opp);
    ApartIds(opp, own);
  }

  lemma KnownSide(b: Book, buy: bool)
    ensures AllKnown(b) <==> Known(Flat(b.Side(buy)), Flat(b.Side(!buy)), buy, b.live)
  {
    KnownEither(Flat(b.bids), Flat(b.asks), true, b.live);
  }

  /** What a fill leaves of a list keeps its ids, and loses those of the orders it consumed. */
  lemma KnownRest(own: seq<Resting>, f: seq<Resting>, rest: seq<Resting>, buy: bool, live: map<string, Spot>,
                  gone: set<string>)
    requires Known(own, f, buy, live) && EndOf(f, rest) && Consumed(f, rest, gone)
    ensures Known(own, rest, buy, live - gone) && IdSet(rest) == IdSet(f) - gone && IdSet(own) !! gone
  {
    hide IdSet, Distinct, Apart, Indexed, EndOf;
    EndLength(f, rest);
    var d := |f| - |rest|;
    PrefixIds(f, d);
    SameIds(rest, f[d..]);
    assert f == f[..d] + f[d..];
    IdSetAppend(f[..d], f[d..]);
    ApartIds(own, f);
    ApartIds(own, rest);
    IndexedEnd(f, rest, !buy, live);
    IndexedKeeps(rest, !buy, live, gone);
    IndexedKeeps(own, buy, live, gone);
  }

  /** Matching alone never makes an order unknown. */
  lemma MatchedKnown(b: Book, t: Ticket, q: nat)
    requires Solid(b) && AllKnown(b)
    ensures
      var buy := t.side == BUY;
      var s := Sweep(b.Side(!buy), t, q);
      AllKnown(Matched(b, buy, s)) && (s.lost == None ==> IdSet(Flat(s.levels)) == IdSet(Flat(b.Side(!buy))) - s.gone)
    ensures var buy := t.side == BUY; IdSet(Flat(b.Side(buy))) !! Sweep(b.Side(!buy), t, q).gone
  {
    hide Sweep, Greedy, Flat, Stocked, Uncrossed, IdSet, Known, Indexed, EndOf, Consumed;
    var buy := t.side == BUY;
    var own, opp, f := Flat(b.Side(buy)), b.Side(!buy), Flat(b.Side(!buy));
    var s := Sweep(opp, t, q);
    var lost := LostLevels([], s.lost);
    KnownSide(b, buy);
    SweepIsGreedy(opp, t, q);
    GreedyRest(f, t, q);
    SweepGone(opp, t, q);
    KnownRest(own, f, Flat(lost + s.levels), buy, b.live, s.gone);
    FlatAppend(lost, s.levels);
    SweepLost(opp, t, q, !buy);
    if s.lost != None {
      FlatPrices(s.levels, s.lost.value.price);
    } else {
      assert [] + s.levels == s.levels;
    }
    assert [] + Flat(lost) == Flat(lost) && [] + Flat(s.levels) == Flat(s.levels);
    KnownLost(own, [], Flat(lost), Flat(s.levels), buy, b.live - s.gone, |b.lost|, s.lost);
    KnownSide(Matched(b, buy, s), buy);
  }

  /** The orders of a level leave their side, which is the one opposite to `buy`. */
  lemma KnownLost(own: seq<Resting>, a: seq<Resting>, lost: seq<Resting>, c: seq<Resting>, buy: bool,
                  live: map<string, Spot>, k: nat, l: Option<Level>)
    requires Known(own, a + lost + c, buy, live)
    requires l != None ==> forall i | 0 <= i < |a| :: a[i].price != l.value.price
    requires l != None ==> forall i | 0 <= i < |c| :: c[i].price != l.value.price
    ensures Known(own, a + c, buy, LostIndex(live, !buy, k, l))
  {
    hide Distinct, Apart, Indexed, IdSet, LostIndex;
    DistinctAppend(a + lost, c);
    DistinctAppend(a, lost);
    DistinctAppend(a, c);
    IndexedThin(a, lost, c, !buy, live);
    IdSetAppend(a + lost, c);
    IdSetAppend(a, lost);
    IdSetAppend(a, c);
    ApartIds(a + lost, c);
    ApartIds(a, c);
    ApartIds(own, a + lost + c);
    ApartIds(own, a + c);
    IndexedLost(own, buy, live, !buy, k, l);
    IndexedLost(a + c, !buy, live, !buy, k, l);
  }

  /** Matching alone never makes a tidy book untidy. */
  lemma MatchedTidy(b: Book, t: Ticket, q: nat)
    requires WellFormed(b)
    ensures var buy := t.side == BUY; Tidy(Matched(b, buy, Sweep(b.Side(!buy), t, q)))
  {
    hide Sweep, Greedy, Flat, Sound, Stocked, Ordered, IdSet, Known;
    SoundStocked(b.bids);
    SoundStocked(b.asks);
    MatchedKnown(b, t, q);
    SweepSound(b.Side(t.side != BUY), t, q);
  }

  lemma EndLength(s: seq<Resting>, rest: seq<Resting>)
    requires EndOf(s, rest)
    ensures |rest| <= |s| && forall i | 0 <= i < |rest| :: rest[i].id == s[|s| - |rest|..][i].id
  {
    assert forall i | 0 <= i < |rest| :: SameOrder(rest[i], s[|s| - |rest| + i]);
  }

  lemma DistinctAppend(a: seq<Resting>, b: seq<Resting>)
    ensures Distinct(a + b) <==> Distinct(a) && Distinct(b) && Apart(a, b)
  {
    var s := a + b;
    if Distinct(s) {
      assert a == s[..|a|] && b == s[|a|..];
      forall i, j | 0 <= i < |a| && 0 <= j < |b| ensures a[i].id != b[j].id {
        assert s[i] == a[i] && s[|a| + j] == b[j];
      }
    }
  }

  lemma PlaceIds(s: seq<Resting>, k: nat, r: Resting)
    requires k <= |s| && Distinct(s)
    ensures
      var s' := s[..k] + [r] + s[k..];
      IdSet(s') == IdSet(s) + {r.id} && (Distinct(s') <==> r.id !in IdSet(s))
  {
    hide Distinct, Apart, IdSet;
    var a, b := s[..k], s[k..];
    assert s == a + b;
    OneId(r);
    DistinctAppend(a, b);
    DistinctAppend(a + [r], b);
    DistinctAppend(a, [r]);
    IdSetAppend(a + [r], b);
    IdSetAppend(a, [r]);
    IdSetAppend(a, b);
    ApartIds(a, b);
    ApartIds(a, [r]);
    ApartIds(a + [r], b);
  }

  lemma OneId(r: Resting)
    ensures IdSet([r]) == {r.id} && Distinct([r])
  {
    assert [r][0].id in IdSet([r]);
  }

  lemma IndexedPlace(s: seq<Resting>, k: nat, r: Resting, buy: bool, live: map<string, Spot>)
    requires k <= |s| && Indexed(s, buy, live) && r.id !in IdSet(s)
    ensures Indexed(s[..k] + [r] + s[k..], buy, live[r.id := Listed(buy, r.price)])
  {
    InIdSet(s, r.id);
  }

  lemma IndexedOther(s: seq<Resting>, buy: bool, live: map<string, Spot>, id: string, spot: Spot)
    requires Indexed(s, buy, live) && id !in IdSet(s)
    ensures Indexed(s, buy, live[id := spot])
  {
    InIdSet(s, id);
  }

  /** A new order leaves all orders known exactly when no other has its id. */
  lemma KnownPlace(own: seq<Resting>, opp: seq<Resting>, k: nat, r: Resting, buy: bool, live: map<string, Spot>)
    requires k <= |own| && Known(own, opp, buy, live)
    ensures
      var own' := own[..k] + [r] + own[k..];
      && IdSet(own') == IdSet(own) + {r.id}
      && (Known(own', opp, buy, live[r.id := Listed(buy, r.price)]) <==> r.id !in IdSet(own) + IdSet(opp))
  {
    hide Distinct, Apart, Indexed, IdSet;
    var own' := own[..k] + [r] + own[k..];
    PlaceIds(own, k, r);
    ApartIds(own, opp);
    ApartIds(own', opp);
    if r.id !in IdSet(own) + IdSet(opp) {
      IndexedPlace(own, k, r, buy, live);
      IndexedOther(opp, !buy, live, r.id, Listed(buy, r.price));
    }
  }

  lemma RestedKnown(b: Book, buy: bool, price: u64, e: Entry)
    requires AllKnown(b) && Sorted(b.Side(buy), buy) && Stocked(b.Side(buy))
    ensures
      var b', ids := Rested(b, buy, price, e), IdSet(Flat(b.Side(buy))) + IdSet(Flat(b.Side(!buy)));
      && (AllKnown(b') <==> e.id !in ids)
      && IdSet(Flat(b'.Side(buy))) + IdSet(Flat(b'.Side(!buy))) == ids + {e.id}
  {
    hide Insert, Flat, Stocked, Sorted, Place, Known, IdSet;
    var own, opp, r := b.Side(buy), b.Side(!buy), Resting(e.id, price, e.rem);
    InsertIsPlace(own, buy, price, e);
    var k := PlaceSplits(Flat(own), buy, r);
    KnownSide(b, buy);
    KnownPlace(Flat(own), Flat(opp), k, r, buy, b.live);
    KnownSide(Rested(b, buy, price, e), buy);
  }

  /** Resting keeps the book tidy exactly when the id is new and the volume fits. */
  lemma RestedTidy(b: Book, buy: bool, price: u64, e: Entry)
    requires Tidy(b) && Sorted(b.Side(buy), buy) && e.rem > 0
    ensures Tidy(Rested(b, buy, price, e)) <==>
            e.id !in b.live && Total(Flat(b.Side(buy)), AtPrice(price)) + e.rem < TWO64
  {
    hide Insert, Flat, Sound, Stocked, IdSet, Total, Known, Sorted;
    SoundStocked(b.Side(buy));
    RestedKnown(b, buy, price, e);
    InsertSound(b.Side(buy), buy, price, e);
  }

  /**
   The index goes on leading to every resting order if and only if the order does not rest under the
   id of another; overflow does not matter.
   */
  lemma ProcessKnown(b: Book, t: Ticket)
    requires Solid(b) && AllKnown(b)
    ensures AllKnown(Process(b, t).book) <==> FreeId(b, t)
  {
    hide Sweep, Flat, AllKnown, Stocked, Sorted, Uncrossed, Total, Greedy, IdSet, IdFree, Rested;
    var buy := t.side == BUY;
    var own, opp := b.Side(buy), b.Side(!buy);
    var s := Sweep(opp, t, t.qty);
    var b' := Matched(b, buy, s);
    MatchedKnown(b, t, t.qty);
    FlatSorted(opp, !buy);
    SweepIsGreedy(opp, t, t.qty);
    GreedyFill(Flat(opp), t, t.qty);
    SweepLost(opp, t, t.qty, !buy);
    if t.qty > 0 && s.left > 0 && t.kind == LIMIT {
      assert [] + s.levels == s.levels;
      RestedKnown(b', buy, t.price, Entry(t.id, s.left));
      StaysLive(Flat(own), Flat(opp), t, t.qty);
    }
  }

  /** A tidy book stays tidy through a call if and only if the order is admissible. */
  lemma ProcessTidy(b: Book, t: Ticket)
    requires WellFormed(b)
    ensures Tidy(Process(b, t).book) <==> Admissible(b, t)
  {
    hide Sweep, Insert, Flat, Tidy, Sound, Total, Greedy, IdSet, IdFree, Rested;
    var buy := t.side == BUY;
    var own, opp := b.Side(buy), b.Side(!buy);
    var s := Sweep(opp, t, t.qty);
    var b' := Matched(b, buy, s);
    TidySound(b);
    MatchedTidy(b, t, t.qty);
    FlatSorted(opp, !buy);
    SweepSound(opp, t, t.qty);
    GreedyFill(Flat(opp), t, t.qty);
    if t.qty > 0 && s.left > 0 && t.kind == LIMIT {
      RestedTidy(b', buy, t.price, Entry(t.id, s.left));
      TidyKeys(b', buy);
      StaysLive(Flat(own), Flat(opp), t, t.qty);
    }
  }

  lemma TidySound(b: Book)
    requires Tidy(b)
    ensures Sound(b.bids) && Sound(b.asks)
  {
  }

  lemma TidyKeys(b: Book, buy: bool)
    requires Tidy(b)
    ensures b.live.Keys == IdSet(Flat(b.Side(buy))) + IdSet(Flat(b.Side(!buy)))
  {
  }

  /** When the order rests, the ids that stay are those of its own side and of the orders it does not cross. */
  lemma StaysLive(own: seq<Resting>, opp: seq<Resting>, t: Ticket, q: nat)
    requires SortedFlat(opp, t.side != BUY) && Greedy(opp, t, q).left > 0
    ensures
      t.id !in IdSet(own) + IdSet(Greedy(opp, t, q).rest) <==> IdFree(t, own, opp)
  {
    hide Greedy, Total, IdSet, EndOf;
    var g := Greedy(opp, t, q);
    GreedyRest(opp, t, q);
    GreedyCrossed(opp, t, q);
    GreedyFill(opp, t, q);
    InIdSet(own, t.id);
    InIdSet(g.rest, t.id);
    UncrossedIds(opp, g.rest, t);
  }

  lemma UncrossedIds(s: seq<Resting>, rest: seq<Resting>, t: Ticket)
    requires EndOf(s, rest) && forall i | 0 <= i < |rest| :: !Crosses(t, rest[i].price)
    requires forall i | 0 <= i < |s| - |rest| :: Crosses(t, s[i].price)
    ensures (forall i | 0 <= i < |rest| :: rest[i].id != t.id) <==>
            (forall i | 0 <= i < |s| :: !Crosses(t, s[i].price) ==> s[i].id != t.id)
  {
    var d := |s| - |rest|;
    assert forall i | 0 <= i < |rest| :: SameOrder(rest[i], s[d+i]);
    if forall i | 0 <= i < |s| :: !Crosses(t, s[i].price) ==> s[i].id != t.id {
      forall i | 0 <= i < |rest| ensures rest[i].id != t.id {
        assert s[d+i].price == rest[i].price;
      }
    }
    if forall i | 0 <= i < |rest| :: rest[i].id != t.id {
      forall i | d <= i < |s| ensures s[i].id != t.id {
        assert SameOrder(rest[i-d], s[d+(i-d)]);
      }
    }
  }

  lemma InIdSet(s: seq<Resting>, x: string)
    ensures x !in IdSet(s) <==> forall i | 0 <= i < |s| :: s[i].id != x
  {
  }

  /**
   Every call refines the simple specification: fill greedily, then place the remainder.  A level that
   is lost is the front of what the fill leaves over.
   */
  lemma ProcessIsGreedy(b: Book, t: Ticket)
    requires Solid(b)
    ensures
      var buy, r := t.side == BUY, Process(b, t);
      var own, g := Flat(b.Side(buy)), Greedy(Flat(b.Side(!buy)), t, t.qty);
      && r.trades == g.trades
      && b.lost <= r.book.lost && Flat(r.book.lost[|b.lost|..] + r.book.Side(!buy)) == g.rest
      && Flat(r.book.Side(buy)) == if g.left > 0 && t.kind == LIMIT
                                   then Place(own, buy, Resting(t.id, t.price, g.left)) else own
  {
    hide Sweep, Insert, Flat, Place, Stocked;
    var buy := t.side == BUY;
    SweepIsGreedy(b.Side(!buy), t, t.qty);
    var s := Sweep(b.Side(!buy), t, t.qty);
    InsertIsPlace(b.Side(buy), buy, t.price, Entry(t.id, s.left));
    var r := Process(b, t).book;
    if t.qty == 0 {
      SweepStops(b.Side(!buy), t, 0);
    }
    assert r.lost[|b.lost|..] == LostLevels([], s.lost);
  }
}
