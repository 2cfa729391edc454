/**
 Where every unit goes: what trades, rests, is cancelled or is lost with a dropped level, for one
 call and without any condition, and exactly when a call loses something.
 */
module Conservation {
  import opened Options
  import opened BookSpec
  import opened BookLemmas
  import opened MatchSteps
  import opened Priority
  import opened Invariants
  import opened Cancelling
  import opened Execution

  /** The remaining quantity of all orders in these levels. */
  function Held(levels: seq<Level>): nat {
    Total(Flat(levels), Everyone())
  }

  function LossOf(l: Option<Level>): nat {
    if l == None then 0 else Volume(l.value.queue)
  }

  /** What rests in the book, where it can trade. */
  function Tradable(b: Book): nat {
    Held(b.bids) + Held(b.asks)
  }

  lemma {:induction false} TagVolume(price: u64, queue: seq<Entry>)
    ensures Total(Tag(price, queue), Everyone()) == Volume(queue)
  {
    if queue != [] {
      assert Tag(price, queue)[1..] == Tag(price, queue[1..]);
      TagVolume(price, queue[1..]);
    }
  }

  lemma HeldCons(levels: seq<Level>)
    ensures Held([]) == 0
    ensures levels != [] ==> Held(levels) == Volume(levels[0].queue) + Held(levels[1..])
  {
    if levels != [] {
      FlatTotal(levels, Everyone());
      TagVolume(levels[0].price, levels[0].queue);
    }
  }

  lemma {:induction false} HeldAppend(a: seq<Level>, b: seq<Level>)
    ensures Held(a + b) == Held(a) + Held(b)
  {
    hide Held;
    HeldCons(a);
    HeldCons(a + b);
    if a == [] {
      assert a + b == b;
    } else {
      assert (a + b)[1..] == a[1..] + b;
      HeldAppend(a[1..], b);
    }
  }

  lemma HeldOne(l: Level)
    ensures Held([l]) == Volume(l.queue)
  {
    HeldCons([l]);
  }

  lemma HeldAt(levels: seq<Level>, j: nat, l: Level)
    requires j < |levels|
    ensures Held(Without(levels, j)) + Volume(levels[j].queue) == Held(levels)
    ensures Held(levels[j := l]) == Held(Without(levels, j)) + Volume(l.queue)
  {
    hide Held, Volume;
    var a, b := levels[..j], levels[j+1..];
    assert levels == a + [levels[j]] + b && levels[j := l] == a + [l] + b;
    HeldAppend(a, b);
    HeldAppend(a + [levels[j]], b);
    HeldAppend(a, [levels[j]]);
    HeldAppend(a + [l], b);
    HeldAppend(a, [l]);
    HeldOne(levels[j]);
    HeldOne(l);
  }

  lemma {:induction false} HeldInsert(levels: seq<Level>, desc: bool, price: u64, e: Entry)
    ensures Held(Insert(levels, desc, price, e)) == Held(levels) + e.rem
  {
    hide Held, Volume;
    OneEntry(price, e);
    HeldCons(levels);
    HeldCons(Insert(levels, desc, price, e));
    if levels == [] || Better(desc, price, levels[0].price) {
      assert ([Level(price, [e])] + levels)[1..] == levels;
    } else if levels[0].price == price {
      VolumeAppend(levels[0].queue, [e]);
    } else {
      HeldInsert(levels[1..], desc, price, e);
    }
  }

  // ---- one call -----------------------------------------------------------------------------------

  /** What a sweep takes from the levels is traded or lost. */
  lemma {:induction false} SweepConserves(levels: seq<Level>, t: Ticket, q: nat)
    ensures var s := Sweep(levels, t, q); Held(s.levels) + LossOf(s.lost) + q == Held(levels) + s.left
  {
    hide Held, Volume, FillQueue;
    if levels != [] && q > 0 && Crosses(t, levels[0].price) {
      var f := FillQueue(levels[0].queue, q, t.id, levels[0].price);
      var l := Level(levels[0].price, f.queue);
      FillShrinks(levels[0].queue, q, t.id, levels[0].price);
      FillExhausts(levels[0].queue, q, t.id, levels[0].price);
      HeldCons(levels);
      if Volume(f.queue) % TWO64 == 0 {
        SweepConserves(levels[1..], t, f.left);
        SweepStopsAt(levels[1..], t, f.left);
        EmptyVolume();
      } else {
        HeldCons([l] + levels[1..]);
        assert ([l] + levels[1..])[1..] == levels[1..];
      }
    }
  }

  lemma SweepStopsAt(levels: seq<Level>, t: Ticket, q: nat)
    ensures q == 0 ==> Sweep(levels, t, q) == Swept(levels, [], 0, {}, None)
  {
  }

  lemma LoseConserves(b: Book, buy: bool, l: Option<Level>)
    ensures
      var b' := Lose(b, buy, l);
      b'.bids == b.bids && b'.asks == b.asks && Held(b'.lost) == Held(b.lost) + LossOf(l)
  {
    hide Held, Volume;
    if l != None {
      HeldAppend(b.lost, [l.value]);
      HeldOne(l.value);
    }
  }

  /**
   What is submitted trades against the other side, rests, or is dropped; what leaves the other side
   is traded or lost.
   */
  lemma ProcessConserves(b: Book, t: Ticket)
    ensures
      var buy, p := t.side == BUY, Process(b, t);
      var n := Traded(p.trades);
      && n <= t.qty && b.lost <= p.book.lost
      && Held(p.book.Side(!buy)) + Held(p.book.lost) + n == Held(b.Side(!buy)) + Held(b.lost)
      && Held(p.book.Side(buy)) == Held(b.Side(buy)) + if t.kind == LIMIT then t.qty - n else 0
  {
    hide Held, Sweep, Insert, Traded, Volume;
    var buy := t.side == BUY;
    var s := Sweep(b.Side(!buy), t, t.qty);
    var b' := Matched(b, buy, s);
    SweepTraded(b.Side(!buy), t, t.qty);
    SweepConserves(b.Side(!buy), t, t.qty);
    LoseConserves(b.WithSide(!buy, s.levels).(live := b.live - s.gone), !buy, s.lost);
    HeldInsert(b'.Side(buy), buy, t.price, Entry(t.id, s.left));
    NoTraded();
  }

  lemma NoTraded()
    ensures Traded([]) == 0
  {
  }

  /** A cancel takes out exactly the remaining quantity of its order; what leaves a side besides is lost. */
  lemma CancelConserves(b: Book, id: string)
    ensures
      var b' := Cancel(b, id).book;
      Tradable(b') + Held(b'.lost) + (if Found(b, id) then Target(b, id).rem else 0) == Tradable(b) + Held(b.lost)
  {
    hide Held, Volume, FindLast, At, Cut, Without;
    if Found(b, id) {
      DetachedConserves(b, id);
      var b', buy, price := Detached(b, id), b.live[id].buy, Shortened(b, id).price;
      if At(b'.Side(buy), price) < |b'.Side(buy)| {
        CutConserves(b', buy, At(b'.Side(buy), price));
      }
    }
  }

  lemma DetachedConserves(b: Book, id: string)
    requires Found(b, id)
    ensures
      var b' := Detached(b, id);
      Tradable(b') + Held(b'.lost) + Target(b, id).rem == Tradable(b) + Held(b.lost)
    ensures Volume(Shortened(b, id).queue) + Target(b, id).rem == Volume(b.List(b.live[id])[b.Position(b.live[id])].queue)
  {
    hide Held, Volume, FindLast, At, Without;
    var s := b.live[id];
    var queue := b.List(s)[b.Position(s)].queue;
    VolumeRemove(queue, FindLast(queue, id));
    HeldAt(b.List(s), b.Position(s), Shortened(b, id));
  }

  lemma CutConserves(b: Book, buy: bool, j: nat)
    requires j < |b.Side(buy)|
    ensures var b' := Cut(b, buy, j); Tradable(b') + Held(b'.lost) == Tradable(b) + Held(b.lost)
  {
    hide Held, Volume, Without;
    var l := b.Side(buy)[j];
    HeldAt(b.Side(buy), j, l);
    LoseConserves(b.WithSide(buy, Without(b.Side(buy), j)), buy, Stock(l));
    EmptyVolume();
  }

  // ---- when a call loses something ------------------------------------------------------------------

  /**
   The order ends inside a level, and what it leaves there is a multiple of 2^64.  The quantities are
   those before the call.
   */
  predicate Loses(levels: seq<Level>, t: Ticket, q: nat) {
    && levels != [] && q > 0 && Crosses(t, levels[0].price)
    && var v := Volume(levels[0].queue);
       if q < v then (v - q) % TWO64 == 0 else Loses(levels[1..], t, q - v)
  }

  /** The cancel drops a level with orders in it. */
  predicate CancelLoses(b: Book, id: string) {
    Found(b, id) && !Spares(b, id)
  }

  /** A fill of a level that is big enough stays inside it; otherwise it empties it. */
  lemma FillInside(queue: seq<Entry>, q: nat, taker: string, price: u64)
    requires AllPositive(queue)
    ensures
      var f, v := FillQueue(queue, q, taker, price), Volume(queue);
      && AllPositive(f.queue)
      && (if q < v then f.left == 0 && f.queue != [] && Volume(f.queue) == v - q
          else f.left == q - v && f.queue == [])
  {
    hide FillQueue;
    FillPositive(queue, q, taker, price);
    FillShrinks(queue, q, taker, price);
    FillExhausts(queue, q, taker, price);
    ZeroVolume(FillQueue(queue, q, taker, price).queue);
  }

  lemma {:induction false} SweepLoses(levels: seq<Level>, t: Ticket, q: nat)
    requires Stocked(levels)
    ensures
      var s := Sweep(levels, t, q);
      && Stocked(s.levels) && (s.lost != None <==> Loses(levels, t, q))
      && (s.lost != None ==> AllPositive(s.lost.value.queue) && LossOf(s.lost) > 0)
  {
    hide FillQueue, Volume, AllPositive;
    EmptyVolume();
    if levels != [] && q > 0 && Crosses(t, levels[0].price) {
      var f := FillQueue(levels[0].queue, q, t.id, levels[0].price);
      FillInside(levels[0].queue, q, t.id, levels[0].price);
      SweepLoses(levels[1..], t, f.left);
      SweepStopsAt(levels[1..], t, f.left);
      ZeroVolume(f.queue);
    }
  }

  /** Both sides stocked, and no order without quantity among the lost ones. */
  predicate InStock(b: Book) {
    Stocked(b.bids) && Stocked(b.asks) && forall k | 0 <= k < |b.lost| :: AllPositive(b.lost[k].queue)
  }

  lemma {:induction false} InsertStocked(levels: seq<Level>, desc: bool, price: u64, e: Entry)
    requires Stocked(levels) && e.rem > 0
    ensures Stocked(Insert(levels, desc, price, e))
  {
    if levels != [] && !Better(desc, price, levels[0].price) && levels[0].price != price {
      InsertStocked(levels[1..], desc, price, e);
    }
  }

  /**
   A call conserves what can be traded if and only if it does not end inside a level with a
   multiple of 2^64 left in it.
   */
  lemma ProcessLosesIff(b: Book, t: Ticket)
    requires InStock(b)
    ensures
      var buy, p := t.side == BUY, Process(b, t);
      && InStock(p.book)
      && (Held(p.book.Side(!buy)) + Traded(p.trades) == Held(b.Side(!buy)) <==> !Loses(b.Side(!buy), t, t.qty))
      && (p.book.lost == b.lost <==> !Loses(b.Side(!buy), t, t.qty))
  {
    hide Held, Sweep, Insert, Traded, Volume, Stocked, Loses, AllPositive;
    var buy := t.side == BUY;
    var s := Sweep(b.Side(!buy), t, t.qty);
    var b' := Matched(b, buy, s);
    SweepLoses(b.Side(!buy), t, t.qty);
    SweepTraded(b.Side(!buy), t, t.qty);
    SweepConserves(b.Side(!buy), t, t.qty);
    if s.left > 0 {
      InsertStocked(b'.Side(buy), buy, t.price, Entry(t.id, s.left));
    }
    NoTraded();
    LosesNothing(b.Side(!buy), t);
  }

  lemma LosesNothing(levels: seq<Level>, t: Ticket)
    ensures !Loses(levels, t, 0)
  {
  }

  lemma ShortenedStock(b: Book, id: string)
    requires InStock(b) && Found(b, id)
    ensures
      var l := Shortened(b, id);
      && l.price == b.List(b.live[id])[b.Position(b.live[id])].price && AllPositive(l.queue)
      && (l.queue == [] <==> Volume(l.queue) == 0)
  {
    hide Volume, FindLast, At, Without;
    var queue := b.List(b.live[id])[b.Position(b.live[id])].queue;
    assert AllPositive(queue);
    PositiveWithout(queue, FindLast(queue, id));
    ZeroVolume(Shortened(b, id).queue);
  }

  lemma StockedAt(levels: seq<Level>, j: nat, l: Level)
    requires Stocked(levels) && j < |levels|
    ensures Stocked(Without(levels, j)) && AllPositive(levels[j].queue) && levels[j].queue != []
    ensures l.queue != [] && AllPositive(l.queue) ==> Stocked(levels[j := l])
  {
  }

  /** Cancelling an order whose level is listed, told from the position of the level. */
  lemma CancelListedLosesIff(b: Book, id: string)
    requires InStock(b) && Found(b, id) && b.live[id].Listed?
    ensures
      var b' := Cancel(b, id).book;
      && InStock(b') && (Tradable(b') + Target(b, id).rem == Tradable(b) <==> !CancelLoses(b, id))
      && (if CancelLoses(b, id) then Held(b'.lost) > Held(b.lost) else b'.lost == b.lost)
  {
    hide Held, Volume, FindLast, At, Without, Stocked, AllPositive;
    var buy, own, l := b.live[id].buy, b.Side(b.live[id].buy), Shortened(b, id);
    var j := At(own, b.live[id].price);
    ShortenedStock(b, id);
    StockedAt(own, j, l);
    DetachedConserves(b, id);
    HeldAt(own, j, l);
    AtUpdate(own, j, l);
    WithoutUpdate(own, j, l);
    LoseConserves(b.WithSide(buy, Without(own, j)).(live := b.live - {id}), buy, Stock(l));
  }

  /** Cancelling an order whose level was lost can only lose another level. */
  lemma CancelLostLosesIff(b: Book, id: string)
    requires InStock(b) && Found(b, id) && b.live[id].Lost?
    ensures
      var b' := Cancel(b, id).book;
      && InStock(b') && (Tradable(b') == Tradable(b) <==> !CancelLoses(b, id))
      && (CancelLoses(b, id) ==> Held(b'.lost) > 0)
  {
    hide Held, Volume, FindLast, At, Without, Stocked, AllPositive;
    var buy, l, b' := b.live[id].buy, Shortened(b, id), Detached(b, id);
    var side := b.Side(buy);
    var j := At(side, l.price);
    ShortenedStock(b, id);
    if j < |side| {
      StockedAt(side, j, side[j]);
      ZeroVolume(side[j].queue);
      HeldAt(side, j, side[j]);
      LoseConserves(b'.WithSide(buy, Without(side, j)), buy, Stock(side[j]));
    }
  }

  /** A cancel conserves what can be traded, up to its own order, if and only if it drops no orders with a level. */
  lemma CancelLosesIff(b: Book, id: string)
    requires InStock(b)
    ensures
      var b' := Cancel(b, id).book;
      && InStock(b')
      && (Tradable(b') + (if Found(b, id) && b.live[id].Listed? then Target(b, id).rem else 0) == Tradable(b)
          <==> !CancelLoses(b, id))
      && (CancelLoses(b, id) ==> Held(b'.lost) > 0) && (b.lost == [] && !CancelLoses(b, id) ==> b'.lost == [])
  {
    hide Held, Found, Stocked, Cancel, CancelLoses, Target;
    if Found(b, id) {
      FoundPosition(b, id);
      if b.live[id].Listed? { CancelListedLosesIff(b, id); } else { CancelLostLosesIff(b, id); }
    } else {
      CancelUnfound(b, id);
    }
  }

  lemma FoundPosition(b: Book, id: string)
    requires Found(b, id)
    ensures id in b.live && (b.live[id].Lost? ==> b.lost != [])
  {
  }

  lemma CancelUnfound(b: Book, id: string)
    requires !Found(b, id)
    ensures !CancelLoses(b, id)
    ensures var b' := Cancel(b, id).book; b'.bids == b.bids && b'.asks == b.asks && b'.lost == b.lost
  {
  }
}
