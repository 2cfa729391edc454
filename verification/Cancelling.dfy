/** Cancelling removes one order, the one the index leads to, and disturbs nothing else. */
module Cancelling {
  import opened BookSpec
  import opened BookLemmas
  import opened MatchSteps
  import opened Priority
  import opened Invariants

  // ---- positions in the levels and in the flat list -----------------------------------------

  /** Where the `k`-th order of the `j`-th level is in the flat list. */
  function FlatPos(levels: seq<Level>, j: nat, k: nat): nat
    requires j < |levels|
  {
    if j == 0 then k else |levels[0].queue| + FlatPos(levels[1..], j - 1, k)
  }

  lemma {:induction false} FlatAt(levels: seq<Level>, j: nat, k: nat)
    requires j < |levels| && k < |levels[j].queue|
    ensures
      var pos, e := FlatPos(levels, j, k), levels[j].queue[k];
      pos < |Flat(levels)| && Flat(levels)[pos] == Resting(e.id, levels[j].price, e.rem)
  {
    if j > 0 {
      FlatAt(levels[1..], j - 1, k);
    }
  }

  /** And back. */
  lemma {:induction false} Locate(levels: seq<Level>, pos: nat) returns (j: nat, k: nat)
    requires pos < |Flat(levels)|
    ensures j < |levels| && k < |levels[j].queue| && pos == FlatPos(levels, j, k)
  {
    if pos < |levels[0].queue| {
      j, k := 0, pos;
    } else {
      j, k := Locate(levels[1..], pos - |levels[0].queue|);
      j := j + 1;
    }
  }

  lemma WithoutLeft(a: seq<Resting>, b: seq<Resting>, k: nat)
    requires k < |a|
    ensures Without(a + b, k) == Without(a, k) + b
  {
  }

  lemma WithoutRight(a: seq<Resting>, b: seq<Resting>, k: nat)
    requires k < |b|
    ensures Without(a + b, |a| + k) == a + Without(b, k)
  {
  }

  lemma TagWithout(price: u64, queue: seq<Entry>, k: nat)
    requires k < |queue|
    ensures |Tag(price, queue)| == |queue| && Tag(price, Without(queue, k)) == Without(Tag(price, queue), k)
  {
  }

  lemma {:induction false} FlatWithout(levels: seq<Level>, j: nat, k: nat)
    requires j < |levels| && k < |levels[j].queue|
    ensures
      var queue, pos := Without(levels[j].queue, k), FlatPos(levels, j, k);
      && pos < |Flat(levels)|
      && Flat(levels[j := Level(levels[j].price, queue)]) == Without(Flat(levels), pos)
      && (queue == [] ==> Flat(Without(levels, j)) == Without(Flat(levels), pos))
  {
    hide Flat, Tag, Without;
    FlatAt(levels, j, k);
    var first, rest := levels[0], levels[1..];
    var tag := Tag(first.price, first.queue);
    var changed := Level(levels[j].price, Without(levels[j].queue, k));
    assert levels == [first] + rest;
    FlatCons(first, rest);
    TagLength(first.price, first.queue);
    if j == 0 {
      TagWithout(first.price, first.queue, k);
      WithoutLeft(tag, Flat(rest), k);
      FlatCons(changed, rest);
      assert levels[0 := changed] == [changed] + rest;
      DropFirst(levels);
      TagEmpty(first.price);
    } else {
      FlatWithout(rest, j - 1, k);
      WithoutRight(tag, Flat(rest), FlatPos(rest, j - 1, k));
      FlatCons(first, rest[j-1 := changed]);
      assert levels[j := changed] == [first] + rest[j-1 := changed];
      DropLater(levels, j);
      FlatCons(first, Without(rest, j - 1));
    }
  }

  lemma TagEmpty(price: u64)
    ensures Tag(price, []) == [] && forall s: seq<Resting> :: [] + s == s
  {
  }

  lemma DropFirst(levels: seq<Level>)
    requires levels != []
    ensures Without(levels, 0) == levels[1..]
  {
  }

  lemma DropLater(levels: seq<Level>, j: nat)
    requires 0 < j < |levels|
    ensures Without(levels, j) == [levels[0]] + Without(levels[1..], j - 1)
  {
  }

  /** Behind the last order of an id in its level, the list has no other of that id and price. */
  lemma {:induction false} YoungestAt(levels: seq<Level>, desc: bool, j: nat, k: nat)
    requires Sorted(levels, desc) && j < |levels| && k < |levels[j].queue|
    requires forall i | k < i < |levels[j].queue| :: levels[j].queue[i].id != levels[j].queue[k].id
    ensures
      forall i | FlatPos(levels, j, k) < i < |Flat(levels)| ::
        Flat(levels)[i].id != levels[j].queue[k].id || Flat(levels)[i].price != levels[j].price
  {
    var n := |levels[0].queue|;
    if j == 0 {
      FlatSorted(levels[1..], desc);
      forall i | n <= i < |Flat(levels)| ensures Flat(levels)[i].price != levels[0].price {
        assert Flat(levels)[i] == Flat(levels[1..])[i-n];
      }
    } else {
      YoungestAt(levels[1..], desc, j - 1, k);
      assert forall i | n <= i < |Flat(levels)| :: Flat(levels)[i] == Flat(levels[1..])[i-n];
    }
  }

  // ---- one order leaves ---------------------------------------------------------------------

  /** `s'` is `s` without the youngest order of this id and price. */
  ghost predicate RemovedOne(s: seq<Resting>, s': seq<Resting>, id: string, price: u64) {
    exists pos :: 0 <= pos < |s| && IsYoungest(s, pos, id, price) && s' == Without(s, pos)
  }

  predicate IsYoungest(s: seq<Resting>, pos: nat, id: string, price: u64)
    requires pos < |s|
  {
    && s[pos].id == id && s[pos].price == price
    && forall i | pos < i < |s| :: s[i].id != id || s[i].price != price
  }

  lemma SoundWithout(levels: seq<Level>, j: nat, k: nat)
    requires Sound(levels) && j < |levels| && k < |levels[j].queue|
    ensures
      var queue := Without(levels[j].queue, k);
      && (Volume(queue) % TWO64 == 0 <==> queue == [])
      && Sound(if queue == [] then Without(levels, j) else levels[j := Level(levels[j].price, queue)])
  {
    hide Volume;
    VolumeRemove(levels[j].queue, k);
    PositiveWithout(levels[j].queue, k);
    ZeroVolume(Without(levels[j].queue, k));
  }

  /**
   The cancel drops no level with orders in it: not its own, and, if that one was lost before, no new
   one of the same price.
   */
  predicate Spares(b: Book, id: string)
    requires Found(b, id)
  {
    var l, side := Shortened(b, id), b.Side(b.live[id].buy);
    Volume(l.queue) % TWO64 != 0 || if b.live[id].Listed? then l.queue == [] else At(side, l.price) == |side|
  }

  /** `Cancel` on a listed order, told from the place where the order sits. */
  lemma CancelListed(b: Book, id: string)
    requires Found(b, id) && b.live[id].Listed?
    ensures
      var buy, l := b.live[id].buy, Shortened(b, id);
      var own, j := b.Side(buy), At(b.Side(buy), b.live[id].price);
      Cancel(b, id) == Cancelled(
        if Volume(l.queue) % TWO64 == 0
        then Lose(b.WithSide(buy, Without(own, j)).(live := b.live - {id}), buy, Stock(l))
        else b.WithSide(buy, own[j := l]).(live := b.live - {id}), true)
  {
    hide Volume, FindLast, Without;
    var own := b.Side(b.live[id].buy);
    var j := At(own, b.live[id].price);
    WithoutUpdate(own, j, Shortened(b, id));
    AtUpdate(own, j, Shortened(b, id));
  }

  lemma AtUpdate(levels: seq<Level>, j: nat, l: Level)
    requires j < |levels| && j == At(levels, l.price)
    ensures At(levels[j := l], l.price) == j
  {
    hide At;
    var levels' := levels[j := l];
    assert levels'[j].price == l.price;
    assert forall i | 0 <= i < j :: levels'[i] == levels[i];
  }

  lemma StockedWithout(levels: seq<Level>, j: nat, k: nat)
    requires Stocked(levels) && j < |levels| && k < |levels[j].queue|
    ensures
      var queue := Without(levels[j].queue, k);
      && (queue == [] ==> Volume(queue) == 0) && Stocked(Without(levels, j))
      && (queue != [] ==> Stocked(levels[j := Level(levels[j].price, queue)]))
      && |queue| + 1 == |levels[j].queue|
  {
    PositiveWithout(levels[j].queue, k);
  }

  lemma {:induction false} FlatShorter(levels: seq<Level>, j: nat)
    requires j < |levels|
    ensures |Flat(Without(levels, j))| + |levels[j].queue| == |Flat(levels)|
  {
    hide Tag, Without;
    var first, rest := levels[0], levels[1..];
    assert levels == [first] + rest;
    TagLength(first.price, first.queue);
    if j == 0 {
      DropFirst(levels);
    } else {
      DropLater(levels, j);
      FlatCons(first, Without(rest, j - 1));
      FlatShorter(rest, j - 1);
    }
  }

  lemma ListedRemovesOne(b: Book, id: string)
    requires Solid(b) && Found(b, id) && b.live[id].Listed?
    ensures
      var r, spot := Cancel(b, id), b.live[id];
      && r.ok && Solid(r.book) && r.book.Side(!spot.buy) == b.Side(!spot.buy)
      && (RemovedOne(Flat(b.Side(spot.buy)), Flat(r.book.Side(spot.buy)), id, spot.price) <==> Spares(b, id))
      && (Spares(b, id) ==> r.book.live == b.live - {id} && r.book.lost == b.lost)
  {
    hide Flat, Without, Volume, FindLast, Stocked, Sorted, Cancel, IsYoungest, FlatPos;
    var buy, own := b.live[id].buy, b.Side(b.live[id].buy);
    var j := At(own, b.live[id].price);
    var k := FindLast(own[j].queue, id);
    CancelOrdered(b, id);
    CancelListed(b, id);
    StockedWithout(own, j, k);
    FlatAt(own, j, k);
    FlatWithout(own, j, k);
    YoungestAt(own, buy, j, k);
    Youngest(Flat(own), FlatPos(own, j, k), id, b.live[id].price);
    if !Spares(b, id) {
      FlatShorter(own, j);
      RemovedIsOneShorter(Flat(own), Flat(Without(own, j)), id, b.live[id].price);
    }
  }

  /** `Cancel` on an order of a lost level. */
  lemma CancelLost(b: Book, id: string)
    requires Found(b, id) && b.live[id].Lost?
    ensures
      var buy, k, l := b.live[id].buy, b.live[id].k, Shortened(b, id);
      var side, b' := b.Side(buy), b.(lost := b.lost[k := l], live := b.live - {id});
      var j := At(side, l.price);
      Cancel(b, id) == Cancelled(if Volume(l.queue) % TWO64 == 0 && j < |side| then Cut(b', buy, j) else b', true)
  {
    hide Volume, FindLast, Without, Cut, At;
  }

  lemma LostRemovesOne(b: Book, id: string)
    requires Solid(b) && Found(b, id) && b.live[id].Lost?
    ensures
      var r, k, l := Cancel(b, id), b.live[id].k, b.lost[b.live[id].k];
      && r.ok && Solid(r.book) && k < |r.book.lost|
      && RemovedOne(Flat([l]), Flat([r.book.lost[k]]), id, l.price)
      && (r.book.bids == b.bids && r.book.asks == b.asks <==> Spares(b, id))
      && (Spares(b, id) ==> r.book.live == b.live - {id} && r.book.lost == b.lost[k := Shortened(b, id)])
  {
    hide Flat, Without, Volume, FindLast, Stocked, Sorted, Uncrossed, Cancel, IsYoungest, At;
    var l, side := b.lost[b.live[id].k], b.Side(b.live[id].buy);
    var n, j := FindLast(l.queue, id), At(side, l.price);
    CancelOrdered(b, id);
    CancelLost(b, id);
    FlatAt([l], 0, n);
    FlatWithout([l], 0, n);
    YoungestAlone(l, n);
    Youngest(Flat([l]), n, id, l.price);
    assert [l][0 := Shortened(b, id)] == [Shortened(b, id)];
    if j < |side| {
      StockedCut(side, j);
    }
  }

  lemma YoungestAlone(l: Level, n: nat)
    requires n < |l.queue| && forall i | n < i < |l.queue| :: l.queue[i].id != l.queue[n].id
    ensures forall i | n < i < |Flat([l])| :: Flat([l])[i].id != l.queue[n].id || Flat([l])[i].price != l.price
  {
    YoungestAt([l], true, 0, n);
  }

  lemma StockedCut(levels: seq<Level>, j: nat)
    requires Stocked(levels) && j < |levels|
    ensures Stocked(Without(levels, j)) && |Without(levels, j)| < |levels| && levels[j].queue != []
  {
  }

  /**
   In every reachable book, a cancel takes out the order the index leads to, out of its side or of a
   lost level, and leaves all others their place and quantity, if and only if it drops no level with
   orders in it.
   */
  lemma CancelRemovesOne(b: Book, id: string)
    requires Solid(b) && Found(b, id)
    ensures
      var r, spot := Cancel(b, id), b.live[id];
      && r.ok && Solid(r.book)
      && (spot.Listed? ==>
            && r.book.Side(!spot.buy) == b.Side(!spot.buy)
            && (RemovedOne(Flat(b.Side(spot.buy)), Flat(r.book.Side(spot.buy)), id, spot.price) <==> Spares(b, id)))
      && (spot.Lost? ==>
            && spot.k < |b.lost| && spot.k < |r.book.lost|
            && RemovedOne(Flat([b.lost[spot.k]]), Flat([r.book.lost[spot.k]]), id, b.lost[spot.k].price)
            && (r.book.bids == b.bids && r.book.asks == b.asks <==> Spares(b, id)))
      && (Spares(b, id) ==>
            && r.book.live == b.live - {id}
            && r.book.lost == if spot.Listed? then b.lost else b.lost[spot.k := Shortened(b, id)])
  {
    hide Flat, Cancel, RemovedOne, Spares, Stocked, Ordered, Shortened, FindLast;
    if b.live[id].Listed? {
      ListedRemovesOne(b, id);
    } else {
      LostRemovesOne(b, id);
    }
  }

  lemma RemovedIsOneShorter(s: seq<Resting>, s': seq<Resting>, id: string, price: u64)
    ensures RemovedOne(s, s', id, price) ==> |s'| + 1 == |s|
  {
  }

  lemma Youngest(s: seq<Resting>, pos: nat, id: string, price: u64)
    requires pos < |s| && s[pos].id == id && s[pos].price == price
    requires forall i | pos < i < |s| :: s[i].id != id || s[i].price != price
    ensures IsYoungest(s, pos, id, price)
  {
  }

  lemma WithoutIds(s: seq<Resting>, pos: nat)
    requires Distinct(s) && pos < |s|
    ensures Distinct(Without(s, pos)) && IdSet(Without(s, pos)) == IdSet(s) - {s[pos].id}
  {
    var r := Without(s, pos);
    assert forall i | 0 <= i < |r| :: r[i] == s[if i < pos then i else i + 1];
    assert s == s[..pos] + [s[pos]] + s[pos+1..];
    IdSetAppend(s[..pos], s[pos+1..]);
    IdSetAppend(s[..pos] + [s[pos]], s[pos+1..]);
    IdSetAppend(s[..pos], [s[pos]]);
    assert [s[pos]][0].id in IdSet([s[pos]]);
    forall x | x in IdSet(r) ensures x != s[pos].id {
      var i :| 0 <= i < |r| && r[i].id == x;
    }
  }

  lemma IndexedWithout(s: seq<Resting>, pos: nat, buy: bool, live: map<string, Spot>)
    requires pos < |s| && Indexed(s, buy, live)
    ensures Indexed(Without(s, pos), buy, live)
  {
    assert forall i | 0 <= i < |s| - 1 :: Without(s, pos)[i] == s[if i < pos then i else i + 1];
  }

  lemma FoundAt(b: Book, id: string, buy: bool, j: nat, k: nat)
    requires Sorted(b.Side(buy), buy) && j < |b.Side(buy)| && k < |b.Side(buy)[j].queue|
    requires b.Side(buy)[j].queue[k].id == id && id in b.live && b.live[id] == Listed(buy, b.Side(buy)[j].price)
    ensures Found(b, id)
  {
    hide FindLast, At;
    assert At(b.Side(buy), b.live[id].price) == j;
  }

  /** The index finds every order it knows. */
  lemma FoundIfKnown(b: Book, id: string, buy: bool)
    requires Ordered(b) && AllKnown(b) && id in IdSet(Flat(b.Side(buy)))
    ensures id in b.live && Found(b, id) && b.live[id].Listed? && b.live[id].buy == buy
  {
    hide Flat, Found, Distinct, Apart, Sorted;
    KnownSide(b, buy);
    var s := Flat(b.Side(buy));
    var pos :| 0 <= pos < |s| && s[pos].id == id;
    var j, k := Locate(b.Side(buy), pos);
    FlatAt(b.Side(buy), j, k);
    FoundAt(b, id, buy, j, k);
  }

  /** In a well-formed book the index finds exactly the resting orders. */
  lemma FoundIffLive(b: Book, id: string)
    requires WellFormed(b)
    ensures Found(b, id) <==> id in b.live
    ensures id in b.live ==> b.live[id].Listed? && id in IdSet(Flat(b.Side(b.live[id].buy)))
  {
    hide Flat, Found, Sound, Known, Ordered, IdSet;
    if id in b.live {
      FoundIfKnown(b, id, id in IdSet(Flat(b.bids)));
    } else {
      NotFound(b, id);
    }
  }

  lemma NotFound(b: Book, id: string)
    requires id !in b.live
    ensures !Found(b, id)
  {
  }

  // ---- cancelling keeps all orders known ------------------------------------------------------

  /** Forgetting an id nobody has. */
  lemma KnownForget(own: seq<Resting>, opp: seq<Resting>, buy: bool, live: map<string, Spot>, id: string)
    requires Known(own, opp, buy, live) && id !in IdSet(own) && id !in IdSet(opp)
    ensures Known(own, opp, buy, live - {id})
  {
    hide IdSet, Indexed, Distinct, Apart;
    IndexedKeeps(own, buy, live, {id});
    IndexedKeeps(opp, !buy, live, {id});
  }

  /** One order leaves its list and the index. */
  lemma KnownWithout(own: seq<Resting>, opp: seq<Resting>, buy: bool, live: map<string, Spot>, pos: nat)
    requires Known(own, opp, buy, live) && pos < |own|
    ensures
      var own' := Without(own, pos);
      Known(own', opp, buy, live - {own[pos].id}) && IdSet(own') == IdSet(own) - {own[pos].id}
    ensures own[pos].id in IdSet(own) && own[pos].id !in IdSet(opp)
  {
    hide IdSet, Indexed, Distinct, Apart, Without;
    var own' := Without(own, pos);
    InIdSet(own, own[pos].id);
    WithoutIds(own, pos);
    IndexedWithout(own, pos, buy, live);
    ApartIds(own, opp);
    ApartIds(own', opp);
    KnownForget(own', opp, buy, live, own[pos].id);
  }

  lemma ListedIfKnown(s: seq<Resting>, buy: bool, live: map<string, Spot>, id: string)
    requires Indexed(s, buy, live) && (id !in live || live[id].Lost?)
    ensures id !in IdSet(s)
  {
  }

  lemma DetachedKnown(b: Book, id: string)
    requires AllKnown(b) && Found(b, id)
    ensures AllKnown(Detached(b, id))
  {
    hide Flat, Known, FindLast, At, Without, IdSet, FlatPos;
    var spot, b' := b.live[id], Detached(b, id);
    KnownSide(b, spot.buy);
    KnownSide(b', spot.buy);
    if spot.Listed? {
      var own := b.Side(spot.buy);
      var j := At(own, spot.price);
      var k := FindLast(own[j].queue, id);
      FlatAt(own, j, k);
      FlatWithout(own, j, k);
      KnownWithout(Flat(own), Flat(b.Side(!spot.buy)), spot.buy, b.live, FlatPos(own, j, k));
    } else {
      LostIsNobody(b, id, spot.buy);
      KnownForget(Flat(b.Side(spot.buy)), Flat(b.Side(!spot.buy)), spot.buy, b.live, id);
    }
  }

  lemma LostIsNobody(b: Book, id: string, buy: bool)
    requires AllKnown(b) && id in b.live && b.live[id].Lost?
    ensures id !in IdSet(Flat(b.Side(buy))) && id !in IdSet(Flat(b.Side(!buy)))
  {
    hide Flat, IdSet, Indexed;
    KnownSide(b, buy);
    ListedIfKnown(Flat(b.Side(buy)), buy, b.live, id);
    ListedIfKnown(Flat(b.Side(!buy)), !buy, b.live, id);
  }

  lemma CutKnown(b: Book, buy: bool, j: nat)
    requires Ordered(b) && AllKnown(b) && j < |b.Side(buy)|
    ensures AllKnown(Cut(b, buy, j))
  {
    hide Flat, Known, LostIndex, Uncrossed;
    var levels, opp, l := b.Side(buy), Flat(b.Side(!buy)), b.Side(buy)[j];
    var before, after := levels[..j], levels[j+1..];
    assert levels == before + [l] + after && Without(levels, j) == before + after;
    FlatAppend(before, [l]);
    FlatAppend(before + [l], after);
    FlatAppend(before, after);
    FlatPrices(before, l.price);
    FlatPrices(after, l.price);
    KnownSide(b, !buy);
    KnownLost(opp, Flat(before), Flat([l]), Flat(after), !buy, b.live, |b.lost|, Stock(l));
    KnownSide(Cut(b, buy, j), !buy);
  }

  /** Cancelling never makes an order unknown to the index, whatever it drops. */
  lemma CancelKnown(b: Book, id: string)
    requires Ordered(b) && AllKnown(b)
    ensures AllKnown(Cancel(b, id).book)
  {
    hide Flat, Known, Cut, Detached, Volume, FindLast, At, Ordered, IdSet;
    if Found(b, id) {
      DetachedKnown(b, id);
      DetachedOrdered(b, id);
      var b', buy, price := Detached(b, id), b.live[id].buy, Shortened(b, id).price;
      if At(b'.Side(buy), price) < |b'.Side(buy)| {
        CutKnown(b', buy, At(b'.Side(buy), price));
      }
    } else if id in b.live {
      if id in IdSet(Flat(b.bids)) { FoundIfKnown(b, id, true); }
      if id in IdSet(Flat(b.asks)) { FoundIfKnown(b, id, false); }
      KnownForget(Flat(b.bids), Flat(b.asks), true, b.live, id);
    }
  }

  /** When all orders are known, every resting order can be cancelled, and its cancel finds just that one. */
  lemma KnownIsCancellable(b: Book, buy: bool, pos: nat)
    requires Ordered(b) && AllKnown(b) && pos < |Flat(b.Side(buy))|
    ensures var r := Flat(b.Side(buy))[pos]; Cancel(b, r.id).ok && Found(b, r.id) && Target(b, r.id) == Entry(r.id, r.rem)
  {
    hide Flat, Found, Known, Cancel, FlatPos, IdSet, Ordered, Target;
    var s := Flat(b.Side(buy));
    InIdSet(s, s[pos].id);
    FoundIfKnown(b, s[pos].id, buy);
    CancelForgets(b, s[pos].id);
    TargetIsResting(b, s[pos].id);
    KnownSide(b, buy);
    OnlyOne(s, Flat(b.Side(!buy)), buy, b.live, pos, Target(b, s[pos].id));
  }

  /** The order a listed spot leads to is one of its side. */
  lemma TargetIsResting(b: Book, id: string)
    requires Found(b, id) && b.live[id].Listed?
    ensures Target(b, id).id == id
    ensures
      var s := Flat(b.Side(b.live[id].buy));
      exists i | 0 <= i < |s| :: s[i].id == id && s[i].rem == Target(b, id).rem
  {
    hide Flat, FindLast, At;
    var own := b.Side(b.live[id].buy);
    var j := At(own, b.live[id].price);
    var k := FindLast(own[j].queue, id);
    FlatAt(own, j, k);
    assert Flat(own)[FlatPos(own, j, k)].id == id;
  }

  lemma OnlyOne(s: seq<Resting>, opp: seq<Resting>, buy: bool, live: map<string, Spot>, pos: nat, e: Entry)
    requires Known(s, opp, buy, live) && pos < |s| && e.id == s[pos].id
    requires exists i | 0 <= i < |s| :: s[i].id == e.id && s[i].rem == e.rem
    ensures s[pos].rem == e.rem
  {
    var i :| 0 <= i < |s| && s[i].id == e.id && s[i].rem == e.rem;
    assert i == pos;
  }

  /** On a well-formed book cancelling succeeds exactly on resting orders and keeps the form. */
  lemma CancelWellFormed(b: Book, id: string)
    requires WellFormed(b)
    ensures
      var r := Cancel(b, id);
      WellFormed(r.book) && (r.ok <==> id in b.live) && id !in r.book.live && (!r.ok ==> r.book == b)
  {
    hide Flat, IdSet, Known, Sound, Ordered, Found, Spares, Cancel;
    FoundIffLive(b, id);
    CancelForgets(b, id);
    if id in b.live {
      CancelOrdered(b, id);
      TidySpares(b, id);
      CancelKnown(b, id);
      CancelKeys(b, id);
    }
  }

  /** A spared cancel takes out one id. */
  lemma CancelKeys(b: Book, id: string)
    requires WellFormed(b) && Found(b, id) && b.live[id].Listed? && Spares(b, id)
    ensures
      var r := Cancel(b, id).book;
      r.lost == [] && r.live.Keys == IdSet(Flat(r.bids)) + IdSet(Flat(r.asks))
  {
    hide Flat, IdSet, Known, Sound, Stocked, Ordered, FindLast, At, Spares, RemovedOne, Cancel;
    var buy, r := b.live[id].buy, Cancel(b, id).book;
    SoundStocked(b.bids);
    SoundStocked(b.asks);
    ListedRemovesOne(b, id);
    var own, own' := Flat(b.Side(buy)), Flat(r.Side(buy));
    var pos := Removed(own, own', id, b.live[id].price);
    KnownSide(b, buy);
    KnownWithout(own, Flat(b.Side(!buy)), buy, b.live, pos);
  }

  lemma CancelForgets(b: Book, id: string)
    ensures id !in Cancel(b, id).book.live && (Cancel(b, id).ok <==> id in b.live)
    ensures !Cancel(b, id).ok ==> Cancel(b, id).book == b
  {
    hide Volume, FindLast, At, Found;
  }

  /** With honest counters a level goes only when it is empty. */
  lemma TidySpares(b: Book, id: string)
    requires Sound(b.bids) && Sound(b.asks) && Found(b, id) && b.live[id].Listed?
    ensures Spares(b, id) && Sound(Cancel(b, id).book.bids) && Sound(Cancel(b, id).book.asks)
  {
    hide Volume, FindLast, Sound;
    var own := b.Side(b.live[id].buy);
    var j := At(own, b.live[id].price);
    CancelListed(b, id);
    SoundWithout(own, j, FindLast(own[j].queue, id));
  }

  lemma Removed(s: seq<Resting>, s': seq<Resting>, id: string, price: u64) returns (pos: nat)
    requires RemovedOne(s, s', id, price)
    ensures pos < |s| && s[pos].id == id && s[pos].price == price && s' == Without(s, pos)
  {
    pos :| 0 <= pos < |s| && IsYoungest(s, pos, id, price) && s' == Without(s, pos);
  }

  // ---- round trips ----------------------------------------------------------------------------

  /** Where an insertion goes: the first level whose price is not better. */
  lemma {:induction false} Partition(levels: seq<Level>, desc: bool, price: u64) returns (k: nat)
    ensures k <= |levels| && forall i | 0 <= i < k :: Better(desc, levels[i].price, price)
    ensures k < |levels| ==> !Better(desc, levels[k].price, price)
  {
    k := 0;
    if levels != [] && Better(desc, levels[0].price, price) {
      k := Partition(levels[1..], desc, price);
      k := k + 1;
    }
  }

  /** The orders at a price. */
  function QueueAt(levels: seq<Level>, price: u64): seq<Entry> {
    var j := At(levels, price);
    if j < |levels| then levels[j].queue else []
  }

  /** The `j`-th level is the one of its price, its last order is `e`, and without `e` the levels are `levels`. */
  predicate EndsWith(own: seq<Level>, j: nat, price: u64, e: Entry, levels: seq<Level>) {
    && j < |own| && At(own, price) == j && own[j].queue == QueueAt(levels, price) + [e]
    && levels == if QueueAt(levels, price) == [] then Without(own, j)
                 else own[j := Level(own[j].price, QueueAt(levels, price))]
  }

  lemma EndsExisting(levels: seq<Level>, k: nat, e: Entry)
    requires k < |levels| && levels[k].queue != [] && At(levels, levels[k].price) == k
    ensures
      var price, queue := levels[k].price, levels[k].queue;
      EndsWith(levels[k := Level(price, queue + [e])], k, price, e, levels)
  {
    hide At;
    AtUpdate(levels, k, Level(levels[k].price, levels[k].queue + [e]));
  }

  lemma EndsNew(levels: seq<Level>, k: nat, price: u64, e: Entry)
    requires k <= |levels| && forall i | 0 <= i < |levels| :: levels[i].price != price
    ensures EndsWith(levels[..k] + [Level(price, [e])] + levels[k..], k, price, e, levels)
  {
    hide At;
    var own := levels[..k] + [Level(price, [e])] + levels[k..];
    assert own[k].price == price && forall i | 0 <= i < k :: own[i] == levels[i];
    assert Without(own, k) == levels && [] + [e] == [e];
  }

  lemma InsertEnds(levels: seq<Level>, desc: bool, price: u64, e: Entry) returns (k: nat)
    requires Sorted(levels, desc) && Stocked(levels)
    ensures EndsWith(Insert(levels, desc, price, e), k, price, e, levels)
  {
    hide Insert, EndsWith, At;
    k := Partition(levels, desc, price);
    if k < |levels| && levels[k].price == price {
      InsertExisting(levels, desc, price, e, k);
      EndsExisting(levels, k, e);
    } else {
      InsertNew(levels, desc, price, e, k);
      assert forall i | k < i < |levels| :: Better(desc, levels[k].price, levels[i].price);
      EndsNew(levels, k, price, e);
    }
  }

  /** Cancelling the last order of a listed level. */
  lemma CancelEnd(b: Book, j: nat, e: Entry, levels: seq<Level>)
    requires e.id in b.live && b.live[e.id].Listed?
    requires EndsWith(b.Side(b.live[e.id].buy), j, b.live[e.id].price, e, levels)
    ensures
      var queue, r := QueueAt(levels, b.live[e.id].price), Cancel(b, e.id);
      if queue == [] || Volume(queue) % TWO64 != 0
      then r == Cancelled(b.WithSide(b.live[e.id].buy, levels).(live := b.live - {e.id}), true)
      else |r.book.lost| == |b.lost| + 1
  {
    hide Volume, FindLast, At;
    var own := b.Side(b.live[e.id].buy);
    var queue := QueueAt(levels, b.live[e.id].price);
    assert own[j].queue[|queue|] == e;
    assert FindLast(own[j].queue, e.id) == |queue|;
    assert Without(queue + [e], |queue|) == queue;
    CancelListed(b, e.id);
    EmptyVolume();
  }

  /**
   A limit order that crosses nothing, then cancelled, leaves the book as it was if and only if its
   id was not in the index and the orders at its price do not sum up to a multiple of 2^64.
   */
  lemma PlaceThenCancel(b: Book, t: Ticket)
    requires Solid(b) && t.kind == LIMIT && t.qty > 0
    requires var opp := b.Side(t.side != BUY); opp == [] || !Crosses(t, opp[0].price)
    ensures Process(b, t).trades == []
    ensures
      var queue := QueueAt(b.Side(t.side == BUY), t.price);
      Cancel(Process(b, t).book, t.id) == Cancelled(b, true) <==>
      t.id !in b.live && (queue == [] || Volume(queue) % TWO64 != 0)
  {
    hide Insert, Stocked, Sorted, Uncrossed, Cancel, EndsWith, QueueAt, Volume;
    var buy := t.side == BUY;
    var e := Entry(t.id, t.qty);
    SweepStops(b.Side(!buy), t, t.qty);
    assert b.live - {} == b.live && b.WithSide(!buy, b.Side(!buy)) == b;
    var b' := Rested(b, buy, t.price, e);
    assert Process(b, t).book == b';
    assert t.id !in b.live ==> b'.live - {t.id} == b.live;
    var k := InsertEnds(b.Side(buy), buy, t.price, e);
    CancelEnd(b', k, e, b.Side(buy));
    CancelForgets(b', t.id);
  }

  /** A second cancel of the same id always fails. */
  lemma CancelTwice(b: Book, id: string)
    ensures Cancel(Cancel(b, id).book, id) == Cancelled(Cancel(b, id).book, false)
  {
    hide Volume, FindLast, At, Found;
  }
}
