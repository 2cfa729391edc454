/**
 The order book as it is written: two slices of levels and an id index, updated in place
 together with the linked queues.  Every method is proved against the value model.
 */
module Engine {
  import opened Options
  import opened BookSpec
  import opened BookLemmas
  import opened LimitQueue
  import opened MatchSteps
  import opened Invariants
  import opened Cancelling
  import Execution

  ghost function LevelsOf(ls: seq<Limit>): seq<Level>
    reads ls
  {
    seq(|ls|, i requires 0 <= i < |ls| reads ls => Level(ls[i].price, ls[i].entries))
  }

  lemma LevelsOfInsert(ls: seq<Limit>, k: nat, l: Limit)
    requires k <= |ls|
    ensures LevelsOf(ls[..k] + [l] + ls[k..]) == LevelsOf(ls)[..k] + [Level(l.price, l.entries)] + LevelsOf(ls)[k..]
  {
  }

  lemma LevelsOfAt(ls: seq<Limit>, j: nat)
    requires j < |ls|
    ensures |LevelsOf(ls)| == |ls| && LevelsOf(ls)[j] == Level(ls[j].price, ls[j].entries)
  {
  }

  lemma LevelsOfWithout(ls: seq<Limit>, j: nat)
    requires j < |ls|
    ensures |LevelsOf(ls)| == |ls| && LevelsOf(Without(ls, j)) == Without(LevelsOf(ls), j)
  {
  }

  /** `o` is in the queue, and nobody of its id is behind it. */
  ghost predicate LastOfId(q: seq<Order>, o: Order) {
    o in q && forall i, j | 0 <= i < j < |q| && q[i] == o :: q[j].id != o.id
  }

  lemma LastOfRest(q: seq<Order>, k: nat)
    requires k < |q|
    ensures forall o | LastOfId(q, o) && o != q[k] :: LastOfId(Without(q, k), o)
  {
    var r := Without(q, k);
    assert forall i | 0 <= i < |r| :: r[i] == q[if i < k then i else i + 1];
    forall o | LastOfId(q, o) && o != q[k] ensures LastOfId(r, o) {
      WithoutKeeps(q, k);
    }
  }

  lemma LastOfTail(q: seq<Order>)
    requires q != []
    ensures forall o | LastOfId(q, o) && o != q[0] :: LastOfId(q[1..], o)
  {
    LastOfRest(q, 0);
    assert Without(q, 0) == q[1..];
  }

  lemma LastOfLonger(q: seq<Order>, x: Order)
    requires x !in q
    ensures LastOfId(q + [x], x)
    ensures forall o | LastOfId(q, o) && o.id != x.id :: LastOfId(q + [x], o)
  {
    var r := q + [x];
    assert r[|q|] == x;
    forall o | LastOfId(q, o) && o.id != x.id ensures LastOfId(r, o) {
      var i :| 0 <= i < |q| && q[i] == o;
      assert r[i] == o;
    }
  }

  /** The level a spot means, given the two slices and the lost levels. */
  ghost predicate Located(bids: seq<Limit>, asks: seq<Limit>, lost: seq<Limit>, l: Limit?, s: Spot) {
    match s
    case Listed(buy, price) => l in (if buy then bids else asks) && l.price == price
    case Lost(buy, k) => k < |lost| && lost[k] == l && lost[k].buy == buy
  }

  lemma LocatedMore(bids: seq<Limit>, asks: seq<Limit>, bids': seq<Limit>, asks': seq<Limit>, lost: seq<Limit>)
    requires (forall l | l in bids :: l in bids') && (forall l | l in asks :: l in asks')
    ensures forall l, s | Located(bids, asks, lost, l, s) :: Located(bids', asks', lost, l, s)
  {
  }

  /** Cutting `x` out of its slice, for the orders of other levels and, when `x` is lost, for all. */
  lemma LocatedCut(bids: seq<Limit>, asks: seq<Limit>, bids': seq<Limit>, asks': seq<Limit>, lost: seq<Limit>, x: Limit)
    requires forall l | l in (if x.buy then bids else asks) && l != x :: l.price != x.price
    requires (forall l | l in bids && l != x :: l in bids') && (forall l | l in asks && l != x :: l in asks')
    requires x !in if x.buy then asks else bids
    ensures forall l, s | Located(bids, asks, lost, l, s) && l != x :: Located(bids', asks', lost, l, s)
    ensures forall l, s | Located(bids, asks, lost, l, s) ::
              Located(bids', asks', lost + [x], l, LostSpot(s, x.buy, x.price, |lost|))
  {
  }

  ghost predicate SortedSlice(ls: seq<Limit>, desc: bool) {
    forall i, j | 0 <= i < j < |ls| :: Better(desc, ls[i].price, ls[j].price)
  }

  lemma SortedInsert(ls: seq<Limit>, desc: bool, k: nat, l: Limit)
    requires SortedSlice(ls, desc) && k <= |ls|
    requires forall i | 0 <= i < |ls| :: Better(desc, ls[i].price, l.price) <==> i < k
    requires k < |ls| ==> ls[k].price != l.price
    ensures SortedSlice(ls[..k] + [l] + ls[k..], desc)
  {
    var r := ls[..k] + [l] + ls[k..];
    forall i, j | 0 <= i < j < |r| ensures Better(desc, r[i].price, r[j].price) {
      if k < j { assert r[j] == ls[j-1]; }
      if i < k { assert r[i] == ls[i]; } else if i > k { assert r[i] == ls[i-1]; }
    }
  }

  lemma NoTrades()
    ensures Execution.Traded([]) == 0
  {
  }

  class OrderBook {
    var bids: seq<Limit>
    var asks: seq<Limit>
    var orders: map<string, Order>
    ghost var limits: set<Limit>    // every level that was ever opened
    ghost var members: set<Order>   // every order that was ever queued
    ghost var lost: seq<Limit>      // the levels that were dropped with orders in them
    ghost var spots: map<string, Spot>   // where the indexed orders are

    constructor ()
      ensures Valid() && View() == EMPTY
      ensures fresh(limits) && fresh(members)
    {
      bids, asks, orders := [], [], map[];
      limits, members, lost, spots := {}, {}, [], map[];
    }

    /** What holds after any sequence of calls, whatever the ids and quantities. */
    ghost predicate Valid()
      reads this, limits, members
    {
      LimitsValid() && SlicesValid() && IndexValid() && LostValid()
    }

    ghost predicate LimitsValid()
      reads this`limits, this`members, limits, members
    {
      && (forall l, i | l in limits && 0 <= i < |l.queue| :: l.queue[i] in members && l.queue[i].limit == l)
      && (forall l | l in limits :: l.Valid() && AllPositive(l.entries))
    }

    ghost predicate SlicesValid()
      reads this`bids, this`asks, this`limits
    {
      SliceValid(true) && SliceValid(false)
    }

    ghost predicate IndexValid()
      reads this`orders, this`spots, this`bids, this`asks, this`lost, this`limits, this`members,
            limits`queue, members`limit
    {
      IndexBut({})
    }

    /** The index is right about all ids but these. */
    ghost predicate IndexBut(ids: set<string>)
      reads this`orders, this`spots, this`bids, this`asks, this`lost, this`limits, this`members,
            limits`queue, members`limit
    {
      && spots.Keys == orders.Keys
      && forall id | id in orders && id !in ids ::
           && orders[id].id == id && Newest(orders[id])
           && orders[id] in members && Located(bids, asks, lost, orders[id].limit, spots[id])
    }

    /** Queued, and the youngest of its id in its level. */
    ghost predicate Newest(o: Order)
      reads this`limits, this`members, limits`queue, members`limit
    {
      o in members && o.limit != null && o.limit in limits && LastOfId(o.limit.queue, o)
    }

    /** A lost level is in neither slice, and was lost once. */
    ghost predicate LostValid()
      reads this`bids, this`asks, this`lost, this`limits
    {
      && (forall k | 0 <= k < |lost| :: lost[k] in limits && lost[k] !in bids && lost[k] !in asks)
      && (forall k, n | 0 <= k < n < |lost| :: lost[k] != lost[n])
    }

    function Slice(buy: bool): seq<Limit>
      reads this`bids, this`asks
    {
      if buy then bids else asks
    }

    ghost predicate SliceValid(buy: bool)
      reads this`bids, this`asks, this`limits
    {
      && SortedSlice(Slice(buy), buy)
      && (forall l | l in Slice(buy) :: l in limits && l.buy == buy)
    }

    ghost function View(): Book
      reads this, bids, asks, lost
    {
      Book(LevelsOf(bids), LevelsOf(asks), spots, LevelsOf(lost))
    }

    /** The book is what its users take it for: honest levels, unique ids, an exact index. */
    ghost predicate Exact()
      reads this, bids, asks, lost
    {
      WellFormed(View())
    }

    lemma QueueFacts(l: Limit)
      requires LimitsValid() && l in limits
      ensures |l.entries| == |l.queue| && (l.head == null <==> l.queue == [])
      ensures l.totalVolume == Volume(l.entries) % TWO64 && AllPositive(l.entries)
      ensures l.head != null ==>
                l.head == l.queue[0] && l.head.id == l.entries[0].id && l.head.RemainingQty() == l.entries[0].rem
      ensures forall i | 0 <= i < |l.queue| :: l.queue[i] in members
    {
      l.OwnsQueue();
    }

    lemma SliceFacts()
      requires SlicesValid()
      ensures forall b, i | 0 <= i < |Slice(b)| :: Slice(b)[i] in limits && Slice(b)[i].buy == b
      ensures forall b, i, j | 0 <= i < j < |Slice(b)| :: Slice(b)[i] != Slice(b)[j]
      ensures (forall l | l in bids :: l.buy) && (forall l | l in asks :: !l.buy)
    {
      assert Slice(true) == bids && Slice(false) == asks;
      assert forall b, i, j | 0 <= i < j < |Slice(b)| :: Better(b, Slice(b)[i].price, Slice(b)[j].price);
    }

    lemma ViewIndex()
      requires IndexValid()
      ensures View().live == spots && spots.Keys == orders.Keys
    {
    }

    lemma LostFacts()
      requires LostValid()
      ensures forall k | 0 <= k < |lost| :: lost[k] in limits && lost[k] !in bids && lost[k] !in asks
      ensures forall k, n | 0 <= k < n < |lost| :: lost[k] != lost[n]
    {
    }

    lemma ViewSides()
      ensures View().Side(true) == LevelsOf(bids) && View().Side(false) == LevelsOf(asks)
      ensures forall b :: View().Side(b) == LevelsOf(Slice(b)) && |View().Side(b)| == |Slice(b)|
      ensures forall b, i | 0 <= i < |Slice(b)| ::
                View().Side(b)[i] == Level(Slice(b)[i].price, Slice(b)[i].entries)
    {
    }

    /** Execute against the oldest order of `best`; the other levels are untouched. */
    method TakeBest(best: Limit, qty: u64)
      requires LimitsValid() && best in limits
      requires best.head != null && qty <= best.head.RemainingQty()
      modifies best, best.queue
      ensures LimitsValid()
      ensures old(best.queue) != [] && old(best.entries) != [] && old(best.head) == old(best.queue)[0]
      ensures old(best.head.RemainingQty()) == old(best.entries)[0].rem && old(best.head).id == old(best.entries)[0].id
      ensures old(best.head).RemainingQty() == old(best.head.RemainingQty()) - qty
      ensures best.entries == AfterFill(old(best.entries), qty)
      ensures forall i | 0 <= i < |best.queue| :: best.queue[i] in old(best.queue)
      ensures forall o | o in members && old(Newest(o)) && (o != old(best.head) || qty < old(best.head.RemainingQty())) ::
                Newest(o) && o.limit == old(o.limit)
    {
      hide Limit.Linked, Limit.Counted, LastOfId;
      best.OwnsQueue();
      LastOfTail(best.queue);
      best.ExecuteFront(qty);
      best.OwnsQueue();
    }

    /** The same, with the index; an exhausted order is still in it. */
    method TakeIndexed(best: Limit, qty: u64)
      requires LimitsValid() && IndexValid() && best in limits
      requires best.head != null && qty <= best.head.RemainingQty()
      modifies best, best.queue
      ensures LimitsValid() && old(best.entries) != []
      ensures old(best.head.RemainingQty()) == old(best.entries)[0].rem && old(best.head).id == old(best.entries)[0].id
      ensures old(best.head).RemainingQty() == old(best.head.RemainingQty()) - qty
      ensures best.entries == AfterFill(old(best.entries), qty)
      ensures forall i | 0 <= i < |best.queue| :: best.queue[i] in old(best.queue)
      ensures IndexBut(if qty < old(best.head.RemainingQty()) then {} else {old(best.head).id})
    {
      hide Limit.Valid, OrderBook.LimitsValid, OrderBook.Newest, Located;
      TakeBest(best, qty);
    }

    /** Take an id out of the index. */
    method Unindex(id: string)
      requires IndexBut({id})
      modifies this`orders, this`spots
      ensures IndexValid() && orders == old(orders) - {id} && spots == old(spots) - {id}
    {
      hide OrderBook.Newest, Located;
      orders, spots := orders - {id}, spots - {id};
    }

    /** One round of the inner loop: trade against the oldest order of `best`. */
    method FillHead(taker: Order, best: Limit) returns (trade: Trade)
      requires Valid() && best in limits && best.head != null
      requires taker !in members && taker.RemainingQty() > 0
      modifies this`orders, this`spots, taker`filled, best, best.queue
      ensures Valid()
      ensures forall i | 0 <= i < |best.queue| :: best.queue[i] in old(best.queue)
      ensures old(best.entries) != []
      ensures
        var e, q := old(best.entries)[0], old(taker.RemainingQty());
        && trade == Trade(e.id, taker.id, best.price, Min(q, e.rem))
        && taker.RemainingQty() == q - trade.qty
        && best.entries == AfterFill(old(best.entries), trade.qty)
        && spots == if q < e.rem then old(spots) else old(spots) - {e.id}
    {
      hide Limit.Valid, OrderBook.LimitsValid, OrderBook.SlicesValid, OrderBook.LostValid, OrderBook.IndexBut;
      QueueFacts(best);
      var maker := best.head;
      var matchQty := Min(taker.RemainingQty(), maker.RemainingQty());
      taker.filled := taker.filled + matchQty;
      TakeIndexed(best, matchQty);
      trade := Trade(maker.id, taker.id, best.price, matchQty);
      if maker.RemainingQty() == 0 {
        Unindex(maker.id);
      }
    }

    /** The inner loop: trade against one level until it or the taker is exhausted. */
    method MatchLevel(taker: Order, best: Limit) returns (trades: seq<Trade>)
      requires Valid() && best in limits
      requires taker !in members && taker.filled <= taker.quantity
      modifies this`orders, this`spots, taker`filled, best, best.queue
      ensures Valid() && taker.filled <= taker.quantity
      ensures forall i | 0 <= i < |best.queue| :: best.queue[i] in old(best.queue)
      ensures
        var f := FillQueue(old(best.entries), old(taker.RemainingQty()), taker.id, best.price);
        && best.entries == f.queue && trades == f.trades
        && taker.RemainingQty() == f.left && spots == old(spots) - f.gone
    {
      hide Limit.Valid, OrderBook.LimitsValid, OrderBook.SlicesValid, OrderBook.IndexValid,
           OrderBook.LostValid, FillQueue;
      trades := [];
      ghost var gone: set<string> := {};
      ghost var whole := FillQueue(best.entries, taker.RemainingQty(), taker.id, best.price);
      assert whole.trades == trades + whole.trades && whole.gone == gone + whole.gone;
      while best.head != null && taker.RemainingQty() > 0
        invariant Valid() && taker.filled <= taker.quantity
        invariant forall i | 0 <= i < |best.queue| :: best.queue[i] in old(best.queue)
        invariant whole == After(trades, gone, FillQueue(best.entries, taker.RemainingQty(), taker.id, best.price))
        invariant spots == old(spots) - gone
        decreases |best.entries|, taker.RemainingQty()
      {
        QueueFacts(best);
        ghost var e, q := best.entries[0], taker.RemainingQty();
        FillStep(trades, gone, best.entries, q, taker.id, best.price);
        var trade := FillHead(taker, best);
        gone := if q < e.rem then gone else gone + {e.id};
        trades := trades + [trade];
      }
      QueueFacts(best);
      FillStops(best.entries, taker.RemainingQty(), taker.id, best.price);
    }

    /** Trade against the best level of the side opposite to `buy`. */
    method MatchBest(taker: Order, buy: bool) returns (trades: seq<Trade>)
      requires Valid() && Slice(!buy) != []
      requires taker !in members && taker.filled <= taker.quantity
      modifies this`orders, this`spots, taker`filled, limits, members
      ensures Valid() && taker.filled <= taker.quantity
      ensures old(View()).Side(!buy) != []
      ensures
        var b := old(View());
        var levels := b.Side(!buy);
        var f := FillQueue(levels[0].queue, old(taker.RemainingQty()), taker.id, levels[0].price);
        && View() == b.WithSide(!buy, levels[0 := Level(levels[0].price, f.queue)]).(live := b.live - f.gone)
        && trades == f.trades && taker.RemainingQty() == f.left
    {
      hide Limit.Valid, OrderBook.LimitsValid, OrderBook.SlicesValid, OrderBook.IndexValid,
           OrderBook.LostValid, FillQueue;
      SliceFacts();
      LostFacts();
      var best := Slice(!buy)[0];
      QueueFacts(best);
      trades := MatchLevel(taker, best);
    }

    lemma NobodyIn(l: Limit)
      requires l.queue == []
      ensures forall o | o in members && Newest(o) :: o.limit != l
    {
    }

    lemma CutFacts(buy: bool, idx: nat)
      requires SlicesValid() && idx < |Slice(buy)|
      ensures
        var l, rest := Slice(buy)[idx], Without(Slice(buy), idx);
        && SortedSlice(rest, buy) && l.buy == buy && l in limits && l !in Slice(!buy)
        && (forall x | x in rest :: x in Slice(buy) && x != l)
        && (forall x | x in Slice(buy) && x != l :: x in rest && x.price != l.price)
    {
      var slice, rest := Slice(buy), Without(Slice(buy), idx);
      SliceFacts();
      WithoutKeeps(slice, idx);
      assert forall i | 0 <= i < |rest| :: rest[i] == slice[if i < idx then i else i + 1];
      assert Slice(true) == bids && Slice(false) == asks;
    }

    method CutSlice(buy: bool, idx: nat)
      requires SlicesValid() && idx < |Slice(buy)|
      modifies this`bids, this`asks
      ensures SlicesValid() && Slice(buy) == Without(old(Slice(buy)), idx) && Slice(!buy) == old(Slice(!buy))
      ensures idx < |old(LevelsOf(Slice(buy)))| && LevelsOf(Slice(buy)) == Without(old(LevelsOf(Slice(buy))), idx)
      ensures LevelsOf(Slice(!buy)) == old(LevelsOf(Slice(!buy)))
    {
      hide Without, SortedSlice;
      CutFacts(buy, idx);
      var slice := Slice(buy);
      LevelsOfWithout(slice, idx);
      if buy { bids := Without(slice, idx); } else { asks := Without(slice, idx); }
    }

    /** The cut level keeps its orders: move the spots of the indexed ones. */
    ghost method Shelve(l: Limit, bids': seq<Limit>, asks': seq<Limit>)
      requires l in limits && l !in bids && l !in asks && l !in lost && LostValid() && spots.Keys == orders.Keys
      requires forall id | id in orders ::
                 && orders[id].id == id && Newest(orders[id]) && orders[id] in members
                 && Located(bids', asks', lost, orders[id].limit, spots[id])
                 && Located(bids, asks, lost + [l], orders[id].limit, LostSpot(spots[id], l.buy, l.price, |lost|))
      modifies this`lost, this`spots
      ensures IndexValid() && LostValid()
      ensures LevelsOf(lost) == old(LevelsOf(lost)) + [Level(l.price, l.entries)] && |old(lost)| == |old(LevelsOf(lost))|
      ensures spots == LostIndex(old(spots), l.buy, |old(lost)|, Some(Level(l.price, l.entries)))
      ensures LevelsOf(bids) == old(LevelsOf(bids)) && LevelsOf(asks) == old(LevelsOf(asks))
    {
      hide OrderBook.Newest, Located;
      spots := LostIndex(spots, l.buy, |lost|, Some(Level(l.price, l.entries)));
      lost := lost + [l];
    }

    /** Cut one level out of its slice; if it still holds orders, they are lost with it. */
    method CutLevel(buy: bool, idx: nat)
      requires Valid() && idx < |Slice(buy)|
      modifies this`bids, this`asks, this`lost, this`spots
      ensures Valid() && idx < |old(View()).Side(buy)| && View() == Cut(old(View()), buy, idx)
    {
      hide Limit.Valid, OrderBook.LimitsValid, OrderBook.Newest, OrderBook.SlicesValid, Without, Located, LevelsOf;
      var slice := Slice(buy);
      ghost var l, bids', asks' := slice[idx], bids, asks;
      CutFacts(buy, idx);
      QueueFacts(l);
      LevelsOfAt(slice, idx);
      CutSlice(buy, idx);
      LocatedCut(bids', asks', bids, asks, lost, l);
      if l.queue == [] {
        NobodyIn(l);
        assert Stock(Level(l.price, l.entries)) == None;
      } else {
        Shelve(l, bids', asks');
      }
    }

    /** Remove the best level of a side when its counter reads zero. */
    method DropBestIfEmpty(buy: bool)
      requires Valid() && Slice(buy) != []
      modifies this`bids, this`asks, this`lost, this`spots
      ensures Valid() && old(View()).Side(buy) != []
      ensures View() == if Volume(old(View()).Side(buy)[0].queue) % TWO64 == 0 then Cut(old(View()), buy, 0)
                        else old(View())
    {
      hide Limit.Valid, OrderBook.LimitsValid, OrderBook.IndexValid, OrderBook.LostValid, Cut;
      ViewSides();
      QueueFacts(Slice(buy)[0]);
      if Slice(buy)[0].totalVolume == 0 {
        CutLevel(buy, 0);
      }
    }

    /** One round of the outer loop: the best level, and its removal when used up. */
    method MatchRound(taker: Order, buy: bool)
      returns (trades: seq<Trade>, ghost gone: set<string>, ghost loss: Option<Level>)
      requires Valid() && Slice(!buy) != [] && Crosses(taker.AsTicket(), Slice(!buy)[0].price)
      requires taker !in members && taker.filled <= taker.quantity && taker.RemainingQty() > 0
      modifies this`orders, this`spots, this`bids, this`asks, this`lost, taker`filled, limits, members
      ensures Valid() && taker.filled <= taker.quantity
      ensures Sweep(old(View()).Side(!buy), taker.AsTicket(), old(taker.RemainingQty())) ==
              Then(trades, gone, loss, Sweep(View().Side(!buy), taker.AsTicket(), taker.RemainingQty()))
      ensures View() == Matched(old(View()), buy, Swept(View().Side(!buy), [], 0, gone, loss))
      ensures loss.Some? ==> taker.RemainingQty() == 0
      ensures |Slice(!buy)| < old(|Slice(!buy)|) || (|Slice(!buy)| == old(|Slice(!buy)|) && taker.RemainingQty() == 0)
    {
      hide Limit.Valid, OrderBook.LimitsValid, OrderBook.SlicesValid, OrderBook.IndexValid,
           OrderBook.LostValid, FillQueue, Sweep, Volume, Crosses, Then, OrderBook.View, LevelsOf;
      ViewSides();
      ghost var b, t, q := View(), taker.AsTicket(), taker.RemainingQty();
      ghost var levels := b.Side(!buy);
      SweepStep(levels, t, q);
      ghost var f := FillQueue(levels[0].queue, q, t.id, levels[0].price);
      ghost var l := Level(levels[0].price, f.queue);
      trades := MatchBest(taker, buy);
      gone := f.gone;
      ViewSides();
      DropBestIfEmpty(!buy);
      ViewSides();
      loss := if Volume(f.queue) % TWO64 == 0 then Stock(l) else None;
      assert Without(levels[0 := l], 0) == levels[1..];
    }

    /** Match `taker` against the side opposite to `buy`, level after level. */
    method MatchOrder(taker: Order, buy: bool) returns (trades: seq<Trade>)
      requires Valid() && buy == (taker.side == BUY)
      requires taker !in members && taker.filled <= taker.quantity
      modifies this`orders, this`spots, this`bids, this`asks, this`lost, taker`filled, limits, members
      ensures Valid() && taker.filled <= taker.quantity
      ensures
        var s := Sweep(old(View()).Side(!buy), taker.AsTicket(), old(taker.RemainingQty()));
        View() == Matched(old(View()), buy, s) && trades == s.trades && taker.RemainingQty() == s.left
    {
      hide Limit.Valid, OrderBook.LimitsValid, OrderBook.SlicesValid, OrderBook.IndexValid,
           OrderBook.LostValid, Sweep, Then, OrderBook.View, LevelsOf;
      trades := [];
      ghost var gone: set<string>, loss: Option<Level> := {}, None;
      ghost var b, t := View(), taker.AsTicket();
      ghost var whole := Sweep(b.Side(!buy), t, taker.RemainingQty());
      ThenNothing(whole);
      assert b.live - gone == b.live && b == b.WithSide(!buy, b.Side(!buy));
      ViewSides();
      while |Slice(!buy)| > 0 && taker.RemainingQty() > 0
        invariant Valid() && taker.filled <= taker.quantity
        invariant whole == Then(trades, gone, loss, Sweep(View().Side(!buy), t, taker.RemainingQty()))
        invariant View() == Matched(b, buy, Swept(View().Side(!buy), [], 0, gone, loss))
        invariant loss.Some? ==> taker.RemainingQty() == 0
        decreases |Slice(!buy)|, taker.RemainingQty()
      {
        var best := Slice(!buy)[0];
        if taker.kind == LIMIT {
          if taker.side == BUY && taker.price < best.price { break; }
          if taker.side == SELL && taker.price > best.price { break; }
        }
        ghost var levels := View().Side(!buy);
        var ts, ids, lost' := MatchRound(taker, buy);
        MatchedTwice(b, buy, Swept(levels, [], 0, gone, None), Swept(View().Side(!buy), [], 0, ids, lost'), gone + ids);
        ThenThen(trades, gone, ts, ids, lost', Sweep(View().Side(!buy), t, taker.RemainingQty()));
        trades, gone, loss := trades + ts, gone + ids, lost';
      }
      ViewSides();
      SweepStops(View().Side(!buy), t, taker.RemainingQty());
      ThenStop(trades, gone, loss, View().Side(!buy), taker.RemainingQty());
    }

    /** Binary search for the first level whose price is not better than `price`. */
    method Search(buy: bool, price: u64) returns (idx: nat)
      requires SlicesValid()
      ensures idx <= |Slice(buy)|
      ensures forall i | 0 <= i < |Slice(buy)| :: Better(buy, Slice(buy)[i].price, price) <==> i < idx
    {
      var lo, hi := 0, |Slice(buy)|;
      while lo < hi
        invariant 0 <= lo <= hi <= |Slice(buy)|
        invariant forall i | 0 <= i < lo :: Better(buy, Slice(buy)[i].price, price)
        invariant forall i | hi <= i < |Slice(buy)| :: !Better(buy, Slice(buy)[i].price, price)
      {
        var mid := (lo + hi) / 2;
        if !Better(buy, Slice(buy)[mid].price, price) {
          hi := mid;
        } else {
          lo := mid + 1;
        }
      }
      idx := lo;
    }

    method Open(price: u64, buy: bool) returns (limit: Limit)
      requires Valid()
      modifies this`limits
      ensures LimitsValid() && IndexValid() && LostValid() && SlicesValid()
      ensures fresh(limit) && limits == old(limits) + {limit}
      ensures limit.price == price && limit.buy == buy && limit.entries == []
      ensures limit !in bids && limit !in asks && limit !in lost
    {
      hide Limit.Linked, Limit.Counted, LastOfId, Located;
      limit := new Limit(price, buy);
      limits := limits + {limit};
    }

    /** The level of this price, opened empty at its sorted place if there is none. */
    method FindOrOpen(price: u64, buy: bool) returns (limit: Limit, ghost idx: nat)
      requires Valid()
      modifies this`bids, this`asks, this`limits
      ensures Valid()
      ensures idx < |Slice(buy)| && Slice(buy)[idx] == limit && limit.price == price
      ensures idx <= |old(Slice(buy))| && forall i | 0 <= i < idx :: Better(buy, old(Slice(buy))[i].price, price)
      ensures if limit in old(limits) then Slice(buy) == old(Slice(buy)) && limits == old(limits)
              else fresh(limit) && limit.entries == [] && limits == old(limits) + {limit}
                   && (idx < |old(Slice(buy))| ==> Better(buy, price, old(Slice(buy))[idx].price))
                   && Slice(buy) == old(Slice(buy)[..idx]) + [limit] + old(Slice(buy)[idx..])
      ensures Slice(!buy) == old(Slice(!buy))
    {
      hide Limit.Valid, OrderBook.LimitsValid, OrderBook.IndexValid, SortedSlice;
      var k := Search(buy, price);
      idx := k;
      var slice := Slice(buy);
      if k < |slice| && slice[k].price == price {
        limit := slice[k];
      } else {
        limit := Open(price, buy);
        Install(limit, buy, k);
      }
    }

    /** Put an opened level into its slice. */
    method Install(limit: Limit, buy: bool, k: nat)
      requires LimitsValid() && SlicesValid() && IndexValid() && LostValid()
      requires limit in limits && limit !in bids && limit !in asks && limit !in lost && limit.buy == buy
      requires k <= |Slice(buy)| && (k < |Slice(buy)| ==> Slice(buy)[k].price != limit.price)
      requires forall i | 0 <= i < |Slice(buy)| :: Better(buy, Slice(buy)[i].price, limit.price) <==> i < k
      modifies this`bids, this`asks
      ensures Valid()
      ensures Slice(buy) == old(Slice(buy)[..k]) + [limit] + old(Slice(buy)[k..]) && Slice(!buy) == old(Slice(!buy))
    {
      hide Limit.Valid, OrderBook.LimitsValid, OrderBook.Newest, SortedSlice, Located;
      var slice := Slice(buy);
      var slice' := slice[..k] + [limit] + slice[k..];
      SortedInsert(slice, buy, k, limit);
      LocatedMore(bids, asks, if buy then slice' else bids, if buy then asks else slice', lost);
      if buy { bids := slice'; } else { asks := slice'; }
    }

    /** Append `order` to one level of its slice and index it. */
    method Enqueue(order: Order, limit: Limit, buy: bool)
      requires Valid() && limit in Slice(buy) && limit in limits && limit.buy == buy && order !in members
      requires order.limit == null && order.next == null && order.prev == null
      requires 0 < order.RemainingQty() && (order.side == BUY) == buy
      modifies this`orders, this`spots, this`members, order`limit, order`next, order`prev, limit, limit.queue
      ensures Valid()
      ensures limit.entries == old(limit.entries) + [Entry(order.id, order.RemainingQty())]
      ensures spots == old(spots)[order.id := Listed(buy, limit.price)] && members == old(members) + {order}
    {
      hide Limit.Valid, OrderBook.LimitsValid, OrderBook.SlicesValid, OrderBook.LostValid, OrderBook.IndexBut,
           OrderBook.Newest;
      AppendIndexed(order, limit);
      Index(order, Listed(buy, limit.price));
    }

    /** The new order is queued but not in the index yet. */
    method AppendIndexed(order: Order, limit: Limit)
      requires LimitsValid() && IndexValid() && limit in limits && order !in members
      requires order.limit == null && order.next == null && order.prev == null
      requires 0 < order.RemainingQty() && (order.side == BUY) == limit.buy
      modifies this`members, order`limit, order`next, order`prev, limit, limit.queue
      ensures LimitsValid() && IndexBut({order.id})
      ensures limit.entries == old(limit.entries) + [Entry(order.id, order.RemainingQty())]
      ensures members == old(members) + {order} && Newest(order) && order.limit == limit
    {
      hide Limit.Valid, OrderBook.LimitsValid, OrderBook.Newest, Located;
      Append(order, limit);
    }

    /** Let the index lead to `order`, whatever it knew under that id. */
    method Index(order: Order, ghost spot: Spot)
      requires order in members && IndexBut({order.id}) && Newest(order)
      requires Located(bids, asks, lost, order.limit, spot)
      modifies this`orders, this`spots
      ensures IndexValid() && orders == old(orders)[order.id := order] && spots == old(spots)[order.id := spot]
    {
      hide OrderBook.Newest, Located;
      orders, spots := orders[order.id := order], spots[order.id := spot];
    }

    method Append(order: Order, limit: Limit)
      requires LimitsValid() && limit in limits && order !in members
      requires order.limit == null && order.next == null && order.prev == null
      requires 0 < order.RemainingQty() && (order.side == BUY) == limit.buy
      modifies this`members, order`limit, order`next, order`prev, limit, limit.queue
      ensures LimitsValid()
      ensures limit.entries == old(limit.entries) + [Entry(order.id, order.RemainingQty())]
      ensures members == old(members) + {order} && Newest(order) && order.limit == limit
      ensures forall o | o in old(members) && old(Newest(o)) && o.id != order.id :: Newest(o) && o.limit == old(o.limit)
    {
      hide Limit.Linked, Limit.Counted, LastOfId;
      limit.OwnsQueue();
      LastOfLonger(limit.queue, order);
      limit.AddOrder(order);
      members := members + {order};
      limit.OwnsQueue();
    }

    /** Find or open the level where the entry `e` goes, seen in the levels. */
    method PrepareLevel(price: u64, buy: bool, ghost e: Entry) returns (limit: Limit, ghost idx: nat)
      requires Valid()
      modifies this`bids, this`asks, this`limits
      ensures Valid() && limit in limits && limit.buy == buy && |LevelsOf(Slice(buy))| == |Slice(buy)|
      ensures idx < |Slice(buy)| && Slice(buy)[idx] == limit && limit.price == price
      ensures Insert(old(LevelsOf(Slice(buy))), buy, price, e) ==
              LevelsOf(Slice(buy))[idx := Level(price, limit.entries + [e])]
      ensures LevelsOf(Slice(!buy)) == old(LevelsOf(Slice(!buy))) && LevelsOf(lost) == old(LevelsOf(lost))
      ensures fresh(limits - old(limits)) && limits >= old(limits)
    {
      hide Limit.Valid, OrderBook.LimitsValid, OrderBook.IndexValid, OrderBook.SlicesValid,
           OrderBook.LostValid, Insert;
      ghost var slice, levels := Slice(buy), LevelsOf(Slice(buy));
      SliceFacts();
      LostFacts();
      limit, idx := FindOrOpen(price, buy);
      assert LevelsOf(slice) == levels;
      SliceFacts();
      if limit in old(limits) {
        InsertExisting(levels, buy, price, e, idx);
      } else {
        InsertNew(levels, buy, price, e, idx);
        LevelsOfInsert(slice, idx, limit);
        assert limit.entries + [e] == [e];
      }
    }

    /** Append to the `idx`-th level of a side, seen in the levels. */
    method EnqueueInView(order: Order, limit: Limit, buy: bool, ghost idx: nat)
      requires Valid() && idx < |Slice(buy)| && Slice(buy)[idx] == limit && order !in members
      requires order.limit == null && order.next == null && order.prev == null
      requires 0 < order.RemainingQty() && (order.side == BUY) == buy
      modifies this`orders, this`spots, this`members, order`limit, order`next, order`prev, limits, members
      ensures Valid() && members == old(members) + {order}
      ensures
        var b, e := old(View()), Entry(order.id, order.RemainingQty());
        idx < |b.Side(buy)| &&
        View() == b.WithSide(buy, b.Side(buy)[idx := Level(limit.price, old(limit.entries) + [e])])
                   .(live := b.live[e.id := Listed(buy, limit.price)])
    {
      hide Limit.Valid, OrderBook.LimitsValid, OrderBook.IndexValid, OrderBook.SlicesValid, OrderBook.LostValid;
      SliceFacts();
      LostFacts();
      QueueFacts(limit);
      Enqueue(order, limit, buy);
    }

    /** Rest the remainder of a limit order on its own side. */
    method AddLimitOrder(order: Order, buy: bool)
      requires Valid() && order !in members && buy == (order.side == BUY)
      requires order.limit == null && order.next == null && order.prev == null && 0 < order.RemainingQty()
      modifies this, order`limit, order`next, order`prev, limits, members
      ensures Valid()
      ensures View() == Rested(old(View()), buy, order.price, Entry(order.id, order.RemainingQty()))
      ensures members == old(members) + {order} && fresh(limits - old(limits))
    {
      hide Limit.Valid, OrderBook.LimitsValid, OrderBook.IndexValid, OrderBook.SlicesValid, OrderBook.LostValid,
           Insert, LevelsOf;
      var limit, idx := PrepareLevel(order.price, buy, Entry(order.id, order.RemainingQty()));
      EnqueueInView(order, limit, buy, idx);
    }

    /** The whole call: match, then rest what is left of a limit order. */
    method Process(order: Order) returns (trades: seq<Trade>)
      requires Valid() && order !in members && order.Fresh()
      modifies this, order, limits, members
      ensures Valid()
      ensures
        var p := BookSpec.Process(old(View()), order.AsTicket());
        View() == p.book && trades == p.trades
      ensures order.filled == Execution.Traded(trades)
      ensures fresh(limits - old(limits)) && members <= old(members) + {order}
      ensures old(Ordered(View())) ==> Ordered(View())
      ensures old(Exact()) ==> (Exact() <==> Admissible(old(View()), order.AsTicket()))
    {
      hide Limit.Valid, OrderBook.LimitsValid, OrderBook.SlicesValid, OrderBook.IndexValid,
           OrderBook.LostValid, OrderBook.View, Sweep, Matched, Rested, Tidy, Ordered, Admissible, Execution.Traded;
      ghost var b := View();
      Execution.SweepTraded(b.Side(order.side != BUY), order.AsTicket(), order.quantity);
      NoTrades();
      if Ordered(b) {
        ProcessOrdered(b, order.AsTicket());
      }
      if Exact() {
        ProcessTidy(b, order.AsTicket());
      }
      trades := [];
      if order.quantity == 0 {
        return;
      }
      var buy := order.side == BUY;
      trades := MatchOrder(order, buy);
      if order.RemainingQty() > 0 && order.kind == LIMIT {
        AddLimitOrder(order, buy);
      }
    }

    /** Unlink a queued order; the other levels are untouched. */
    method Unqueue(order: Order, limit: Limit, ghost k: nat)
      requires LimitsValid() && limit in limits && k < |limit.queue| && limit.queue[k] == order
      modifies limit, limit.queue
      ensures LimitsValid()
      ensures k < |old(limit.entries)| && limit.entries == Without(old(limit.entries), k)
      ensures forall i | 0 <= i < |limit.queue| :: limit.queue[i] in old(limit.queue)
      ensures forall o | o in members && old(Newest(o)) && o != order :: Newest(o) && o.limit == old(o.limit)
    {
      hide Limit.Linked, Limit.Counted, LastOfId, Without;
      limit.OwnsQueue();
      limit.QueueAt(k);
      WithoutKeeps(limit.queue, k);
      LastOfRest(limit.queue, k);
      PositiveWithout(limit.entries, k);
      limit.RemoveOrder(order, k);
      limit.OwnsQueue();
    }

    /** Drop the level of this price from a side, if there is one. */
    method RemoveLimitLevel(buy: bool, price: u64)
      requires Valid()
      modifies this`bids, this`asks, this`lost, this`spots
      ensures Valid() && View() == DropLevel(old(View()), buy, price)
    {
      hide Limit.Valid, OrderBook.LimitsValid, OrderBook.IndexValid, OrderBook.LostValid, Cut, At;
      ViewSides();
      var idx := Search(buy, price);
      SearchIsAt(buy, price, idx);
      if idx < |Slice(buy)| && Slice(buy)[idx].price == price {
        CutLevel(buy, idx);
      }
    }

    /** What the binary search finds is the level of that price, if there is one. */
    lemma SearchIsAt(buy: bool, price: u64, idx: nat)
      requires SlicesValid() && idx <= |Slice(buy)|
      requires forall i | 0 <= i < |Slice(buy)| :: Better(buy, Slice(buy)[i].price, price) <==> i < idx
      ensures At(LevelsOf(Slice(buy)), price) ==
              if idx < |Slice(buy)| && Slice(buy)[idx].price == price then idx else |Slice(buy)|
    {
      hide At;
      var slice, levels := Slice(buy), LevelsOf(Slice(buy));
      assert |levels| == |slice| && forall i | 0 <= i < |slice| :: levels[i].price == slice[i].price;
      assert forall i | 0 <= i < |slice| :: slice[i].price == price ==> i >= idx;
      assert forall i | idx < i < |slice| :: Better(buy, slice[idx].price, slice[i].price);
    }

    /** The limits a spot points into. */
    ghost function Limits(s: Spot): seq<Limit>
      reads this`bids, this`asks, this`lost
    {
      if s.Listed? then Slice(s.buy) else lost
    }

    /** Where the index leads: the `k`-th order of the level the spot names. */
    lemma Indexes(id: string) returns (k: nat)
      requires Valid() && id in orders
      ensures
        id in spots &&
        var o, b, s := orders[id], View(), spots[id];
        && o in members && o.id == id && o.limit != null && o.limit in limits
        && o.limit.buy == s.buy && (o.side == BUY) == s.buy
        && b.Position(s) < |Limits(s)| && Limits(s)[b.Position(s)] == o.limit && b.List(s) == LevelsOf(Limits(s))
        && k < |o.limit.queue| == |o.limit.entries| && o.limit.queue[k] == o && k == FindLast(o.limit.entries, id)
    {
      hide Limit.Valid, OrderBook.LimitsValid, FindLast, At;
      var o, s := orders[id], spots[id];
      var l := o.limit;
      k :| 0 <= k < |l.queue| && l.queue[k] == o;
      YoungestEntry(l, k);
      ViewSides();
      if s.Listed? {
        var j :| 0 <= j < |Slice(s.buy)| && Slice(s.buy)[j] == l;
        assert forall i | 0 <= i < j :: Better(s.buy, Slice(s.buy)[i].price, l.price);
        assert At(View().Side(s.buy), s.price) == j;
      }
    }

    lemma YoungestEntry(l: Limit, k: nat)
      requires LimitsValid() && l in limits && k < |l.queue|
      requires forall j | k < j < |l.queue| :: l.queue[j].id != l.queue[k].id
      ensures |l.queue| == |l.entries| && FindLast(l.entries, l.queue[k].id) == k && (l.queue[k].side == BUY) == l.buy
    {
      hide Limit.Linked, FindLast;
      l.QueueAt(k);
      assert forall j | 0 <= j < |l.queue| :: l.entries[j].id == l.queue[j].id;
    }

    /** Unlink an indexed order, which is still in the index. */
    method UnqueueIndexed(order: Order, limit: Limit, ghost k: nat)
      requires LimitsValid() && IndexValid() && limit in limits && k < |limit.queue| && limit.queue[k] == order
      modifies limit, limit.queue
      ensures LimitsValid() && IndexBut({order.id})
      ensures k < |old(limit.entries)| && limit.entries == Without(old(limit.entries), k)
    {
      hide Limit.Valid, OrderBook.LimitsValid, OrderBook.Newest, Located, Without;
      Unqueue(order, limit, k);
    }

    /** The same, seen in the levels; the order's level is the `j`-th in the list of its spot. */
    method UnqueueInView(order: Order, limit: Limit, ghost k: nat, ghost s: Spot, ghost j: nat)
      requires Valid() && limit in limits && k < |limit.queue| && limit.queue[k] == order
      requires j < |Limits(s)| && Limits(s)[j] == limit
      modifies limit, limit.queue
      ensures LimitsValid() && SlicesValid() && LostValid() && IndexBut({order.id})
      ensures k < |old(limit.entries)| && limit.entries == Without(old(limit.entries), k)
      ensures
        var b := old(View());
        j < |b.List(s)| && View() == b.WithList(s, b.List(s)[j := Level(limit.price, limit.entries)])
    {
      hide Limit.Valid, OrderBook.LimitsValid, OrderBook.SlicesValid, OrderBook.LostValid, OrderBook.IndexBut, Without;
      SliceFacts();
      LostFacts();
      UnqueueIndexed(order, limit, k);
    }

    /** Unlink and unindex one order; its level stays where it is for now. */
    method Detach(id: string) returns (order: Order, limit: Limit)
      requires Valid() && id in orders
      modifies this`orders, this`spots, limits, members
      ensures Valid() && Found(old(View()), id) && View() == Detached(old(View()), id)
      ensures limit in limits && limit.price == Shortened(old(View()), id).price
      ensures limit.totalVolume == Volume(Shortened(old(View()), id).queue) % TWO64
      ensures id in old(spots) && (order.side == BUY) == old(spots)[id].buy
    {
      hide Limit.Valid, OrderBook.LimitsValid, OrderBook.SlicesValid, OrderBook.LostValid, OrderBook.IndexBut, Without,
           Volume, FindLast, At, LevelsOf;
      ghost var k := Indexes(id);
      ghost var s, j := spots[id], View().Position(spots[id]);
      LevelsOfAt(Limits(s), j);
      order := orders[id];
      limit := order.limit;
      QueueFacts(limit);
      UnqueueInView(order, limit, k, s, j);
      Unindex(id);
      QueueFacts(limit);
    }

    /** Remove an order by id.  The index only names queued orders, so its level is never missing. */
    method Cancel(id: string) returns (ok: bool)
      requires Valid()
      modifies this, limits, members
      ensures Valid() && limits == old(limits) && members == old(members)
      ensures (ok <==> id in old(orders)) && (ok <==> Found(old(View()), id))
      ensures Cancelled(View(), ok) == BookSpec.Cancel(old(View()), id)
      ensures old(Ordered(View())) ==> Ordered(View())
      ensures old(Exact()) ==> Exact()
    {
      hide Limit.Valid, OrderBook.LimitsValid, OrderBook.IndexValid, OrderBook.SlicesValid, OrderBook.LostValid,
           OrderBook.View, Ordered, Tidy, DropLevel, Detached, Shortened, Volume;
      ghost var b := View();
      ViewIndex();
      if Ordered(b) {
        CancelOrdered(b, id);
      }
      if Exact() {
        CancelWellFormed(b, id);
      }
      ok := id in orders;
      if ok {
        var order, limit := Detach(id);
        if limit.totalVolume == 0 {
          RemoveLimitLevel(order.side == BUY, limit.price);
        }
      }
    }

    /** The first `depth` levels of each side with their cached volumes. */
    method GetDepth(depth: nat) returns (d: Depth)
      requires Valid()
      ensures d == DepthOf(View(), depth)
    {
      hide Limit.Linked;
      var bidsDepth: seq<PriceLevel> := [];
      var i := 0;
      while i < |bids| && i < depth
        invariant 0 <= i <= |bids| && i <= depth
        invariant bidsDepth == SideDepth(LevelsOf(bids), i)
      {
        bidsDepth := bidsDepth + [PriceLevel(bids[i].price, bids[i].totalVolume)];
        i := i + 1;
      }
      assert bidsDepth == SideDepth(LevelsOf(bids), depth);
      var asksDepth: seq<PriceLevel> := [];
      i := 0;
      while i < |asks| && i < depth
        invariant 0 <= i <= |asks| && i <= depth
        invariant asksDepth == SideDepth(LevelsOf(asks), i)
      {
        asksDepth := asksDepth + [PriceLevel(asks[i].price, asks[i].totalVolume)];
        i := i + 1;
      }
      assert asksDepth == SideDepth(LevelsOf(asks), depth);
      d := Depth(bidsDepth, asksDepth);
    }
  }
}
