/**
 What the trades of one call are worth: they fill the best-priced, oldest orders first, and no
 other way of filling the same quantity would have been better for the taker.
 */
module Execution {
  import opened BookSpec
  import opened Priority
  import opened Invariants

  function Sum(a: seq<nat>): nat {
    if a == [] then 0 else a[0] + Sum(a[1..])
  }

  /** An allocation gives each resting order at most its remaining quantity. */
  predicate Feasible(s: seq<Resting>, a: seq<nat>) {
    |a| == |s| && forall i | 0 <= i < |s| :: a[i] <= s[i].rem
  }

  /** Hand out `q` units strictly in priority order. */
  function InOrder(s: seq<Resting>, q: nat): seq<nat> {
    if s == [] then []
    else if q < s[0].rem then [q] + InOrder(s[1..], 0)
    else [s[0].rem] + InOrder(s[1..], q - s[0].rem)
  }

  lemma {:induction false} NothingToGive(s: seq<Resting>)
    ensures |InOrder(s, 0)| == |s| && forall i | 0 <= i < |s| :: InOrder(s, 0)[i] == 0
  {
    if s != [] {
      NothingToGive(s[1..]);
      assert forall i | 0 < i < |s| :: InOrder(s, 0)[i] == InOrder(s[1..], 0)[i-1];
    }
  }

  /** Nobody trades before everybody ahead has been filled completely. */
  lemma {:induction false} NobodyJumpsTheQueue(s: seq<Resting>, q: nat)
    ensures Feasible(s, InOrder(s, q))
    ensures forall i, j | 0 <= i < j < |s| && InOrder(s, q)[j] > 0 :: InOrder(s, q)[i] == s[i].rem
  {
    if s != [] {
      if q < s[0].rem {
        NothingToGive(s[1..]);
      } else {
        NobodyJumpsTheQueue(s[1..], q - s[0].rem);
      }
    }
  }

  /** The trades that carry out an allocation. */
  function TradesOf(s: seq<Resting>, a: seq<nat>, taker: string): seq<Trade>
    requires |a| == |s|
  {
    if s == [] then []
    else (if a[0] > 0 then [Trade(s[0].id, taker, s[0].price, a[0])] else []) + TradesOf(s[1..], a[1..], taker)
  }

  /** What an allocation leaves in the list. */
  function Reduce(s: seq<Resting>, a: seq<nat>): seq<Resting>
    requires Feasible(s, a)
  {
    if s == [] then []
    else (if a[0] < s[0].rem then [s[0].(rem := s[0].rem - a[0])] else []) + Reduce(s[1..], a[1..])
  }

  predicate Positive(s: seq<Resting>) {
    forall i | 0 <= i < |s| :: s[i].rem > 0
  }

  lemma {:induction false} NothingTaken(s: seq<Resting>, taker: string)
    requires Positive(s)
    ensures |InOrder(s, 0)| == |s| && Feasible(s, InOrder(s, 0)) && Sum(InOrder(s, 0)) == 0
    ensures TradesOf(s, InOrder(s, 0), taker) == [] && Reduce(s, InOrder(s, 0)) == s
  {
    if s != [] {
      NothingTaken(s[1..], taker);
      assert InOrder(s, 0)[1..] == InOrder(s[1..], 0);
    }
  }

  /** The greedy fill is the in-order allocation of what it filled. */
  lemma {:induction false} GreedyIsInOrder(s: seq<Resting>, t: Ticket, q: nat)
    requires Positive(s)
    ensures
      var g := Greedy(s, t, q);
      && g.left <= q && CarriesOut(s, InOrder(s, q - g.left), t.id, q - g.left, g)
  {
    hide CarriesOut;
    if s == [] || q == 0 || !Crosses(t, s[0].price) {
      NoneTaken(s, t.id, q);
    } else if q < s[0].rem {
      PartTaken(s, t.id, q);
    } else {
      GreedyIsInOrder(s[1..], t, q - s[0].rem);
      var q' := q - s[0].rem;
      var g' := Greedy(s[1..], t, q');
      FirstTaken(s, t.id, InOrder(s[1..], q' - g'.left), q' - g'.left, g');
    }
  }

  lemma NoneTaken(s: seq<Resting>, taker: string, q: nat)
    requires Positive(s)
    ensures CarriesOut(s, InOrder(s, 0), taker, 0, Taken(s, [], q))
  {
    NothingTaken(s, taker);
  }

  /** The pieces of an allocation, one order at a time. */
  lemma TakeFirst(r: Resting, s: seq<Resting>, m: nat, a: seq<nat>, taker: string)
    requires |a| == |s|
    ensures Sum([m] + a) == m + Sum(a)
    ensures TradesOf([r] + s, [m] + a, taker) ==
            (if m > 0 then [Trade(r.id, taker, r.price, m)] else []) + TradesOf(s, a, taker)
  {
    assert ([r] + s)[1..] == s && ([m] + a)[1..] == a;
  }

  lemma LeaveFirst(r: Resting, s: seq<Resting>, m: nat, a: seq<nat>)
    requires m <= r.rem && Feasible(s, a)
    ensures Feasible([r] + s, [m] + a)
    ensures Reduce([r] + s, [m] + a) == (if m < r.rem then [r.(rem := r.rem - m)] else []) + Reduce(s, a)
  {
    assert ([r] + s)[1..] == s && ([m] + a)[1..] == a;
  }

  lemma PartTaken(s: seq<Resting>, taker: string, q: nat)
    requires Positive(s) && s != [] && 0 < q < s[0].rem
    ensures CarriesOut(s, InOrder(s, q), taker, q,
                       Taken([s[0].(rem := s[0].rem - q)] + s[1..], [Trade(s[0].id, taker, s[0].price, q)], 0))
  {
    hide InOrder, TradesOf, Reduce, Sum, Feasible;
    var rest := InOrder(s[1..], 0);
    NothingTaken(s[1..], taker);
    InOrderHead(s, q);
    assert s == [s[0]] + s[1..];
    TakeFirst(s[0], s[1..], q, rest, taker);
    LeaveFirst(s[0], s[1..], q, rest);
    assert [Trade(s[0].id, taker, s[0].price, q)] + [] == [Trade(s[0].id, taker, s[0].price, q)];
  }

  lemma InOrderHead(s: seq<Resting>, q: nat)
    requires s != [] && q < s[0].rem
    ensures InOrder(s, q) == [q] + InOrder(s[1..], 0)
  {
  }

  /** Allocation `a` of `n` units and its trades are what the fill `g` did. */
  predicate CarriesOut(s: seq<Resting>, a: seq<nat>, taker: string, n: nat, g: Taken) {
    Feasible(s, a) && Sum(a) == n && g.trades == TradesOf(s, a, taker) && g.rest == Reduce(s, a)
  }

  lemma FirstTaken(s: seq<Resting>, taker: string, a: seq<nat>, n: nat, g: Taken)
    requires s != [] && s[0].rem > 0 && CarriesOut(s[1..], a, taker, n, g)
    ensures CarriesOut(s, [s[0].rem] + a, taker, s[0].rem + n,
                       Taken(g.rest, [Trade(s[0].id, taker, s[0].price, s[0].rem)] + g.trades, g.left))
  {
    hide TradesOf, Reduce, Sum;
    assert s == [s[0]] + s[1..];
    TakeFirst(s[0], s[1..], s[0].rem, a, taker);
    LeaveFirst(s[0], s[1..], s[0].rem, a);
    assert [] + g.rest == g.rest;
  }

  // ---- the price of an allocation ---------------------------------------------------------------

  /** What a unit costs the taker: the price to a buyer, minus the price to a seller. */
  function Weight(desc: bool, r: Resting): int {
    if desc then 0 - r.price else r.price
  }

  function Cost(s: seq<Resting>, a: seq<nat>, desc: bool): int
    requires |a| == |s|
  {
    if s == [] then 0 else a[0] * Weight(desc, s[0]) + Cost(s[1..], a[1..], desc)
  }

  predicate AtLeast(s: seq<Resting>, desc: bool, w: int) {
    forall i | 0 <= i < |s| :: w <= Weight(desc, s[i])
  }

  lemma Distribute(x: int, y: int, w: int)
    ensures (x + y) * w == x * w + y * w
  {
  }

  lemma Scale(x: nat, w: int, w': int)
    requires w <= w'
    ensures x * w <= x * w'
  {
  }

  lemma {:induction false} CostAtLeast(s: seq<Resting>, a: seq<nat>, desc: bool, w: int)
    requires |a| == |s| && AtLeast(s, desc, w)
    ensures Sum(a) * w <= Cost(s, a, desc)
  {
    if s != [] {
      CostAtLeast(s[1..], a[1..], desc, w);
      Distribute(a[0], Sum(a[1..]), w);
      Scale(a[0], w, Weight(desc, s[0]));
    }
  }

  lemma {:induction false} InOrderSum(s: seq<Resting>, q: nat)
    ensures |InOrder(s, q)| == |s| && Feasible(s, InOrder(s, q))
    ensures Sum(InOrder(s, q)) == if q <= Total(s, Everyone()) then q else Total(s, Everyone())
  {
    if s != [] {
      if q < s[0].rem {
        InOrderSum(s[1..], 0);
        assert InOrder(s, q)[1..] == InOrder(s[1..], 0);
      } else {
        InOrderSum(s[1..], q - s[0].rem);
        assert InOrder(s, q)[1..] == InOrder(s[1..], q - s[0].rem);
      }
    }
  }

  lemma CostStep(s: seq<Resting>, q: nat, desc: bool)
    requires s != []
    ensures |InOrder(s, q)| == |s| && |InOrder(s[1..], if q < s[0].rem then 0 else q - s[0].rem)| == |s| - 1
    ensures Cost(s, InOrder(s, q), desc) ==
            (if q < s[0].rem then q else s[0].rem) * Weight(desc, s[0])
            + Cost(s[1..], InOrder(s[1..], if q < s[0].rem then 0 else q - s[0].rem), desc)
  {
    InOrderSum(s, q);
    InOrderSum(s[1..], if q < s[0].rem then 0 else q - s[0].rem);
    assert InOrder(s, q)[1..] == InOrder(s[1..], if q < s[0].rem then 0 else q - s[0].rem);
  }

  /** Each further unit costs at least the cheapest weight still around. */
  lemma {:induction false} FurtherUnits(s: seq<Resting>, x: nat, d: nat, desc: bool, w: int)
    requires AtLeast(s, desc, w) && x + d <= Total(s, Everyone())
    ensures |InOrder(s, x)| == |s| && |InOrder(s, x + d)| == |s|
    ensures Cost(s, InOrder(s, x), desc) + d * w <= Cost(s, InOrder(s, x + d), desc)
  {
    hide Cost, InOrder, Feasible, Sum;
    InOrderSum(s, x);
    InOrderSum(s, x + d);
    if s == [] {
      NoUnits(desc, x, d);
    } else {
      var r, p := s[0].rem, Weight(desc, s[0]);
      CostStep(s, x, desc);
      CostStep(s, x + d, desc);
      if r <= x {
        FurtherUnits(s[1..], x - r, d, desc, w);
      } else if x + d < r {
        Distribute(x, d, p);
        Scale(d, w, p);
      } else {
        FurtherUnits(s[1..], 0, x + d - r, desc, w);
        Distribute(x, r - x, p);
        Scale(r - x, w, p);
        Distribute(r - x, x + d - r, w);
      }
    }
  }

  lemma NoUnits(desc: bool, x: nat, d: nat)
    ensures Total([], Everyone()) == 0 && InOrder([], x) == InOrder([], x + d) == [] && Cost([], [], desc) == 0
  {
  }

  /** Exchange argument: moving units to the front of a price-sorted list never costs more. */
  lemma {:induction false} InOrderIsCheapest(s: seq<Resting>, a: seq<nat>, desc: bool)
    requires SortedFlat(s, desc) && Feasible(s, a)
    ensures |InOrder(s, Sum(a))| == |s| && Sum(a) <= Total(s, Everyone())
    ensures Cost(s, InOrder(s, Sum(a)), desc) <= Cost(s, a, desc)
  {
    InOrderSum(s, Sum(a));
    if s != [] {
      var tail, n, w := s[1..], Sum(a), Weight(desc, s[0]);
      InOrderIsCheapest(tail, a[1..], desc);
      CostStep(s, n, desc);
      var first := if n < s[0].rem then n else s[0].rem;
      FurtherUnits(tail, n - first, first - a[0], desc, w);
      Distribute(a[0], first - a[0], w);
    }
  }

  // ---- the trades of one call -----------------------------------------------------------------------

  function Traded(trades: seq<Trade>): nat {
    if trades == [] then 0 else trades[0].qty + Traded(trades[1..])
  }

  function Notional(trades: seq<Trade>): int {
    if trades == [] then 0 else trades[0].qty * trades[0].price + Notional(trades[1..])
  }

  lemma {:induction false} TradesTotal(s: seq<Resting>, a: seq<nat>, taker: string)
    requires |a| == |s|
    ensures Traded(TradesOf(s, a, taker)) == Sum(a)
    ensures Notional(TradesOf(s, a, taker)) == Cost(s, a, false) == 0 - Cost(s, a, true)
  {
    if s != [] {
      TradesTotal(s[1..], a[1..], taker);
      var rest := TradesOf(s[1..], a[1..], taker);
      Negate(a[0], s[0].price);
      if a[0] > 0 {
        assert TradesOf(s, a, taker)[1..] == rest;
      } else {
        assert TradesOf(s, a, taker) == rest;
      }
    }
  }

  lemma Negate(x: int, p: int)
    ensures x * (0 - p) == 0 - x * p
  {
  }

  lemma {:induction false} FlatPositive(levels: seq<Level>)
    requires Stocked(levels)
    ensures Positive(Flat(levels))
  {
    if levels != [] {
      FlatPositive(levels[1..]);
    }
  }

  /** The trades of a call carry out the in-order allocation of the opposite side. */
  lemma ProcessInOrder(b: Book, t: Ticket)
    requires Solid(b)
    ensures
      var s, trades := Flat(b.Side(t.side != BUY)), Process(b, t).trades;
      var n := Traded(trades);
      && Feasible(s, InOrder(s, n)) && trades == TradesOf(s, InOrder(s, n), t.id)
      && (forall i, j | 0 <= i < j < |s| && InOrder(s, n)[j] > 0 :: InOrder(s, n)[i] == s[i].rem)
      && n == if t.qty <= Total(s, Crossing(t)) then t.qty else Total(s, Crossing(t))
  {
    hide Process, Flat, Greedy, TradesOf, InOrder, Total, Stocked;
    var levels := b.Side(t.side != BUY);
    var s := Flat(levels);
    ProcessIsGreedy(b, t);
    FlatPositive(levels);
    GreedyIsInOrder(s, t, t.qty);
    TradesTotal(s, InOrder(s, t.qty - Greedy(s, t, t.qty).left), t.id);
    NobodyJumpsTheQueue(s, Traded(Process(b, t).trades));
    FlatSorted(levels, t.side != BUY);
    GreedyFill(s, t, t.qty);
  }

  /**
   Best execution: whatever other way the same quantity is taken from the resting opposite
   orders, a buyer pays no less and a seller receives no more than with the engine's trades.
   */
  lemma BestExecution(b: Book, t: Ticket, a: seq<nat>)
    requires Solid(b)
    requires Feasible(Flat(b.Side(t.side != BUY)), a) && Sum(a) == Traded(Process(b, t).trades)
    ensures
      var other := Cost(Flat(b.Side(t.side != BUY)), a, false);
      if t.side == BUY then Notional(Process(b, t).trades) <= other else other <= Notional(Process(b, t).trades)
  {
    hide Process, Flat, InOrder, TradesOf, Cost, Sum, Stocked;
    var levels := b.Side(t.side != BUY);
    var s := Flat(levels);
    ProcessInOrder(b, t);
    FlatSorted(levels, t.side != BUY);
    InOrderIsCheapest(s, a, t.side != BUY);
    TradesTotal(s, InOrder(s, Sum(a)), t.id);
    TradesTotal(s, a, t.id);
  }

  predicate NoneBetter(trades: seq<Trade>, desc: bool, p: u64) {
    forall k | 0 <= k < |trades| :: !Better(desc, trades[k].price, p)
  }

  /** Prices only move away from the taker. */
  predicate Worsening(trades: seq<Trade>, desc: bool) {
    forall k, l | 0 <= k < l < |trades| :: !Better(desc, trades[l].price, trades[k].price)
  }

  predicate WithinLimit(trades: seq<Trade>, t: Ticket) {
    forall k | 0 <= k < |trades| :: trades[k].taker == t.id && Crosses(t, trades[k].price)
  }

  lemma {:induction false} GreedyBound(s: seq<Resting>, t: Ticket, q: nat, desc: bool, p: u64)
    requires forall i | 0 <= i < |s| :: !Better(desc, s[i].price, p)
    ensures NoneBetter(Greedy(s, t, q).trades, desc, p)
  {
    if s != [] && q > 0 && Crosses(t, s[0].price) && s[0].rem <= q {
      GreedyBound(s[1..], t, q - s[0].rem, desc, p);
    }
  }

  lemma {:induction false} GreedyPrices(s: seq<Resting>, t: Ticket, q: nat)
    requires SortedFlat(s, t.side != BUY)
    ensures WithinLimit(Greedy(s, t, q).trades, t) && Worsening(Greedy(s, t, q).trades, t.side != BUY)
  {
    if s != [] && q > 0 && Crosses(t, s[0].price) && s[0].rem <= q {
      GreedyPrices(s[1..], t, q - s[0].rem);
      GreedyBound(s[1..], t, q - s[0].rem, t.side != BUY, s[0].price);
    }
  }

  /** Within a call prices only get worse for the taker, and none crosses the taker's limit. */
  lemma TradePrices(b: Book, t: Ticket)
    requires Solid(b)
    ensures
      WithinLimit(Process(b, t).trades, t) && Worsening(Process(b, t).trades, t.side != BUY)
  {
    hide Process, Flat, Greedy, Stocked;
    ProcessIsGreedy(b, t);
    FlatSorted(b.Side(t.side != BUY), t.side != BUY);
    GreedyPrices(Flat(b.Side(t.side != BUY)), t, t.qty);
  }

  // ---- orders with an unknown side ----------------------------------------------------------------

  function AtOrAbove(p: u64): Resting -> bool {
    (r: Resting) => p <= r.price
  }

  /** No trade is worse than the price the order names; anything but a buy is a sell. */
  predicate Respects(trades: seq<Trade>, buy: bool, p: u64) {
    forall k | 0 <= k < |trades| :: if buy then trades[k].price <= p else p <= trades[k].price
  }

  lemma {:induction false} TotalMonotone(s: seq<Resting>, f: Resting -> bool)
    ensures Total(s, f) <= Total(s, Everyone())
  {
    if s != [] {
      TotalMonotone(s[1..], f);
    }
  }

  lemma {:induction false} UnheldSell(s: seq<Resting>, t: Ticket, q: nat, p: u64)
    requires SortedFlat(s, true) && Positive(s) && t.side != BUY && t.side != SELL
    ensures
      Respects(Greedy(s, t, q).trades, false, p) <==>
      q <= Total(s, AtOrAbove(p)) || Total(s, AtOrAbove(p)) == Total(s, Everyone())
  {
    if s != [] && q > 0 {
      var g := Greedy(s, t, q);
      TotalMonotone(s[1..], AtOrAbove(p));
      assert g.trades[0].price == s[0].price;
      if s[0].price < p {
        TotalNone(s, AtOrAbove(p));
      } else if s[0].rem <= q {
        UnheldSell(s[1..], t, q - s[0].rem, p);
        assert g.trades[1..] == Greedy(s[1..], t, q - s[0].rem).trades;
        RespectsTail(g.trades, p);
      }
    }
  }

  lemma RespectsTail(trades: seq<Trade>, p: u64)
    requires trades != [] && p <= trades[0].price
    ensures Respects(trades, false, p) <==> Respects(trades[1..], false, p)
  {
    if Respects(trades[1..], false, p) {
      assert forall k | 0 < k < |trades| :: trades[k] == trades[1..][k-1];
    }
  }

  /**
   A limit order trades within its price if and only if its side is a known one, or the bids at
   or above its price can absorb it, or there are no bids below its price.
   */
  lemma LimitRespected(b: Book, t: Ticket)
    requires Solid(b) && t.kind == LIMIT
    ensures
      var good := Total(Flat(b.bids), AtOrAbove(t.price));
      Respects(Process(b, t).trades, t.side == BUY, t.price) <==>
      t.side == BUY || t.side == SELL || t.qty <= good || good == Total(Flat(b.bids), Everyone())
  {
    hide Process, Flat, Greedy, Stocked, Total;
    ProcessIsGreedy(b, t);
    FlatSorted(b.Side(t.side != BUY), t.side != BUY);
    FlatPositive(b.bids);
    if t.side == BUY || t.side == SELL {
      TradePrices(b, t);
    } else {
      UnheldSell(Flat(b.bids), t, t.qty, t.price);
    }
  }

  // ---- the taker's own count --------------------------------------------------------------------------

  lemma {:induction false} TradedAppend(a: seq<Trade>, b: seq<Trade>)
    ensures Traded(a + b) == Traded(a) + Traded(b)
  {
    if a == [] {
      assert a + b == b;
    } else {
      assert (a + b)[1..] == a[1..] + b;
      TradedAppend(a[1..], b);
    }
  }

  lemma {:induction false} FillTraded(queue: seq<Entry>, q: nat, taker: string, price: u64)
    ensures var f := FillQueue(queue, q, taker, price); Traded(f.trades) + f.left == q
  {
    if queue != [] && q > 0 {
      var f := FillQueue(queue, q, taker, price);
      if queue[0].rem <= q {
        FillTraded(queue[1..], q - queue[0].rem, taker, price);
        assert f.trades[1..] == FillQueue(queue[1..], q - queue[0].rem, taker, price).trades;
      } else {
        assert f.trades[1..] == [];
      }
    }
  }

  /** Trades and remainder always add up to the order, even where a level is lost to overflow. */
  lemma {:induction false} SweepTraded(levels: seq<Level>, t: Ticket, q: nat)
    ensures var s := Sweep(levels, t, q); Traded(s.trades) + s.left == q
  {
    hide FillQueue, Volume;
    if levels != [] && q > 0 && Crosses(t, levels[0].price) {
      var f := FillQueue(levels[0].queue, q, t.id, levels[0].price);
      FillTraded(levels[0].queue, q, t.id, levels[0].price);
      if Volume(f.queue) % TWO64 == 0 {
        SweepTraded(levels[1..], t, f.left);
        TradedAppend(f.trades, Sweep(levels[1..], t, f.left).trades);
      }
    }
  }
}
