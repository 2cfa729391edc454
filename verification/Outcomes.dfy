/**
 What one call does in every reachable book, told from the book before it alone: how much trades,
 with whom and at which price, and what is left on each side.
 */
module Outcomes {
  import opened BookSpec
  import opened Priority
  import opened Invariants
  import opened Execution

  function AtMost(p: u64): Resting -> bool {
    (r: Resting) => r.price <= p
  }

  function Smaller(a: nat, b: nat): nat {
    if a < b then a else b
  }

  lemma {:induction false} TotalSame(s: seq<Resting>, f: Resting -> bool, g: Resting -> bool)
    requires forall i | 0 <= i < |s| :: f(s[i]) == g(s[i])
    ensures Total(s, f) == Total(s, g)
  {
    if s != [] {
      TotalSame(s[1..], f, g);
    }
  }

  /**
   How much an order trades: a limit buy what is asked at its price or less, a limit sell what is bid at
   its price or more, and every other order, whatever its price field, all there is on the other side;
   each up to its own quantity.
   */
  lemma FillSize(b: Book, t: Ticket)
    requires Solid(b)
    ensures
      var n, bids, asks := Traded(Process(b, t).trades), Flat(b.bids), Flat(b.asks);
      && (t.kind != LIMIT && t.side == BUY ==> n == Smaller(t.qty, Total(asks, Everyone())))
      && (t.kind != LIMIT && t.side != BUY ==> n == Smaller(t.qty, Total(bids, Everyone())))
      && (t.kind == LIMIT && t.side == BUY ==> n == Smaller(t.qty, Total(asks, AtMost(t.price))))
      && (t.kind == LIMIT && t.side == SELL ==> n == Smaller(t.qty, Total(bids, AtOrAbove(t.price))))
      && (t.kind == LIMIT && t.side != BUY && t.side != SELL ==> n == Smaller(t.qty, Total(bids, Everyone())))
  {
    hide Process, Flat, Total, InOrder, TradesOf, Traded, Solid;
    ProcessInOrder(b, t);
    var opp := Flat(b.Side(t.side != BUY));
    if t.kind == LIMIT && t.side == BUY {
      TotalSame(opp, Crossing(t), AtMost(t.price));
    } else if t.kind == LIMIT && t.side == SELL {
      TotalSame(opp, Crossing(t), AtOrAbove(t.price));
    } else {
      TotalSame(opp, Crossing(t), Everyone());
    }
  }

  // ---- per order --------------------------------------------------------------------------------------

  /** The orders of one id at one price. */
  function Of(id: string, price: u64): Resting -> bool {
    (r: Resting) => r.id == id && r.price == price
  }

  /** What a list of trades takes from the makers of one id at one price. */
  function TradedWith(trades: seq<Trade>, id: string, price: u64): nat {
    if trades == [] then 0
    else (if trades[0].maker == id && trades[0].price == price then trades[0].qty else 0)
         + TradedWith(trades[1..], id, price)
  }

  lemma {:induction false} GreedyAccounts(s: seq<Resting>, t: Ticket, q: nat, id: string, price: u64)
    ensures
      var g := Greedy(s, t, q);
      TradedWith(g.trades, id, price) + Total(g.rest, Of(id, price)) == Total(s, Of(id, price))
  {
    if s != [] && q > 0 && Crosses(t, s[0].price) {
      var g := Greedy(s, t, q);
      if s[0].rem <= q {
        GreedyAccounts(s[1..], t, q - s[0].rem, id, price);
        assert g.trades[1..] == Greedy(s[1..], t, q - s[0].rem).trades;
      } else {
        assert g.trades[1..] == [] && g.rest[1..] == s[1..];
      }
    }
  }

  lemma PlaceAccounts(s: seq<Resting>, desc: bool, r: Resting, f: Resting -> bool)
    ensures Total(Place(s, desc, r), f) == Total(s, f) + if f(r) then r.rem else 0
  {
    var k := PlaceSplits(s, desc, r);
    TotalAppend(s[..k] + [r], s[k..], f);
    TotalAppend(s[..k], [r], f);
    TotalAppend(s[..k], s[k..], f);
    assert s == s[..k] + s[k..];
  }

  /**
   Every order is accounted for by id and price: on the other side it drops by exactly what the trades
   say was taken from it, and on the own side nothing changes but the remainder of a limit order,
   which rests under its id at its price.  A lost level counts as left over.
   */
  lemma ProcessAccounts(b: Book, t: Ticket, id: string, price: u64)
    requires Solid(b)
    ensures
      var buy, p := t.side == BUY, Process(b, t);
      var left := Flat(p.book.lost[|b.lost|..] + p.book.Side(!buy));
      && |b.lost| <= |p.book.lost| && Traded(p.trades) <= t.qty
      && TradedWith(p.trades, id, price) + Total(left, Of(id, price)) == Total(Flat(b.Side(!buy)), Of(id, price))
      && Total(Flat(p.book.Side(buy)), Of(id, price)) ==
         Total(Flat(b.Side(buy)), Of(id, price))
         + if t.kind == LIMIT && t.id == id && t.price == price then t.qty - Traded(p.trades) else 0
  {
    hide Process, Flat, Total, Greedy, Place, Traded, TradedWith, Stocked, Ordered;
    var buy := t.side == BUY;
    var own, opp := Flat(b.Side(buy)), Flat(b.Side(!buy));
    var g := Greedy(opp, t, t.qty);
    ProcessIsGreedy(b, t);
    GreedyAccounts(opp, t, t.qty, id, price);
    GreedyTraded(opp, t, t.qty);
    PlaceAccounts(own, buy, Resting(t.id, t.price, g.left), Of(id, price));
  }

  lemma {:induction false} GreedyTraded(s: seq<Resting>, t: Ticket, q: nat)
    ensures var g := Greedy(s, t, q); Traded(g.trades) + g.left == q
  {
    if s != [] && q > 0 && Crosses(t, s[0].price) {
      var g := Greedy(s, t, q);
      if s[0].rem <= q {
        GreedyTraded(s[1..], t, q - s[0].rem);
        assert g.trades[1..] == Greedy(s[1..], t, q - s[0].rem).trades;
      } else {
        assert g.trades[1..] == [];
      }
    }
  }
}
