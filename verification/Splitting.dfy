/** Splitting a market order into two consecutive ones changes nothing but the number of trades. */
module Splitting {
  import opened Options
  import opened BookSpec
  import opened BookLemmas
  import opened MatchSteps
  import opened Priority
  import opened Invariants
  import opened Conservation

  /** A trade without its taker. */
  datatype Leg = Leg(maker: string, price: u64, qty: nat)

  function Legs(trades: seq<Trade>): seq<Leg> {
    if trades == [] then []
    else [Leg(trades[0].maker, trades[0].price, trades[0].qty)] + Legs(trades[1..])
  }

  /** Put a leg in front, joining it with the next one if that has the same maker and price. */
  function Push(x: Leg, m: seq<Leg>): seq<Leg> {
    if m != [] && m[0].maker == x.maker && m[0].price == x.price
    then [Leg(x.maker, x.price, x.qty + m[0].qty)] + m[1..]
    else [x] + m
  }

  /** Join all adjacent legs with one maker and price. */
  function Merge(l: seq<Leg>): seq<Leg> {
    if l == [] then [] else Push(l[0], Merge(l[1..]))
  }

  function MakerTotal(l: seq<Leg>, id: string): nat {
    if l == [] then 0 else (if l[0].maker == id then l[0].qty else 0) + MakerTotal(l[1..], id)
  }

  lemma {:induction false} MergeKeepsTotals(l: seq<Leg>, id: string)
    ensures MakerTotal(Merge(l), id) == MakerTotal(l, id)
  {
    if l != [] {
      MergeKeepsTotals(l[1..], id);
      var m := Merge(l[1..]);
      assert Push(l[0], m)[1..] == if m != [] && m[0].maker == l[0].maker && m[0].price == l[0].price then m[1..] else m;
    }
  }

  function PriceTotal(l: seq<Leg>, p: u64): nat {
    if l == [] then 0 else (if l[0].price == p then l[0].qty else 0) + PriceTotal(l[1..], p)
  }

  lemma {:induction false} MergeKeepsPrices(l: seq<Leg>, p: u64)
    ensures PriceTotal(Merge(l), p) == PriceTotal(l, p)
  {
    if l != [] {
      MergeKeepsPrices(l[1..], p);
      var m := Merge(l[1..]);
      assert Push(l[0], m)[1..] == if m != [] && m[0].maker == l[0].maker && m[0].price == l[0].price then m[1..] else m;
    }
  }

  lemma {:induction false} PriceTotalAppend(a: seq<Leg>, b: seq<Leg>, p: u64)
    ensures PriceTotal(a + b, p) == PriceTotal(a, p) + PriceTotal(b, p)
  {
    if a == [] {
      assert a + b == b;
    } else {
      assert (a + b)[1..] == a[1..] + b;
      PriceTotalAppend(a[1..], b, p);
    }
  }

  lemma JoinSplit(maker: string, price: u64, q1: nat, q2: nat, l: seq<Leg>)
    ensures Merge([Leg(maker, price, q1), Leg(maker, price, q2)] + l) == Merge([Leg(maker, price, q1 + q2)] + l)
  {
    var x, y := Leg(maker, price, q1), Leg(maker, price, q2);
    assert ([x, y] + l)[1..] == [y] + l && ([y] + l)[1..] == l;
    assert ([Leg(maker, price, q1 + q2)] + l)[1..] == l;
  }

  lemma SamePrefix(x: Leg, l: seq<Leg>, l': seq<Leg>)
    requires Merge(l) == Merge(l')
    ensures Merge([x] + l) == Merge([x] + l')
  {
    assert ([x] + l)[1..] == l && ([x] + l')[1..] == l';
  }

  predicate SameTerms(t: Ticket, t': Ticket) {
    t.side == t'.side && t.kind == t'.kind && t.price == t'.price
  }

  lemma {:induction false} TakerIsIrrelevant(s: seq<Resting>, t: Ticket, t': Ticket, q: nat)
    requires SameTerms(t, t')
    ensures
      var g, g' := Greedy(s, t, q), Greedy(s, t', q);
      g.rest == g'.rest && g.left == g'.left && Legs(g.trades) == Legs(g'.trades)
  {
    if s != [] && q > 0 && Crosses(t, s[0].price) && s[0].rem <= q {
      TakerIsIrrelevant(s[1..], t, t', q - s[0].rem);
      LegsStep(s, t, q);
      LegsStep(s, t', q);
    }
  }

  lemma LegsStep(s: seq<Resting>, t: Ticket, q: nat)
    requires s != [] && q > 0 && Crosses(t, s[0].price) && s[0].rem <= q
    ensures
      var g, r := Greedy(s, t, q), Greedy(s[1..], t, q - s[0].rem);
      && g.rest == r.rest && g.left == r.left
      && Legs(g.trades) == [Leg(s[0].id, s[0].price, s[0].rem)] + Legs(r.trades)
  {
    assert Greedy(s, t, q).trades[1..] == Greedy(s[1..], t, q - s[0].rem).trades;
  }

  lemma LegsLast(s: seq<Resting>, t: Ticket, q: nat)
    requires s != [] && 0 < q < s[0].rem && Crosses(t, s[0].price)
    ensures
      var g := Greedy(s, t, q);
      && g.rest == [s[0].(rem := s[0].rem - q)] + s[1..] && g.left == 0
      && Legs(g.trades) == [Leg(s[0].id, s[0].price, q)]
  {
    assert Greedy(s, t, q).trades[1..] == [];
  }

  lemma LegsNone(s: seq<Resting>, t: Ticket, q: nat)
    requires s == [] || q == 0 || !Crosses(t, s[0].price)
    ensures Greedy(s, t, q) == Taken(s, [], q) && Legs([]) == []
  {
  }

  /** Two fills in a row against one bigger fill. */
  predicate SameOutcome(g1: Taken, g2: Taken, g: Taken) {
    && g2.rest == g.rest && g1.left + g2.left == g.left
    && Merge(Legs(g1.trades) + Legs(g2.trades)) == Merge(Legs(g.trades))
  }

  /** Filling `q1` and then `q2` is filling `q1 + q2`. */
  lemma {:induction false} GreedySplit(s: seq<Resting>, t1: Ticket, t2: Ticket, t: Ticket, q1: nat, q2: nat)
    requires SameTerms(t1, t) && SameTerms(t2, t)
    ensures SameOutcome(Greedy(s, t1, q1), Greedy(Greedy(s, t1, q1).rest, t2, q2), Greedy(s, t, q1 + q2))
  {
    hide Greedy, Legs, Merge;
    var g1 := Greedy(s, t1, q1);
    if q1 == 0 {
      LegsNone(s, t1, 0);
      TakerIsIrrelevant(s, t2, t, q2);
      assert [] + Legs(Greedy(s, t2, q2).trades) == Legs(Greedy(s, t2, q2).trades);
    } else if s == [] || !Crosses(t, s[0].price) {
      LegsNone(s, t1, q1);
      LegsNone(s, t2, q2);
      LegsNone(s, t, q1 + q2);
      assert Legs([]) + Legs([]) == Legs([]);
    } else if q1 < s[0].rem {
      SplitInside(s, t1, t2, t, q1, q2);
    } else {
      GreedySplit(s[1..], t1, t2, t, q1 - s[0].rem, q2);
      LegsStep(s, t1, q1);
      LegsStep(s, t, q1 + q2);
      var x := Leg(s[0].id, s[0].price, s[0].rem);
      var l1, l2 := Legs(Greedy(s[1..], t1, q1 - s[0].rem).trades), Legs(Greedy(g1.rest, t2, q2).trades);
      assert [x] + l1 + l2 == [x] + (l1 + l2);
      SamePrefix(x, l1 + l2, Legs(Greedy(s[1..], t, q1 - s[0].rem + q2).trades));
    }
  }

  /** The cut falls inside the first resting order. */
  lemma SplitInside(s: seq<Resting>, t1: Ticket, t2: Ticket, t: Ticket, q1: nat, q2: nat)
    requires SameTerms(t1, t) && SameTerms(t2, t)
    requires s != [] && Crosses(t, s[0].price) && 0 < q1 < s[0].rem
    ensures SameOutcome(Greedy(s, t1, q1), Greedy(Greedy(s, t1, q1).rest, t2, q2), Greedy(s, t, q1 + q2))
  {
    hide Greedy, Legs, Merge;
    var rest := Greedy(s, t1, q1).rest;
    var x := Leg(s[0].id, s[0].price, q1);
    LegsLast(s, t1, q1);
    assert rest[1..] == s[1..];
    if q2 == 0 {
      LegsNone(rest, t2, 0);
      LegsLast(s, t, q1);
      assert [x] + Legs([]) == [x];
    } else if q1 + q2 < s[0].rem {
      LegsLast(rest, t2, q2);
      LegsLast(s, t, q1 + q2);
      JoinSplit(s[0].id, s[0].price, q1, q2, []);
      assert [x, Leg(s[0].id, s[0].price, q2)] + [] == [x] + [Leg(s[0].id, s[0].price, q2)];
      assert [Leg(s[0].id, s[0].price, q1 + q2)] + [] == [Leg(s[0].id, s[0].price, q1 + q2)];
    } else {
      LegsStep(rest, t2, q2);
      LegsStep(s, t, q1 + q2);
      TakerIsIrrelevant(s[1..], t2, t, q1 + q2 - s[0].rem);
      var l := Legs(Greedy(s[1..], t, q1 + q2 - s[0].rem).trades);
      JoinSplit(s[0].id, s[0].price, q1, s[0].rem - q1, l);
      assert [x] + ([Leg(s[0].id, s[0].price, s[0].rem - q1)] + l)
          == [x, Leg(s[0].id, s[0].price, s[0].rem - q1)] + l;
    }
  }

  // ---- back to levels -------------------------------------------------------------------------------

  /** How many orders at the front rest at price `p`. */
  function FrontRun(s: seq<Resting>, p: u64): nat {
    if s == [] || s[0].price != p then 0 else 1 + FrontRun(s[1..], p)
  }

  lemma {:induction false} RunOfLevel(p: u64, queue: seq<Entry>, rest: seq<Resting>)
    requires rest == [] || rest[0].price != p
    ensures FrontRun(Tag(p, queue) + rest, p) == |queue|
  {
    var s := Tag(p, queue) + rest;
    if queue == [] {
      assert s == rest;
    } else {
      assert s[1..] == Tag(p, queue[1..]) + rest;
      RunOfLevel(p, queue[1..], rest);
    }
  }

  lemma FirstRun(levels: seq<Level>, desc: bool)
    requires levels != [] && Sorted(levels, desc) && Sound(levels)
    ensures Flat(levels) != [] && Flat(levels)[0].price == levels[0].price
    ensures FrontRun(Flat(levels), levels[0].price) == |levels[0].queue|
  {
    var rest := Flat(levels[1..]);
    if |levels| > 1 {
      assert rest[0].price == levels[1].price;
    }
    RunOfLevel(levels[0].price, levels[0].queue, rest);
  }

  /** The flat list determines the levels. */
  lemma {:induction false} FlatInjective(l: seq<Level>, l': seq<Level>, desc: bool)
    requires Sorted(l, desc) && Sorted(l', desc) && Sound(l) && Sound(l') && Flat(l) == Flat(l')
    ensures l == l'
  {
    if l != [] { FirstRun(l, desc); }
    if l' != [] { FirstRun(l', desc); }
    if l != [] && l' != [] {
      var n, p := |l[0].queue|, l[0].price;
      assert Flat(l)[n..] == Flat(l[1..]) && Flat(l')[n..] == Flat(l'[1..]);
      FlatInjective(l[1..], l'[1..], desc);
      assert Tag(p, l[0].queue) == Flat(l)[..n] == Tag(p, l'[0].queue);
      forall i | 0 <= i < n ensures l[0].queue[i] == l'[0].queue[i] {
        assert Tag(p, l[0].queue)[i] == Tag(p, l'[0].queue)[i];
      }
      assert l[0].queue == l'[0].queue && l == [l[0]] + l[1..] && l' == [l'[0]] + l'[1..];
    }
  }

  /** Filling a queue twice is filling it once with both quantities; the taker does not matter. */
  lemma {:induction false} FillInTwo(queue: seq<Entry>, q1: nat, q2: nat, id1: string, id2: string, id: string, price: u64)
    ensures
      var f1, f := FillQueue(queue, q1, id1, price), FillQueue(queue, q1 + q2, id, price);
      var f2 := FillQueue(f1.queue, f1.left + q2, id2, price);
      f2.queue == f.queue && f2.left == f.left && f1.gone + f2.gone == f.gone
  {
    hide FillQueue;
    if queue == [] || q1 == 0 {
      FillStops(queue, q1, id1, price);
      SameFill(queue, q1 + q2, id2, id, price);
    } else if queue[0].rem <= q1 {
      FillOne(queue, q1, id1, price);
      FillOne(queue, q1 + q2, id, price);
      FillInTwo(queue[1..], q1 - queue[0].rem, q2, id1, id2, id, price);
    } else {
      InFirst(queue, q1, q2, id1, id2, id, price);
    }
  }

  /** The first fill ends inside the first order. */
  lemma InFirst(queue: seq<Entry>, q1: nat, q2: nat, id1: string, id2: string, id: string, price: u64)
    requires queue != [] && 0 < q1 < queue[0].rem
    ensures
      var f1, f := FillQueue(queue, q1, id1, price), FillQueue(queue, q1 + q2, id, price);
      var f2 := FillQueue(f1.queue, f1.left + q2, id2, price);
      f2.queue == f.queue && f2.left == f.left && f1.gone + f2.gone == f.gone
  {
    var f1 := FillQueue(queue, q1, id1, price);
    assert f1.queue[1..] == queue[1..];
    if q1 + q2 >= queue[0].rem {
      SameFill(queue[1..], q1 + q2 - queue[0].rem, id2, id, price);
    }
  }

  lemma {:induction false} SameFill(queue: seq<Entry>, q: nat, id: string, id': string, price: u64)
    ensures
      var f, f' := FillQueue(queue, q, id, price), FillQueue(queue, q, id', price);
      f.queue == f'.queue && f.left == f'.left && f.gone == f'.gone
  {
    if queue != [] && queue[0].rem <= q {
      SameFill(queue[1..], q - queue[0].rem, id, id', price);
    }
  }

  /** The same levels, index and loss; `gone` went before. */
  predicate SameSweep(gone: set<string>, s: Swept, s': Swept) {
    s.levels == s'.levels && gone + s.gone == s'.gone && s.lost == s'.lost
  }

  lemma {:induction false} SweepTaker(levels: seq<Level>, t: Ticket, t': Ticket, q: nat)
    requires SameTerms(t, t')
    ensures SameSweep({}, Sweep(levels, t, q), Sweep(levels, t', q))
  {
    hide FillQueue, Volume;
    if levels != [] && q > 0 && Crosses(t, levels[0].price) {
      SameFill(levels[0].queue, q, t.id, t'.id, levels[0].price);
      SweepTaker(levels[1..], t, t', FillQueue(levels[0].queue, q, t.id, levels[0].price).left);
    }
  }

  /** Sweeping twice is sweeping once, unless the first sweep loses a level. */
  lemma {:induction false} SweepInTwo(levels: seq<Level>, t1: Ticket, t2: Ticket, t: Ticket, q1: nat, q2: nat)
    requires SameTerms(t1, t) && SameTerms(t2, t) && Sweep(levels, t1, q1).lost == None
    ensures var s1 := Sweep(levels, t1, q1); SameSweep(s1.gone, Sweep(s1.levels, t2, q2), Sweep(levels, t, q1 + q2))
  {
    hide FillQueue, Volume, Sweep;
    if levels == [] || !Crosses(t, levels[0].price) {
      SweepStops(levels, t1, q1);
      SweepStops(levels, t2, q2);
      SweepStops(levels, t, q1 + q2);
    } else if q1 == 0 || q2 == 0 {
      SweepNothing(levels, t1, t2, t, q1, q2);
    } else {
      var price, queue, rest := levels[0].price, levels[0].queue, levels[1..];
      var f1, f := FillQueue(queue, q1, t1.id, price), FillQueue(queue, q1 + q2, t.id, price);
      FillInTwo(queue, q1, q2, t1.id, t2.id, t.id, price);
      EmptyVolume();
      SweepStep(levels, t1, q1);
      SweepStep(levels, t, q1 + q2);
      if f1.queue == [] {
        FillStops([], f1.left + q2, t2.id, price);
        SweepInTwo(rest, t1, t2, t, f1.left, q2);
      } else {
        CutInside(levels, Level(price, f1.queue), t1, t2, t, q1, q2);
      }
    }
  }

  lemma SweepNothing(levels: seq<Level>, t1: Ticket, t2: Ticket, t: Ticket, q1: nat, q2: nat)
    requires SameTerms(t1, t) && SameTerms(t2, t) && (q1 == 0 || q2 == 0)
    ensures var s1 := Sweep(levels, t1, q1);
            s1.lost == None || q1 == 0 ==> SameSweep(s1.gone, Sweep(s1.levels, t2, q2), Sweep(levels, t, q1 + q2))
    ensures q2 == 0 ==> SameSweep({}, Sweep(levels, t1, q1), Sweep(levels, t, q1 + q2))
  {
    hide Sweep;
    if q1 == 0 {
      SweepStops(levels, t1, 0);
      SweepTaker(levels, t2, t, q2);
    }
    if q2 == 0 {
      SweepStops(Sweep(levels, t1, q1).levels, t2, 0);
      SweepTaker(levels, t1, t, q1);
    }
  }

  /** The first sweep ends inside the first level, of which `l` is left. */
  lemma CutInside(levels: seq<Level>, l: Level, t1: Ticket, t2: Ticket, t: Ticket, q1: nat, q2: nat)
    requires SameTerms(t1, t) && SameTerms(t2, t) && Sweep(levels, t1, q1).lost == None
    requires levels != [] && Crosses(t, levels[0].price) && q1 > 0 && q2 > 0 && l.queue != []
    requires l == Level(levels[0].price, FillQueue(levels[0].queue, q1, t1.id, levels[0].price).queue)
    ensures var s1 := Sweep(levels, t1, q1); SameSweep(s1.gone, Sweep(s1.levels, t2, q2), Sweep(levels, t, q1 + q2))
  {
    hide FillQueue, Volume, Sweep;
    var price, queue, rest := levels[0].price, levels[0].queue, levels[1..];
    var f1, f := FillQueue(queue, q1, t1.id, price), FillQueue(queue, q1 + q2, t.id, price);
    FillInTwo(queue, q1, q2, t1.id, t2.id, t.id, price);
    SweepStep(levels, t1, q1);
    SweepStep(levels, t, q1 + q2);
    SweepStops(rest, t1, 0);
    var left := levels[0 := l];
    SweepStops(left, t1, 0);
    assert f1.gone + {} == f1.gone && left[0] == l && left[1..] == rest;
    SweepStep(left, t2, q2);
    SweepTaker(rest, t2, t, f.left);
    var l' := Level(price, f.queue);
    assert left[0 := l'] == levels[0 := l'];
    SweepTaker(left[0 := l'], t2, t, f.left);
  }

  // ---- market orders ----------------------------------------------------------------------------------

  lemma MarketIsMatched(b: Book, t: Ticket)
    requires t.kind != LIMIT
    ensures
      var s := Sweep(b.Side(t.side != BUY), t, t.qty);
      Process(b, t) == Processed(Matched(b, t.side == BUY, s), s.trades)
  {
    hide Sweep;
    if t.qty == 0 {
      SweepStops(b.Side(t.side != BUY), t, 0);
      assert b.live - {} == b.live && b == b.WithSide(t.side != BUY, b.Side(t.side != BUY));
    }
  }

  /** An order bigger by less than 2^64 than one that loses a level loses none. */
  lemma {:induction false} BiggerLosesNothing(levels: seq<Level>, t1: Ticket, t: Ticket, q1: nat, q2: nat)
    requires SameTerms(t1, t) && Loses(levels, t1, q1) && 0 < q2 < TWO64
    ensures !Loses(levels, t, q1 + q2)
  {
    var v := Volume(levels[0].queue);
    if q1 >= v {
      BiggerLosesNothing(levels[1..], t1, t, q1 - v, q2);
    }
  }

  lemma MatchedParts(b: Book, buy: bool, s: Swept, s': Swept)
    ensures Matched(b, buy, s).Side(!buy) == s.levels && Matched(b, buy, s).lost == LostLevels(b.lost, s.lost)
    ensures Matched(b, buy, s').lost == LostLevels(b.lost, s'.lost)
    ensures SameSweep({}, s, s') ==> Matched(b, buy, s) == Matched(b, buy, s')
  {
    assert {} + s.gone == s.gone;
  }

  lemma NothingMatched(b: Book, buy: bool)
    ensures Matched(b, buy, Swept(b.Side(!buy), [], 0, {}, None)) == b
  {
    assert b.live - {} == b.live;
  }

  /** The two pieces as one, on the levels and the index. */
  lemma MarketBooks(b: Book, t1: Ticket, t2: Ticket, t: Ticket)
    requires Solid(b) && t.kind != LIMIT && SameTerms(t1, t) && SameTerms(t2, t) && t1.qty + t2.qty == t.qty
    ensures
      Process(Process(b, t1).book, t2).book == Process(b, t).book <==>
      t2.qty == 0 || !Loses(b.Side(t.side != BUY), t1, t1.qty)
  {
    hide Sweep, Process, Matched, Stocked, Ordered, Loses;
    var buy, opp := t.side == BUY, b.Side(t.side != BUY);
    var s1, s := Sweep(opp, t1, t1.qty), Sweep(opp, t, t.qty);
    var b1 := Process(b, t1).book;
    var s2 := Sweep(s1.levels, t2, t2.qty);
    MarketIsMatched(b, t1);
    MarketIsMatched(b1, t2);
    MarketIsMatched(b, t);
    MatchedParts(b, buy, s1, s);
    SweepLoses(opp, t1, t1.qty);
    SweepLoses(opp, t, t.qty);
    if !Loses(opp, t1, t1.qty) {
      SweepInTwo(opp, t1, t2, t, t1.qty, t2.qty);
      MatchedTwice(b, buy, s1, s2, s.gone);
      MatchedParts(b, buy, s2.(gone := s.gone), s);
    } else if t2.qty == 0 {
      SweepNothing(opp, t1, t2, t, t1.qty, 0);
      SweepStops(s1.levels, t2, 0);
      NothingMatched(b1, buy);
    } else {
      BiggerLosesNothing(opp, t1, t, t1.qty, t2.qty);
      assert |b1.lost| == |b.lost| + 1;
      ProcessConserves(b1, t2);
    }
  }

  /** The trades inside one level are all at its price. */
  lemma {:induction false} FillAtPrice(queue: seq<Entry>, q: nat, taker: string, price: u64)
    ensures var f := FillQueue(queue, q, taker, price); PriceTotal(Legs(f.trades), price) + f.left == q
  {
    if queue != [] && q > 0 {
      var f := FillQueue(queue, q, taker, price);
      if queue[0].rem <= q {
        FillAtPrice(queue[1..], q - queue[0].rem, taker, price);
        assert f.trades[1..] == FillQueue(queue[1..], q - queue[0].rem, taker, price).trades;
      } else {
        assert f.trades[1..] == [];
      }
    }
  }

  lemma {:induction false} NoneAt(s: seq<Resting>, t: Ticket, q: nat, p: u64)
    requires forall i | 0 <= i < |s| :: s[i].price != p
    ensures PriceTotal(Legs(Greedy(s, t, q).trades), p) == 0
  {
    if s != [] && q > 0 && Crosses(t, s[0].price) {
      if s[0].rem <= q {
        NoneAt(s[1..], t, q - s[0].rem, p);
        LegsStep(s, t, q);
      } else {
        LegsLast(s, t, q);
      }
    }
  }

  /** Had the level not been lost, the second piece would have been filled there. */
  lemma LostWouldFill(l: Level, rest: seq<Level>, t: Ticket, q: nat)
    requires Crosses(t, l.price) && AllPositive(l.queue) && q < Volume(l.queue)
    ensures PriceTotal(Legs(Greedy(Flat([l] + rest), t, q).trades), l.price) == q
  {
    hide Greedy, FillQueue, Flat, Legs, Volume;
    FlatCons(l, rest);
    GreedyLevel(l.price, l.queue, Flat(rest), t, q);
    FillInside(l.queue, q, t.id, l.price);
    FillAtPrice(l.queue, q, t.id, l.price);
  }

  /** When the first piece loses a level, the second misses the quantity that was to be had there. */
  lemma MarketTradesDiffer(b: Book, t1: Ticket, t2: Ticket, t: Ticket)
    requires Solid(b) && t.kind != LIMIT && SameTerms(t1, t) && SameTerms(t2, t) && t1.qty + t2.qty == t.qty
    requires t2.qty > 0 && Loses(b.Side(t.side != BUY), t1, t1.qty)
    ensures
      var p1, p := Process(b, t1), Process(b, t);
      Merge(Legs(p1.trades) + Legs(Process(p1.book, t2).trades)) != Merge(Legs(p.trades))
  {
    hide Process, Sweep, Greedy, Flat, Legs, Merge, PriceTotal, Stocked, Uncrossed, Loses, Volume, AllPositive;
    var opp, b1 := b.Side(t.side != BUY), Process(b, t1).book;
    var s1 := Sweep(opp, t1, t1.qty);
    SweepLoses(opp, t1, t1.qty);
    SweepLost(opp, t1, t1.qty, t.side != BUY);
    var l := s1.lost.value;
    assert Volume(l.queue) >= TWO64;
    MarketIsMatched(b, t1);
    MarketKeepsSolid(b, t1);
    ProcessIsGreedy(b, t1);
    ProcessIsGreedy(b1, t2);
    ProcessIsGreedy(b, t);
    assert b1.Side(t.side != BUY) == s1.levels && b1.lost == b.lost + [l] && b1.lost[|b.lost|..] == [l];
    var g2 := Legs(Greedy(Flat([l] + s1.levels), t2, t2.qty).trades);
    var l1, l2 := Legs(Process(b, t1).trades), Legs(Process(b1, t2).trades);
    GreedySplit(Flat(opp), t1, t2, t, t1.qty, t2.qty);
    LostWouldFill(l, s1.levels, t2, t2.qty);
    FlatPrices(s1.levels, l.price);
    NoneAt(Flat(s1.levels), t2, t2.qty, l.price);
    PriceTotalAppend(l1, l2, l.price);
    PriceTotalAppend(l1, g2, l.price);
    MergeKeepsPrices(l1 + l2, l.price);
    MergeKeepsPrices(l1 + g2, l.price);
  }

  lemma MarketKeepsSolid(b: Book, t: Ticket)
    requires Solid(b) && t.kind != LIMIT
    ensures Solid(Process(b, t).book)
  {
    hide Sweep, Process, Stocked, Sorted, Uncrossed;
    ProcessOrdered(b, t);
    MarketIsMatched(b, t);
    SweepIsGreedy(b.Side(t.side != BUY), t, t.qty);
  }

  /**
   A market order in one piece or in two, in every reachable book: same book, index included, and same
   joined trades, each if and only if the first piece loses no level or the second is empty; and then
   the same fill of every maker.
   */
  lemma MarketSplit(b: Book, t1: Ticket, t2: Ticket, t: Ticket)
    requires Solid(b) && t.kind != LIMIT && SameTerms(t1, t) && SameTerms(t2, t)
    requires t1.qty + t2.qty == t.qty
    ensures
      var p1, p := Process(b, t1), Process(b, t);
      var p2 := Process(p1.book, t2);
      var fine := t2.qty == 0 || !Loses(b.Side(t.side != BUY), t1, t1.qty);
      && (p2.book == p.book <==> fine)
      && (Merge(Legs(p1.trades) + Legs(p2.trades)) == Merge(Legs(p.trades)) <==> fine)
      && (fine ==> forall id :: MakerTotal(Legs(p1.trades) + Legs(p2.trades), id) == MakerTotal(Legs(p.trades), id))
  {
    hide Process, Legs, Merge, MakerTotal, Ordered, Stocked, Loses;
    MarketBooks(b, t1, t2, t);
    if t2.qty == 0 || !Loses(b.Side(t.side != BUY), t1, t1.qty) {
      MarketTrades(b, t1, t2, t);
      var l := Legs(Process(b, t1).trades) + Legs(Process(Process(b, t1).book, t2).trades);
      var l' := Legs(Process(b, t).trades);
      forall id ensures MakerTotal(l, id) == MakerTotal(l', id) {
        MergeKeepsTotals(l, id);
        MergeKeepsTotals(l', id);
      }
    } else {
      MarketTradesDiffer(b, t1, t2, t);
    }
  }

  lemma MarketTrades(b: Book, t1: Ticket, t2: Ticket, t: Ticket)
    requires Solid(b) && t.kind != LIMIT && SameTerms(t1, t) && SameTerms(t2, t) && t1.qty + t2.qty == t.qty
    requires t2.qty == 0 || !Loses(b.Side(t.side != BUY), t1, t1.qty)
    ensures
      var p1, p := Process(b, t1), Process(b, t);
      Merge(Legs(p1.trades) + Legs(Process(p1.book, t2).trades)) == Merge(Legs(p.trades))
  {
    hide Process, Sweep, Greedy, Flat, Legs, Merge, Stocked, Ordered, Loses;
    var opp, b1 := b.Side(t.side != BUY), Process(b, t1).book;
    MarketKeepsSolid(b, t1);
    ProcessIsGreedy(b, t1);
    ProcessIsGreedy(b1, t2);
    ProcessIsGreedy(b, t);
    GreedySplit(Flat(opp), t1, t2, t, t1.qty, t2.qty);
    MarketIsMatched(b, t1);
    SweepLoses(opp, t1, t1.qty);
    if t2.qty == 0 {
      LegsNone(Flat(b1.Side(t.side != BUY)), t2, 0);
      LegsNone(Greedy(Flat(opp), t1, t1.qty).rest, t2, 0);
    } else {
      assert b1.lost[|b.lost|..] + b1.Side(t.side != BUY) == b1.Side(t.side != BUY);
    }
  }

  lemma SameIndex(s: seq<Resting>, buy: bool, live: map<string, Spot>, live': map<string, Spot>)
    requires Indexed(s, buy, live) && Indexed(s, buy, live')
    ensures forall id | id in IdSet(s) :: id in live && id in live' && live[id] == live'[id]
  {
  }

  /** A well-formed book is determined by its two priority lists. */
  lemma SameBook(b: Book, b': Book)
    requires WellFormed(b) && WellFormed(b')
    requires Flat(b.bids) == Flat(b'.bids) && Flat(b.asks) == Flat(b'.asks)
    ensures b == b'
  {
    hide Flat, Sound, Distinct, Apart, Indexed, Sorted, Uncrossed, IdSet;
    FlatInjective(b.bids, b'.bids, true);
    FlatInjective(b.asks, b'.asks, false);
    SameIndex(Flat(b.bids), true, b.live, b'.live);
    SameIndex(Flat(b.asks), false, b.live, b'.live);
    assert forall id | id in b.live :: id in b.live.Keys;
    assert b.live == b'.live;
  }
}
