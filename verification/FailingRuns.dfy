/** Runs on which the engine breaks the promises of its users: reused ids, overflow, unknown sides. */
module FailingRuns {
  import opened Options
  import opened BookSpec
  import opened BookLemmas
  import opened MatchSteps
  import opened Cancelling
  import opened Execution
  import opened Conservation
  import opened Runs

  lemma RunMore(ops: seq<Op>, op: Op)
    ensures Run(ops + [op]) == Apply(Run(ops), op)
  {
    assert (ops + [op])[..|ops|] == ops;
  }

  lemma RunThree(a: Op, b: Op, c: Op)
    ensures Run([a, b, c]) == Apply(Apply(Apply(OPENING, a), b), c)
  {
    RunMore([], a);
    RunMore([a], b);
    RunMore([a, b], c);
    assert [] + [a] == [a] && [a] + [b] == [a, b] && [a, b] + [c] == [a, b, c];
  }

  /** A limit order that finds nobody on the other side. */
  lemma RestsAlone(b: Book, t: Ticket)
    requires t.kind == LIMIT && t.qty > 0 && b.Side(t.side != BUY) == []
    ensures Process(b, t) == Processed(Rested(b, t.side == BUY, t.price, Entry(t.id, t.qty)), [])
  {
    SweepStops([], t, t.qty);
    assert b.live - {} == b.live;
  }

  function Sell(id: string, price: u64, qty: u64): Ticket {
    Ticket(id, SELL, LIMIT, price, qty)
  }

  /** A market buy; its price field means nothing. */
  function Buy(id: string, qty: u64): Ticket {
    Ticket(id, BUY, MARKET, 0, qty)
  }

  lemma OneTrade(trade: Trade)
    ensures Traded([]) == 0 && Traded([trade]) == trade.qty
  {
    assert [trade][1..] == [];
  }

  // ---- overflow ---------------------------------------------------------------------------------------

  function Two(price: u64, a: nat, b: nat): Level {
    Level(price, [Entry("a", a), Entry("b", b)])
  }

  /** The book after a sell of 2^64-1 and one of `n` units at the same price. */
  function TwoBook(price: u64, n: u64): Book {
    Book([], [Two(price, TWO64 - 1, n)], map["a" := Listed(false, price), "b" := Listed(false, price)], [])
  }

  lemma TwoSells(price: u64, n: u64)
    requires n > 0
    ensures Apply(Apply(OPENING, Submit(Sell("a", price, TWO64 - 1))), Submit(Sell("b", price, n))) ==
            Ledger(TwoBook(price, n), TWO64 - 1 + n, 0, 0, 0)
  {
    RestsAlone(EMPTY, Sell("a", price, TWO64 - 1));
    var l := Level(price, [Entry("a", TWO64 - 1)]);
    var b1 := Book([], [l], map["a" := Listed(false, price)], []);
    assert Rested(EMPTY, false, price, Entry("a", TWO64 - 1)) == b1;
    RestsAlone(b1, Sell("b", price, n));
    assert [l][1..] == [] && l.queue + [Entry("b", n)] == Two(price, TWO64 - 1, n).queue;
    assert Insert([l], false, price, Entry("b", n)) == [Two(price, TWO64 - 1, n)];
    OneTrade(Trade("", "", 0, 0));
  }

  lemma RunTwo(a: Op, b: Op)
    ensures Run([a, b]) == Apply(Apply(OPENING, a), b)
  {
    RunMore([], a);
    RunMore([a], b);
    assert [] + [a] == [a] && [a] + [b] == [a, b];
  }

  lemma OverflowSweep(price: u64, c: Ticket)
    requires c == Buy("c", 1)
    ensures Sweep([Two(price, TWO64 - 1, 2)], c, 1) ==
            Swept([], [Trade("a", "c", price, 1)], 0, {}, Some(Two(price, TWO64 - 2, 2)))
  {
    var asks, queue := [Two(price, TWO64 - 1, 2)], Two(price, TWO64 - 2, 2).queue;
    assert FillQueue(asks[0].queue, 1, "c", price) == Filled(queue, [Trade("a", "c", price, 1)], 0, {}) by {
      assert asks[0].queue[1..] == [Entry("b", 2)];
    }
    assert Volume(queue) == TWO64 by { VolumeAppend([queue[0]], [queue[1]]); }
    assert asks[1..] == [];
  }

  /**
   Two sells at one price whose sum exceeds 2^64, then a one-unit market buy: the level's counter
   reads zero, the level goes, and two live orders go with it.
   */
  lemma OverflowLosesOrders(price: u64)
    ensures
      var l := Run([Submit(Sell("a", price, TWO64 - 1)), Submit(Sell("b", price, 2)), Submit(Buy("c", 1))]);
      && l.book == Book([], [], map["a" := Lost(false, 0), "b" := Lost(false, 0)], [Two(price, TWO64 - 2, 2)])
      && !Balanced(l)
  {
    hide Run, Process, Traded, Held;
    var a, b, c := Submit(Sell("a", price, TWO64 - 1)), Submit(Sell("b", price, 2)), Buy("c", 1);
    RunThree(a, b, Submit(c));
    TwoSells(price, 2);
    OverflowProcess(price, c);
    OneTrade(Trade("a", "c", price, 1));
    HeldCons([]);
  }

  lemma OverflowProcess(price: u64, c: Ticket)
    requires c == Buy("c", 1)
    ensures Process(TwoBook(price, 2), c) ==
            Processed(Book([], [], map["a" := Lost(false, 0), "b" := Lost(false, 0)], [Two(price, TWO64 - 2, 2)]),
                      [Trade("a", "c", price, 1)])
  {
    hide Sweep;
    OverflowSweep(price, c);
    assert TwoBook(price, 2).live - {} == TwoBook(price, 2).live;
  }

  /**
   A market order for two units in two pieces: the first piece loses the level, and the second finds
   nobody; in one piece it is filled.
   */
  lemma SplitMissesLostLevel(price: u64)
    ensures
      var b := Run([Submit(Sell("a", price, TWO64 - 1)), Submit(Sell("b", price, 2))]).book;
      && Process(Process(b, Buy("c", 1)).book, Buy("d", 1)).trades == []
      && Process(b, Buy("e", 2)).trades == [Trade("a", "e", price, 2)]
  {
    hide Run, Process, Sweep;
    RunTwo(Submit(Sell("a", price, TWO64 - 1)), Submit(Sell("b", price, 2)));
    TwoSells(price, 2);
    OverflowProcess(price, Buy("c", 1));
    NobodyThere(Process(TwoBook(price, 2), Buy("c", 1)).book, Buy("d", 1));
    TwoUnits(price);
  }

  lemma NobodyThere(b: Book, t: Ticket)
    requires b.Side(t.side != BUY) == []
    ensures Process(b, t).trades == []
  {
  }

  lemma TwoUnits(price: u64)
    ensures Process(TwoBook(price, 2), Buy("e", 2)).trades == [Trade("a", "e", price, 2)]
  {
    var asks, queue := [Two(price, TWO64 - 1, 2)], Two(price, TWO64 - 3, 2).queue;
    assert FillQueue(asks[0].queue, 2, "e", price) == Filled(queue, [Trade("a", "e", price, 2)], 0, {}) by {
      assert asks[0].queue[1..] == [Entry("b", 2)];
    }
    assert Volume(queue) == TWO64 - 1 by { VolumeAppend([queue[0]], [queue[1]]); }
    assert Sweep(asks, Buy("e", 2), 2).trades == [Trade("a", "e", price, 2)];
  }

  /** The depth shows one unit where 2^64 and one rest. */
  lemma DepthWraps(price: u64)
    ensures
      var b := Run([Submit(Sell("a", price, TWO64 - 1)), Submit(Sell("b", price, 2))]).book;
      DepthOf(b, 50).asks == [PriceLevel(price, 1)] && Held(b.asks) == TWO64 + 1
  {
    hide Run, Held;
    RunTwo(Submit(Sell("a", price, TWO64 - 1)), Submit(Sell("b", price, 2)));
    TwoSells(price, 2);
    var l := Two(price, TWO64 - 1, 2);
    assert Volume(l.queue) == TWO64 + 1 by { VolumeAppend([l.queue[0]], [l.queue[1]]); }
    HeldOne(l);
  }

  function Three(price: u64): Book {
    Book([], [Level(price, [Entry("a", TWO64 - 1), Entry("b", 1), Entry("c", 5)])],
         map["a" := Listed(false, price), "b" := Listed(false, price), "c" := Listed(false, price)], [])
  }

  lemma ThirdSell(price: u64)
    ensures Process(TwoBook(price, 1), Sell("c", price, 5)).book == Three(price)
  {
    var l := Two(price, TWO64 - 1, 1);
    RestsAlone(TwoBook(price, 1), Sell("c", price, 5));
    assert [l][1..] == [] && l.queue + [Entry("c", 5)] == Three(price).asks[0].queue;
    assert Insert([l], false, price, Entry("c", 5)) == Three(price).asks;
  }

  lemma ThirdCancel(price: u64)
    ensures Cancel(Three(price), "c") ==
            Cancelled(Book([], [], map["a" := Lost(false, 0), "b" := Lost(false, 0)], [Two(price, TWO64 - 1, 1)]), true)
  {
    hide At, FindLast, Without, Cancel, Volume;
    var b, queue := Three(price), Three(price).asks[0].queue;
    assert At(b.asks, price) == 0 by { assert b.asks[0].price == price; }
    assert FindLast(queue, "c") == 2 by { assert queue[2].id == "c"; }
    ThirdGone(price);
    CancelListed(b, "c");
    assert b.live - {"c"} == map["a" := Listed(false, price), "b" := Listed(false, price)];
  }

  lemma ThirdGone(price: u64)
    ensures
      var asks := Three(price).asks;
      && Without(asks, 0) == [] && Without(asks[0].queue, 2) == Two(price, TWO64 - 1, 1).queue
      && Volume(Two(price, TWO64 - 1, 1).queue) == TWO64
  {
    var queue := Two(price, TWO64 - 1, 1).queue;
    VolumeAppend([queue[0]], [queue[1]]);
    assert queue == [queue[0]] + [queue[1]];
  }

  /**
   Sells of 2^64-1, 1 and 5 units at one price; cancelling the last leaves 2^64 in the level, whose
   counter reads zero, and the other two go with it.
   */
  lemma CancelTakesOthersAlong(price: u64)
    ensures
      var b := Run([Submit(Sell("a", price, TWO64 - 1)), Submit(Sell("b", price, 1)), Submit(Sell("c", price, 5))]).book;
      b.asks == [Level(price, [Entry("a", TWO64 - 1), Entry("b", 1), Entry("c", 5)])] && Cancel(b, "c").book.asks == []
  {
    hide Run, Process, Cancel;
    RunThree(Submit(Sell("a", price, TWO64 - 1)), Submit(Sell("b", price, 1)), Submit(Sell("c", price, 5)));
    TwoSells(price, 1);
    ThirdSell(price);
    ThirdCancel(price);
  }

  /** So placing the last of them, which crosses nothing, and cancelling it does not restore the book. */
  lemma PlaceThenCancelLosesLevel(price: u64)
    ensures
      var b := Run([Submit(Sell("a", price, TWO64 - 1)), Submit(Sell("b", price, 1))]).book;
      b.asks != [] && Cancel(Process(b, Sell("c", price, 5)).book, "c").book.asks == []
  {
    hide Run, Process, Cancel;
    RunTwo(Submit(Sell("a", price, TWO64 - 1)), Submit(Sell("b", price, 1)));
    TwoSells(price, 1);
    ThirdSell(price);
    ThirdCancel(price);
  }

  /**
   The run goes on: a new sell rests at that price, and the two lost orders are cancelled.  The second
   cancel empties the lost level, and the engine drops the new level of that price in its place.
   */
  lemma CancelDropsAnotherLevel(price: u64)
    ensures
      var ops := [Submit(Sell("a", price, TWO64 - 1)), Submit(Sell("b", price, 2)), Submit(Buy("c", 1))];
      Run(ops + [Submit(Sell("d", price, 7))] + [Withdraw("a")] + [Withdraw("b")]).book ==
      Book([], [], map["d" := Lost(false, 1)], [Level(price, []), Level(price, [Entry("d", 7)])])
  {
    hide Run;
    var ops := [Submit(Sell("a", price, TWO64 - 1)), Submit(Sell("b", price, 2)), Submit(Buy("c", 1))];
    var d := Sell("d", price, 7);
    OverflowLosesOrders(price);
    RunMore(ops, Submit(d));
    RunMore(ops + [Submit(d)], Withdraw("a"));
    RunMore(ops + [Submit(d)] + [Withdraw("a")], Withdraw("b"));
    NewLevel(price);
    FirstCancel(price);
    SecondCancel(price);
  }

  function Rest(price: u64): seq<Level> {
    [Level(price, [Entry("d", 7)])]
  }

  lemma NewLevel(price: u64)
    ensures
      var b := Book([], [], map["a" := Lost(false, 0), "b" := Lost(false, 0)], [Two(price, TWO64 - 2, 2)]);
      Process(b, Sell("d", price, 7)).book ==
      Book([], Rest(price), map["a" := Lost(false, 0), "b" := Lost(false, 0), "d" := Listed(false, price)], b.lost)
  {
    var b := Book([], [], map["a" := Lost(false, 0), "b" := Lost(false, 0)], [Two(price, TWO64 - 2, 2)]);
    RestsAlone(b, Sell("d", price, 7));
  }

  lemma FirstCancel(price: u64)
    ensures
      var b := Book([], Rest(price), map["a" := Lost(false, 0), "b" := Lost(false, 0), "d" := Listed(false, price)],
                    [Two(price, TWO64 - 2, 2)]);
      Cancel(b, "a").book ==
      Book([], Rest(price), map["b" := Lost(false, 0), "d" := Listed(false, price)], [Level(price, [Entry("b", 2)])])
  {
    hide At, FindLast, Without, Cancel, Volume, Cut;
    var live := map["a" := Lost(false, 0), "b" := Lost(false, 0), "d" := Listed(false, price)];
    var b := Book([], Rest(price), live, [Two(price, TWO64 - 2, 2)]);
    var queue := b.lost[0].queue;
    assert FindLast(queue, "a") == 0 by { assert queue[0].id == "a" && queue[1].id == "b"; }
    OneGone(queue);
    CancelLost(b, "a");
    assert live - {"a"} == map["b" := Lost(false, 0), "d" := Listed(false, price)];
  }

  lemma OneGone(queue: seq<Entry>)
    requires |queue| == 2 && queue[1] == Entry("b", 2)
    ensures Without(queue, 0) == [Entry("b", 2)] && Volume([Entry("b", 2)]) == 2
  {
  }

  lemma SecondCancel(price: u64)
    ensures
      var b := Book([], Rest(price), map["b" := Lost(false, 0), "d" := Listed(false, price)],
                    [Level(price, [Entry("b", 2)])]);
      Cancel(b, "b").book ==
      Book([], [], map["d" := Lost(false, 1)], [Level(price, []), Level(price, [Entry("d", 7)])])
  {
    hide At, FindLast, Without, Cancel, Volume;
    var live := map["b" := Lost(false, 0), "d" := Listed(false, price)];
    var b := Book([], Rest(price), live, [Level(price, [Entry("b", 2)])]);
    assert FindLast(b.lost[0].queue, "b") == 0 by { assert b.lost[0].queue[0].id == "b"; }
    assert At(b.asks, price) == 0 by { assert b.asks[0].price == price; }
    LastGone(b.lost[0].queue);
    LastGone(b.asks);
    EmptyVolume();
    CancelLost(b, "b");
    assert live - {"b"} == map["d" := Listed(false, price)];
  }

  lemma LastGone<T>(s: seq<T>)
    requires |s| == 1
    ensures Without(s, 0) == []
  {
  }

  // ---- reused ids ---------------------------------------------------------------------------------------

  lemma TwoOfOneId(price: u64)
    requires price + 1 < TWO64
    ensures
      Apply(Apply(OPENING, Submit(Sell("x", price, 5))), Submit(Sell("x", price + 1, 7))).book ==
      Book([], [Level(price, [Entry("x", 5)]), Level(price + 1, [Entry("x", 7)])], map["x" := Listed(false, price + 1)], [])
  {
    RestsAlone(EMPTY, Sell("x", price, 5));
    var l := Level(price, [Entry("x", 5)]);
    var b1 := Book([], [l], map["x" := Listed(false, price)], []);
    assert Rested(EMPTY, false, price, Entry("x", 5)) == b1;
    RestsAlone(b1, Sell("x", price + 1, 7));
    assert [l][1..] == [];
    assert Insert([], false, price + 1, Entry("x", 7)) == [Level(price + 1, [Entry("x", 7)])];
    assert Insert([l], false, price + 1, Entry("x", 7)) == [l, Level(price + 1, [Entry("x", 7)])];
  }

  /**
   A resting order whose id is reused: when the first of the two is filled, the index forgets the
   second, which keeps resting and can no longer be cancelled.  `Runs.KnownIffIdsFree` says exactly
   which runs are free of this.
   */
  lemma DuplicateIdStrandsOrder(price: u64)
    requires price + 1 < TWO64
    ensures
      var l := Run([Submit(Sell("x", price, 5)), Submit(Sell("x", price + 1, 7)), Submit(Buy("y", 5))]);
      l.book.asks == [Level(price + 1, [Entry("x", 7)])] && !Cancel(l.book, "x").ok
  {
    hide Process, Run, Cancel;
    RunThree(Submit(Sell("x", price, 5)), Submit(Sell("x", price + 1, 7)), Submit(Buy("y", 5)));
    TwoOfOneId(price);
    OlderTrades(price);
    Gone(Book([], [Level(price + 1, [Entry("x", 7)])], map[], []));
  }

  lemma Gone(b: Book)
    requires b.live == map[]
    ensures !Cancel(b, "x").ok
  {
  }

  lemma OlderTrades(price: u64)
    requires price + 1 < TWO64
    ensures
      var b := Book([], [Level(price, [Entry("x", 5)]), Level(price + 1, [Entry("x", 7)])],
                    map["x" := Listed(false, price + 1)], []);
      Process(b, Buy("y", 5)).book == Book([], [Level(price + 1, [Entry("x", 7)])], map[], [])
  {
    var asks := [Level(price, [Entry("x", 5)]), Level(price + 1, [Entry("x", 7)])];
    assert map["x" := Listed(false, price + 1)] - {"x"} == map[];
    assert FillQueue([Entry("x", 5)], 5, "y", price) == Filled([], [Trade("x", "y", price, 5)], 0, {"x"}) by {
      assert [Entry("x", 5)][1..] == [];
    }
    assert asks[1..] == [Level(price + 1, [Entry("x", 7)])];
    assert Sweep(asks, Buy("y", 5), 5) == Swept(asks[1..], [Trade("x", "y", price, 5)], 0, {"x"}, None);
  }

  /**
   Cancelling a reused id takes out the younger order, although the older one is better; after that
   the older one trades, and can no longer be cancelled either.
   */
  lemma CancelTakesTheYounger(price: u64)
    requires price + 1 < TWO64
    ensures
      var b := Run([Submit(Sell("x", price, 5)), Submit(Sell("x", price + 1, 7)), Withdraw("x")]).book;
      && b == Book([], [Level(price, [Entry("x", 5)])], map[], [])
      && Process(b, Buy("y", 1)).trades == [Trade("x", "y", price, 1)] && !Cancel(b, "x").ok
  {
    hide Process, Run, Cancel, Found;
    RunThree(Submit(Sell("x", price, 5)), Submit(Sell("x", price + 1, 7)), Withdraw("x"));
    TwoOfOneId(price);
    var l, l' := Level(price, [Entry("x", 5)]), Level(price + 1, [Entry("x", 7)]);
    var live := map["x" := Listed(false, price + 1)];
    var b := Book([], [l, l'], live, []);
    YoungerGoes(b, l, l');
    Gone(Book([], [l], map[], []));
    OneUnit(price);
  }

  lemma OneUnit(price: u64)
    ensures Process(Book([], [Level(price, [Entry("x", 5)])], map[], []), Buy("y", 1)).trades == [Trade("x", "y", price, 1)]
  {
    var l := Level(price, [Entry("x", 5)]);
    assert FillQueue([Entry("x", 5)], 1, "y", price) == Filled([Entry("x", 4)], [Trade("x", "y", price, 1)], 0, {}) by {
      assert [Entry("x", 5)][1..] == [] && [Entry("x", 4)] + [] == [Entry("x", 4)];
    }
    assert Volume([Entry("x", 4)]) == 4;
    assert Sweep([l], Buy("y", 1), 1).trades == [Trade("x", "y", price, 1)];
  }

  lemma YoungerGoes(b: Book, l: Level, l': Level)
    requires l.price != l'.price && l' == Level(l'.price, [Entry("x", 7)])
    requires b == Book([], [l, l'], map["x" := Listed(false, l'.price)], [])
    ensures Cancel(b, "x") == Cancelled(Book([], [l], map[], []), true)
  {
    hide At, FindLast, Without, Cancel, Volume;
    assert At(b.asks, l'.price) == 1 by { assert b.asks[0] == l && b.asks[1] == l'; }
    assert FindLast(l'.queue, "x") == 0 by { assert l'.queue[0].id == "x"; }
    LastGone(l'.queue);
    EmptyVolume();
    SecondGone(l, l');
    CancelListed(b, "x");
    assert b.live - {"x"} == map[];
  }

  lemma SecondGone(l: Level, l': Level)
    ensures Without([l, l'], 1) == [l]
  {
  }

  // ---- unknown sides -------------------------------------------------------------------------------------

  /**
   An order whose side is neither buy nor sell trades past its price: asked to sell one unit at 100
   or more, it sells to a bid of 1.
   */
  lemma UnknownSideTradesPastItsPrice()
    ensures
      var b, t := Run([Submit(Ticket("b", BUY, LIMIT, 1, 1))]).book, Ticket("s", 2, LIMIT, 100, 1);
      Process(b, t).trades == [Trade("b", "s", 1, 1)] && !Respects(Process(b, t).trades, false, t.price)
  {
    var first, t := Ticket("b", BUY, LIMIT, 1, 1), Ticket("s", 2, LIMIT, 100, 1);
    var b := Book([Level(1, [Entry("b", 1)])], [], map["b" := Listed(true, 1)], []);
    RestsAlone(EMPTY, first);
    RunMore([], Submit(first));
    assert [] + [Submit(first)] == [Submit(first)];
    assert Rested(EMPTY, true, 1, Entry("b", 1)) == b;
    assert FillQueue([Entry("b", 1)], 1, "s", 1) == Filled([], [Trade("b", "s", 1, 1)], 0, {"b"}) by {
      assert [Entry("b", 1)][1..] == [];
    }
    assert b.bids[1..] == [];
    assert Sweep(b.bids, t, 1).trades == [Trade("b", "s", 1, 1)];
    assert [Trade("b", "s", 1, 1)][0].price < 100;
  }
}
