/** What a depth snapshot shows of the book it was taken from. */
module Snapshots {
  import opened BookSpec
  import opened Priority
  import opened Invariants
  import opened Runs
  import opened Exchange

  predicate SortedDepth(d: seq<PriceLevel>, desc: bool) {
    forall i, j | 0 <= i < j < |d| :: Better(desc, d[i].price, d[j].price)
  }

  predicate UncrossedDepth(d: Depth) {
    forall i, j | 0 <= i < |d.bids| && 0 <= j < |d.asks| :: d.bids[i].price < d.asks[j].price
  }

  predicate Shown(d: seq<PriceLevel>, p: u64) {
    exists i | 0 <= i < |d| :: d[i].price == p
  }

  /** Each line carries the whole quantity resting at its price, and only worse prices are cut off. */
  predicate Aggregates(d: seq<PriceLevel>, s: seq<Resting>, desc: bool, n: nat) {
    && |d| <= n
    && (forall i | 0 <= i < |d| :: d[i].volume > 0 && d[i].volume == Total(s, AtPrice(d[i].price)))
    && (forall k | 0 <= k < |s| ::
          Shown(d, s[k].price) || (|d| == n && forall i | 0 <= i < |d| :: Better(desc, d[i].price, s[k].price)))
  }

  lemma {:induction false} LevelTotal(levels: seq<Level>, desc: bool, i: nat)
    requires Sorted(levels, desc) && i < |levels|
    ensures Total(Flat(levels), AtPrice(levels[i].price)) == Volume(levels[i].queue)
  {
    var p := levels[i].price;
    FlatTotal(levels, AtPrice(p));
    TagTotal(levels[0].price, levels[0].queue, p);
    if i == 0 {
      NoneAtPrice(levels[1..], p);
    } else {
      LevelTotal(levels[1..], desc, i - 1);
    }
  }

  /** The first `n` levels hold no more than their counters can. */
  predicate Fits(levels: seq<Level>, n: nat) {
    forall i | 0 <= i < |levels| && i < n :: Volume(levels[i].queue) < TWO64
  }

  lemma VolumePositive(queue: seq<Entry>)
    requires queue != [] && queue[0].rem > 0
    ensures Volume(queue) > 0
  {
  }

  /** A line shows the true volume of its level exactly when the level fits its counter. */
  lemma LineIsExact(levels: seq<Level>, desc: bool, n: nat, i: nat)
    requires Sorted(levels, desc) && Stocked(levels) && i < |levels| && i < n
    ensures
      var d := SideDepth(levels, n);
      && |d| == (if |levels| < n then |levels| else n) && d[i].price == levels[i].price
      && (d[i].volume > 0 && d[i].volume == Total(Flat(levels), AtPrice(d[i].price))
          <==> Volume(levels[i].queue) < TWO64)
  {
    hide Flat, Total, Volume, Sorted;
    LevelTotal(levels, desc, i);
    VolumePositive(levels[i].queue);
  }

  lemma SideSnapshot(levels: seq<Level>, desc: bool, n: nat)
    requires Sorted(levels, desc) && Stocked(levels)
    ensures Aggregates(SideDepth(levels, n), Flat(levels), desc, n) <==> Fits(levels, n)
  {
    hide Flat, Total, Volume;
    var d, s := SideDepth(levels, n), Flat(levels);
    forall i | 0 <= i < |d|
      ensures d[i].price == levels[i].price
      ensures d[i].volume > 0 && d[i].volume == Total(s, AtPrice(d[i].price)) <==> Volume(levels[i].queue) < TWO64
    {
      LineIsExact(levels, desc, n, i);
    }
    FlatSorted(levels, desc);
    forall k | 0 <= k < |s|
      ensures Shown(d, s[k].price) || (|d| == n && forall i | 0 <= i < |d| :: Better(desc, d[i].price, s[k].price))
    {
      var j :| 0 <= j < |levels| && s[k].price == levels[j].price;
      if j < |d| {
        assert d[j].price == s[k].price;
      }
    }
  }

  lemma SideOrder(levels: seq<Level>, desc: bool, n: nat)
    requires Sorted(levels, desc)
    ensures SortedDepth(SideDepth(levels, n), desc)
  {
    hide Volume;
  }

  /** Any snapshot of an ordered book is sorted and uncrossed. */
  lemma OrderedSnapshot(b: Book, n: nat)
    requires Ordered(b)
    ensures var d := DepthOf(b, n); SortedDepth(d.bids, true) && SortedDepth(d.asks, false) && UncrossedDepth(d)
  {
    hide Volume;
    SideOrder(b.bids, true, n);
    SideOrder(b.asks, false, n);
    var d := DepthOf(b, n);
    forall i, j | 0 <= i < |d.bids| && 0 <= j < |d.asks| ensures d.bids[i].price < d.asks[j].price {
      assert d.bids[i].price == b.bids[i].price && d.asks[j].price == b.asks[j].price;
    }
  }

  /**
   Over every interleaving the cache served to clients is a sorted, uncrossed snapshot of one past
   book; it is the exact price aggregation of that book if and only if the shown levels fit their
   counters.
   */
  lemma CacheIsASnapshot(steps: seq<Step>)
    ensures
      var s := Exec(steps);
      && 0 <= s.cacheAt <= |s.arrivals|
      && s.cache == DepthOf(Run(s.arrivals[..s.cacheAt]).book, DEPTH)
      && SortedDepth(s.cache.bids, true) && SortedDepth(s.cache.asks, false) && UncrossedDepth(s.cache)
      && var b := Run(s.arrivals[..s.cacheAt]).book;
         && (Aggregates(s.cache.bids, Flat(b.bids), true, DEPTH) <==> Fits(b.bids, DEPTH))
         && (Aggregates(s.cache.asks, Flat(b.asks), false, DEPTH) <==> Fits(b.asks, DEPTH))
  {
    hide Run, Exec, DepthOf, Flat, Aggregates, SortedDepth, Fits, Stocked;
    EveryRun(steps);
    var s := Exec(steps);
    var b := Run(s.arrivals[..s.cacheAt]).book;
    AlwaysOrdered(s.arrivals[..s.cacheAt]);
    AlwaysInStock(s.arrivals[..s.cacheAt]);
    OrderedSnapshot(b, DEPTH);
    SideSnapshot(b.bids, true, DEPTH);
    SideSnapshot(b.asks, false, DEPTH);
    DepthSides(b, DEPTH);
  }

  lemma DepthSides(b: Book, n: nat)
    ensures DepthOf(b, n).bids == SideDepth(b.bids, n) && DepthOf(b, n).asks == SideDepth(b.asks, n)
  {
  }

  /** The snapshot never goes back to an older state. */
  lemma {:induction false} CacheMovesForward(steps: seq<Step>, k: nat)
    requires k <= |steps|
    ensures Exec(steps[..k]).cacheAt <= Exec(steps).cacheAt
    decreases |steps| - k
  {
    if k == |steps| {
      assert steps[..k] == steps;
    } else {
      var next := steps[..k+1];
      assert next[..k] == steps[..k];
      EveryRun(steps[..k]);
      StepKeepsCoherent(Exec(steps[..k]), steps[k]);
      CacheMovesForward(steps, k + 1);
    }
  }

  /** When the loop answers, the handler's one-slot channel is empty and has never been used. */
  lemma ResponseNeverBlocks(steps: seq<Step>)
    ensures
      var s := Exec(steps);
      s.inbox != [] ==> s.inbox[0].handler !in s.results && s.inbox[0].handler !in s.answers
  {
    hide Run, Exec, Answer;
    EveryRun(steps);
  }
}
