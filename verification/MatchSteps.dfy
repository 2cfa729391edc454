/**
 One round of each matching loop, on values: what remains to be computed after the round is
 the rest of the same computation.  The loops of the engine lean on these.
 */
module MatchSteps {
  import opened Options
  import opened BookSpec
  import opened BookLemmas
  import opened LimitQueue

  /** The result of a fill that continues after `trades` were made and the ids `gone` used up. */
  ghost function After(trades: seq<Trade>, gone: set<string>, f: Filled): Filled {
    Filled(f.queue, trades + f.trades, f.left, gone + f.gone)
  }

  lemma FillStops(entries: seq<Entry>, q: nat, taker: string, price: u64)
    requires entries == [] || q == 0
    ensures FillQueue(entries, q, taker, price) == Filled(entries, [], q, {})
  {
  }

  /** A fill that uses up the first order goes on with the others. */
  lemma FillOne(queue: seq<Entry>, q: nat, taker: string, price: u64)
    requires queue != [] && 0 < q && queue[0].rem <= q
    ensures
      var f, r := FillQueue(queue, q, taker, price), FillQueue(queue[1..], q - queue[0].rem, taker, price);
      && f.queue == r.queue && f.left == r.left && f.gone == {queue[0].id} + r.gone
      && f.trades == [Trade(queue[0].id, taker, price, queue[0].rem)] + r.trades
  {
  }

  lemma FillStep(trades: seq<Trade>, gone: set<string>, entries: seq<Entry>, q: u64, taker: string, price: u64)
    requires entries != [] && entries[0].rem < TWO64 && q > 0
    ensures
      var e := entries[0];
      var m := Min(q, e.rem);
      After(trades, gone, FillQueue(entries, q, taker, price)) ==
      After(trades + [Trade(e.id, taker, price, m)], if q < e.rem then gone else gone + {e.id},
            FillQueue(AfterFill(entries, m), q - m, taker, price))
  {
    var e := entries[0];
    var r := FillQueue(AfterFill(entries, Min(q, e.rem)), q - Min(q, e.rem), taker, price);
    assert trades + ([Trade(e.id, taker, price, Min(q, e.rem))] + r.trades)
        == trades + [Trade(e.id, taker, price, Min(q, e.rem))] + r.trades;
    assert gone + ({e.id} + r.gone) == gone + {e.id} + r.gone;
  }

  /** Likewise for a whole sweep, before which the level `lost` may have been lost. */
  ghost function Then(trades: seq<Trade>, gone: set<string>, lost: Option<Level>, s: Swept): Swept {
    Swept(s.levels, trades + s.trades, s.left, gone + s.gone, if lost == None then s.lost else lost)
  }

  lemma ThenNothing(s: Swept)
    ensures Then([], {}, None, s) == s
  {
    assert [] + s.trades == s.trades && {} + s.gone == s.gone;
  }

  lemma ThenThen(trades: seq<Trade>, gone: set<string>,
                 trades': seq<Trade>, gone': set<string>, lost: Option<Level>, s: Swept)
    ensures Then(trades, gone, None, Then(trades', gone', lost, s)) == Then(trades + trades', gone + gone', lost, s)
  {
    assert trades + (trades' + s.trades) == trades + trades' + s.trades;
    assert gone + (gone' + s.gone) == gone + gone' + s.gone;
  }

  lemma ThenStop(trades: seq<Trade>, gone: set<string>, lost: Option<Level>, levels: seq<Level>, q: nat)
    ensures Then(trades, gone, lost, Swept(levels, [], q, {}, None)) == Swept(levels, trades, q, gone, lost)
  {
    assert trades + [] == trades && gone + {} == gone;
  }

  lemma SweepStops(levels: seq<Level>, t: Ticket, q: nat)
    requires levels == [] || q == 0 || !Crosses(t, levels[0].price)
    ensures Sweep(levels, t, q) == Swept(levels, [], q, {}, None)
  {
  }

  /** An order that outlasts a level empties it. */
  lemma {:induction false} FillExhausts(queue: seq<Entry>, q: nat, taker: string, price: u64)
    ensures var f := FillQueue(queue, q, taker, price); f.left == 0 || f.queue == []
  {
    if queue != [] && queue[0].rem <= q {
      FillExhausts(queue[1..], q - queue[0].rem, taker, price);
    }
  }

  /** What a sweep does to its first level, `l` being that level after the fill. */
  lemma SweepStep(levels: seq<Level>, t: Ticket, q: nat)
    requires levels != [] && q > 0 && Crosses(t, levels[0].price)
    ensures
      var f := FillQueue(levels[0].queue, q, t.id, levels[0].price);
      var l := Level(levels[0].price, f.queue);
      && (f.queue != [] || Volume(f.queue) % TWO64 != 0 ==> f.left == 0)
      && Sweep(levels, t, q) ==
         if Volume(f.queue) % TWO64 == 0 then Then(f.trades, f.gone, Stock(l), Sweep(levels[1..], t, f.left))
         else Then(f.trades, f.gone, None, Sweep(levels[0 := l], t, f.left))
  {
    var f := FillQueue(levels[0].queue, q, t.id, levels[0].price);
    FillExhausts(levels[0].queue, q, t.id, levels[0].price);
    if Volume(f.queue) % TWO64 != 0 {
      assert levels[0 := Level(levels[0].price, f.queue)] == [Level(levels[0].price, f.queue)] + levels[1..];
      assert f.trades + [] == f.trades && f.gone + {} == f.gone;
    }
  }

  lemma {:induction false} FillShrinks(queue: seq<Entry>, q: nat, taker: string, price: u64)
    ensures var f := FillQueue(queue, q, taker, price); Volume(f.queue) + q == Volume(queue) + f.left
  {
    if queue != [] && q > 0 {
      if queue[0].rem <= q {
        FillShrinks(queue[1..], q - queue[0].rem, taker, price);
      } else {
        var e := Entry(queue[0].id, queue[0].rem - q);
        assert ([e] + queue[1..])[1..] == queue[1..];
      }
    }
  }

  lemma ZeroVolume(queue: seq<Entry>)
    requires AllPositive(queue)
    ensures Volume(queue) == 0 <==> queue == []
  {
  }

  /** Inserting at the position the binary search finds, when the level exists. */
  lemma {:induction false} InsertExisting(levels: seq<Level>, desc: bool, price: u64, e: Entry, k: nat)
    requires k < |levels| && levels[k].price == price
    requires forall i | 0 <= i < k :: Better(desc, levels[i].price, price)
    ensures Insert(levels, desc, price, e) == levels[k := Level(price, levels[k].queue + [e])]
  {
    if k > 0 {
      InsertExisting(levels[1..], desc, price, e, k - 1);
    }
  }

  /** And when it has to be opened. */
  lemma {:induction false} InsertNew(levels: seq<Level>, desc: bool, price: u64, e: Entry, k: nat)
    requires k <= |levels|
    requires forall i | 0 <= i < k :: Better(desc, levels[i].price, price)
    requires k < |levels| ==> Better(desc, price, levels[k].price)
    ensures Insert(levels, desc, price, e) == levels[..k] + [Level(price, [e])] + levels[k..]
  {
    if k > 0 {
      InsertNew(levels[1..], desc, price, e, k - 1);
    }
  }

  /** Matching in two stages, the first of which loses no level. */
  lemma MatchedTwice(b: Book, buy: bool, s: Swept, s': Swept, gone: set<string>)
    requires s.lost == None && gone == s.gone + s'.gone
    ensures Matched(Matched(b, buy, s), buy, s') == Matched(b, buy, s'.(gone := gone))
  {
    assert b.live - s.gone - s'.gone == b.live - gone;
  }
}
