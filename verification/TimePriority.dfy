/** Time priority over whole runs: nobody behind a resting order trades before it is gone. */
module TimePriority {
  import opened BookSpec
  import opened Priority
  import opened Invariants
  import opened Cancelling
  import opened Runs

  /** `y` is in the list, as it is, behind an order `x` of the same price. */
  ghost predicate Ahead(s: seq<Resting>, x: string, y: Resting) {
    exists i, j :: 0 <= i < j < |s| && s[i].id == x && s[i].price == y.price && s[j] == y
  }

  ghost predicate Rests(s: seq<Resting>, x: string, price: u64) {
    exists i :: 0 <= i < |s| && s[i].id == x && s[i].price == price
  }

  // ---- lists ------------------------------------------------------------------------------------------

  /** `rest` is the end of `s`, in which at most the first order is changed. */
  predicate LaterSame(s: seq<Resting>, rest: seq<Resting>) {
    |rest| <= |s| && forall i | 1 <= i < |rest| :: rest[i] == s[|s| - |rest| + i]
  }

  lemma LaterTail(s: seq<Resting>, rest: seq<Resting>)
    requires s != [] && LaterSame(s[1..], rest)
    ensures LaterSame(s, rest)
  {
    forall i | 1 <= i < |rest| ensures rest[i] == s[|s| - |rest| + i] {
      assert s[1..][|s| - 1 - |rest| + i] == s[|s| - |rest| + i];
    }
  }

  lemma LaterFirst(s: seq<Resting>, first: Resting)
    ensures LaterSame(s, s) && (s != [] ==> LaterSame(s, [first] + s[1..]))
  {
  }

  /** A greedy fill touches at most the first of the orders it leaves. */
  lemma {:induction false} GreedyTouchesFirst(s: seq<Resting>, t: Ticket, q: nat)
    ensures LaterSame(s, Greedy(s, t, q).rest)
  {
    hide LaterSame;
    if s != [] && q > 0 && Crosses(t, s[0].price) && s[0].rem <= q {
      GreedyTouchesFirst(s[1..], t, q - s[0].rem);
      LaterTail(s, Greedy(s, t, q).rest);
    } else {
      LaterFirst(s, if s != [] && q < s[0].rem then s[0].(rem := s[0].rem - q) else Resting("", 0, 0));
    }
  }

  lemma AheadInPlace(s: seq<Resting>, k: nat, r: Resting, x: string, y: Resting)
    requires k <= |s| && Ahead(s, x, y)
    ensures Ahead(s[..k] + [r] + s[k..], x, y)
  {
    var i, j :| 0 <= i < j < |s| && s[i].id == x && s[i].price == y.price && s[j] == y;
    var s' := s[..k] + [r] + s[k..];
    var i', j' := if i < k then i else i + 1, if j < k then j else j + 1;
    assert s'[i'] == s[i] && s'[j'] == s[j];
  }

  /** `s'` is `s` without the `m` orders from position `a` on. */
  predicate Thinned(s: seq<Resting>, s': seq<Resting>, a: nat, m: nat) {
    && |s| == |s'| + m && a <= |s'|
    && (forall n | 0 <= n < a :: s'[n] == s[n]) && (forall n | a <= n < |s'| :: s'[n] == s[n + m])
  }

  lemma IsThinned(a: seq<Resting>, m: seq<Resting>, c: seq<Resting>)
    ensures Thinned(a + m + c, a + c, |a|, |m|)
    ensures forall n | |a| <= n < |a| + |m| :: (a + m + c)[n] in m
  {
    assert forall n | |a| <= n < |a| + |m| :: (a + m + c)[n] == m[n - |a|];
  }

  lemma ThinnedAt(s: seq<Resting>, s': seq<Resting>, a: nat, m: nat, n: nat)
    requires Thinned(s, s', a, m) && n < |s'|
    ensures |s| == |s'| + m && a <= |s'| && s'[n] == s[if n < a then n else n + m]
  {
  }

  lemma AheadAt(s: seq<Resting>, x: string, y: Resting) returns (i: nat, j: nat)
    requires Ahead(s, x, y)
    ensures i < j < |s| && s[i].id == x && s[i].price == y.price && s[j] == y
  {
    i, j :| 0 <= i < j < |s| && s[i].id == x && s[i].price == y.price && s[j] == y;
  }

  lemma RestsAt(s: seq<Resting>, x: string, price: u64) returns (n: nat)
    requires Rests(s, x, price)
    ensures n < |s| && s[n].id == x && s[n].price == price
  {
    n :| 0 <= n < |s| && s[n].id == x && s[n].price == price;
  }

  lemma OneOfId(s: seq<Resting>, i: nat, j: nat)
    requires Distinct(s) && i < |s| && j < |s| && s[i].id == s[j].id
    ensures i == j
  {
  }

  /** Orders leave, but not `y`, and `x` is still there. */
  lemma AheadInThinned(s: seq<Resting>, s': seq<Resting>, a: nat, m: nat, x: string, y: Resting)
    requires Thinned(s, s', a, m) && Distinct(s) && Ahead(s, x, y) && Rests(s', x, y.price)
    requires forall n | a <= n < a + m :: s[n] != y
    ensures Ahead(s', x, y)
  {
    hide Thinned, Distinct, Rests;
    var i, j := AheadAt(s, x, y);
    var n := RestsAt(s', x, y.price);
    ThinnedAt(s, s', a, m, n);
    OneOfId(s, i, if n < a then n else n + m);
    var j' := if j < a then j else j - m;
    ThinnedAt(s, s', a, m, j');
    assert n < j' && s'[j'] == y;
  }

  lemma AheadInThin(a: seq<Resting>, m: seq<Resting>, c: seq<Resting>, x: string, y: Resting)
    requires Distinct(a + m + c) && Ahead(a + m + c, x, y) && Rests(a + c, x, y.price) && y !in m
    ensures Ahead(a + c, x, y)
  {
    hide Ahead, Rests, Distinct, Thinned;
    IsThinned(a, m, c);
    AheadInThinned(a + m + c, a + c, |a|, |m|, x, y);
  }

  lemma RestsInThin(a: seq<Resting>, m: seq<Resting>, c: seq<Resting>, x: string, price: u64)
    requires Rests(a + c, x, price)
    ensures Rests(a + m + c, x, price)
  {
    IsThinned(a, m, c);
    var n :| 0 <= n < |a + c| && (a + c)[n].id == x && (a + c)[n].price == price;
    assert (a + m + c)[if n < |a| then n else n + |m|] == (a + c)[n];
  }

  /** The end of a list, of which the front is lost. */
  lemma AheadInEnd(s: seq<Resting>, lost: seq<Resting>, left: seq<Resting>, x: string, y: Resting)
    requires Distinct(s) && EndOf(s, lost + left) && LaterSame(s, lost + left)
    requires Ahead(s, x, y) && Rests(left, x, y.price)
    ensures Ahead(left, x, y)
  {
    hide Distinct, Rests;
    var rest := lost + left;
    var d := |s| - |rest|;
    var i, j := AheadAt(s, x, y);
    var n := RestsAt(left, x, y.price);
    assert rest[|lost| + n] == left[n] && SameOrder(rest[|lost| + n], s[d + |lost| + n]);
    OneOfId(s, i, d + |lost| + n);
    assert rest[j - d] == s[j] && left[j - i + n] == rest[j - d];
  }

  // ---- one call -----------------------------------------------------------------------------------------

  lemma ProcessKeepsPlace(b: Book, t: Ticket, buy: bool, x: string, y: Resting)
    requires Solid(b) && AllKnown(b) && Ahead(Flat(b.Side(buy)), x, y)
    requires Rests(Flat(Process(b, t).book.Side(buy)), x, y.price)
    ensures Ahead(Flat(Process(b, t).book.Side(buy)), x, y)
  {
    hide Process, Greedy, Flat, Place, Ahead, Rests, Stocked, Ordered, Distinct, Apart, Indexed, EndOf, LaterSame;
    var r, own := Process(b, t).book, t.side == BUY;
    ProcessIsGreedy(b, t);
    if buy == own {
      var k := PlaceSplits(Flat(b.Side(own)), own, Resting(t.id, t.price, Greedy(Flat(b.Side(!own)), t, t.qty).left));
      AheadInPlace(Flat(b.Side(own)), k, Resting(t.id, t.price, Greedy(Flat(b.Side(!own)), t, t.qty).left), x, y);
    } else {
      var f, lost := Flat(b.Side(buy)), r.lost[|b.lost|..];
      GreedyRest(f, t, t.qty);
      GreedyTouchesFirst(f, t, t.qty);
      FlatAppend(lost, r.Side(buy));
      AheadInEnd(f, Flat(lost), Flat(r.Side(buy)), x, y);
    }
  }

  lemma CutKeepsPlace(b: Book, side: bool, j: nat, buy: bool, x: string, y: Resting)
    requires Ordered(b) && AllKnown(b) && j < |b.Side(side)| && Ahead(Flat(b.Side(buy)), x, y)
    requires Rests(Flat(Cut(b, side, j).Side(buy)), x, y.price)
    ensures Ahead(Flat(Cut(b, side, j).Side(buy)), x, y)
  {
    hide Flat, Ahead, Distinct, Apart, Indexed, Uncrossed;
    if side == buy {
      var levels, l := b.Side(buy), b.Side(buy)[j];
      var before, after := levels[..j], levels[j+1..];
      assert levels == before + [l] + after && Without(levels, j) == before + after;
      FlatAppend(before, [l]);
      FlatAppend(before + [l], after);
      FlatAppend(before, after);
      FlatPrices(before, l.price);
      FlatPrices(after, l.price);
      OnePrice(l);
      assert y.price != l.price;
      AheadInThin(Flat(before), Flat([l]), Flat(after), x, y);
    }
  }

  lemma OnePrice(l: Level)
    ensures forall i | 0 <= i < |Flat([l])| :: Flat([l])[i].price == l.price
  {
    FlatCons(l, []);
    assert [l] + [] == [l];
  }

  lemma DetachKeepsPlace(b: Book, id: string, buy: bool, x: string, y: Resting)
    requires AllKnown(b) && Found(b, id) && id != y.id && Ahead(Flat(b.Side(buy)), x, y)
    requires Rests(Flat(Detached(b, id).Side(buy)), x, y.price)
    ensures Ahead(Flat(Detached(b, id).Side(buy)), x, y)
  {
    hide Flat, Ahead, Rests, Distinct, Apart, Indexed, FindLast, At;
    var spot := b.live[id];
    if spot.Listed? && spot.buy == buy {
      var own := b.Side(buy);
      var j := At(own, spot.price);
      var k := FindLast(own[j].queue, id);
      FlatAt(own, j, k);
      FlatWithout(own, j, k);
      var f, pos := Flat(own), FlatPos(own, j, k);
      assert f == f[..pos] + [f[pos]] + f[pos+1..] && Without(f, pos) == f[..pos] + f[pos+1..];
      AheadInThin(f[..pos], [f[pos]], f[pos+1..], x, y);
    }
  }

  lemma CutRests(b: Book, side: bool, j: nat, buy: bool, x: string, price: u64)
    requires j < |b.Side(side)| && Rests(Flat(Cut(b, side, j).Side(buy)), x, price)
    ensures Rests(Flat(b.Side(buy)), x, price)
  {
    hide Flat, Rests;
    if side == buy {
      var levels := b.Side(buy);
      var before, after := levels[..j], levels[j+1..];
      assert levels == before + [levels[j]] + after && Without(levels, j) == before + after;
      FlatAppend(before, [levels[j]]);
      FlatAppend(before + [levels[j]], after);
      FlatAppend(before, after);
      RestsInThin(Flat(before), Flat([levels[j]]), Flat(after), x, price);
    }
  }

  lemma CancelKeepsPlace(b: Book, id: string, buy: bool, x: string, y: Resting)
    requires Ordered(b) && AllKnown(b) && id != y.id && Ahead(Flat(b.Side(buy)), x, y)
    requires Rests(Flat(Cancel(b, id).book.Side(buy)), x, y.price)
    ensures Ahead(Flat(Cancel(b, id).book.Side(buy)), x, y)
  {
    hide Flat, Ahead, Rests, Known, Cut, Detached, Volume, FindLast, At, Ordered;
    if Found(b, id) {
      var b', side, price := Detached(b, id), b.live[id].buy, Shortened(b, id).price;
      var j := At(b'.Side(side), price);
      if Volume(Shortened(b, id).queue) % TWO64 == 0 && j < |b'.Side(side)| {
        CutRests(b', side, j, buy, x, y.price);
        DetachKeepsPlace(b, id, buy, x, y);
        DetachedKnown(b, id);
        DetachedOrdered(b, id);
        CutKeepsPlace(b', side, j, buy, x, y);
      } else {
        DetachKeepsPlace(b, id, buy, x, y);
      }
    }
  }

  // ---- whole runs -----------------------------------------------------------------------------------------

  /** The list of one side after a run. */
  ghost function Queue(ops: seq<Op>, buy: bool): seq<Resting> {
    Flat(Run(ops).book.Side(buy))
  }

  lemma StepKeepsPlace(ops: seq<Op>, buy: bool, x: string, y: Resting)
    requires ops != [] && IdsFree(ops) && ops[|ops| - 1] != Withdraw(y.id)
    requires Ahead(Queue(ops[..|ops| - 1], buy), x, y) && Rests(Queue(ops, buy), x, y.price)
    ensures Ahead(Queue(ops, buy), x, y)
  {
    hide Flat, Ahead, Rests, Solid, AllKnown, Process, Cancel, Found;
    var front, last := ops[..|ops| - 1], ops[|ops| - 1];
    KnownIffIdsFree(ops);
    match last
    case Submit(t) =>
      AlwaysSolid(front);
      ProcessKeepsPlace(Run(front).book, t, buy, x, y);
    case Withdraw(id) =>
      AlwaysOrdered(front);
      CancelKeepsPlace(Run(front).book, id, buy, x, y);
  }

  /**
   In a run without reused ids, an order `y` behind an order `x` of the same price keeps its quantity
   and its place as long as `x` rests and `y` is not cancelled itself.
   */
  lemma {:induction false} NobodyPasses(ops: seq<Op>, k: nat, buy: bool, x: string, y: Resting)
    requires k <= |ops| && IdsFree(ops) && Ahead(Queue(ops[..k], buy), x, y)
    requires forall n | k <= n <= |ops| :: Rests(Queue(ops[..n], buy), x, y.price)
    requires forall n | k <= n < |ops| :: ops[n] != Withdraw(y.id)
    ensures Ahead(Queue(ops, buy), x, y)
  {
    hide Queue, Ahead, Rests, Run, FreeId;
    assert ops[..|ops|] == ops;
    if k < |ops| {
      var front := ops[..|ops| - 1];
      assert forall n | k <= n < |ops| :: front[..n] == ops[..n];
      NobodyPasses(front, k, buy, x, y);
      StepKeepsPlace(ops, buy, x, y);
    }
  }
}
