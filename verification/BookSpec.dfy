/**
 The order book as a value: what one call of the engine computes.

 A book has two sides, each a list of price levels, and the cancel index.  The functions follow
 the engine branch by branch, including the unsigned 64-bit volume counter that decides when a
 level is dropped, and take sides and order types as plain integers because the engine does.  Ids
 may repeat, and a level whose counter wraps to zero is dropped with its orders: the book keeps
 such levels aside, since the index still reaches into them.
 */
module BookSpec {
  import opened Options

  const TWO64: int := 0x1_0000_0000_0000_0000

  type u64 = x: int | 0 <= x < TWO64

  // The engine's enumerations; any other integer is accepted too.
  const BUY := 0
  const SELL := 1
  const LIMIT := 0
  const MARKET := 1

  /** The immutable part of an incoming order. */
  datatype Ticket = Ticket(id: string, side: int, kind: int, price: u64, qty: u64)

  /** A resting order inside its level. */
  datatype Entry = Entry(id: string, rem: nat)

  datatype Level = Level(price: u64, queue: seq<Entry>)

  datatype Trade = Trade(maker: string, taker: string, price: u64, qty: nat)

  /**
   Where the index finds an order: in the level of a price on a side, or in a lost level.  Of
   several orders with one id in that level it means the youngest.
   */
  datatype Spot = Listed(buy: bool, price: u64) | Lost(buy: bool, k: nat)

  /** `live` is the cancel index, `lost` are the levels that were dropped with orders in them. */
  datatype Book = Book(bids: seq<Level>, asks: seq<Level>, live: map<string, Spot>, lost: seq<Level>) {
    /** The buy side or the sell side. */
    function Side(buy: bool): seq<Level> {
      if buy then bids else asks
    }

    function WithSide(buy: bool, levels: seq<Level>): Book {
      if buy then this.(bids := levels) else this.(asks := levels)
    }

    /** The list of levels a spot points into. */
    function List(s: Spot): seq<Level> {
      if s.Listed? then Side(s.buy) else lost
    }

    /** The position of the level in that list. */
    function Position(s: Spot): nat {
      match s case Listed(buy, price) => At(Side(buy), price) case Lost(_, k) => k
    }

    function WithList(s: Spot, levels: seq<Level>): Book {
      if s.Listed? then WithSide(s.buy, levels) else this.(lost := levels)
    }
  }

  const EMPTY: Book := Book([], [], map[], [])

  function Without<T>(s: seq<T>, k: nat): seq<T>
    requires k < |s|
  {
    s[..k] + s[k+1..]
  }

  /** Position of the first level of this price, or the number of levels. */
  function At(levels: seq<Level>, price: u64): (j: nat)
    ensures j <= |levels|
    ensures j < |levels| ==> levels[j].price == price
    ensures forall i | 0 <= i < j :: levels[i].price != price
  {
    if levels == [] || levels[0].price == price then 0 else 1 + At(levels[1..], price)
  }

  /** Strictly better price on a side: higher for bids (`desc`), lower for asks. */
  predicate Better(desc: bool, p: u64, q: u64) {
    if desc then p > q else p < q
  }

  /** May the taker trade at price `p`?  Only limit orders of a named side are held to a price. */
  predicate Crosses(t: Ticket, p: u64) {
    t.kind == LIMIT ==>
      && (t.side == BUY ==> p <= t.price)
      && (t.side == SELL ==> t.price <= p)
  }

  function Volume(queue: seq<Entry>): nat {
    if queue == [] then 0 else queue[0].rem + Volume(queue[1..])
  }

  // ---- losing a level ---------------------------------------------------------------------

  /** The level, if it still holds orders. */
  function Stock(l: Level): Option<Level> {
    if l.queue == [] then None else Some(l)
  }

  /** A spot after the level of this price became the `k`-th lost one. */
  function LostSpot(s: Spot, buy: bool, price: u64, k: nat): Spot {
    if s == Listed(buy, price) then Lost(buy, k) else s
  }

  /** The index after level `l` of a side became the `k`-th lost one. */
  function LostIndex(live: map<string, Spot>, buy: bool, k: nat, l: Option<Level>): map<string, Spot> {
    if l == None then live
    else map id | id in live :: LostSpot(live[id], buy, l.value.price, k)
  }

  function LostLevels(lost: seq<Level>, l: Option<Level>): seq<Level> {
    if l == None then lost else lost + [l.value]
  }

  /** The book after level `l` has left the side `buy`. */
  function Lose(b: Book, buy: bool, l: Option<Level>): Book {
    b.(live := LostIndex(b.live, buy, |b.lost|, l), lost := LostLevels(b.lost, l))
  }

  /** Cut a level out of its side, orders or no orders. */
  function Cut(b: Book, buy: bool, j: nat): Book
    requires j < |b.Side(buy)|
  {
    Lose(b.WithSide(buy, Without(b.Side(buy), j)), buy, Stock(b.Side(buy)[j]))
  }

  // ---- matching -------------------------------------------------------------------------

  datatype Filled = Filled(queue: seq<Entry>, trades: seq<Trade>, left: nat, gone: set<string>)

  /** Fill `q` units from the front of one level's queue. */
  function FillQueue(queue: seq<Entry>, q: nat, taker: string, price: u64): Filled {
    if queue == [] || q == 0 then
      Filled(queue, [], q, {})
    else if q < queue[0].rem then
      Filled([Entry(queue[0].id, queue[0].rem - q)] + queue[1..],
             [Trade(queue[0].id, taker, price, q)], 0, {})
    else
      var r := FillQueue(queue[1..], q - queue[0].rem, taker, price);
      Filled(r.queue, [Trade(queue[0].id, taker, price, queue[0].rem)] + r.trades, r.left,
             {queue[0].id} + r.gone)
  }

  datatype Swept =
    Swept(levels: seq<Level>, trades: seq<Trade>, left: nat, gone: set<string>, lost: Option<Level>)

  /** Fill level after level while the price allows.  A level goes when its 64-bit counter reads zero. */
  function Sweep(levels: seq<Level>, t: Ticket, q: nat): Swept {
    if levels == [] || q == 0 || !Crosses(t, levels[0].price) then
      Swept(levels, [], q, {}, None)
    else
      var f := FillQueue(levels[0].queue, q, t.id, levels[0].price);
      if Volume(f.queue) % TWO64 == 0 then
        var r := Sweep(levels[1..], t, f.left);
        Swept(r.levels, f.trades + r.trades, r.left, f.gone + r.gone,
              if f.queue == [] then r.lost else Some(Level(levels[0].price, f.queue)))
      else
        Swept([Level(levels[0].price, f.queue)] + levels[1..], f.trades, f.left, f.gone, None)
  }

  /** Append to the level of this price, or open the level at its sorted place. */
  function Insert(levels: seq<Level>, desc: bool, price: u64, e: Entry): seq<Level> {
    if levels == [] || Better(desc, price, levels[0].price) then
      [Level(price, [e])] + levels
    else if levels[0].price == price then
      [Level(price, levels[0].queue + [e])] + levels[1..]
    else
      [levels[0]] + Insert(levels[1..], desc, price, e)
  }

  datatype Processed = Processed(book: Book, trades: seq<Trade>)

  /** The book after matching alone, and then with a remainder resting in it. */
  function Matched(b: Book, buy: bool, s: Swept): Book {
    Lose(b.WithSide(!buy, s.levels).(live := b.live - s.gone), !buy, s.lost)
  }

  function Rested(b: Book, buy: bool, price: u64, e: Entry): Book {
    b.WithSide(buy, Insert(b.Side(buy), buy, price, e)).(live := b.live[e.id := Listed(buy, price)])
  }

  function Process(b: Book, t: Ticket): Processed {
    if t.qty == 0 then
      Processed(b, [])
    else
      var buy := t.side == BUY;
      var s := Sweep(b.Side(!buy), t, t.qty);
      var b' := Matched(b, buy, s);
      if s.left > 0 && t.kind == LIMIT then
        Processed(Rested(b', buy, t.price, Entry(t.id, s.left)), s.trades)
      else
        Processed(b', s.trades)
  }

  // ---- cancelling -----------------------------------------------------------------------

  /** Last position of `id` in a queue, or its length. */
  function FindLast(queue: seq<Entry>, id: string): (k: nat)
    ensures k <= |queue|
    ensures k < |queue| ==> queue[k].id == id
    ensures forall i | k < i < |queue| :: queue[i].id != id
    ensures k == |queue| ==> forall i | 0 <= i < |queue| :: queue[i].id != id
  {
    if queue == [] then 0
    else if queue[|queue| - 1].id == id then |queue| - 1
    else
      var k := FindLast(queue[..|queue| - 1], id);
      if k == |queue| - 1 then |queue| else k
  }

  /** The index leads to an order of this id. */
  predicate Found(b: Book, id: string) {
    id in b.live &&
    var s := b.live[id];
    b.Position(s) < |b.List(s)| &&
    var queue := b.List(s)[b.Position(s)].queue;
    FindLast(queue, id) < |queue|
  }

  /** The order the index leads to. */
  function Target(b: Book, id: string): Entry
    requires Found(b, id)
  {
    var queue := b.List(b.live[id])[b.Position(b.live[id])].queue;
    queue[FindLast(queue, id)]
  }

  /** Its level once the order has left. */
  function Shortened(b: Book, id: string): Level
    requires Found(b, id)
  {
    var l := b.List(b.live[id])[b.Position(b.live[id])];
    Level(l.price, Without(l.queue, FindLast(l.queue, id)))
  }

  /** The book once the order has left its queue and the index, all levels still in place. */
  function Detached(b: Book, id: string): Book
    requires Found(b, id)
  {
    var s := b.live[id];
    b.WithList(s, b.List(s)[b.Position(s) := Shortened(b, id)]).(live := b.live - {id})
  }

  /** Cut out the level of this price, if the side has one. */
  function DropLevel(b: Book, buy: bool, price: u64): Book {
    var j := At(b.Side(buy), price);
    if j < |b.Side(buy)| then Cut(b, buy, j) else b
  }

  datatype Cancelled = Cancelled(book: Book, ok: bool)

  /**
   When the counter of the order's own level reads zero, the level of that price goes, which is
   another level if the own one was lost before.
   */
  function Cancel(b: Book, id: string): Cancelled {
    if id !in b.live then Cancelled(b, false)
    else if !Found(b, id) then Cancelled(b.(live := b.live - {id}), true)
    else
      var l := Shortened(b, id);
      var b' := Detached(b, id);
      Cancelled(if Volume(l.queue) % TWO64 == 0 then DropLevel(b', b.live[id].buy, l.price) else b', true)
  }

  // ---- depth ----------------------------------------------------------------------------

  datatype PriceLevel = PriceLevel(price: u64, volume: u64)

  function SideDepth(levels: seq<Level>, n: nat): seq<PriceLevel> {
    seq(if |levels| < n then |levels| else n,
        i requires 0 <= i < |levels| => PriceLevel(levels[i].price, Volume(levels[i].queue) % TWO64))
  }

  datatype Depth = Depth(bids: seq<PriceLevel>, asks: seq<PriceLevel>)

  function DepthOf(b: Book, n: nat): Depth {
    Depth(SideDepth(b.bids, n), SideDepth(b.asks, n))
  }
}
