/**
 One price level as it is written: orders in an intrusive doubly-linked queue with a cached
 64-bit volume, updated in place.  `queue` and `entries` are the abstract contents.
 */
module LimitQueue {
  import opened BookSpec
  import opened BookLemmas

  function Min(a: u64, b: u64): u64 {
    if a < b then a else b
  }

  /** The queue's value after `qty` units of its first entry are executed. */
  function AfterFill(entries: seq<Entry>, qty: nat): seq<Entry>
    requires entries != []
  {
    if qty < entries[0].rem then [Entry(entries[0].id, entries[0].rem - qty)] + entries[1..] else entries[1..]
  }

  lemma WithoutDrops<T>(s: seq<T>, k: nat)
    requires k < |s| && forall i, j | 0 <= i < j < |s| :: s[i] != s[j]
    ensures s[k] !in Without(s, k)
    ensures forall i | 0 <= i < |s| - 1 :: Without(s, k)[i] == s[if i < k then i else i + 1]
  {
  }

  class Order {
    const id: string
    const side: int
    const kind: int
    const price: u64
    const quantity: u64
    var filled: u64
    var next: Order?
    var prev: Order?
    var limit: Limit?

    constructor (id: string, side: int, kind: int, price: u64, qty: u64)
      ensures Fresh() && AsTicket() == Ticket(id, side, kind, price, qty)
    {
      this.id, this.side, this.kind, this.price, this.quantity := id, side, kind, price, qty;
      filled, next, prev, limit := 0, null, null, null;
    }

    function RemainingQty(): int
      reads this`filled
    {
      quantity - filled
    }

    ghost function AsTicket(): Ticket {
      Ticket(id, side, kind, price, quantity)
    }

    /** As the constructor leaves it: unfilled and linked to nothing. */
    ghost predicate Fresh()
      reads this
    {
      filled == 0 && next == null && prev == null && limit == null
    }
  }

  class Limit {
    const price: u64
    ghost const buy: bool           // the side it was opened on
    var totalVolume: u64
    var head: Order?
    var tail: Order?
    ghost var queue: seq<Order>     // the chain from head to tail
    ghost var entries: seq<Entry>   // its value

    constructor (price: u64, ghost buy: bool)
      ensures Valid() && this.price == price && this.buy == buy && queue == [] && entries == []
    {
      this.price, this.buy := price, buy;
      totalVolume, head, tail := 0, null, null;
      queue, entries := [], [];
    }

    /** The links from head to tail spell out `queue`, both ways. */
    ghost predicate Linked()
      reads this`head, this`tail, this`queue, queue`limit, queue`prev, queue`next
    {
      Forward(queue) && Backward(queue) && Owned(queue)
    }

    ghost predicate Forward(q: seq<Order>)
      reads this`head, q`next
    {
      && head == (if q == [] then null else q[0])
      && (forall i {:trigger q[i].next} | 0 <= i < |q| :: q[i].next == if i == |q| - 1 then null else q[i+1])
    }

    ghost predicate Backward(q: seq<Order>)
      reads this`tail, q`prev
    {
      && tail == (if q == [] then null else q[|q| - 1])
      && (forall i {:trigger q[i].prev} | 0 <= i < |q| :: q[i].prev == if i == 0 then null else q[i-1])
    }

    ghost predicate Owned(q: seq<Order>)
      reads q`limit
    {
      && (forall i | 0 <= i < |q| :: q[i].limit == this && (q[i].side == BUY) == buy)
      && (forall i, j | 0 <= i < j < |q| :: q[i] != q[j])
    }

    /** `entries` is the value of the queue, and the counter is its volume modulo 2^64. */
    ghost predicate Counted()
      reads this`totalVolume, this`queue, this`entries, queue`filled
    {
      && |entries| == |queue|
      && (forall i | 0 <= i < |queue| ::
            queue[i].id == entries[i].id && queue[i].RemainingQty() == entries[i].rem)
      && totalVolume == Volume(entries) % TWO64
    }

    ghost predicate Valid()
      reads this, queue
    {
      Linked() && Counted()
    }

    lemma OwnsQueue()
      requires Valid()
      ensures |entries| == |queue| && (head == null <==> queue == []) && totalVolume == Volume(entries) % TWO64
      ensures head != null ==> head == queue[0] && head.id == entries[0].id && head.RemainingQty() == entries[0].rem
      ensures forall i | 0 <= i < |queue| :: queue[i].limit == this && (i > 0 ==> queue[i] != head)
    {
    }

    lemma QueueAt(k: nat)
      requires Valid() && k < |queue|
      ensures entries[k].id == queue[k].id && (queue[k].side == BUY) == buy
      ensures forall i | 0 <= i < |queue| && i != k :: queue[i] != queue[k]
    {
    }

    /** Execute `qty` units of the first order, which stays linked. */
    method FillFront(qty: u64)
      requires Valid()
      requires head != null && qty <= head.RemainingQty()
      modifies this`totalVolume, this`entries, head`filled
      ensures Valid()
      ensures entries == [Entry(old(entries)[0].id, old(entries)[0].rem - qty)] + old(entries)[1..]
      ensures head.filled == old(head.filled) + qty
    {
      hide Limit.Linked;
      OwnsQueue();
      ModShift(Volume(entries), 0 - qty);
      head.filled := head.filled + qty;
      totalVolume := (totalVolume - qty) % TWO64;
      entries := [Entry(entries[0].id, entries[0].rem - qty)] + entries[1..];
    }

    method PopFront()
      requires Valid() && head != null
      modifies this, queue`next, queue`prev, head`limit
      ensures Valid() && old(queue) != []
      ensures queue == old(queue)[1..] && entries == old(entries)[1..]
      ensures old(head).limit == null
    {
      hide Limit.Linked, Limit.Counted;
      OwnsQueue();
      RemoveOrder(head, 0);
    }

    /** Execute `qty` units of the first order; when exhausted it leaves the queue. */
    method ExecuteFront(qty: u64)
      requires Valid() && AllPositive(entries)
      requires head != null && qty <= head.RemainingQty()
      modifies this, queue
      ensures Valid() && AllPositive(entries)
      ensures old(queue) != [] && old(entries) != [] && old(head) == old(queue)[0]
      ensures old(head.RemainingQty()) == old(entries)[0].rem && old(head).id == old(entries)[0].id
      ensures old(head).RemainingQty() == old(head.RemainingQty()) - qty
      ensures entries == AfterFill(old(entries), qty)
      ensures queue == if qty < old(head.RemainingQty()) then old(queue) else old(queue)[1..]
      ensures forall o | o in old(queue) && (o != old(head) || qty < old(head.RemainingQty())) :: o.limit == this
      ensures qty == old(head.RemainingQty()) ==> old(head).limit == null
    {
      hide Limit.Linked, Limit.Counted;
      OwnsQueue();
      var maker := head;
      FillFront(qty);
      if maker.RemainingQty() == 0 {
        PopFront();
      }
    }

    /** Append to the tail of the queue. */
    method AddOrder(order: Order)
      requires Valid()
      requires order.limit == null && order.next == null && order.prev == null
      requires (order.side == BUY) == buy
      requires order.filled <= order.quantity
      modifies this, order`limit, order`prev, order`next, queue`next
      ensures Valid()
      ensures queue == old(queue) + [order]
      ensures entries == old(entries) + [Entry(order.id, order.RemainingQty())]
    {
      hide Limit.Linked;
      LinkLast(order);
      ghost var e := Entry(order.id, order.RemainingQty());
      VolumeAppend(entries, [e]);
      ModShift(Volume(entries), e.rem);
      totalVolume := (totalVolume + order.RemainingQty()) % TWO64;
      entries := entries + [e];
    }

    method LinkLast(order: Order)
      requires Linked()
      requires order.limit == null && order.next == null && order.prev == null
      requires (order.side == BUY) == buy
      modifies this`head, this`tail, this`queue, order`limit, order`prev, order`next, queue`next
      ensures Linked()
      ensures queue == old(queue) + [order]
    {
      order.limit := this;
      if head == null {
        head := order;
        tail := order;
      } else {
        tail.next := order;
        order.prev := tail;
        order.next := null;
        tail := order;
      }
      queue := queue + [order];
    }

    /** Unlink `order`, which sits at position `k`. */
    method RemoveOrder(order: Order, ghost k: nat)
      requires Valid()
      requires k < |queue| && queue[k] == order
      modifies this, queue`next, queue`prev, order`limit
      ensures Valid()
      ensures queue == Without(old(queue), k)
      ensures entries == Without(old(entries), k)
      ensures order.limit == null && order.next == null && order.prev == null
    {
      hide Limit.Linked, Volume;
      VolumeRemove(entries, k);
      ModShift(Volume(entries), 0 - entries[k].rem);
      Unlink(order, k);
      totalVolume := (totalVolume - order.RemainingQty()) % TWO64;
      entries := Without(entries, k);
    }

    method Unlink(order: Order, ghost k: nat)
      requires Linked()
      requires k < |queue| && queue[k] == order
      modifies this`head, this`tail, this`queue, queue`next, queue`prev, order`limit
      ensures Linked()
      ensures queue == Without(old(queue), k)
      ensures order.limit == null && order.next == null && order.prev == null
    {
      hide Limit.Forward, Limit.Backward, Limit.Owned;
      OwnsRest(k);
      RelinkNext(order, k);
      RelinkPrev(order, k);
      ghost var rest := Without(queue, k);
      assert Forward(rest) && Backward(rest) && Owned(rest);
      order.limit := null;
      order.next := null;
      order.prev := null;
      assert Forward(rest) && Backward(rest) && Owned(rest);
      queue := rest;
    }

    lemma OwnsRest(k: nat)
      requires Owned(queue) && k < |queue|
      ensures queue[k] !in Without(queue, k) && Owned(Without(queue, k))
      ensures forall o | o in Without(queue, k) :: o in queue
    {
      WithoutDrops(queue, k);
    }

    /** Route the forward chain around position `k`. */
    method RelinkNext(order: Order, ghost k: nat)
      requires Linked() && k < |queue| && queue[k] == order
      modifies this`head, queue`next
      ensures Forward(Without(queue, k))
      ensures order.next == if k == |queue| - 1 then null else queue[k+1]
    {
      ghost var q := queue;
      assert order.prev == (if k == 0 then null else q[k-1]) && order.next == if k == |q| - 1 then null else q[k+1];
      if order.prev != null {
        order.prev.next := order.next;
      } else {
        head := order.next;
      }
      WithoutDrops(queue, k);
    }

    /** Route the backward chain around position `k`. */
    method RelinkPrev(order: Order, ghost k: nat)
      requires Backward(queue) && Owned(queue) && k < |queue| && queue[k] == order
      requires order.next == if k == |queue| - 1 then null else queue[k+1]
      modifies this`tail, queue`prev
      ensures Backward(Without(queue, k))
    {
      assert order.prev == if k == 0 then null else queue[k-1];
      if order.next != null {
        order.next.prev := order.prev;
      } else {
        tail := order.prev;
      }
      WithoutDrops(queue, k);
      ghost var rest := Without(queue, k);
      assert k + 1 == |queue| && k > 0 ==> rest[|rest| - 1] == queue[k-1];
    }
  }
}
