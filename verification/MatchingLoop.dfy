/** The loop that owns the book, as it is written; each case of its select is a method. */
module MatchingLoop {
  import opened Options
  import opened BookSpec
  import opened LimitQueue
  import opened Engine
  import opened Invariants
  import opened Cancelling
  import opened Runs
  import opened Exchange
  import Execution

  /** What a round of the loop sees: a request from the channel, or the ticker. */
  datatype Input = Request(op: Op) | TickFires

  function Requests(inputs: seq<Input>): seq<Op> {
    if inputs == [] then []
    else Requests(inputs[..|inputs| - 1]) +
         match inputs[|inputs| - 1] case Request(op) => [op] case TickFires => []
  }

  /** One response per request, each the sequential one. */
  predicate AllAnswered(reqs: seq<Op>, resps: seq<Response>) {
    |resps| == |reqs| && forall h | 0 <= h < |resps| :: resps[h] == SequentialAnswer(reqs, h)
  }

  /** Has the book changed since the last tick?  A place always counts, a cancel if it succeeds. */
  predicate Changed(inputs: seq<Input>) {
    inputs != [] &&
    var front := inputs[..|inputs| - 1];
    match inputs[|inputs| - 1]
    case TickFires => false
    case Request(op) => Changed(front) || op.Submit? || Answer(Run(Requests(front)).book, op).success
  }

  /** What the last input makes the loop send out. */
  function LastEvent(inputs: seq<Input>): seq<Event>
    requires inputs != []
  {
    var front := inputs[..|inputs| - 1];
    var b := Run(Requests(front)).book;
    match inputs[|inputs| - 1]
    case TickFires => if Changed(front) then [DepthEvent(DepthOf(b, DEPTH))] else []
    case Request(op) => if Answer(b, op).trades != [] then [TradeEvent(Answer(b, op).trades)] else []
  }

  /** Everything the loop sends out, in order. */
  function Events(inputs: seq<Input>): seq<Event> {
    if inputs == [] then [] else Events(inputs[..|inputs| - 1]) + LastEvent(inputs)
  }

  /** Every batch of trades goes out once, in the order of the requests, whenever the ticker fires. */
  lemma {:induction false} TradesInOrder(inputs: seq<Input>)
    ensures OnlyTrades(Events(inputs)) == TradeEvents(Requests(inputs))
  {
    hide Answer, Run, DepthOf, Changed, LastEvent, OnlyTrades, TradeEvents;
    if inputs == [] {
      NoEvents();
    } else {
      TradesInOrder(inputs[..|inputs| - 1]);
      LastTrades(inputs);
      OnlyTradesMore(Events(inputs[..|inputs| - 1]), LastEvent(inputs));
    }
  }

  lemma NoEvents()
    ensures OnlyTrades([]) == [] && TradeEvents([]) == []
  {
  }

  lemma OnlyTradesMore(events: seq<Event>, more: seq<Event>)
    requires |more| <= 1
    ensures OnlyTrades(events + more) == OnlyTrades(events) + OnlyTrades(more)
  {
    if more == [] {
      assert events + more == events;
    } else {
      assert more == [more[0]];
      OnlyTradesAppend(events, more[0]);
      OnlyTradesAppend([], more[0]);
      assert [] + [more[0]] == more;
    }
  }

  lemma LastTrades(inputs: seq<Input>)
    requires inputs != []
    ensures |LastEvent(inputs)| <= 1
    ensures TradeEvents(Requests(inputs)) == TradeEvents(Requests(inputs[..|inputs| - 1])) + OnlyTrades(LastEvent(inputs))
  {
    hide Answer, Run, DepthOf, Changed;
    var reqs := Requests(inputs[..|inputs| - 1]);
    match inputs[|inputs| - 1]
    case TickFires =>
      assert Requests(inputs) == reqs;
    case Request(op) =>
      assert (reqs + [op])[..|reqs|] == reqs;
  }

  lemma NextAnswer(reqs: seq<Op>, resps: seq<Response>, op: Op)
    requires AllAnswered(reqs, resps)
    ensures AllAnswered(reqs + [op], resps + [Answer(Run(reqs).book, op)])
  {
    hide Answer, Run;
    var reqs' := reqs + [op];
    assert reqs'[..|reqs|] == reqs;
    assert forall h | 0 <= h < |reqs| :: reqs'[..h] == reqs[..h] && reqs'[h] == reqs[h];
  }

  lemma NextBook(reqs: seq<Op>, op: Op)
    ensures Run(reqs + [op]).book == BookAfter(Run(reqs).book, op)
  {
    hide Process, Cancel;
    assert (reqs + [op])[..|reqs|] == reqs;
  }

  class Loop {
    const ob: OrderBook
    var bookChanged: bool
    var depthCache: Depth
    ghost var served: seq<Op>   // the requests so far
    ghost var cacheAt: nat      // how many of them the cache has seen

    constructor ()
      ensures Valid() && fresh(ob) && fresh(ob.limits) && fresh(ob.members)
      ensures served == [] && !bookChanged && depthCache == Depth([], [])
    {
      ob := new OrderBook();
      bookChanged, depthCache := false, Depth([], []);
      served, cacheAt := [], 0;
    }

    /**
     The heap book is that of the requests served, the cache is the depth of a past book, and of the
     present one unless a change waits for the ticker.
     */
    ghost predicate Valid()
      reads this, ob, ob.limits, ob.members, ob.bids, ob.asks, ob.lost
    {
      && ob.Valid() && ob.View() == Run(served).book
      && cacheAt <= |served| && depthCache == DepthOf(Run(served[..cacheAt]).book, DEPTH)
      && (!bookChanged ==> depthCache == DepthOf(ob.View(), DEPTH))
    }

    /** One more request is served. */
    ghost method Serve(op: Op)
      requires ob.Valid() && ob.View() == BookAfter(Run(served).book, op) && bookChanged
      requires cacheAt <= |served| && depthCache == DepthOf(Run(served[..cacheAt]).book, DEPTH)
      modifies this`served
      ensures Valid() && served == old(served) + [op]
    {
      hide OrderBook.Valid, OrderBook.View, Run, BookAfter, DepthOf;
      NextBook(served, op);
      assert (served + [op])[..cacheAt] == served[..cacheAt];
      served := served + [op];
    }

    method HandlePlace(order: Order) returns (resp: Response, event: Option<Event>)
      requires Valid() && order !in ob.members && order.Fresh()
      modifies this`bookChanged, this`served, ob, ob.limits, ob.members, order
      ensures Valid() && bookChanged && served == old(served) + [Submit(order.AsTicket())]
      ensures fresh(ob.limits - old(ob.limits)) && ob.members <= old(ob.members) + {order}
      ensures resp == Answer(Run(old(served)).book, Submit(order.AsTicket()))
      ensures resp.success && resp.error == "" && Execution.Traded(resp.trades) == order.filled
      ensures resp.trades == BookSpec.Process(old(ob.View()), order.AsTicket()).trades
      ensures event == if resp.trades != [] then Some(TradeEvent(resp.trades)) else None
    {
      hide OrderBook.Valid, OrderBook.View, OrderBook.Exact, Run, Process, DepthOf, Ordered;
      var trades := ob.Process(order);
      resp := Response(true, trades, "");
      bookChanged := true;
      event := None;
      if |trades| > 0 {
        event := Some(TradeEvent(trades));
      }
      Serve(Submit(order.AsTicket()));
    }

    method HandleCancel(id: string) returns (resp: Response)
      requires Valid()
      modifies this`bookChanged, this`served, ob, ob.limits, ob.members
      ensures Valid() && bookChanged == (old(bookChanged) || resp.success)
      ensures served == old(served) + [Withdraw(id)]
      ensures ob.limits == old(ob.limits) && ob.members == old(ob.members)
      ensures resp == Answer(Run(old(served)).book, Withdraw(id))
      ensures (resp.success <==> id in old(ob.orders)) && resp.trades == []
      ensures resp.error == if resp.success then "" else "order not found"
    {
      hide OrderBook.Valid, OrderBook.View, OrderBook.Exact, Run, Cancel, DepthOf, Ordered, Found;
      ghost var b := ob.View();
      CancelForgets(b, id);
      NextBook(served, Withdraw(id));
      assert (served + [Withdraw(id)])[..cacheAt] == served[..cacheAt];
      var success := ob.Cancel(id);
      served := served + [Withdraw(id)];
      if success {
        resp := Response(true, [], "");
        bookChanged := true;
      } else {
        resp := Response(false, [], "order not found");
      }
    }

    method Tick() returns (event: Option<Event>)
      requires Valid()
      modifies this`bookChanged, this`depthCache, this`cacheAt
      ensures Valid() && !bookChanged && old(cacheAt) <= cacheAt && depthCache == DepthOf(Run(served).book, DEPTH)
      ensures event == if old(bookChanged) then Some(DepthEvent(depthCache)) else None
    {
      hide OrderBook.Valid, OrderBook.View, Run, DepthOf;
      event := None;
      if bookChanged {
        depthCache := ob.GetDepth(DEPTH);
        event := Some(DepthEvent(depthCache));
        bookChanged := false;
        cacheAt := |served|;
        assert served[..cacheAt] == served;
      }
    }

    /** One round of the select. */
    method Round(input: Input) returns (resps: seq<Response>, events: seq<Event>)
      requires Valid()
      modifies this, ob, ob.limits, ob.members
      ensures Valid() && fresh(ob.limits - old(ob.limits)) && fresh(ob.members - old(ob.members))
      ensures old(cacheAt) <= cacheAt
      ensures
        var b := Run(old(served)).book;
        match input
        case Request(op) =>
          && served == old(served) + [op] && resps == [Answer(b, op)]
          && bookChanged == (old(bookChanged) || op.Submit? || Answer(b, op).success)
          && events == if Answer(b, op).trades != [] then [TradeEvent(Answer(b, op).trades)] else []
        case TickFires =>
          && served == old(served) && resps == [] && !bookChanged
          && events == if old(bookChanged) then [DepthEvent(DepthOf(b, DEPTH))] else []
    {
      hide OrderBook.Valid, OrderBook.View, Run, Process, Cancel, DepthOf;
      resps, events := [], [];
      match input
      case Request(Submit(t)) =>
        var order := new Order(t.id, t.side, t.kind, t.price, t.qty);
        var resp, event := HandlePlace(order);
        resps := [resp];
        if event.Some? { events := [event.value]; }
      case Request(Withdraw(id)) =>
        var resp := HandleCancel(id);
        resps := [resp];
      case TickFires =>
        var event := Tick();
        if event.Some? { events := [event.value]; }
    }

    /**
     The loop itself, over the inputs its select happens to see, whatever they are: the heap book is
     that of the requests in order, every request gets its sequential answer, and the events are those
     of the sequential run.
     */
    method RunMatchingLoop(inputs: seq<Input>) returns (resps: seq<Response>, events: seq<Event>)
      requires Valid() && served == [] && !bookChanged
      modifies this, ob, ob.limits, ob.members
      ensures Valid() && served == Requests(inputs) && Ordered(ob.View())
      ensures AllAnswered(Requests(inputs), resps) && events == Events(inputs) && bookChanged == Changed(inputs)
    {
      hide OrderBook.Valid, OrderBook.View, Run, Answer, DepthOf, AllAnswered, Ordered;
      resps, events := [], [];
      NothingAnswered();
      for i := 0 to |inputs|
        invariant Valid() && fresh(ob.limits - old(ob.limits)) && fresh(ob.members - old(ob.members))
        invariant served == Requests(inputs[..i]) && bookChanged == Changed(inputs[..i])
        invariant AllAnswered(served, resps) && events == Events(inputs[..i])
      {
        assert inputs[..i+1][..i] == inputs[..i];
        if inputs[i].Request? {
          NextAnswer(served, resps, inputs[i].op);
        }
        var rs, es := Round(inputs[i]);
        assert inputs[i].TickFires? ==> resps + rs == resps;
        resps, events := resps + rs, events + es;
      }
      assert inputs[..|inputs|] == inputs;
      AlwaysOrdered(served);
    }
  }

  lemma NothingAnswered()
    ensures AllAnswered([], [])
  {
  }
}
