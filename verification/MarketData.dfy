/** From the request channel to the client: the server's events as the hub's clients get them. */
module MarketData {
  import opened Exchange
  import Broadcasting

  lemma {:induction false} OnlyTradesConcat(a: seq<Event>, b: seq<Event>)
    ensures OnlyTrades(a + b) == OnlyTrades(a) + OnlyTrades(b)
  {
    hide OnlyTrades;
    if b == [] {
      assert a + b == a;
      NoTrades();
    } else {
      var front, last := b[..|b| - 1], b[|b| - 1];
      OnlyTradesConcat(a, front);
      assert a + b == a + front + [last] && b == front + [last];
      OnlyTradesAppend(a + front, last);
      OnlyTradesAppend(front, last);
    }
  }

  lemma NoTrades()
    ensures OnlyTrades([]) == []
  {
  }

  /** How many trade events are among the first `k` events. */
  function Batches(events: seq<Event>, k: nat): nat
    requires k <= |events|
  {
    |OnlyTrades(events[..k])|
  }

  /** The trade events in a stretch of events are a stretch of the trade events. */
  lemma TradesOfStretch(events: seq<Event>, i: nat, j: nat)
    requires i <= j <= |events|
    ensures Batches(events, i) <= Batches(events, j) <= |OnlyTrades(events)|
    ensures OnlyTrades(events[i..j]) == OnlyTrades(events)[Batches(events, i)..Batches(events, j)]
  {
    hide OnlyTrades;
    assert events[..j] == events[..i] + events[i..j] && events == events[..j] + events[j..];
    OnlyTradesConcat(events[..i], events[i..j]);
    OnlyTradesConcat(events[..j], events[j..]);
  }

  /** What the hub has taken holds the first batches of trades, in request order. */
  lemma TakenTrades(steps: seq<Step>)
    ensures
      var s := Exec(steps);
      0 <= Served(s) <= |s.arrivals| && OnlyTrades(s.taken) <= TradeEvents(s.arrivals[..Served(s)])
  {
    hide Exec, OnlyTrades, TradeEvents;
    EveryRun(steps);
    var s := Exec(steps);
    var rest := s.outbox + if s.pending.Some? then [s.pending.value] else [];
    assert s.taken + s.outbox + (if s.pending.Some? then [s.pending.value] else []) == s.taken + rest;
    OnlyTradesConcat(s.taken, rest);
  }

  /** `got` is a gap-free stretch of the server's events, and its trades one of the batches in request order. */
  ghost predicate Delivered(got: seq<Event>, s: System, since: nat, until: nat) {
    && since <= until <= |s.taken| && 0 <= Served(s) <= |s.arrivals|
    && got == s.taken[since..until]
    && var batches := TradeEvents(s.arrivals[..Served(s)]);
    && Batches(s.taken, since) <= Batches(s.taken, until) <= |batches|
    && OnlyTrades(got) == batches[Batches(s.taken, since)..Batches(s.taken, until)]
  }

  lemma DeliveredStretch(steps: seq<Step>, since: nat, until: nat)
    requires since <= until <= |Exec(steps).taken|
    ensures Delivered(Exec(steps).taken[since..until], Exec(steps), since, until)
  {
    hide Exec, OnlyTrades, TradeEvents;
    TakenTrades(steps);
    TradesOfStretch(Exec(steps).taken, since, until);
  }

  /**
   The hub behind the server, over any interleaving of the server's parties and any run of the hub
   that takes the server's events: every client has got, drained or still buffered, a gap-free
   stretch of those events from its registration on, and in it the trades in request order.
   */
  method Feed(ghost steps: seq<Step>, hub: Broadcasting.Hub<Event>, events: seq<Broadcasting.Event<Event>>,
              ghost newcomers: set<Broadcasting.Client<Event>>)
    requires hub.Valid() && hub.log == []
    requires Broadcasting.Proper(events, hub.known) && Broadcasting.Waiting(events, 0, hub.known, newcomers)
    requires Broadcasting.Messages(events) == Exec(steps).taken
    modifies hub, hub.known, newcomers
    ensures hub.Valid() && forall c | c in hub.known :: Delivered(c.drained + c.buffer, Exec(steps), c.since, c.until)
    ensures Broadcasting.Joined(events, |events|, hub.known, 0)
  {
    hide Exec, Delivered, OnlyTrades, TradeEvents;
    hub.Run(events, newcomers);
    assert hub.log == Exec(steps).taken;
    forall c | c in hub.known ensures Delivered(c.drained + c.buffer, Exec(steps), c.since, c.until) {
      DeliveredStretch(steps, c.since, c.until);
    }
  }
}
