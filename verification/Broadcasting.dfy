/**
 The broadcast hub and its clients' bounded channels.  `TrySend` and `Close` demand an open
 channel, as Go does on pain of a panic, so their calls in the hub are proved never to panic.
 */
module Broadcasting {

  const SEND_CAPACITY := 256

  class Client<M> {
    var buffer: seq<M>        // the send channel
    var open: bool
    ghost var drained: seq<M>   // what the write pump has taken out
    ghost var since: nat        // how many messages had been broadcast when it was registered
    ghost var until: nat        // and up to which one it has been served

    constructor ()
      ensures buffer == [] && open && drained == []
    {
      buffer, open := [], true;
      drained, since, until := [], 0, 0;
    }

    /** A non-blocking send: it fails when the channel is full. */
    method TrySend(message: M) returns (sent: bool)
      requires open
      modifies this`buffer
      ensures sent == (|old(buffer)| < SEND_CAPACITY)
      ensures buffer == if sent then old(buffer) + [message] else old(buffer)
    {
      sent := |buffer| < SEND_CAPACITY;
      if sent {
        buffer := buffer + [message];
      }
    }

    method Close()
      requires open
      modifies this`open
      ensures !open
    {
      open := false;
    }

    /** The write pump takes the oldest message; a closed channel can still be drained. */
    method Drain() returns (message: M)
      requires buffer != []
      modifies this`buffer, this`drained
      ensures [message] + buffer == old(buffer) && drained == old(drained) + [message]
    {
      message := buffer[0];
      buffer := buffer[1..];
      drained := drained + [message];
    }
  }

  class Hub<M> {
    var clients: set<Client<M>>
    ghost var known: set<Client<M>>   // everybody who ever registered
    ghost var log: seq<M>             // everything broadcast so far

    constructor ()
      ensures Valid() && clients == {} && known == {} && log == []
    {
      clients, known, log := {}, {}, [];
    }

    /** The hub's members are exactly the registered clients whose channel is open. */
    ghost predicate Valid()
      reads this, known
    {
      && clients <= known
      && (forall c | c in known :: (c in clients <==> c.open) && Served(c, log))
      && (forall c | c in clients :: c.until == |log|)
    }

    /** What a client got, drained or still buffered, is a gap-free stretch of the broadcasts. */
    ghost predicate Served(c: Client<M>, log: seq<M>)
      reads c
    {
      && |c.buffer| <= SEND_CAPACITY && c.since <= c.until <= |log|
      && c.drained + c.buffer == log[c.since..c.until]
    }

    /** The members, with the number of messages waiting for each. */
    ghost function Backlog(): map<Client<M>, nat>
      reads this, clients
    {
      map c | c in clients :: |c.buffer|
    }

    /** A connection registers the client it has just made. */
    method Register(client: Client<M>)
      requires Valid() && client !in known
      requires client.open && client.buffer == [] && client.drained == []
      modifies this, client`since, client`until
      ensures Valid() && clients == old(clients) + {client} && known == old(known) + {client} && log == old(log)
      ensures client.since == |log|
      ensures Backlog() == NextBacklog(old(Backlog()), Registers(client))
    {
      client.since, client.until := |log|, |log|;
      known := known + {client};
      clients := clients + {client};
    }

    method Unregister(client: Client<M>)
      requires Valid()
      modifies this`clients, known`open
      ensures Valid() && clients == old(clients) - {client}
      ensures forall c | c in known :: c.open == (old(c.open) && c != client)
    {
      if client in clients {
        clients := clients - {client};
        client.Close();
      }
    }

    /** Every member with room gets the message; a full one is closed and dropped. */
    method Broadcast(message: M)
      requires Valid()
      modifies this`clients, this`log, known`buffer, known`open, known`until
      ensures Valid() && log == old(log) + [message]
      ensures clients == set c | c in old(clients) && old(|c.buffer|) < SEND_CAPACITY
      ensures forall c | c in known ::
                c.buffer == if c in clients then old(c.buffer) + [message] else old(c.buffer)
    {
      Offer(message);
      log := log + [message];
      forall c | c in known ensures Served(c, log) {
        assert old(Served(c, log));
        assert Offered(c, message, c in old(clients), old(c.buffer), old(c.until));
        Longer(c.drained, old(c.buffer), old(log), message, c.since, old(c.until));
      }
    }

    /** The loop over the members, in whatever order. */
    method Offer(message: M)
      requires clients <= known && forall c | c in clients :: c.open
      modifies this`clients, known`buffer, known`open, known`until
      ensures clients == set c | c in old(clients) && old(|c.buffer|) < SEND_CAPACITY
      ensures forall c | c in known :: Offered(c, message, c in old(clients), old(c.buffer), old(c.until))
      ensures forall c | c in known && c !in old(clients) :: c.open == old(c.open)
    {
      var todo := clients;
      while todo != {}
        invariant todo <= old(clients) <= known
        invariant clients == todo + set c | c in old(clients) - todo && old(|c.buffer|) < SEND_CAPACITY
        invariant forall c | c in todo :: c.open && c.until == old(c.until) && c.buffer == old(c.buffer)
        invariant forall c | c in known && c !in todo :: Offered(c, message, c in old(clients), old(c.buffer), old(c.until))
        invariant forall c | c in known && c !in old(clients) :: c.open == old(c.open)
        decreases todo
      {
        var client :| client in todo;
        todo := todo - {client};
        var sent := client.TrySend(message);
        if sent {
          client.until := client.until + 1;
        } else {
          client.Close();
          clients := clients - {client};
        }
      }
    }

    /** The outcome for one client, from its buffer before: served, closed for being full, or not asked. */
    ghost predicate Offered(c: Client<M>, message: M, member: bool, buffer: seq<M>, until: nat)
      reads c
    {
      var sent := member && |buffer| < SEND_CAPACITY;
      && c.buffer == (if sent then buffer + [message] else buffer)
      && c.until == (if sent then until + 1 else until)
      && (member ==> c.open == sent)
    }

    /** A client's write pump moves one message on, whenever there is one. */
    method Pump(client: Client<M>)
      requires Valid() && client in known
      modifies client`buffer, client`drained
      ensures Valid() && client.drained + client.buffer == old(client.drained + client.buffer)
      ensures |client.drained| == |old(client.drained)| + if old(client.buffer) == [] then 0 else 1
      ensures |client.buffer| == |old(client.buffer)| - if old(client.buffer) == [] then 0 else 1
    {
      if client.buffer != [] {
        var message := client.Drain();
        assert client.drained + client.buffer == old(client.drained) + ([message] + client.buffer);
      }
    }

    lemma MembersKnown()
      requires Valid()
      ensures clients <= known
    {
    }

    // The same operations on the backlogs.

    method BroadcastCounted(message: M)
      requires Valid()
      modifies this`clients, this`log, known`buffer, known`open, known`until
      ensures Valid() && log == old(log) + [message] && Backlog() == NextBacklog(old(Backlog()), Broadcasts(message))
    {
      hide Hub.Valid;
      MembersKnown();
      Broadcast(message);
    }

    method UnregisterCounted(client: Client<M>)
      requires Valid()
      modifies this`clients, known`open
      ensures Valid() && Backlog() == NextBacklog(old(Backlog()), Unregisters(client))
    {
      hide Hub.Valid;
      Unregister(client);
    }

    method PumpCounted(client: Client<M>)
      requires Valid() && client in known
      modifies client`buffer, client`drained
      ensures Valid() && Backlog() == NextBacklog(old(Backlog()), Pumps(client))
    {
      hide Hub.Valid;
      Pump(client);
    }

    /** One round of the select, or one move of a write pump. */
    method Step(event: Event<M>)
      requires Valid()
      requires event.Registers? ==> Unused(event.client, known)
      requires event.Pumps? ==> event.client in known
      modifies this, known
      modifies if event.Registers? then {event.client} else {}
      ensures Valid() && log == old(log) + (if event.Broadcasts? then [event.message] else [])
      ensures known == old(known) + (if event.Registers? then {event.client} else {})
      ensures event.Registers? ==> event.client.since == |log|
      ensures forall c | c in old(known) :: c.since == old(c.since)
      ensures Backlog() == NextBacklog(old(Backlog()), event)
    {
      hide NextBacklog, Hub.Backlog;
      match event
      case Registers(c) => Register(c);
      case Unregisters(c) => UnregisterCounted(c);
      case Broadcasts(m) => BroadcastCounted(m);
      case Pumps(c) => PumpCounted(c);
    }

    /**
     The hub over any run in which a client registers once, before its pump starts.  At the end
     every client has got, without a gap, the broadcasts since its own registration.
     */
    method Run(events: seq<Event<M>>, ghost newcomers: set<Client<M>>)
      requires Valid() && Proper(events, known) && Waiting(events, 0, known, newcomers)
      modifies this, known, newcomers
      ensures Valid() && log == old(log) + Messages(events)
      ensures known <= old(known) + newcomers && Joined(events, |events|, known, |old(log)|)
      ensures Backlog() == Backlogs(old(Backlog()), events)
    {
      hide Hub.Valid, NextBacklog, Hub.Backlog;
      for n := 0 to |events|
        invariant Valid() && log == old(log) + Messages(events[..n])
        invariant old(known) <= known <= old(known) + newcomers
        invariant Waiting(events, n, known, newcomers)
        invariant Joined(events, n, known, |old(log)|)
        invariant Backlog() == Backlogs(old(Backlog()), events[..n])
      {
        assert events[..n+1][..n] == events[..n];
        Step(events[n]);
      }
      assert events[..|events|] == events;
    }
  }

  /** One more broadcast, for a client that gets it and for one that does not. */
  lemma Longer<M>(drained: seq<M>, buffer: seq<M>, log: seq<M>, message: M, since: nat, until: nat)
    requires since <= until <= |log| && drained + buffer == log[since..until]
    ensures drained + buffer == (log + [message])[since..until]
    ensures until == |log| ==> drained + (buffer + [message]) == (log + [message])[since..until + 1]
  {
  }

  /** A client as its connection makes it, not registered yet. */
  ghost predicate Unused<M>(c: Client<M>, known: set<Client<M>>)
    reads c
  {
    c !in known && c.open && c.buffer == [] && c.drained == []
  }

  datatype Event<M> =
    | Registers(client: Client<M>)
    | Unregisters(client: Client<M>)
    | Broadcasts(message: M)
    | Pumps(client: Client<M>)

  /** The clients that register from event `n` on have not registered before. */
  ghost predicate Waiting<M>(events: seq<Event<M>>, n: nat, known: set<Client<M>>, newcomers: set<Client<M>>)
    reads newcomers
  {
    forall i | n <= i < |events| && events[i].Registers? ::
      events[i].client in newcomers && Unused(events[i].client, known)
  }

  /** The clients of the first `n` events are known, and their service starts at their registration. */
  ghost predicate Joined<M>(events: seq<Event<M>>, n: nat, known: set<Client<M>>, start: nat)
    requires n <= |events|
    reads known
  {
    forall i | 0 <= i < n && events[i].Registers? ::
      events[i].client in known && events[i].client.since == start + |Messages(events[..i])|
  }

  /** Nobody registers twice, and pumps only run for registered clients. */
  ghost predicate Proper<M>(events: seq<Event<M>>, known: set<Client<M>>) {
    && (forall i, j | 0 <= i < j < |events| && events[i].Registers? && events[j].Registers? ::
          events[i].client != events[j].client)
    && (forall j | 0 <= j < |events| && events[j].Pumps? ::
          events[j].client in known || exists i | 0 <= i < j :: events[i] == Registers(events[j].client))
  }

  ghost function Messages<M>(events: seq<Event<M>>): seq<M> {
    if events == [] then []
    else Messages(events[..|events| - 1]) +
         if events[|events| - 1].Broadcasts? then [events[|events| - 1].message] else []
  }

  // ---- who is a member -----------------------------------------------------------------------------------

  /** One event on the members and their backlogs. */
  ghost function NextBacklog<M>(m: map<Client<M>, nat>, event: Event<M>): map<Client<M>, nat> {
    match event
    case Registers(c) => m[c := 0]
    case Unregisters(c) => m - {c}
    case Broadcasts(_) => map c | c in m && m[c] < SEND_CAPACITY :: m[c] + 1
    case Pumps(c) => if c in m && m[c] > 0 then m[c := m[c] - 1] else m
  }

  ghost function Backlogs<M>(start: map<Client<M>, nat>, events: seq<Event<M>>): map<Client<M>, nat> {
    if events == [] then start
    else NextBacklog(Backlogs(start, events[..|events| - 1]), events[|events| - 1])
  }

  /** From event `i` on the client was not unregistered, and no broadcast found 256 messages waiting for it. */
  ghost predicate Kept<M>(start: map<Client<M>, nat>, events: seq<Event<M>>, i: nat, c: Client<M>) {
    forall j | i <= j < |events| ::
      && events[j] != Unregisters(c)
      && (events[j].Broadcasts? ==> c in Backlogs(start, events[..j]) && Backlogs(start, events[..j])[c] < 256)
  }

  lemma KeptStep<M>(start: map<Client<M>, nat>, events: seq<Event<M>>, i: nat, c: Client<M>)
    requires events != [] && i < |events|
    ensures Kept(start, events, i, c) <==> Kept(start, events[..|events| - 1], i, c) && Stays(start, events, c)
  {
    hide Backlogs;
    var front := events[..|events| - 1];
    assert forall j | 0 <= j < |front| :: front[..j] == events[..j] && front[j] == events[j];
  }

  /** Registered by event `i`, and kept since. */
  ghost predicate JoinedAndKept<M>(start: map<Client<M>, nat>, events: seq<Event<M>>, i: nat, c: Client<M>)
    requires i < |events|
  {
    events[i] == Registers(c) && Kept(start, events, i + 1, c)
  }

  /**
   A client is a member at the end of a run if and only if it was one at the start or has registered,
   and since then was not unregistered and never found full by a broadcast.
   */
  lemma {:induction false} MemberIff<M>(start: map<Client<M>, nat>, events: seq<Event<M>>, c: Client<M>)
    ensures
      c in Backlogs(start, events) <==>
      (c in start && Kept(start, events, 0, c)) || exists i | 0 <= i < |events| :: JoinedAndKept(start, events, i, c)
  {
    hide Kept, Backlogs, JoinedAndKept;
    KeptAtEnd(start, events, c);
    if events == [] {
      NoBacklog(start);
    } else {
      var n := |events| - 1;
      var front := events[..n];
      MemberIff(start, front, c);
      KeptStep(start, events, 0, c);
      LastMember(start, events, c);
      LastJoined(start, events, c);
      if i :| 0 <= i < n && JoinedAndKept(start, front, i, c) {
        JoinedStep(start, events, i, c);
        assert Stays(start, events, c) ==> JoinedAndKept(start, events, i, c);
      }
      if i :| 0 <= i < |events| && JoinedAndKept(start, events, i, c) {
        if i < n {
          JoinedStep(start, events, i, c);
          assert JoinedAndKept(start, front, i, c);
        }
      }
    }
  }

  lemma NoBacklog<M>(start: map<Client<M>, nat>)
    ensures Backlogs(start, []) == start
  {
  }

  /** The last event does not end a membership. */
  ghost predicate Stays<M>(start: map<Client<M>, nat>, events: seq<Event<M>>, c: Client<M>)
    requires events != []
  {
    var last, m := events[|events| - 1], Backlogs(start, events[..|events| - 1]);
    last != Unregisters(c) && (last.Broadcasts? ==> c in m && m[c] < 256)
  }

  lemma JoinedStep<M>(start: map<Client<M>, nat>, events: seq<Event<M>>, i: nat, c: Client<M>)
    requires events != [] && i < |events| - 1
    ensures JoinedAndKept(start, events, i, c) <==>
            JoinedAndKept(start, events[..|events| - 1], i, c) && Stays(start, events, c)
  {
    hide Kept, Backlogs;
    KeptStep(start, events, i + 1, c);
  }

  lemma LastJoined<M>(start: map<Client<M>, nat>, events: seq<Event<M>>, c: Client<M>)
    requires events != []
    ensures JoinedAndKept(start, events, |events| - 1, c) <==> events[|events| - 1] == Registers(c)
  {
    KeptAtEnd(start, events, c);
  }

  lemma KeptAtEnd<M>(start: map<Client<M>, nat>, events: seq<Event<M>>, c: Client<M>)
    ensures Kept(start, events, |events|, c)
  {
  }

  /** What the last event does to a membership. */
  lemma LastMember<M>(start: map<Client<M>, nat>, events: seq<Event<M>>, c: Client<M>)
    requires events != []
    ensures
      var n := |events| - 1;
      c in Backlogs(start, events) <==>
      events[n] == Registers(c) || (c in Backlogs(start, events[..n]) && Stays(start, events, c))
  {
  }
}
