/**
 The server around the book: handlers queue requests, one loop owns the book and answers
 them, a ticker refreshes a depth cache, and events go out to the hub.  A system state moves
 by one step of one party at a time, so a list of steps is an arbitrary interleaving.
 */
module Exchange {
  import opened Options
  import opened BookSpec
  import opened Cancelling
  import opened Execution
  import opened Runs

  const INBOX_CAPACITY := 100000
  const BROADCAST_CAPACITY := 4096
  const DEPTH := 50

  datatype Response = Response(success: bool, trades: seq<Trade>, error: string)

  datatype Call = Call(handler: nat, req: Op)

  datatype Event = TradeEvent(trades: seq<Trade>) | DepthEvent(depth: Depth)

  /**
   `results` holds the one-slot result channels that have a response in them, `answers` what the
   handlers have received.  `pending` is an event the loop still has to hand over; until it has,
   the loop does nothing else.  `arrivals`, `cacheAt` and `taken` only record history.
   */
  datatype System = System(
    book: Book, changed: bool, cache: Depth,
    inbox: seq<Call>, results: map<nat, Response>, answers: map<nat, Response>,
    pending: Option<Event>, outbox: seq<Event>,
    arrivals: seq<Op>, cacheAt: int, taken: seq<Event>)

  datatype Step =
    | Arrive(req: Op)      // a handler puts its request into the channel
    | Serve                // the loop takes the oldest request and answers it
    | Tick                 // the loop's ticker fires
    | Publish              // the loop hands its event to the hub's channel
    | HubTakes             // the hub takes an event out
    | Collect(handler: nat)  // a handler receives its response

  const START := System(EMPTY, false, Depth([], []), [], map[], map[], None, [], [], 0, [])

  /** The sequential answer to one request. */
  function Answer(b: Book, req: Op): Response {
    match req
    case Submit(t) => Response(true, Process(b, t).trades, "")
    case Withdraw(id) => if Cancel(b, id).ok then Response(true, [], "") else Response(false, [], "order not found")
  }

  /** A place succeeds and reports all its trades; a cancel reports whether the index knew the id. */
  lemma AnswerMeans(b: Book, req: Op)
    ensures
      match req
      case Submit(t) => Answer(b, req) == Response(true, Process(b, t).trades, "")
      case Withdraw(id) =>
        var a := Answer(b, req);
        && (a.success <==> id in b.live) && a.trades == []
        && (a.success ==> a.error == "") && (!a.success ==> a.error == "order not found")
  {
    hide Process;
    if req.Withdraw? {
      CancelForgets(b, req.id);
    }
  }

  function BookAfter(b: Book, req: Op): Book {
    match req
    case Submit(t) => Process(b, t).book
    case Withdraw(id) => Cancel(b, id).book
  }

  function ServeNext(s: System): System
    requires s.inbox != []
  {
    var call := s.inbox[0];
    var resp := Answer(s.book, call.req);
    s.(book := BookAfter(s.book, call.req),
       changed := s.changed || call.req.Submit? || resp.success,
       inbox := s.inbox[1..],
       results := s.results[call.handler := resp],
       pending := if resp.trades != [] then Some(TradeEvent(resp.trades)) else None)
  }

  predicate Enabled(s: System, step: Step) {
    match step
    case Arrive(_) => |s.inbox| < INBOX_CAPACITY
    case Serve => s.pending == None && s.inbox != []
    case Tick => s.pending == None
    case Publish => s.pending != None && |s.outbox| < BROADCAST_CAPACITY
    case HubTakes => s.outbox != []
    case Collect(h) => h in s.results
  }

  /** One step; a party that cannot move waits. */
  function Next(s: System, step: Step): System {
    if !Enabled(s, step) then s else
    match step
    case Arrive(req) => s.(inbox := s.inbox + [Call(|s.arrivals|, req)], arrivals := s.arrivals + [req])
    case Serve => ServeNext(s)
    case Tick =>
      if s.changed then
        var d := DepthOf(s.book, DEPTH);
        s.(cache := d, pending := Some(DepthEvent(d)), cacheAt := |s.arrivals| - |s.inbox|)
      else s
    case Publish =>
      s.(outbox := s.outbox + [s.pending.value], pending := None,
         changed := s.changed && s.pending.value.TradeEvent?)
    case HubTakes => s.(outbox := s.outbox[1..], taken := s.taken + [s.outbox[0]])
    case Collect(h) => s.(results := s.results - {h}, answers := s.answers[h := s.results[h]])
  }

  function Exec(steps: seq<Step>): System {
    if steps == [] then START else Next(Exec(steps[..|steps| - 1]), steps[|steps| - 1])
  }

  // ---- what every interleaving keeps ----------------------------------------------------------------

  /** The events that the first `n` requests cause, in order. */
  function TradeEvents(reqs: seq<Op>): seq<Event> {
    if reqs == [] then []
    else
      var front := reqs[..|reqs| - 1];
      var resp := Answer(Run(front).book, reqs[|reqs| - 1]);
      TradeEvents(front) + if resp.trades != [] then [TradeEvent(resp.trades)] else []
  }

  /** The quantity traded in a list of events. */
  function Reported(events: seq<Event>): nat {
    if events == [] then 0
    else Reported(events[..|events| - 1]) +
         match events[|events| - 1] case TradeEvent(trades) => Traded(trades) case DepthEvent(_) => 0
  }

  lemma ReportedMore(events: seq<Event>, e: Event)
    ensures Reported(events + [e]) == Reported(events) + match e case TradeEvent(ts) => Traded(ts) case DepthEvent(_) => 0
  {
    assert (events + [e])[..|events|] == events;
  }

  /** The feed reports every unit that was traded. */
  lemma {:induction false} FeedIsComplete(reqs: seq<Op>)
    ensures Reported(TradeEvents(reqs)) == Run(reqs).traded
  {
    hide Process, Cancel, Traded, Reported, Found, Target, Answer;
    NothingReported();
    if reqs != [] {
      var front, last := reqs[..|reqs| - 1], reqs[|reqs| - 1];
      FeedIsComplete(front);
      AnswerMeans(Run(front).book, last);
      var trades := Answer(Run(front).book, last).trades;
      if trades != [] {
        ReportedMore(TradeEvents(front), TradeEvent(trades));
      } else {
        assert TradeEvents(front) + [] == TradeEvents(front);
      }
    }
  }

  lemma NothingReported()
    ensures Reported([]) == 0 && Traded([]) == 0
  {
  }

  function OnlyTrades(events: seq<Event>): seq<Event> {
    if events == [] then []
    else OnlyTrades(events[..|events| - 1]) +
         if events[|events| - 1].TradeEvent? then [events[|events| - 1]] else []
  }

  function Served(s: System): int {
    |s.arrivals| - |s.inbox|
  }

  /** The loop has served a prefix of the arrivals, and the channel holds the rest in order. */
  predicate InStep(s: System) {
    && 0 <= Served(s) <= |s.arrivals| && |s.inbox| <= INBOX_CAPACITY && |s.outbox| <= BROADCAST_CAPACITY
    && (forall i | 0 <= i < |s.inbox| :: s.inbox[i] == Call(Served(s) + i, s.arrivals[Served(s) + i]))
    && s.book == Run(s.arrivals[..Served(s)]).book
  }

  /** Served requests have exactly one response, the sequential one; the others have none yet. */
  ghost predicate Answered(s: System) {
    && s.results.Keys !! s.answers.Keys
    && (forall h: nat :: h in s.results || h in s.answers <==> h < Served(s))
    && (forall h | h in s.results :: h < |s.arrivals| && s.results[h] == SequentialAnswer(s.arrivals, h))
    && (forall h | h in s.answers :: h < |s.arrivals| && s.answers[h] == SequentialAnswer(s.arrivals, h))
  }

  /** What the book alone would answer to request `h` after the requests before it. */
  function SequentialAnswer(reqs: seq<Op>, h: nat): Response
    requires h < |reqs|
  {
    Answer(Run(reqs[..h]).book, reqs[h])
  }

  /** The cache is the depth of one past state, and of the present one unless a change is pending. */
  predicate Coherent(s: System) {
    && 0 <= s.cacheAt <= Served(s) <= |s.arrivals|
    && s.cache == DepthOf(Run(s.arrivals[..s.cacheAt]).book, DEPTH)
    && (!s.changed || (s.pending.Some? && s.pending.value.DepthEvent?) ==> s.cache == DepthOf(s.book, DEPTH))
  }

  /** Every batch of trades goes out exactly once, in the order of the requests. */
  predicate AllPublished(s: System) {
    && 0 <= Served(s) <= |s.arrivals|
    && OnlyTrades(s.taken + s.outbox + (if s.pending.Some? then [s.pending.value] else []))
       == TradeEvents(s.arrivals[..Served(s)])
  }

  lemma StepKeepsInStep(s: System, step: Step)
    requires InStep(s)
    ensures InStep(Next(s, step)) && Served(s) <= Served(Next(s, step)) && s.arrivals <= Next(s, step).arrivals
  {
    hide Process, Cancel, DepthOf;
    var s' := Next(s, step);
    var n := Served(s);
    if Enabled(s, step) {
      if step.Arrive? {
        assert s'.arrivals[..n] == s.arrivals[..n];
      } else if step.Serve? {
        RunExtends(s.arrivals, n);
      }
    }
  }

  lemma RunExtends(reqs: seq<Op>, n: nat)
    requires n < |reqs|
    ensures Run(reqs[..n+1]).book == BookAfter(Run(reqs[..n]).book, reqs[n])
  {
    assert reqs[..n+1][..n] == reqs[..n];
  }

  /** Later arrivals do not change the sequential answers to earlier requests. */
  lemma AnswersStay(reqs: seq<Op>, req: Op)
    ensures forall h: nat | h < |reqs| :: SequentialAnswer(reqs + [req], h) == SequentialAnswer(reqs, h)
  {
    hide Answer, Run;
    forall h: nat | h < |reqs| ensures SequentialAnswer(reqs + [req], h) == SequentialAnswer(reqs, h) {
      assert (reqs + [req])[h] == reqs[h] && (reqs + [req])[..h] == reqs[..h];
    }
  }

  lemma ServeKeepsAnswered(s: System)
    requires InStep(s) && Answered(s) && Enabled(s, Serve)
    ensures Answered(ServeNext(s))
  {
    hide Answer, BookAfter, DepthOf, Run;
    var n := Served(s);
    assert s.inbox[0] == Call(n, s.arrivals[n]) && n !in s.results && n !in s.answers;
  }

  lemma StepKeepsAnswered(s: System, step: Step)
    requires InStep(s) && Answered(s)
    ensures Answered(Next(s, step))
  {
    hide SequentialAnswer, ServeNext, DepthOf, Run;
    if Enabled(s, step) {
      match step
      case Arrive(req) => AnswersStay(s.arrivals, req);
      case Serve => ServeKeepsAnswered(s);
      case _ =>
    }
  }

  lemma StepKeepsCoherent(s: System, step: Step)
    requires InStep(s) && Coherent(s)
    ensures Coherent(Next(s, step)) && s.cacheAt <= Next(s, step).cacheAt
  {
    hide Process, Cancel, DepthOf, Run;
    var s' := Next(s, step);
    if step.Arrive? && Enabled(s, step) {
      assert s'.arrivals[..s.cacheAt] == s.arrivals[..s.cacheAt];
    } else if step.Serve? && Enabled(s, step) && s.inbox[0].req.Withdraw? {
      CancelForgets(s.book, s.inbox[0].req.id);
    }
  }

  lemma OnlyTradesAppend(events: seq<Event>, e: Event)
    ensures OnlyTrades(events + [e]) == OnlyTrades(events) + if e.TradeEvent? then [e] else []
  {
    assert (events + [e])[..|events|] == events;
  }

  lemma StepKeepsPublished(s: System, step: Step)
    requires InStep(s) && AllPublished(s)
    ensures AllPublished(Next(s, step))
  {
    hide Answer, BookAfter, DepthOf, Run, OnlyTrades;
    var s' := Next(s, step);
    var out := s.taken + s.outbox;
    var none: seq<Event> := [];
    if Enabled(s, step) {
      match step
      case Arrive(req) =>
        assert s'.arrivals[..Served(s)] == s.arrivals[..Served(s)];
      case Serve =>
        var n := Served(s);
        assert s.arrivals[..n+1][..n] == s.arrivals[..n];
        assert out + none == out;
        if s'.pending.Some? { OnlyTradesAppend(out, s'.pending.value); }
      case Tick =>
        assert out + none == out;
        if s'.pending.Some? { OnlyTradesAppend(out, s'.pending.value); }
      case Publish =>
        assert s'.taken + s'.outbox + none == out + [s.pending.value];
      case HubTakes =>
        assert s'.taken + s'.outbox == out;
      case Collect(h) =>
    }
  }

  /** Whatever the interleaving, requests are answered in arrival order as by the book alone. */
  lemma {:induction false} EveryRun(steps: seq<Step>)
    ensures var s := Exec(steps); InStep(s) && Answered(s) && Coherent(s) && AllPublished(s)
  {
    hide InStep, Answered, Coherent, AllPublished, Next;
    if steps == [] {
      Initially();
    } else {
      var s, step := Exec(steps[..|steps| - 1]), steps[|steps| - 1];
      EveryRun(steps[..|steps| - 1]);
      StepKeepsInStep(s, step);
      StepKeepsAnswered(s, step);
      StepKeepsCoherent(s, step);
      StepKeepsPublished(s, step);
    }
  }

  lemma Initially()
    ensures InStep(START) && Answered(START) && Coherent(START) && AllPublished(START)
  {
    assert START.arrivals[..0] == [];
  }
}
