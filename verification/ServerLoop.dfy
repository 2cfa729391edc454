/**
 The server's state machine follows its loop: whatever the interleaving, what goes out and what is
 cached is what the loop makes of the rounds it gets, and the server can always catch up.
 */
module ServerLoop {
  import opened Options
  import opened BookSpec
  import opened Runs
  import opened Exchange
  import opened MatchingLoop

  lemma ExecMore(steps: seq<Step>, step: Step)
    ensures Exec(steps + [step]) == Next(Exec(steps), step)
  {
    assert (steps + [step])[..|steps|] == steps;
  }

  // ---- single steps -----------------------------------------------------------------------------------

  /** A request joins the channel while there is room, and waits otherwise. */
  lemma ArriveQueues(s: System, req: Op)
    ensures
      var s' := Next(s, Arrive(req));
      if |s.inbox| < 100000
      then s'.arrivals == s.arrivals + [req] && s'.inbox == s.inbox + [Call(|s.arrivals|, req)] && Served(s') == Served(s)
      else s' == s
  {
  }

  /** The hub takes the oldest event, and a handler whose response is there gets it. */
  lemma PartiesTake(s: System, h: nat)
    ensures s.outbox != [] ==>
              Next(s, HubTakes).outbox == s.outbox[1..] && Next(s, HubTakes).taken == s.taken + [s.outbox[0]]
    ensures h in s.results ==>
              var s' := Next(s, Collect(h));
              h !in s'.results && h in s'.answers && s'.answers[h] == s.results[h]
  {
  }

  /** An idle loop with requests answers the oldest one. */
  lemma ServeAnswersOne(s: System)
    requires InStep(s) && s.pending == None && s.inbox != []
    ensures
      var s', n := Next(s, Serve), Served(s);
      && Served(s') == n + 1 && s'.arrivals == s.arrivals && s'.inbox == s.inbox[1..]
      && n in s'.results && s'.results[n] == SequentialAnswer(s.arrivals, n)
      && s'.book == Run(s.arrivals[..n + 1]).book
  {
    hide Answer, BookAfter, Run;
    RunExtends(s.arrivals, Served(s));
  }

  /** A tick that finds a change takes the present depth, caches it and hands it on; that clears the change. */
  lemma TickRefreshes(s: System)
    requires InStep(s) && s.pending == None && s.changed
    ensures
      var s' := Next(s, Tick);
      && s'.cache == DepthOf(Run(s.arrivals[..Served(s)]).book, 50) && s'.cacheAt == Served(s)
      && s'.pending == Some(DepthEvent(s'.cache)) && s'.outbox == s.outbox
      && (|s.outbox| < 4096 ==>
            var s'' := Next(s', Publish);
            !s''.changed && s''.pending == None && s''.outbox == s.outbox + [DepthEvent(s'.cache)] && s''.cache == s'.cache)
  {
    hide DepthOf, Run;
  }

  // ---- the rounds of the loop ---------------------------------------------------------------------------

  /** The rounds the loop had: the requests it took and the ticks it saw, in order. */
  function Inputs(steps: seq<Step>): seq<Input> {
    if steps == [] then []
    else
      var s := Exec(steps[..|steps| - 1]);
      Inputs(steps[..|steps| - 1]) +
      match steps[|steps| - 1]
      case Serve => if s.pending == None && s.inbox != [] then [Request(s.inbox[0].req)] else []
      case Tick => if s.pending == None then [TickFires] else []
      case _ => []
  }

  /** Everything that went out or is about to. */
  function Sent(s: System): seq<Event> {
    s.taken + s.outbox + if s.pending.Some? then [s.pending.value] else []
  }

  /** How many requests had been served at the last tick that found a change. */
  function CachedAt(inputs: seq<Input>): nat {
    if inputs == [] then 0
    else
      var front := inputs[..|inputs| - 1];
      if inputs[|inputs| - 1].TickFires? && Changed(front) then |Requests(front)| else CachedAt(front)
  }

  predicate DepthPending(s: System) {
    s.pending.Some? && s.pending.value.DepthEvent?
  }

  predicate Follows(s: System, inputs: seq<Input>) {
    && 0 <= Served(s) <= |s.arrivals| && Requests(inputs) == s.arrivals[..Served(s)]
    && Sent(s) == Events(inputs) && s.cacheAt == CachedAt(inputs)
    && s.changed == (Changed(inputs) || DepthPending(s)) && !(Changed(inputs) && DepthPending(s))
  }

  lemma NextInput(inputs: seq<Input>, input: Input)
    ensures
      var more, b := inputs + [input], Run(Requests(inputs)).book;
      match input
      case Request(op) =>
        && Requests(more) == Requests(inputs) + [op] && CachedAt(more) == CachedAt(inputs)
        && Changed(more) == (Changed(inputs) || op.Submit? || Answer(b, op).success)
        && Events(more) == Events(inputs) + if Answer(b, op).trades != [] then [TradeEvent(Answer(b, op).trades)] else []
      case TickFires =>
        && Requests(more) == Requests(inputs) && !Changed(more)
        && CachedAt(more) == (if Changed(inputs) then |Requests(inputs)| else CachedAt(inputs))
        && Events(more) == Events(inputs) + if Changed(inputs) then [DepthEvent(DepthOf(b, DEPTH))] else []
  {
    hide Answer, DepthOf, Run;
    assert (inputs + [input])[..|inputs|] == inputs;
  }

  lemma ServeFollows(s: System, inputs: seq<Input>)
    requires InStep(s) && Follows(s, inputs) && s.pending == None && s.inbox != []
    ensures Follows(Next(s, Serve), inputs + [Request(s.inbox[0].req)])
  {
    hide Answer, BookAfter, DepthOf, Run, Changed, Events, Requests, CachedAt;
    var n, op := Served(s), s.inbox[0].req;
    NextInput(inputs, Request(op));
    assert s.arrivals[..n + 1] == s.arrivals[..n] + [op];
    assert s.taken + s.outbox + [] == s.taken + s.outbox;
  }

  lemma TickFollows(s: System, inputs: seq<Input>)
    requires InStep(s) && Follows(s, inputs) && s.pending == None
    ensures Follows(Next(s, Tick), inputs + [TickFires])
  {
    hide Answer, BookAfter, DepthOf, Run, Changed, Events, Requests, CachedAt;
    NextInput(inputs, TickFires);
    assert s.taken + s.outbox + [] == s.taken + s.outbox;
  }

  lemma OtherFollows(s: System, step: Step, inputs: seq<Input>)
    requires InStep(s) && Follows(s, inputs) && !step.Tick? && !step.Serve?
    ensures Follows(Next(s, step), inputs)
  {
    hide DepthOf, Run, Changed, Events, Requests, CachedAt;
    var s' := Next(s, step);
    if Enabled(s, step) {
      match step
      case Arrive(req) =>
        assert s'.arrivals[..Served(s)] == s.arrivals[..Served(s)];
      case Publish =>
        assert s.taken + (s.outbox + [s.pending.value]) + [] == s.taken + s.outbox + [s.pending.value];
      case HubTakes =>
        assert s'.taken + s'.outbox == s.taken + s.outbox;
      case _ =>
    }
  }

  /**
   Over every interleaving, the requests served, the events sent and the cached state are those of the
   loop over its rounds.
   */
  lemma {:induction false} ServerFollowsLoop(steps: seq<Step>)
    ensures Follows(Exec(steps), Inputs(steps))
  {
    hide Next, Follows, InStep, Answered, Coherent, AllPublished;
    if steps == [] {
      NothingFollows();
    } else {
      var front, step := steps[..|steps| - 1], steps[|steps| - 1];
      var s, inputs := Exec(front), Inputs(front);
      ServerFollowsLoop(front);
      EveryRun(front);
      assert inputs + [] == inputs;
      if step.Serve? && s.pending == None && s.inbox != [] {
        ServeFollows(s, inputs);
      } else if step.Tick? && s.pending == None {
        TickFollows(s, inputs);
      } else if step.Serve? || step.Tick? {
        Waits(s, step);
      } else {
        OtherFollows(s, step, inputs);
      }
    }
  }

  lemma NothingFollows()
    ensures Follows(START, [])
  {
    assert START.arrivals[..0] == [];
  }

  lemma Waits(s: System, step: Step)
    requires (step.Serve? && (s.pending != None || s.inbox == [])) || (step.Tick? && s.pending != None)
    ensures Next(s, step) == s
  {
  }

  // ---- catching up ----------------------------------------------------------------------------------------

  /** When the hub takes an event, the loop can hand over its own and is idle. */
  lemma BecomesIdle(s: System)
    requires InStep(s)
    ensures
      var s' := Next(Next(s, HubTakes), Publish);
      s'.pending == None && s'.inbox == s.inbox && s'.arrivals == s.arrivals && s'.book == s.book
  {
  }

  lemma TwoMore(steps: seq<Step>) returns (more: seq<Step>)
    ensures more == steps + [HubTakes] + [Publish]
    ensures
      var s, s' := Exec(steps), Exec(more);
      InStep(s') && s'.pending == None && s'.inbox == s.inbox && s'.arrivals == s.arrivals
  {
    hide Exec, Next, InStep, Answered, Coherent, AllPublished;
    more := steps + [HubTakes] + [Publish];
    ExecMore(steps, HubTakes);
    ExecMore(steps + [HubTakes], Publish);
    EveryRun(steps);
    EveryRun(more);
    BecomesIdle(Exec(steps));
  }

  lemma {:induction false} EmptiesInbox(steps: seq<Step>) returns (all: seq<Step>)
    ensures steps <= all
    ensures Exec(all).inbox == [] && Exec(all).arrivals == Exec(steps).arrivals
    decreases |Exec(steps).inbox|
  {
    hide Exec, Next, InStep;
    all := steps;
    if Exec(steps).inbox != [] {
      var idle := TwoMore(steps);
      ExecMore(idle, Serve);
      ServeAnswersOne(Exec(idle));
      all := EmptiesInbox(idle + [Serve]);
    }
  }

  lemma {:induction false} CollectsAll(steps: seq<Step>, n: nat) returns (all: seq<Step>)
    requires Exec(steps).inbox == [] && n <= |Exec(steps).arrivals|
    ensures steps <= all
    ensures
      var s, s' := Exec(steps), Exec(all);
      && s'.inbox == [] && s'.arrivals == s.arrivals && s'.cache == s.cache && s'.answers.Keys >= s.answers.Keys
      && forall h: nat | h < n :: h in s'.answers
  {
    hide Exec, InStep, Coherent, AllPublished, SequentialAnswer;
    all := steps;
    if n > 0 {
      var part := CollectsAll(steps, n - 1);
      EveryRun(part);
      all := part + [Collect(n - 1)];
      ExecMore(part, Collect(n - 1));
    }
  }

  /**
   The server can always catch up: from every reachable state there are steps after which, without
   another request, every handler has its sequential answer and the cache is the depth of the book.
   */
  lemma ServerCatchesUp(steps: seq<Step>) returns (all: seq<Step>)
    ensures steps <= all
    ensures
      var reqs, s := Exec(steps).arrivals, Exec(all);
      && s.arrivals == reqs && s.inbox == [] && s.cache == DepthOf(Run(reqs).book, 50)
      && forall h: nat | h < |reqs| :: h in s.answers && s.answers[h] == SequentialAnswer(reqs, h)
  {
    hide Exec, Next, InStep, Answered, AllPublished, SequentialAnswer, DepthOf, Run;
    var emptied := EmptiesInbox(steps);
    var idle := TwoMore(emptied);
    var ticked := idle + [Tick];
    ExecMore(idle, Tick);
    EveryRun(idle);
    FreshAfterTick(Exec(idle));
    all := CollectsAll(ticked, |Exec(ticked).arrivals|);
    EveryRun(all);
    AnswersAre(Exec(all));
  }

  lemma FreshAfterTick(s: System)
    requires InStep(s) && Coherent(s) && s.pending == None && s.inbox == []
    ensures
      var s' := Next(s, Tick);
      s'.inbox == [] && s'.arrivals == s.arrivals && s'.cache == DepthOf(Run(s.arrivals).book, 50)
  {
    hide DepthOf, Run;
    assert s.arrivals[..|s.arrivals|] == s.arrivals;
  }

  lemma AnswersAre(s: System)
    requires Answered(s)
    ensures forall h | h in s.answers :: h < |s.arrivals| && s.answers[h] == SequentialAnswer(s.arrivals, h)
  {
    hide SequentialAnswer;
  }
}
