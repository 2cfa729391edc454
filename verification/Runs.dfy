/**
 Whole runs of the engine from the empty book: what holds in every reachable state and what is
 conserved.
 */
module Runs {
  import opened BookSpec
  import opened Priority
  import opened Invariants
  import opened Cancelling
  import opened Execution
  import opened Conservation

  datatype Op = Submit(t: Ticket) | Withdraw(id: string)

  /** The book with running totals of what came in and where it went. */
  datatype Ledger = Ledger(book: Book, submitted: nat, traded: nat, cancelled: nat, discarded: nat)

  const OPENING: Ledger := Ledger(EMPTY, 0, 0, 0, 0)

  function Apply(l: Ledger, op: Op): Ledger {
    match op
    case Submit(t) =>
      var p := Process(l.book, t);
      var n := Traded(p.trades);
      l.(book := p.book, submitted := l.submitted + t.qty, traded := l.traded + n,
         discarded := l.discarded + if t.kind != LIMIT && n <= t.qty then t.qty - n else 0)
    case Withdraw(id) =>
      l.(book := Cancel(l.book, id).book,
         cancelled := l.cancelled + if Found(l.book, id) then Target(l.book, id).rem else 0)
  }

  function Run(ops: seq<Op>): Ledger {
    if ops == [] then OPENING else Apply(Run(ops[..|ops| - 1]), ops[|ops| - 1])
  }

  /** Every order was admissible in the state that met it. */
  predicate AllAdmissible(ops: seq<Op>) {
    ops == [] ||
    var last := ops[|ops| - 1];
    && AllAdmissible(ops[..|ops| - 1])
    && (last.Submit? ==> Admissible(Run(ops[..|ops| - 1]).book, last.t))
  }

  /** In every reachable state, whatever was sent, the sides are sorted and do not cross. */
  lemma {:induction false} AlwaysOrdered(ops: seq<Op>)
    ensures Ordered(Run(ops).book)
  {
    if ops != [] {
      hide Ordered;
      AlwaysOrdered(ops[..|ops| - 1]);
      var b, last := Run(ops[..|ops| - 1]).book, ops[|ops| - 1];
      match last
      case Submit(t) => ProcessOrdered(b, t);
      case Withdraw(id) => CancelOrdered(b, id);
    } else {
      assert Run(ops).book == EMPTY;
    }
  }

  /** In every reachable state no level is empty and no resting order is used up. */
  lemma {:induction false} AlwaysInStock(ops: seq<Op>)
    ensures InStock(Run(ops).book)
  {
    if ops != [] {
      hide InStock, Process, Cancel, Found;
      AlwaysInStock(ops[..|ops| - 1]);
      var b, last := Run(ops[..|ops| - 1]).book, ops[|ops| - 1];
      match last
      case Submit(t) => ProcessLosesIff(b, t);
      case Withdraw(id) => CancelLosesIff(b, id);
    } else {
      assert Run(ops).book == EMPTY;
    }
  }

  /** Every reachable book has what the results about single calls ask for. */
  lemma AlwaysSolid(ops: seq<Op>)
    ensures Solid(Run(ops).book)
  {
    hide Run, Ordered, Stocked;
    AlwaysOrdered(ops);
    AlwaysInStock(ops);
  }

  /** The book was well formed after every prefix of the run. */
  predicate HonestThroughout(ops: seq<Op>) {
    WellFormed(Run(ops).book) && (ops != [] ==> HonestThroughout(ops[..|ops| - 1]))
  }

  /** The book is honest in every state of the run exactly when every order was admissible. */
  lemma {:induction false} HonestIffAdmissible(ops: seq<Op>)
    ensures HonestThroughout(ops) <==> AllAdmissible(ops)
  {
    hide WellFormed, Admissible, Run;
    if ops == [] {
      EmptyWellFormed();
    } else {
      HonestIffAdmissible(ops[..|ops| - 1]);
      if HonestThroughout(ops[..|ops| - 1]) {
        LastStep(ops);
      }
    }
  }

  lemma EmptyWellFormed()
    ensures WellFormed(EMPTY) && Run([]).book == EMPTY
  {
  }

  lemma LastStep(ops: seq<Op>)
    requires ops != [] && WellFormed(Run(ops[..|ops| - 1]).book)
    ensures
      var last := ops[|ops| - 1];
      WellFormed(Run(ops).book) <==> (last.Submit? ==> Admissible(Run(ops[..|ops| - 1]).book, last.t))
  {
    hide Ordered, Tidy, Admissible, Process, Cancel, Found;
    var b, last := Run(ops[..|ops| - 1]).book, ops[|ops| - 1];
    match last
    case Submit(t) =>
      ProcessOrdered(b, t);
      ProcessTidy(b, t);
    case Withdraw(id) =>
      CancelWellFormed(b, id);
  }

  // ---- the index -----------------------------------------------------------------------------------

  /** Every order that came to rest did so under an id no other resting order had. */
  predicate IdsFree(ops: seq<Op>) {
    ops == [] ||
    var last := ops[|ops| - 1];
    IdsFree(ops[..|ops| - 1]) && (last.Submit? ==> FreeId(Run(ops[..|ops| - 1]).book, last.t))
  }

  predicate KnownThroughout(ops: seq<Op>) {
    AllKnown(Run(ops).book) && (ops != [] ==> KnownThroughout(ops[..|ops| - 1]))
  }

  lemma StepKnown(ops: seq<Op>)
    requires ops != [] && AllKnown(Run(ops[..|ops| - 1]).book)
    ensures
      var last := ops[|ops| - 1];
      AllKnown(Run(ops).book) <==> (last.Submit? ==> FreeId(Run(ops[..|ops| - 1]).book, last.t))
  {
    hide Solid, Ordered, AllKnown, FreeId, Process, Cancel, Found;
    var front, last := ops[..|ops| - 1], ops[|ops| - 1];
    match last
    case Submit(t) =>
      AlwaysSolid(front);
      ProcessKnown(Run(front).book, t);
    case Withdraw(id) =>
      AlwaysOrdered(front);
      CancelKnown(Run(front).book, id);
  }

  lemma NothingUnknown()
    ensures AllKnown(EMPTY)
  {
  }

  /**
   The index leads to every resting order in all states of a run, if and only if no order came to rest
   under the id of another resting one.  Quantities play no part, and neither do lost levels.
   */
  lemma {:induction false} KnownIffIdsFree(ops: seq<Op>)
    ensures KnownThroughout(ops) <==> IdsFree(ops)
  {
    hide Run, AllKnown, FreeId;
    RunStep(ops);
    if ops == [] {
      NothingUnknown();
    } else {
      KnownIffIdsFree(ops[..|ops| - 1]);
      if KnownThroughout(ops[..|ops| - 1]) {
        StepKnown(ops);
      }
    }
  }

  // ---- conservation ---------------------------------------------------------------------------------

  /** Every unit submitted was traded, rests, was cancelled or discarded, or is lost. */
  predicate Accounted(l: Ledger) {
    l.submitted == 2 * l.traded + Tradable(l.book) + Held(l.book.lost) + l.cancelled + l.discarded
  }

  /** The same with nothing lost. */
  predicate Balanced(l: Ledger) {
    l.submitted == 2 * l.traded + Tradable(l.book) + l.cancelled + l.discarded
  }

  lemma StepConserves(l: Ledger, op: Op)
    requires Accounted(l)
    ensures Accounted(Apply(l, op))
  {
    hide Process, Cancel, Held, Traded, Found, Target;
    match op
    case Submit(t) => ProcessConserves(l.book, t);
    case Withdraw(id) => CancelConserves(l.book, id);
  }

  lemma OpeningAccounted()
    ensures Accounted(OPENING) && OPENING.book.lost == []
  {
    hide Held;
    HeldCons([]);
  }

  /** Over every run whatsoever, every unit submitted is accounted for. */
  lemma {:induction false} RunConserves(ops: seq<Op>)
    ensures Accounted(Run(ops))
  {
    hide Apply, Accounted;
    if ops == [] {
      OpeningAccounted();
    } else {
      RunConserves(ops[..|ops| - 1]);
      StepConserves(Run(ops[..|ops| - 1]), ops[|ops| - 1]);
    }
  }

  /** The call drops a level with orders in it.  This can be read off the book before the call. */
  predicate OpLoses(b: Book, op: Op) {
    match op
    case Submit(t) => Loses(b.Side(t.side != BUY), t, t.qty)
    case Withdraw(id) => CancelLoses(b, id)
  }

  predicate NeverLoses(ops: seq<Op>) {
    ops == [] || (NeverLoses(ops[..|ops| - 1]) && !OpLoses(Run(ops[..|ops| - 1]).book, ops[|ops| - 1]))
  }

  predicate BalancedThroughout(ops: seq<Op>) {
    Balanced(Run(ops)) && (ops != [] ==> BalancedThroughout(ops[..|ops| - 1]))
  }

  lemma StepLosesIff(l: Ledger, op: Op)
    requires InStock(l.book) && l.book.lost == []
    ensures
      var b' := Apply(l, op).book;
      (Held(b'.lost) == 0 <==> !OpLoses(l.book, op)) && (!OpLoses(l.book, op) ==> b'.lost == [])
  {
    hide InStock, Process, Cancel, Held, Traded, Found, Target, Loses, CancelLoses;
    HeldCons([]);
    match op
    case Submit(t) =>
      ProcessLosesIff(l.book, t);
      ProcessConserves(l.book, t);
    case Withdraw(id) =>
      CancelLosesIff(l.book, id);
  }

  lemma BalancedIffNoLoss(l: Ledger)
    requires Accounted(l)
    ensures Balanced(l) <==> Held(l.book.lost) == 0
  {
    hide Held;
  }

  lemma RunStep(ops: seq<Op>)
    ensures Run(ops) == if ops == [] then OPENING else Apply(Run(ops[..|ops| - 1]), ops[|ops| - 1])
  {
  }

  /** The run balances without a loss term in all its states exactly when no call drops orders with a level. */
  lemma {:induction false} BalancedIffNeverLoses(ops: seq<Op>)
    ensures BalancedThroughout(ops) <==> NeverLoses(ops)
    ensures NeverLoses(ops) ==> Run(ops).book.lost == []
  {
    hide Run, Apply, OpLoses, Held, InStock, Accounted, Balanced;
    RunConserves(ops);
    BalancedIffNoLoss(Run(ops));
    RunStep(ops);
    if ops == [] {
      OpeningAccounted();
      HeldCons([]);
    } else {
      var front, last := ops[..|ops| - 1], ops[|ops| - 1];
      BalancedIffNeverLoses(front);
      if NeverLoses(front) {
        AlwaysInStock(front);
        StepLosesIff(Run(front), last);
      }
    }
  }

  /** In particular, runs of admissible orders lose nothing. */
  lemma AdmissibleBalanced(ops: seq<Op>)
    requires AllAdmissible(ops)
    ensures Balanced(Run(ops)) && WellFormed(Run(ops).book)
  {
    hide Run, Ordered;
    HonestIffAdmissible(ops);
    RunConserves(ops);
    HeldCons([]);
  }
}
