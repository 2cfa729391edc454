/**
 The BenchmarkRun reconciler: a round may be cut short by any API call, and the next round starts
 from whatever the cluster then holds.  A failing call may or may not have taken effect.
 */
module Reconciler {

  datatype Resource = Namespace | Quota | Policy | Pod

  /** The run's status field and the resources that exist for it. */
  datatype Cluster = Cluster(state: string, resources: set<Resource>)

  const NEW: Cluster := Cluster("", {})
  const ALL: set<Resource> := {Namespace, Quota, Policy, Pod}

  /** How an API call goes: done, lost on the way there, or lost on the way back. */
  datatype Fate = Works | FailsBefore | FailsAfter

  /** What reading the run yields. */
  datatype Fetch = Found | Gone | ReadError | BadSpec

  /** The circumstances of one round: the read, the fates of its calls in order, and the clock. */
  datatype Round = Round(fetch: Fetch, fates: seq<Fate>, elapsed: bool)

  predicate Enough(r: Round) {
    |r.fates| == 5
  }

  /** A round in which the read and every call work. */
  predicate Clean(r: Round) {
    Enough(r) && r.fetch == Found && forall i | 0 <= i < 5 :: r.fates[i] == Works
  }

  /** Creating succeeds if the resource exists already; inside a namespace that is missing it fails. */
  function Created(c: Cluster, res: Resource): Cluster {
    if res == Namespace || Namespace in c.resources then c.(resources := c.resources + {res}) else c
  }

  predicate CreateOk(c: Cluster, res: Resource, fate: Fate) {
    fate == Works && (res == Namespace || Namespace in c.resources)
  }

  class Controller {
    var state: string
    var resources: set<Resource>

    ghost function View(): Cluster
      reads this
    {
      Cluster(state, resources)
    }

    constructor ()
      ensures View() == NEW
    {
      state, resources := "", {};
    }

    method Create(res: Resource, fate: Fate) returns (ok: bool)
      modifies this`resources
      ensures ok == CreateOk(old(View()), res, fate)
      ensures View() == if fate == FailsBefore then old(View()) else Created(old(View()), res)
    {
      ok := false;
      if fate != FailsBefore && (res == Namespace || Namespace in resources) {
        resources := resources + {res};
        ok := fate == Works;
      }
    }

    /** Deleting the namespace takes everything in it along; deleting a missing one is no error. */
    method DeleteNamespace(fate: Fate) returns (ok: bool)
      modifies this`resources
      ensures ok == (fate == Works)
      ensures resources == if fate == FailsBefore then old(resources) else {}
    {
      ok := fate == Works;
      if fate != FailsBefore {
        resources := {};
      }
    }

    method UpdateStatus(s: string, fate: Fate) returns (ok: bool)
      modifies this`state
      ensures ok == (fate == Works)
      ensures state == if fate == FailsBefore then old(state) else s
    {
      ok := fate == Works;
      if fate != FailsBefore {
        state := s;
      }
    }

    /** One round; it returns at the first call that fails, and a failed round is retried. */
    method Reconcile(r: Round) returns (ok: bool)
      requires Enough(r)
      modifies this
      ensures View() == After(old(View()), r)
      ensures ok == Reported(old(View()), r)
    {
      ok := true;
      if r.fetch != Found {
        ok := r.fetch == Gone;
        return;
      }
      if state == "" {
        ok := Create(Namespace, r.fates[0]);
        if !ok { return; }
        assert Provisioned(old(View()), 0, r.fates) == Provisioned(View(), 1, r.fates);
        ok := Create(Quota, r.fates[1]);
        if !ok { return; }
        assert Provisioned(old(View()), 0, r.fates) == Provisioned(View(), 2, r.fates);
        ok := Create(Policy, r.fates[2]);
        if !ok { return; }
        assert Provisioned(old(View()), 0, r.fates) == Provisioned(View(), 3, r.fates);
        ok := Create(Pod, r.fates[3]);
        if !ok { return; }
        assert Provisioned(old(View()), 0, r.fates) == Provisioned(View(), 4, r.fates);
        ok := UpdateStatus("Running", r.fates[4]);
      } else if state == "Running" {
        if r.elapsed {
          ok := DeleteNamespace(r.fates[0]);
          if !ok { return; }
          ok := UpdateStatus("Succeeded", r.fates[1]);
        }
      }
    }
  }

  const ORDER: seq<Resource> := [Namespace, Quota, Policy, Pod]

  /** What a provisioning round leaves, from its k-th resource on, when it stops at the first failure. */
  function Provisioned(c: Cluster, k: nat, fates: seq<Fate>): (Cluster, bool)
    requires k <= 4 <= |fates|
    decreases 4 - k
  {
    if k == 4 then (c, true)
    else
      var c' := if fates[k] == FailsBefore then c else Created(c, ORDER[k]);
      if CreateOk(c, ORDER[k], fates[k]) then Provisioned(c', k + 1, fates) else (c', false)
  }

  /** The whole effect of one round. */
  function After(c: Cluster, r: Round): Cluster
    requires Enough(r)
  {
    if r.fetch != Found then c
    else if c.state == "" then
      var (c', ok) := Provisioned(c, 0, r.fates);
      if ok && r.fates[4] != FailsBefore then c'.(state := "Running") else c'
    else if c.state == "Running" && r.elapsed then
      var c' := if r.fates[0] == FailsBefore then c else c.(resources := {});
      if r.fates[0] == Works && r.fates[1] != FailsBefore then c'.(state := "Succeeded") else c'
    else c
  }

  /** Does the round report success?  Otherwise it is retried. */
  predicate Reported(c: Cluster, r: Round)
    requires Enough(r)
  {
    if r.fetch != Found then r.fetch == Gone
    else if c.state == "" then Provisioned(c, 0, r.fates).1 && r.fates[4] == Works
    else c.state == "Running" && r.elapsed ==> r.fates[0] == Works && r.fates[1] == Works
  }

  /** Resources appear in order, so no pod is ever without its quota and its network policy. */
  predicate Sane(c: Cluster) {
    && (Pod in c.resources ==> Policy in c.resources) && (Policy in c.resources ==> Quota in c.resources)
    && (Quota in c.resources ==> Namespace in c.resources)
    && (c.state == "" || (c.state == "Running" && (c.resources == ALL || c.resources == {}))
        || (c.state == "Succeeded" && c.resources == {}))
  }

  lemma {:induction false} ProvisionedSane(c: Cluster, k: nat, fates: seq<Fate>)
    requires k <= 4 <= |fates| && Sane(c) && c.state == ""
    requires forall i | 0 <= i < k :: ORDER[i] in c.resources
    ensures
      var (c', ok) := Provisioned(c, k, fates);
      && Sane(c') && c'.state == "" && c.resources <= c'.resources && (ok ==> c'.resources == ALL)
      && ((forall i | k <= i < 4 :: fates[i] == Works) ==> ok)
    decreases 4 - k
  {
    if k == 4 {
      assert ORDER[0] in c.resources && ORDER[1] in c.resources && ORDER[2] in c.resources && ORDER[3] in c.resources;
      forall x: Resource ensures x in ALL {
        match x case Namespace => case Quota => case Policy => case Pod =>
      }
      assert c.resources == ALL;
    } else {
      assert k > 0 ==> ORDER[0] in c.resources;
      assert k > 1 ==> ORDER[k-1] in c.resources;
      if CreateOk(c, ORDER[k], fates[k]) {
        ProvisionedSane(Created(c, ORDER[k]), k + 1, fates);
      }
    }
  }

  function Rank(state: string): int {
    if state == "" then 0 else if state == "Running" then 1 else if state == "Succeeded" then 2 else 3
  }

  /**
   Every round, however it fails, keeps the cluster sane and moves the state only forward; Running
   is written only onto all four resources, Succeeded only once the namespace is gone.
   */
  lemma RoundIsSafe(c: Cluster, r: Round)
    requires Sane(c) && Enough(r)
    ensures
      var c' := After(c, r);
      && Sane(c') && Rank(c.state) <= Rank(c'.state) <= Rank(c.state) + 1
      && (c'.state == "Running" && c.state != "Running" ==> c'.resources == ALL)
      && (c'.state == "Succeeded" ==> c'.resources == {})
      && (c.state == "" ==> c.resources <= c'.resources)
  {
    if c.state == "" {
      ProvisionedSane(c, 0, r.fates);
    }
  }

  /**
   A round reports success only when its transition is complete, so nothing half-done is left
   without a retry; and a round in which every call works does report success.
   */
  lemma SuccessIsComplete(c: Cluster, r: Round)
    requires Sane(c) && Enough(r)
    ensures
      Reported(c, r) && r.fetch == Found ==>
        && (c.state == "" ==> After(c, r) == Cluster("Running", ALL))
        && (c.state == "Running" && r.elapsed ==> After(c, r) == Cluster("Succeeded", {}))
    ensures Clean(r) ==> Reported(c, r)
    ensures r.fetch == Found && c.state == "" ==> (Reported(c, r) <==> forall i | 0 <= i < 5 :: r.fates[i] == Works)
    ensures r.fetch == Found && c.state == "Running" && r.elapsed ==>
              (Reported(c, r) <==> r.fates[0] == Works && r.fates[1] == Works)
  {
    if c.state == "" {
      ProvisionedSane(c, 0, r.fates);
      ProvisionedIff(c, 0, r.fates);
    }
  }

  /** Provisioning gets through exactly when all its calls work. */
  lemma {:induction false} ProvisionedIff(c: Cluster, k: nat, fates: seq<Fate>)
    requires k <= 4 <= |fates| && (k > 0 ==> Namespace in c.resources)
    ensures Provisioned(c, k, fates).1 <==> forall i | k <= i < 4 :: fates[i] == Works
    decreases 4 - k
  {
    if k < 4 && CreateOk(c, ORDER[k], fates[k]) {
      ProvisionedIff(Created(c, ORDER[k]), k + 1, fates);
    }
  }

  /**
   A round does nothing, and says so, when the run is not over yet or is finished; when it cannot read
   the run it does nothing and reports an error, unless the run is gone.
   */
  lemma RoundDoesNothing(c: Cluster, r: Round)
    requires Enough(r)
    ensures r.fetch != Found ==> After(c, r) == c && (Reported(c, r) <==> r.fetch == Gone)
    ensures r.fetch == Found && c.state == "Running" && !r.elapsed ==> After(c, r) == c && Reported(c, r)
    ensures r.fetch == Found && c.state != "" && c.state != "Running" ==> After(c, r) == c && Reported(c, r)
  {
  }

  function Exec(rounds: seq<Round>): Cluster
    requires forall i | 0 <= i < |rounds| :: Enough(rounds[i])
  {
    if rounds == [] then NEW else After(Exec(rounds[..|rounds| - 1]), rounds[|rounds| - 1])
  }

  /** In no reachable cluster is a pod without its quota and network policy. */
  lemma {:induction false} AlwaysSane(rounds: seq<Round>)
    requires forall i | 0 <= i < |rounds| :: Enough(rounds[i])
    ensures Sane(Exec(rounds))
    ensures Pod in Exec(rounds).resources ==> {Namespace, Quota, Policy} <= Exec(rounds).resources
  {
    if rounds != [] {
      AlwaysSane(rounds[..|rounds| - 1]);
      RoundIsSafe(Exec(rounds[..|rounds| - 1]), rounds[|rounds| - 1]);
    }
  }

  /** The state never goes back. */
  lemma {:induction false} OnlyForward(rounds: seq<Round>, k: nat)
    requires k <= |rounds| && forall i | 0 <= i < |rounds| :: Enough(rounds[i])
    ensures Rank(Exec(rounds[..k]).state) <= Rank(Exec(rounds).state)
  {
    if k == |rounds| {
      assert rounds[..k] == rounds;
    } else {
      var front := rounds[..|rounds| - 1];
      assert front[..k] == rounds[..k];
      OnlyForward(front, k);
      AlwaysSane(front);
      RoundIsSafe(Exec(front), rounds[|rounds| - 1]);
    }
  }

  /** The `k`-th round found its run in the Running state after the end of its duration. */
  predicate EndsAt(rounds: seq<Round>, k: nat)
    requires k < |rounds| && forall i | 0 <= i < |rounds| :: Enough(rounds[i])
  {
    Exec(rounds[..k]).state == "Running" && rounds[k].fetch == Found && rounds[k].elapsed
  }

  /** No run is finished before its duration is over. */
  lemma {:induction false} FinishedWasOver(rounds: seq<Round>)
    requires (forall i | 0 <= i < |rounds| :: Enough(rounds[i])) && Exec(rounds).state == "Succeeded"
    ensures exists k | 0 <= k < |rounds| :: EndsAt(rounds, k)
  {
    var n := |rounds| - 1;
    if Exec(rounds[..n]).state == "Succeeded" {
      FinishedWasOver(rounds[..n]);
      var k :| 0 <= k < n && EndsAt(rounds[..n], k);
      assert rounds[..n][..k] == rounds[..k];
      assert EndsAt(rounds, k);
    } else {
      if Exec(rounds[..n]).state == "" { StartsRunning(Exec(rounds[..n]), rounds[n]); }
      RoundDoesNothing(Exec(rounds[..n]), rounds[n]);
      assert EndsAt(rounds, n);
    }
  }

  lemma StartsRunning(c: Cluster, r: Round)
    requires Enough(r) && c.state == ""
    ensures After(c, r).state == "" || After(c, r).state == "Running"
  {
    if r.fetch == Found {
      ProvisionedState(c, 0, r.fates);
    }
  }

  lemma {:induction false} ProvisionedState(c: Cluster, k: nat, fates: seq<Fate>)
    requires k <= 4 <= |fates|
    ensures Provisioned(c, k, fates).0.state == c.state && c.resources <= Provisioned(c, k, fates).0.resources
    decreases 4 - k
  {
    if k < 4 && CreateOk(c, ORDER[k], fates[k]) {
      ProvisionedState(Created(c, ORDER[k]), k + 1, fates);
    }
  }

  /** And nothing is torn down before. */
  lemma {:induction false} NothingTornDown(rounds: seq<Round>, i: nat)
    requires i <= |rounds| && forall k | 0 <= k < |rounds| :: Enough(rounds[k])
    requires forall k | 0 <= k < |rounds| :: !EndsAt(rounds, k)
    ensures Exec(rounds[..i]).resources <= Exec(rounds).resources
  {
    if i == |rounds| {
      assert rounds[..i] == rounds;
    } else {
      var n := |rounds| - 1;
      var front, c := rounds[..n], Exec(rounds[..n]);
      assert front[..i] == rounds[..i];
      forall k | 0 <= k < n ensures !EndsAt(front, k) {
        assert front[..k] == rounds[..k] && !EndsAt(rounds, k);
      }
      NothingTornDown(front, i);
      assert !EndsAt(rounds, n);
      RoundDoesNothing(c, rounds[n]);
      if c.state == "" && rounds[n].fetch == Found {
        ProvisionedState(c, 0, rounds[n].fates);
      }
    }
  }

  /** The `k`-th round found its run and reported success. */
  predicate SucceedsAt(rounds: seq<Round>, k: nat)
    requires k < |rounds| && forall i | 0 <= i < |rounds| :: Enough(rounds[i])
  {
    rounds[k].fetch == Found && Reported(Exec(rounds[..k]), rounds[k])
  }

  lemma StateAfterSuccess(rounds: seq<Round>, k: nat)
    requires k < |rounds| && (forall i | 0 <= i < |rounds| :: Enough(rounds[i])) && SucceedsAt(rounds, k)
    ensures
      var before, after := Exec(rounds[..k]).state, Exec(rounds).state;
      Rank(after) >= 1 && (Rank(before) >= 1 && rounds[k].elapsed ==> Rank(after) >= 2)
  {
    hide Reported, After;
    var c := Exec(rounds[..k]);
    assert rounds[..k+1][..k] == rounds[..k];
    AlwaysSane(rounds[..k]);
    RoundIsSafe(c, rounds[k]);
    SuccessIsComplete(c, rounds[k]);
    OnlyForward(rounds, k + 1);
  }

  /**
   However many rounds fail, wherever they fail: once one round has succeeded, and a later one after
   the end of the duration, the run is over with nothing left behind, and stays so.
   */
  lemma FailuresAreForgotten(rounds: seq<Round>, i: nat, j: nat)
    requires i < j < |rounds| && forall k | 0 <= k < |rounds| :: Enough(rounds[k])
    requires SucceedsAt(rounds, i) && SucceedsAt(rounds, j) && rounds[j].elapsed
    ensures Exec(rounds) == Cluster("Succeeded", {})
  {
    hide SucceedsAt, Exec;
    var front := rounds[..j];
    assert front[..i] == rounds[..i] && front[i] == rounds[i];
    SameSuccess(rounds, front, i);
    StateAfterSuccess(front, i);
    StateAfterSuccess(rounds, j);
    AlwaysSane(rounds);
  }

  lemma SameSuccess(rounds: seq<Round>, rounds': seq<Round>, k: nat)
    requires k < |rounds| && k < |rounds'| && rounds[..k] == rounds'[..k] && rounds[k] == rounds'[k]
    requires forall i | 0 <= i < |rounds| :: Enough(rounds[i])
    requires forall i | 0 <= i < |rounds'| :: Enough(rounds'[i])
    ensures SucceedsAt(rounds, k) <==> SucceedsAt(rounds', k)
  {
  }

  /** A round in which every call works succeeds, so two such rounds are enough. */
  lemma CleanRoundsFinish(rounds: seq<Round>, i: nat, j: nat)
    requires i < j < |rounds| && forall k | 0 <= k < |rounds| :: Enough(rounds[k])
    requires Clean(rounds[i]) && Clean(rounds[j]) && rounds[j].elapsed
    ensures Exec(rounds) == Cluster("Succeeded", {})
  {
    hide Exec, Reported;
    AlwaysSane(rounds[..i]);
    AlwaysSane(rounds[..j]);
    SuccessIsComplete(Exec(rounds[..i]), rounds[i]);
    SuccessIsComplete(Exec(rounds[..j]), rounds[j]);
    FailuresAreForgotten(rounds, i, j);
  }
}
