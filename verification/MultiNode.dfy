/** MultiNodeWorkflow as the object the code runs: the shared upload lock, Plan, Rollback and Finalize over all nodes. */
module MultiNode {
  import opened Common
  import opened Manifest
  import opened Proxmox
  import opened SingleVM
  import opened Scheduler
  import opened Teardown
  import opened Workflow

  /** What Plan answers for the nodes of order: a change list for each, or the first node's error. */
  datatype PlanSet = PlanSet(result: Result<map<string, seq<Change>>>, calls: nat)

  function PlanAll(c: Setup, order: seq<string>, s: Server, fate: nat -> Fate, k: nat): PlanSet {
    if order == [] then PlanSet(Ok(map[]), k)
    else
      var front := PlanAll(c, order[..|order| - 1], s, fate, k);
      var name := order[|order| - 1];
      if front.result.Err? then front
      else
        var k' := front.calls + if Defines(c.env, name) && c.hasClient then 1 else 0;
        match PlanResult(c, name, s, fate(front.calls))
        case Err(e) => PlanSet(Err(Wrapped("plan " + name, e)), k')
        case Ok(changes) => PlanSet(Ok(front.result.value[name := changes]), k')
  }

  /** Plan returns nil only when every node is planned as PlanOf says and, given a client, no node's VM is there. */
  lemma {:induction false} PlanMeans(c: Setup, order: seq<string>, s: Server, fate: nat -> Fate, k: nat)
    requires PlanAll(c, order, s, fate, k).result.Ok?
    ensures var plan := PlanAll(c, order, s, fate, k).result.value;
            && (forall n :: n in plan <==> n in order)
            && forall n :: n in order ==> Defines(c.env, n) && plan[n] == PlanOf(c, n) && (c.hasClient ==> Key(c, n) !in s.vms)
  {
    hide PlanOf;
    if order != [] {
      var last := |order| - 1;
      PlanMeans(c, order[..last], s, fate, k);
      assert order == order[..last] + [order[last]];
    }
  }

  /** The node is in the manifest and, given a client, the look at the server works and finds no VM. */
  predicate Plannable(c: Setup, name: string, s: Server, f: Fate) {
    Defines(c.env, name) && (c.hasClient ==> f.Succeeds? && Key(c, name) !in s.vms)
  }

  lemma PlanResultIff(c: Setup, name: string, s: Server, f: Fate)
    ensures PlanResult(c, name, s, f).Ok? <==> Plannable(c, name, s, f)
  {
    hide PlanOf;
  }

  /** And it does so exactly when that holds of every node. */
  lemma {:induction false} PlanAcceptsIff(c: Setup, order: seq<string>, s: Server, fate: nat -> Fate, k: nat)
    ensures PlanAll(c, order, s, fate, k).result.Ok? <==> forall i: nat :: i < |order| ==> Plannable(c, order[i], s, fate(k + i))
    ensures PlanAll(c, order, s, fate, k).result.Ok? ==> PlanAll(c, order, s, fate, k).calls == if c.hasClient then k + |order| else k
  {
    hide PlanResult;
    if order != [] {
      var last := |order| - 1;
      var front := PlanAll(c, order[..last], s, fate, k);
      PlanAcceptsIff(c, order[..last], s, fate, k);
      PlanResultIff(c, order[last], s, fate(front.calls));
      assert forall i: nat :: i < last ==> order[..last][i] == order[i];
      if forall i: nat :: i < |order| ==> Plannable(c, order[i], s, fate(k + i)) {
        assert Plannable(c, order[last], s, fate(k + last));
      }
      if front.result.Ok? && PlanResult(c, order[last], s, fate(front.calls)).Ok? {
        assert Plannable(c, order[last], s, fate(k + last));
      }
    }
  }

  lemma PlanStart(c: Setup, order: seq<string>, s: Server, fate: nat -> Fate, k: nat)
    ensures PlanAll(c, order[..0], s, fate, k) == PlanSet(Ok(map[]), k)
  {
  }

  /** One node more, out being planned so far and k' calls made. */
  lemma PlanStep(c: Setup, order: seq<string>, i: nat, s: Server, fate: nat -> Fate, k: nat, out: map<string, seq<Change>>, k': nat)
    requires i < |order| && PlanAll(c, order[..i], s, fate, k) == PlanSet(Ok(out), k')
    ensures var r, after := PlanResult(c, order[i], s, fate(k')), k' + if Defines(c.env, order[i]) && c.hasClient then 1 else 0;
            PlanAll(c, order[..i + 1], s, fate, k)
            == if r.Err? then PlanSet(Err(Wrapped("plan " + order[i], r.error)), after) else PlanSet(Ok(out[order[i] := r.value]), after)
  {
    hide PlanResult;
    assert order[..i + 1][..i] == order[..i];
  }

  lemma {:induction false} ErrorEndsPlan(c: Setup, order: seq<string>, i: nat, s: Server, fate: nat -> Fate, k: nat)
    requires i <= |order| && PlanAll(c, order[..i], s, fate, k).result.Err?
    ensures PlanAll(c, order, s, fate, k) == PlanAll(c, order[..i], s, fate, k)
  {
    if i < |order| {
      assert order[..|order| - 1][..i] == order[..i];
      ErrorEndsPlan(c, order[..|order| - 1], i, s, fate, k);
    } else {
      assert order[..i] == order;
    }
  }

  function Reversed(names: seq<string>): (r: seq<string>)
    ensures |r| == |names| && forall i :: 0 <= i < |names| ==> r[i] == names[|names| - 1 - i]
  {
    seq(|names|, i requires 0 <= i < |names| => names[|names| - 1 - i])
  }

  lemma ReversedHasSame(names: seq<string>)
    ensures forall n :: n in Reversed(names) <==> n in names
  {
    var order := Reversed(names);
    forall n ensures n in order <==> n in names {
      if n in order {
        var i :| 0 <= i < |order| && order[i] == n;
        assert names[|names| - 1 - i] == n;
      }
      if n in names {
        var i :| 0 <= i < |names| && names[i] == n;
        assert order[|names| - 1 - i] == n;
      }
    }
  }

  // ----- the collecting loops, one node at a time

  function PutBefore(errs: seq<Error>, rest: Sweep): Sweep {
    rest.(errs := errs + rest.errs)
  }

  function Collect(errs: seq<Error>, name: string, err: Option<Error>): seq<Error> {
    if err.Some? then errs + [Wrapped(name, err.value)] else errs
  }

  lemma NothingBefore(w: Sweep)
    ensures PutBefore([], w) == w
  {
    assert [] + w.errs == w.errs;
  }

  lemma CollectStep(errs: seq<Error>, name: string, err: Option<Error>, rest: Sweep)
    ensures PutBefore(errs, After(name, err, rest)) == PutBefore(Collect(errs, name, err), rest)
  {
    if err.Some? {
      assert errs + ([Wrapped(name, err.value)] + rest.errs) == (errs + [Wrapped(name, err.value)]) + rest.errs;
    }
  }

  lemma RollbackStep(c: Setup, order: seq<string>, errs: seq<Error>, s: Server, fate: nat -> Fate, k: nat)
    requires order != []
    ensures var r := RollbackNode(c, order[0], s, fate, k);
            PutBefore(errs, RollbackAll(c, order, s, fate, k))
            == PutBefore(Collect(errs, order[0], r.err), RollbackAll(c, order[1..], r.server, fate, r.calls))
  {
    hide RollbackNode, PutBefore, Collect, After;
    var r := RollbackNode(c, order[0], s, fate, k);
    CollectStep(errs, order[0], r.err, RollbackAll(c, order[1..], r.server, fate, r.calls));
  }

  lemma RollbackEnd(c: Setup, errs: seq<Error>, s: Server, fate: nat -> Fate, k: nat)
    ensures PutBefore(errs, RollbackAll(c, [], s, fate, k)) == Sweep(s, errs, k)
  {
  }

  lemma FinalizeStep(c: Setup, order: seq<string>, errs: seq<Error>, s: Server, fate: nat -> Fate, k: nat)
    requires order != []
    ensures var r := FinalizeNode(c, order[0], s, fate, k);
            PutBefore(errs, FinalizeAll(c, order, s, fate, k))
            == PutBefore(Collect(errs, order[0], r.err), FinalizeAll(c, order[1..], r.server, fate, r.calls))
  {
    hide FinalizeNode, PutBefore, Collect, After;
    var r := FinalizeNode(c, order[0], s, fate, k);
    CollectStep(errs, order[0], r.err, FinalizeAll(c, order[1..], r.server, fate, r.calls));
  }

  lemma FinalizeEnd(c: Setup, errs: seq<Error>, s: Server, fate: nat -> Fate, k: nat)
    ensures PutBefore(errs, FinalizeAll(c, [], s, fate, k)) == Sweep(s, errs, k)
  {
  }

  class MultiNodeWorkflow {
    const setup: Setup
    const world: World
    const maxConcurrency: int
    const sorted: seq<string>   // what nodeNames returns when the hypervisor is resolved
    var isoUploadMu: Mutex?

    constructor (c: Setup, world: World, maxConcurrency: int, sorted: seq<string>, mu: Mutex?)
      requires c.env.hypervisor.Some? ==> SortedNames(c.env, sorted)
      ensures setup == c && this.world == world && this.maxConcurrency == maxConcurrency && this.sorted == sorted
      ensures isoUploadMu == mu && Valid()
    {
      setup, this.world, this.maxConcurrency, this.sorted, isoUploadMu := c, world, maxConcurrency, sorted, mu;
    }

    ghost predicate Valid() {
      setup.env.hypervisor.Some? ==> SortedNames(setup.env, sorted)
    }

    /** The lock in place, allocated on first use. */
    method IsoMu() returns (mu: Mutex)
      modifies this`isoUploadMu
      ensures isoUploadMu == mu
      ensures old(isoUploadMu) != null ==> mu == old(isoUploadMu)
      ensures old(isoUploadMu) == null ==> fresh(mu) && !mu.held
    {
      if isoUploadMu != null { return isoUploadMu; }
      mu := new Mutex();
      isoUploadMu := mu;
    }

    /** A node's own workflow; all of them share one lock. */
    method PerNode(name: string) returns (w: SingleVMWorkflow)
      modifies this`isoUploadMu
      ensures fresh(w) && w.setup == setup && w.name == name && w.world == world
      ensures isoUploadMu != null && w.uploadMu == isoUploadMu
      ensures old(isoUploadMu) != null ==> isoUploadMu == old(isoUploadMu)
    {
      var mu := IsoMu();
      w := new SingleVMWorkflow(setup, name, world, mu);
    }

    /**
     * Plan asks the server once per node and changes nothing there. When it returns, the lock exists (if there is any
     * node at all), so the goroutines started afterwards find the same one.
     */
    method Plan() returns (r: Result<map<string, seq<Change>>>)
      requires Valid()
      modifies this`isoUploadMu, world`calls
      ensures setup.env.hypervisor.None? ==> r.Err? && world.calls == old(world.calls)
      ensures setup.env.hypervisor.Some? ==>
                PlanSet(r, world.calls) == PlanAll(setup, sorted, world.server, world.fate, old(world.calls))
      ensures r.Ok? && sorted != [] ==> isoUploadMu != null
      ensures old(isoUploadMu) != null ==> isoUploadMu == old(isoUploadMu)
    {
      if setup.env.hypervisor.None? { return Err(Internal("multi-node: hypervisor not resolved")); }
      hide PlanResult, SortedNames, PlanAll;
      var out: map<string, seq<Change>> := map[];
      PlanStart(setup, sorted, world.server, world.fate, world.calls);
      for i := 0 to |sorted|
        invariant PlanSet(Ok(out), world.calls) == PlanAll(setup, sorted[..i], world.server, world.fate, old(world.calls))
        invariant i > 0 ==> isoUploadMu != null
        invariant old(isoUploadMu) != null ==> isoUploadMu == old(isoUploadMu)
      {
        PlanStep(setup, sorted, i, world.server, world.fate, old(world.calls), out, world.calls);
        var w := PerNode(sorted[i]);
        var changes := w.Plan();
        if changes.Err? {
          ErrorEndsPlan(setup, sorted, i + 1, world.server, world.fate, old(world.calls));
          return Err(Wrapped("plan " + sorted[i], changes.error));
        }
        out := out[sorted[i] := changes.value];
      }
      assert sorted[..|sorted|] == sorted;
      return Ok(out);
    }

    /** The names in reverse order, swapped pair by pair. */
    static method ReverseInPlace(names: array<string>)
      modifies names
      ensures names[..] == Reversed(old(names[..]))
    {
      ghost var was := names[..];
      var n := names.Length;
      var i, j := 0, n - 1;
      while i < j
        invariant 0 <= i <= j + 1 && i + j == n - 1
        invariant forall k :: i <= k <= j ==> names[k] == was[k]
        invariant forall k :: 0 <= k < i ==> names[k] == was[n - 1 - k]
        invariant forall k :: j < k < n ==> names[k] == was[n - 1 - k]
      {
        names[i], names[j] := names[j], names[i];
        i, j := i + 1, j - 1;
      }
    }

    method NamesReversed() returns (names: array<string>)
      ensures fresh(names) && names[..] == Reversed(sorted)
    {
      hide Reversed;
      names := new string[|sorted|](i requires 0 <= i < |sorted| => sorted[i]);
      assert names[..] == sorted;
      ReverseInPlace(names);
    }

    /** Rollback goes through the nodes backwards, keeps going after errors, and returns them all. */
    method Rollback() returns (errs: seq<Error>)
      requires Valid()
      modifies this`isoUploadMu, world`server, world`calls
      ensures setup.env.hypervisor.None? ==> errs != [] && world.server == old(world.server) && world.calls == old(world.calls)
      ensures setup.env.hypervisor.Some? ==>
                Sweep(world.server, errs, world.calls)
                == RollbackAll(setup, Reversed(sorted), old(world.server), world.fate, old(world.calls))
    {
      if setup.env.hypervisor.None? { return [Internal("multi-node: hypervisor not resolved")]; }
      hide RollbackNode, RollbackAll, PutBefore, SortedNames, Reversed;
      var names := NamesReversed();
      ghost var order := names[..];
      ghost var want := RollbackAll(setup, order, world.server, world.fate, world.calls);
      errs := [];
      NothingBefore(want);
      assert order[0..] == order;
      for i := 0 to names.Length
        invariant names[..] == order
        invariant want == PutBefore(errs, RollbackAll(setup, order[i..], world.server, world.fate, world.calls))
      {
        assert order[i..][1..] == order[i + 1..];
        RollbackStep(setup, order[i..], errs, world.server, world.fate, world.calls);
        var w := PerNode(names[i]);
        var err := w.Rollback();
        if err.Some? { errs := errs + [Wrapped(names[i], err.value)]; }
      }
      RollbackEnd(setup, errs, world.server, world.fate, world.calls);
    }

    /** Finalize goes through the nodes in order, keeps going after errors, and returns them all. */
    method Finalize() returns (errs: seq<Error>)
      requires Valid()
      modifies this`isoUploadMu, world`server, world`calls
      ensures setup.env.hypervisor.None? ==> errs != [] && world.server == old(world.server) && world.calls == old(world.calls)
      ensures setup.env.hypervisor.Some? ==>
                Sweep(world.server, errs, world.calls)
                == FinalizeAll(setup, sorted, old(world.server), world.fate, old(world.calls))
    {
      if setup.env.hypervisor.None? { return [Internal("finalize: hypervisor not resolved")]; }
      hide FinalizeNode, FinalizeAll, PutBefore, SortedNames;
      ghost var want := FinalizeAll(setup, sorted, world.server, world.fate, world.calls);
      errs := [];
      NothingBefore(want);
      assert sorted[0..] == sorted;
      for i := 0 to |sorted|
        invariant want == PutBefore(errs, FinalizeAll(setup, sorted[i..], world.server, world.fate, world.calls))
      {
        assert sorted[i..][1..] == sorted[i + 1..];
        FinalizeStep(setup, sorted[i..], errs, world.server, world.fate, world.calls);
        var w := PerNode(sorted[i]);
        var err := w.Finalize();
        if err.Some? { errs := errs + [Wrapped(sorted[i], err.value)]; }
      }
      FinalizeEnd(setup, errs, world.server, world.fate, world.calls);
    }
  }

  /**
   * Plan, apply, roll back: when Plan accepted the manifest, the goroutines start from the change lists it returned,
   * and a rollback that returns nil gives the VM table back as Plan found it, wherever the apply stopped.
   */
  lemma PlannedRunIsUndone(c: Config, s0: Server, seen: nat -> Fate, k0: nat, moves: seq<Move>, fate: nat -> Fate, k: nat)
    requires ValidConfig(c) && c.setup.hasClient && PlanAll(c.setup, c.names, s0, seen, k0).result.Ok?
    requires CanRun(c, Init(c, s0), moves)
    requires RollbackAll(c.setup, Reversed(c.names), Exec(c, Init(c, s0), moves).server, fate, k).errs == []
    ensures forall i :: 0 <= i < |c.names| ==> c.names[i] in PlanAll(c.setup, c.names, s0, seen, k0).result.value
    ensures forall i :: 0 <= i < |c.names| ==>
              Init(c, s0).tasks[i] == Waiting(PlanAll(c.setup, c.names, s0, seen, k0).result.value[c.names[i]])
    ensures RollbackAll(c.setup, Reversed(c.names), Exec(c, Init(c, s0), moves).server, fate, k).server.vms == s0.vms
  {
    hide PlanOf, RollbackAll, CanRun, Exec, PlanAll, Reversed;
    PlanMeans(c.setup, c.names, s0, seen, k0);
    var order := Reversed(c.names);
    ReversedHasSame(c.names);
    RollbackRestores(c, s0, moves, order, fate, k, ALL_SUCCEED);
  }
}
