/** What every step of every interleaving keeps: slots, the upload mutex, and the shape of each goroutine. */
module Safety {
  import opened Common
  import opened Proxmox
  import opened SingleVM
  import opened Scheduler

  ghost predicate Slots(c: Config, s: State) {
    s.free >= 0 && s.free + Total(SLOT_COUNT, s.tasks) == c.limit
  }

  ghost predicate MutexHeldByUploader(s: State) {
    && (forall i :: 0 <= i < |s.tasks| && Uploading(s.tasks[i]) ==> s.owner == Some(i))
    && (s.owner.Some? ==> s.owner.value < |s.tasks| && Uploading(s.tasks[s.owner.value]))
  }

  ghost predicate Shapes(c: Config, s: State) {
    && |s.tasks| == |c.names|
    && 0 <= s.next <= |s.tasks|
    && (forall i :: 0 <= i < |s.tasks| && s.tasks[i].Applying? ==> WellPhased(s.tasks[i].p))
    && (forall i :: 0 <= i < |s.tasks| && s.tasks[i].Logged? ==> c.keepGoing)
    && (c.keepGoing ==> forall i :: 0 <= i < |s.tasks| ==> (s.tasks[i].Waiting? <==> i >= s.next))
  }

  ghost predicate Inv(c: Config, s: State) {
    Shapes(c, s) && Slots(c, s) && MutexHeldByUploader(s)
  }

  /** A step leaves the node between Lock and Unlock exactly when it took the lock or made the upload. */
  lemma StepAndLock(c: Setup, name: string, p: Progress, err: Option<Error>)
    requires WellPhased(p)
    ensures Uploading(TaskAfter(React(c, name, p, err))) <==> TakesLock(c, p) || p.phase.Locked?
  {
  }

  lemma InitInv(c: Config, s: Server)
    requires ValidConfig(c)
    ensures Inv(c, Init(c, s))
  {
    TotalZero(SLOT_COUNT, Init(c, s).tasks);
  }

  lemma SlotsPreserved(c: Config, s: State, m: Move)
    requires ValidConfig(c) && Inv(c, s) && Enabled(c, s, m)
    ensures Slots(c, Next(c, s, m))
  {
    hide Ask, React;
    var s' := Next(c, s, m);
    if m != CancelParent {
      TotalUpdate(SLOT_COUNT, s.tasks, m.i, s'.tasks[m.i]);
    }
  }

  lemma MutexPreserved(c: Config, s: State, m: Move)
    requires ValidConfig(c) && Inv(c, s) && Enabled(c, s, m)
    ensures MutexHeldByUploader(Next(c, s, m))
  {
    hide Ask, React;
    if m.Act? {
      var p := s.tasks[m.i].p;
      StepAndLock(c.setup, c.names[m.i], p, Ask(c.setup, c.names[m.i], RequestOf(c.setup, p), s.server, m.fate).err);
    }
  }

  lemma ShapesPreserved(c: Config, s: State, m: Move)
    requires ValidConfig(c) && Inv(c, s) && Enabled(c, s, m)
    ensures Shapes(c, Next(c, s, m))
  {
    hide Ask, React;
    if m.Act? {
      var p := s.tasks[m.i].p;
      StepAndLock(c.setup, c.names[m.i], p, Ask(c.setup, c.names[m.i], RequestOf(c.setup, p), s.server, m.fate).err);
    }
  }

  lemma {:induction false} RunInv(c: Config, s: State, moves: seq<Move>)
    requires ValidConfig(c) && Inv(c, s) && CanRun(c, s, moves)
    ensures Inv(c, Exec(c, s, moves))
    decreases |moves|
  {
    hide Next, Slots, MutexHeldByUploader;
    if moves != [] {
      InvPreserved(c, s, moves[0]);
      RunInv(c, Next(c, s, moves[0]), moves[1..]);
    }
  }

  lemma InvPreserved(c: Config, s: State, m: Move)
    requires ValidConfig(c) && Inv(c, s) && Enabled(c, s, m)
    ensures Inv(c, Next(c, s, m))
  {
    hide Next;
    SlotsPreserved(c, s, m);
    MutexPreserved(c, s, m);
    ShapesPreserved(c, s, m);
  }

  /**
   * In every reachable state: free and held slots add up to the limit, so no more nodes than that are inside
   * Apply; at most one of them is between Lock and Unlock, and the mutex is held exactly by that node, which owns a slot.
   */
  lemma Safe(c: Config, server: Server, moves: seq<Move>)
    requires ValidConfig(c) && CanRun(c, Init(c, server), moves)
    ensures var s := Exec(c, Init(c, server), moves);
            && s.free + |Inside(s.tasks)| == c.limit && s.free >= 0
            && (forall i, j :: 0 <= i < |s.tasks| && 0 <= j < |s.tasks| && Uploading(s.tasks[i]) && Uploading(s.tasks[j]) ==> i == j)
            && (forall i: nat :: s.owner == Some(i) <==> i < |s.tasks| && Uploading(s.tasks[i]))
            && (s.owner.Some? ==> s.owner.value in Inside(s.tasks))
  {
    InitInv(c, server);
    RunInv(c, Init(c, server), moves);
    TotalIsCardinality(Exec(c, Init(c, server), moves).tasks);
  }

  /** Whatever is configured: no more nodes than that are inside Apply at once, and no more than four when nothing is. */
  lemma AtMostConfigured(
      c: Config, setup: Setup, sorted: seq<string>, maxConcurrency: int, keepGoing: bool, server: Server, moves: seq<Move>)
    requires c == ConfigOf(setup, sorted, maxConcurrency, keepGoing) && ValidConfig(c) && CanRun(c, Init(c, server), moves)
    ensures |Inside(Exec(c, Init(c, server), moves).tasks)| <= if maxConcurrency > 0 then maxConcurrency else 4
  {
    hide Init, CanRun, Exec, Inside;
    Safe(c, server, moves);
  }

  /** From a state in which the first k nodes have been admitted, the next ones up to n can be. */
  lemma {:induction false} AdmitUpTo(c: Config, s: State, k: nat, n: nat) returns (moves: seq<Move>)
    requires ValidConfig(c) && |s.tasks| == |c.names| && k <= n <= |c.names| && n <= c.limit
    requires s.free == c.limit - k && (c.keepGoing ==> s.next == k) && forall i :: k <= i < |s.tasks| ==> s.tasks[i].Waiting?
    ensures CanRun(c, s, moves) && Exec(c, s, moves).free == c.limit - n
    decreases n - k
  {
    if k == n {
      moves := [];
    } else {
      var rest := AdmitUpTo(c, Next(c, s, Admit(k)), k + 1, n);
      moves := [Admit(k)] + rest;
      assert moves[1..] == rest;
    }
  }

  /** And that many do get inside, when there are as many nodes: some run puts all of the configured slots to use. */
  lemma AsManyAsConfigured(
      c: Config, setup: Setup, sorted: seq<string>, maxConcurrency: int, keepGoing: bool, server: Server)
    returns (moves: seq<Move>)
    requires c == ConfigOf(setup, sorted, maxConcurrency, keepGoing) && ValidConfig(c)
    ensures CanRun(c, Init(c, server), moves)
    ensures var m := if maxConcurrency > 0 then maxConcurrency else 4;
            |Inside(Exec(c, Init(c, server), moves).tasks)| == if m <= |sorted| then m else |sorted|
  {
    hide CanRun, Exec, Inside, Next, Enabled;
    moves := AdmitUpTo(c, Init(c, server), 0, if c.limit <= |c.names| then c.limit else |c.names|);
    Safe(c, server, moves);
  }
}
