/**
 * applyPlan as a transition system: one goroutine per node, a counting semaphore, the shared upload mutex,
 * and the two error regimes. A run is any sequence of enabled steps, so it is any interleaving.
 */
module Scheduler {
  import opened Common
  import opened Manifest
  import opened Proxmox
  import opened SingleVM

  /** limit is the number of slots, keepGoing the continue-on-error mode. */
  datatype Config = Config(setup: Setup, names: seq<string>, limit: int, keepGoing: bool)

  ghost predicate ValidConfig(c: Config) {
    && c.limit > 0
    && (forall i :: 0 <= i < |c.names| ==> Defines(c.setup.env, c.names[i]))
    && (forall i, j :: 0 <= i < j < |c.names| ==> c.names[i] != c.names[j])
  }

  function EffectiveLimit(maxConcurrency: int): (n: int)
    ensures n > 0
  {
    if maxConcurrency > 0 then maxConcurrency else 4
  }

  /** What applyPlan runs on, for a workflow's settings. */
  function ConfigOf(setup: Setup, sorted: seq<string>, maxConcurrency: int, keepGoing: bool): Config {
    Config(setup, sorted, EffectiveLimit(maxConcurrency), keepGoing)
  }

  /** Whatever concurrency is configured, there is a slot to be had, and each goroutine has a node of its own. */
  lemma ConfigIsValid(setup: Setup, sorted: seq<string>, maxConcurrency: int, keepGoing: bool)
    requires SortedNames(setup.env, sorted)
    ensures ValidConfig(ConfigOf(setup, sorted, maxConcurrency, keepGoing))
  {
    SortedNamesAreDistinct(setup.env, sorted);
  }

  /** A node's goroutine, from before it starts to after it has reported. */
  datatype Task =
    | Waiting(changes: seq<Change>)                       // not spawned, or blocked on the semaphore
    | Applying(p: Progress)                               // inside Apply, slot held
    | Returned(err: Option<Error>)                        // Apply returned, slot held
    | Logged(err: Option<Error>)                          // continue mode: error appended, slot held
    | Released(err: Option<Error>, applied: bool)         // slot given back
    | Finished(err: Option<Error>, applied: bool)         // wg.Done, or the errgroup has seen the result

  /**
   * next counts the spawned goroutines in continue mode. entered, logged and reported are what an observer sees:
   * who entered Apply, what was appended to errs, and the results in the order the errgroup received them.
   */
  datatype State = State(
    tasks: seq<Task>, next: nat, free: int, owner: Option<nat>, canceled: bool,
    entered: seq<nat>, logged: seq<(nat, Error)>, reported: seq<(nat, Option<Error>)>, groupErr: Option<Error>,
    server: Server)

  datatype Move =
    | Admit(i: nat)            // sem <- struct{}{}
    | Abandon(i: nat)          // <-gctx.Done()
    | Act(i: nat, fate: Fate)  // one step of the node's Apply
    | Log(i: nat)              // errs = append(errs, ...) under emu
    | Release(i: nat)          // <-sem
    | Report(i: nat)           // wg.Done, or errgroup's errOnce
    | CancelParent             // the caller's context is canceled

  ghost function Init(c: Config, s: Server): (st: State)
    requires ValidConfig(c)
    ensures |st.tasks| == |c.names|
  {
    State(
      seq(|c.names|, i requires 0 <= i < |c.names| => Waiting(PlanOf(c.setup, c.names[i]))),
      0, c.limit, None, false, [], [], [], None, s)
  }

  predicate HasSlot(t: Task) {
    t.Applying? || t.Returned? || t.Logged?
  }

  predicate Uploading(t: Task) {
    t.Applying? && HoldsLock(t.p)
  }

  ghost predicate Enabled(c: Config, s: State, m: Move) {
    match m
    case Admit(i) => i < |s.tasks| && s.tasks[i].Waiting? && s.free > 0 && (c.keepGoing ==> i == s.next)
    case Abandon(i) => i < |s.tasks| && s.tasks[i].Waiting? && !c.keepGoing && s.canceled
    case Act(i, _) =>
      && i < |s.tasks| && s.tasks[i].Applying? && WellPhased(s.tasks[i].p)
      && (TakesLock(c.setup, s.tasks[i].p) ==> s.owner.None?)
    case Log(i) => i < |s.tasks| && s.tasks[i].Returned? && c.keepGoing
    case Release(i) => i < |s.tasks| && (if c.keepGoing then s.tasks[i].Logged? else s.tasks[i].Returned?)
    case Report(i) => i < |s.tasks| && s.tasks[i].Released?
    case CancelParent => !s.canceled
  }

  function TaskAfter(r: Reaction): Task {
    match r
    case Go(p) => Applying(p)
    case Stop(err) => Returned(err)
  }

  function OwnerAfter(c: Config, s: State, i: nat, p: Progress): Option<nat> {
    if TakesLock(c.setup, p) then Some(i)
    else if p.phase.Unlocking? then None
    else s.owner
  }

  ghost function Next(c: Config, s: State, m: Move): State
    requires ValidConfig(c) && |s.tasks| == |c.names| && Enabled(c, s, m)
  {
    match m
    case Admit(i) =>
      s.(tasks := s.tasks[i := Applying(Start(s.tasks[i].changes))], free := s.free - 1,
         next := if c.keepGoing then s.next + 1 else s.next, entered := s.entered + [i])
    case Abandon(i) => s.(tasks := s.tasks[i := Released(Some(Canceled), false)])
    case Act(i, fate) =>
      var p := s.tasks[i].p;
      var reply := Ask(c.setup, c.names[i], RequestOf(c.setup, p), s.server, fate);
      s.(tasks := s.tasks[i := TaskAfter(React(c.setup, c.names[i], p, reply.err))], server := reply.server, owner := OwnerAfter(c, s, i, p))
    case Log(i) =>
      var err := s.tasks[i].err;
      s.(tasks := s.tasks[i := Logged(err)],
         logged := if err.Some? then s.logged + [(i, Wrapped(c.names[i], err.value))] else s.logged)
    case Release(i) => s.(tasks := s.tasks[i := Released(s.tasks[i].err, true)], free := s.free + 1)
    case Report(i) =>
      var t := s.tasks[i];
      var err := if t.err.Some? && t.applied then Some(Wrapped(c.names[i], t.err.value)) else t.err;
      var s' := s.(tasks := s.tasks[i := Finished(t.err, t.applied)], reported := s.reported + [(i, err)]);
      if c.keepGoing || err.None? then s'
      else s'.(groupErr := if s.groupErr.None? then err else s.groupErr, canceled := true)
    case CancelParent => s.(canceled := true)
  }

  ghost predicate AllFinished(s: State) {
    forall i :: 0 <= i < |s.tasks| ==> s.tasks[i].Finished?
  }

  /** moves is an interleaving that can happen from s. */
  ghost predicate CanRun(c: Config, s: State, moves: seq<Move>)
    requires ValidConfig(c) && |s.tasks| == |c.names|
    decreases |moves|
  {
    moves == [] || (Enabled(c, s, moves[0]) && CanRun(c, Next(c, s, moves[0]), moves[1..]))
  }

  ghost function Exec(c: Config, s: State, moves: seq<Move>): (s': State)
    requires ValidConfig(c) && |s.tasks| == |c.names| && CanRun(c, s, moves)
    ensures |s'.tasks| == |c.names|
    decreases |moves|
  {
    if moves == [] then s else Exec(c, Next(c, s, moves[0]), moves[1..])
  }

  // ----- sums over the tasks

  ghost function Total(f: Task -> nat, ts: seq<Task>): nat {
    if ts == [] then 0 else f(ts[0]) + Total(f, ts[1..])
  }

  lemma {:induction false} TotalUpdate(f: Task -> nat, ts: seq<Task>, i: nat, t: Task)
    requires i < |ts|
    ensures Total(f, ts[i := t]) == Total(f, ts) - f(ts[i]) + f(t)
  {
    if i > 0 {
      assert ts[i := t][1..] == ts[1..][i - 1 := t];
      TotalUpdate(f, ts[1..], i - 1, t);
    } else {
      assert ts[i := t][1..] == ts[1..];
    }
  }

  lemma {:induction false} TotalAtLeast(f: Task -> nat, ts: seq<Task>, i: nat)
    requires i < |ts|
    ensures Total(f, ts) >= f(ts[i])
  {
    if i > 0 { TotalAtLeast(f, ts[1..], i - 1); }
  }

  lemma {:induction false} TotalZero(f: Task -> nat, ts: seq<Task>)
    requires forall i :: 0 <= i < |ts| ==> f(ts[i]) == 0
    ensures Total(f, ts) == 0
  {
    if ts != [] { TotalZero(f, ts[1..]); }
  }

  const SLOT_COUNT: Task -> nat := t => if HasSlot(t) then 1 else 0

  ghost function Inside(ts: seq<Task>): set<nat> {
    set i: nat | i < |ts| && HasSlot(ts[i])
  }

  lemma {:induction false} TotalIsCardinality(ts: seq<Task>)
    ensures Total(SLOT_COUNT, ts) == |Inside(ts)|
    decreases |ts|
  {
    hide HasSlot;
    if ts == [] {
      NobodyInside();
    } else {
      hide Inside, Total;
      var last := |ts| - 1;
      TotalIsCardinality(ts[..last]);
      TotalSnoc(SLOT_COUNT, ts[..last], ts[last]);
      InsideSnoc(ts[..last], ts[last]);
      assert ts[..last] + [ts[last]] == ts;
    }
  }

  lemma NobodyInside()
    ensures Inside([]) == {} && Total(SLOT_COUNT, []) == 0
  {
  }

  lemma InsideSnoc(ts: seq<Task>, t: Task)
    ensures Inside(ts + [t]) == if HasSlot(t) then Inside(ts) + {|ts|} else Inside(ts)
    ensures |ts| !in Inside(ts)
  {
    hide HasSlot;
    assert forall i: nat :: i < |ts| ==> (ts + [t])[i] == ts[i];
  }

  lemma {:induction false} TotalSnoc(f: Task -> nat, ts: seq<Task>, t: Task)
    ensures Total(f, ts + [t]) == Total(f, ts) + f(t)
  {
    if ts == [] {
      assert ([] + [t])[1..] == [];
    } else {
      assert (ts + [t])[1..] == ts[1..] + [t];
      TotalSnoc(f, ts[1..], t);
    }
  }
}
