/** No interleaving deadlocks and none goes on forever, in either error regime. */
module Liveness {
  import opened Common
  import opened Proxmox
  import opened SingleVM
  import opened Scheduler
  import opened Safety

  /** Steps a goroutine can still take, at most. */
  function StepsLeft(t: Task): nat {
    match t
    case Waiting(changes) => Weight(Start(changes)) + 5
    case Applying(p) => Weight(p) + 4
    case Returned(_) => 4
    case Logged(_) => 3
    case Released(_, _) => 2
    case Finished(_, _) => 1
  }

  const TASK_WEIGHT: Task -> nat := t => StepsLeft(t)

  ghost function Measure(s: State): nat {
    Total(TASK_WEIGHT, s.tasks) + (if s.canceled then 0 else 1)
  }

  lemma ReactDrops(c: Setup, name: string, p: Progress, err: Option<Error>)
    requires WellPhased(p)
    ensures StepsLeft(TaskAfter(React(c, name, p, err))) < StepsLeft(Applying(p))
  {
    hide React;
  }

  /** A move brings its own task closer to the end. */
  lemma TaskDrops(c: Config, s: State, m: Move)
    requires ValidConfig(c) && Inv(c, s) && Enabled(c, s, m) && m != CancelParent
    ensures m.i < |s.tasks|
    ensures var s' := Next(c, s, m);
            s'.tasks == s.tasks[m.i := s'.tasks[m.i]] && StepsLeft(s'.tasks[m.i]) < StepsLeft(s.tasks[m.i]) && (s.canceled ==> s'.canceled)
  {
    hide Ask, React, Weight, Slots, MutexHeldByUploader;
    if m.Act? {
      var p := s.tasks[m.i].p;
      ReactDrops(c.setup, c.names[m.i], p, Ask(c.setup, c.names[m.i], RequestOf(c.setup, p), s.server, m.fate).err);
    }
  }

  lemma MeasureDrops(c: Config, s: State, m: Move)
    requires ValidConfig(c) && Inv(c, s) && Enabled(c, s, m)
    ensures Measure(Next(c, s, m)) < Measure(s)
  {
    if m != CancelParent {
      hide Next, Slots, MutexHeldByUploader, StepsLeft;
      TaskDrops(c, s, m);
      TotalUpdate(TASK_WEIGHT, s.tasks, m.i, Next(c, s, m).tasks[m.i]);
    }
  }

  /** Every run is at most as long as the measure of its first state. */
  lemma {:induction false} RunsAreBounded(c: Config, s: State, moves: seq<Move>)
    requires ValidConfig(c) && Inv(c, s) && CanRun(c, s, moves)
    ensures |moves| + Measure(Exec(c, s, moves)) <= Measure(s)
    decreases |moves|
  {
    hide Next, Slots, MutexHeldByUploader, Measure;
    if moves != [] {
      InvPreserved(c, s, moves[0]);
      MeasureDrops(c, s, moves[0]);
      RunsAreBounded(c, Next(c, s, moves[0]), moves[1..]);
    }
  }

  /** A holder of the upload mutex can always go on, whatever the other nodes do. */
  lemma HolderCanStep(c: Config, s: State)
    requires ValidConfig(c) && Inv(c, s) && s.owner.Some?
    ensures Enabled(c, s, Act(s.owner.value, Succeeds))
  {
  }

  /** Nobody holds a slot while everybody waits or has finished, so a slot is free for the next waiter. */
  lemma WaiterCanStart(c: Config, s: State) returns (m: Move)
    requires ValidConfig(c) && Inv(c, s) && !AllFinished(s)
    requires forall i :: 0 <= i < |s.tasks| ==> s.tasks[i].Waiting? || s.tasks[i].Finished?
    ensures m.Admit? && Enabled(c, s, m)
  {
    TotalZero(SLOT_COUNT, s.tasks);
    var i: nat :| i < |s.tasks| && !s.tasks[i].Finished?;
    m := Admit(if c.keepGoing then s.next else i);
  }

  /** Until every goroutine has finished, some step other than a cancellation from outside is enabled. */
  lemma NoDeadlock(c: Config, s: State) returns (m: Move)
    requires ValidConfig(c) && Inv(c, s) && !AllFinished(s)
    ensures Enabled(c, s, m) && m != CancelParent
  {
    if i: nat :| i < |s.tasks| && (s.tasks[i].Returned? || s.tasks[i].Logged? || s.tasks[i].Released?) {
      m := if s.tasks[i].Released? then Report(i)
           else if s.tasks[i].Returned? && c.keepGoing then Log(i)
           else Release(i);
    } else if i: nat :| i < |s.tasks| && s.tasks[i].Applying? {
      if s.owner.Some? {
        HolderCanStep(c, s);
        m := Act(s.owner.value, Succeeds);
      } else {
        m := Act(i, Succeeds);
      }
    } else {
      m := WaiterCanStart(c, s);
    }
  }

  lemma StuckIffFinished(c: Config, s: State)
    requires ValidConfig(c) && Inv(c, s)
    ensures (forall m: Move :: m != CancelParent ==> !Enabled(c, s, m)) <==> AllFinished(s)
  {
    if !AllFinished(s) {
      var m := NoDeadlock(c, s);
    }
  }

  lemma FinishedIsClean(c: Config, s: State)
    requires ValidConfig(c) && Inv(c, s) && AllFinished(s)
    ensures s.free == c.limit && s.owner.None?
  {
    TotalZero(SLOT_COUNT, s.tasks);
  }

  /**
   * Both apply modes terminate without deadlock: every run from the start is bounded by a number fixed in advance,
   * and a run that cannot be extended has finished every goroutine, with all slots back and the mutex free.
   */
  lemma Terminates(c: Config, server: Server, moves: seq<Move>)
    requires ValidConfig(c) && CanRun(c, Init(c, server), moves)
    ensures |moves| <= Measure(Init(c, server))
    ensures var s := Exec(c, Init(c, server), moves);
            && ((forall m: Move :: m != CancelParent ==> !Enabled(c, s, m)) <==> AllFinished(s))
            && (AllFinished(s) ==> s.free == c.limit && s.owner.None?)
  {
    hide Enabled, Next, Measure, Inv, Init;
    var s := Exec(c, Init(c, server), moves);
    InitInv(c, server);
    RunInv(c, Init(c, server), moves);
    RunsAreBounded(c, Init(c, server), moves);
    StuckIffFinished(c, s);
    if AllFinished(s) { FinishedIsClean(c, s); }
  }
}
