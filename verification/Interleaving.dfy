/** Whatever the interleaving, the server ends as if the nodes had been applied one after another. */
module Interleaving {
  import opened Common
  import opened Manifest
  import opened Proxmox
  import opened SingleVM
  import opened Scheduler
  import opened Safety
  import opened Outcomes
  import opened Locality
  import opened Confluence

  /** Nothing but the nodes' own VMs and uploads differs from s0. */
  ghost predicate OutsideSame(c: Config, s0: Server, s: Server)
    requires ValidConfig(c)
  {
    && s.shared == s0.shared
    && (forall k :: (forall i :: 0 <= i < |c.names| ==> k != Key(c.setup, c.names[i])) ==> At(s.vms, k) == At(s0.vms, k))
    && (forall k :: (forall i :: 0 <= i < |c.names| ==> k != UploadKey(c.setup, c.names[i], s0)) ==> At(s.files, k) == At(s0.files, k))
    && (c.setup.skipBuild ==> s.files == s0.files)
  }

  lemma OwnKeepsOutside(c: Config, i: nat, s0: Server, s: Server, s': Server)
    requires ValidConfig(c) && i < |c.names| && OutsideSame(c, s0, s) && OnlyOwn(c.setup, c.names[i], s, s')
    ensures OutsideSame(c, s0, s')
  {
  }

  /** The fates met so far by each node's steps. */
  type Acts = seq<seq<Fate>>

  function Note(acts: Acts, m: Move): Acts {
    if m.Act? && m.i < |acts| then acts[m.i := acts[m.i] + [m.fate]] else acts
  }

  function Acted(acts: Acts, moves: seq<Move>): (r: Acts)
    ensures |r| == |acts|
    decreases |moves|
  {
    if moves == [] then acts else Acted(Note(acts, moves[0]), moves[1..])
  }

  function NoActs(c: Config): Acts {
    seq(|c.names|, i requires 0 <= i < |c.names| => [])
  }

  /** Where a lone Apply stands when the goroutine is at t; none when it has not entered Apply. */
  function Stage(t: Task): Option<Task> {
    match t
    case Waiting(_) => None
    case Applying(_) => Some(t)
    case Returned(_) => Some(t)
    case Logged(err) => Some(Returned(err))
    case Released(err, applied) => if applied then Some(Returned(err)) else None
    case Finished(err, applied) => if applied then Some(Returned(err)) else None
  }

  /** The node, and its part of the server, are where the node alone would be, its steps meeting the same fates. */
  ghost predicate Follows(c: Config, i: nat, t: Task, acts: seq<Fate>, s0: Server, s: Server)
    requires i < |c.names| && Defines(c.setup.env, c.names[i])
  {
    var name, lone := c.names[i], Lone(c.setup, c.names[i], acts, s0);
    && Agree(c.setup, name, s, lone.1)
    && (if Stage(t).None? then acts == [] else lone.0 == Stage(t).value)
    && (t.Waiting? ==> t.changes == PlanOf(c.setup, name))
  }

  ghost predicate AllFollow(c: Config, s0: Server, s: State, acts: Acts)
    requires ValidConfig(c) && |s.tasks| == |c.names|
  {
    && |acts| == |c.names| && OutsideSame(c, s0, s.server)
    && (forall i: nat :: i < |c.names| ==> Follows(c, i, s.tasks[i], acts[i], s0, s.server))
  }

  lemma InitFollows(c: Config, s0: Server)
    requires ValidConfig(c)
    ensures AllFollow(c, s0, Init(c, s0), NoActs(c))
  {
    hide PlanOf;
  }

  /** A goroutine's own moves that make no call. */
  lemma FollowsQuiet(c: Config, s0: Server, s: State, m: Move, acts: Acts)
    requires ValidConfig(c) && Inv(c, s) && Enabled(c, s, m) && AllFollow(c, s0, s, acts) && !m.Act? && m != CancelParent
    ensures Follows(c, m.i, Next(c, s, m).tasks[m.i], acts[m.i], s0, s.server)
  {
    hide Ask, React, PlanOf, Agree, Slots, MutexHeldByUploader, OutsideSame, StepOf;
    assert Follows(c, m.i, s.tasks[m.i], acts[m.i], s0, s.server);
  }

  lemma QuietMove(c: Config, s: State, m: Move)
    requires ValidConfig(c) && Inv(c, s) && Enabled(c, s, m)
    ensures !m.Act? ==> Next(c, s, m).server == s.server
  {
  }

  lemma FollowPreserved(c: Config, s0: Server, s: State, m: Move, acts: Acts)
    requires ValidConfig(c) && DistinctVMs(c) && Inv(c, s) && Enabled(c, s, m) && AllFollow(c, s0, s, acts)
    ensures AllFollow(c, s0, Next(c, s, m), Note(acts, m))
  {
    hide Next, Follows, OutsideSame, Slots, MutexHeldByUploader;
    MoveFrame(c, s, m);
    QuietMove(c, s, m);
    if m.Act? {
      ActFollows(c, s0, s, m, acts);
    } else if m != CancelParent {
      FollowsQuiet(c, s0, s, m, acts);
    }
  }

  /** The node's own step. */
  lemma FollowsAct(c: Config, s0: Server, s: State, m: Move, acts: Acts)
    requires ValidConfig(c) && Inv(c, s) && m.Act? && Enabled(c, s, m) && AllFollow(c, s0, s, acts)
    ensures Follows(c, m.i, Next(c, s, m).tasks[m.i], acts[m.i] + [m.fate], s0, Next(c, s, m).server)
    ensures OnlyOwn(c.setup, c.names[m.i], s.server, Next(c, s, m).server)
  {
    hide Ask, React, PlanOf, Agree, OnlyOwn, Slots, MutexHeldByUploader, OutsideSame, InApply;
    var i, name := m.i, c.names[m.i];
    var old_, t := acts[i], s.tasks[i];
    assert Follows(c, i, t, old_, s0, s.server);
    var lone := Lone(c.setup, name, old_, s0);
    assert (old_ + [m.fate])[..|old_|] == old_;
    LoneFits(c.setup, name, old_, s0);
    StepIsLocal(c.setup, name, t, s.server, lone.1, m.fate);
  }

  lemma ActFollows(c: Config, s0: Server, s: State, m: Move, acts: Acts)
    requires ValidConfig(c) && DistinctVMs(c) && Inv(c, s) && m.Act? && Enabled(c, s, m) && AllFollow(c, s0, s, acts)
    ensures AllFollow(c, s0, Next(c, s, m), Note(acts, m))
  {
    hide Next, OutsideSame, OnlyOwn, Agree, Lone, Slots, MutexHeldByUploader, DistinctVMs;
    var i, s' := m.i, Next(c, s, m);
    MoveFrame(c, s, m);
    FollowsAct(c, s0, s, m, acts);
    OwnKeepsOutside(c, i, s0, s.server, s'.server);
    forall j: nat | j < |c.names| ensures Follows(c, j, s'.tasks[j], Note(acts, m)[j], s0, s'.server) {
      if j != i {
        assert Follows(c, j, s.tasks[j], acts[j], s0, s.server);
        OthersAgree(c, i, j, s.server, s'.server);
        AgreeSymmetric(c.setup, c.names[j], s.server, s'.server);
        AgreeTransitive(c.setup, c.names[j], s'.server, s.server, Lone(c.setup, c.names[j], acts[j], s0).1);
      }
    }
  }

  /** In every interleaving, whatever fails, each node is where it would be alone, its steps meeting the same fates. */
  lemma {:induction false} RunFollows(c: Config, s0: Server, s: State, moves: seq<Move>, acts: Acts)
    requires ValidConfig(c) && DistinctVMs(c) && Inv(c, s) && AllFollow(c, s0, s, acts) && CanRun(c, s, moves)
    ensures AllFollow(c, s0, Exec(c, s, moves), Acted(acts, moves))
    decreases |moves|
  {
    hide Next, Enabled, Slots, MutexHeldByUploader, AllFollow, DistinctVMs, Note;
    if moves != [] {
      FollowPreserved(c, s0, s, moves[0], acts);
      InvPreserved(c, s, moves[0]);
      RunFollows(c, s0, Next(c, s, moves[0]), moves[1..], Note(acts, moves[0]));
    }
  }

  // ----- one after another

  /** The server after applying the first n nodes in sorted order, the steps of node i meeting the fates acts[i]. */
  function Serial(c: Config, n: nat, acts: Acts, s0: Server): Server
    requires n <= |c.names| == |acts| && forall i :: 0 <= i < |c.names| ==> Defines(c.setup.env, c.names[i])
  {
    if n == 0 then s0 else Lone(c.setup, c.names[n - 1], acts[n - 1], Serial(c, n - 1, acts, s0)).1
  }

  /** The first n nodes are where they would be alone, the others untouched. */
  ghost predicate FirstApplied(c: Config, n: nat, acts: Acts, s0: Server, s: Server)
    requires ValidConfig(c) && |acts| == |c.names|
  {
    && OutsideSame(c, s0, s)
    && (forall i: nat :: i < n && i < |c.names| ==> Agree(c.setup, c.names[i], s, Lone(c.setup, c.names[i], acts[i], s0).1))
    && (forall i: nat :: n <= i < |c.names| ==> Agree(c.setup, c.names[i], s, s0))
  }

  lemma ApplyOneMore(c: Config, n: nat, acts: Acts, s0: Server, s: Server)
    requires ValidConfig(c) && DistinctVMs(c) && |acts| == |c.names| && n < |c.names| && FirstApplied(c, n, acts, s0, s)
    ensures FirstApplied(c, n + 1, acts, s0, Lone(c.setup, c.names[n], acts[n], s).1)
    ensures Lone(c.setup, c.names[n], acts[n], s).0 == Lone(c.setup, c.names[n], acts[n], s0).0
  {
    hide Lone, OnlyOwn, Agree, OutsideSame, DistinctVMs;
    var name, s' := c.names[n], Lone(c.setup, c.names[n], acts[n], s).1;
    LoneIsLocal(c.setup, name, acts[n], s, s0);
    OwnKeepsOutside(c, n, s0, s, s');
    forall j: nat | j < |c.names| && j != n
      ensures Agree(c.setup, c.names[j], s', if j < n then Lone(c.setup, c.names[j], acts[j], s0).1 else s0)
    {
      OthersAgree(c, n, j, s, s');
      AgreeSymmetric(c.setup, c.names[j], s, s');
      AgreeTransitive(c.setup, c.names[j], s', s, if j < n then Lone(c.setup, c.names[j], acts[j], s0).1 else s0);
    }
  }

  /** What node i answers when its turn comes. */
  function Turn(c: Config, i: nat, acts: Acts, s0: Server): Task
    requires i < |c.names| == |acts| && forall i :: 0 <= i < |c.names| ==> Defines(c.setup.env, c.names[i])
  {
    Lone(c.setup, c.names[i], acts[i], Serial(c, i, acts, s0)).0
  }

  /** Applied one by one, each node does and answers what it does and answers alone. */
  lemma {:induction false} SerialFollows(c: Config, n: nat, acts: Acts, s0: Server)
    requires ValidConfig(c) && DistinctVMs(c) && n <= |c.names| == |acts|
    ensures FirstApplied(c, n, acts, s0, Serial(c, n, acts, s0))
    ensures forall i: nat :: i < n ==> Turn(c, i, acts, s0) == Lone(c.setup, c.names[i], acts[i], s0).0
  {
    hide Lone, DistinctVMs, FirstApplied, Turn;
    if n == 0 {
      NoneApplied(c, acts, s0);
    } else {
      SerialFollows(c, n - 1, acts, s0);
      ApplyOneMore(c, n - 1, acts, s0, Serial(c, n - 1, acts, s0));
      TurnIs(c, n - 1, acts, s0);
    }
  }

  lemma TurnIs(c: Config, i: nat, acts: Acts, s0: Server)
    requires i < |c.names| == |acts| && forall i :: 0 <= i < |c.names| ==> Defines(c.setup.env, c.names[i])
    ensures Turn(c, i, acts, s0) == Lone(c.setup, c.names[i], acts[i], Serial(c, i, acts, s0)).0
  {
  }

  lemma NoneApplied(c: Config, acts: Acts, s: Server)
    requires ValidConfig(c) && |acts| == |c.names|
    ensures FirstApplied(c, 0, acts, s, s)
  {
  }

  /** Two servers that agree on what the nodes own, and with s0 elsewhere, are equal. */
  lemma SameServer(c: Config, s0: Server, s: Server, t: Server)
    requires ValidConfig(c) && OutsideSame(c, s0, s) && OutsideSame(c, s0, t)
    requires forall i: nat :: i < |c.names| ==> Agree(c.setup, c.names[i], s, t)
    ensures s == t
  {
    hide Agree, OutsideSame;
    forall k ensures At(s.vms, k) == At(t.vms, k) { SameVM(c, s0, s, t, k); }
    SameEverywhere(s.vms, t.vms);
    forall k ensures At(s.files, k) == At(t.files, k) { SameFile(c, s0, s, t, k); }
    SameEverywhere(s.files, t.files);
    SameShared(c, s0, s, t);
  }

  lemma SameShared(c: Config, s0: Server, s: Server, t: Server)
    requires ValidConfig(c) && OutsideSame(c, s0, s) && OutsideSame(c, s0, t)
    ensures s.shared == s0.shared == t.shared
  {
  }

  lemma SameVM(c: Config, s0: Server, s: Server, t: Server, k: VMKey)
    requires ValidConfig(c) && OutsideSame(c, s0, s) && OutsideSame(c, s0, t)
    requires forall i: nat :: i < |c.names| ==> Agree(c.setup, c.names[i], s, t)
    ensures At(s.vms, k) == At(t.vms, k)
  {
    hide UploadKey, VerifyKey, Key;
    if i: nat :| i < |c.names| && k == Key(c.setup, c.names[i]) {
      assert Agree(c.setup, c.names[i], s, t);
    }
  }

  lemma SameFile(c: Config, s0: Server, s: Server, t: Server, k: (string, string))
    requires ValidConfig(c) && OutsideSame(c, s0, s) && OutsideSame(c, s0, t)
    requires forall i: nat :: i < |c.names| ==> Agree(c.setup, c.names[i], s, t)
    ensures At(s.files, k) == At(t.files, k)
  {
    hide UploadKey, VerifyKey, Key;
    if i: nat :| i < |c.names| && k == UploadKey(c.setup, c.names[i], s0) {
      assert Agree(c.setup, c.names[i], s, t);
      UploadKeyIsFixed(c.setup, c.names[i], s0, s);
      UploadKeyIsFixed(c.setup, c.names[i], s0, t);
    }
  }

  lemma UploadKeyIsFixed(c: Setup, name: string, s: Server, t: Server)
    requires Defines(c.env, name) && s.shared == t.shared
    ensures UploadKey(c, name, s) == UploadKey(c, name, t)
  {
  }

  /** The node's turn ends as the goroutine did, or the goroutine never entered Apply and made no step. */
  ghost predicate Answers(c: Config, i: nat, t: Task, acts: Acts, s0: Server)
    requires ValidConfig(c) && i < |c.names| == |acts|
  {
    t.Finished? && (if t.applied then Turn(c, i, acts, s0) == Returned(t.err) else acts[i] == [])
  }

  /**
   * Every run of either mode that has come to its end, whatever failed, was canceled or never started, leaves exactly
   * the server that applying the nodes one after another in sorted order leaves, the steps of each meeting the same
   * fates as in the run; and each node that was applied answers the same.
   */
  lemma RunIsSerial(c: Config, s0: Server, moves: seq<Move>)
    requires ValidConfig(c) && DistinctVMs(c) && CanRun(c, Init(c, s0), moves) && AllFinished(Exec(c, Init(c, s0), moves))
    ensures var s, acts := Exec(c, Init(c, s0), moves), Acted(NoActs(c), moves);
            && s.server == Serial(c, |c.names|, acts, s0)
            && forall i: nat :: i < |c.names| ==> Answers(c, i, s.tasks[i], acts, s0)
  {
    hide Init, Next, Enabled, CanRun, Lone, Agree, OutsideSame, DistinctVMs, Slots, MutexHeldByUploader, Acted, Turn, Serial;
    var s, acts := Exec(c, Init(c, s0), moves), Acted(NoActs(c), moves);
    var t := Serial(c, |c.names|, acts, s0);
    InitInv(c, s0);
    InitFollows(c, s0);
    RunFollows(c, s0, Init(c, s0), moves, NoActs(c));
    SerialFollows(c, |c.names|, acts, s0);
    forall i: nat | i < |c.names|
      ensures Agree(c.setup, c.names[i], s.server, t)
      ensures Answers(c, i, s.tasks[i], acts, s0)
    {
      assert Follows(c, i, s.tasks[i], acts[i], s0, s.server);
      var lone := Lone(c.setup, c.names[i], acts[i], s0).1;
      AgreeSymmetric(c.setup, c.names[i], t, lone);
      AgreeTransitive(c.setup, c.names[i], s.server, lone, t);
    }
    SameServer(c, s0, s.server, t);
  }

  // ----- runs in which nodes succeed

  predicate Clean(m: Move) {
    m.Act? ==> m.fate.Succeeds?
  }

  /** A node that returned nil is where it gets with every call succeeding; clean says that no call has failed. */
  ghost predicate Landed(c: Config, i: nat, err: Option<Error>, s0: Server, s: Server, clean: bool)
    requires i < |c.names| && Defines(c.setup.env, c.names[i])
  {
    var want := Alone(c, i, s0);
    if err.None? then want.1.None? && Agree(c.setup, c.names[i], s, want.0) else clean ==> want.1.Some?
  }

  lemma {:induction false} CleanActs(acts: Acts, moves: seq<Move>, i: nat)
    requires i < |acts| && (forall f :: f in acts[i] ==> f.Succeeds?) && forall m :: m in moves ==> Clean(m)
    ensures forall f :: f in Acted(acts, moves)[i] ==> f.Succeeds?
    decreases |moves|
  {
    if moves != [] {
      assert Clean(moves[0]);
      CleanActs(Note(acts, moves[0]), moves[1..], i);
    }
  }

  lemma FinishedHasLanded(c: Config, s0: Server, moves: seq<Move>, i: nat)
    requires ValidConfig(c) && DistinctVMs(c) && CanRun(c, Init(c, s0), moves) && i < |c.names|
    requires var t := Exec(c, Init(c, s0), moves).tasks[i]; t.Finished? && t.applied
    ensures var s := Exec(c, Init(c, s0), moves);
            Landed(c, i, s.tasks[i].err, s0, s.server, forall m :: m in moves ==> Clean(m))
  {
    hide Init, Next, Enabled, CanRun, Lone, Agree, OutsideSame, DistinctVMs, Slots, MutexHeldByUploader, Acted, CleanRun, Clean;
    var s, acts := Exec(c, Init(c, s0), moves), Acted(NoActs(c), moves);
    InitInv(c, s0);
    InitFollows(c, s0);
    RunFollows(c, s0, Init(c, s0), moves, NoActs(c));
    assert Follows(c, i, s.tasks[i], acts[i], s0, s.server);
    LoneOnCourse(c, i, acts[i], s0);
    if forall m :: m in moves ==> Clean(m) { CleanActs(NoActs(c), moves, i); }
  }

  /** The server after applying the first n nodes in sorted order, every call succeeding. */
  function Sequential(c: Config, n: nat, s0: Server): Server
    requires n <= |c.names| && forall i :: 0 <= i < |c.names| ==> Defines(c.setup.env, c.names[i])
  {
    if n == 0 then s0 else Alone(c, n - 1, Sequential(c, n - 1, s0)).0
  }

  /** What node i answers when the nodes are applied like that. */
  function SequentialAnswer(c: Config, i: nat, s0: Server): Option<Error>
    requires i < |c.names| && forall i :: 0 <= i < |c.names| ==> Defines(c.setup.env, c.names[i])
  {
    Alone(c, i, Sequential(c, i, s0)).1
  }

  lemma SequentialAnswerIs(c: Config, i: nat, s0: Server)
    requires i < |c.names| && forall i :: 0 <= i < |c.names| ==> Defines(c.setup.env, c.names[i])
    ensures SequentialAnswer(c, i, s0) == Alone(c, i, Sequential(c, i, s0)).1
  {
  }

  lemma {:induction false} SerialIsSequential(c: Config, n: nat, acts: Acts, s0: Server)
    requires ValidConfig(c) && n <= |c.names| == |acts|
    requires forall i: nat :: i < n ==> Turn(c, i, acts, s0) == Returned(None)
    ensures Serial(c, n, acts, s0) == Sequential(c, n, s0)
    ensures forall i: nat :: i < n ==> SequentialAnswer(c, i, s0).None?
  {
    hide Lone, Alone, Turn, SequentialAnswer;
    if n > 0 {
      SerialIsSequential(c, n - 1, acts, s0);
      assert Turn(c, n - 1, acts, s0) == Returned(None);
      TurnIs(c, n - 1, acts, s0);
      SequentialAnswerIs(c, n - 1, s0);
      NilIsAlone(c, n - 1, acts[n - 1], Serial(c, n - 1, acts, s0));
    }
  }

  lemma NilIsAlone(c: Config, i: nat, acts: seq<Fate>, s: Server)
    requires i < |c.names| && Defines(c.setup.env, c.names[i]) && Lone(c.setup, c.names[i], acts, s).0 == Returned(None)
    ensures Alone(c, i, s) == (Lone(c.setup, c.names[i], acts, s).1, None)
  {
    hide Lone, Alone;
    LoneOnCourse(c, i, acts, s);
  }

  /**
   * Confluence: in every interleaving of either mode in which all nodes succeed, the server ends exactly as if the
   * nodes had been applied one after another in sorted order, and none of those sequential applies fails.
   */
  lemma ConcurrentIsSequential(c: Config, s0: Server, moves: seq<Move>)
    requires ValidConfig(c) && DistinctVMs(c) && CanRun(c, Init(c, s0), moves)
    requires forall i :: 0 <= i < |c.names| ==> Exec(c, Init(c, s0), moves).tasks[i] == Finished(None, true)
    ensures Exec(c, Init(c, s0), moves).server == Sequential(c, |c.names|, s0)
    ensures forall i: nat :: i < |c.names| ==> SequentialAnswer(c, i, s0).None?
  {
    hide Init, Next, Enabled, CanRun, Turn, DistinctVMs, Acted, Serial, Sequential, SequentialAnswer;
    var s, acts := Exec(c, Init(c, s0), moves), Acted(NoActs(c), moves);
    RunIsSerial(c, s0, moves);
    forall i: nat | i < |c.names| ensures Turn(c, i, acts, s0) == Returned(None) {
      assert Answers(c, i, s.tasks[i], acts, s0);
    }
    SerialIsSequential(c, |c.names|, acts, s0);
  }
}
