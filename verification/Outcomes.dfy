/** What applyPlan returns in each mode, and that every node is applied as often as the mode promises. */
module Outcomes {
  import opened Common
  import opened Proxmox
  import opened SingleVM
  import opened Scheduler
  import opened Safety

  /** The node went through Apply, or is inside it. */
  predicate Entered(t: Task) {
    HasSlot(t) || ((t.Released? || t.Finished?) && t.applied)
  }

  /** The node failed and its error is in errs. */
  predicate HasLogged(t: Task) {
    (t.Logged? || t.Released? || t.Finished?) && t.err.Some?
  }

  ghost predicate EnteredOnce(s: State) {
    && (forall j, k :: 0 <= j < k < |s.entered| ==> s.entered[j] != s.entered[k])
    && (forall i: nat :: i in s.entered <==> i < |s.tasks| && Entered(s.tasks[i]))
  }

  /** A node's error as the code wraps it with the node's name. */
  function NamedError(c: Config, i: nat, err: Error): Error
    requires i < |c.names|
  {
    Wrapped(c.names[i], err)
  }

  /** i has an entry in xs. */
  ghost predicate Listed<T>(xs: seq<(nat, T)>, i: nat) {
    exists k :: 0 <= k < |xs| && xs[k].0 == i
  }

  ghost predicate OncePerNode<T>(xs: seq<(nat, T)>) {
    forall j, k :: 0 <= j < k < |xs| ==> xs[j].0 != xs[k].0
  }

  lemma ListedSnoc<T>(xs: seq<(nat, T)>, x: (nat, T))
    ensures forall i: nat :: Listed(xs + [x], i) <==> Listed(xs, i) || i == x.0
    ensures OncePerNode(xs) && !Listed(xs, x.0) ==> OncePerNode(xs + [x])
  {
    var ys := xs + [x];
    forall i: nat | Listed(xs, i) || i == x.0 ensures Listed(ys, i) {
      if Listed(xs, i) {
        var k :| 0 <= k < |xs| && xs[k].0 == i;
        assert ys[k].0 == i;
      } else {
        assert ys[|xs|].0 == i;
      }
    }
  }

  ghost predicate LoggedExactly(c: Config, s: State)
    requires |s.tasks| == |c.names|
  {
    && (!c.keepGoing ==> s.logged == [])
    && (c.keepGoing ==>
          && OncePerNode(s.logged)
          && (forall k :: 0 <= k < |s.logged| ==>
                var i := s.logged[k].0;
                i < |s.tasks| && HasLogged(s.tasks[i]) && s.logged[k].1 == NamedError(c, i, s.tasks[i].err.value))
          && (forall i: nat :: (i < |s.tasks| && HasLogged(s.tasks[i])) <==> Listed(s.logged, i)))
  }

  /** What the errgroup (or wg.Wait) receives from a goroutine that has given its slot back. */
  function Answer(c: Config, i: nat, t: Task): Option<Error>
    requires i < |c.names| && (t.Released? || t.Finished?)
  {
    if t.err.Some? && t.applied then Some(NamedError(c, i, t.err.value)) else t.err
  }

  ghost predicate ReportedExactly(c: Config, s: State)
    requires |s.tasks| == |c.names|
  {
    && OncePerNode(s.reported)
    && (forall k :: 0 <= k < |s.reported| ==>
          var i := s.reported[k].0;
          i < |s.tasks| && s.tasks[i].Finished? && s.reported[k].1 == Answer(c, i, s.tasks[i]))
    && (forall i: nat :: (i < |s.tasks| && s.tasks[i].Finished?) <==> Listed(s.reported, i))
  }

  /** The first error of a list of results, in order. */
  ghost function FirstError(rs: seq<(nat, Option<Error>)>): (e: Option<Error>)
    ensures e.None? <==> forall k :: 0 <= k < |rs| ==> rs[k].1.None?
    ensures e.Some? ==> exists k :: 0 <= k < |rs| && rs[k].1 == e && forall j :: 0 <= j < k ==> rs[j].1.None?
  {
    if rs == [] then None
    else
      var last := |rs| - 1;
      var e := FirstError(rs[..last]);
      if e.Some? then e else rs[last].1
  }

  /** Only a canceled errgroup context makes a waiter give up, and without the caller only an error cancels it. */
  ghost predicate CancelLaw(c: Config, s: State, fromOutside: bool)
    requires |s.tasks| == |c.names|
  {
    && (forall i :: 0 <= i < |s.tasks| && (s.tasks[i].Released? || s.tasks[i].Finished?) && !s.tasks[i].applied ==>
          !c.keepGoing && s.canceled && s.tasks[i].err == Some(Canceled))
    && (c.keepGoing ==> s.groupErr.None?)
    && (s.groupErr.Some? ==> s.canceled)
    && (!c.keepGoing ==> s.groupErr == FirstError(s.reported))
    && (!fromOutside ==> (s.canceled <==> s.groupErr.Some?))
    && (!fromOutside && s.groupErr.Some? ==>
          exists i :: 0 <= i < |s.tasks| && s.tasks[i].Finished? && s.tasks[i].applied
                      && s.tasks[i].err.Some? && s.groupErr == Some(NamedError(c, i, s.tasks[i].err.value)))
  }

  lemma EnteredPreserved(c: Config, s: State, m: Move)
    requires ValidConfig(c) && Inv(c, s) && Enabled(c, s, m) && EnteredOnce(s)
    ensures EnteredOnce(Next(c, s, m))
  {
    hide Ask, React;
    var s' := Next(c, s, m);
    if m.Admit? {
      assert m.i !in s.entered;
      forall i: nat ensures i in s'.entered <==> i < |s'.tasks| && Entered(s'.tasks[i]) {
        assert i in s'.entered <==> i in s.entered || i == m.i;
      }
    } else if m != CancelParent {
      assert Entered(s'.tasks[m.i]) == Entered(s.tasks[m.i]);
    }
  }

  /** Which part of the observations a move can change, and what it does to its own task. */
  lemma MoveFrame(c: Config, s: State, m: Move)
    requires ValidConfig(c) && Inv(c, s) && Enabled(c, s, m)
    ensures var s' := Next(c, s, m);
            && (m == CancelParent ==> s' == s.(canceled := true))
            && (m != CancelParent ==> m.i < |s.tasks| && s'.tasks == s.tasks[m.i := s'.tasks[m.i]] && !s.tasks[m.i].Finished?)
            && (!m.Log? ==> s'.logged == s.logged)
            && (m != CancelParent && !m.Log? && !m.Release? && !m.Report? && !m.Abandon? ==> !HasLogged(s'.tasks[m.i]) && !HasLogged(s.tasks[m.i]))
            && (m.Log? ==> s.tasks[m.i].Returned? && s'.tasks[m.i] == Logged(s.tasks[m.i].err))
            && (m.Release? ==> s'.tasks[m.i] == Released(s.tasks[m.i].err, true))
            && (m.Abandon? ==> s.tasks[m.i].Waiting? && s'.tasks[m.i] == Released(Some(Canceled), false) && s.canceled && !c.keepGoing)
            && (m.Report? ==> s.tasks[m.i].Released? && s'.tasks[m.i] == Finished(s.tasks[m.i].err, s.tasks[m.i].applied))
            && (!m.Report? && m != CancelParent ==>
                  s'.reported == s.reported && s'.groupErr == s.groupErr && s'.canceled == s.canceled && !s'.tasks[m.i].Finished?)
            && (m.Admit? || m.Act? || m.Log? ==> !s'.tasks[m.i].Released?)
  {
    hide Ask, React;
  }

  lemma LoggedPreserved(c: Config, s: State, m: Move)
    requires ValidConfig(c) && Inv(c, s) && Enabled(c, s, m) && LoggedExactly(c, s)
    ensures LoggedExactly(c, Next(c, s, m))
  {
    hide Next, Slots, MutexHeldByUploader, Listed, OncePerNode;
    MoveFrame(c, s, m);
    if m.Log? {
      LoggedGrows(c, s, m.i);
    }
  }

  lemma LoggedGrows(c: Config, s: State, i: nat)
    requires ValidConfig(c) && Inv(c, s) && Enabled(c, s, Log(i)) && LoggedExactly(c, s)
    ensures LoggedExactly(c, Next(c, s, Log(i)))
  {
    hide Ask, React, Slots, MutexHeldByUploader, Listed, OncePerNode;
    assert !Listed(s.logged, i);
    if s.tasks[i].err.Some? {
      ListedSnoc(s.logged, (i, NamedError(c, i, s.tasks[i].err.value)));
    }
  }

  lemma ReportedPreserved(c: Config, s: State, m: Move)
    requires ValidConfig(c) && Inv(c, s) && Enabled(c, s, m) && ReportedExactly(c, s)
    ensures ReportedExactly(c, Next(c, s, m))
  {
    hide Next, Slots, MutexHeldByUploader, Listed, OncePerNode;
    MoveFrame(c, s, m);
    if m.Report? {
      ReportedGrows(c, s, m.i);
    }
  }

  lemma ReportedGrows(c: Config, s: State, i: nat)
    requires ValidConfig(c) && Inv(c, s) && Enabled(c, s, Report(i)) && ReportedExactly(c, s)
    ensures ReportedExactly(c, Next(c, s, Report(i)))
  {
    hide Ask, React, Slots, MutexHeldByUploader, Listed, OncePerNode;
    assert !Listed(s.reported, i);
    ListedSnoc(s.reported, (i, Answer(c, i, s.tasks[i])));
  }

  lemma CancelPreserved(c: Config, s: State, m: Move, fromOutside: bool)
    requires ValidConfig(c) && Inv(c, s) && Enabled(c, s, m) && CancelLaw(c, s, fromOutside)
    requires m == CancelParent ==> fromOutside
    ensures CancelLaw(c, Next(c, s, m), fromOutside)
  {
    hide Slots, MutexHeldByUploader, Ask, React, RequestOf, PlanOf;
    MoveFrame(c, s, m);
    if m.Report? {
      ReportStep(c, s, m.i, fromOutside);
    } else {
      hide Next;
      CauseStays(c, s, Next(c, s, m), fromOutside);
    }
  }

  /** The node whose failure the errgroup keeps stays as it is. */
  lemma CauseStays(c: Config, s: State, s': State, fromOutside: bool)
    requires |s.tasks| == |c.names| == |s'.tasks| && CancelLaw(c, s, fromOutside)
    requires s'.groupErr == s.groupErr
    requires forall i :: 0 <= i < |s.tasks| && s.tasks[i].Finished? ==> s'.tasks[i] == s.tasks[i]
    ensures !fromOutside && s.groupErr.Some? ==>
              exists i :: 0 <= i < |s'.tasks| && s'.tasks[i].Finished? && s'.tasks[i].applied
                          && s'.tasks[i].err.Some? && s'.groupErr == Some(NamedError(c, i, s'.tasks[i].err.value))
  {
    if !fromOutside && s.groupErr.Some? {
      var i :| 0 <= i < |s.tasks| && s.tasks[i].Finished? && s.tasks[i].applied
               && s.tasks[i].err.Some? && s.groupErr == Some(NamedError(c, i, s.tasks[i].err.value));
      assert s'.tasks[i] == s.tasks[i];
    }
  }

  /** What Report does, in the terms of CancelLaw. */
  lemma ReportEffect(c: Config, s: State, i: nat)
    requires ValidConfig(c) && |s.tasks| == |c.names| && Enabled(c, s, Report(i))
    ensures i < |s.tasks|
    ensures var s', t := Next(c, s, Report(i)), s.tasks[i];
            && t.Released? && s'.tasks == s.tasks[i := Finished(t.err, t.applied)]
            && s'.reported == s.reported + [(i, Answer(c, i, t))]
            && (if c.keepGoing || t.err.None? then s'.groupErr == s.groupErr && s'.canceled == s.canceled
                else s'.groupErr == (if s.groupErr.None? then Answer(c, i, t) else s.groupErr) && s'.canceled)
  {
  }

  lemma ReportStep(c: Config, s: State, i: nat, fromOutside: bool)
    requires ValidConfig(c) && Inv(c, s) && Enabled(c, s, Report(i)) && CancelLaw(c, s, fromOutside)
    ensures CancelLaw(c, Next(c, s, Report(i)), fromOutside)
  {
    hide Slots, MutexHeldByUploader, Next, Enabled;
    var s' := Next(c, s, Report(i));
    ReportEffect(c, s, i);
    assert s'.reported[..|s.reported|] == s.reported;
    if s.groupErr.Some? {
      CauseStays(c, s, s', fromOutside);
    } else if s'.groupErr.Some? {
      assert s'.tasks[i].Finished?;
    }
  }

  ghost predicate Observed(c: Config, s: State, fromOutside: bool) {
    && Inv(c, s) && EnteredOnce(s) && LoggedExactly(c, s) && ReportedExactly(c, s) && CancelLaw(c, s, fromOutside)
  }

  lemma {:induction false} RunObserved(c: Config, s: State, moves: seq<Move>, fromOutside: bool)
    requires ValidConfig(c) && Observed(c, s, fromOutside) && CanRun(c, s, moves)
    requires CancelParent in moves ==> fromOutside
    ensures Observed(c, Exec(c, s, moves), fromOutside)
    decreases |moves|
  {
    hide Next, Enabled, Slots, MutexHeldByUploader, EnteredOnce, LoggedExactly, ReportedExactly, CancelLaw;
    if moves != [] {
      var m := moves[0];
      InvPreserved(c, s, m);
      EnteredPreserved(c, s, m);
      LoggedPreserved(c, s, m);
      ReportedPreserved(c, s, m);
      CancelPreserved(c, s, m, fromOutside);
      RunObserved(c, Next(c, s, m), moves[1..], fromOutside);
    }
  }

  lemma InitObserved(c: Config, s: Server, fromOutside: bool)
    requires ValidConfig(c)
    ensures Observed(c, Init(c, s), fromOutside)
  {
    InitInv(c, s);
  }

  /** The node's Apply ran and failed. */
  predicate Failed(t: Task) {
    t.Finished? && t.applied && t.err.Some?
  }

  /**
   * Continue-on-error: whatever the interleaving, every node entered Apply exactly once, and the joined error
   * holds exactly one entry for each failing node, with that node's own error.
   */
  lemma ContinueOnErrorOutcome(c: Config, server: Server, moves: seq<Move>)
    requires ValidConfig(c) && c.keepGoing && CanRun(c, Init(c, server), moves) && AllFinished(Exec(c, Init(c, server), moves))
    ensures var s := Exec(c, Init(c, server), moves);
            && (forall i: nat :: i in s.entered <==> i < |c.names|)
            && (forall j, k :: 0 <= j < k < |s.entered| ==> s.entered[j] != s.entered[k])
            && OncePerNode(s.logged)
            && (forall i: nat, e :: (i, e) in s.logged <==> i < |c.names| && Failed(s.tasks[i]) && e == Wrapped(c.names[i], s.tasks[i].err.value))
            && (s.logged == [] <==> forall i :: 0 <= i < |c.names| ==> s.tasks[i] == Finished(None, true))
  {
    hide Next, Enabled, Slots, MutexHeldByUploader, CanRun, Init;
    InitObserved(c, server, true);
    RunObserved(c, Init(c, server), moves, true);
    LoggedAtTheEnd(c, Exec(c, Init(c, server), moves));
  }

  lemma LoggedAtTheEnd(c: Config, s: State)
    requires ValidConfig(c) && c.keepGoing && Observed(c, s, true) && AllFinished(s)
    ensures forall i: nat, e :: (i, e) in s.logged <==> i < |c.names| && Failed(s.tasks[i]) && e == NamedError(c, i, s.tasks[i].err.value)
    ensures s.logged == [] <==> forall i :: 0 <= i < |c.names| ==> s.tasks[i] == Finished(None, true)
  {
    hide Slots, MutexHeldByUploader, ReportedExactly;
    forall i: nat, e | i < |c.names| && Failed(s.tasks[i]) && e == NamedError(c, i, s.tasks[i].err.value) ensures (i, e) in s.logged {
      assert Listed(s.logged, i);
      var k :| 0 <= k < |s.logged| && s.logged[k].0 == i;
      assert s.logged[k] == (i, e);
    }
    if s.logged == [] {
      forall i | 0 <= i < |c.names| ensures s.tasks[i] == Finished(None, true) {
        assert !HasLogged(s.tasks[i]);
      }
    } else {
      assert HasLogged(s.tasks[s.logged[0].0]);
    }
  }

  /**
   * Fail-fast: no node enters Apply twice, the group's result is nil exactly when every node's Apply ran and
   * returned nil, and otherwise it is the first error the group received. Unless the caller cancels, that error is
   * the failure of a node's Apply, never the cancellation that followed it.
   */
  lemma FailFastOutcome(c: Config, server: Server, moves: seq<Move>)
    requires ValidConfig(c) && !c.keepGoing && CanRun(c, Init(c, server), moves) && AllFinished(Exec(c, Init(c, server), moves))
    ensures var s := Exec(c, Init(c, server), moves);
            && (forall j, k :: 0 <= j < k < |s.entered| ==> s.entered[j] != s.entered[k])
            && (forall i: nat :: i in s.entered <==> i < |c.names| && s.tasks[i].applied)
            && (s.groupErr.None? <==> forall i :: 0 <= i < |c.names| ==> s.tasks[i] == Finished(None, true))
            && s.groupErr == FirstError(s.reported)
            && (forall i: nat, e :: (i, e) in s.reported <==> i < |c.names| && e == (if Failed(s.tasks[i]) then Some(Wrapped(c.names[i], s.tasks[i].err.value)) else s.tasks[i].err))
            && (CancelParent !in moves && s.groupErr.Some? ==>
                  exists i :: 0 <= i < |c.names| && Failed(s.tasks[i]) && s.groupErr == Some(Wrapped(c.names[i], s.tasks[i].err.value)))
  {
    hide Next, Enabled, Slots, MutexHeldByUploader, CanRun, Init;
    var fromOutside := CancelParent in moves;
    InitObserved(c, server, fromOutside);
    RunObserved(c, Init(c, server), moves, fromOutside);
    ReportedAtTheEnd(c, Exec(c, Init(c, server), moves), fromOutside);
  }

  lemma ReportedAtTheEnd(c: Config, s: State, fromOutside: bool)
    requires ValidConfig(c) && !c.keepGoing && Observed(c, s, fromOutside) && AllFinished(s)
    ensures forall i: nat, e :: (i, e) in s.reported <==> i < |c.names| && e == Answer(c, i, s.tasks[i])
    ensures s.groupErr.None? <==> forall i :: 0 <= i < |c.names| ==> s.tasks[i] == Finished(None, true)
  {
    hide Slots, MutexHeldByUploader, LoggedExactly, EnteredOnce;
    forall i: nat, e | i < |c.names| && e == Answer(c, i, s.tasks[i]) ensures (i, e) in s.reported {
      assert Listed(s.reported, i);
      var k :| 0 <= k < |s.reported| && s.reported[k].0 == i;
      assert s.reported[k] == (i, e);
    }
    if s.groupErr.None? {
      forall i | 0 <= i < |c.names| ensures s.tasks[i] == Finished(None, true) {
        assert Listed(s.reported, i);
        var k :| 0 <= k < |s.reported| && s.reported[k].0 == i;
        assert s.reported[k].1.None?;
      }
    } else {
      var k :| 0 <= k < |s.reported| && s.reported[k].1.Some?;
      assert s.tasks[s.reported[k].0] != Finished(None, true);
    }
  }

  /** Fail-fast: once the group has received an error, every goroutine still waiting for a slot can give up without entering Apply. */
  lemma FailureFreesWaiters(c: Config, server: Server, moves: seq<Move>, i: nat)
    requires ValidConfig(c) && !c.keepGoing && CanRun(c, Init(c, server), moves) && i < |c.names|
    requires var s := Exec(c, Init(c, server), moves); s.tasks[i].Waiting? && exists e :: e in s.reported && e.1.Some?
    ensures var s := Exec(c, Init(c, server), moves);
            && Enabled(c, s, Abandon(i)) && Next(c, s, Abandon(i)).tasks == s.tasks[i := Released(Some(Canceled), false)]
            && Next(c, s, Abandon(i)).server == s.server
  {
    hide CanRun, Init, Slots, MutexHeldByUploader, LoggedExactly, ReportedExactly, EnteredOnce;
    InitObserved(c, server, true);
    RunObserved(c, Init(c, server), moves, true);
  }
}
