/** Up as a whole: plan, concurrent apply, finalize. */
module EndToEnd {
  import opened Common
  import opened Manifest
  import opened Proxmox
  import opened SingleVM
  import opened Locality
  import opened Scheduler
  import opened Safety
  import opened Outcomes
  import opened Confluence
  import opened Interleaving
  import opened PlanApply
  import opened Teardown
  import Uniqueness

  /** What applyPlan returned is nil. */
  ghost predicate ReturnedNil(c: Config, s: State) {
    if c.keepGoing then s.logged == [] else s.groupErr.None?
  }

  lemma NilMeansAllApplied(c: Config, s0: Server, moves: seq<Move>)
    requires ValidConfig(c) && CanRun(c, Init(c, s0), moves) && AllFinished(Exec(c, Init(c, s0), moves))
    ensures var s := Exec(c, Init(c, s0), moves);
            ReturnedNil(c, s) <==> forall i :: 0 <= i < |c.names| ==> s.tasks[i] == Finished(None, true)
  {
    hide Init, Next, Enabled, CanRun, FirstError, Answer;
    if c.keepGoing {
      ContinueOnErrorOutcome(c, s0, moves);
    } else {
      FailFastOutcome(c, s0, moves);
    }
  }

  /** A node that succeeded, in whatever company, leaves its VM installed. */
  lemma SucceededIsInstalled(c: Config, i: nat, s0: Server, s: Server, clean: bool)
    requires i < |c.names| && Defines(c.setup.env, c.names[i]) && Equipped(c.setup) && !c.setup.dryRun
    requires Landed(c, i, None, s0, s, clean)
    ensures Applicable(c.setup, c.names[i], s0)
    ensures At(s.vms, Key(c.setup, c.names[i])) == Some(InstalledVM(c.setup, c.names[i]))
  {
    hide CleanRun, InstalledVM, Creatable, Equipped;
    CleanRunIsSolo(c.setup, c.names[i], Start(PlanOf(c.setup, c.names[i])), s0, 0);
    ApplyOfPlan(c.setup, c.names[i], s0, 0);
  }

  /** What up is for: the VM of the manifest entry, running, with no ISO in it and booting from its disk. */
  predicate UpMeans(c: Setup, name: string, vm: VM)
    requires Defines(c.env, name)
  {
    OptsMean(c.env, name, vm.opts) && vm.running && vm.ide2.None? && vm.ide3.None? && vm.boot == Some("order=scsi0")
  }

  /**
   * Up that returns nil, in any interleaving and either mode: every node's VM has the options its manifest entry asks
   * for and is running, with both ISO slots empty and the boot order reset to the disk; no other VM has changed.
   */
  lemma UpReachesRunningVMs(c: Config, s0: Server, moves: seq<Move>, fate: nat -> Fate, k: nat)
    requires ValidConfig(c) && DistinctVMs(c) && Equipped(c.setup) && !c.setup.dryRun
    requires CanRun(c, Init(c, s0), moves) && AllFinished(Exec(c, Init(c, s0), moves)) && ReturnedNil(c, Exec(c, Init(c, s0), moves))
    requires FinalizeAll(c.setup, c.names, Exec(c, Init(c, s0), moves).server, fate, k).errs == []
    ensures var r := FinalizeAll(c.setup, c.names, Exec(c, Init(c, s0), moves).server, fate, k).server;
            && (forall i :: 0 <= i < |c.names| ==>
                  At(r.vms, Key(c.setup, c.names[i])) == Some(FinalVM(InstalledVM(c.setup, c.names[i]))))
            && (forall key :: (forall i :: 0 <= i < |c.names| ==> key != Key(c.setup, c.names[i])) ==> At(r.vms, key) == At(s0.vms, key))
    ensures forall i :: 0 <= i < |c.names| ==> UpMeans(c.setup, c.names[i], FinalVM(InstalledVM(c.setup, c.names[i])))
  {
    hide UpMeans;
    hide Init, Next, Enabled, CanRun, DistinctVMs, Equipped, InstalledVM, FinalizeAll, Slots, MutexHeldByUploader, Clean, Landed, Exec;
    var s := Exec(c, Init(c, s0), moves);
    NilMeansAllApplied(c, s0, moves);
    FinalizeAllReaches(c.setup, c.names, s.server, fate, k);
    InitInv(c, s0);
    InitServer(c, s0);
    forall key | forall i :: 0 <= i < |c.names| ==> key != Key(c.setup, c.names[i])
      ensures At(s.server.vms, key) == At(s0.vms, key)
      ensures key !in Owned(c.setup, c.names)
    {
      RunKeepsOtherVMs(c, Init(c, s0), moves, key);
    }
    forall i: nat | i < |c.names|
      ensures At(s.server.vms, Key(c.setup, c.names[i])) == Some(InstalledVM(c.setup, c.names[i]))
      ensures Key(c.setup, c.names[i]) in Owned(c.setup, c.names)
      ensures UpMeans(c.setup, c.names[i], FinalVM(InstalledVM(c.setup, c.names[i])))
    {
      FinalInstalledMeans(c.setup, c.names[i]);
      var clean := forall m :: m in moves ==> Clean(m);
      FinishedHasLanded(c, s0, moves, i);
      SucceededIsInstalled(c, i, s0, s.server, clean);
    }
  }

  lemma FinalInstalledMeans(c: Setup, name: string)
    requires Defines(c.env, name)
    ensures UpMeans(c, name, FinalVM(InstalledVM(c, name)))
  {
    hide InstalledVM, OptsMean;
    InstalledVMMeans(c, name);
  }

  /**
   * When every call succeeds and nobody cancels, every interleaving that runs to its end applies every node
   * successfully exactly when each of them could have been applied alone.
   */
  lemma CleanRunsSucceed(c: Config, s0: Server, moves: seq<Move>)
    requires ValidConfig(c) && DistinctVMs(c) && Equipped(c.setup) && !c.setup.dryRun
    requires CanRun(c, Init(c, s0), moves) && AllFinished(Exec(c, Init(c, s0), moves))
    requires CancelParent !in moves && forall m :: m in moves ==> Clean(m)
    ensures ReturnedNil(c, Exec(c, Init(c, s0), moves))
            <==> forall i :: 0 <= i < |c.names| ==> Applicable(c.setup, c.names[i], s0)
  {
    hide Init, Next, Enabled, CanRun, DistinctVMs, Equipped, InstalledVM, Applicable, Slots, MutexHeldByUploader, Clean, Landed, Exec, OutsideSame, EnteredOnce, LoggedExactly, ReportedExactly;
    var s := Exec(c, Init(c, s0), moves);
    NilMeansAllApplied(c, s0, moves);
    InitObserved(c, s0, false);
    RunObserved(c, Init(c, s0), moves, false);
    forall i: nat | i < |c.names| && s.tasks[i].applied ensures Applicable(c.setup, c.names[i], s0) <==> s.tasks[i].err.None? {
      FinishedHasLanded(c, s0, moves, i);
      LandedIff(c, i, s.tasks[i].err, s0, s.server);
    }
  }

  lemma LandedIff(c: Config, i: nat, err: Option<Error>, s0: Server, s: Server)
    requires i < |c.names| && Defines(c.setup.env, c.names[i]) && Equipped(c.setup) && !c.setup.dryRun
    ensures Landed(c, i, err, s0, s, true) ==> (err.None? <==> Applicable(c.setup, c.names[i], s0))
  {
    hide CleanRun, Applicable, Equipped, InstalledVM;
    CleanRunIsSolo(c.setup, c.names[i], Start(PlanOf(c.setup, c.names[i])), s0, 0);
    ApplyOfPlan(c.setup, c.names[i], s0, 0);
  }

  /**
   * For every manifest that validateUniqueness accepts, whatever the concurrency limit, the mode and the interleaving:
   * if all nodes succeed, the server is the one that applying the nodes one by one in sorted order leaves.
   */
  lemma AcceptedManifestsAreConfluent(c: Config, s0: Server, moves: seq<Move>)
    requires c.limit > 0 && SortedNames(c.setup.env, c.names) && Uniqueness.Unique(c.setup.env.hypervisor.value.nodes)
    ensures ValidConfig(c)
    ensures CanRun(c, Init(c, s0), moves)
            && (forall i :: 0 <= i < |c.names| ==> Exec(c, Init(c, s0), moves).tasks[i] == Finished(None, true)) ==>
              && Exec(c, Init(c, s0), moves).server == Sequential(c, |c.names|, s0)
              && forall i: nat :: i < |c.names| ==> SequentialAnswer(c, i, s0).None?
  {
    hide Init, CanRun, Exec, Uniqueness.Unique, DistinctVMs, SortedNames;
    assert c.setup.env.hypervisor.Some? by { SortedHasHypervisor(c.setup.env, c.names); }
    SortedNamesAreDistinct(c.setup.env, c.names);
    Uniqueness.UniqueGivesDistinctVMs(c);
    if CanRun(c, Init(c, s0), moves)
       && forall i :: 0 <= i < |c.names| ==> Exec(c, Init(c, s0), moves).tasks[i] == Finished(None, true) {
      ConcurrentIsSequential(c, s0, moves);
    }
  }

  lemma SortedHasHypervisor(env: Env, names: seq<string>)
    requires SortedNames(env, names)
    ensures env.hypervisor.Some?
  {
  }

  /** Rolling back a node that was applied in full gives the VM table back, but the uploaded ISO stays on the storage. */
  lemma RollbackLeavesTheUpload(c: Setup, name: string, s: Server, k: nat)
    requires Defines(c.env, name) && Equipped(c) && !c.dryRun && !c.skipBuild && KickstartStorage(c.env) != "" && Applicable(c, name, s)
    ensures var a := Solo(c, name, Start(PlanOf(c, name)), s, ALL_SUCCEED, k);
            var r := RollbackNode(c, name, a.server, ALL_SUCCEED, a.calls);
            && r.err.None? && r.server.vms == s.vms
            && UploadKey(c, name, s) in r.server.files
  {
    hide Solo, PlanOf, InstalledVM, Creatable, UploadKey;
    ApplyOfPlan(c, name, s, k);
    var a := Solo(c, name, Start(PlanOf(c, name)), s, ALL_SUCCEED, k);
    assert UploadKey(c, name, s) in a.server.files;
    assert s.vms[Key(c, name) := InstalledVM(c, name)] - {Key(c, name)} == s.vms;
  }
}
