/** Rollback after any run, and Finalize after any number of attempts. */
module Teardown {
  import opened Common
  import opened Manifest
  import opened Text
  import opened Proxmox
  import opened SingleVM
  import opened Locality
  import opened Scheduler
  import opened Safety

  // ----- rollback

  /** Rollback of one node: look, stop (errors ignored), delete. */
  function RollbackNode(c: Setup, name: string, s: Server, fate: nat -> Fate, k: nat): Outcome {
    if !Defines(c.env, name) then Outcome(s, Some(Internal("workflow: node not in manifest")), k)
    else if !c.hasClient then Outcome(s, Some(Internal("rollback: Client not set")), k)
    else match VMExists(s, Key(c, name), fate(k))
         case Err(e) => Outcome(s, Some(e), k + 1)
         case Ok(found) =>
           if !found then Outcome(s, None, k + 1)
           else
             var stopped := StopVM(s, Key(c, name), fate(k + 1)).server;
             var r := DeleteVM(stopped, Key(c, name), fate(k + 2));
             Outcome(r.server, r.err, k + 3)
  }

  datatype Sweep = Sweep(server: Server, errs: seq<Error>, calls: nat)

  /** rest, with the error of the node before it in front. */
  function After(name: string, err: Option<Error>, rest: Sweep): Sweep {
    if err.Some? then rest.(errs := [Wrapped(name, err.value)] + rest.errs) else rest
  }

  /** The nodes of order one after another, errors collected. */
  function RollbackAll(c: Setup, order: seq<string>, s: Server, fate: nat -> Fate, k: nat): Sweep {
    if order == [] then Sweep(s, [], k)
    else
      var r := RollbackNode(c, order[0], s, fate, k);
      After(order[0], r.err, RollbackAll(c, order[1..], r.server, fate, r.calls))
  }

  /** A node's rollback can only remove its own VM, and returns nil only when that VM is gone. */
  lemma RollbackNodeRemoves(c: Setup, name: string, s: Server, fate: nat -> Fate, k: nat)
    requires Defines(c.env, name)
    ensures var o := RollbackNode(c, name, s, fate, k);
            && OnlyVM(s, o.server, Key(c, name))
            && (Key(c, name) !in s.vms ==> o.server == s)
            && (o.err.None? ==> Key(c, name) !in o.server.vms)
  {
  }

  /**
   * Rollback of a node returns nil exactly when it finds no VM, or deletes it. Whether the stop fails does not matter, as
   * long as the VM is off afterwards.
   */
  lemma RollbackNodeNilIff(c: Setup, name: string, s: Server, fate: nat -> Fate, k: nat)
    ensures RollbackNode(c, name, s, fate, k).err.None?
            <==> && Defines(c.env, name) && c.hasClient && fate(k).Succeeds?
                 && (Key(c, name) in s.vms ==> fate(k + 2).Succeeds? && (s.vms[Key(c, name)].running ==> !fate(k + 1).FailsBefore?))
  {
  }

  /** The errors are those of the nodes, in order, each with its node's name; no node is left out for another's error. */
  lemma {:induction false} RollbackSnoc(c: Setup, order: seq<string>, name: string, s: Server, fate: nat -> Fate, k: nat)
    ensures var w := RollbackAll(c, order, s, fate, k);
            var o := RollbackNode(c, name, w.server, fate, w.calls);
            RollbackAll(c, order + [name], s, fate, k)
            == Sweep(o.server, w.errs + (if o.err.Some? then [Wrapped(name, o.err.value)] else []), o.calls)
    decreases |order|
  {
    hide RollbackNode;
    if order == [] {
      assert [] + [name] == [name] && [name][1..] == [];
    } else {
      var r := RollbackNode(c, order[0], s, fate, k);
      RollbackSnoc(c, order[1..], name, r.server, fate, r.calls);
      assert (order + [name])[1..] == order[1..] + [name];
      var w := RollbackAll(c, order[1..], r.server, fate, r.calls);
      AfterSnoc(order[0], r.err, w, RollbackNode(c, name, w.server, fate, w.calls), name);
    }
  }

  lemma AfterSnoc(first: string, err: Option<Error>, w: Sweep, o: Outcome, name: string)
    ensures var more := if o.err.Some? then [Wrapped(name, o.err.value)] else [];
            After(first, err, Sweep(o.server, w.errs + more, o.calls)) == Sweep(o.server, After(first, err, w).errs + more, o.calls)
    ensures After(first, err, w).server == w.server && After(first, err, w).calls == w.calls
  {
  }

  ghost function Owned(c: Setup, names: seq<string>): set<VMKey>
    requires forall n :: n in names ==> Defines(c.env, n)
  {
    set n | n in names :: Key(c, n)
  }

  lemma {:induction false} RollbackAllRemoves(c: Setup, order: seq<string>, s: Server, fate: nat -> Fate, k: nat)
    requires forall n :: n in order ==> Defines(c.env, n)
    ensures var r := RollbackAll(c, order, s, fate, k);
            && r.server.files == s.files && r.server.shared == s.shared
            && (forall key :: key !in s.vms ==> key !in r.server.vms)
            && (forall key :: key !in Owned(c, order) ==> At(r.server.vms, key) == At(s.vms, key))
            && (r.errs == [] ==> r.server.vms == s.vms - Owned(c, order))
            && ((forall key :: key in Owned(c, order) ==> key !in s.vms) ==> r.server == s)
  {
    hide RollbackNode;
    if order != [] {
      var o := RollbackNode(c, order[0], s, fate, k);
      var r := RollbackAll(c, order, s, fate, k);
      RollbackNodeRemoves(c, order[0], s, fate, k);
      RollbackAllRemoves(c, order[1..], o.server, fate, o.calls);
      assert order == [order[0]] + order[1..];
      assert Owned(c, order) == {Key(c, order[0])} + Owned(c, order[1..]);
      assert forall key :: key !in s.vms ==> At(o.server.vms, key) == At(s.vms, key);
      if r.errs == [] {
        SameEverywhere(r.server.vms, s.vms - Owned(c, order));
      }
    }
  }

  /** Whatever a run does, VMs that are not the nodes' own stay as they were. */
  lemma AskKeepsOtherVMs(c: Setup, name: string, q: Request, s: Server, f: Fate)
    requires Defines(c.env, name)
    ensures forall key :: key != Key(c, name) ==> At(Ask(c, name, q, s, f).server.vms, key) == At(s.vms, key)
  {
    hide CreateOptsOf, CreateVM, AttachISO, SetBootOrder, Proxmox.StartVM;
    CreateIsLocal(s, s, CreateOptsOf(c.env, name), f);
    AttachIsLocal(s, s, Key(c, name), Ide3, KickstartVolId(c, name), f);
    BootIsLocal(s, s, Key(c, name), BOOT_INSTALL, f);
    StartIsLocal(s, s, Key(c, name), f);
  }

  lemma MoveKeepsOtherVMs(c: Config, s: State, m: Move, key: VMKey)
    requires ValidConfig(c) && Inv(c, s) && Enabled(c, s, m)
    requires forall i :: 0 <= i < |c.names| ==> key != Key(c.setup, c.names[i])
    ensures At(Next(c, s, m).server.vms, key) == At(s.server.vms, key)
  {
    hide Ask, React, Slots, MutexHeldByUploader;
    if m.Act? {
      AskKeepsOtherVMs(c.setup, c.names[m.i], RequestOf(c.setup, s.tasks[m.i].p), s.server, m.fate);
    }
  }

  lemma {:induction false} RunKeepsOtherVMs(c: Config, s: State, moves: seq<Move>, key: VMKey)
    requires ValidConfig(c) && Inv(c, s) && CanRun(c, s, moves)
    requires forall i :: 0 <= i < |c.names| ==> key != Key(c.setup, c.names[i])
    ensures At(Exec(c, s, moves).server.vms, key) == At(s.server.vms, key)
    decreases |moves|
  {
    hide Next, Enabled, Slots, MutexHeldByUploader;
    if moves != [] {
      MoveKeepsOtherVMs(c, s, moves[0], key);
      InvPreserved(c, s, moves[0]);
      RunKeepsOtherVMs(c, Next(c, s, moves[0]), moves[1..], key);
    }
  }

  lemma AskKeepsShared(c: Setup, name: string, q: Request, s: Server, f: Fate)
    requires Defines(c.env, name)
    ensures Ask(c, name, q, s, f).server.shared == s.shared
  {
    hide CreateOptsOf, ValidOpts, TrimSpace;
  }

  lemma {:induction false} RunKeepsShared(c: Config, s: State, moves: seq<Move>)
    requires ValidConfig(c) && |s.tasks| == |c.names| && CanRun(c, s, moves)
    ensures Exec(c, s, moves).server.shared == s.server.shared
    decreases |moves|
  {
    hide Ask, React, Enabled;
    if moves != [] {
      MoveKeepsShared(c, s, moves[0]);
      RunKeepsShared(c, Next(c, s, moves[0]), moves[1..]);
    }
  }

  lemma MoveKeepsShared(c: Config, s: State, m: Move)
    requires ValidConfig(c) && |s.tasks| == |c.names| && Enabled(c, s, m)
    ensures |Next(c, s, m).tasks| == |c.names| && Next(c, s, m).server.shared == s.server.shared
  {
    hide Ask, React;
    if m.Act? { AskKeepsShared(c.setup, c.names[m.i], RequestOf(c.setup, s.tasks[m.i].p), s.server, m.fate); }
  }

  /**
   * After any run of either mode, stopped anywhere and with any calls failing, a rollback of all nodes (in any order)
   * that returns nil gives the VM table back as it was before the run exactly when no node's VM existed then, and the
   * whole server exactly when the run also left the files as they were; it leaves files alone, and repeating it changes
   * nothing, whatever its calls do.
   */
  lemma RollbackRestores(c: Config, s0: Server, moves: seq<Move>, order: seq<string>, fate: nat -> Fate, k: nat, again: nat -> Fate)
    requires ValidConfig(c) && CanRun(c, Init(c, s0), moves)
    requires forall n :: n in order <==> n in c.names
    requires RollbackAll(c.setup, order, Exec(c, Init(c, s0), moves).server, fate, k).errs == []
    ensures var s := Exec(c, Init(c, s0), moves).server;
            var r := RollbackAll(c.setup, order, s, fate, k).server;
            && (r.vms == s0.vms <==> forall i :: 0 <= i < |c.names| ==> Key(c.setup, c.names[i]) !in s0.vms)
            && (r == s0 <==> s.files == s0.files && forall i :: 0 <= i < |c.names| ==> Key(c.setup, c.names[i]) !in s0.vms)
            && r.files == s.files
            && RollbackAll(c.setup, order, r, again, 0).server == r
  {
    hide RollbackNode, Init, Next, Enabled, CanRun;
    var s := Exec(c, Init(c, s0), moves).server;
    var r := RollbackAll(c.setup, order, s, fate, k).server;
    forall n | n in order ensures Defines(c.setup.env, n) {
      var i :| 0 <= i < |c.names| && c.names[i] == n;
    }
    InitInv(c, s0);
    InitServer(c, s0);
    RunKeepsShared(c, Init(c, s0), moves);
    RollbackAllRemoves(c.setup, order, s, fate, k);
    RollbackAllRemoves(c.setup, order, r, again, 0);
    forall i | 0 <= i < |c.names| ensures Key(c.setup, c.names[i]) in Owned(c.setup, order) {
      assert c.names[i] in order;
    }
    forall key | key !in Owned(c.setup, order) ensures At(r.vms, key) == At(s0.vms, key) {
      InitServer(c, s0);
      RunKeepsOtherVMs(c, Init(c, s0), moves, key);
    }
    if forall i :: 0 <= i < |c.names| ==> Key(c.setup, c.names[i]) !in s0.vms {
      SameEverywhere(r.vms, s0.vms);
    }
  }

  lemma InitServer(c: Config, s0: Server)
    requires ValidConfig(c)
    ensures Init(c, s0).server == s0
  {
  }

  /** When every call succeeds, rollback does return nil. */
  lemma {:induction false} RollbackSucceeds(c: Setup, order: seq<string>, s: Server, k: nat)
    requires c.hasClient && forall n :: n in order ==> Defines(c.env, n)
    ensures RollbackAll(c, order, s, ALL_SUCCEED, k).errs == []
  {
    if order != [] {
      var o := RollbackNode(c, order[0], s, ALL_SUCCEED, k);
      RollbackSucceeds(c, order[1..], o.server, o.calls);
    }
  }

  // ----- finalize

  const BOOT_DISK := "scsi0"

  /** Detach ide3, detach ide2, reset the boot order; the first failing call ends it. */
  function FinalizeSingle(s: Server, key: VMKey, fate: nat -> Fate, k: nat): Outcome {
    var a := EjectISO(s, key, Ide3, fate(k));
    if a.err.Some? then Outcome(a.server, Some(Wrapped("finalize: detach ide3 (kickstart)", a.err.value)), k + 1)
    else
      var b := EjectISO(a.server, key, Ide2, fate(k + 1));
      if b.err.Some? then Outcome(b.server, Some(Wrapped("finalize: detach ide2 (install)", b.err.value)), k + 2)
      else
        var d := SetBootOrder(b.server, key, BOOT_DISK, fate(k + 2));
        Outcome(d.server, if d.err.Some? then Some(Wrapped("finalize: reset boot order", d.err.value)) else None, k + 3)
  }

  function FinalVM(vm: VM): VM {
    vm.(ide2 := None, ide3 := None, boot := Some("order=scsi0"))
  }

  /** vm' is vm with nothing left in its ISO slots and booting from its disk. */
  predicate FinalMeans(vm: VM, vm': VM) {
    vm'.ide2.None? && vm'.ide3.None? && vm'.boot == Some("order=scsi0") && vm'.opts == vm.opts && vm'.running == vm.running
  }

  /** The server on which one VM is finalized and everything else is as in s. */
  function Finalized(s: Server, key: VMKey): Server {
    if key in s.vms then PutVM(s, key, FinalVM(s.vms[key])) else s
  }

  lemma DiskBoot()
    ensures BootValue(BOOT_DISK) == "order=scsi0" && TrimSpace(BOOT_DISK) != ""
  {
    NothingToTrim(BOOT_DISK);
    assert BOOT_DISK[0] != "order="[0];
    assert "order=" + BOOT_DISK == "order=scsi0";
  }

  /** Any attempt, however far it gets, brings the VM no further from being finalized, and nil means it is. */
  lemma AttemptKeepsGoal(s: Server, key: VMKey, fate: nat -> Fate, k: nat)
    ensures var o := FinalizeSingle(s, key, fate, k);
            && (key in o.server.vms <==> key in s.vms)
            && Finalized(o.server, key).vms == Finalized(s, key).vms
            && o.server.files == s.files && o.server.shared == s.shared
            && (o.err.None? ==> key in s.vms && o.server.vms == Finalized(s, key).vms)
  {
    DiskBoot();
    var a := EjectISO(s, key, Ide3, fate(k));
    EjectKeepsGoal(s, key, Ide3, fate(k));
    if a.err.None? {
      EjectKeepsGoal(a.server, key, Ide2, fate(k + 1));
      var b := EjectISO(a.server, key, Ide2, fate(k + 1));
      if b.err.None? {
        BootKeepsGoal(b.server, key, fate(k + 2));
        var d := SetBootOrder(b.server, key, BOOT_DISK, fate(k + 2));
        if d.err.None? {
          assert d.server.vms[key] == FinalVM(s.vms[key]);
          assert d.server.vms == s.vms[key := FinalVM(s.vms[key])];
        }
      }
    }
  }

  /** A call that is lost ends the attempt there: what was done before it stays, and the error says which call it was. */
  lemma AttemptStopsAt(s: Server, key: VMKey, fate: nat -> Fate, k: nat)
    requires key in s.vms
    ensures var vm, o := s.vms[key], FinalizeSingle(s, key, fate, k);
            && (fate(k) == FailsBefore ==>
                  o == Outcome(s, Some(Wrapped("finalize: detach ide3 (kickstart)", Remote("eject"))), k + 1))
            && (fate(k) == Succeeds && fate(k + 1) == FailsBefore ==>
                  o == Outcome(PutVM(s, key, vm.(ide3 := None)), Some(Wrapped("finalize: detach ide2 (install)", Remote("eject"))), k + 2))
            && (fate(k) == Succeeds && fate(k + 1) == Succeeds && fate(k + 2) == FailsBefore ==>
                  o == Outcome(PutVM(s, key, vm.(ide3 := None, ide2 := None)), Some(Wrapped("finalize: reset boot order", Remote("boot"))), k + 3))
  {
    DiskBoot();
    hide TrimSpace, BootValue;
    var vm := s.vms[key];
    assert s.vms[key := vm.(ide3 := None)][key := vm.(ide3 := None, ide2 := None)] == s.vms[key := vm.(ide3 := None, ide2 := None)];
  }

  lemma EjectKeepsGoal(s: Server, key: VMKey, port: Port, f: Fate)
    ensures var r := EjectISO(s, key, port, f);
            && (key in r.server.vms <==> key in s.vms)
            && Finalized(r.server, key).vms == Finalized(s, key).vms
            && r.server.files == s.files && r.server.shared == s.shared
  {
  }

  lemma BootKeepsGoal(s: Server, key: VMKey, f: Fate)
    ensures var r := SetBootOrder(s, key, BOOT_DISK, f);
            && (key in r.server.vms <==> key in s.vms)
            && Finalized(r.server, key).vms == Finalized(s, key).vms
            && r.server.files == s.files && r.server.shared == s.shared
  {
  }

  /** n attempts in a row. */
  function Attempts(s: Server, key: VMKey, fate: nat -> Fate, k: nat, n: nat): Outcome
    decreases n
  {
    if n == 0 then Outcome(s, None, k)
    else
      var o := FinalizeSingle(s, key, fate, k);
      Attempts(o.server, key, fate, o.calls, n - 1)
  }

  /**
   * Finalize converges: after any number of attempts, each failing anywhere, one attempt that returns nil leaves the
   * server that a clean attempt on the original one leaves, and further attempts change nothing.
   */
  lemma {:induction false} FinalizeConverges(s: Server, key: VMKey, fate: nat -> Fate, k: nat, n: nat)
    ensures var before := Attempts(s, key, fate, k, n);
            var o := FinalizeSingle(before.server, key, fate, before.calls);
            && (o.err.None? ==> o.server == Finalized(s, key))
            && (o.err.None? ==> forall g: nat -> Fate, j: nat :: FinalizeSingle(o.server, key, g, j).server == o.server)
            && (key in s.vms ==> FinalizeSingle(before.server, key, ALL_SUCCEED, 0).err.None?)
    decreases n
  {
    hide FinalizeSingle;
    if n == 0 {
      var o := FinalizeSingle(s, key, fate, k);
      AttemptKeepsGoal(s, key, fate, k);
      if key in s.vms { CleanAttempt(s, key); }
      if o.err.None? {
        forall g: nat -> Fate, j: nat ensures FinalizeSingle(o.server, key, g, j).server == o.server {
          FinalizedStays(o.server, key, g, j);
        }
      }
    } else {
      AttemptKeepsGoal(s, key, fate, k);
      var o := FinalizeSingle(s, key, fate, k);
      FinalizeConverges(o.server, key, fate, o.calls, n - 1);
    }
  }

  lemma CleanAttempt(s: Server, key: VMKey)
    requires key in s.vms
    ensures FinalizeSingle(s, key, ALL_SUCCEED, 0).err.None?
  {
  }

  lemma FinalizedStays(s: Server, key: VMKey, fate: nat -> Fate, k: nat)
    requires key in s.vms && s.vms[key] == FinalVM(s.vms[key])
    ensures FinalizeSingle(s, key, fate, k).server == s
  {
    DiskBoot();
    assert s.vms[key := s.vms[key]] == s.vms;
  }

  /** An attempt touches its own VM alone, and nil means that it is finalized. */
  lemma AttemptFinalizes(s: Server, key: VMKey, fate: nat -> Fate, k: nat)
    ensures var o := FinalizeSingle(s, key, fate, k);
            OnlyVM(s, o.server, key)
            && (o.err.None? ==> key in s.vms && o.server == Finalized(s, key) && key in o.server.vms && FinalMeans(s.vms[key], o.server.vms[key]))
  {
    hide FinalizeSingle;
    AttemptKeepsGoal(s, key, fate, k);
    AttemptIsLocal(s, key, fate, k);
  }

  /** Finalize of one node: an address to probe, the SSH wait, then the three calls. */
  function FinalizeNode(c: Setup, name: string, s: Server, fate: nat -> Fate, k: nat): Outcome {
    if !Defines(c.env, name) then Outcome(s, Some(Internal("workflow: node not in manifest")), k)
    else if !c.hasClient then Outcome(s, Some(Internal("finalize: Client not set")), k)
    else if forall slot :: slot in NodeOf(c.env, name).ips ==> NodeOf(c.env, name).ips[slot] == "" then
      Outcome(s, Some(Internal("finalize: node has no IPs configured")), k)
    else if !fate(k).Succeeds? then Outcome(s, Some(Remote("finalize: ssh-up wait")), k + 1)
    else FinalizeSingle(s, Key(c, name), fate, k + 1)
  }

  /** Finalize of a node returns nil exactly when it has an address, its VM is there, and the wait and the three calls succeed. */
  lemma FinalizeNodeNilIff(c: Setup, name: string, s: Server, fate: nat -> Fate, k: nat)
    ensures FinalizeNode(c, name, s, fate, k).err.None?
            <==> && Defines(c.env, name) && c.hasClient && Key(c, name) in s.vms
                 && (exists slot :: slot in NodeOf(c.env, name).ips && NodeOf(c.env, name).ips[slot] != "")
                 && fate(k).Succeeds? && fate(k + 1).Succeeds? && fate(k + 2).Succeeds? && fate(k + 3).Succeeds?
  {
    hide TrimSpace;
    DiskBoot();
  }

  function FinalizeAll(c: Setup, order: seq<string>, s: Server, fate: nat -> Fate, k: nat): Sweep {
    if order == [] then Sweep(s, [], k)
    else
      var r := FinalizeNode(c, order[0], s, fate, k);
      After(order[0], r.err, FinalizeAll(c, order[1..], r.server, fate, r.calls))
  }

  lemma {:induction false} FinalizeSnoc(c: Setup, order: seq<string>, name: string, s: Server, fate: nat -> Fate, k: nat)
    ensures var w := FinalizeAll(c, order, s, fate, k);
            var o := FinalizeNode(c, name, w.server, fate, w.calls);
            FinalizeAll(c, order + [name], s, fate, k)
            == Sweep(o.server, w.errs + (if o.err.Some? then [Wrapped(name, o.err.value)] else []), o.calls)
    decreases |order|
  {
    hide FinalizeNode;
    if order == [] {
      assert [] + [name] == [name] && [name][1..] == [];
    } else {
      var r := FinalizeNode(c, order[0], s, fate, k);
      FinalizeSnoc(c, order[1..], name, r.server, fate, r.calls);
      assert (order + [name])[1..] == order[1..] + [name];
      var w := FinalizeAll(c, order[1..], r.server, fate, r.calls);
      AfterSnoc(order[0], r.err, w, FinalizeNode(c, name, w.server, fate, w.calls), name);
    }
  }

  /** vm with or without its install media, as far as Finalize is concerned. */
  function Goal(vm: Option<VM>): Option<VM> {
    if vm.Some? then Some(FinalVM(vm.value)) else None
  }

  lemma FinalizeNodeKeepsGoal(c: Setup, name: string, s: Server, fate: nat -> Fate, k: nat)
    requires Defines(c.env, name)
    ensures var o := FinalizeNode(c, name, s, fate, k);
            && (forall key :: Goal(At(o.server.vms, key)) == Goal(At(s.vms, key)))
            && (forall key :: key != Key(c, name) ==> At(o.server.vms, key) == At(s.vms, key))
            && (o.err.None? ==> At(o.server.vms, Key(c, name)) == Goal(At(s.vms, Key(c, name))) && Key(c, name) in s.vms)
            && (At(s.vms, Key(c, name)) == Goal(At(s.vms, Key(c, name))) ==> At(o.server.vms, Key(c, name)) == At(s.vms, Key(c, name)))
            && o.server.files == s.files && o.server.shared == s.shared
  {
    hide FinalizeSingle;
    var key := Key(c, name);
    AttemptKeepsGoal(s, key, fate, k + 1);
    AttemptIsLocal(s, key, fate, k + 1);
    if key in s.vms && s.vms[key] == FinalVM(s.vms[key]) {
      FinalizedStays(s, key, fate, k + 1);
    }
    var o := FinalizeSingle(s, key, fate, k + 1);
    assert Goal(At(o.server.vms, key)) == At(Finalized(o.server, key).vms, key);
    assert Goal(At(s.vms, key)) == At(Finalized(s, key).vms, key);
  }

  lemma AttemptIsLocal(s: Server, key: VMKey, fate: nat -> Fate, k: nat)
    ensures forall j :: j != key ==> At(FinalizeSingle(s, key, fate, k).server.vms, j) == At(s.vms, j)
  {
  }

  /** Finalize of all nodes, if it returns nil, finalizes exactly their VMs. */
  lemma {:induction false} FinalizeAllReaches(c: Setup, order: seq<string>, s: Server, fate: nat -> Fate, k: nat)
    requires forall n :: n in order ==> Defines(c.env, n)
    ensures var r := FinalizeAll(c, order, s, fate, k);
            && (forall key :: Goal(At(r.server.vms, key)) == Goal(At(s.vms, key)))
            && (forall key :: key !in Owned(c, order) ==> At(r.server.vms, key) == At(s.vms, key))
            && (forall key :: At(s.vms, key) == Goal(At(s.vms, key)) ==> At(r.server.vms, key) == At(s.vms, key))
            && (r.errs == [] ==> forall key :: key in Owned(c, order) ==> key in s.vms && At(r.server.vms, key) == Some(FinalVM(s.vms[key])))
            && r.server.files == s.files && r.server.shared == s.shared
  {
    hide FinalizeNode;
    if order != [] {
      var o := FinalizeNode(c, order[0], s, fate, k);
      FinalizeNodeKeepsGoal(c, order[0], s, fate, k);
      FinalizeAllReaches(c, order[1..], o.server, fate, o.calls);
      assert order == [order[0]] + order[1..];
      assert Owned(c, order) == {Key(c, order[0])} + Owned(c, order[1..]);
      assert forall key :: key != Key(c, order[0]) ==> At(o.server.vms, key) == At(s.vms, key);
    }
  }
}
