/** SingleVMWorkflow as the object the code runs, proved against the step semantics. */
module Workflow {
  import opened Common
  import opened Manifest
  import opened Proxmox
  import opened SingleVM
  import opened Decimal
  import opened Locality
  import opened Teardown

  /** sync.Mutex, reduced to whether it is held. */
  class Mutex {
    var held: bool

    constructor ()
      ensures !held
    {
      held := false;
    }

    /** Nothing else runs, so a lock that is held would never be given. */
    method Lock()
      requires !held
      modifies this
      ensures held
    {
      held := true;
    }

    method Unlock()
      requires held
      modifies this
      ensures !held
    {
      held := false;
    }
  }

  /** What Plan answers: refuse when the VM is there, otherwise the change list. */
  function PlanResult(c: Setup, name: string, s: Server, f: Fate): Result<seq<Change>> {
    if !Defines(c.env, name) then Err(Internal("workflow: node not in manifest"))
    else if !c.hasClient then Ok(PlanOf(c, name))
    else match VMExists(s, Key(c, name), f)
         case Err(e) => Err(Wrapped("plan: vm-exists check", e))
         case Ok(found) => if found then Err(Remote("plan: vm already exists")) else Ok(PlanOf(c, name))
  }

  /** How one change ends: Apply goes on with the rest of the list, or returns. */
  datatype ChangeOutcome = ChangeOutcome(reaction: Reaction, server: Server, calls: nat)

  /** The steps of the first change of p put together. */
  function OneChange(c: Setup, name: string, p: Progress, s: Server, fate: nat -> Fate, k: nat): (o: ChangeOutcome)
    requires Defines(c.env, name) && WellPhased(p) && p.todo != []
    ensures o.reaction.Go? ==> WellPhased(o.reaction.next)
    decreases Weight(p)
  {
    var q := RequestOf(c, p);
    var reply := Ask(c, name, q, s, fate(k));
    var k' := if q.Silent? then k else k + 1;
    var r := React(c, name, p, reply.err);
    if r.Go? && r.next.todo == p.todo then OneChange(c, name, r.next, reply.server, fate, k')
    else ChangeOutcome(r, reply.server, k')
  }

  /** Running alone, a node finishes one change and goes on with the rest. */
  lemma {:induction false} SoloByChange(c: Setup, name: string, p: Progress, s: Server, fate: nat -> Fate, k: nat)
    requires Defines(c.env, name) && WellPhased(p) && p.todo != []
    ensures Solo(c, name, p, s, fate, k)
            == var o := OneChange(c, name, p, s, fate, k);
               match o.reaction
               case Stop(err) => Outcome(o.server, err, o.calls)
               case Go(next) => Solo(c, name, next, o.server, fate, o.calls)
    decreases Weight(p)
  {
    hide Ask, React;
    var q := RequestOf(c, p);
    var reply := Ask(c, name, q, s, fate(k));
    var r := React(c, name, p, reply.err);
    if r.Go? && r.next.todo == p.todo {
      SoloByChange(c, name, r.next, reply.server, fate, if q.Silent? then k else k + 1);
    }
  }

  lemma GuardStops(c: Setup, name: string, p: Progress, s: Server, fate: nat -> Fate, k: nat)
    requires Defines(c.env, name) && p.phase == Ready && p.todo != [] && !c.dryRun && Guard(c, p).Some?
    ensures OneChange(c, name, p, s, fate, k) == ChangeOutcome(Stop(Guard(c, p)), s, k)
  {
    hide Guard;
  }

  /** How the change at hand ends when its one call answers err. */
  function Ended(p: Progress, next: Progress, s: Server, err: Option<Error>, k: nat): ChangeOutcome
    requires p.todo != []
  {
    ChangeOutcome(if err.Some? then Stop(Some(Wrapped(Context(p.todo[0].kind), err.value))) else Go(next), s, k)
  }

  /** The change at hand is of this kind and no precondition of it fails. */
  predicate Unblocked(c: Setup, p: Progress, kind: Kind) {
    p.phase == Ready && p.todo != [] && !c.dryRun && Guard(c, p).None? && p.todo[0].kind == kind
  }

  lemma RenderOutcome(c: Setup, name: string, p: Progress, s: Server, fate: nat -> Fate, k: nat)
    requires Defines(c.env, name) && Unblocked(c, p, RenderKickstart)
    ensures OneChange(c, name, p, s, fate, k)
            == Ended(p, Advance(p).(ks := c.render(name)), s, if fate(k).Succeeds? then None else Some(Remote("renderer")), k + 1)
  {
    hide Guard;
  }

  lemma BuildOutcome(c: Setup, name: string, p: Progress, s: Server, fate: nat -> Fate, k: nat)
    requires Defines(c.env, name) && Unblocked(c, p, BuildIso)
    ensures OneChange(c, name, p, s, fate, k)
            == Ended(p, Advance(p).(iso := c.build(p.ks, name)), s, if fate(k).Succeeds? then None else Some(Remote("builder")), k + 1)
  {
    hide Guard;
  }

  lemma CreateOutcome(c: Setup, name: string, p: Progress, s: Server, fate: nat -> Fate, k: nat)
    requires Defines(c.env, name) && Unblocked(c, p, CreateVm)
    ensures var r := CreateVM(s, CreateOptsOf(c.env, name), fate(k));
            OneChange(c, name, p, s, fate, k) == Ended(p, Advance(p), r.server, r.err, k + 1)
  {
    hide Guard, CreateVM, CreateOptsOf;
  }

  lemma StartOutcome(c: Setup, name: string, p: Progress, s: Server, fate: nat -> Fate, k: nat)
    requires Defines(c.env, name) && Unblocked(c, p, StartVm)
    ensures var r := Proxmox.StartVM(s, Key(c, name), fate(k));
            OneChange(c, name, p, s, fate, k) == Ended(p, Advance(p), r.server, r.err, k + 1)
  {
    hide Guard, Proxmox.StartVM;
  }

  class SingleVMWorkflow {
    const setup: Setup
    const name: string
    const world: World
    const uploadMu: Mutex?

    constructor (c: Setup, name: string, world: World, mu: Mutex?)
      ensures setup == c && this.name == name && this.world == world && uploadMu == mu
    {
      setup, this.name, this.world, uploadMu := c, name, world, mu;
    }

    /** Plan only reads: it appends the changes one by one and never touches the server. */
    method Plan() returns (r: Result<seq<Change>>)
      modifies world`calls
      ensures r == PlanResult(setup, name, world.server, world.fate(old(world.calls)))
      ensures world.calls == old(world.calls) + (if Defines(setup.env, name) && setup.hasClient then 1 else 0)
    {
      if !Defines(setup.env, name) {
        return Err(Internal("workflow: node not in manifest"));
      }
      var changes: seq<Change> := [];
      if setup.hasClient {
        var f := world.Take();
        var found := VMExists(world.server, Key(setup, name), f);
        if found.Err? {
          return Err(Wrapped("plan: vm-exists check", found.error));
        }
        if found.value {
          return Err(Remote("plan: vm already exists"));
        }
      }
      var storage := KickstartStorage(setup.env);
      if !setup.skipBuild {
        changes := changes + [Change(RenderKickstart, name), Change(BuildIso, name)];
        if storage != "" {
          changes := changes + [Change(UploadIso, storage)];
        }
      } else if storage != "" {
        changes := changes + [Change(VerifyKickstartIso, storage)];
      }
      changes := changes + [Change(CreateVm, Target(setup, name))];
      if storage != "" {
        changes := changes + [Change(AttachKickstartIso, Target(setup, name))];
      }
      changes := changes + [Change(StartVm, Target(setup, name))];
      assert changes == PlanOf(setup, name);
      return Ok(changes);
    }

    /** buildCreateOpts: the EFI disk for OVMF, then the disks and NICs one by one, then the install ISO. */
    method BuildCreateOpts() returns (o: CreateOpts)
      requires Defines(setup.env, name)
      ensures o == CreateOptsOf(setup.env, name)
      ensures OptsMean(setup.env, name, o)
    {
      hide OptsMean, Backend, IsOvmf, Itoa, VolId;
      var env, node := setup.env, NodeOf(setup.env, name);
      var efiDisk: Option<string> := None;
      if IsOvmf(BiosOf(node.resources)) {
        var efiBackend := "local-lvm";
        if |node.disks| > 0 {
          var backend := Backend(env, node.disks[0]).0;
          if backend != "" { efiBackend := backend; }
        }
        efiDisk := Some(efiBackend);
      }
      var disks: seq<DiskSpec> := [];
      for i := 0 to |node.disks|
        invariant |disks| == i && forall k :: 0 <= k < i ==> disks[k] == DiskSpecOf(env, node.disks[k], k)
      {
        var d := node.disks[i];
        var iface := d.iface;
        if iface == "" { iface := "scsi" + Itoa(i); }
        var (backend, isShared) := Backend(env, d);
        disks := disks + [DiskSpec(iface, backend, d.size, isShared)];
      }
      var nics: seq<NicSpec> := [];
      for i := 0 to |node.nics|
        invariant |nics| == i && forall k :: 0 <= k < i ==> nics[k] == NicSpecOf(node.nics[k], k)
      {
        var n := node.nics[i];
        nics := nics + [NicSpec(i, if n.bridge != "" then n.bridge else "vmbr0", n.mac)];
      }
      var isoFile := "";
      var iso := env.hypervisor.value.iso;
      if iso.Some? && iso.value.image != "" && iso.value.storage != "" {
        isoFile := VolId(iso.value.storage, iso.value.image);
      }
      o := CreateOpts(node.pve, node.vmid, name, node.tags, node.resources, efiDisk, disks, nics, isoFile);
      SameOpts(o);
    }

    lemma SameOpts(o: CreateOpts)
      requires Defines(setup.env, name)
      requires var want := CreateOptsOf(setup.env, name);
               && (o.node, o.vmid, o.name, o.tags, o.resources, o.efiDisk, o.isoFile)
                  == (want.node, want.vmid, want.name, want.tags, want.resources, want.efiDisk, want.isoFile)
               && |o.disks| == |want.disks| && (forall k :: 0 <= k < |o.disks| ==> o.disks[k] == want.disks[k])
               && |o.nics| == |want.nics| && (forall k :: 0 <= k < |o.nics| ==> o.nics[k] == want.nics[k])
      ensures o == CreateOptsOf(setup.env, name) && OptsMean(setup.env, name, o)
    {
      hide CreateOptsOf, OptsMean;
      BuiltOptsMean(setup.env, name);
    }

    /** The upload itself is made only with the lock in hand. */
    method SendISO(storage: string, isoPath: string) returns (err: Option<Error>)
      requires Defines(setup.env, name) && (uploadMu != null ==> uploadMu.held)
      modifies world`server, world`calls
      ensures world.calls == old(world.calls) + 1
      ensures Reply(world.server, err)
              == UploadISO(old(world.server), NodeOf(setup.env, name).pve, storage, isoPath, UploadedFile(name), world.fate(old(world.calls)))
    {
      hide UploadISO;
      var f := world.Take();
      err := world.Settle(UploadISO(world.server, NodeOf(setup.env, name).pve, storage, isoPath, UploadedFile(name), f));
    }

    /** One upload under the shared lock: lock, call, unlock. */
    method Upload(storage: string, isoPath: string, ghost p: Progress) returns (err: Option<Error>)
      requires Defines(setup.env, name) && storage == KickstartStorage(setup.env) && isoPath == p.iso && TakesLock(setup, p)
      requires uploadMu != null ==> !uploadMu.held
      modifies world`server, world`calls
      modifies if uploadMu != null then {uploadMu} else {}
      ensures uploadMu != null ==> !uploadMu.held
      ensures ChangeOutcome(if err.Some? then Stop(err) else Go(Advance(p)), world.server, world.calls)
              == OneChange(setup, name, p, old(world.server), world.fate, old(world.calls))
    {
      hide UploadISO;
      ghost var p1 := p.(phase := Locked);
      if uploadMu != null { uploadMu.Lock(); }
      var e := SendISO(storage, isoPath);
      if uploadMu != null { uploadMu.Unlock(); }
      assert OneChange(setup, name, p1, old(world.server), world.fate, old(world.calls))
          == OneChange(setup, name, p1.(phase := Unlocking(e)), world.server, world.fate, world.calls);
      if e.Some? { return Some(Wrapped("upload-iso", e.value)); }
      return None;
    }

    /** The two calls of attach-kickstart-iso; the second is not made when the first fails. */
    method Attach(ghost p: Progress) returns (err: Option<Error>)
      requires Defines(setup.env, name) && p.phase == Ready && p.todo != [] && !setup.dryRun
      requires p.todo[0].kind == AttachKickstartIso && Guard(setup, p).None?
      modifies world`server, world`calls
      ensures ChangeOutcome(if err.Some? then Stop(err) else Go(Advance(p)), world.server, world.calls)
              == OneChange(setup, name, p, old(world.server), world.fate, old(world.calls))
    {
      hide AttachISO, SetBootOrder;
      var f := world.Take();
      var e := world.Settle(AttachISO(world.server, Key(setup, name), Ide3, KickstartVolId(setup, name), f));
      if e.Some? { return Some(Wrapped("attach-kickstart-iso", e.value)); }
      f := world.Take();
      e := world.Settle(SetBootOrder(world.server, Key(setup, name), BOOT_INSTALL, f));
      if e.Some? { return Some(Wrapped("attach-kickstart-iso: set boot order", e.value)); }
      return None;
    }

    /** The ISO that an earlier upload is assumed to have left; the expected volume id is the one attached later. */
    method VerifyIso(storage: string, ghost p: Progress) returns (err: Option<Error>)
      requires Defines(setup.env, name) && storage == KickstartStorage(setup.env) && p.phase == Ready && p.todo != [] && !setup.dryRun
      requires p.todo[0].kind == VerifyKickstartIso && Guard(setup, p).None?
      modifies world`calls
      ensures ChangeOutcome(if err.Some? then Stop(err) else Go(Advance(p)), world.server, world.calls)
              == OneChange(setup, name, p, world.server, world.fate, old(world.calls))
    {
      hide StorageContentExists;
      var f := world.Take();
      var present := StorageContentExists(world.server, NodeOf(setup.env, name).pve, storage, KickstartVolId(setup, name), f);
      if present.Err? { return Some(Wrapped("verify-kickstart-iso", present.error)); }
      if !present.value { return Some(Wrapped("verify-kickstart-iso", Remote("not present"))); }
      return None;
    }

    method Render(ks: string, ghost p: Progress) returns (renderedKS: string, err: Option<Error>)
      requires Defines(setup.env, name) && Unblocked(setup, p, RenderKickstart)
      modifies world`calls
      ensures ChangeOutcome(if err.Some? then Stop(err) else Go(Advance(p).(ks := renderedKS)), world.server, world.calls)
              == OneChange(setup, name, p, world.server, world.fate, old(world.calls))
    {
      hide OneChange, Guard;
      RenderOutcome(setup, name, p, world.server, world.fate, world.calls);
      var f := world.Take();
      if !f.Succeeds? { return ks, Some(Wrapped("render", Remote("renderer"))); }
      return setup.render(name), None;
    }

    method Build(ks: string, iso: string, ghost p: Progress) returns (isoPath: string, err: Option<Error>)
      requires Defines(setup.env, name) && Unblocked(setup, p, BuildIso) && ks == p.ks
      modifies world`calls
      ensures ChangeOutcome(if err.Some? then Stop(err) else Go(Advance(p).(iso := isoPath)), world.server, world.calls)
              == OneChange(setup, name, p, world.server, world.fate, old(world.calls))
    {
      hide OneChange, Guard;
      BuildOutcome(setup, name, p, world.server, world.fate, world.calls);
      var f := world.Take();
      if !f.Succeeds? { return iso, Some(Wrapped("build-iso", Remote("builder"))); }
      return setup.build(ks, name), None;
    }

    method Create(ghost p: Progress) returns (err: Option<Error>)
      requires Defines(setup.env, name) && Unblocked(setup, p, CreateVm)
      modifies world`server, world`calls
      ensures ChangeOutcome(if err.Some? then Stop(err) else Go(Advance(p)), world.server, world.calls)
              == OneChange(setup, name, p, old(world.server), world.fate, old(world.calls))
    {
      hide CreateVM, CreateOptsOf, OneChange, Guard;
      CreateOutcome(setup, name, p, world.server, world.fate, world.calls);
      var opts := BuildCreateOpts();
      var f := world.Take();
      err := world.Settle(CreateVM(world.server, opts, f));
      if err.Some? { return Some(Wrapped("create-vm", err.value)); }
    }

    method PowerOn(ghost p: Progress) returns (err: Option<Error>)
      requires Defines(setup.env, name) && Unblocked(setup, p, StartVm)
      modifies world`server, world`calls
      ensures ChangeOutcome(if err.Some? then Stop(err) else Go(Advance(p)), world.server, world.calls)
              == OneChange(setup, name, p, old(world.server), world.fate, old(world.calls))
    {
      hide Proxmox.StartVM, OneChange, Guard;
      StartOutcome(setup, name, p, world.server, world.fate, world.calls);
      var f := world.Take();
      err := world.Settle(Proxmox.StartVM(world.server, Key(setup, name), f));
      if err.Some? { return Some(Wrapped("start-vm", err.value)); }
    }

    /** One change of the list: the body of the switch in Apply. */
    method ApplyChange(ch: Change, ks: string, iso: string, ghost rest: seq<Change>)
      returns (renderedKS: string, isoPath: string, err: Option<Error>)
      requires Defines(setup.env, name) && !setup.dryRun
      requires uploadMu != null ==> !uploadMu.held
      modifies world`server, world`calls
      modifies if uploadMu != null then {uploadMu} else {}
      ensures uploadMu != null ==> !uploadMu.held
      ensures ChangeOutcome(
                if err.Some? then Stop(err) else Go(Progress(rest, renderedKS, isoPath, Ready)), world.server, world.calls)
              == OneChange(setup, name, Progress([ch] + rest, ks, iso, Ready), old(world.server), world.fate, old(world.calls))
    {
      hide OneChange, React, Ask, RequestOf;
      ghost var p := Progress([ch] + rest, ks, iso, Ready);
      var storage := KickstartStorage(setup.env);
      assert p.todo[1..] == rest;
      renderedKS, isoPath, err := ks, iso, None;
      if Guard(setup, p).Some? { GuardStops(setup, name, p, world.server, world.fate, world.calls); }
      match ch.kind {
        case RenderKickstart =>
          if !setup.hasRenderer { return ks, iso, Some(Internal("apply: Renderer not set")); }
          renderedKS, err := Render(ks, p);
        case BuildIso =>
          if !setup.hasBuilder { return ks, iso, Some(Internal("apply: Builder not set")); }
          isoPath, err := Build(ks, iso, p);
        case UploadIso =>
          if !setup.hasClient { return ks, iso, Some(Internal("apply: Client not set")); }
          if storage == "" { return ks, iso, Some(Internal("apply: iso.kickstart_storage not configured")); }
          if isoPath == "" { return ks, iso, Some(Internal("apply: iso path empty (did build-iso run?)")); }
          err := Upload(storage, isoPath, p);
        case VerifyKickstartIso =>
          if !setup.hasClient { return ks, iso, Some(Internal("apply: Client not set")); }
          if storage == "" { return ks, iso, Some(Internal("apply: iso.kickstart_storage not configured")); }
          err := VerifyIso(storage, p);
        case CreateVm =>
          if !setup.hasClient { return ks, iso, Some(Internal("apply: Client not set")); }
          err := Create(p);
        case AttachKickstartIso =>
          if !setup.hasClient { return ks, iso, Some(Internal("apply: Client not set")); }
          if storage == "" { return ks, iso, Some(Internal("apply: iso.kickstart_storage not configured")); }
          err := Attach(p);
        case StartVm =>
          if !setup.hasClient { return ks, iso, Some(Internal("apply: Client not set")); }
          err := PowerOn(p);
        case Other(kind) =>
          err := Some(Internal("apply: unknown change kind"));
      }
    }

    /** Apply does what the node's steps do when nothing else runs, and gives the upload lock back. */
    method Apply(changes: seq<Change>) returns (err: Option<Error>)
      requires uploadMu != null ==> !uploadMu.held
      modifies world`server, world`calls
      modifies if uploadMu != null then {uploadMu} else {}
      ensures uploadMu != null ==> !uploadMu.held
      ensures !Defines(setup.env, name) ==>
                err == Some(Internal("workflow: node not in manifest"))
                && world.server == old(world.server) && world.calls == old(world.calls)
      ensures Defines(setup.env, name) ==>
                Outcome(world.server, err, world.calls)
                == Solo(setup, name, Start(changes), old(world.server), world.fate, old(world.calls))
    {
      if !Defines(setup.env, name) {
        return Some(Internal("workflow: node not in manifest"));
      }
      hide OneChange, Ask;
      var renderedKS, isoPath := "", "";
      ghost var want := Solo(setup, name, Start(changes), world.server, world.fate, world.calls);
      assert changes[0..] == changes;
      for i := 0 to |changes|
        invariant uploadMu != null ==> !uploadMu.held
        invariant want == Solo(setup, name, Progress(changes[i..], renderedKS, isoPath, Ready), world.server, world.fate, world.calls)
      {
        assert changes[i..] == [changes[i]] + changes[i + 1..];
        if !setup.dryRun {
          SoloByChange(setup, name, Progress(changes[i..], renderedKS, isoPath, Ready), world.server, world.fate, world.calls);
          renderedKS, isoPath, err := ApplyChange(changes[i], renderedKS, isoPath, changes[i + 1..]);
          if err.Some? {
            return;
          }
        }
      }
      return None;
    }

    /** Rollback: look, stop with the error ignored, delete. */
    method Rollback() returns (err: Option<Error>)
      modifies world`server, world`calls
      ensures Outcome(world.server, err, world.calls)
              == RollbackNode(setup, name, old(world.server), world.fate, old(world.calls))
      ensures Defines(setup.env, name) ==>
                && OnlyVM(old(world.server), world.server, Key(setup, name))
                && (err.None? ==> Key(setup, name) !in world.server.vms)
    {
      hide StopVM, DeleteVM, OnlyVM;
      if Defines(setup.env, name) { RollbackNodeRemoves(setup, name, world.server, world.fate, world.calls); }
      if !Defines(setup.env, name) { return Some(Internal("workflow: node not in manifest")); }
      if !setup.hasClient { return Some(Internal("rollback: Client not set")); }
      var key := Key(setup, name);
      var f := world.Take();
      var found := VMExists(world.server, key, f);
      if found.Err? { return Some(found.error); }
      if !found.value { return None; }
      f := world.Take();
      var _ := world.Settle(StopVM(world.server, key, f));
      f := world.Take();
      err := world.Settle(DeleteVM(world.server, key, f));
    }

    /** FinalizeSingle: the first failing call ends it. */
    method Detach() returns (err: Option<Error>)
      requires Defines(setup.env, name)
      modifies world`server, world`calls
      ensures Outcome(world.server, err, world.calls)
              == FinalizeSingle(old(world.server), Key(setup, name), world.fate, old(world.calls))
      ensures OnlyVM(old(world.server), world.server, Key(setup, name))
      ensures err.None? ==>
                && Key(setup, name) in old(world.server).vms && world.server == Finalized(old(world.server), Key(setup, name))
                && Key(setup, name) in world.server.vms
                && FinalMeans(old(world.server).vms[Key(setup, name)], world.server.vms[Key(setup, name)])
    {
      hide EjectISO, SetBootOrder, OnlyVM, Finalized, FinalMeans;
      var key := Key(setup, name);
      AttemptFinalizes(world.server, key, world.fate, world.calls);
      var f := world.Take();
      err := world.Settle(EjectISO(world.server, key, Ide3, f));
      if err.Some? { return Some(Wrapped("finalize: detach ide3 (kickstart)", err.value)); }
      f := world.Take();
      err := world.Settle(EjectISO(world.server, key, Ide2, f));
      if err.Some? { return Some(Wrapped("finalize: detach ide2 (install)", err.value)); }
      f := world.Take();
      err := world.Settle(SetBootOrder(world.server, key, BOOT_DISK, f));
      if err.Some? { return Some(Wrapped("finalize: reset boot order", err.value)); }
    }

    method Finalize() returns (err: Option<Error>)
      modifies world`server, world`calls
      ensures Outcome(world.server, err, world.calls)
              == FinalizeNode(setup, name, old(world.server), world.fate, old(world.calls))
      ensures Defines(setup.env, name) ==> OnlyVM(old(world.server), world.server, Key(setup, name))
      ensures err.None? ==>
                && Defines(setup.env, name) && Key(setup, name) in old(world.server).vms
                && world.server == Finalized(old(world.server), Key(setup, name))
                && Key(setup, name) in world.server.vms
                && FinalMeans(old(world.server).vms[Key(setup, name)], world.server.vms[Key(setup, name)])
    {
      hide FinalizeSingle, Finalized;
      if !Defines(setup.env, name) { return Some(Internal("workflow: node not in manifest")); }
      if !setup.hasClient { return Some(Internal("finalize: Client not set")); }
      var ips := NodeOf(setup.env, name).ips;
      if forall slot :: slot in ips ==> ips[slot] == "" {
        return Some(Internal("finalize: node has no IPs configured"));
      }
      var f := world.Take();
      if !f.Succeeds? { return Some(Remote("finalize: ssh-up wait")); }
      err := Detach();
    }
  }
}
