/** One node's workflow: Plan, and Apply as a sequence of smallest steps. */
module SingleVM {
  import opened Common
  import opened Manifest
  import opened Proxmox
  import opened Decimal

  datatype Kind =
    | RenderKickstart | BuildIso | UploadIso | VerifyKickstartIso
    | CreateVm | AttachKickstartIso | StartVm | Other(name: string)

  datatype Change = Change(kind: Kind, target: string)

  /** What every node of one run shares. render and build are the results of successful renderer and builder calls. */
  datatype Setup = Setup(
    env: Env, skipBuild: bool, dryRun: bool,
    hasClient: bool, hasRenderer: bool, hasBuilder: bool,
    render: string -> string, build: (string, string) -> string)

  function Key(c: Setup, name: string): VMKey
    requires Defines(c.env, name)
  {
    (NodeOf(c.env, name).pve, NodeOf(c.env, name).vmid)
  }

  // ----- create options

  function Backend(env: Env, d: Disk): (string, bool) {
    if d.storage != "" then (d.storage, d.shared)
    else if d.storageClass != "" && env.classes.Some? && d.storageClass in env.classes.value then
      (env.classes.value[d.storageClass].backend, env.classes.value[d.storageClass].shared || d.shared)
    else ("local-lvm", d.shared)
  }

  function DiskSpecOf(env: Env, d: Disk, i: nat): DiskSpec {
    DiskSpec(if d.iface == "" then "scsi" + Itoa(i) else d.iface, Backend(env, d).0, d.size, Backend(env, d).1)
  }

  function NicSpecOf(n: Nic, i: nat): NicSpec {
    NicSpec(i, if n.bridge != "" then n.bridge else "vmbr0", n.mac)
  }

  function EfiStorage(env: Env, n: Node): string {
    if |n.disks| > 0 && Backend(env, n.disks[0]).0 != "" then Backend(env, n.disks[0]).0 else "local-lvm"
  }

  function CreateOptsOf(env: Env, name: string): (o: CreateOpts)
    requires Defines(env, name)
    ensures (o.node, o.vmid, o.name) == (NodeOf(env, name).pve, NodeOf(env, name).vmid, name)
  {
    var n := NodeOf(env, name);
    var iso := env.hypervisor.value.iso;
    CreateOpts(
      n.pve, n.vmid, name, n.tags, n.resources,
      if IsOvmf(BiosOf(n.resources)) then Some(EfiStorage(env, n)) else None,
      seq(|n.disks|, i requires 0 <= i < |n.disks| => DiskSpecOf(env, n.disks[i], i)),
      seq(|n.nics|, i requires 0 <= i < |n.nics| => NicSpecOf(n.nics[i], i)),
      if iso.Some? && iso.value.image != "" && iso.value.storage != "" then VolId(iso.value.storage, iso.value.image) else "")
  }

  // ----- what the options have to be, from the manifest alone

  /** The disk's storage class is in the catalogue. */
  predicate Classified(env: Env, d: Disk) {
    d.storageClass != "" && env.classes.Some? && d.storageClass in env.classes.value
  }

  /** A literal storage wins, then the class, then local-lvm; a class can only add sharing. */
  predicate DiskMeans(env: Env, d: Disk, i: nat, spec: DiskSpec) {
    && spec.iface == (if d.iface != "" then d.iface else "scsi" + Itoa(i)) && spec.size == d.size
    && (d.storage != "" ==> spec.storage == d.storage && spec.shared == d.shared)
    && (d.storage == "" && Classified(env, d) ==>
          var k := env.classes.value[d.storageClass]; spec.storage == k.backend && (spec.shared <==> k.shared || d.shared))
    && (d.storage == "" && !Classified(env, d) ==> spec.storage == "local-lvm" && spec.shared == d.shared)
  }

  predicate SpellsOvmf(bios: string) {
    |bios| == 4 && bios[0] in "oO" && bios[1] in "vV" && bios[2] in "mM" && bios[3] in "fF"
  }

  /** The EFI disk stands beside the first disk, or on local-lvm when that has no storage. */
  predicate EfiMeans(n: Node, o: CreateOpts) {
    if n.resources.Some? && SpellsOvmf(n.resources.value.bios) then
      o.efiDisk == Some(if o.disks == [] || o.disks[0].storage == "" then "local-lvm" else o.disks[0].storage)
    else o.efiDisk.None?
  }

  /** What the options for a node say. */
  predicate OptsMean(env: Env, name: string, o: CreateOpts)
    requires Defines(env, name)
  {
    var n, iso := NodeOf(env, name), env.hypervisor.value.iso;
    && (o.node, o.vmid, o.name) == (n.pve, n.vmid, name) && (o.tags, o.resources) == (n.tags, n.resources)
    && |o.disks| == |n.disks| && (forall i :: 0 <= i < |n.disks| ==> DiskMeans(env, n.disks[i], i, o.disks[i]))
    && |o.nics| == |n.nics|
    && (forall i :: 0 <= i < |n.nics| ==>
          o.nics[i] == NicSpec(i, if n.nics[i].bridge == "" then "vmbr0" else n.nics[i].bridge, n.nics[i].mac))
    && EfiMeans(n, o)
    && o.isoFile == (if iso.Some? && iso.value.image != "" && iso.value.storage != "" then iso.value.storage + ":iso/" + iso.value.image else "")
  }

  lemma DiskSpecMeans(env: Env, d: Disk, i: nat)
    ensures DiskMeans(env, d, i, DiskSpecOf(env, d, i))
  {
    hide Itoa;
  }

  lemma BuiltOptsMean(env: Env, name: string)
    requires Defines(env, name)
    ensures OptsMean(env, name, CreateOptsOf(env, name))
  {
    hide DiskSpecOf, DiskMeans, Itoa;
    var n := NodeOf(env, name);
    forall i | 0 <= i < |n.disks| ensures DiskMeans(env, n.disks[i], i, DiskSpecOf(env, n.disks[i], i)) { DiskSpecMeans(env, n.disks[i], i); }
    BuiltEfi(env, n, CreateOptsOf(env, name));
  }

  lemma BuiltEfi(env: Env, n: Node, o: CreateOpts)
    requires |o.disks| == |n.disks| && forall i :: 0 <= i < |n.disks| ==> o.disks[i] == DiskSpecOf(env, n.disks[i], i)
    requires o.efiDisk == if IsOvmf(BiosOf(n.resources)) then Some(EfiStorage(env, n)) else None
    ensures EfiMeans(n, o)
  {
    hide Itoa, Backend;
  }

  /** The manifest entries that the client-side sanity check still rejects. */
  predicate Creatable(env: Env, name: string)
    requires Defines(env, name)
  {
    var n := NodeOf(env, name);
    && n.pve != "" && n.vmid > 0 && name != ""
    && forall d :: d in n.disks ==> d.size != "" && (d.storage == "" && Classified(env, d) ==> env.classes.value[d.storageClass].backend != "")
  }

  /** buildCreateOpts always supplies the interface, bridge and EFI disk that CreateOpts.Validate asks for. */
  lemma CreateOptsValidIff(env: Env, name: string)
    requires Defines(env, name)
    ensures ValidOpts(CreateOptsOf(env, name)) <==> Creatable(env, name)
    ensures var n := NodeOf(env, name);
            Creatable(env, name)
            <==> && n.pve != "" && n.vmid > 0 && name != ""
                 && forall i :: 0 <= i < |n.disks| ==> n.disks[i].size != "" && CreateOptsOf(env, name).disks[i].storage != ""
  {
    var n, o := NodeOf(env, name), CreateOptsOf(env, name);
    if ValidOpts(o) {
      forall d | d in n.disks ensures d.size != "" && Backend(env, d).0 != "" {
        var i :| 0 <= i < |n.disks| && n.disks[i] == d;
        assert o.disks[i] in o.disks;
      }
    }
    if Creatable(env, name) {
      forall d | d in o.disks ensures d.iface != "" && d.storage != "" && d.size != "" {
        var i :| 0 <= i < |o.disks| && o.disks[i] == d;
        assert n.disks[i] in n.disks;
      }
      forall x | x in o.nics ensures x.bridge != "" {
        var i :| 0 <= i < |o.nics| && o.nics[i] == x;
      }
    }
  }

  // ----- plan

  function Target(c: Setup, name: string): string
    requires Defines(c.env, name)
  {
    Key(c, name).0 + "/" + Itoa(Key(c, name).1)
  }

  function PlanOf(c: Setup, name: string): seq<Change>
    requires Defines(c.env, name)
  {
    var ks := KickstartStorage(c.env);
    (if c.skipBuild then [] else [Change(RenderKickstart, name), Change(BuildIso, name)])
    + (if ks == "" then [] else [Change(if c.skipBuild then VerifyKickstartIso else UploadIso, ks)])
    + [Change(CreateVm, Target(c, name))]
    + (if ks == "" then [] else [Change(AttachKickstartIso, Target(c, name))])
    + [Change(StartVm, Target(c, name))]
  }

  /** The four lists, written out. */
  lemma PlanLists(c: Setup, name: string)
    requires Defines(c.env, name)
    ensures var ks, vm := KickstartStorage(c.env), NodeOf(c.env, name).pve + "/" + Itoa(NodeOf(c.env, name).vmid);
            && (!c.skipBuild && ks != "" ==>
                  PlanOf(c, name) == [Change(RenderKickstart, name), Change(BuildIso, name), Change(UploadIso, ks),
                                      Change(CreateVm, vm), Change(AttachKickstartIso, vm), Change(StartVm, vm)])
            && (!c.skipBuild && ks == "" ==>
                  PlanOf(c, name) == [Change(RenderKickstart, name), Change(BuildIso, name), Change(CreateVm, vm), Change(StartVm, vm)])
            && (c.skipBuild && ks != "" ==>
                  PlanOf(c, name) == [Change(VerifyKickstartIso, ks), Change(CreateVm, vm), Change(AttachKickstartIso, vm), Change(StartVm, vm)])
            && (c.skipBuild && ks == "" ==> PlanOf(c, name) == [Change(CreateVm, vm), Change(StartVm, vm)])
  {
  }

  // ----- apply, one step at a time

  /** Where Apply stands inside the first change of its list. */
  datatype Phase = Ready | Locked | Unlocking(result: Option<Error>) | Attached

  datatype Progress = Progress(todo: seq<Change>, ks: string, iso: string, phase: Phase)

  predicate WellPhased(p: Progress) {
    match p.phase
    case Ready => true
    case Locked => p.todo != [] && p.todo[0].kind == UploadIso
    case Unlocking(_) => p.todo != [] && p.todo[0].kind == UploadIso
    case Attached => p.todo != [] && p.todo[0].kind == AttachKickstartIso
  }

  function Start(changes: seq<Change>): Progress {
    Progress(changes, "", "", Ready)
  }

  function Advance(p: Progress): Progress
    requires p.todo != []
  {
    p.(todo := p.todo[1..], phase := Ready)
  }

  function UploadedFile(name: string): string {
    "proxctl-" + name + ".iso"
  }

  function KickstartVolId(c: Setup, name: string): string {
    VolId(KickstartStorage(c.env), name + "_kickstart.iso")
  }

  const BOOT_INSTALL := "scsi0;ide3;ide2"

  /** A failed precondition of the first change. */
  function Guard(c: Setup, p: Progress): Option<Error>
    requires p.todo != []
  {
    var k := p.todo[0].kind;
    if k.Other? then Some(Internal("apply: unknown change kind"))
    else if k == RenderKickstart then if c.hasRenderer then None else Some(Internal("apply: Renderer not set"))
    else if k == BuildIso then if c.hasBuilder then None else Some(Internal("apply: Builder not set"))
    else if !c.hasClient then Some(Internal("apply: Client not set"))
    else if k in {UploadIso, VerifyKickstartIso, AttachKickstartIso} && KickstartStorage(c.env) == "" then
      Some(Internal("apply: iso.kickstart_storage not configured"))
    else if k == UploadIso && p.iso == "" then Some(Internal("apply: iso path empty (did build-iso run?)"))
    else None
  }

  /** What a step asks of the outside world. */
  datatype Request = Silent | Render | Build | Upload(iso: string) | Content | Create | Attach | Boot | PowerOn

  function RequestOf(c: Setup, p: Progress): Request {
    match p.phase
    case Locked => Upload(p.iso)
    case Unlocking(_) => Silent
    case Attached => Boot
    case Ready =>
      if p.todo == [] || c.dryRun || Guard(c, p).Some? then Silent
      else match p.todo[0].kind
           case RenderKickstart => Render
           case BuildIso => Build
           case VerifyKickstartIso => Content
           case CreateVm => Create
           case AttachKickstartIso => Attach
           case StartVm => PowerOn
           case _ => Silent
  }

  function Verified(present: Result<bool>): Option<Error> {
    match present
    case Err(e) => Some(e)
    case Ok(found) => if found then None else Some(Remote("not present"))
  }

  /** The answer of the outside world. */
  function Ask(c: Setup, name: string, q: Request, s: Server, f: Fate): Reply
    requires Defines(c.env, name)
  {
    var key, pve, storage := Key(c, name), NodeOf(c.env, name).pve, KickstartStorage(c.env);
    match q
    case Silent => Reply(s, None)
    case Render => Reply(s, if f.Succeeds? then None else Some(Remote("renderer")))
    case Build => Reply(s, if f.Succeeds? then None else Some(Remote("builder")))
    case Upload(iso) => UploadISO(s, pve, storage, iso, UploadedFile(name), f)
    case Content => Reply(s, Verified(StorageContentExists(s, pve, storage, KickstartVolId(c, name), f)))
    case Create => CreateVM(s, CreateOptsOf(c.env, name), f)
    case Attach => AttachISO(s, key, Ide3, KickstartVolId(c, name), f)
    case Boot => SetBootOrder(s, key, BOOT_INSTALL, f)
    case PowerOn => Proxmox.StartVM(s, key, f)
  }

  /** Goes on with the list, or returns from Apply. */
  datatype Reaction = Go(next: Progress) | Stop(err: Option<Error>)

  function Context(k: Kind): string {
    match k
    case RenderKickstart => "render"
    case BuildIso => "build-iso"
    case UploadIso => "upload-iso"
    case VerifyKickstartIso => "verify-kickstart-iso"
    case CreateVm => "create-vm"
    case AttachKickstartIso => "attach-kickstart-iso"
    case StartVm => "start-vm"
    case Other(_) => ""
  }

  /** What Apply does with the answer. */
  function React(c: Setup, name: string, p: Progress, err: Option<Error>): (r: Reaction)
    requires WellPhased(p)
    ensures r.Go? ==> WellPhased(r.next) && Weight(r.next) < Weight(p)
    ensures r.Go? ==> r.next.todo == p.todo || (p.todo != [] && r.next.todo == p.todo[1..])
  {
    match p.phase
    case Ready =>
      if p.todo == [] then Stop(None)
      else if c.dryRun then Go(Advance(p))
      else if Guard(c, p).Some? then Stop(Guard(c, p))
      else if p.todo[0].kind == UploadIso then Go(p.(phase := Locked))
      else if err.Some? then Stop(Some(Wrapped(Context(p.todo[0].kind), err.value)))
      else if p.todo[0].kind == RenderKickstart then Go(Advance(p).(ks := c.render(name)))
      else if p.todo[0].kind == BuildIso then Go(Advance(p).(iso := c.build(p.ks, name)))
      else if p.todo[0].kind == AttachKickstartIso then Go(p.(phase := Attached))
      else Go(Advance(p))
    case Locked => Go(p.(phase := Unlocking(err)))
    case Unlocking(result) =>
      if result.Some? then Stop(Some(Wrapped(Context(UploadIso), result.value))) else Go(Advance(p))
    case Attached =>
      if err.Some? then Stop(Some(Wrapped("attach-kickstart-iso: set boot order", err.value))) else Go(Advance(p))
  }

  /** The step takes the upload lock. */
  predicate TakesLock(c: Setup, p: Progress) {
    p.phase == Ready && p.todo != [] && !c.dryRun && p.todo[0].kind == UploadIso && Guard(c, p).None?
  }

  /** Between Lock and Unlock. */
  predicate HoldsLock(p: Progress) {
    p.phase.Locked? || p.phase.Unlocking?
  }

  function PhaseWeight(ph: Phase): nat {
    match ph
    case Ready => 3
    case Locked => 2
    case Unlocking(_) => 1
    case Attached => 1
  }

  /** Bounds the steps left. */
  function Weight(p: Progress): nat {
    3 * |p.todo| + PhaseWeight(p.phase)
  }

  datatype Outcome = Outcome(server: Server, err: Option<Error>, calls: nat)

  /** The node's Apply running alone, call number k being the next one. */
  function Solo(c: Setup, name: string, p: Progress, s: Server, fate: nat -> Fate, k: nat): Outcome
    requires Defines(c.env, name) && WellPhased(p)
    decreases Weight(p)
  {
    var q := RequestOf(c, p);
    var reply := Ask(c, name, q, s, fate(k));
    var k' := if q.Silent? then k else k + 1;
    match React(c, name, p, reply.err)
    case Stop(err) => Outcome(reply.server, err, k')
    case Go(p') => Solo(c, name, p', reply.server, fate, k')
  }

  const ALL_SUCCEED: nat -> Fate := k => Succeeds
}
