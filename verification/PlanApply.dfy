/** Plan and Apply fit together: what Plan lists, Apply can do. */
module PlanApply {
  import opened Common
  import opened Manifest
  import opened Text
  import opened Proxmox
  import opened SingleVM
  import opened Decimal
  import opened Confluence

  /** Client, renderer and builder are set, and a built ISO has a path. */
  ghost predicate Equipped(c: Setup) {
    c.hasClient && c.hasRenderer && c.hasBuilder && forall ks, name :: c.build(ks, name) != ""
  }

  // ----- no internal error, whatever the calls do

  /** p is somewhere in the plan, j changes done, and has what the next change needs. */
  ghost predicate OnPlan(c: Setup, name: string, p: Progress, j: nat)
    requires Defines(c.env, name)
  {
    && WellPhased(p)
    && j <= |PlanOf(c, name)| && p.todo == PlanOf(c, name)[j..]
    && (!c.skipBuild && !c.dryRun && j >= 2 ==> p.iso != "")
    && (c.dryRun ==> p.phase == Ready)
    && (p.phase.Unlocking? && p.phase.result.Some? ==> !IsInternal(p.phase.result.value))
  }

  lemma GuardPasses(c: Setup, name: string, p: Progress, j: nat)
    requires Defines(c.env, name) && Equipped(c) && OnPlan(c, name, p, j) && p.todo != [] && !c.dryRun
    ensures Guard(c, p).None?
  {
    hide PlanOf;
    assert p.todo[0] == PlanOf(c, name)[j];
    PlannedKind(c, name, j);
  }

  /** What can be said of any planned change. */
  lemma PlannedKind(c: Setup, name: string, j: nat)
    requires Defines(c.env, name) && j < |PlanOf(c, name)|
    ensures var k := PlanOf(c, name)[j].kind;
            && !k.Other?
            && (k in {UploadIso, VerifyKickstartIso, AttachKickstartIso} ==> KickstartStorage(c.env) != "")
            && (k == UploadIso ==> !c.skipBuild && j >= 2)
  {
  }

  lemma AnswerIsRemote(c: Setup, name: string, p: Progress, s: Server, f: Fate, j: nat)
    requires Defines(c.env, name) && Equipped(c) && OnPlan(c, name, p, j)
    requires RequestOf(c, p).Create? ==> Creatable(c.env, name)
    ensures var err := Ask(c, name, RequestOf(c, p), s, f).err; err.Some? ==> !IsInternal(err.value)
  {
    hide TrimSpace, CreateOptsOf, Call, PlanOf, Guard, PutVM, WithPort, ValidOpts, Creatable;
    CreateOptsValidIff(c.env, name);
    CallsAreRemote();
    InstallBoot();
    if p.phase.Locked? { UploadsHaveAnIso(c, name, p, j); }
  }

  lemma CallsAreRemote()
    ensures forall s, e, what, f :: Call(s, e, what, f).err.Some? ==> !IsInternal(Call(s, e, what, f).err.value)
  {
  }

  lemma UploadsHaveAnIso(c: Setup, name: string, p: Progress, j: nat)
    requires Defines(c.env, name) && OnPlan(c, name, p, j) && p.phase.Locked?
    ensures p.iso != ""
  {
    hide PlanOf;
    assert p.todo[0] == PlanOf(c, name)[j];
    PlannedKind(c, name, j);
  }

  /** The plan starts with render and build, unless the build is skipped. */
  lemma PlanStart(c: Setup, name: string)
    requires Defines(c.env, name) && !c.skipBuild
    ensures |PlanOf(c, name)| >= 2 && PlanOf(c, name)[0].kind == RenderKickstart && PlanOf(c, name)[1].kind == BuildIso
  {
  }

  lemma StaysOnPlan(c: Setup, name: string, p: Progress, j: nat, err: Option<Error>)
    requires Defines(c.env, name) && Equipped(c) && OnPlan(c, name, p, j)
    requires err.Some? ==> !IsInternal(err.value)
    ensures var r := React(c, name, p, err);
            if r.Stop? then r.err.Some? ==> !IsInternal(r.err.value)
            else OnPlan(c, name, r.next, if r.next.todo == p.todo then j else j + 1)
  {
    hide PlanOf, Guard;
    if p.todo != [] {
      assert p.todo[0] == PlanOf(c, name)[j];
      assert p.todo[1..] == PlanOf(c, name)[j + 1..];
      if !c.dryRun { GuardPasses(c, name, p, j); }
      if !c.skipBuild { PlanStart(c, name); }
    }
  }

  /** With options that pass the client's check, no step ends in an error of the code's own. */
  lemma {:induction false} PlanNeverFailsInternally(c: Setup, name: string, p: Progress, s: Server, fate: nat -> Fate, k: nat, j: nat)
    requires Defines(c.env, name) && Equipped(c) && OnPlan(c, name, p, j) && (Creatable(c.env, name) || c.dryRun)
    ensures var o := Solo(c, name, p, s, fate, k); o.err.Some? ==> !IsInternal(o.err.value)
    decreases Weight(p)
  {
    hide Ask, React, PlanOf, Equipped, Creatable, Guard;
    var q := RequestOf(c, p);
    var reply := Ask(c, name, q, s, fate(k));
    AnswerIsRemote(c, name, p, s, fate(k), j);
    StaysOnPlan(c, name, p, j, reply.err);
    var r := React(c, name, p, reply.err);
    if r.Go? {
      PlanNeverFailsInternally(c, name, r.next, reply.server, fate, if q.Silent? then k else k + 1, if r.next.todo == p.todo then j else j + 1);
    }
  }

  /** The plan up to create-vm, and from there on. */
  function Head(c: Setup, name: string): seq<Change>
    requires Defines(c.env, name)
  {
    var ks := KickstartStorage(c.env);
    (if c.skipBuild then [] else [Change(RenderKickstart, name), Change(BuildIso, name)])
    + (if ks == "" then [] else [Change(if c.skipBuild then VerifyKickstartIso else UploadIso, ks)])
  }

  function Tail(c: Setup, name: string): seq<Change>
    requires Defines(c.env, name)
  {
    [Change(CreateVm, Target(c, name))]
    + (if KickstartStorage(c.env) == "" then [] else [Change(AttachKickstartIso, Target(c, name))])
    + [Change(SingleVM.StartVm, Target(c, name))]
  }

  lemma PlanIsHeadAndTail(c: Setup, name: string)
    requires Defines(c.env, name)
    ensures PlanOf(c, name) == Head(c, name) + Tail(c, name) && Tail(c, name)[0].kind == CreateVm
    ensures forall ch :: ch in Head(c, name) ==> ch.kind != CreateVm
  {
  }

  /** A change is handled the same way whatever stands behind it in the list. */
  lemma SameReaction(c: Setup, name: string, p: Progress, head: seq<Change>, rest: seq<Change>, err: Option<Error>)
    requires WellPhased(p) && head != [] && p.todo == head + rest
    ensures WellPhased(p.(todo := head)) && RequestOf(c, p.(todo := head)) == RequestOf(c, p)
    ensures var r, h := React(c, name, p, err), React(c, name, p.(todo := head), err);
            if r.Stop? then h == r && r.err.Some?
            else h.Go? && (if r.next.todo == p.todo then h.next == r.next.(todo := head)
                           else r.next.todo == head[1..] + rest && h.next == r.next.(todo := head[1..]))
  {
    assert p.todo[0] == head[0] && p.todo[1..] == head[1..] + rest;
    assert Guard(c, p) == Guard(c, p.(todo := head));
  }

  /** At create-vm: the client refuses the options before any call is made. */
  lemma RefusedAtCreate(c: Setup, name: string, p: Progress, s: Server, fate: nat -> Fate, k: nat)
    requires Defines(c.env, name) && Equipped(c) && !c.dryRun && !Creatable(c.env, name)
    requires p.phase == Ready && p.todo == Tail(c, name)
    ensures var o := Solo(c, name, p, s, fate, k); o.err == Some(REFUSED) && o.server == s
  {
    hide Creatable, CreateOptsOf, ValidOpts, Equipped;
    CreateOptsValidIff(c.env, name);
    assert c.hasClient by { EquippedHasClient(c); }
  }

  const REFUSED := Wrapped("create-vm", Internal("CreateOpts invalid"))

  lemma EquippedHasClient(c: Setup)
    requires Equipped(c)
    ensures c.hasClient
  {
  }

  lemma {:induction false} RestFailsInternallyIff(
      c: Setup, name: string, p: Progress, head: seq<Change>, s: Server, fate: nat -> Fate, k: nat, j: nat)
    requires Defines(c.env, name) && Equipped(c) && OnPlan(c, name, p, j)
    requires p.todo == head + Tail(c, name) && (forall ch :: ch in head ==> ch.kind != CreateVm)
    requires WellPhased(p.(todo := head)) && !c.dryRun && !Creatable(c.env, name)
    ensures var o, before := Solo(c, name, p, s, fate, k), Solo(c, name, p.(todo := head), s, fate, k);
            if before.err.None? then o.err == Some(REFUSED) && o.server == before.server
            else o.err.Some? && !IsInternal(o.err.value)
    decreases Weight(p)
  {
    hide Ask, React, PlanOf, Equipped, Creatable, Guard, Tail;
    PlanIsHeadAndTail(c, name);
    if head == [] {
      assert p.todo == Tail(c, name);
      NothingToDo(c, name, p.(todo := head), s, fate, k);
      RefusedAtCreate(c, name, p, s, fate, k);
    } else {
      var q := RequestOf(c, p);
      assert p.todo[0] == head[0];
      var reply := Ask(c, name, q, s, fate(k));
      AnswerIsRemote(c, name, p, s, fate(k), j);
      StaysOnPlan(c, name, p, j, reply.err);
      SameReaction(c, name, p, head, Tail(c, name), reply.err);
      var r := React(c, name, p, reply.err);
      if r.Go? {
        var head' := if r.next.todo == p.todo then head else head[1..];
        RestFailsInternallyIff(c, name, r.next, head', reply.server, fate, if q.Silent? then k else k + 1, if r.next.todo == p.todo then j else j + 1);
      }
    }
  }

  lemma NothingToDo(c: Setup, name: string, p: Progress, s: Server, fate: nat -> Fate, k: nat)
    requires Defines(c.env, name) && p.todo == [] && WellPhased(p)
    ensures Solo(c, name, p, s, fate, k) == Outcome(s, None, k)
  {
  }

  /**
   * Apply on Plan's own list, whichever calls fail: it ends in an error of the code's own exactly when the options built
   * for the node do not pass the client's check and everything up to create-vm went well; that error is then the check's.
   */
  lemma ApplyOfPlanFailsInternallyIff(c: Setup, name: string, s: Server, fate: nat -> Fate, k: nat)
    requires Defines(c.env, name) && Equipped(c)
    ensures var o, before := Solo(c, name, Start(PlanOf(c, name)), s, fate, k), Solo(c, name, Start(Head(c, name)), s, fate, k);
            && (o.err.Some? && IsInternal(o.err.value) <==> !c.dryRun && !Creatable(c.env, name) && before.err.None?)
            && (o.err.Some? && IsInternal(o.err.value) ==> o.err == Some(REFUSED) && o.server == before.server)
  {
    hide Solo, Creatable, Equipped, PlanOf, Tail, Head;
    var start := Start(PlanOf(c, name));
    assert PlanOf(c, name)[0..] == PlanOf(c, name);
    PlanIsHeadAndTail(c, name);
    if c.dryRun || Creatable(c.env, name) {
      PlanNeverFailsInternally(c, name, start, s, fate, k, 0);
    } else {
      assert start.(todo := Head(c, name)) == Start(Head(c, name));
      RestFailsInternallyIff(c, name, start, Head(c, name), s, fate, k, 0);
    }
  }

  // ----- nil means that everything needed was there

  /** What a change of this kind cannot do without. */
  predicate Supplied(c: Setup, k: Kind) {
    && !k.Other? && (k == RenderKickstart ==> c.hasRenderer) && (k == BuildIso ==> c.hasBuilder)
    && (k !in {RenderKickstart, BuildIso} ==> c.hasClient)
    && (k in {UploadIso, VerifyKickstartIso, AttachKickstartIso} ==> KickstartStorage(c.env) != "")
  }

  /** Whatever the change list: an Apply that returned nil, and was no dry run, had what each of its changes needs. */
  lemma {:induction false} NilMeansSupplied(c: Setup, name: string, p: Progress, s: Server, fate: nat -> Fate, k: nat)
    requires Defines(c.env, name) && WellPhased(p) && !c.dryRun && Solo(c, name, p, s, fate, k).err.None?
    requires p.phase != Ready ==> Supplied(c, p.todo[0].kind)
    ensures forall ch :: ch in p.todo ==> Supplied(c, ch.kind)
    decreases Weight(p)
  {
    hide Ask, React, Supplied;
    if p.todo != [] {
      assert p.todo == [p.todo[0]] + p.todo[1..];
      var q := RequestOf(c, p);
      var reply := Ask(c, name, q, s, fate(k));
      var r := React(c, name, p, reply.err);
      OnlyWhenSupplied(c, name, p, reply.err);
      NilMeansSupplied(c, name, r.next, reply.server, fate, if q.Silent? then k else k + 1);
    }
  }

  lemma OnlyWhenSupplied(c: Setup, name: string, p: Progress, err: Option<Error>)
    requires WellPhased(p) && !c.dryRun && p.todo != [] && (p.phase != Ready ==> Supplied(c, p.todo[0].kind))
    ensures var r := React(c, name, p, err);
            if r.Stop? then r.err.Some?
            else Supplied(c, p.todo[0].kind) && (r.next.phase != Ready ==> r.next.todo == p.todo)
  {
  }

  /** A change that lacks something it needs, or an upload without a build, ends Apply before any call is made. */
  lemma MissingEndsApply(c: Setup, name: string, p: Progress, s: Server, fate: nat -> Fate, k: nat)
    requires Defines(c.env, name) && p.phase == Ready && p.todo != [] && !c.dryRun
    requires !Supplied(c, p.todo[0].kind) || (p.todo[0].kind == UploadIso && p.iso == "")
    ensures var o := Solo(c, name, p, s, fate, k); o.server == s && o.calls == k && o.err.Some? && o.err.value.Internal?
  {
  }

  // ----- what an error says

  /** The words with which an error of this change begins. */
  predicate Says(k: Kind, context: string) {
    match k
    case RenderKickstart => context == "render"
    case BuildIso => context == "build-iso"
    case UploadIso => context == "upload-iso"
    case VerifyKickstartIso => context == "verify-kickstart-iso"
    case CreateVm => context == "create-vm"
    case AttachKickstartIso => context == "attach-kickstart-iso" || context == "attach-kickstart-iso: set boot order"
    case StartVm => context == "start-vm"
    case Other(_) => false
  }

  /** The error is a precondition's, or it names the change. */
  predicate Blames(e: Error, k: Kind) {
    match e
    case Internal(_) => true
    case Wrapped(context, _) => Says(k, context)
    case _ => false
  }

  lemma StopBlames(c: Setup, name: string, p: Progress, err: Option<Error>)
    requires WellPhased(p)
    ensures var r := React(c, name, p, err); r.Stop? && r.err.Some? ==> p.todo != [] && Blames(r.err.value, p.todo[0].kind)
  {
  }

  /** Whatever the change list and whichever calls fail: an error of Apply is a precondition's, or names a change of the list. */
  lemma {:induction false} ErrorNamesAChange(c: Setup, name: string, p: Progress, s: Server, fate: nat -> Fate, k: nat)
    requires Defines(c.env, name) && WellPhased(p)
    ensures var err := Solo(c, name, p, s, fate, k).err; err.Some? ==> exists ch :: ch in p.todo && Blames(err.value, ch.kind)
    decreases Weight(p)
  {
    hide Ask, React, Blames;
    var q := RequestOf(c, p);
    var reply := Ask(c, name, q, s, fate(k));
    StopBlames(c, name, p, reply.err);
    var r := React(c, name, p, reply.err);
    if r.Go? {
      ErrorNamesAChange(c, name, r.next, reply.server, fate, if q.Silent? then k else k + 1);
      assert forall ch :: ch in r.next.todo ==> ch in p.todo;
    }
  }

  // ----- where a successful Apply ends

  /** The VM a successful Apply leaves: running, and set up for the kickstart boot when kickstart storage is configured. */
  function InstalledVM(c: Setup, name: string): VM
    requires Defines(c.env, name)
  {
    var vm := NewVM(CreateOptsOf(c.env, name)).(running := true);
    if KickstartStorage(c.env) == "" then vm
    else vm.(ide3 := Some(KickstartVolId(c, name) + CDROM), boot := Some("order=scsi0;ide3;ide2"))
  }

  /** What has to hold on the server for the plan to go through. */
  predicate Applicable(c: Setup, name: string, s: Server)
    requires Defines(c.env, name)
  {
    && Key(c, name) !in s.vms
    && Creatable(c.env, name)
    && (c.skipBuild && KickstartStorage(c.env) != "" ==> VerifyKey(c, name, s) in s.files)
  }

  /** The server after a successful Apply. */
  function Installed(c: Setup, name: string, s: Server): Server
    requires Defines(c.env, name)
  {
    var s' := PutVM(s, Key(c, name), InstalledVM(c, name));
    if c.skipBuild || KickstartStorage(c.env) == "" then s'
    else s'.(files := s.files[UploadKey(c, name, s) := c.build(c.render(name), name)])
  }

  lemma {:induction false} StartRuns(c: Setup, name: string, p: Progress, s: Server, vm: VM)
    requires Defines(c.env, name) && c.hasClient && !c.dryRun
    requires p.phase == Ready && |p.todo| == 1 && p.todo[0].kind == SingleVM.StartVm
    requires Key(c, name) in s.vms && s.vms[Key(c, name)] == vm && !vm.running
    ensures CleanRun(c, name, p, s) == (PutVM(s, Key(c, name), vm.(running := true)), None)
  {
    assert Advance(p).todo == [];
  }

  lemma InstallBoot()
    ensures BootValue(BOOT_INSTALL) == "order=scsi0;ide3;ide2" && TrimSpace(BOOT_INSTALL) != ""
  {
    NothingToTrim(BOOT_INSTALL);
    assert BOOT_INSTALL[0] != "order="[0];
    assert "order=" + BOOT_INSTALL == "order=scsi0;ide3;ide2";
  }

  /** One step of a clean run. */
  lemma CleanStep(c: Setup, name: string, p: Progress, s: Server, next: Progress, s': Server)
    requires Defines(c.env, name) && WellPhased(p)
    requires Ask(c, name, RequestOf(c, p), s, Succeeds) == Reply(s', None) && React(c, name, p, None) == Go(next)
    ensures WellPhased(next) && CleanRun(c, name, p, s) == CleanRun(c, name, next, s')
  {
    hide Ask, React;
  }

  lemma CleanStop(c: Setup, name: string, p: Progress, s: Server)
    requires Defines(c.env, name) && WellPhased(p)
    requires var err := Ask(c, name, RequestOf(c, p), s, Succeeds).err; React(c, name, p, err).Stop? && React(c, name, p, err).err.Some?
    ensures CleanRun(c, name, p, s).1.Some?
  {
    hide Ask, React;
  }

  lemma AttachAnswers(c: Setup, name: string, s: Server)
    requires Defines(c.env, name) && Key(c, name) in s.vms
    ensures Ask(c, name, Attach, s, Succeeds)
            == Reply(PutVM(s, Key(c, name), s.vms[Key(c, name)].(ide3 := Some(KickstartVolId(c, name) + CDROM))), None)
    ensures Ask(c, name, Boot, s, Succeeds)
            == Reply(PutVM(s, Key(c, name), s.vms[Key(c, name)].(boot := Some("order=scsi0;ide3;ide2"))), None)
  {
    hide TrimSpace, BootValue;
    InstallBoot();
  }

  lemma AttachReacts(c: Setup, name: string, p: Progress)
    requires c.hasClient && !c.dryRun && KickstartStorage(c.env) != ""
    requires p.phase == Ready && p.todo != [] && p.todo[0].kind == AttachKickstartIso
    ensures var p1 := p.(phase := Attached);
            && RequestOf(c, p) == Attach && React(c, name, p, None) == Go(p1)
            && RequestOf(c, p1) == Boot && React(c, name, p1, None) == Go(Advance(p))
  {
  }

  lemma AttachRuns(c: Setup, name: string, p: Progress, s: Server, vm: VM)
    requires Defines(c.env, name) && c.hasClient && !c.dryRun && KickstartStorage(c.env) != ""
    requires p.phase == Ready && p.todo != [] && p.todo[0].kind == AttachKickstartIso
    requires Key(c, name) in s.vms && s.vms[Key(c, name)] == vm
    ensures var vm' := vm.(ide3 := Some(KickstartVolId(c, name) + CDROM), boot := Some("order=scsi0;ide3;ide2"));
            CleanRun(c, name, p, s) == CleanRun(c, name, Advance(p), PutVM(s, Key(c, name), vm'))
  {
    hide Ask, React, RequestOf, CleanRun, KickstartVolId;
    var key := Key(c, name);
    var p1, s1 := p.(phase := Attached), PutVM(s, key, vm.(ide3 := Some(KickstartVolId(c, name) + CDROM)));
    var s2 := PutVM(s1, key, s1.vms[key].(boot := Some("order=scsi0;ide3;ide2")));
    AttachReacts(c, name, p);
    AttachAnswers(c, name, s);
    AttachAnswers(c, name, s1);
    CleanStep(c, name, p, s, p1, s1);
    CleanStep(c, name, p1, s1, Advance(p), s2);
    assert s2.vms == s.vms[key := s2.vms[key]];
  }

  lemma {:induction false} TailRuns(c: Setup, name: string, p: Progress, s: Server)
    requires Defines(c.env, name) && c.hasClient && !c.dryRun && p.phase == Ready && p.todo == Tail(c, name)
    ensures var ok := Key(c, name) !in s.vms && Creatable(c.env, name);
            var r := CleanRun(c, name, p, s);
            if ok then r == (PutVM(s, Key(c, name), InstalledVM(c, name)), None) else r.1.Some?
  {
    hide CleanRun, CreateOptsOf;
    CreateOptsValidIff(c.env, name);
    CreateRuns(c, name, p, s);
    if Key(c, name) !in s.vms && Creatable(c.env, name) {
      var key, vm := Key(c, name), NewVM(CreateOptsOf(c.env, name));
      var s1 := PutVM(s, key, vm);
      if KickstartStorage(c.env) != "" {
        AttachRuns(c, name, Advance(p), s1, vm);
        var vm' := vm.(ide3 := Some(KickstartVolId(c, name) + CDROM), boot := Some("order=scsi0;ide3;ide2"));
        StartRuns(c, name, Advance(Advance(p)), PutVM(s1, key, vm'), vm');
        assert PutVM(PutVM(s1, key, vm'), key, vm'.(running := true)).vms == s.vms[key := vm'.(running := true)];
      } else {
        StartRuns(c, name, Advance(p), s1, vm);
        assert PutVM(s1, key, vm.(running := true)).vms == s.vms[key := vm.(running := true)];
      }
    }
  }

  lemma {:induction false} CreateRuns(c: Setup, name: string, p: Progress, s: Server)
    requires Defines(c.env, name) && c.hasClient && !c.dryRun
    requires p.phase == Ready && p.todo != [] && p.todo[0].kind == CreateVm
    ensures var o := CreateOptsOf(c.env, name);
            if ValidOpts(o) && Key(c, name) !in s.vms then
              CleanRun(c, name, p, s) == CleanRun(c, name, Advance(p), PutVM(s, Key(c, name), NewVM(o)))
            else CleanRun(c, name, p, s).1.Some?
  {
    hide CreateOptsOf, ValidOpts;
  }

  /** The changes before create-vm. */
  lemma {:induction false} HeadRuns(c: Setup, name: string, s: Server)
    requires Defines(c.env, name) && Equipped(c) && !c.dryRun
    ensures var p, r := Progress(Tail(c, name), if c.skipBuild then "" else c.render(name), if c.skipBuild then "" else c.build(c.render(name), name), Ready), CleanRun(c, name, Start(PlanOf(c, name)), s);
            var ks := KickstartStorage(c.env);
            if ks == "" then r == CleanRun(c, name, p, s)
            else if !c.skipBuild then r == CleanRun(c, name, p, s.(files := s.files[UploadKey(c, name, s) := p.iso]))
            else if VerifyKey(c, name, s) in s.files then r == CleanRun(c, name, p, s)
            else r.1.Some?
  {
    hide CleanRun, Tail, PlanOf;
    var ks, tail := KickstartStorage(c.env), Tail(c, name);
    if c.skipBuild {
      VerifyRuns(c, name, s);
    } else {
      BuildRuns(c, name, s);
      if ks != "" {
        var p := Progress([Change(UploadIso, ks)] + tail, c.render(name), c.build(c.render(name), name), Ready);
        UploadRuns(c, name, p, s);
        assert Advance(p).todo == tail;
      } else {
        assert (if ks == "" then [] else [Change(UploadIso, ks)]) + tail == tail;
      }
    }
  }

  lemma VerifyAnswers(c: Setup, name: string, p: Progress, s: Server)
    requires Defines(c.env, name) && c.hasClient && !c.dryRun && KickstartStorage(c.env) != ""
    requires p.phase == Ready && p.todo != [] && p.todo[0].kind == VerifyKickstartIso
    ensures var err := Ask(c, name, RequestOf(c, p), s, Succeeds).err;
            if VerifyKey(c, name, s) in s.files then
              Ask(c, name, RequestOf(c, p), s, Succeeds) == Reply(s, None) && React(c, name, p, None) == Go(Advance(p))
            else React(c, name, p, err).Stop? && React(c, name, p, err).err.Some?
  {
    hide KickstartVolId;
  }

  lemma VerifyRuns(c: Setup, name: string, s: Server)
    requires Defines(c.env, name) && Equipped(c) && !c.dryRun && c.skipBuild
    ensures var r, p := CleanRun(c, name, Start(PlanOf(c, name)), s), Start(Tail(c, name));
            if KickstartStorage(c.env) == "" || VerifyKey(c, name, s) in s.files then r == CleanRun(c, name, p, s) else r.1.Some?
  {
    hide Ask, React, RequestOf, CleanRun, Tail, VerifyKey;
    var ks, tail := KickstartStorage(c.env), Tail(c, name);
    SkippedPlan(c, name);
    hide PlanOf;
    if ks != "" {
      var p := Start([Change(VerifyKickstartIso, ks)] + tail);
      assert Advance(p).todo == tail;
      VerifyAnswers(c, name, p, s);
      if VerifyKey(c, name, s) in s.files {
        CleanStep(c, name, p, s, Advance(p), s);
      } else {
        CleanStop(c, name, p, s);
      }
    }
  }

  lemma SkippedPlan(c: Setup, name: string)
    requires Defines(c.env, name) && c.skipBuild
    ensures var ks := KickstartStorage(c.env);
            PlanOf(c, name) == if ks == "" then Tail(c, name) else [Change(VerifyKickstartIso, ks)] + Tail(c, name)
  {
  }

  lemma {:induction false} BuildRuns(c: Setup, name: string, s: Server)
    requires Defines(c.env, name) && Equipped(c) && !c.dryRun && !c.skipBuild
    ensures var ks := KickstartStorage(c.env);
            var rest := (if ks == "" then [] else [Change(UploadIso, ks)]) + Tail(c, name);
            CleanRun(c, name, Start(PlanOf(c, name)), s)
            == CleanRun(c, name, Progress(rest, c.render(name), c.build(c.render(name), name), Ready), s)
  {
    hide Tail;
    var ks := KickstartStorage(c.env);
    var rest := (if ks == "" then [] else [Change(UploadIso, ks)]) + Tail(c, name);
    PlanShape(c, name);
    var p0 := Start(PlanOf(c, name));
    var p1 := Advance(p0).(ks := c.render(name));
    assert CleanRun(c, name, p0, s) == CleanRun(c, name, p1, s);
    assert p1.todo == [Change(BuildIso, name)] + rest;
    var p2 := Advance(p1).(iso := c.build(c.render(name), name));
    assert CleanRun(c, name, p1, s) == CleanRun(c, name, p2, s);
    assert p2.todo == rest;
  }

  lemma PlanShape(c: Setup, name: string)
    requires Defines(c.env, name) && !c.skipBuild
    ensures var ks := KickstartStorage(c.env);
            PlanOf(c, name) == [Change(RenderKickstart, name)] + ([Change(BuildIso, name)]
                               + ((if ks == "" then [] else [Change(UploadIso, ks)]) + Tail(c, name)))
  {
  }

  lemma {:induction false} UploadRuns(c: Setup, name: string, p: Progress, s: Server)
    requires Defines(c.env, name) && TakesLock(c, p)
    ensures CleanRun(c, name, p, s) == CleanRun(c, name, Advance(p), s.(files := s.files[UploadKey(c, name, s) := p.iso]))
  {
    var p1 := p.(phase := Locked);
    assert CleanRun(c, name, p, s) == CleanRun(c, name, p1, s);
    var s1 := s.(files := s.files[UploadKey(c, name, s) := p.iso]);
    assert CleanRun(c, name, p1, s) == CleanRun(c, name, p1.(phase := Unlocking(None)), s1);
  }

  // ----- the same from the manifest alone

  /** The VM: built from the manifest, running, and with what it boots from. */
  predicate InstalledMeans(c: Setup, name: string, vm: VM)
    requires Defines(c.env, name)
  {
    var iso := c.env.hypervisor.value.iso;
    var ks := if iso.Some? then iso.value.kickstartStorage else "";
    && OptsMean(c.env, name, vm.opts) && vm.running
    && vm.ide2 == (if iso.Some? && iso.value.image != "" && iso.value.storage != "" then
                     Some(iso.value.storage + ":iso/" + iso.value.image + ",media=cdrom") else None)
    && vm.ide3 == (if ks == "" then None else Some(ks + ":iso/" + (name + "_kickstart.iso") + ",media=cdrom"))
    && vm.boot == (if ks == "" then None else Some("order=scsi0;ide3;ide2"))
  }

  /** A file of the kickstart storage, as the node's host sees it. */
  function KickstartFile(c: Setup, name: string, s: Server, file: string): (string, string)
    requires Defines(c.env, name)
  {
    var ks := KickstartStorage(c.env);
    (if ks in s.shared then "" else NodeOf(c.env, name).pve, ks + ":iso/" + file)
  }

  /** The VM is new on the server, the build is on the storage under its own name, and nothing else has changed. */
  predicate AppliedMeans(c: Setup, name: string, s: Server, s': Server)
    requires Defines(c.env, name)
  {
    var key := (NodeOf(c.env, name).pve, NodeOf(c.env, name).vmid);
    && key in s'.vms && InstalledMeans(c, name, s'.vms[key]) && s'.vms - {key} == s.vms && s'.shared == s.shared
    && s'.files == (if c.skipBuild || KickstartStorage(c.env) == "" then s.files
                    else s.files[KickstartFile(c, name, s, "proxctl-" + name + ".iso") := c.build(c.render(name), name)])
  }

  lemma InstalledVMMeans(c: Setup, name: string)
    requires Defines(c.env, name)
    ensures InstalledMeans(c, name, InstalledVM(c, name))
  {
    hide OptsMean, Itoa;
    BuiltOptsMean(c.env, name);
  }

  lemma InstalledServerMeans(c: Setup, name: string, s: Server)
    requires Defines(c.env, name) && Key(c, name) !in s.vms
    ensures AppliedMeans(c, name, s, Installed(c, name, s))
  {
    hide InstalledMeans, InstalledVM;
    InstalledVMMeans(c, name);
  }

  /**
   * With every call succeeding, Apply on Plan's own list returns nil exactly when the VM is absent, the options pass
   * the client's check, and a skipped build finds its ISO. It then leaves exactly the installed VM, and what was built.
   */
  lemma ApplyOfPlan(c: Setup, name: string, s: Server, k: nat)
    requires Defines(c.env, name) && Equipped(c) && !c.dryRun
    ensures var o := Solo(c, name, Start(PlanOf(c, name)), s, ALL_SUCCEED, k);
            && (o.err.None? <==> Applicable(c, name, s))
            && (o.err.None? ==> o.server == Installed(c, name, s) && AppliedMeans(c, name, s, o.server))
    ensures Applicable(c, name, s)
            <==> && (NodeOf(c.env, name).pve, NodeOf(c.env, name).vmid) !in s.vms && Creatable(c.env, name)
                 && (c.skipBuild && KickstartStorage(c.env) != "" ==> KickstartFile(c, name, s, name + "_kickstart.iso") in s.files)
    ensures InstalledMeans(c, name, InstalledVM(c, name))
  {
    hide CleanRun, Tail, Creatable, AppliedMeans, Installed, InstalledMeans;
    InstalledVMMeans(c, name);
    CleanRunIsSolo(c, name, Start(PlanOf(c, name)), s, k);
    HeadRuns(c, name, s);
    var p := Progress(Tail(c, name), if c.skipBuild then "" else c.render(name), if c.skipBuild then "" else c.build(c.render(name), name), Ready);
    TailRuns(c, name, p, s);
    TailRuns(c, name, p, s.(files := s.files[UploadKey(c, name, s) := p.iso]));
    if Applicable(c, name, s) { InstalledServerMeans(c, name, s); }
    InstalledIs(c, name, s);
  }

  lemma InstalledIs(c: Setup, name: string, s: Server)
    requires Defines(c.env, name)
    ensures var s' := if c.skipBuild || KickstartStorage(c.env) == "" then s
                      else s.(files := s.files[UploadKey(c, name, s) := c.build(c.render(name), name)]);
            Installed(c, name, s) == PutVM(s', Key(c, name), InstalledVM(c, name))
  {
    hide InstalledVM;
  }

  /**
   * The name under which a build is uploaded is never the one that is attached, so after a successful Apply with a
   * build the attached ISO is on the storage exactly when it was there before.
   */
  lemma UploadIsNotWhatIsAttached(c: Setup, name: string, s: Server)
    requires Defines(c.env, name) && Equipped(c) && !c.dryRun && !c.skipBuild && Applicable(c, name, s)
    ensures UploadedFile(name) != name + "_kickstart.iso"
    ensures VerifyKey(c, name, s) in Installed(c, name, s).files <==> VerifyKey(c, name, s) in s.files
  {
    assert |UploadedFile(name)| != |name + "_kickstart.iso"|;
    var st := KickstartStorage(c.env);
    assert |VolId(st, UploadedFile(name))| != |KickstartVolId(c, name)|;
  }

  /** The check comes late: with every call succeeding, the kickstart ISO has been built and uploaded when it fails. */
  lemma RefusedAfterTheUpload(c: Setup, name: string, s: Server)
    requires Defines(c.env, name) && Equipped(c) && !c.dryRun && !c.skipBuild && KickstartStorage(c.env) != "" && !Creatable(c.env, name)
    ensures var o := Solo(c, name, Start(PlanOf(c, name)), s, ALL_SUCCEED, 0);
            && o.err == Some(REFUSED) && o.server.vms == s.vms
            && o.server.files == s.files[UploadKey(c, name, s) := c.build(c.render(name), name)]
  {
    hide CleanRun, Solo, Tail, PlanOf, Creatable, Equipped;
    var iso := c.build(c.render(name), name);
    var p, s' := Progress(Tail(c, name), c.render(name), iso, Ready), s.(files := s.files[UploadKey(c, name, s) := iso]);
    HeadRuns(c, name, s);
    CleanRunIsSolo(c, name, Start(PlanOf(c, name)), s, 0);
    CleanRunIsSolo(c, name, p, s', 0);
    RefusedAtCreate(c, name, p, s', ALL_SUCCEED, 0);
  }

  /** A manifest with one node, whose name is empty, and kickstart storage. */
  const NAMELESS := Env(Some(Hypervisor(map["" := Node("pve", 100, map[], None, [], [], [])], Some(Iso("", "", "nfs")))), None)

  /** An input on which Apply of Plan's own list fails that check. */
  lemma NamelessNodeIsRefused(c: Setup, s: Server)
    requires c.env == NAMELESS && Equipped(c) && !c.dryRun && !c.skipBuild
    ensures Defines(c.env, "")
    ensures var o := Solo(c, "", Start(PlanOf(c, "")), s, ALL_SUCCEED, 0);
            o.err == Some(REFUSED) && UploadKey(c, "", s) in o.server.files && o.server.vms == s.vms
  {
    hide Solo, Equipped, PlanOf, UploadKey;
    RefusedAfterTheUpload(c, "", s);
  }

  /** A dry run makes no call and reports no error. */
  lemma {:induction false} DryRunDoesNothing(c: Setup, name: string, p: Progress, s: Server, fate: nat -> Fate, k: nat)
    requires Defines(c.env, name) && c.dryRun && p.phase == Ready
    ensures Solo(c, name, p, s, fate, k) == Outcome(s, None, k)
    decreases |p.todo|
  {
    if p.todo != [] { DryRunDoesNothing(c, name, Advance(p), s, fate, k); }
  }
}
