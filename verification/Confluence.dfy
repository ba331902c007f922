/** Nodes touch disjoint parts of the server, so the interleaving does not show in the result. */
module Confluence {
  import opened Common
  import opened Manifest
  import opened Proxmox
  import opened SingleVM
  import opened Scheduler
  import opened Locality

  function UploadKey(c: Setup, name: string, s: Server): (string, string)
    requires Defines(c.env, name)
  {
    (Host(s, NodeOf(c.env, name).pve, KickstartStorage(c.env)), VolId(KickstartStorage(c.env), UploadedFile(name)))
  }

  function VerifyKey(c: Setup, name: string, s: Server): (string, string)
    requires Defines(c.env, name)
  {
    (Host(s, NodeOf(c.env, name).pve, KickstartStorage(c.env)), KickstartVolId(c, name))
  }

  /** The two servers look the same to this node. */
  ghost predicate Agree(c: Setup, name: string, s: Server, t: Server)
    requires Defines(c.env, name)
  {
    && s.shared == t.shared
    && At(s.vms, Key(c, name)) == At(t.vms, Key(c, name))
    && (if c.skipBuild then VerifyKey(c, name, s) in s.files <==> VerifyKey(c, name, t) in t.files
        else At(s.files, UploadKey(c, name, s)) == At(t.files, UploadKey(c, name, t)))
  }

  /** A change list of this run: nothing is uploaded when the build is skipped, nothing verified otherwise. */
  predicate Fits(c: Setup, todo: seq<Change>) {
    forall ch :: ch in todo ==> ch.kind != (if c.skipBuild then UploadIso else VerifyKickstartIso)
  }

  lemma PlanFits(c: Setup, name: string)
    requires Defines(c.env, name)
    ensures Fits(c, PlanOf(c, name))
  {
  }

  /** From s to t only this node's VM and uploaded file may have changed. */
  ghost predicate OnlyOwn(c: Setup, name: string, s: Server, t: Server)
    requires Defines(c.env, name)
  {
    && s.shared == t.shared
    && (forall k :: k != Key(c, name) ==> At(s.vms, k) == At(t.vms, k))
    && (forall k :: k != UploadKey(c, name, s) ==> At(s.files, k) == At(t.files, k))
    && (c.skipBuild ==> s.files == t.files)
  }

  lemma VMCallIsLocal(c: Setup, name: string, s: Server, t: Server, r: Reply, u: Reply)
    requires Defines(c.env, name) && Agree(c, name, s, t)
    requires OnlyVM(s, r.server, Key(c, name)) && OnlyVM(t, u.server, Key(c, name)) && SameReply(r, u, Key(c, name))
    ensures OnlyOwn(c, name, s, r.server) && r.err == u.err && Agree(c, name, r.server, u.server)
  {
  }

  /** What the outside world does for this node: it looks at the node's part of the server and changes nothing else. */
  lemma AskIsLocal(c: Setup, name: string, q: Request, s: Server, t: Server, f: Fate)
    requires Defines(c.env, name) && Agree(c, name, s, t)
    requires if c.skipBuild then !q.Upload? else !q.Content?
    ensures var r, u := Ask(c, name, q, s, f), Ask(c, name, q, t, f);
            OnlyOwn(c, name, s, r.server) && r.err == u.err && Agree(c, name, r.server, u.server)
  {
    var r, u := Ask(c, name, q, s, f), Ask(c, name, q, t, f);
    if q in {Create, Attach, Boot, PowerOn} {
      hide CreateOptsOf, CreateVM, AttachISO, SetBootOrder, Proxmox.StartVM, OnlyVM, SameReply, OnlyOwn;
      match q {
        case Create =>
          CreateIsLocal(s, t, CreateOptsOf(c.env, name), f);
          CreateIsLocal(t, s, CreateOptsOf(c.env, name), f);
        case Attach =>
          AttachIsLocal(s, t, Key(c, name), Ide3, KickstartVolId(c, name), f);
          AttachIsLocal(t, s, Key(c, name), Ide3, KickstartVolId(c, name), f);
        case Boot =>
          BootIsLocal(s, t, Key(c, name), BOOT_INSTALL, f);
          BootIsLocal(t, s, Key(c, name), BOOT_INSTALL, f);
        case PowerOn =>
          StartIsLocal(s, t, Key(c, name), f);
          StartIsLocal(t, s, Key(c, name), f);
      }
      VMCallIsLocal(c, name, s, t, r, u);
    }
  }

  // ----- a node running alone

  /** A step asks only for what Fits allows, and keeps the list that way. */
  lemma StepFits(c: Setup, name: string, p: Progress, err: Option<Error>)
    requires WellPhased(p) && Fits(c, p.todo)
    ensures if c.skipBuild then !RequestOf(c, p).Upload? else !RequestOf(c, p).Content?
    ensures var r := React(c, name, p, err); r.Go? ==> Fits(c, r.next.todo)
  {
    hide React;
    if p.todo != [] { assert p.todo[0] in p.todo; }
  }

  /** The node running alone from p with every call succeeding. */
  function CleanRun(c: Setup, name: string, p: Progress, s: Server): (Server, Option<Error>)
    requires Defines(c.env, name) && WellPhased(p)
    decreases Weight(p)
  {
    var reply := Ask(c, name, RequestOf(c, p), s, Succeeds);
    match React(c, name, p, reply.err)
    case Stop(err) => (reply.server, err)
    case Go(p') => CleanRun(c, name, p', reply.server)
  }

  lemma {:induction false} CleanRunIsSolo(c: Setup, name: string, p: Progress, s: Server, k: nat)
    requires Defines(c.env, name) && WellPhased(p)
    ensures var o := Solo(c, name, p, s, ALL_SUCCEED, k); CleanRun(c, name, p, s) == (o.server, o.err)
    decreases Weight(p)
  {
    hide Ask, React;
    var q := RequestOf(c, p);
    var reply := Ask(c, name, q, s, Succeeds);
    var r := React(c, name, p, reply.err);
    if r.Go? {
      CleanRunIsSolo(c, name, r.next, reply.server, if q.Silent? then k else k + 1);
    }
  }

  // ----- the same node among the others

  ghost predicate DistinctVMs(c: Config)
    requires ValidConfig(c)
  {
    forall i, j :: 0 <= i < j < |c.names| ==> Key(c.setup, c.names[i]) != Key(c.setup, c.names[j])
  }

  lemma UploadKeysDiffer(c: Setup, a: string, b: string, s: Server)
    requires Defines(c.env, a) && Defines(c.env, b) && a != b
    ensures UploadKey(c, a, s) != UploadKey(c, b, s)
  {
    if UploadKey(c, a, s) == UploadKey(c, b, s) {
      var st := KickstartStorage(c.env);
      assert VolId(st, UploadedFile(a)) == (st + ":iso/proxctl-") + a + ".iso";
      assert VolId(st, UploadedFile(b)) == (st + ":iso/proxctl-") + b + ".iso";
      Cancel(st + ":iso/proxctl-", ".iso", a, b);
    }
  }

  lemma Cancel(pre: string, post: string, a: string, b: string)
    requires pre + a + post == pre + b + post
    ensures a == b
  {
    assert a == (pre + a + post)[|pre|..|pre| + |a|];
    assert b == (pre + b + post)[|pre|..|pre| + |b|];
  }

  /** What one node changes, another does not see. */
  lemma OthersAgree(c: Config, i: nat, j: nat, s: Server, t: Server)
    requires ValidConfig(c) && DistinctVMs(c) && i < |c.names| && j < |c.names| && i != j
    requires OnlyOwn(c.setup, c.names[i], s, t)
    ensures Agree(c.setup, c.names[j], s, t)
  {
    UploadKeysDiffer(c.setup, c.names[i], c.names[j], s);
  }

  lemma AgreeSymmetric(c: Setup, name: string, s: Server, t: Server)
    requires Defines(c.env, name) && Agree(c, name, s, t)
    ensures Agree(c, name, t, s)
  {
  }

  lemma AgreeTransitive(c: Setup, name: string, s: Server, t: Server, u: Server)
    requires Defines(c.env, name) && Agree(c, name, s, t) && Agree(c, name, t, u)
    ensures Agree(c, name, s, u)
  {
  }

  lemma OwnTransitive(c: Setup, name: string, s: Server, t: Server, u: Server)
    requires Defines(c.env, name) && OnlyOwn(c, name, s, t) && OnlyOwn(c, name, t, u)
    ensures OnlyOwn(c, name, s, u)
  {
  }

  // ----- a node running alone, its steps meeting given fates

  /** One step of a node that is inside Apply. */
  function StepOf(c: Setup, name: string, t: Task, s: Server, f: Fate): (Task, Server)
    requires Defines(c.env, name)
  {
    if t.Applying? && WellPhased(t.p) then
      var reply := Ask(c, name, RequestOf(c, t.p), s, f);
      (TaskAfter(React(c, name, t.p, reply.err)), reply.server)
    else (t, s)
  }

  /** Where the node's Apply on its plan gets, nothing else running, when its steps meet the fates in acts. */
  function Lone(c: Setup, name: string, acts: seq<Fate>, s: Server): (Task, Server)
    requires Defines(c.env, name)
    decreases |acts|
  {
    if acts == [] then (Applying(Start(PlanOf(c, name))), s)
    else
      var before := Lone(c, name, acts[..|acts| - 1], s);
      StepOf(c, name, before.0, before.1, acts[|acts| - 1])
  }

  /** A task inside Apply, fit for this run, or just out of it. */
  predicate InApply(c: Setup, t: Task) {
    t.Returned? || (t.Applying? && WellPhased(t.p) && Fits(c, t.p.todo))
  }

  lemma {:induction false} LoneFits(c: Setup, name: string, acts: seq<Fate>, s: Server)
    requires Defines(c.env, name)
    ensures InApply(c, Lone(c, name, acts, s).0)
    decreases |acts|
  {
    hide Ask, React, PlanOf, Fits;
    if acts == [] {
      PlanFits(c, name);
    } else {
      var before := Lone(c, name, acts[..|acts| - 1], s);
      LoneFits(c, name, acts[..|acts| - 1], s);
      if before.0.Applying? {
        StepFits(c, name, before.0.p, Ask(c, name, RequestOf(c, before.0.p), before.1, acts[|acts| - 1]).err);
      }
    }
  }

  lemma StepIsLocal(c: Setup, name: string, t: Task, s: Server, u: Server, f: Fate)
    requires Defines(c.env, name) && InApply(c, t) && Agree(c, name, s, u)
    ensures StepOf(c, name, t, s, f).0 == StepOf(c, name, t, u, f).0
    ensures Agree(c, name, StepOf(c, name, t, s, f).1, StepOf(c, name, t, u, f).1)
    ensures OnlyOwn(c, name, s, StepOf(c, name, t, s, f).1)
  {
    hide Ask, React, Agree;
    if t.Applying? {
      StepFits(c, name, t.p, None);
      AskIsLocal(c, name, RequestOf(c, t.p), s, u, f);
    }
  }

  /** What the node does and answers depends on its own VM, upload and expected ISO alone, and nothing else changes. */
  lemma {:induction false} LoneIsLocal(c: Setup, name: string, acts: seq<Fate>, s: Server, u: Server)
    requires Defines(c.env, name) && Agree(c, name, s, u)
    ensures Lone(c, name, acts, s).0 == Lone(c, name, acts, u).0
    ensures Agree(c, name, Lone(c, name, acts, s).1, Lone(c, name, acts, u).1)
    ensures OnlyOwn(c, name, s, Lone(c, name, acts, s).1)
    decreases |acts|
  {
    hide StepOf, Agree, PlanOf, InApply;
    if acts == [] {
      OwnReflexive(c, name, s);
    } else {
      hide OnlyOwn;
      var front, f := acts[..|acts| - 1], acts[|acts| - 1];
      var before, other := Lone(c, name, front, s), Lone(c, name, front, u);
      LoneIsLocal(c, name, front, s, u);
      LoneFits(c, name, front, s);
      StepIsLocal(c, name, before.0, before.1, other.1, f);
      OwnTransitive(c, name, s, before.1, StepOf(c, name, before.0, before.1, f).1);
    }
  }

  lemma OwnReflexive(c: Setup, name: string, s: Server)
    requires Defines(c.env, name)
    ensures OnlyOwn(c, name, s, s)
  {
  }

  /** The fates of the steps that made a call. */
  function CallFates(c: Setup, name: string, acts: seq<Fate>, s: Server): seq<Fate>
    requires Defines(c.env, name)
    decreases |acts|
  {
    if acts == [] then []
    else
      var t := Lone(c, name, acts[..|acts| - 1], s).0;
      CallFates(c, name, acts[..|acts| - 1], s)
      + (if t.Applying? && !RequestOf(c, t.p).Silent? then [acts[|acts| - 1]] else [])
  }

  /** What is left of an Apply that stands at t. */
  function Remainder(c: Setup, name: string, t: Task, s: Server, fate: nat -> Fate, k: nat): Outcome
    requires Defines(c.env, name)
  {
    if t.Applying? && WellPhased(t.p) then Solo(c, name, t.p, s, fate, k)
    else Outcome(s, if t.Returned? then t.err else None, k)
  }

  /** The steps one by one are the Apply of the workflow object, its calls meeting the same fates. */
  lemma {:induction false} LoneIsSolo(c: Setup, name: string, acts: seq<Fate>, s: Server, fate: nat -> Fate)
    requires Defines(c.env, name)
    requires forall k :: 0 <= k < |CallFates(c, name, acts, s)| ==> fate(k) == CallFates(c, name, acts, s)[k]
    ensures InApply(c, Lone(c, name, acts, s).0)
    ensures var l, n := Lone(c, name, acts, s), |CallFates(c, name, acts, s)|;
            Solo(c, name, Start(PlanOf(c, name)), s, fate, 0) == Remainder(c, name, l.0, l.1, fate, n)
    decreases |acts|
  {
    hide Ask, React, PlanOf, Fits;
    LoneFits(c, name, acts, s);
    if acts != [] {
      var front, f := acts[..|acts| - 1], acts[|acts| - 1];
      var before, calls := Lone(c, name, front, s), CallFates(c, name, front, s);
      assert calls <= CallFates(c, name, acts, s);
      LoneFits(c, name, front, s);
      LoneIsSolo(c, name, front, s, fate);
      if before.0.Applying? && RequestOf(c, before.0.p).Silent? {
        SilentAsk(c, name, RequestOf(c, before.0.p), before.1, f, fate(|calls|));
      }
    }
  }

  lemma SilentAsk(c: Setup, name: string, q: Request, s: Server, f: Fate, g: Fate)
    requires Defines(c.env, name) && q.Silent?
    ensures Ask(c, name, q, s, f) == Ask(c, name, q, s, g)
  {
  }

  // ----- a node whose calls succeed

  /** The upload has failed and Apply is about to return its error. */
  predicate Doomed(p: Progress) {
    p.phase.Unlocking? && p.phase.result.Some?
  }

  function Alone(c: Config, i: nat, s0: Server): (Server, Option<Error>)
    requires i < |c.names| && Defines(c.setup.env, c.names[i])
  {
    CleanRun(c.setup, c.names[i], Start(PlanOf(c.setup, c.names[i])), s0)
  }

  /** Not failed so far, the node goes where it gets with every call succeeding; clean says no call has failed. */
  ghost predicate OnCourse(c: Setup, name: string, t: Task, s: Server, want: (Server, Option<Error>), clean: bool)
    requires Defines(c.env, name)
  {
    match t
    case Applying(p) => WellPhased(p) && (if Doomed(p) then clean ==> want.1.Some? else CleanRun(c, name, p, s) == want)
    case Returned(err) => if err.None? then want == (s, None) else clean ==> want.1.Some?
    case _ => false
  }

  /** A call that does not succeed either was never made, or ends the node's Apply with an error. */
  lemma FailureShows(c: Setup, name: string, p: Progress, s: Server, f: Fate)
    requires Defines(c.env, name) && WellPhased(p) && !f.Succeeds?
    ensures var q := RequestOf(c, p);
            var r := React(c, name, p, Ask(c, name, q, s, f).err);
            if q.Silent? then Ask(c, name, q, s, f) == Ask(c, name, q, s, Succeeds)
            else (r.Stop? && r.err.Some?) || (r.Go? && Doomed(r.next))
  {
    hide CreateOptsOf;
  }

  lemma DoomedReturns(c: Setup, name: string, p: Progress, err: Option<Error>, s: Server)
    requires Defines(c.env, name) && WellPhased(p)
    ensures Doomed(p) ==> React(c, name, p, err).Stop? && React(c, name, p, err).err.Some?
    ensures var r := React(c, name, p, err); r.Go? && Doomed(r.next) ==> CleanRun(c, name, r.next, s).1.Some?
  {
  }

  lemma StaysOnCourse(c: Setup, name: string, t: Task, s: Server, want: (Server, Option<Error>), f: Fate, clean: bool)
    requires Defines(c.env, name) && OnCourse(c, name, t, s, want, clean)
    ensures var n := StepOf(c, name, t, s, f); OnCourse(c, name, n.0, n.1, want, clean && f.Succeeds?)
  {
    hide Ask, React;
    if t.Applying? {
      var reply := Ask(c, name, RequestOf(c, t.p), s, f);
      if !f.Succeeds? { FailureShows(c, name, t.p, s, f); }
      DoomedReturns(c, name, t.p, reply.err, reply.server);
    }
  }

  /** A lone Apply that returned nil is the one in which every call succeeds; so is one that met no failure. */
  lemma {:induction false} LoneOnCourse(c: Config, i: nat, acts: seq<Fate>, s: Server)
    requires i < |c.names| && Defines(c.setup.env, c.names[i])
    ensures var l := Lone(c.setup, c.names[i], acts, s);
            OnCourse(c.setup, c.names[i], l.0, l.1, Alone(c, i, s), forall f :: f in acts ==> f.Succeeds?)
    decreases |acts|
  {
    hide StepOf, CleanRun, PlanOf, OnCourse;
    if acts == [] {
      StartsOnCourse(c, i, s);
    } else {
      var front := acts[..|acts| - 1];
      var before := Lone(c.setup, c.names[i], front, s);
      LoneOnCourse(c, i, front, s);
      StaysOnCourse(c.setup, c.names[i], before.0, before.1, Alone(c, i, s), acts[|acts| - 1], forall f :: f in front ==> f.Succeeds?);
      assert acts == front + [acts[|acts| - 1]];
    }
  }

  lemma StartsOnCourse(c: Config, i: nat, s: Server)
    requires i < |c.names| && Defines(c.setup.env, c.names[i])
    ensures OnCourse(c.setup, c.names[i], Applying(Start(PlanOf(c.setup, c.names[i]))), s, Alone(c, i, s), true)
  {
  }
}
