/** What the walk leaves as it is, and redaction of a whole loaded manifest. */
module RedactManifest {
  import opened Common
  import opened Redaction
  import opened Text
  import opened Walker

  // ----- the shape stays

  /** A value with the text of its strings left out. */
  function Blank(v: Val): Val {
    match v
    case Str(_) => Str("")
    case Iface(w) => Iface(Blank(w))
    case Struct(fs) => Struct(seq(|fs|, i requires 0 <= i < |fs| => Blank(fs[i])))
    case _ => v
  }

  function BlankObj(o: Obj): Obj {
    match o
    case Cell(v) => Cell(Blank(v))
    case Elems(es) => Elems(seq(|es|, i requires 0 <= i < |es| => Blank(es[i])))
    case Entries(m) => Entries(map k | k in m :: Blank(m[k]))
  }

  lemma {:induction false} MappedKeepsShape(f: string -> string, v: Val, settable: bool)
    ensures Blank(Mapped(f, v, settable)) == Blank(v)
    decreases v
  {
    match v {
      case Iface(w) => MappedKeepsShape(f, w, false);
      case Struct(fs) =>
        forall i | 0 <= i < |fs| ensures Blank(Mapped(f, fs[i], settable)) == Blank(fs[i]) { MappedKeepsShape(f, fs[i], settable); }
      case _ =>
    }
  }

  lemma EntryKeepsShape(f: string -> string, v: Val)
    ensures Blank(MappedEntry(f, v)) == Blank(v)
  {
    match v {
      case Iface(w) => MappedKeepsShape(f, w, true);
      case _ => MappedKeepsShape(f, v, true);
    }
  }

  /** Whatever f is: no object appears or disappears, and every one keeps its kind, lengths, keys, references and non-strings. */
  lemma WalkKeepsShape(f: string -> string, h: Heap, region: set<nat>)
    ensures var g := Rewritten(f, h, region);
            && g.Keys == h.Keys
            && (forall a :: a in h ==> BlankObj(g[a]) == BlankObj(h[a]))
            && (forall a :: a in h && a !in region ==> g[a] == h[a])
  {
    hide Mapped, Blank, MappedEntry;
    forall a | a in h && a in region ensures BlankObj(MappedObj(f, h[a])) == BlankObj(h[a]) { ObjKeepsShape(f, h[a]); }
  }

  lemma ObjKeepsShape(f: string -> string, o: Obj)
    ensures BlankObj(MappedObj(f, o)) == BlankObj(o)
  {
    hide Mapped, Blank, MappedEntry;
    match o {
      case Cell(v) => MappedKeepsShape(f, v, true);
      case Elems(es) =>
        forall i | 0 <= i < |es| ensures Blank(Mapped(f, es[i], true)) == Blank(es[i]) { MappedKeepsShape(f, es[i], true); }
      case Entries(m) =>
        forall k | k in m ensures Blank(MappedEntry(f, m[k])) == Blank(m[k]) { EntryKeepsShape(f, m[k]); }
    }
  }

  /** What is held as an interface (outside a map) is not settable, so the walk leaves it alone; only objects it refers to change. */
  lemma {:induction false} InterfacesUntouched(f: string -> string, v: Val)
    ensures Mapped(f, v, false) == v
    ensures forall b :: Mapped(f, Iface(v), b) == Iface(v)
    decreases v
  {
    match v {
      case Iface(w) => InterfacesUntouched(f, w);
      case Struct(fs) =>
        forall i | 0 <= i < |fs| ensures Mapped(f, fs[i], false) == fs[i] { InterfacesUntouched(f, fs[i]); }
      case _ =>
    }
  }

  // ----- redaction

  /** A marker in a slice of interfaces survives the walk, although it is a string of the manifest. */
  lemma MarkerInInterfaceStays(h: Heap, a: nat)
    requires Ranked(h) && a in h && h[a] == Elems([Iface(Str("<VAULT:x>"))])
    ensures a in Reach(h, {a}) && Rewritten(Redact, h, Reach(h, {a}))[a] == h[a]
    ensures Closed("<VAULT:", "<VAULT:x>")
  {
    hide Redact;
    assert Reaches(h, a, a);
    InterfacesUntouched(Redact, Str("<VAULT:x>"));
    assert MappedAll(Redact, [Iface(Str("<VAULT:x>"))], true) == [Iface(Str("<VAULT:x>"))];
    var s := "<VAULT:x>";
    assert s[0..0 + |VAULT|] == VAULT && s[8] == '>';
    assert OccursAt(s, VAULT, 0);
  }

  ghost predicate Clean(s: string) {
    !Closed("<VAULT:", s) && !Closed("<GEN_SSH_KEY:", s)
  }

  lemma RedactCleans(s: string)
    ensures Clean(Redact(s)) && (Redact(s) == s <==> Clean(s))
  {
    hide Redact, Closed;
    RedactedIsClean(s);
  }

  /** Every settable string of v is clean. */
  ghost predicate CleanVal(v: Val, settable: bool) {
    match v
    case Str(s) => settable ==> Clean(s)
    case Iface(w) => CleanVal(w, false)
    case Struct(fs) => forall i :: 0 <= i < |fs| ==> CleanVal(fs[i], settable)
    case _ => true
  }

  ghost predicate CleanEntry(v: Val) {
    match v
    case Iface(w) => CleanVal(w, true)
    case _ => CleanVal(v, true)
  }

  ghost predicate CleanObj(o: Obj) {
    match o
    case Cell(v) => CleanVal(v, true)
    case Elems(es) => forall i :: 0 <= i < |es| ==> CleanVal(es[i], true)
    case Entries(m) => forall k :: k in m ==> CleanEntry(m[k])
  }

  lemma {:induction false} RedactedValIsClean(v: Val, settable: bool)
    ensures CleanVal(Mapped(Redact, v, settable), settable)
    decreases v
  {
    hide Redact, Clean;
    match v {
      case Str(s) => RedactCleans(s);
      case Iface(w) => RedactedValIsClean(w, false);
      case Struct(fs) =>
        forall i | 0 <= i < |fs| ensures CleanVal(Mapped(Redact, fs[i], settable), settable) { RedactedValIsClean(fs[i], settable); }
      case _ =>
    }
  }

  lemma RedactedEntryIsClean(v: Val)
    ensures CleanEntry(MappedEntry(Redact, v))
  {
    hide CleanVal;
    match v {
      case Iface(w) => RedactedValIsClean(w, true);
      case _ => RedactedValIsClean(v, true);
    }
  }

  lemma RedactedObjIsClean(o: Obj)
    ensures CleanObj(MappedObj(Redact, o))
  {
    hide CleanVal, CleanEntry, Mapped;
    match o {
      case Cell(v) => RedactedValIsClean(v, true);
      case Elems(es) =>
        forall i | 0 <= i < |es| ensures CleanVal(Mapped(Redact, es[i], true), true) { RedactedValIsClean(es[i], true); }
      case Entries(m) =>
        forall k | k in m ensures CleanEntry(MappedEntry(Redact, m[k])) {
          RedactedEntryIsClean(m[k]);
        }
    }
  }

  // ----- when no marker is left at all

  /** Every string of v is clean, whether it is settable or not. */
  ghost predicate AllClean(v: Val) {
    match v
    case Str(s) => Clean(s)
    case Iface(w) => AllClean(w)
    case Struct(fs) => forall i :: 0 <= i < |fs| ==> AllClean(fs[i])
    case _ => true
  }

  ghost predicate AllCleanObj(o: Obj) {
    match o
    case Cell(v) => AllClean(v)
    case Elems(es) => forall i :: 0 <= i < |es| ==> AllClean(es[i])
    case Entries(m) => forall k :: k in m ==> AllClean(m[k])
  }

  /** Every string of v that is not settable is clean. */
  ghost predicate FixedClean(v: Val, settable: bool) {
    match v
    case Str(s) => settable || Clean(s)
    case Iface(w) => FixedClean(w, false)
    case Struct(fs) => forall i :: 0 <= i < |fs| ==> FixedClean(fs[i], settable)
    case _ => true
  }

  /** A map entry is rewritten on a settable copy, also when it is an interface. */
  ghost predicate FixedCleanEntry(v: Val) {
    match v
    case Iface(w) => FixedClean(w, true)
    case _ => FixedClean(v, true)
  }

  ghost predicate FixedCleanObj(o: Obj) {
    match o
    case Cell(v) => FixedClean(v, true)
    case Elems(es) => forall i :: 0 <= i < |es| ==> FixedClean(es[i], true)
    case Entries(m) => forall k :: k in m ==> FixedCleanEntry(m[k])
  }

  lemma {:induction false} AllCleanIff(v: Val, settable: bool)
    ensures AllClean(Mapped(Redact, v, settable)) <==> FixedClean(v, settable)
    decreases v
  {
    hide Redact, Clean;
    match v {
      case Str(s) => RedactCleans(s);
      case Iface(w) => AllCleanIff(w, false);
      case Struct(fs) =>
        forall i | 0 <= i < |fs| ensures AllClean(Mapped(Redact, fs[i], settable)) <==> FixedClean(fs[i], settable) { AllCleanIff(fs[i], settable); }
        var gs := MappedAll(Redact, fs, settable);
        assert forall i :: 0 <= i < |gs| ==> gs[i] == Mapped(Redact, fs[i], settable);
      case _ =>
    }
  }

  lemma AllCleanEntryIff(v: Val)
    ensures AllClean(MappedEntry(Redact, v)) <==> FixedCleanEntry(v)
  {
    hide FixedClean;
    match v {
      case Iface(w) => AllCleanIff(w, true);
      case _ => AllCleanIff(v, true);
    }
  }

  lemma AllCleanObjIff(o: Obj)
    ensures AllCleanObj(MappedObj(Redact, o)) <==> FixedCleanObj(o)
  {
    hide AllClean, FixedClean, FixedCleanEntry, Mapped, MappedEntry;
    match o {
      case Cell(v) => AllCleanIff(v, true);
      case Elems(es) =>
        forall i | 0 <= i < |es| ensures AllClean(Mapped(Redact, es[i], true)) <==> FixedClean(es[i], true) { AllCleanIff(es[i], true); }
        var gs := MappedAll(Redact, es, true);
        assert forall i :: 0 <= i < |gs| ==> gs[i] == Mapped(Redact, es[i], true);
      case Entries(m) =>
        forall k | k in m ensures AllClean(MappedEntry(Redact, m[k])) <==> FixedCleanEntry(m[k]) { AllCleanEntryIff(m[k]); }
        var n := MappedObj(Redact, o).m;
        assert forall k :: k in n ==> n[k] == MappedEntry(Redact, m[k]);
    }
  }

  /**
   * After redaction no string at all in the region holds a closed marker exactly when none did, before, that is not
   * settable: held as an interface outside the top level of a map entry.
   */
  lemma RedactedEverywhereIff(h: Heap, region: set<nat>)
    requires region <= h.Keys
    ensures (forall a :: a in region ==> AllCleanObj(Rewritten(Redact, h, region)[a])) <==> forall a :: a in region ==> FixedCleanObj(h[a])
  {
    hide AllCleanObj, FixedCleanObj, MappedObj;
    forall a | a in region ensures AllCleanObj(Rewritten(Redact, h, region)[a]) <==> FixedCleanObj(h[a]) { AllCleanObjIff(h[a]); }
  }

  /** A string is changed exactly when it is settable and holds a closed marker, and it is then redacted. */
  ghost predicate Redacted(before: Obj, after: Obj) {
    forall p :: if TextAt(before, p).None? then TextAt(after, p).None?
                else
                  var s := TextAt(before, p).value;
                  TextAt(after, p) == Some(if Fixed(p) || Clean(s) then s else Redact(s))
  }

  lemma ReplacedIsRedacted(before: Obj, after: Obj)
    requires ObjReplaced(Redact, before, after)
    ensures Redacted(before, after)
  {
    hide Redact, TextAt, Fixed, Clean;
    forall p | TextAt(before, p).Some? ensures Clean(TextAt(before, p).value) ==> Redact(TextAt(before, p).value) == TextAt(before, p).value {
      RedactCleans(TextAt(before, p).value);
    }
  }

  lemma RedactIsIdempotentEverywhere()
    ensures Idempotent(Redact)
  {
    forall s ensures Redact(Redact(s)) == Redact(s) { RedactIsIdempotent(s); }
  }

  /**
   * redactDeferredSecrets: every settable string that can be reached from env and holds a closed marker is redacted, and
   * every other string stays. So no settable string holds a closed marker afterwards, and no string at all exactly when
   * none that is not settable did before. Objects that cannot be reached are as before, and doing it again changes nothing.
   */
  method RedactDeferredSecrets(store: Store, env: nat)
    requires Ranked(store.heap) && env in store.heap
    modifies store
    ensures store.heap == Rewritten(Redact, old(store.heap), Reach(old(store.heap), {env}))
    ensures Ranked(store.heap)
    ensures store.heap.Keys == old(store.heap).Keys
    ensures forall a :: a in Reach(old(store.heap), {env}) ==> Redacted(old(store.heap)[a], store.heap[a]) && CleanObj(store.heap[a])
    ensures (forall a :: a in Reach(old(store.heap), {env}) ==> AllCleanObj(store.heap[a]))
            <==> forall a :: a in Reach(old(store.heap), {env}) ==> FixedCleanObj(old(store.heap)[a])
    ensures Rewritten(Redact, store.heap, Reach(store.heap, {env})) == store.heap
  {
    hide CleanObj, AllCleanObj, FixedCleanObj, Redact, Reaches, RefsOf, MappedObj, Ranked, Idempotent, ObjReplaced, Redacted, ValReplaced;
    RedactIsIdempotentEverywhere();
    ghost var h := store.heap;
    var _ := store.Walk(Ref(env), false, Redact, env + 1);
    forall a | a in Reach(h, {env}) ensures Redacted(h[a], store.heap[a]) && CleanObj(store.heap[a]) {
      ReplacedIsRedacted(h[a], store.heap[a]);
      RedactedObjIsClean(h[a]);
    }
    RedactedEverywhereIff(h, Reach(h, {env}));
    Compose(Redact, h, {env}, {env});
    assert {env} + {env} == {env};
  }
}
