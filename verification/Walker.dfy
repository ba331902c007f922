/** walkStrings: rewriting, in place, every settable string of a graph of Go values with shared parts. */
module Walker {
  import opened Common

  /**
   * A Go value. Ref is a pointer, a slice header or a map; what it refers to is an object of the store.
   * Scalar is a non-string without parts. A struct is held by value.
   */
  datatype Val = Str(s: string) | Scalar(id: int) | Nil | Ref(addr: nat) | Iface(inner: Val) | Struct(fields: seq<Val>)

  /** What a pointer points to, a backing array, or the entries of a map. */
  datatype Obj = Cell(v: Val) | Elems(es: seq<Val>) | Entries(m: map<string, Val>)

  type Heap = map<nat, Obj>

  // ----- references

  function Refs(v: Val): set<nat> {
    match v
    case Ref(a) => {a}
    case Iface(w) => Refs(w)
    case Struct(fs) => RefsIn(fs)
    case _ => {}
  }

  function RefsIn(vs: seq<Val>): set<nat> {
    set i, a | 0 <= i < |vs| && a in Refs(vs[i]) :: a
  }

  function RefsOfEntries(m: map<string, Val>): set<nat> {
    set k, a | k in m && a in Refs(m[k]) :: a
  }

  function RefsOf(o: Obj): set<nat> {
    match o
    case Cell(v) => Refs(v)
    case Elems(es) => RefsIn(es)
    case Entries(m) => RefsOfEntries(m)
  }

  /** The graph is acyclic; without loss of generality, references go to smaller addresses. On a cycle the walk would not return. */
  ghost predicate Ranked(h: Heap) {
    forall a :: a in h ==> Bound(h, RefsOf(h[a]), a)
  }

  ghost predicate Bound(h: Heap, refs: set<nat>, bound: nat) {
    forall a :: a in refs ==> a in h && a < bound
  }

  /** b is a, or refers to it through other objects. */
  ghost predicate Reaches(h: Heap, b: nat, a: nat)
    decreases b
  {
    b in h && (b == a || exists c :: c in RefsOf(h[b]) && c < b && Reaches(h, c, a))
  }

  ghost function Reach(h: Heap, refs: set<nat>): set<nat>
  {
    set a | a in h && exists b :: b in refs && Reaches(h, b, a)
  }

  // ----- what becomes of a value

  /** The value after f has been applied to its settable strings. */
  function Mapped(f: string -> string, v: Val, settable: bool): Val {
    match v
    case Str(s) => if settable then Str(f(s)) else v
    case Iface(w) => Iface(Mapped(f, w, false))
    case Struct(fs) => Struct(MappedAll(f, fs, settable))
    case _ => v
  }

  function MappedAll(f: string -> string, vs: seq<Val>, settable: bool): (ws: seq<Val>)
    ensures |ws| == |vs| && forall i :: 0 <= i < |vs| ==> ws[i] == Mapped(f, vs[i], settable)
  {
    seq(|vs|, i requires 0 <= i < |vs| => Mapped(f, vs[i], settable))
  }

  /** A map entry: a string held as an interface is rewritten too, and any other value is copied, walked and stored back. */
  function MappedEntry(f: string -> string, v: Val): Val {
    match v
    case Iface(w) => Iface(Mapped(f, w, true))
    case _ => Mapped(f, v, true)
  }

  function MappedObj(f: string -> string, o: Obj): Obj {
    match o
    case Cell(v) => Cell(Mapped(f, v, true))
    case Elems(es) => Elems(MappedAll(f, es, true))
    case Entries(m) => Entries(map k | k in m :: MappedEntry(f, m[k]))
  }

  /** The heap with the objects of region rewritten, each once. */
  function Rewritten(f: string -> string, h: Heap, region: set<nat>): Heap {
    map a | a in h :: if a in region then MappedObj(f, h[a]) else h[a]
  }

  ghost predicate Idempotent(f: string -> string) {
    forall s :: f(f(s)) == f(s)
  }

  // ----- the strings, place by place

  /** From a value into a struct field, or into what an interface holds. */
  datatype Step = Field(i: nat) | Held

  /** The string at the end of the path, if there is one. */
  function StringAt(v: Val, path: seq<Step>): Option<string> {
    if path == [] then if v.Str? then Some(v.s) else None
    else match path[0]
         case Field(i) => if v.Struct? && i < |v.fields| then StringAt(v.fields[i], path[1..]) else None
         case Held => if v.Iface? then StringAt(v.inner, path[1..]) else None
  }

  /** A place in what a pointer points to, in an element of a slice, or in an entry of a map. */
  datatype Place = InCell(path: seq<Step>) | InElem(i: nat, path: seq<Step>) | InEntry(key: string, path: seq<Step>)

  function TextAt(o: Obj, p: Place): Option<string> {
    match p
    case InCell(path) => if o.Cell? then StringAt(o.v, path) else None
    case InElem(i, path) => if o.Elems? && i < |o.es| then StringAt(o.es[i], path) else None
    case InEntry(key, path) => if o.Entries? && key in o.m then StringAt(o.m[key], path) else None
  }

  /** What an interface holds is not settable, unless the interface is itself a map entry. */
  predicate Fixed(p: Place) {
    Held in if p.InEntry? && p.path != [] then p.path[1..] else p.path
  }

  /** Every string of the value that is settable has become f of itself; the others, and nothing but they, are as before. */
  ghost predicate ValReplaced(f: string -> string, v: Val, w: Val, settable: bool) {
    forall path :: if StringAt(v, path).None? then StringAt(w, path).None?
                   else StringAt(w, path) == Some(if settable && Held !in path then f(StringAt(v, path).value) else StringAt(v, path).value)
  }

  ghost predicate ObjReplaced(f: string -> string, before: Obj, after: Obj) {
    forall p :: if TextAt(before, p).None? then TextAt(after, p).None?
                else TextAt(after, p) == Some(if Fixed(p) then TextAt(before, p).value else f(TextAt(before, p).value))
  }

  /** So it is in every object of the region, and the other objects are the same. */
  ghost predicate HeapReplaced(f: string -> string, h: Heap, g: Heap, region: set<nat>) {
    && g.Keys == h.Keys
    && (forall a :: a in h && a in region ==> ObjReplaced(f, h[a], g[a]))
    && (forall a :: a in h && a !in region ==> g[a] == h[a])
  }

  lemma {:induction false} MappedAt(f: string -> string, v: Val, settable: bool, path: seq<Step>)
    ensures if StringAt(v, path).None? then StringAt(Mapped(f, v, settable), path).None?
            else StringAt(Mapped(f, v, settable), path)
                 == Some(if settable && Held !in path then f(StringAt(v, path).value) else StringAt(v, path).value)
    decreases path
  {
    if path != [] {
      assert Held in path <==> path[0] == Held || Held in path[1..];
      match path[0] {
        case Field(i) =>
          if v.Struct? && i < |v.fields| { MappedAt(f, v.fields[i], settable, path[1..]); }
        case Held =>
          if v.Iface? { MappedAt(f, v.inner, false, path[1..]); }
      }
    }
  }

  lemma MappedReplaces(f: string -> string, v: Val, settable: bool)
    ensures ValReplaced(f, v, Mapped(f, v, settable), settable)
  {
    forall path { MappedAt(f, v, settable, path); }
  }

  lemma EntryAt(f: string -> string, v: Val, path: seq<Step>)
    ensures var fixed := Held in if path != [] then path[1..] else path;
            if StringAt(v, path).None? then StringAt(MappedEntry(f, v), path).None?
            else StringAt(MappedEntry(f, v), path) == Some(if fixed then StringAt(v, path).value else f(StringAt(v, path).value))
  {
    hide Mapped;
    if v.Iface? {
      if path != [] && path[0] == Held { MappedAt(f, v.inner, true, path[1..]); }
    } else {
      MappedAt(f, v, true, path);
      if path != [] { assert Held in path <==> path[0] == Held || Held in path[1..]; }
    }
  }

  lemma MappedObjReplaces(f: string -> string, o: Obj)
    ensures ObjReplaced(f, o, MappedObj(f, o))
  {
    hide Mapped, MappedEntry, StringAt;
    forall p ensures if TextAt(o, p).None? then TextAt(MappedObj(f, o), p).None?
                     else TextAt(MappedObj(f, o), p) == Some(if Fixed(p) then TextAt(o, p).value else f(TextAt(o, p).value))
    {
      match p {
        case InCell(path) => if o.Cell? { MappedAt(f, o.v, true, path); }
        case InElem(i, path) => if o.Elems? && i < |o.es| { MappedAt(f, o.es[i], true, path); }
        case InEntry(key, path) => if o.Entries? && key in o.m { EntryAt(f, o.m[key], path); }
      }
    }
  }

  lemma RewritingReplaces(f: string -> string, h: Heap, region: set<nat>)
    ensures HeapReplaced(f, h, Rewritten(f, h, region), region)
  {
    hide MappedObj, ObjReplaced;
    forall a | a in h && a in region ensures ObjReplaced(f, h[a], MappedObj(f, h[a])) { MappedObjReplaces(f, h[a]); }
  }

  lemma SameRefsIn(vs: seq<Val>, ws: seq<Val>)
    requires |vs| == |ws| && forall i :: 0 <= i < |vs| ==> Refs(vs[i]) == Refs(ws[i])
    ensures RefsIn(vs) == RefsIn(ws)
  {
    hide Refs;
    assert forall i :: 0 <= i < |ws| ==> Refs(ws[i]) == Refs(vs[i]);
  }

  lemma SameRefsOfEntries(m: map<string, Val>, n: map<string, Val>)
    requires m.Keys == n.Keys && forall k :: k in m ==> Refs(n[k]) == Refs(m[k])
    ensures RefsOfEntries(m) == RefsOfEntries(n)
  {
    hide Refs;
  }

  lemma {:induction false} MappedKeepsRefs(f: string -> string, v: Val, settable: bool)
    ensures Refs(Mapped(f, v, settable)) == Refs(v)
    decreases v
  {
    match v {
      case Iface(w) => MappedKeepsRefs(f, w, false);
      case Struct(fs) =>
        forall i | 0 <= i < |fs| ensures Refs(Mapped(f, fs[i], settable)) == Refs(fs[i]) { MappedKeepsRefs(f, fs[i], settable); }
        SameRefsIn(fs, MappedAll(f, fs, settable));
      case _ =>
    }
  }

  lemma MappedObjKeepsRefs(f: string -> string, o: Obj)
    ensures RefsOf(MappedObj(f, o)) == RefsOf(o)
  {
    hide Mapped, Refs;
    match o {
      case Cell(v) => MappedKeepsRefs(f, v, true);
      case Elems(es) =>
        forall i | 0 <= i < |es| ensures Refs(Mapped(f, es[i], true)) == Refs(es[i]) { MappedKeepsRefs(f, es[i], true); }
        SameRefsIn(es, MappedAll(f, es, true));
      case Entries(m) =>
        forall k | k in m ensures Refs(MappedEntry(f, m[k])) == Refs(m[k]) { MappedEntryKeepsRefs(f, m[k]); }
        SameRefsOfEntries(m, MappedObj(f, o).m);
    }
  }

  lemma MappedEntryKeepsRefs(f: string -> string, v: Val)
    ensures Refs(MappedEntry(f, v)) == Refs(v)
  {
    hide Mapped;
    match v {
      case Iface(w) => MappedKeepsRefs(f, w, true);
      case _ => MappedKeepsRefs(f, v, true);
    }
  }

  lemma {:induction false} MappedTwice(f: string -> string, v: Val, settable: bool)
    requires Idempotent(f)
    ensures Mapped(f, Mapped(f, v, settable), settable) == Mapped(f, v, settable)
    decreases v
  {
    match v {
      case Iface(w) => MappedTwice(f, w, false);
      case Struct(fs) =>
        forall i | 0 <= i < |fs| ensures Mapped(f, Mapped(f, fs[i], settable), settable) == Mapped(f, fs[i], settable) { MappedTwice(f, fs[i], settable); }
      case _ =>
    }
  }

  lemma MappedObjTwice(f: string -> string, o: Obj)
    requires Idempotent(f)
    ensures MappedObj(f, MappedObj(f, o)) == MappedObj(f, o)
  {
    hide Mapped;
    match o {
      case Cell(v) => MappedTwice(f, v, true);
      case Elems(es) =>
        forall i | 0 <= i < |es| ensures Mapped(f, Mapped(f, es[i], true), true) == Mapped(f, es[i], true) { MappedTwice(f, es[i], true); }
      case Entries(m) =>
        forall k | k in m ensures MappedEntry(f, MappedEntry(f, m[k])) == MappedEntry(f, m[k]) { MappedEntryTwice(f, m[k]); }
    }
  }

  lemma MappedEntryTwice(f: string -> string, v: Val)
    requires Idempotent(f)
    ensures MappedEntry(f, MappedEntry(f, v)) == MappedEntry(f, v)
  {
    match v {
      case Iface(w) => MappedTwice(f, w, true);
      case _ => MappedTwice(f, v, true);
    }
  }

  // ----- reachability does not see the rewriting

  ghost predicate SameRefs(h: Heap, g: Heap) {
    h.Keys == g.Keys && forall a :: a in h ==> RefsOf(g[a]) == RefsOf(h[a])
  }

  lemma {:induction false} SameReaches(h: Heap, g: Heap, b: nat, a: nat)
    requires SameRefs(h, g)
    ensures Reaches(g, b, a) <==> Reaches(h, b, a)
    decreases b
  {
    hide RefsOf;
    if b in h {
      forall c | c in RefsOf(h[b]) && c < b ensures Reaches(g, c, a) <==> Reaches(h, c, a) { SameReaches(h, g, c, a); }
    }
  }

  lemma SameReach(h: Heap, g: Heap, refs: set<nat>)
    requires Ranked(h) && SameRefs(h, g)
    ensures Ranked(g) && Reach(g, refs) == Reach(h, refs)
  {
    hide RefsOf, Reaches;
    forall a | a in g ensures Bound(g, RefsOf(g[a]), a) { assert Bound(h, RefsOf(h[a]), a); }
    forall a: nat, b: nat ensures Reaches(g, b, a) <==> Reaches(h, b, a) { SameReaches(h, g, b, a); }
  }

  lemma RewritingKeepsRefs(f: string -> string, h: Heap, region: set<nat>)
    requires Ranked(h)
    ensures SameRefs(h, Rewritten(f, h, region)) && Ranked(Rewritten(f, h, region))
  {
    hide RefsOf, MappedObj;
    forall a | a in h ensures RefsOf(MappedObj(f, h[a])) == RefsOf(h[a]) { MappedObjKeepsRefs(f, h[a]); }
    SameReach(h, Rewritten(f, h, region), {});
  }

  lemma ReachIsBelow(h: Heap, refs: set<nat>, bound: nat)
    requires Ranked(h) && Bound(h, refs, bound)
    ensures forall a :: a in Reach(h, refs) ==> a < bound
  {
    forall b: nat, a: nat | b in refs && Reaches(h, b, a) ensures a < bound { ReachesIsBelow(h, b, a); }
  }

  lemma {:induction false} ReachesIsBelow(h: Heap, b: nat, a: nat)
    requires Ranked(h) && Reaches(h, b, a)
    ensures a <= b
    decreases b
  {
    hide RefsOf;
    if b != a {
      var c :| c in RefsOf(h[b]) && c < b && Reaches(h, c, a);
      ReachesIsBelow(h, c, a);
    }
  }

  // ----- what is reachable, place by place

  /** The reference at the end of the path, if there is one. */
  function RefAt(v: Val, path: seq<Step>): Option<nat> {
    if path == [] then if v.Ref? then Some(v.addr) else None
    else match path[0]
         case Field(i) => if v.Struct? && i < |v.fields| then RefAt(v.fields[i], path[1..]) else None
         case Held => if v.Iface? then RefAt(v.inner, path[1..]) else None
  }

  function LinkAt(o: Obj, p: Place): Option<nat> {
    match p
    case InCell(path) => if o.Cell? then RefAt(o.v, path) else None
    case InElem(i, path) => if o.Elems? && i < |o.es| then RefAt(o.es[i], path) else None
    case InEntry(key, path) => if o.Entries? && key in o.m then RefAt(o.m[key], path) else None
  }

  lemma {:induction false} PathToRef(v: Val, a: nat) returns (path: seq<Step>)
    requires a in Refs(v)
    ensures RefAt(v, path) == Some(a)
    decreases v
  {
    path := [];
    match v {
      case Iface(w) =>
        var rest := PathToRef(w, a);
        path := [Held] + rest;
      case Struct(fs) =>
        var i :| 0 <= i < |fs| && a in Refs(fs[i]);
        var rest := PathToRef(fs[i], a);
        path := [Field(i)] + rest;
      case _ =>
    }
  }

  lemma {:induction false} RefAtIsRef(v: Val, path: seq<Step>)
    ensures RefAt(v, path).Some? ==> RefAt(v, path).value in Refs(v)
    decreases path
  {
    if path != [] {
      match path[0] {
        case Field(i) => if v.Struct? && i < |v.fields| { RefAtIsRef(v.fields[i], path[1..]); }
        case Held => if v.Iface? { RefAtIsRef(v.inner, path[1..]); }
      }
    }
  }

  /** An object refers to what stands as a reference somewhere in it. */
  lemma RefsOfIff(o: Obj, a: nat)
    ensures a in RefsOf(o) <==> exists p :: LinkAt(o, p) == Some(a)
  {
    hide Refs, RefAt;
    if a in RefsOf(o) { var p := PlaceOfRef(o, a); }
    if p :| LinkAt(o, p) == Some(a) {
      match p {
        case InCell(path) => RefAtIsRef(o.v, path);
        case InElem(i, path) => RefAtIsRef(o.es[i], path);
        case InEntry(key, path) => RefAtIsRef(o.m[key], path);
      }
    }
  }

  lemma PlaceOfRef(o: Obj, a: nat) returns (p: Place)
    requires a in RefsOf(o)
    ensures LinkAt(o, p) == Some(a)
  {
    hide Refs, RefAt;
    match o {
      case Cell(v) =>
        var path := PathToRef(v, a);
        p := InCell(path);
      case Elems(es) =>
        var i :| 0 <= i < |es| && a in Refs(es[i]);
        var path := PathToRef(es[i], a);
        p := InElem(i, path);
      case Entries(m) =>
        var key :| key in m && a in Refs(m[key]);
        var path := PathToRef(m[key], a);
        p := InEntry(key, path);
    }
  }

  /** all holds the roots and whatever its own objects link to. */
  ghost predicate ClosedUnderLinks(h: Heap, roots: set<nat>, all: set<nat>) {
    && (forall a :: a in roots && a in h ==> a in all)
    && (forall a, p :: a in all && a in h && LinkAt(h[a], p).Some? && LinkAt(h[a], p).value in h ==> LinkAt(h[a], p).value in all)
  }

  /** What is reachable is closed, and in every closed set. */
  lemma ReachIsLeast(h: Heap, roots: set<nat>, all: set<nat>)
    requires Ranked(h)
    ensures ClosedUnderLinks(h, roots, Reach(h, roots))
    ensures ClosedUnderLinks(h, roots, all) ==> Reach(h, roots) <= all
  {
    hide RefsOf, LinkAt;
    forall a, p | a in Reach(h, roots) && a in h && LinkAt(h[a], p).Some? && LinkAt(h[a], p).value in h
      ensures LinkAt(h[a], p).value in Reach(h, roots)
    {
      var b :| b in roots && Reaches(h, b, a);
      RefsOfIff(h[a], LinkAt(h[a], p).value);
      ReachesOn(h, b, a, LinkAt(h[a], p).value);
    }
    forall a | a in roots && a in h ensures a in Reach(h, roots) { assert Reaches(h, a, a); }
    if ClosedUnderLinks(h, roots, all) {
      forall a | a in Reach(h, roots) ensures a in all {
        var b :| b in roots && Reaches(h, b, a);
        ReachesInside(h, roots, all, b, a);
      }
    }
  }

  lemma {:induction false} ReachesOn(h: Heap, b: nat, a: nat, c: nat)
    requires Ranked(h) && Reaches(h, b, a) && a in h && c in RefsOf(h[a]) && c in h
    ensures Reaches(h, b, c)
    decreases b
  {
    hide RefsOf;
    if b == a {
      assert Bound(h, RefsOf(h[a]), a);
      assert Reaches(h, c, c);
    } else {
      var d :| d in RefsOf(h[b]) && d < b && Reaches(h, d, a);
      ReachesOn(h, d, a, c);
    }
  }

  lemma {:induction false} ReachesInside(h: Heap, roots: set<nat>, all: set<nat>, b: nat, a: nat)
    requires ClosedUnderLinks(h, roots, all) && b in all && Reaches(h, b, a)
    ensures a in all
    decreases b
  {
    hide RefsOf, LinkAt;
    if b != a {
      var d :| d in RefsOf(h[b]) && d < b && Reaches(h, d, a);
      RefsOfIff(h[b], d);
      var p :| LinkAt(h[b], p) == Some(d);
      ReachesInside(h, roots, all, d, a);
    }
  }

  // ----- putting walks together

  lemma Compose(f: string -> string, h: Heap, one: set<nat>, two: set<nat>)
    requires Ranked(h) && Idempotent(f)
    ensures var g := Rewritten(f, h, Reach(h, one));
            && Ranked(g)
            && Rewritten(f, g, Reach(g, two)) == Rewritten(f, h, Reach(h, one + two))
  {
    hide RefsOf, MappedObj, Reaches, Ranked;
    RewritingKeepsRefs(f, h, Reach(h, one));
    SameReach(h, Rewritten(f, h, Reach(h, one)), two);
    assert Reach(h, one + two) == Reach(h, one) + Reach(h, two);
    forall a | a in h ensures MappedObj(f, MappedObj(f, h[a])) == MappedObj(f, h[a]) { MappedObjTwice(f, h[a]); }
  }

  /** An object is done when everything it refers to is, and then itself. */
  lemma ReachObject(h: Heap, a: nat)
    requires Ranked(h) && a in h
    ensures Reach(h, {a}) == {a} + Reach(h, RefsOf(h[a]))
    ensures a !in Reach(h, RefsOf(h[a]))
  {
    hide RefsOf;
    assert Bound(h, RefsOf(h[a]), a);
    ReachIsBelow(h, RefsOf(h[a]), a);
    forall x | x in Reach(h, {a}) ensures x in {a} + Reach(h, RefsOf(h[a])) {
      if x != a {
        var c :| c in RefsOf(h[a]) && c < a && Reaches(h, c, x);
      }
    }
  }

  lemma NothingReached(f: string -> string, h: Heap)
    requires Ranked(h)
    ensures Rewritten(f, h, Reach(h, {})) == h
  {
  }

  /** One more part of the object at a has been walked, its new content x being stored there already. */
  lemma StepBeside(f: string -> string, h: Heap, one: set<nat>, two: set<nat>, a: nat, x: Obj)
    requires Ranked(h) && Idempotent(f) && a in h && RefsOf(x) == RefsOf(h[a]) && Bound(h, two, a)
    ensures var g := Rewritten(f, h, Reach(h, one))[a := x];
            && Ranked(g) && Bound(g, two, a)
            && Rewritten(f, g, Reach(g, two)) == Rewritten(f, h, Reach(h, one + two))[a := x]
  {
    hide RefsOf, MappedObj, Reaches, Ranked;
    var g0 := Rewritten(f, h, Reach(h, one));
    var g := g0[a := x];
    RewritingKeepsRefs(f, h, Reach(h, one));
    SameReach(h, g0, two);
    SameReach(h, g, two);
    ReachIsBelow(h, two, a);
    Compose(f, h, one, two);
  }

  lemma ObjectDone(f: string -> string, h: Heap, a: nat)
    requires Ranked(h) && a in h
    ensures Rewritten(f, h, Reach(h, RefsOf(h[a])))[a := MappedObj(f, h[a])] == Rewritten(f, h, Reach(h, {a}))
  {
    hide RefsOf, MappedObj, Reach;
    ReachObject(h, a);
  }

  lemma RefsInSnoc(vs: seq<Val>, i: nat)
    requires i < |vs|
    ensures RefsIn(vs[..i + 1]) == RefsIn(vs[..i]) + Refs(vs[i])
    ensures Refs(vs[i]) <= RefsIn(vs)
  {
    hide Refs;
    var ws := vs[..i + 1];
    forall a | a in RefsIn(vs[..i]) + Refs(vs[i]) ensures a in RefsIn(ws) {
      if a in Refs(vs[i]) {
        assert a in Refs(ws[i]);
      } else {
        var j :| 0 <= j < i && a in Refs(vs[..i][j]);
        assert a in Refs(ws[j]);
      }
    }
    forall a | a in RefsIn(ws) ensures a in RefsIn(vs[..i]) + Refs(vs[i]) {
      var j :| 0 <= j < |ws| && a in Refs(ws[j]);
      if j < i { assert a in Refs(vs[..i][j]); }
    }
  }

  /** The objects that the walk changes. */
  class Store {
    var heap: Heap

    constructor (h: Heap)
      ensures heap == h
    {
      heap := h;
    }

    /**
     * walkStrings: whatever the sharing, every object reachable from v is rewritten as if it had been visited once,
     * and the value itself as far as it is settable. So each settable string s becomes f(s), and every other string stays.
     */
    method Walk(v: Val, settable: bool, f: string -> string, ghost bound: nat) returns (w: Val)
      requires Ranked(heap) && Idempotent(f) && Bound(heap, Refs(v), bound)
      modifies this
      ensures w == Mapped(f, v, settable) && ValReplaced(f, v, w, settable)
      ensures Ranked(heap) && heap == Rewritten(f, old(heap), Reach(old(heap), Refs(v)))
      ensures HeapReplaced(f, old(heap), heap, Reach(old(heap), Refs(v)))
      decreases 3 * bound, v, 1
    {
      hide Ranked, Reach, Rewritten, MappedObj, Bound, ValReplaced, HeapReplaced;
      MappedReplaces(f, v, settable);
      RewritingReplaces(f, heap, Reach(heap, Refs(v)));
      match v {
        case Ref(a) =>
          assert a in heap && a < bound by { BoundOne(heap, a, bound); }
          WalkObject(a, f);
          return v;
        case Iface(inner) =>
          w := Walk(inner, false, f, bound);
          return Iface(w);
        case Struct(fs) =>
          w := WalkFields(fs, settable, f, v, bound);
        case Str(s) =>
          NothingReached(f, heap);
          return if settable then Str(f(s)) else v;
        case _ =>
          NothingReached(f, heap);
          return v;
      }
    }

    method WalkFields(fs: seq<Val>, settable: bool, f: string -> string, ghost v: Val, ghost bound: nat) returns (w: Val)
      requires v == Struct(fs)
      requires Ranked(heap) && Idempotent(f) && Bound(heap, RefsIn(fs), bound)
      modifies this
      ensures w == Mapped(f, v, settable)
      ensures Ranked(heap) && heap == Rewritten(f, old(heap), Reach(old(heap), RefsIn(fs)))
      decreases 3 * bound, v, 0
    {
      hide Ranked, Reach, Rewritten, MappedObj, Bound, RefsIn, Refs, ValReplaced, HeapReplaced;
      ghost var h := heap;
      var ws: seq<Val> := [];
      NothingReached(f, heap);
      NoRefs();
      for i := 0 to |fs|
        invariant Ranked(heap) && heap == Rewritten(f, h, Reach(h, RefsIn(fs[..i])))
        invariant |ws| == i && forall k :: 0 <= k < i ==> ws[k] == Mapped(f, fs[k], settable)
      {
        RefsInSnoc(fs, i);
        RewritingKeepsBound(f, h, RefsIn(fs[..i]), RefsIn(fs), Refs(fs[i]), bound);
        Compose(f, h, RefsIn(fs[..i]), Refs(fs[i]));
        var field := Walk(fs[i], settable, f, bound);
        ws := ws + [field];
      }
      assert fs[..|fs|] == fs;
      assert ws == MappedAll(f, fs, settable);
      return Struct(ws);
    }

    /** A pointer, a slice or a map. */
    method WalkObject(a: nat, f: string -> string)
      requires Ranked(heap) && Idempotent(f) && a in heap
      modifies this
      ensures Ranked(heap) && heap == Rewritten(f, old(heap), Reach(old(heap), {a}))
      decreases 3 * a + 2
    {
      hide Ranked, Reach, Rewritten, Bound, RefsIn, Refs, Mapped, RefsOfEntries, ValReplaced, HeapReplaced;
      RefsAreBelow(heap, a);
      ObjectDone(f, heap, a);
      RewritingKeepsRefs(f, heap, Reach(heap, {a}));
      match heap[a] {
        case Cell(v) =>
          ReachObject(heap, a);
          OthersStay(f, heap, Reach(heap, Refs(v)), a);
          var w := Walk(v, true, f, a);
          heap := heap[a := Cell(w)];
        case Elems(es) => WalkElems(a, es, f);
        case Entries(m) => WalkEntries(a, m, f);
      }
    }

    /** The elements are set in place, one after another. */
    method WalkElems(a: nat, es: seq<Val>, f: string -> string)
      requires Ranked(heap) && Idempotent(f) && a in heap && heap[a] == Elems(es) && Bound(heap, RefsIn(es), a)
      modifies this
      ensures heap == Rewritten(f, old(heap), Reach(old(heap), RefsIn(es)))[a := MappedObj(f, Elems(es))]
      decreases 3 * a + 1
    {
      hide Ranked, Reach, Rewritten, Bound, RefsIn, Refs, Mapped, RefsOfEntries, ValReplaced, HeapReplaced;
      ghost var h := heap;
      NothingReached(f, heap);
      NoRefs();
      ghost var now := es;
      assert h[a := Elems(es)] == h;
      for i := 0 to |es|
        invariant a in heap && heap[a] == Elems(now)
        invariant |now| == |es| && forall k :: 0 <= k < |es| ==> now[k] == if k < i then Mapped(f, es[k], true) else es[k]
        invariant heap == Rewritten(f, h, Reach(h, RefsIn(es[..i])))[a := Elems(now)]
      {
        RefsInSnoc(es, i);
        SameSoFar(f, es, now);
        BoundPart(h, RefsIn(es), Refs(es[i]), a);
        StepBeside(f, h, RefsIn(es[..i]), Refs(es[i]), a, Elems(now));
        var w := Walk(heap[a].es[i], true, f, a);
        now := now[i := w];
        heap := heap[a := Elems(heap[a].es[i := w])];
      }
      assert es[..|es|] == es;
      assert now == MappedAll(f, es, true);
    }

    /** New values are collected first and stored afterwards, since map entries cannot be set in place. */
    method WalkEntries(a: nat, m: map<string, Val>, f: string -> string)
      requires Ranked(heap) && Idempotent(f) && a in heap && heap[a] == Entries(m) && Bound(heap, RefsOfEntries(m), a)
      modifies this
      ensures heap == Rewritten(f, old(heap), Reach(old(heap), RefsOfEntries(m)))[a := MappedObj(f, Entries(m))]
      decreases 3 * a + 1
    {
      hide Ranked, Reach, Rewritten, Bound, RefsIn, Refs, Mapped, MappedEntry, RefsOfEntries, ValReplaced, HeapReplaced;
      ghost var h := heap;
      NothingReached(f, heap);
      NoRefs();
      var updates: map<string, Val> := map[];
      var todo := m.Keys;
      assert h[a := Entries(m)] == h;
      while todo != {}
        invariant todo <= m.Keys && a in heap && heap[a] == Entries(m)
        invariant heap == Rewritten(f, h, Reach(h, RefsOfEntries(m - todo)))[a := Entries(m)]
        invariant forall k :: k in updates <==> k in m && k !in todo && MappedEntry(f, m[k]) != m[k]
        invariant forall k :: k in updates ==> updates[k] == MappedEntry(f, m[k])
      {
        var k :| k in todo;
        EntriesSnoc(m, todo, k);
        BoundPart(h, RefsOfEntries(m), Refs(m[k]), a);
        StepBeside(f, h, RefsOfEntries(m - todo), Refs(m[k]), a, Entries(m));
        var w := WalkEntry(m[k], f, a);
        if w != m[k] { updates := updates[k := w]; }
        todo := todo - {k};
      }
      assert m - {} == m;
      heap := heap[a := Entries(m + updates)];
      assert m + updates == map k | k in m :: MappedEntry(f, m[k]);
    }

    /** transformMapValue: a string at once, anything else on a settable copy. */
    method WalkEntry(v: Val, f: string -> string, ghost bound: nat) returns (w: Val)
      requires Ranked(heap) && Idempotent(f) && Bound(heap, Refs(v), bound)
      modifies this
      ensures w == MappedEntry(f, v)
      ensures Ranked(heap) && heap == Rewritten(f, old(heap), Reach(old(heap), Refs(v)))
      decreases 3 * bound, v, 2
    {
      hide Ranked, Reach, Rewritten, MappedObj, Bound, ValReplaced, HeapReplaced;
      match v {
        case Str(s) =>
          NothingReached(f, heap);
          return Str(f(s));
        case Iface(inner) =>
          w := Walk(inner, true, f, bound);
          return Iface(w);
        case _ =>
          w := Walk(v, true, f, bound);
      }
    }
  }

  lemma RewritingKeepsBound(f: string -> string, h: Heap, one: set<nat>, all: set<nat>, refs: set<nat>, bound: nat)
    requires Ranked(h) && Bound(h, all, bound) && refs <= all
    ensures Bound(Rewritten(f, h, Reach(h, one)), refs, bound)
  {
  }

  lemma BoundPart(h: Heap, all: set<nat>, refs: set<nat>, bound: nat)
    requires Bound(h, all, bound) && refs <= all
    ensures Bound(h, refs, bound)
  {
  }

  lemma NoRefs()
    ensures RefsIn([]) == {} && RefsOfEntries(map[]) == {}
    ensures forall vs: seq<Val> :: vs[..0] == []
    ensures forall m: map<string, Val> :: m - m.Keys == map[]
  {
  }

  lemma RefsAreBelow(h: Heap, a: nat)
    requires Ranked(h) && a in h
    ensures Bound(h, RefsOf(h[a]), a)
  {
    hide RefsOf;
  }

  lemma OthersStay(f: string -> string, h: Heap, region: set<nat>, a: nat)
    requires a in h && a !in region
    ensures a in Rewritten(f, h, region) && Rewritten(f, h, region)[a] == h[a]
  {
  }

  lemma SameSoFar(f: string -> string, es: seq<Val>, now: seq<Val>)
    requires |now| == |es| && forall k :: 0 <= k < |es| ==> now[k] == es[k] || now[k] == Mapped(f, es[k], true)
    ensures RefsIn(now) == RefsIn(es)
  {
    hide Mapped, Refs;
    forall k | 0 <= k < |es| ensures Refs(now[k]) == Refs(es[k]) { MappedKeepsRefs(f, es[k], true); }
    SameRefsIn(es, now);
  }

  lemma EntriesSnoc(m: map<string, Val>, todo: set<string>, k: string)
    requires todo <= m.Keys && k in todo
    ensures RefsOfEntries(m - (todo - {k})) == RefsOfEntries(m - todo) + Refs(m[k])
    ensures Refs(m[k]) <= RefsOfEntries(m)
  {
    hide Refs;
    var n := m - (todo - {k});
    forall a | a in RefsOfEntries(m - todo) + Refs(m[k]) ensures a in RefsOfEntries(n) {
      if a in Refs(m[k]) {
        assert a in Refs(n[k]);
      } else {
        var j :| j in m - todo && a in Refs((m - todo)[j]);
        assert a in Refs(n[j]);
      }
    }
    forall a | a in RefsOfEntries(n) ensures a in RefsOfEntries(m - todo) + Refs(m[k]) {
      var j :| j in n && a in Refs(n[j]);
      if j != k { assert a in Refs((m - todo)[j]); }
    }
  }

  lemma BoundOne(h: Heap, a: nat, bound: nat)
    requires Bound(h, {a}, bound)
    ensures a in h && a < bound
  {
  }
}
