/** The assumptions about JSON and SHA-256 can all hold at once: here is a codec that meets them. */
module TraceAssumptions {
  import opened Common
  import opened TraceSchema

  /** n ones and a two. */
  function Unary(n: nat): seq<byte> {
    if n == 0 then [2] else [1] + Unary(n - 1)
  }

  predicate Plain(b: seq<byte>) {
    NL !in b && CR !in b
  }

  lemma {:induction false} UnaryIsPrefixFree(m: nat, n: nat, a: seq<byte>, b: seq<byte>)
    requires Unary(m) + a == Unary(n) + b
    ensures m == n && a == b
  {
    assert (Unary(m) + a)[0] == (Unary(n) + b)[0];
    if m > 0 && n > 0 {
      assert (Unary(m) + a)[1..] == Unary(m - 1) + a;
      assert (Unary(n) + b)[1..] == Unary(n - 1) + b;
      UnaryIsPrefixFree(m - 1, n - 1, a, b);
    } else {
      assert (Unary(m) + a)[1..] == a && (Unary(n) + b)[1..] == b;
    }
  }

  lemma {:induction false} UnaryIsPlain(n: nat)
    ensures Plain(Unary(n))
  {
    if n > 0 { UnaryIsPlain(n - 1); }
  }

  function Numbers(ns: seq<nat>): seq<byte> {
    if ns == [] then [] else Unary(ns[0]) + Numbers(ns[1..])
  }

  /** Numbers with their count in front. */
  function Block(ns: seq<nat>): seq<byte> {
    Unary(|ns|) + Numbers(ns)
  }

  lemma {:induction false} NumbersSplit(ms: seq<nat>, ns: seq<nat>, a: seq<byte>, b: seq<byte>)
    requires |ms| == |ns| && Numbers(ms) + a == Numbers(ns) + b
    ensures ms == ns && a == b
  {
    if ms == [] {
      assert Numbers(ms) + a == a && Numbers(ns) + b == b;
    } else {
      assert Numbers(ms) + a == Unary(ms[0]) + (Numbers(ms[1..]) + a);
      assert Numbers(ns) + b == Unary(ns[0]) + (Numbers(ns[1..]) + b);
      UnaryIsPrefixFree(ms[0], ns[0], Numbers(ms[1..]) + a, Numbers(ns[1..]) + b);
      NumbersSplit(ms[1..], ns[1..], a, b);
    }
  }

  lemma {:induction false} NumbersArePlain(ns: seq<nat>)
    ensures Plain(Numbers(ns))
  {
    if ns != [] {
      UnaryIsPlain(ns[0]);
      NumbersArePlain(ns[1..]);
    }
  }

  function Blocks(fs: seq<seq<nat>>): seq<byte> {
    if fs == [] then [] else Block(fs[0]) + Blocks(fs[1..])
  }

  lemma FirstBlock(fs: seq<seq<nat>>, u: seq<byte>)
    requires fs != []
    ensures Blocks(fs) + u == Unary(|fs[0]|) + (Numbers(fs[0]) + (Blocks(fs[1..]) + u))
  {
    hide Unary, Numbers;
  }

  lemma {:induction false} BlocksSplit(fs: seq<seq<nat>>, gs: seq<seq<nat>>, u: seq<byte>, v: seq<byte>)
    requires |fs| == |gs| && Blocks(fs) + u == Blocks(gs) + v
    ensures fs == gs && u == v
  {
    if fs == [] {
      assert Blocks(fs) + u == u && Blocks(gs) + v == v;
    } else {
      hide Blocks, Unary, Numbers;
      var f, g, a, b := fs[0], gs[0], Blocks(fs[1..]) + u, Blocks(gs[1..]) + v;
      FirstBlock(fs, u);
      FirstBlock(gs, v);
      UnaryIsPrefixFree(|f|, |g|, Numbers(f) + a, Numbers(g) + b);
      NumbersSplit(f, g, a, b);
      BlocksSplit(fs[1..], gs[1..], u, v);
    }
  }

  lemma {:induction false} BlocksArePlain(fs: seq<seq<nat>>)
    ensures Plain(Blocks(fs)) && (fs != [] ==> Blocks(fs) != [])
  {
    if fs != [] {
      UnaryIsPlain(|fs[0]|);
      NumbersArePlain(fs[0]);
      BlocksArePlain(fs[1..]);
      assert |Unary(|fs[0]|)| > 0;
    }
  }

  function Zigzag(n: int): nat {
    if n >= 0 then 2 * n else -2 * n - 1
  }

  function Codes(s: string): seq<nat> {
    seq(|s|, i requires 0 <= i < |s| => s[i] as int)
  }

  function Values(b: seq<byte>): seq<nat> {
    seq(|b|, i requires 0 <= i < |b| => b[i] as int)
  }

  lemma CodesInjective(s: string, t: string)
    requires Codes(s) == Codes(t)
    ensures s == t
  {
    assert |Codes(s)| == |s| && |Codes(t)| == |t|;
    forall i | 0 <= i < |s| ensures s[i] == t[i] {
      assert Codes(s)[i] == Codes(t)[i];
    }
  }

  lemma ValuesInjective(s: seq<byte>, t: seq<byte>)
    requires Values(s) == Values(t)
    ensures s == t
  {
    assert |Values(s)| == |s| && |Values(t)| == |t|;
    forall i | 0 <= i < |s| ensures s[i] == t[i] {
      assert Values(s)[i] == Values(t)[i];
    }
  }

  function Fields(r: Record): seq<seq<nat>> {
    [[Zigzag(r.schemaVersion)], [Zigzag(r.ts)], Codes(r.stepId), Codes(r.tool), Values(r.input), Values(r.output),
     Codes(r.decision), Codes(r.denyRule), Codes(r.error), [Zigzag(r.durationMs)], Codes(r.prevHash), Codes(r.hash)]
  }

  lemma FieldsInjective(a: Record, b: Record)
    requires Fields(a) == Fields(b)
    ensures a == b
  {
    var f, g := Fields(a), Fields(b);
    assert f[0] == g[0] && f[1] == g[1] && f[2] == g[2] && f[3] == g[3] && f[4] == g[4] && f[5] == g[5];
    assert f[6] == g[6] && f[7] == g[7] && f[8] == g[8] && f[9] == g[9] && f[10] == g[10] && f[11] == g[11];
    assert f[0][0] == g[0][0] && f[1][0] == g[1][0] && f[9][0] == g[9][0];
    CodesInjective(a.stepId, b.stepId);
    CodesInjective(a.tool, b.tool);
    ValuesInjective(a.input, b.input);
    ValuesInjective(a.output, b.output);
    CodesInjective(a.decision, b.decision);
    CodesInjective(a.denyRule, b.denyRule);
    CodesInjective(a.error, b.error);
    CodesInjective(a.prevHash, b.prevHash);
    CodesInjective(a.hash, b.hash);
  }

  function Encode(r: Record): seq<byte> {
    Blocks(Fields(r))
  }

  /** No encoding is the beginning of another one. */
  lemma EncodeIsPrefixFree(a: Record, b: Record, u: seq<byte>, v: seq<byte>)
    requires Encode(a) + u == Encode(b) + v
    ensures a == b && u == v
  {
    hide Fields;
    assert |Fields(a)| == |Fields(b)| by { FieldCount(a); FieldCount(b); }
    BlocksSplit(Fields(a), Fields(b), u, v);
    FieldsInjective(a, b);
  }

  lemma FieldCount(r: Record)
    ensures |Fields(r)| == 12
  {
  }

  function Digest(b: seq<byte>): string {
    "#" + seq(|b|, i requires 0 <= i < |b| => (b[i] as int) as char)
  }

  lemma DigestInjective(a: seq<byte>, b: seq<byte>)
    requires Digest(a) == Digest(b)
    ensures a == b
  {
    assert |Digest(a)| == |a| + 1 && |Digest(b)| == |b| + 1;
    forall i | 0 <= i < |a| ensures a[i] == b[i] {
      assert Digest(a)[i + 1] == Digest(b)[i + 1];
    }
  }

  lemma EncodeIsLine(r: Record)
    ensures Plain(Encode(r)) && Encode(r) != []
  {
    BlocksArePlain(Fields(r));
    assert |Fields(r)| == 12;
  }

  // ----- raw JSON whose blanks are not significant

  const BLANK: byte := 32

  function Strip(raw: seq<byte>): seq<byte> {
    if raw == [] then [] else if raw[0] == BLANK then Strip(raw[1..]) else [raw[0]] + Strip(raw[1..])
  }

  lemma {:induction false} StripTwice(raw: seq<byte>)
    ensures Strip(Strip(raw)) == Strip(raw)
  {
    if raw != [] {
      StripTwice(raw[1..]);
      if raw[0] != BLANK { assert Strip(raw)[1..] == Strip(raw[1..]); }
    }
  }

  lemma StripNull()
    ensures Strip(NULL) == NULL && Strip([]) == []
  {
    assert NULL[1..] == [117, 108, 108] && NULL[1..][1..] == [108, 108] && NULL[1..][1..][1..] == [108];
  }

  function Squash(r: Record): Record {
    r.(input := if r.input == [] then NULL else Strip(r.input), output := Strip(r.output))
  }

  lemma SquashTwice(r: Record)
    requires r.input != [] ==> Strip(r.input) != []
    ensures Squash(Squash(r)) == Squash(r)
  {
    StripNull();
    StripTwice(r.input);
    StripTwice(r.output);
  }

  predicate AllCRs(b: seq<byte>) {
    forall i :: 0 <= i < |b| ==> b[i] == CR
  }

  /** b is the line of r, with any number of CRs around it. */
  ghost predicate Reads(b: seq<byte>, r: Record) {
    exists f, g :: AllCRs(f) && AllCRs(g) && b == f + Encode(r) + g
  }

  lemma CRsInFront(f: seq<byte>, m: seq<byte>, f': seq<byte>, m': seq<byte>)
    requires f + m == f' + m' && AllCRs(f) && AllCRs(f') && m != [] && m' != [] && m[0] != CR && m'[0] != CR
    ensures f == f' && m == m'
  {
    var b := f + m;
    assert b[|f|] == m[0] && b[|f'|] == m'[0];
    assert f == b[..|f|] && f' == b[..|f'|] && m == b[|f|..] && m' == b[|f'|..];
  }

  lemma LineStarts(r: Record, g: seq<byte>)
    ensures Encode(r) + g != [] && (Encode(r) + g)[0] != CR
  {
    hide Encode;
    EncodeIsLine(r);
    assert Encode(r)[0] in Encode(r);
  }

  lemma ReadsUnique(b: seq<byte>, r: Record, q: Record)
    requires Reads(b, r) && Reads(b, q)
    ensures r == q
  {
    hide Encode, AllCRs;
    var f, g :| AllCRs(f) && AllCRs(g) && b == f + Encode(r) + g;
    var f', g' :| AllCRs(f') && AllCRs(g') && b == f' + Encode(q) + g';
    assert b == f + (Encode(r) + g) && b == f' + (Encode(q) + g');
    LineStarts(r, g);
    LineStarts(q, g');
    CRsInFront(f, Encode(r) + g, f', Encode(q) + g');
    EncodeIsPrefixFree(r, q, g, g');
  }

  lemma ReadsLine(r: Record)
    ensures Reads(Encode(r), r)
  {
    hide Encode;
    assert [] + Encode(r) + [] == Encode(r) && AllCRs([]);
  }

  lemma ReadsBehindCR(b: seq<byte>, r: Record)
    ensures Reads([CR] + b, r) <==> Reads(b, r)
  {
    hide Encode;
    if Reads(b, r) {
      var f, g :| AllCRs(f) && AllCRs(g) && b == f + Encode(r) + g;
      assert [CR] + b == ([CR] + f) + Encode(r) + g;
    }
    if Reads([CR] + b, r) {
      var f, g :| AllCRs(f) && AllCRs(g) && [CR] + b == f + Encode(r) + g;
      FrontDrops(b, f, Encode(r), g, r);
      assert AllCRs(f[1..]);
    }
  }

  lemma FrontDrops(b: seq<byte>, f: seq<byte>, e: seq<byte>, g: seq<byte>, r: Record)
    requires [CR] + b == f + e + g && e == Encode(r)
    ensures f != [] && b == f[1..] + e + g
  {
    hide Encode;
    LineStarts(r, g);
    assert f + e + g == f + (e + g);
    assert ([CR] + b)[0] == CR && ([CR] + b)[1..] == b;
    if f != [] { assert (f + e + g)[1..] == f[1..] + e + g; }
  }

  lemma ReadsBeforeCR(b: seq<byte>, r: Record)
    ensures Reads(b + [CR], r) <==> Reads(b, r)
  {
    hide Encode;
    if Reads(b, r) {
      var f, g :| AllCRs(f) && AllCRs(g) && b == f + Encode(r) + g;
      assert AllCRs(g + [CR]) && b + [CR] == f + Encode(r) + (g + [CR]);
    }
    if Reads(b + [CR], r) {
      var f, g :| AllCRs(f) && AllCRs(g) && b + [CR] == f + Encode(r) + g;
      BackDrops(b, f, Encode(r), g, r);
      var h := g[..|g| - 1];
      assert AllCRs(f) && AllCRs(h) && b == f + Encode(r) + h;
    }
  }

  lemma BackDrops(b: seq<byte>, f: seq<byte>, e: seq<byte>, g: seq<byte>, r: Record)
    requires b + [CR] == f + e + g && e == Encode(r)
    ensures g != [] && b == f + e + g[..|g| - 1]
  {
    hide Encode;
    EncodeIsLine(r);
    assert e[|e| - 1] in e;
    assert (b + [CR])[|b|] == CR && (b + [CR])[..|b|] == b;
    assert (f + e)[|f| + |e| - 1] == e[|e| - 1] && f + e + [] == f + e;
    if g != [] {
      assert (f + e + g)[..|b|] == f + e + g[..|g| - 1];
    }
  }

  lemma ReadsNotTwo(a: seq<byte>, b: seq<byte>, r: Record, q: Record, t: Record)
    requires Reads(a, r) && Reads(b, q)
    ensures !Reads(a + b, t)
  {
    hide Encode;
    var f, g :| AllCRs(f) && AllCRs(g) && a == f + Encode(r) + g;
    var f', g' :| AllCRs(f') && AllCRs(g') && b == f' + Encode(q) + g';
    var rest := (g + f') + Encode(q) + g';
    LineIsNotCRs(g + f', q, g');
    assert a + b == f + Encode(r) + rest;
    if Reads(a + b, t) {
      var u, v :| AllCRs(u) && AllCRs(v) && a + b == u + Encode(t) + v;
      TwoLines(a + b, f, r, rest, u, t, v);
    }
  }

  lemma LineIsNotCRs(a: seq<byte>, q: Record, b: seq<byte>)
    ensures !AllCRs(a + Encode(q) + b)
  {
    hide Encode;
    LineStarts(q, b);
    assert (a + Encode(q) + b)[|a|] == (Encode(q) + b)[0];
  }

  lemma TwoLines(whole: seq<byte>, f: seq<byte>, r: Record, rest: seq<byte>, u: seq<byte>, t: Record, v: seq<byte>)
    requires AllCRs(f) && AllCRs(u) && whole == f + Encode(r) + rest && whole == u + Encode(t) + v
    ensures rest == v
  {
    hide Encode, AllCRs;
    LineStarts(r, rest);
    LineStarts(t, v);
    assert whole == f + (Encode(r) + rest) && whole == u + (Encode(t) + v);
    CRsInFront(f, Encode(r) + rest, u, Encode(t) + v);
    EncodeIsPrefixFree(r, t, rest, v);
  }

  function SampleMarshal(r: Record): Option<seq<byte>> {
    if SampleOk(r.input) && SampleOk(r.output) then Some(Encode(Squash(r))) else None
  }

  predicate SampleOk(raw: seq<byte>) {
    raw == [] || Strip(raw) != []
  }

  ghost function SampleUnmarshal(b: seq<byte>): Option<Record> {
    if r :| Reads(b, r) then Some(r) else None
  }

  /** A codec that drops the blanks of raw JSON and writes everything else down. */
  ghost predicate IsSample(x: Codec) {
    && (forall r :: x.marshal(r) == SampleMarshal(r))
    && (forall b :: x.unmarshal(b) == SampleUnmarshal(b))
    && (forall b :: x.sum(b) == Digest(b))
    && (forall b :: x.valid(b) <==> Strip(b) != [])
    && (forall b :: x.norm(b) == Some(Strip(b)))
  }

  lemma SampleExists() returns (x: Codec)
    ensures IsSample(x)
  {
    x := Codec(r => SampleMarshal(r), b => SampleUnmarshal(b), b => Digest(b), b => Strip(b) != [], b => Some(Strip(b)));
  }

  lemma SampleReadsBack(x: Codec, r: Record)
    requires IsSample(x) && x.marshal(r).Some?
    ensures x.marshal(r).value == Encode(Squash(r)) && x.unmarshal(x.marshal(r).value) == Some(Squash(r))
    ensures Canon(x, r) == Squash(r)
  {
    hide Encode, Strip, Squash, SampleUnmarshal, Reads;
    ReadsLine(Squash(r));
    SampleReads(Encode(Squash(r)));
  }

  lemma SquashIsSame(x: Codec, r: Record)
    requires IsSample(x) && SampleMarshal(r).Some?
    ensures SameRecord(x, r, Squash(r)) && SampleMarshal(Squash(r)) == SampleMarshal(r)
  {
    hide Encode, Strip;
    StripNull();
    StripTwice(r.input);
    StripTwice(r.output);
    SquashTwice(r);
  }

  lemma SampleLine(x: Codec, r: Record)
    requires IsSample(x)
    ensures LawfulLine(x, r)
  {
    hide Encode, Strip, Squash, Digest, SameRecord;
    if x.marshal(r).Some? {
      SampleReadsBack(x, r);
      EncodeIsLine(Squash(r));
      SquashIsSame(x, r);
      forall h ensures Canon(x, r.(hash := h)) == Canon(x, r).(hash := h) {
        SampleReadsBack(x, r.(hash := h));
        SquashKeepsHash(r, h);
      }
    }
  }

  lemma SquashKeepsHash(r: Record, h: string)
    ensures Squash(r.(hash := h)) == Squash(r).(hash := h)
  {
  }

  lemma SampleReads(b: seq<byte>)
    ensures SampleUnmarshal(b).Some? <==> exists r :: Reads(b, r)
    ensures forall r :: Reads(b, r) ==> SampleUnmarshal(b) == Some(r)
  {
    hide Reads;
    forall r | Reads(b, r) ensures SampleUnmarshal(b) == Some(r) { ReadsUnique(b, SampleUnmarshal(b).value, r); }
  }

  lemma SameReads(a: seq<byte>, b: seq<byte>)
    requires forall r :: Reads(a, r) <==> Reads(b, r)
    ensures SampleUnmarshal(a) == SampleUnmarshal(b)
  {
    hide Reads, SampleUnmarshal;
    SampleReads(a);
    SampleReads(b);
    if r :| Reads(a, r) { assert Reads(b, r); }
  }

  lemma SampleBlanks(x: Codec)
    requires IsSample(x)
    ensures LawfulBlanks(x)
  {
    hide Encode, Strip, Digest, SampleMarshal, SampleUnmarshal, Reads;
    SampleReads([]);
    if r :| Reads([], r) { NothingIsNoLine(r); }
    forall b ensures x.unmarshal(b + [CR]) == x.unmarshal(b) {
      forall r ensures Reads(b + [CR], r) <==> Reads(b, r) { ReadsBeforeCR(b, r); }
      SameReads(b + [CR], b);
    }
    forall b ensures x.unmarshal([CR] + b) == x.unmarshal(b) {
      forall r ensures Reads([CR] + b, r) <==> Reads(b, r) { ReadsBehindCR(b, r); }
      SameReads([CR] + b, b);
    }
    forall a, b | x.unmarshal(a).Some? && x.unmarshal(b).Some? ensures x.unmarshal(a + b).None? { SampleNotTwo(a, b); }
  }

  lemma NothingIsNoLine(r: Record)
    ensures !Reads([], r)
  {
    hide Encode;
    EncodeIsLine(r);
  }

  lemma SampleNotTwo(a: seq<byte>, b: seq<byte>)
    requires SampleUnmarshal(a).Some? && SampleUnmarshal(b).Some?
    ensures SampleUnmarshal(a + b).None?
  {
    hide Reads, SampleUnmarshal;
    SampleReads(a);
    SampleReads(b);
    SampleReads(a + b);
    var r :| Reads(a, r);
    var q :| Reads(b, q);
    forall t ensures !Reads(a + b, t) { ReadsNotTwo(a, b, r, q, t); }
  }

  lemma SampleIsLawful(x: Codec)
    requires IsSample(x)
    ensures Lawful(x)
  {
    hide LawfulLine, LawfulBlanks, Strip, SampleMarshal, SampleUnmarshal;
    forall r ensures LawfulLine(x, r) { SampleLine(x, r); }
    SampleBlanks(x);
    forall a, b | x.sum(a) == x.sum(b) ensures a == b { DigestInjective(a, b); }
  }

  /** The laws the trace theorems assume are consistent. */
  lemma LawfulCodecExists()
    ensures exists x: Codec :: Lawful(x)
  {
    var x := SampleExists();
    SampleIsLawful(x);
  }

  /** Without the proviso on raw JSON the last hash does not make traces equal: these two differ in one blank. */
  lemma SpacingIsInvisible() returns (x: Codec, a: Record, b: Record)
    ensures Lawful(x) && Intact(x, [a]) && Intact(x, [b]) && a.hash == b.hash
    ensures a.input == [49] && b == a.(input := [49, BLANK])
  {
    hide Lawful, Encode, Strip, Squash, SampleUnmarshal, Digest;
    x := SampleExists();
    SampleIsLawful(x);
    var r := Record(CURRENT_SCHEMA, 0, "", "", [49], [], "", "", "", 0, "", "");
    SameMarshal(r);
    a := r.(hash := ComputeHash(x, r).value);
    b := a.(input := [49, BLANK]);
    assert a.(hash := "") == r && b.(hash := "") == r.(input := [49, BLANK]);
  }

  lemma SameMarshal(r: Record)
    requires r.input == [49] && r.output == []
    ensures SampleMarshal(r).Some? && SampleMarshal(r.(input := [49, BLANK])) == SampleMarshal(r)
  {
    hide Encode;
    assert [49, BLANK][1..] == [BLANK] && [49][1..] == [];
    assert Strip([BLANK]) == [] by { assert [BLANK][1..] == []; }
  }
}
