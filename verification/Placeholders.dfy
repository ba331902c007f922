/** ${kind:spec|filter} placeholders: scanning and expansion. */
module Placeholders {
  import opened Common
  import opened Text

  datatype Kind = Env | File | Vault | Gen | Ref

  datatype Token = Token(kind: Kind, spec: string, pipe: string)

  /** "${" and the kind, up to and including the colon. */
  function Head(k: Kind): string {
    match k
    case Env => "${env:"
    case File => "${file:"
    case Vault => "${vault:"
    case Gen => "${gen:"
    case Ref => "${ref:"
  }

  function Tail(pipe: string): string {
    if pipe == "" then "}" else "|" + (pipe + "}")
  }

  /** The text of a token. */
  function Raw(t: Token): (r: string)
    ensures |r| > |t.spec|
  {
    Head(t.kind) + (t.spec + Tail(t.pipe))
  }

  function NameOf(k: Kind): string {
    match k
    case Env => "env"
    case File => "file"
    case Vault => "vault"
    case Gen => "gen"
    case Ref => "ref"
  }

  lemma RawIs(t: Token)
    ensures Raw(t) == "${" + NameOf(t.kind) + ":" + t.spec + (if t.pipe == "" then "" else "|" + t.pipe) + "}"
  {
    var head := "${" + NameOf(t.kind) + ":";
    assert head == Head(t.kind);
    hide Head, NameOf;
    RawParts(head, t.spec, t.pipe);
  }

  lemma RawParts(head: string, spec: string, pipe: string)
    ensures head + (spec + Tail(pipe)) == head + spec + (if pipe == "" then "" else "|" + pipe) + "}"
  {
    if pipe != "" { assert Tail(pipe) == "|" + pipe + "}"; }
  }

  /** What the pattern allows between the colon and the closing brace. */
  predicate WellFormed(t: Token) {
    t.spec != "" && '}' !in t.spec && '|' !in t.spec && '}' !in t.pipe
  }

  // ----- the pattern as a matcher

  function HeadAt(s: string, i: nat): (k: Option<Kind>)
    ensures k.Some? ==> OccursAt(s, Head(k.value), i)
  {
    if OccursAt(s, Head(Env), i) then Some(Env)
    else if OccursAt(s, Head(File), i) then Some(File)
    else if OccursAt(s, Head(Vault), i) then Some(Vault)
    else if OccursAt(s, Head(Gen), i) then Some(Gen)
    else if OccursAt(s, Head(Ref), i) then Some(Ref)
    else None
  }

  /** Where the run of characters that are neither of the two stops. */
  function RunEnd(s: string, i: nat, stop: char, stop2: char): (j: nat)
    requires i <= |s|
    ensures i <= j <= |s| && (forall k :: i <= k < j ==> s[k] != stop && s[k] != stop2)
    ensures j < |s| ==> s[j] == stop || s[j] == stop2
    decreases |s| - i
  {
    if i == |s| || s[i] == stop || s[i] == stop2 then i else RunEnd(s, i + 1, stop, stop2)
  }

  /** The optional filters and the closing brace. */
  function TailAt(s: string, b: nat): Option<string> {
    if b >= |s| then None
    else if s[b] == '}' then Some("")
    else if s[b] != '|' then None
    else
      var c := RunEnd(s, b + 1, '}', '}');
      if c == b + 1 || c == |s| then None else Some(s[b + 1..c])
  }

  /** Everything after the colon: spec and filters. */
  function BodyAt(s: string, a: nat): Option<(string, string)> {
    if a > |s| then None
    else
      var b := RunEnd(s, a, '}', '|');
      if b == a || TailAt(s, b).None? then None else Some((s[a..b], TailAt(s, b).value))
  }

  /** The match of the pattern that starts at i. */
  function TokenAt(s: string, i: nat): Option<Token> {
    var k := HeadAt(s, i);
    if k.None? then None
    else
      var body := BodyAt(s, i + |Head(k.value)|);
      if body.None? then None else Some(Token(k.value, body.value.0, body.value.1))
  }

  lemma HeadsDiffer(s: string, i: nat, k: Kind)
    requires OccursAt(s, Head(k), i)
    ensures HeadAt(s, i) == Some(k)
  {
    var h := Head(k);
    assert s[i..i + |h|][2] == h[2];
    var k' := HeadAt(s, i).value;
    assert s[i..i + |Head(k')|][2] == Head(k')[2];
  }

  lemma CharOccurs(s: string, i: nat, c: char)
    ensures OccursAt(s, [c], i) <==> i < |s| && s[i] == c
  {
  }

  lemma OccursSlice(s: string, i: nat, j: nat)
    requires i <= j <= |s|
    ensures OccursAt(s, s[i..j], i)
  {
  }

  lemma RunOccurs(s: string, i: nat, p: string, stop: char, stop2: char)
    requires OccursAt(s, p, i) && i + |p| < |s| && (s[i + |p|] == stop || s[i + |p|] == stop2) && stop !in p && stop2 !in p
    ensures RunEnd(s, i, stop, stop2) == i + |p|
  {
    hide RunEnd;
    assert forall k :: 0 <= k < |p| ==> s[i + k] == p[k];
  }

  lemma TailAtIff(s: string, b: nat, pipe: string)
    ensures TailAt(s, b) == Some(pipe) <==> '}' !in pipe && OccursAt(s, Tail(pipe), b)
  {
    hide RunEnd, OccursAt;
    var c := b + 1 + |pipe|;
    CharOccurs(s, b, '}');
    CharOccurs(s, b, '|');
    CharOccurs(s, c, '}');
    OccursAdjacent(s, pipe, "}", b + 1);
    OccursAdjacent(s, "|", pipe + "}", b);
    if TailAt(s, b) == Some(pipe) && pipe != "" {
      OccursSlice(s, b + 1, c);
    }
    if pipe != "" && '}' !in pipe && OccursAt(s, Tail(pipe), b) {
      RunOccurs(s, b + 1, pipe, '}', '}');
      SliceOccurs(s, b + 1, pipe);
    }
  }

  lemma SliceOccurs(s: string, i: nat, p: string)
    requires OccursAt(s, p, i)
    ensures i + |p| <= |s| && s[i..i + |p|] == p
  {
  }

  lemma TailStarts(s: string, b: nat, pipe: string)
    requires OccursAt(s, Tail(pipe), b)
    ensures b < |s| && (s[b] == '}' || s[b] == '|')
  {
    assert s[b..b + |Tail(pipe)|][0] == Tail(pipe)[0];
  }

  lemma BodyAtIff(s: string, a: nat, spec: string, pipe: string)
    ensures BodyAt(s, a) == Some((spec, pipe))
            <==> spec != "" && '}' !in spec && '|' !in spec && '}' !in pipe && OccursAt(s, spec + Tail(pipe), a)
  {
    hide RunEnd, OccursAt, TailAt, Tail;
    var b := a + |spec|;
    OccursAdjacent(s, spec, Tail(pipe), a);
    TailAtIff(s, b, pipe);
    if BodyAt(s, a) == Some((spec, pipe)) {
      OccursSlice(s, a, b);
    }
    if spec != "" && '}' !in spec && '|' !in spec && '}' !in pipe && OccursAt(s, spec + Tail(pipe), a) {
      TailStarts(s, b, pipe);
      RunOccurs(s, a, spec, '}', '|');
      SliceOccurs(s, a, spec);
    }
  }

  /** The matcher finds exactly the well-formed tokens: there is at most one at each place, and it is found. */
  lemma TokenAtIff(s: string, i: nat, t: Token)
    ensures TokenAt(s, i) == Some(t) <==> WellFormed(t) && OccursAt(s, Raw(t), i)
  {
    hide HeadAt, BodyAt, OccursAt, Head, Tail;
    OccursAdjacent(s, Head(t.kind), t.spec + Tail(t.pipe), i);
    BodyAtIff(s, i + |Head(t.kind)|, t.spec, t.pipe);
    if OccursAt(s, Head(t.kind), i) { HeadsDiffer(s, i, t.kind); }
  }

  /** FindStringSubmatch: the first match anywhere in s. */
  function FirstToken(s: string, from: nat): Option<Token>
    requires from <= |s|
    decreases |s| - from
  {
    if TokenAt(s, from).Some? || from == |s| then TokenAt(s, from) else FirstToken(s, from + 1)
  }

  /** Matching the text of a token again gives the token back, so its groups are the ones of the first match. */
  lemma Rematch(s: string, i: nat, t: Token)
    requires TokenAt(s, i) == Some(t)
    ensures FirstToken(Raw(t), 0) == Some(t)
  {
    hide TokenAt;
    TokenAtIff(s, i, t);
    TokenAtIff(Raw(t), 0, t);
  }

  // ----- segmentation

  /** A character outside every token, or a token. */
  datatype Segment = Gap(c: char) | Hole(token: Token)

  /** The leftmost non-overlapping matches from a position on, and what lies between them. */
  function Segments(s: string, from: nat): seq<Segment>
    requires from <= |s|
    decreases |s| - from
  {
    if from == |s| then []
    else if TokenAt(s, from).Some? then
      TokenAtIff(s, from, TokenAt(s, from).value);
      [Hole(TokenAt(s, from).value)] + Segments(s, from + |Raw(TokenAt(s, from).value)|)
    else [Gap(s[from])] + Segments(s, from + 1)
  }

  function SourceOf(g: Segment): string {
    match g
    case Gap(c) => [c]
    case Hole(t) => Raw(t)
  }

  function Source(segs: seq<Segment>): string {
    if segs == [] then "" else SourceOf(segs[0]) + Source(segs[1..])
  }

  function Holes(segs: seq<Segment>): seq<Token> {
    if segs == [] then []
    else (if segs[0].Hole? then [segs[0].token] else []) + Holes(segs[1..])
  }

  lemma FirstSegment(s: string, from: nat)
    requires from < |s|
    ensures var segs := Segments(s, from);
            && segs != []
            && var len := |SourceOf(segs[0])|;
               && 0 < len && from + len <= |s| && s[from..from + len] == SourceOf(segs[0])
               && segs[1..] == Segments(s, from + len)
               && (if segs[0].Hole? then TokenAt(s, from) == Some(segs[0].token) else TokenAt(s, from).None? && segs[0].c == s[from])
  {
    hide TokenAt, Raw;
    if TokenAt(s, from).Some? {
      TokenAtIff(s, from, TokenAt(s, from).value);
      SliceOccurs(s, from, Raw(TokenAt(s, from).value));
    }
  }

  /** Nothing is lost: the gaps and the raw tokens, put together again, are the input. */
  lemma {:induction false} Lossless(s: string, from: nat)
    requires from <= |s|
    ensures Source(Segments(s, from)) == s[from..]
    decreases |s| - from
  {
    hide TokenAt, Raw, SourceOf;
    if from < |s| {
      var g := Segments(s, from)[0];
      FirstSegment(s, from);
      Lossless(s, from + |SourceOf(g)|);
      assert s[from..] == SourceOf(g) + s[from + |SourceOf(g)|..];
    }
  }

  /** Exactly the tokens that start outside an earlier token are found, wherever they are. */
  lemma {:induction false} SegmentsAreExact(s: string, from: nat, j: nat)
    requires from <= |s| && j < |Segments(s, from)|
    ensures var at := from + |Source(Segments(s, from)[..j])|;
            && at < |s|
            && match Segments(s, from)[j] {
                 case Gap(c) => s[at] == c && TokenAt(s, at).None?
                 case Hole(t) => TokenAt(s, at) == Some(t)
               }
    decreases |s| - from
  {
    hide TokenAt, Raw, SourceOf;
    var segs := Segments(s, from);
    if j > 0 {
      FirstSegment(s, from);
      var rest := from + |SourceOf(segs[0])|;
      SegmentsAreExact(s, rest, j - 1);
      assert segs[..j][1..] == segs[1..][..j - 1];
    }
  }

  // ----- expansion

  /** The environment, the file system, the generators, the manifest that refs point into, and base64. */
  datatype Lookups = Lookups(
    env: string -> Option<string>, file: string -> Option<string>, gen: string -> string, ref: string -> Option<string>,
    base64: string -> string)

  datatype Failure = EnvNotSet(spec: string) | FileNotRead(spec: string) | RefNotFound(spec: string)

  datatype Lookup = Found(value: string) | Failed(failure: Failure)

  function Trimmed(parts: seq<string>): seq<string> {
    seq(|parts|, i requires 0 <= i < |parts| => TrimSpace(parts[i]))
  }

  function Filters(t: Token): seq<string> {
    if t.pipe == "" then [] else Trimmed(Split(t.pipe, '|'))
  }

  const DEFAULT := "default:"

  function DefaultOf(filters: seq<string>): Option<string> {
    if filters == [] then None
    else if DEFAULT <= filters[0] then Some(filters[0][|DEFAULT|..])
    else DefaultOf(filters[1..])
  }

  function Encoded(x: Lookups, filters: seq<string>, value: string): string {
    if filters == [] then value
    else Encoded(x, filters[1..], if filters[0] == "base64" then x.base64(value) else value)
  }

  function WithoutFinalNewlines(s: string): string {
    if s != "" && s[|s| - 1] == '\n' then WithoutFinalNewlines(s[..|s| - 1]) else s
  }

  /** The value before the filters, or what went wrong. */
  function ValueOf(x: Lookups, t: Token): Lookup {
    var fallback := DefaultOf(Filters(t));
    match t.kind
    case Env =>
      if x.env(t.spec).Some? && x.env(t.spec).value != "" then Found(x.env(t.spec).value)
      else if fallback.Some? then Found(fallback.value)
      else Failed(EnvNotSet(t.spec))
    case File =>
      if x.file(t.spec).Some? then Found(WithoutFinalNewlines(x.file(t.spec).value))
      else if fallback.Some? then Found(fallback.value)
      else Failed(FileNotRead(t.spec))
    case Vault => Found("<VAULT:" + t.spec + ">")
    case Gen => Found(x.gen(t.spec))
    case Ref => if x.ref(t.spec).Some? then Found(x.ref(t.spec).value) else Failed(RefNotFound(t.spec))
  }

  // ----- what these come to, piece by piece

  /** d is the text of the first default filter. */
  predicate FirstDefault(fs: seq<string>, d: string) {
    exists i :: 0 <= i < |fs| && fs[i] == "default:" + d && forall j :: 0 <= j < i ==> !("default:" <= fs[j])
  }

  predicate NoDefault(fs: seq<string>) {
    forall i :: 0 <= i < |fs| ==> !("default:" <= fs[i])
  }

  lemma {:induction false} DefaultIs(fs: seq<string>, d: string)
    ensures DefaultOf(fs) == Some(d) <==> FirstDefault(fs, d)
    ensures DefaultOf(fs).None? <==> NoDefault(fs)
  {
    if fs != [] {
      var rest := fs[1..];
      DefaultIs(rest, d);
      assert forall i :: 0 < i < |fs| ==> fs[i] == rest[i - 1];
      if DEFAULT <= fs[0] {
        assert fs[0] == DEFAULT + fs[0][|DEFAULT|..];
        assert fs[0] == DEFAULT + d ==> fs[0][|DEFAULT|..] == d;
      } else {
        DefaultBehind(fs, d);
      }
    }
  }

  lemma DefaultBehind(fs: seq<string>, d: string)
    requires fs != [] && !(DEFAULT <= fs[0])
    ensures FirstDefault(fs, d) <==> FirstDefault(fs[1..], d)
    ensures NoDefault(fs) <==> NoDefault(fs[1..])
  {
    var rest := fs[1..];
    assert forall i :: 0 <= i < |rest| ==> rest[i] == fs[i + 1];
    assert forall i :: 0 < i < |fs| ==> fs[i] == rest[i - 1];
    assert fs[0] != DEFAULT + d;
    if i :| 0 <= i < |fs| && fs[i] == DEFAULT + d && forall j :: 0 <= j < i ==> !(DEFAULT <= fs[j]) {
      assert rest[i - 1] == DEFAULT + d;
    }
    if i :| 0 <= i < |rest| && rest[i] == DEFAULT + d && forall j :: 0 <= j < i ==> !(DEFAULT <= rest[j]) {
      assert fs[i + 1] == DEFAULT + d;
    }
  }

  /** The file's content is v and nothing but newlines behind it. */
  predicate EndsInNewlines(content: string, v: string) {
    v <= content && (v == "" || v[|v| - 1] != '\n') && forall k :: |v| <= k < |content| ==> content[k] == '\n'
  }

  lemma {:induction false} NewlinesIs(content: string, v: string)
    ensures WithoutFinalNewlines(content) == v <==> EndsInNewlines(content, v)
    decreases content
  {
    if content != "" && content[|content| - 1] == '\n' {
      var front := content[..|content| - 1];
      NewlinesIs(front, v);
      if EndsInNewlines(content, v) {
        assert |v| < |content|;
      }
    }
  }

  /** v stands for t, before the filters: what its lookup finds, or else the first default where one may be given. */
  predicate StandsFor(x: Lookups, t: Token, v: string) {
    match t.kind
    case Env => if x.env(t.spec) in {None, Some("")} then FirstDefault(Filters(t), v) else x.env(t.spec) == Some(v)
    case File => if x.file(t.spec).None? then FirstDefault(Filters(t), v) else EndsInNewlines(x.file(t.spec).value, v)
    case Vault => v == "<VAULT:" + t.spec + ">"
    case Gen => v == x.gen(t.spec)
    case Ref => x.ref(t.spec) == Some(v)
  }

  /** No value: nothing found, and no default that may take its place. */
  predicate Unfound(x: Lookups, t: Token) {
    match t.kind
    case Env => x.env(t.spec) in {None, Some("")} && NoDefault(Filters(t))
    case File => x.file(t.spec).None? && NoDefault(Filters(t))
    case Ref => x.ref(t.spec).None?
    case _ => false
  }

  /** The failure that is logged for a token names its spec. */
  function FailureFor(t: Token): Failure {
    match t.kind
    case Env => EnvNotSet(t.spec)
    case File => FileNotRead(t.spec)
    case _ => RefNotFound(t.spec)
  }

  lemma ValueOfIff(x: Lookups, t: Token, v: string)
    ensures ValueOf(x, t) == Found(v) <==> StandsFor(x, t, v)
    ensures ValueOf(x, t).Failed? <==> Unfound(x, t)
    ensures Unfound(x, t) ==> ValueOf(x, t) == Failed(FailureFor(t))
  {
    hide Filters, DefaultOf, FirstDefault, NoDefault, EndsInNewlines, WithoutFinalNewlines;
    DefaultIs(Filters(t), v);
    if t.kind == File && x.file(t.spec).Some? { NewlinesIs(x.file(t.spec).value, v); }
  }

  /** encode applied n times. */
  function Times(encode: string -> string, n: nat, v: string): string {
    if n == 0 then v else Times(encode, n - 1, encode(v))
  }

  /** The filters encode as often as base64 is among them, and do nothing else. */
  lemma {:induction false} EncodedIs(x: Lookups, fs: seq<string>, v: string)
    ensures Encoded(x, fs, v) == Times(x.base64, multiset(fs)["base64"], v)
  {
    if fs != [] {
      assert fs == [fs[0]] + fs[1..];
      EncodedIs(x, fs[1..], if fs[0] == "base64" then x.base64(v) else v);
    }
  }

  /** The filters are the stretches between the bars, trimmed. */
  lemma FiltersAre(t: Token)
    requires t.pipe != ""
    ensures var parts := Split(t.pipe, '|');
            && Join(parts, '|') == t.pipe && (forall p :: p in parts ==> '|' !in p)
            && |Filters(t)| == |parts| && forall i :: 0 <= i < |parts| ==> Filters(t)[i] == TrimSpace(parts[i])
  {
    hide Split, TrimSpace;
    JoinOfSplit(t.pipe, '|');
  }

  /** What takes the place of a token; on failure, the token itself. */
  function Replacement(x: Lookups, t: Token): string {
    match ValueOf(x, t)
    case Found(v) => Encoded(x, Filters(t), v)
    case Failed(_) => Raw(t)
  }

  /** A token becomes its value, encoded as often as asked; without a value it stays as it was, and that is logged. */
  ghost predicate Expands(x: Lookups, t: Token, text: string, logged: seq<Failure>) {
    && (forall v :: StandsFor(x, t, v) ==> text == Times(x.base64, multiset(Filters(t))["base64"], v))
    && (Unfound(x, t) ==> text == Raw(t))
    && logged == (if Unfound(x, t) then [FailureFor(t)] else [])
    && (Unfound(x, t) <==> forall v :: !StandsFor(x, t, v))
  }

  lemma ReplacementExpands(x: Lookups, t: Token)
    ensures Expands(x, t, Replacement(x, t), FailureOf(x, t))
  {
    hide Filters, Raw, StandsFor, Unfound, ValueOf, FailureFor, Encoded, Times;
    forall v
      ensures StandsFor(x, t, v) <==> ValueOf(x, t) == Found(v)
      ensures Encoded(x, Filters(t), v) == Times(x.base64, multiset(Filters(t))["base64"], v)
    {
      ValueOfIff(x, t, v);
      EncodedIs(x, Filters(t), v);
    }
    ValueOfIff(x, t, "");
    if ValueOf(x, t).Found? { assert StandsFor(x, t, ValueOf(x, t).value); }
  }

  /** Replaced by a marker, to be materialized at run time. */
  predicate Deferred(t: Token) {
    t.kind == Vault || (t.kind == Gen && "ssh_key:" <= t.spec)
  }

  function TargetOf(x: Lookups, g: Segment): string {
    match g
    case Gap(c) => [c]
    case Hole(t) => Replacement(x, t)
  }

  function Expanded(x: Lookups, segs: seq<Segment>): string {
    if segs == [] then ""
    else TargetOf(x, segs[0]) + Expanded(x, segs[1..])
  }

  function FailureOf(x: Lookups, t: Token): seq<Failure> {
    if ValueOf(x, t).Failed? then [ValueOf(x, t).failure] else []
  }

  function Failures(x: Lookups, tokens: seq<Token>): seq<Failure> {
    if tokens == [] then [] else FailureOf(x, tokens[0]) + Failures(x, tokens[1..])
  }

  function DeferredRaws(tokens: seq<Token>): seq<string> {
    if tokens == [] then [] else (if Deferred(tokens[0]) then [Raw(tokens[0])] else []) + DeferredRaws(tokens[1..])
  }

  /** What a walk over the manifest has met so far. */
  class ResolveResult {
    var unresolved: seq<string>
    var errors: seq<Failure>

    constructor ()
      ensures unresolved == [] && errors == []
    {
      unresolved, errors := [], [];
    }

    method Fail(f: Failure)
      modifies this`errors
      ensures errors == old(errors) + [f]
    {
      errors := errors + [f];
    }

    method Defer(raw: string)
      modifies this`unresolved
      ensures unresolved == old(unresolved) + [raw]
    {
      unresolved := unresolved + [raw];
    }
  }

  /** The callback of ReplaceAllStringFunc: match raw again, look the value up, apply the filters. */
  method ExpandToken(raw: string, x: Lookups, res: ResolveResult) returns (text: string)
    requires FirstToken(raw, 0).Some? ==> raw == Raw(FirstToken(raw, 0).value)
    modifies res
    ensures FirstToken(raw, 0).None? ==> text == raw && unchanged(res)
    ensures FirstToken(raw, 0).Some? ==>
              var t := FirstToken(raw, 0).value;
              && text == Replacement(x, t) && Expands(x, t, text, FailureOf(x, t))
              && res.errors == old(res.errors) + FailureOf(x, t)
              && res.unresolved == old(res.unresolved) + (if t.kind == Vault || (t.kind == Gen && "ssh_key:" <= t.spec) then [raw] else [])
  {
    hide FirstToken, Raw, Filters, DefaultOf, WithoutFinalNewlines, Expands;
    var m := FirstToken(raw, 0);
    if m.None? { return raw; }
    var t := m.value;
    ReplacementExpands(x, t);
    var filters := Filters(t);
    var fallback := DefaultOf(filters);
    var value := "";
    match t.kind {
      case Env =>
        var found := x.env(t.spec);
        if found.None? || found.value == "" {
          if fallback.None? {
            res.Fail(EnvNotSet(t.spec));
            return raw;
          }
          value := fallback.value;
        } else {
          value := found.value;
        }
      case File =>
        var found := x.file(t.spec);
        if found.None? {
          if fallback.None? {
            res.Fail(FileNotRead(t.spec));
            return raw;
          }
          value := fallback.value;
        } else {
          value := WithoutFinalNewlines(found.value);
        }
      case Vault =>
        value := "<VAULT:" + t.spec + ">";
        res.Defer(raw);
      case Gen =>
        value := x.gen(t.spec);
        if "ssh_key:" <= t.spec { res.Defer(raw); }
      case Ref =>
        var found := x.ref(t.spec);
        if found.None? {
          res.Fail(RefNotFound(t.spec));
          return raw;
        }
        value := found.value;
    }
    text := ApplyFilters(x, filters, value);
  }

  method ApplyFilters(x: Lookups, filters: seq<string>, start: string) returns (value: string)
    ensures value == Encoded(x, filters, start)
  {
    value := start;
    assert filters[0..] == filters;
    for i := 0 to |filters|
      invariant Encoded(x, filters[i..], value) == Encoded(x, filters, start)
    {
      assert filters[i..][1..] == filters[i + 1..];
      if DEFAULT <= filters[i] { continue; }
      if filters[i] == "base64" { value := x.base64(value); }
    }
  }

  /** expandPlaceholders: every token, left to right; errors and deferred tokens are appended in the same order. */
  method ExpandPlaceholders(s: string, x: Lookups, res: ResolveResult) returns (out: string)
    modifies res
    ensures out == Expanded(x, Segments(s, 0))
    ensures res.errors == old(res.errors) + Failures(x, Holes(Segments(s, 0)))
    ensures res.unresolved == old(res.unresolved) + DeferredRaws(Holes(Segments(s, 0)))
  {
    hide Segments, FirstToken, Raw, Replacement, FailureOf, Expands, Failures, DeferredRaws, Expanded, Holes;
    var segs := Segments(s, 0);
    out := "";
    assert segs[0..] == segs;
    for i := 0 to |segs|
      invariant out + Expanded(x, segs[i..]) == Expanded(x, segs)
      invariant res.errors + Failures(x, Holes(segs[i..])) == old(res.errors) + Failures(x, Holes(segs))
      invariant res.unresolved + DeferredRaws(Holes(segs[i..])) == old(res.unresolved) + DeferredRaws(Holes(segs))
    {
      assert segs[i..][1..] == segs[i + 1..];
      match segs[i] {
        case Gap(c) =>
          GapSkips(segs[i..]);
          ExpandedStep(x, segs[i..], out);
          out := out + [c];
        case Hole(t) =>
          LogStep(x, segs[i..], res.errors, res.unresolved);
          ExpandedStep(x, segs[i..], out);
          HolesMatch(s, i);
          var text := ExpandToken(Raw(t), x, res);
          out := out + text;
      }
    }
    NothingLeft(x);
  }

  lemma HoleFirst(x: Lookups, t: Token, rest: seq<Token>)
    ensures Failures(x, [t] + rest) == FailureOf(x, t) + Failures(x, rest)
    ensures DeferredRaws([t] + rest) == (if Deferred(t) then [Raw(t)] else []) + DeferredRaws(rest)
  {
    assert ([t] + rest)[1..] == rest;
  }

  /** The log so far and the log still to come, one segment further. */
  lemma LogStep(x: Lookups, segs: seq<Segment>, errors: seq<Failure>, raws: seq<string>)
    requires segs != [] && segs[0].Hole?
    ensures var t := segs[0].token;
            && errors + Failures(x, Holes(segs)) == (errors + FailureOf(x, t)) + Failures(x, Holes(segs[1..]))
            && raws + DeferredRaws(Holes(segs)) == (raws + (if Deferred(t) then [Raw(t)] else [])) + DeferredRaws(Holes(segs[1..]))
  {
    hide Failures, DeferredRaws, FailureOf, Deferred, Raw;
    HoleFirst(x, segs[0].token, Holes(segs[1..]));
  }

  lemma NothingLeft(x: Lookups)
    ensures Expanded(x, []) == "" && Failures(x, Holes([])) == [] && DeferredRaws(Holes([])) == []
  {
  }

  lemma GapSkips(segs: seq<Segment>)
    requires segs != [] && segs[0].Gap?
    ensures Holes(segs) == Holes(segs[1..])
  {
  }

  lemma ExpandedStep(x: Lookups, segs: seq<Segment>, out: string)
    requires segs != []
    ensures out + Expanded(x, segs)
            == (out + TargetOf(x, segs[0])) + Expanded(x, segs[1..])
  {
  }

  /** Every hole is matched again by its own text. */
  lemma HolesMatch(s: string, j: nat)
    requires j < |Segments(s, 0)| && Segments(s, 0)[j].Hole?
    ensures var t := Segments(s, 0)[j].token; FirstToken(Raw(t), 0) == Some(t)
  {
    hide TokenAt, FirstToken, Raw, Segments;
    SegmentsAreExact(s, 0, j);
    Rematch(s, |Source(Segments(s, 0)[..j])|, Segments(s, 0)[j].token);
  }

  datatype Placeholder = Placeholder(kind: Kind, spec: string, filter: string, raw: string)

  /** ParsePlaceholders returns exactly the tokens that ExpandPlaceholders replaces. */
  method ParsePlaceholders(input: string) returns (out: seq<Placeholder>)
    ensures |out| == |Holes(Segments(input, 0))|
    ensures forall i :: 0 <= i < |out| ==>
              var t := Holes(Segments(input, 0))[i]; out[i] == Placeholder(t.kind, t.spec, t.pipe, Raw(t))
  {
    var matches := Holes(Segments(input, 0));
    out := [];
    for i := 0 to |matches|
      invariant |out| == i
      invariant forall k :: 0 <= k < i ==>
                  out[k] == Placeholder(matches[k].kind, matches[k].spec, matches[k].pipe, Raw(matches[k]))
    {
      var m := matches[i];
      out := out + [Placeholder(m.kind, m.spec, m.pipe, Raw(m))];
    }
  }

  lemma {:induction false} ExpandedSplits(x: Lookups, segs: seq<Segment>, j: nat)
    requires j < |segs|
    ensures Expanded(x, segs) == Expanded(x, segs[..j]) + TargetOf(x, segs[j]) + Expanded(x, segs[j + 1..])
  {
    hide TargetOf;
    if j > 0 {
      ExpandedSplits(x, segs[1..], j - 1);
      assert segs[..j][1..] == segs[1..][..j - 1];
      assert segs[1..][j..] == segs[j + 1..];
    }
  }

  /** Text outside tokens, and tokens that failed, stand unchanged and in order between the replaced ones. */
  lemma TextSurvives(x: Lookups, segs: seq<Segment>, j: nat)
    requires j < |segs| && (segs[j].Hole? ==> ValueOf(x, segs[j].token).Failed?)
    ensures Expanded(x, segs) == Expanded(x, segs[..j]) + SourceOf(segs[j]) + Expanded(x, segs[j + 1..])
  {
    hide Raw, ValueOf, Expanded;
    ExpandedSplits(x, segs, j);
  }

  /** A string without tokens, or whose tokens all fail, is returned as it is. */
  lemma {:induction false} OnlySuccessesChange(x: Lookups, segs: seq<Segment>)
    requires forall t :: t in Holes(segs) ==> ValueOf(x, t).Failed?
    ensures Expanded(x, segs) == Source(segs)
    ensures |Failures(x, Holes(segs))| == |Holes(segs)|
  {
    hide Raw, ValueOf, Filters;
    if segs != [] {
      OnlySuccessesChange(x, segs[1..]);
      if segs[0].Hole? {
        assert Holes(segs) == [segs[0].token] + Holes(segs[1..]);
        assert segs[0].token in Holes(segs);
        HoleFirst(x, segs[0].token, Holes(segs[1..]));
      } else {
        GapSkips(segs);
      }
    }
  }
}
