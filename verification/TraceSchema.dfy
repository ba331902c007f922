/** Trace records, their canonical hash, and the hash chain. */
module TraceSchema {
  import opened Common

  newtype byte = x: int | 0 <= x < 256

  const NL: byte := 10
  const CR: byte := 13

  /** input and output are raw JSON. */
  datatype Record = Record(
    schemaVersion: int, ts: int, stepId: string, tool: string, input: seq<byte>, output: seq<byte>,
    decision: string, denyRule: string, error: string, durationMs: int, prevHash: string, hash: string)

  const CURRENT_SCHEMA := 1

  datatype TraceError = UnknownSchema | HashMismatch | ChainBroken | MarshalFailed | UnmarshalFailed | TooLong

  /**
   * encoding/json and the hash: json.Marshal and json.Unmarshal of a Record, hex(SHA-256), json.Valid, and raw JSON
   * unmarshaled and marshaled again (none when that fails).
   */
  datatype Codec = Codec(
    marshal: Record -> Option<seq<byte>>, unmarshal: seq<byte> -> Option<Record>, sum: seq<byte> -> string,
    valid: seq<byte> -> bool, norm: seq<byte> -> Option<seq<byte>>)

  /** "null", which a missing input is written as; a missing output is omitted. */
  const NULL: seq<byte> := [110, 117, 108, 108]

  /** Raw JSON that json.Marshal accepts. */
  predicate RawOk(x: Codec, raw: seq<byte>) {
    raw == [] || x.valid(raw)
  }

  /** after is what raw JSON comes back as: reformatted at most. */
  predicate SameJson(x: Codec, before: seq<byte>, after: seq<byte>, missing: seq<byte>) {
    if before == [] then after == missing else after != [] && x.valid(after) && x.norm(after) == x.norm(before)
  }

  /** c is r except that its raw JSON may be formatted otherwise. */
  predicate SameRecord(x: Codec, r: Record, c: Record) {
    && c == r.(input := c.input, output := c.output)
    && SameJson(x, r.input, c.input, NULL) && SameJson(x, r.output, c.output, [])
  }

  /** The record that reading back its line gives: raw JSON compacted, everything else unchanged. */
  function Canon(x: Codec, r: Record): Record {
    if x.marshal(r).Some? && x.unmarshal(x.marshal(r).value).Some? then x.unmarshal(x.marshal(r).value).value else r
  }

  /**
   * Only raw JSON that is not JSON cannot be marshaled. A marshaled record is a non-empty line without CR or LF that
   * decodes to the same record with its raw JSON compacted, which marshals the same; how it is compacted does not
   * depend on the hash.
   */
  ghost predicate LawfulLine(x: Codec, r: Record) {
    && (x.marshal(r).Some? <==> RawOk(x, r.input) && RawOk(x, r.output))
    && (x.marshal(r).Some? ==>
          var b := x.marshal(r).value;
          && b != [] && NL !in b && CR !in b
          && x.unmarshal(b).Some?
          && x.marshal(Canon(x, r)) == x.marshal(r)
          && SameRecord(x, r, Canon(x, r))
          && forall h {:trigger x.marshal(r.(hash := h))} :: Canon(x, r.(hash := h)) == Canon(x, r).(hash := h))
  }

  /** A CR at either end is a blank to JSON, nothing is no record, and neither are two records in a row. */
  ghost predicate LawfulBlanks(x: Codec) {
    && x.unmarshal([]).None?
    && (forall b :: x.unmarshal(b + [CR]) == x.unmarshal(b))
    && (forall b :: x.unmarshal([CR] + b) == x.unmarshal(b))
    && (forall a, b :: x.unmarshal(a).Some? && x.unmarshal(b).Some? ==> x.unmarshal(a + b).None?)
  }

  /** What the model assumes of JSON and of the hash: SHA-256 without collisions, never the empty string. */
  ghost predicate Lawful(x: Codec) {
    && (forall r :: LawfulLine(x, r))
    && LawfulBlanks(x)
    && (forall a, b :: x.sum(a) == x.sum(b) ==> a == b)
    && (forall a :: x.sum(a) != "")
  }

  function ComputeHash(x: Codec, r: Record): Option<string> {
    var b := x.marshal(r.(hash := ""));
    if b.None? then None else Some(x.sum(b.value))
  }

  function Validate(x: Codec, r: Record): Option<TraceError> {
    if r.schemaVersion != CURRENT_SCHEMA then Some(UnknownSchema)
    else if ComputeHash(x, r).None? then Some(MarshalFailed)
    else if ComputeHash(x, r) != Some(r.hash) then Some(HashMismatch)
    else None
  }

  /** What is wrong with record i of a trace, if anything. */
  function Check(x: Codec, rs: seq<Record>, i: nat): Option<TraceError>
    requires i < |rs|
  {
    var bad := Validate(x, rs[i]);
    if bad.Some? then bad
    else if rs[i].prevHash != (if i == 0 then "" else rs[i - 1].hash) then Some(ChainBroken)
    else None
  }

  /** The loop of VerifyChain from record i on. */
  function VerifyFrom(x: Codec, rs: seq<Record>, i: nat): (v: (int, Option<TraceError>))
    requires i <= |rs|
    ensures v.0 == -1 <==> forall j :: i <= j < |rs| ==> Check(x, rs, j).None?
    ensures v.0 == -1 <==> v.1.None?
    ensures v.0 != -1 ==> i <= v.0 < |rs| && v.1 == Check(x, rs, v.0) && forall j :: i <= j < v.0 ==> Check(x, rs, j).None?
    decreases |rs| - i
  {
    if i == |rs| then (-1, None)
    else if Check(x, rs, i).Some? then (i, Check(x, rs, i))
    else VerifyFrom(x, rs, i + 1)
  }

  /** The index of the first broken record and its error, or -1. */
  function VerifyChain(x: Codec, rs: seq<Record>): (v: (int, Option<TraceError>))
    ensures v.1.None? <==> Intact(x, rs)
    ensures v.1.None? <==> v.0 == -1
    ensures v.1.Some? ==> 0 <= v.0 < |rs| && v.1 == Check(x, rs, v.0) && Intact(x, rs[..v.0])
  {
    var v := VerifyFrom(x, rs, 0);
    assert v.0 != -1 ==> forall j :: 0 <= j < v.0 ==> Check(x, rs[..v.0], j) == Check(x, rs, j);
    v
  }

  /** Every record is valid and linked to the one before. */
  predicate Intact(x: Codec, rs: seq<Record>) {
    forall i :: 0 <= i < |rs| ==> Check(x, rs, i).None?
  }

  /** What the error at the first broken record says of it: its version, its hash over everything else, its link. */
  lemma FirstBreakMeans(x: Codec, rs: seq<Record>)
    requires !Intact(x, rs)
    ensures 0 <= VerifyChain(x, rs).0 < |rs|
    ensures var i, why := VerifyChain(x, rs).0, VerifyChain(x, rs).1;
            var line := x.marshal(rs[i].(hash := ""));
            && (forall j :: 0 <= j < i ==> rs[j].schemaVersion == 1 && x.marshal(rs[j].(hash := "")).Some?)
            && (why == Some(UnknownSchema) <==> rs[i].schemaVersion != 1)
            && (why == Some(MarshalFailed) <==> rs[i].schemaVersion == 1 && line.None?)
            && (why == Some(HashMismatch) <==> rs[i].schemaVersion == 1 && line.Some? && x.sum(line.value) != rs[i].hash)
            && (why == Some(ChainBroken) <==>
                  && rs[i].schemaVersion == 1 && line.Some? && x.sum(line.value) == rs[i].hash
                  && rs[i].prevHash != if i == 0 then "" else rs[i - 1].hash)
  {
    var i := VerifyChain(x, rs).0;
    forall j | 0 <= j < i ensures rs[j].schemaVersion == 1 && x.marshal(rs[j].(hash := "")).Some? {
      assert Check(x, rs[..i], j).None?;
    }
  }

  /** The record comes back from its line unchanged: its raw JSON is compact already. */
  predicate Canonical(x: Codec, r: Record) {
    x.marshal(r).Some? && Canon(x, r) == r
  }

  /** A record with a computable hash can be marshaled, whatever hash it carries. */
  lemma HashedIsMarshaled(x: Codec, r: Record)
    requires Lawful(x) && ComputeHash(x, r).Some?
    ensures x.marshal(r).Some?
    ensures Canon(x, r.(hash := "")) == Canon(x, r).(hash := "")
    ensures SameRecord(x, r, Canon(x, r))
  {
    assert LawfulLine(x, r) && LawfulLine(x, r.(hash := ""));
  }

  /** Equal hashes of valid records mean equal records, up to the formatting of their raw JSON. */
  lemma HashDeterminesRecord(x: Codec, a: Record, b: Record)
    requires Lawful(x) && Validate(x, a).None? && Validate(x, b).None? && a.hash == b.hash
    ensures Canon(x, a) == Canon(x, b)
    ensures a == b <==> a.input == b.input && a.output == b.output
  {
    HashedIsMarshaled(x, a);
    HashedIsMarshaled(x, b);
    var a', b' := a.(hash := ""), b.(hash := "");
    assert x.sum(x.marshal(a').value) == x.sum(x.marshal(b').value);
    assert x.marshal(a').value == x.marshal(b').value;
    assert LawfulLine(x, a') && LawfulLine(x, b');
    assert Canon(x, a.(hash := "")) == Canon(x, b.(hash := ""));
  }

  lemma PrefixIntact(x: Codec, rs: seq<Record>, n: nat)
    requires Intact(x, rs) && n <= |rs|
    ensures Intact(x, rs[..n])
  {
    assert forall j :: 0 <= j < n ==> Check(x, rs[..n], j) == Check(x, rs, j);
  }

  /** Hashes are not empty, so only the first record has an empty link. */
  lemma OnlyGenesisHasNoPrev(x: Codec, rs: seq<Record>, i: nat)
    requires Lawful(x) && Intact(x, rs) && i < |rs|
    ensures rs[i].prevHash == "" <==> i == 0
  {
    assert Check(x, rs, i).None?;
    if i > 0 {
      assert Check(x, rs, i - 1).None?;
    }
  }

  /**
   * The last hash pins down the whole trace: two traces that both verify and end in the same hash have the same length
   * and are the same record by record, up to the formatting of raw JSON, which the hash does not see. They are equal
   * outright exactly when that formatting agrees too.
   */
  lemma LastHashDeterminesTrace(x: Codec, a: seq<Record>, b: seq<Record>)
    requires Lawful(x) && Intact(x, a) && Intact(x, b) && a != [] && b != []
    requires a[|a| - 1].hash == b[|b| - 1].hash
    ensures |a| == |b|
    ensures forall i :: 0 <= i < |a| ==> Canon(x, a[i]) == Canon(x, b[i])
    ensures a == b <==> forall i :: 0 <= i < |a| ==> a[i].input == b[i].input && a[i].output == b[i].output
  {
    hide Lawful, Canon, Intact, ComputeHash;
    SameHashes(x, a, b);
    forall i | 0 <= i < |a|
      ensures Canon(x, a[i]) == Canon(x, b[i]) && (a[i] == b[i] <==> a[i].input == b[i].input && a[i].output == b[i].output)
    {
      IntactAt(x, a, i);
      IntactAt(x, b, i);
      HashDeterminesRecord(x, a[i], b[i]);
    }
  }

  lemma IntactAt(x: Codec, rs: seq<Record>, i: nat)
    requires Intact(x, rs) && i < |rs|
    ensures Validate(x, rs[i]).None? && rs[i].prevHash == if i == 0 then "" else rs[i - 1].hash
  {
    assert Check(x, rs, i).None?;
  }

  /** Backwards along the links: every hash agrees, and both traces reach their first record together. */
  lemma {:induction false} SameHashes(x: Codec, a: seq<Record>, b: seq<Record>)
    requires Lawful(x) && Intact(x, a) && Intact(x, b) && a != [] && b != []
    requires a[|a| - 1].hash == b[|b| - 1].hash
    ensures |a| == |b| && forall i :: 0 <= i < |a| ==> a[i].hash == b[i].hash
    decreases |a|
  {
    hide Lawful, Canon, Intact, ComputeHash;
    var m, n := |a| - 1, |b| - 1;
    IntactAt(x, a, m);
    IntactAt(x, b, n);
    HashDeterminesRecord(x, a[m], b[n]);
    SameLink(x, a[m], b[n]);
    OnlyGenesisHasNoPrev(x, a, m);
    OnlyGenesisHasNoPrev(x, b, n);
    if m > 0 && n > 0 {
      PrefixIntact(x, a, m);
      PrefixIntact(x, b, n);
      SameHashes(x, a[..m], b[..n]);
      assert forall i :: 0 <= i < m ==> a[i] == a[..m][i] && b[i] == b[..n][i];
    }
  }

  lemma SameLink(x: Codec, a: Record, b: Record)
    requires Lawful(x) && Validate(x, a).None? && Validate(x, b).None? && Canon(x, a) == Canon(x, b)
    ensures a.prevHash == b.prevHash
  {
    HashedIsMarshaled(x, a);
    HashedIsMarshaled(x, b);
  }
}
