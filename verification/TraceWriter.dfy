/** The appending writer, and what any series of its sessions leaves for the reader. */
module TraceWriter {
  import opened Common
  import opened TraceSchema
  import opened TraceFile
  import opened TraceReader

  /** One call of Write: the caller's record and the clock. */
  datatype Entry = Entry(rec: Record, now: int)

  /** The record as Write completes it, before hashing. */
  function Linked(e: Entry, prev: string): Record {
    e.rec.(
      schemaVersion := if e.rec.schemaVersion == 0 then CURRENT_SCHEMA else e.rec.schemaVersion,
      ts := if e.rec.ts == 0 then e.now else e.rec.ts,
      prevHash := prev)
  }

  /** The record as Write puts it on disk; none when it cannot be marshaled. */
  function Stamped(x: Codec, e: Entry, prev: string): Option<Record> {
    var h := ComputeHash(x, Linked(e, prev));
    if h.None? then None
    else if x.marshal(Linked(e, prev).(hash := h.value)).None? then None
    else Some(Linked(e, prev).(hash := h.value))
  }

  /** r is the caller's record with version, time, link and hash filled in, and nothing else changed. */
  predicate Completes(e: Entry, prev: string, r: Record) {
    && (r.stepId, r.tool, r.input, r.output) == (e.rec.stepId, e.rec.tool, e.rec.input, e.rec.output)
    && (r.decision, r.denyRule, r.error, r.durationMs) == (e.rec.decision, e.rec.denyRule, e.rec.error, e.rec.durationMs)
    && r.schemaVersion == (if e.rec.schemaVersion == 0 then 1 else e.rec.schemaVersion)
    && r.ts == (if e.rec.ts == 0 then e.now else e.rec.ts)
    && r.prevHash == prev
  }

  lemma StampedCompletes(x: Codec, e: Entry, prev: string)
    requires Stamped(x, e, prev).Some?
    ensures var r := Stamped(x, e, prev).value; Completes(e, prev, r) && ComputeHash(x, r) == Some(r.hash)
  {
  }

  /** Where the chain stands after log, having started at start. */
  function EndHash(start: string, log: seq<Record>): string {
    if log == [] then start else log[|log| - 1].hash
  }

  /** The records after the writes, on top of log. */
  function LogOf(x: Codec, start: string, log: seq<Record>, writes: seq<Entry>): seq<Record>
    decreases |writes|
  {
    if writes == [] then log
    else
      var r := Stamped(x, writes[0], EndHash(start, log));
      LogOf(x, start, if r.Some? then log + [r.value] else log, writes[1..])
  }

  predicate AllMarshal(x: Codec, log: seq<Record>) {
    forall r :: r in log ==> x.marshal(r).Some?
  }

  /** The log after one write, and its bytes. */
  lemma OneWrite(x: Codec, start: string, log: seq<Record>, e: Entry)
    requires AllMarshal(x, log)
    ensures var r := Stamped(x, e, EndHash(start, log));
            if r.None? then LogOf(x, start, log, [e]) == log
            else
              && LogOf(x, start, log, [e]) == log + [r.value] && AllMarshal(x, log + [r.value])
              && Lines(x, log + [r.value]) == Lines(x, log) + (x.marshal(r.value).value + [NL])
              && EndHash(start, log + [r.value]) == r.value.hash
  {
    hide ComputeHash;
    var r := Stamped(x, e, EndHash(start, log));
    assert [e][1..] == [];
    if r.Some? {
      assert (log + [r.value])[..|log|] == log;
      assert Lines(x, log) + (x.marshal(r.value).value + [NL]) == Lines(x, log) + x.marshal(r.value).value + [NL];
    }
  }

  /** The hash that a writer opened on data links its first record to. */
  function ResumedAt(x: Codec, data: seq<byte>): string {
    if LastRecord(x, data).Some? then LastRecord(x, data).value.hash else ""
  }

  class TraceData {
    var data: seq<byte>

    constructor ()
      ensures data == []
    {
      data := [];
    }
  }

  class Writer {
    const codec: Codec
    const file: TraceData
    var buf: seq<byte>
    var prevHash: string

    /** On disk and in the buffer together are base and the lines of log, and prevHash is where the chain stands. */
    ghost predicate Holds(base: seq<byte>, start: string, log: seq<Record>)
      reads this, file
    {
      AllMarshal(codec, log) && file.data + buf == base + Lines(codec, log) && prevHash == EndHash(start, log)
    }

    /** Opening resumes the chain from the last line on disk, whatever else is in the file. */
    constructor (x: Codec, file: TraceData)
      ensures codec == x && this.file == file && buf == [] && Holds(file.data, ResumedAt(x, file.data), [])
    {
      codec, this.file, buf := x, file, [];
      prevHash := "";
      new;
      if file.data != [] {
        var last := ReadLastRecord(x, file.data);
        if last.Some? {
          prevHash := last.value.hash;
        }
      }
      assert file.data + buf == file.data + Lines(x, []);
    }

    /** bufio.Writer: any front part of the buffer may reach the disk early. */
    method Append(bytes: seq<byte>)
      modifies this`buf, file
      ensures file.data + buf == old(file.data + buf) + bytes
      ensures old(file.data) <= file.data
    {
      buf := buf + bytes;
      var k :| 0 <= k <= |buf|;
      ghost var whole := file.data + buf;
      file.data, buf := file.data + buf[..k], buf[k..];
      assert file.data + buf == whole;
    }

    /** Write stamps, links and appends one record, the caller's own, or fails and changes nothing. */
    method Write(rec: Record, now: int, ghost base: seq<byte>, ghost start: string, ghost log: seq<Record>) returns (ok: bool)
      requires Holds(base, start, log)
      modifies this`buf, this`prevHash, file
      ensures ok <==> Stamped(codec, Entry(rec, now), EndHash(start, log)).Some?
      ensures Holds(base, start, LogOf(codec, start, log, [Entry(rec, now)]))
      ensures if ok then exists r :: Holds(base, start, log + [r]) && Completes(Entry(rec, now), old(prevHash), r) && ComputeHash(codec, r) == Some(r.hash)
              else Holds(base, start, log)
      ensures old(file.data) <= file.data
    {
      hide ComputeHash, Lines, LogOf, EndHash, Completes;
      OneWrite(codec, start, log, Entry(rec, now));
      var r := rec;
      if r.schemaVersion == 0 {
        r := r.(schemaVersion := CURRENT_SCHEMA);
      }
      if r.ts == 0 {
        r := r.(ts := now);
      }
      r := r.(prevHash := prevHash);
      assert r == Linked(Entry(rec, now), EndHash(start, log));
      var h := ComputeHash(codec, r);
      if h.None? {
        return false;
      }
      r := r.(hash := h.value);
      var b := codec.marshal(r);
      if b.None? {
        return false;
      }
      StampedCompletes(codec, Entry(rec, now), EndHash(start, log));
      Append(b.value + [NL]);
      assert (base + Lines(codec, log)) + (b.value + [NL]) == base + (Lines(codec, log) + (b.value + [NL]));
      prevHash := h.value;
      assert Holds(base, start, log + [r]);
      return true;
    }

    /** Sync and Close move the whole buffer to the disk. */
    method Flush(ghost base: seq<byte>, ghost start: string, ghost log: seq<Record>)
      requires Holds(base, start, log)
      modifies this`buf, file
      ensures Holds(base, start, log) && buf == [] && file.data == base + Lines(codec, log)
    {
      file.data, buf := file.data + buf, [];
      assert file.data + buf == file.data;
    }
  }

  /** The backward scan finds the last record written, and with it the end of the chain. */
  lemma LastOfLines(x: Codec, log: seq<Record>)
    requires Lawful(x) && AllMarshal(x, log)
    ensures Lines(x, log) == [] <==> log == []
    ensures log == [] ==> LastRecord(x, Lines(x, log)).None?
    ensures log != [] ==> LastRecord(x, Lines(x, log)) == Some(Canon(x, log[|log| - 1]))
                          && Canon(x, log[|log| - 1]).hash == EndHash("", log)
  {
    hide Split, Lawful, LawfulLine, Canon;
    ReadIsSame(x, log);
    LinesHaveNoNewline(x, log);
    SplitAppend(x, log, []);
    assert Lines(x, log) + [] == Lines(x, log);
    SplitNothing();
    assert Marshaled(x, log) + [] == Marshaled(x, log);
    if log != [] {
      LineDecodes(x, log[|log| - 1]);
    }
  }

  lemma LinesHaveNoNewline(x: Codec, log: seq<Record>)
    requires Lawful(x) && AllMarshal(x, log)
    ensures forall r :: r in log ==> x.marshal(r).Some? && NL !in x.marshal(r).value
  {
    forall r | r in log ensures x.marshal(r).Some? && NL !in x.marshal(r).value {
      assert LawfulLine(x, r);
    }
  }

  lemma LineDecodes(x: Codec, r: Record)
    requires Lawful(x) && x.marshal(r).Some?
    ensures x.marshal(r).value != [] && DropCR(x.marshal(r).value) == x.marshal(r).value
    ensures x.unmarshal(x.marshal(r).value) == Some(Canon(x, r))
    ensures SameRecord(x, r, Canon(x, r))
    ensures ComputeHash(x, Canon(x, r)) == ComputeHash(x, r)
    ensures Canonical(x, Canon(x, r))
  {
    assert LawfulLine(x, r);
    var b, c := x.marshal(r).value, Canon(x, r);
    assert b[|b| - 1] in b;
    assert LawfulLine(x, r.(hash := ""));
    assert Canon(x, r.(hash := "")) == c.(hash := "");
  }

  // ----- what the reader gets back

  function Read(x: Codec, log: seq<Record>): seq<Record> {
    seq(|log|, i requires 0 <= i < |log| => Canon(x, log[i]))
  }

  /** Every record is stamped: hashed, and linked to the one before. */
  ghost predicate Chained(x: Codec, start: string, log: seq<Record>) {
    forall i :: 0 <= i < |log| ==>
      x.marshal(log[i]).Some? && ComputeHash(x, log[i]) == Some(log[i].hash) && log[i].prevHash == EndHash(start, log[..i])
  }

  predicate Short(x: Codec, r: Record) {
    x.marshal(r).Some? && |x.marshal(r).value| < 4194304
  }

  lemma {:induction false} WritesAreChained(x: Codec, start: string, log: seq<Record>, writes: seq<Entry>)
    requires Chained(x, start, log)
    ensures Chained(x, start, LogOf(x, start, log, writes))
    decreases |writes|
  {
    if writes != [] {
      var r := Stamped(x, writes[0], EndHash(start, log));
      if r.Some? {
        var log' := log + [r.value];
        forall i | 0 <= i < |log'|
          ensures x.marshal(log'[i]).Some? && ComputeHash(x, log'[i]) == Some(log'[i].hash) && log'[i].prevHash == EndHash(start, log'[..i])
        {
          assert log'[..i] == log[..i];
          assert log[..|log|] == log;
        }
        WritesAreChained(x, start, log', writes[1..]);
      } else {
        WritesAreChained(x, start, log, writes[1..]);
      }
    }
  }

  /** Reading the lines of short records gives their canonical forms. */
  lemma {:induction false} ReadBack(x: Codec, log: seq<Record>, rest: seq<seq<byte>>)
    requires Lawful(x) && AllMarshal(x, log) && forall r :: r in log ==> Short(x, r)
    ensures ReadAll(x, Marshaled(x, log) + rest) == var l := ReadAll(x, rest); Load(Read(x, log) + l.recs, l.err)
    decreases |log|
  {
    hide Lawful, LawfulLine, Canon, DropCR;
    if log == [] {
      assert Marshaled(x, log) + rest == rest && Read(x, log) + ReadAll(x, rest).recs == ReadAll(x, rest).recs;
    } else {
      var n := |log| - 1;
      assert Short(x, log[n]);
      var b := x.marshal(log[n]).value;
      LineDecodes(x, log[n]);
      ReadBack(x, log[..n], [b] + rest);
      assert Marshaled(x, log) + rest == Marshaled(x, log[..n]) + ([b] + rest);
      assert ([b] + rest)[1..] == rest;
      assert Read(x, log) + ReadAll(x, rest).recs == Read(x, log[..n]) + ([Canon(x, log[n])] + ReadAll(x, rest).recs);
    }
  }

  /** One line too long stops the reader. */
  lemma {:induction false} LongLineStops(x: Codec, lines: seq<seq<byte>>, i: nat)
    requires i < |lines| && |lines[i]| >= MAX_LINE
    ensures ReadAll(x, lines).err.Some?
  {
    if i > 0 && |lines[0]| < MAX_LINE {
      LongLineStops(x, lines[1..], i - 1);
    }
  }

  lemma {:induction false} MarshaledAt(x: Codec, log: seq<Record>, i: nat)
    requires AllMarshal(x, log) && i < |log|
    ensures |Marshaled(x, log)| == |log| && Marshaled(x, log)[i] == x.marshal(log[i]).value
    decreases |log|
  {
    var n := |log| - 1;
    if n > 0 {
      MarshaledAt(x, log[..n], if i < n then i else 0);
    }
  }

  /** The chain as read is intact exactly when no record carries a foreign schema version. */
  lemma ReadIsIntact(x: Codec, log: seq<Record>)
    requires Lawful(x) && Chained(x, "", log)
    ensures Intact(x, Read(x, log)) <==> forall r :: r in log ==> r.schemaVersion == CURRENT_SCHEMA
  {
    hide Lawful, LawfulLine, Canon;
    var rs := Read(x, log);
    forall i | 0 <= i < |log| ensures Check(x, rs, i).None? <==> log[i].schemaVersion == CURRENT_SCHEMA {
      LineDecodes(x, log[i]);
      if i > 0 {
        LineDecodes(x, log[i - 1]);
      }
    }
    if Intact(x, rs) {
      forall r | r in log ensures r.schemaVersion == CURRENT_SCHEMA {
        var i :| 0 <= i < |log| && log[i] == r;
        assert Check(x, rs, i).None?;
      }
    }
  }

  /**
   * A file holding the lines of stamped records loads without error exactly when every record has the current schema
   * version and a line under the scanner's limit. LoadAll then returns those records in order: the same in every field
   * but the formatting of raw JSON, and equal outright when that is compact already.
   */
  lemma LoadsIff(x: Codec, log: seq<Record>)
    requires Lawful(x) && Chained(x, "", log)
    ensures var l := LoadAllOf(x, Lines(x, log));
            && (l.err.None? <==> forall r :: r in log ==> r.schemaVersion == CURRENT_SCHEMA && Short(x, r))
            && (l.err.None? ==> l.recs == Read(x, log))
            && (l.err.None? ==>
                  |l.recs| == |log|
                  && forall i :: 0 <= i < |log| ==> SameRecord(x, log[i], l.recs[i]) && (Canonical(x, log[i]) ==> l.recs[i] == log[i]))
  {
    hide Lawful, LawfulLine, Canon, SameRecord, Split, ReadAll, Intact, VerifyChain, Check;
    ReadIsSame(x, log);
    LinesHaveNoNewline(x, log);
    SplitAppend(x, log, []);
    assert Lines(x, log) + [] == Lines(x, log);
    SplitNothing();
    assert Marshaled(x, log) + [] == Marshaled(x, log);
    if forall r :: r in log ==> Short(x, r) {
      ReadBack(x, log, []);
      NothingToRead(x);
      assert Read(x, log) + [] == Read(x, log);
      ReadIsIntact(x, log);
    } else {
      var i :| 0 <= i < |log| && !Short(x, log[i]);
      MarshaledAt(x, log, i);
      LongLineStops(x, Marshaled(x, log), i);
    }
  }

  lemma ReadIsSame(x: Codec, log: seq<Record>)
    requires Lawful(x) && AllMarshal(x, log)
    ensures forall i :: 0 <= i < |log| ==> SameRecord(x, log[i], Read(x, log)[i]) && (Canonical(x, log[i]) ==> Read(x, log)[i] == log[i])
  {
    hide Lawful, LawfulLine, SameRecord, ComputeHash, DropCR;
    forall i | 0 <= i < |log| ensures SameRecord(x, log[i], Read(x, log)[i]) {
      assert log[i] in log;
      LineDecodes(x, log[i]);
    }
  }

  lemma NothingToRead(x: Codec)
    ensures ReadAll(x, []) == Load([], None)
  {
  }

  // ----- sessions

  lemma {:induction false} LogOfAppend(x: Codec, start: string, log: seq<Record>, a: seq<Entry>, b: seq<Entry>)
    ensures LogOf(x, start, log, a + b) == LogOf(x, start, LogOf(x, start, log, a), b)
    decreases |a|
  {
    if a == [] {
      assert a + b == b;
    } else {
      assert (a + b)[1..] == a[1..] + b;
      var r := Stamped(x, a[0], EndHash(start, log));
      LogOfAppend(x, start, if r.Some? then log + [r.value] else log, a[1..], b);
    }
  }

  /** The write can be marshaled: its raw JSON is JSON, or missing. */
  predicate Writable(x: Codec, e: Entry) {
    RawOk(x, e.rec.input) && RawOk(x, e.rec.output)
  }

  /** The writes that are not refused. */
  function Kept(x: Codec, writes: seq<Entry>): seq<Entry> {
    if writes == [] then [] else (if Writable(x, writes[0]) then [writes[0]] else []) + Kept(x, writes[1..])
  }

  /** Whether a write is refused depends on its raw JSON alone, not on the chain. */
  lemma StampedIff(x: Codec, e: Entry, prev: string)
    requires Lawful(x)
    ensures Stamped(x, e, prev).Some? <==> Writable(x, e)
  {
    hide SameRecord;
    var r := Linked(e, prev);
    assert LawfulLine(x, r.(hash := ""));
    forall h ensures x.marshal(r.(hash := h)).Some? <==> Writable(x, e) { assert LawfulLine(x, r.(hash := h)); }
  }

  /** The new records are, in order, the stamped records of exactly the writes that can be marshaled. */
  lemma {:induction false} LogKeepsWrites(x: Codec, start: string, log: seq<Record>, writes: seq<Entry>)
    requires Lawful(x)
    ensures log <= LogOf(x, start, log, writes)
    ensures var out, kept := LogOf(x, start, log, writes), Kept(x, writes);
            && |out| == |log| + |kept|
            && forall i :: 0 <= i < |kept| ==> Stamped(x, kept[i], EndHash(start, out[..|log| + i])) == Some(out[|log| + i])
    decreases |writes|
  {
    hide Stamped, Writable, Lawful;
    if writes != [] {
      var r := Stamped(x, writes[0], EndHash(start, log));
      StampedIff(x, writes[0], EndHash(start, log));
      LogKeepsWrites(x, start, if r.Some? then log + [r.value] else log, writes[1..]);
      if r.Some? {
        var out, kept := LogOf(x, start, log, writes), Kept(x, writes);
        forall i | 0 <= i < |kept| ensures Stamped(x, kept[i], EndHash(start, out[..|log| + i])) == Some(out[|log| + i]) {
          if i == 0 {
            assert out[..|log|] == log;
          } else {
            assert kept[i] == Kept(x, writes[1..])[i - 1];
          }
        }
      }
    }
  }

  /** What a session does between opening and closing the file. */
  datatype Op = WriteRecord(entry: Entry) | SyncNow

  function Entries(ops: seq<Op>): seq<Entry>
    decreases |ops|
  {
    if ops == [] then []
    else
      var last := ops[|ops| - 1];
      Entries(ops[..|ops| - 1]) + (if last.WriteRecord? then [last.entry] else [])
  }

  function AllEntries(sessions: seq<seq<Op>>): seq<Entry>
    decreases |sessions|
  {
    if sessions == [] then [] else AllEntries(sessions[..|sessions| - 1]) + Entries(sessions[|sessions| - 1])
  }

  function EntryOf(op: Op): seq<Entry> {
    if op.WriteRecord? then [op.entry] else []
  }

  lemma EntriesSnoc(ops: seq<Op>, op: Op)
    ensures Entries(ops + [op]) == Entries(ops) + EntryOf(op)
    ensures Entries([]) == []
  {
    assert (ops + [op])[..|ops|] == ops;
  }

  /** A session's writes are its write operations, in order. */
  lemma {:induction false} EntriesAre(a: seq<Op>, b: seq<Op>, e: Entry)
    ensures Entries([WriteRecord(e)]) == [e] && Entries([SyncNow]) == []
    ensures Entries(a + b) == Entries(a) + Entries(b)
    decreases |b|
  {
    hide Entries;
    EntriesSnoc([], WriteRecord(e));
    EntriesSnoc([], SyncNow);
    assert [] + [WriteRecord(e)] == [WriteRecord(e)] && [] + [SyncNow] == [SyncNow];
    if b == [] {
      assert a + b == a;
    } else {
      var front, last := b[..|b| - 1], b[|b| - 1];
      EntriesAre(a, front, e);
      LastApart(a, b);
      EntriesSnoc(a + front, last);
      EntriesSnoc(front, last);
      Reassociate(Entries(a), Entries(front), EntryOf(last));
    }
  }

  lemma AllEntriesSnoc(sessions: seq<seq<Op>>, ops: seq<Op>)
    ensures AllEntries(sessions + [ops]) == AllEntries(sessions) + Entries(ops)
    ensures AllEntries([]) == []
  {
    assert (sessions + [ops])[..|sessions|] == sessions;
  }

  /** And those of several sessions are those of each, one after another. */
  lemma {:induction false} AllEntriesAre(a: seq<seq<Op>>, b: seq<seq<Op>>, ops: seq<Op>)
    ensures AllEntries([ops]) == Entries(ops)
    ensures AllEntries(a + b) == AllEntries(a) + AllEntries(b)
    decreases |b|
  {
    hide Entries, AllEntries;
    AllEntriesSnoc([], ops);
    assert [] + [ops] == [ops];
    if b == [] {
      assert a + b == a;
    } else {
      var front, last := b[..|b| - 1], b[|b| - 1];
      AllEntriesAre(a, front, ops);
      LastApart(a, b);
      AllEntriesSnoc(a + front, last);
      AllEntriesSnoc(front, last);
      Reassociate(AllEntries(a), AllEntries(front), Entries(last));
    }
  }

  function IfKept(x: Codec, e: Entry): seq<Entry> {
    if (e.rec.input == [] || x.valid(e.rec.input)) && (e.rec.output == [] || x.valid(e.rec.output)) then [e] else []
  }

  lemma KeptFirst(x: Codec, e: Entry, rest: seq<Entry>)
    ensures Kept(x, [e] + rest) == IfKept(x, e) + Kept(x, rest)
    ensures Kept(x, []) == []
  {
    assert ([e] + rest)[1..] == rest;
  }

  /** A write is kept exactly when its raw JSON is missing or JSON, whatever is written before and after it. */
  lemma {:induction false} KeptAre(x: Codec, a: seq<Entry>, b: seq<Entry>, e: Entry)
    ensures Kept(x, [e]) == if (e.rec.input == [] || x.valid(e.rec.input)) && (e.rec.output == [] || x.valid(e.rec.output)) then [e] else []
    ensures Kept(x, a + b) == Kept(x, a) + Kept(x, b)
    decreases |a|
  {
    hide Kept;
    KeptFirst(x, e, []);
    assert [e] + [] == [e];
    if a == [] {
      assert a + b == b;
    } else {
      var first, rest := a[0], a[1..];
      KeptAre(x, rest, b, e);
      assert a == [first] + rest && a + b == [first] + (rest + b);
      KeptFirst(x, first, rest);
      KeptFirst(x, first, rest + b);
      Reassociate(IfKept(x, first), Kept(x, rest), Kept(x, b));
    }
  }

  /** One session on any file: open, the operations, close. The new lines stand behind what was there. */
  method RunSession(x: Codec, file: TraceData, ops: seq<Op>)
    modifies file
    ensures var log := LogOf(x, ResumedAt(x, old(file.data)), [], Entries(ops));
            AllMarshal(x, log) && file.data == old(file.data) + Lines(x, log)
  {
    hide Stamped, LastRecord;
    ghost var base, start := file.data, ResumedAt(x, file.data);
    var w := new Writer(x, file);
    assert ops[..0] == [];
    for i := 0 to |ops|
      invariant w.Holds(base, start, LogOf(x, start, [], Entries(ops[..i]))) && w.codec == x && w.file == file
    {
      ghost var before := LogOf(x, start, [], Entries(ops[..i]));
      assert ops[..i + 1][..i] == ops[..i];
      match ops[i] {
        case WriteRecord(e) =>
          LogOfAppend(x, start, [], Entries(ops[..i]), [e]);
          var ok := w.Write(e.rec, e.now, base, start, before);
        case SyncNow =>
          assert Entries(ops[..i + 1]) == Entries(ops[..i]);
          w.Flush(base, start, before);
      }
    }
    assert ops[..|ops|] == ops;
    w.Flush(base, start, LogOf(x, start, [], Entries(ops)));
  }

  /** Writes on top of a log continue its chain. */
  lemma {:induction false} LogOnTop(x: Codec, start: string, log: seq<Record>, top: seq<Record>, writes: seq<Entry>)
    ensures LogOf(x, start, log + top, writes) == log + LogOf(x, EndHash(start, log), top, writes)
    decreases |writes|
  {
    hide Stamped;
    if writes != [] {
      var r := Stamped(x, writes[0], EndHash(start, log + top));
      var more := if r.Some? then top + [r.value] else top;
      assert (if r.Some? then (log + top) + [r.value] else log + top) == log + more;
      LogOnTop(x, start, log, more, writes[1..]);
    }
  }

  lemma {:induction false} LinesJoin(x: Codec, a: seq<Record>, b: seq<Record>)
    requires AllMarshal(x, a) && AllMarshal(x, b)
    ensures AllMarshal(x, a + b) && Lines(x, a + b) == Lines(x, a) + Lines(x, b)
    decreases |b|
  {
    if b == [] {
      assert a + b == a && Lines(x, a) + [] == Lines(x, a);
    } else {
      var n := |b| - 1;
      LinesJoin(x, a, b[..n]);
      assert (a + b)[..|a| + n] == a + b[..n] && (a + b)[|a| + n] == b[n];
      var l := x.marshal(b[n]).value;
      assert Lines(x, a) + Lines(x, b[..n]) + l + [NL] == Lines(x, a) + (Lines(x, b[..n]) + l + [NL]);
    }
  }

  /** A session on the lines of a log makes them the lines of the log with the new records. */
  lemma SessionExtends(x: Codec, log: seq<Record>, writes: seq<Entry>)
    requires Lawful(x) && AllMarshal(x, log) && AllMarshal(x, LogOf(x, ResumedAt(x, Lines(x, log)), [], writes))
    ensures AllMarshal(x, LogOf(x, "", log, writes))
    ensures Lines(x, log) + Lines(x, LogOf(x, ResumedAt(x, Lines(x, log)), [], writes)) == Lines(x, LogOf(x, "", log, writes))
  {
    hide Lines, LogOf, LastRecord, Lawful, Canon;
    LastOfLines(x, log);
    assert log + [] == log;
    LogOnTop(x, "", log, [], writes);
    LinesJoin(x, log, LogOf(x, EndHash("", log), [], writes));
  }

  /** log is what the writes in kept are stamped to, one after another from an empty file. */
  ghost predicate StampedLog(x: Codec, start: string, kept: seq<Entry>, log: seq<Record>) {
    |log| == |kept| && forall i :: 0 <= i < |kept| ==> Stamped(x, kept[i], EndHash(start, log[..i])) == Some(log[i])
  }

  /** Every write in kept is of a version the reader knows and short enough for it. */
  ghost predicate Readable(x: Codec, kept: seq<Entry>, log: seq<Record>) {
    (forall e :: e in kept ==> e.rec.schemaVersion in {0, CURRENT_SCHEMA}) && forall r :: r in log ==> Short(x, r)
  }

  /**
   * r is what a write comes back as: the caller's fields with version, time, link and hash filled in, raw JSON
   * reformatted at most, and not even that when it is compact already.
   */
  ghost predicate ComesBack(x: Codec, e: Entry, prev: string, r: Record) {
    && Completes(Entry(e.rec.(input := r.input, output := r.output), e.now), prev, r)
    && SameJson(x, e.rec.input, r.input, NULL) && SameJson(x, e.rec.output, r.output, [])
    && (Canonical(x, r.(input := e.rec.input, output := e.rec.output)) ==> (r.input, r.output) == (e.rec.input, e.rec.output))
    && ComputeHash(x, r) == Some(r.hash)
  }

  /** recs gives back the writes in kept, in order, each linked to the one before and the first to start. */
  ghost predicate GivesBack(x: Codec, start: string, kept: seq<Entry>, recs: seq<Record>) {
    |recs| == |kept| && forall i: nat :: i < |kept| ==> ComesBackAt(x, start, kept, recs, i)
  }

  ghost predicate ComesBackAt(x: Codec, start: string, kept: seq<Entry>, recs: seq<Record>, i: nat)
    requires i < |kept| == |recs|
  {
    ComesBack(x, kept[i], if i == 0 then start else recs[i - 1].hash, recs[i])
  }

  lemma CanonComesBack(x: Codec, e: Entry, prev: string)
    requires Lawful(x) && Stamped(x, e, prev).Some?
    ensures ComesBack(x, e, prev, Canon(x, Stamped(x, e, prev).value)) && Canon(x, Stamped(x, e, prev).value).hash == Stamped(x, e, prev).value.hash
  {
    hide Lawful, LawfulLine, Stamped, ComputeHash, DropCR, SameJson;
    StampedCompletes(x, e, prev);
    var r := Stamped(x, e, prev).value;
    assert x.marshal(r).Some? by { StampedMarshals(x, e, prev); }
    LineDecodes(x, r);
    var c := Canon(x, r);
    assert c.(input := e.rec.input, output := e.rec.output) == r;
  }

  lemma StampedMarshals(x: Codec, e: Entry, prev: string)
    requires Stamped(x, e, prev).Some?
    ensures x.marshal(Stamped(x, e, prev).value).Some?
  {
  }

  lemma ReadGivesBack(x: Codec, start: string, kept: seq<Entry>, log: seq<Record>)
    requires Lawful(x) && StampedLog(x, start, kept, log)
    ensures GivesBack(x, start, kept, Read(x, log))
  {
    hide ComesBackAt, Lawful, Stamped, StampedLog;
    StampedLength(x, start, kept, log);
    forall i: nat | i < |kept| ensures ComesBackAt(x, start, kept, Read(x, log), i) {
      ReadComesBack(x, start, kept, log, i);
    }
  }

  lemma StampedLength(x: Codec, start: string, kept: seq<Entry>, log: seq<Record>)
    requires StampedLog(x, start, kept, log)
    ensures |log| == |kept| == |Read(x, log)|
  {
  }

  lemma ReadComesBack(x: Codec, start: string, kept: seq<Entry>, log: seq<Record>, i: nat)
    requires Lawful(x) && StampedLog(x, start, kept, log) && i < |kept|
    ensures |Read(x, log)| == |kept| && ComesBackAt(x, start, kept, Read(x, log), i)
  {
    hide Lawful, Stamped, Canon, ComesBack;
    CanonComesBack(x, kept[i], EndHash(start, log[..i]));
    if i > 0 {
      CanonComesBack(x, kept[i - 1], EndHash(start, log[..i - 1]));
      assert log[..i][i - 1] == log[i - 1];
    }
  }

  lemma StampedLogVersions(x: Codec, start: string, kept: seq<Entry>, log: seq<Record>)
    requires StampedLog(x, start, kept, log)
    ensures (forall r :: r in log ==> r.schemaVersion == CURRENT_SCHEMA)
            <==> forall e :: e in kept ==> e.rec.schemaVersion in {0, CURRENT_SCHEMA}
  {
    hide ComputeHash, EndHash;
    if forall e :: e in kept ==> e.rec.schemaVersion in {0, CURRENT_SCHEMA} {
      forall r | r in log ensures r.schemaVersion == CURRENT_SCHEMA {
        var i :| 0 <= i < |log| && log[i] == r;
        assert kept[i] in kept;
      }
    }
    if forall r :: r in log ==> r.schemaVersion == CURRENT_SCHEMA {
      forall e | e in kept ensures e.rec.schemaVersion in {0, CURRENT_SCHEMA} {
        var i :| 0 <= i < |kept| && kept[i] == e;
        assert log[i] in log;
      }
    }
  }

  /**
   * Writes on a new file, whatever they are: LoadAll gives no error exactly when every write that was not refused had
   * schema version 0 or 1 and no line reached the limit, and it then gives back exactly those writes.
   */
  lemma LoadsWrittenIff(x: Codec, writes: seq<Entry>)
    requires Lawful(x)
    ensures var log, kept := LogOf(x, "", [], writes), Kept(x, writes);
            && AllMarshal(x, log) && StampedLog(x, "", kept, log)
            && var l := LoadAllOf(x, Lines(x, log));
               && (l.err.None? <==> Readable(x, kept, log))
               && (l.err.None? ==> GivesBack(x, "", kept, l.recs))
  {
    hide Lawful, SameRecord, Canonical, LoadAllOf, Lines, Short, Linked, Stamped, EndHash, LogOf, Kept, GivesBack;
    var log, kept := LogOf(x, "", [], writes), Kept(x, writes);
    WritesAreChained(x, "", [], writes);
    LogKeepsWrites(x, "", [], writes);
    ChainedMarshals(x, "", log);
    LoadsIff(x, log);
    StampedLogVersions(x, "", kept, log);
    ReadGivesBack(x, "", kept, log);
  }

  lemma ChainedMarshals(x: Codec, start: string, log: seq<Record>)
    requires Chained(x, start, log)
    ensures AllMarshal(x, log)
  {
  }

  lemma NothingWritten(x: Codec)
    ensures AllMarshal(x, LogOf(x, "", [], [])) && Lines(x, LogOf(x, "", [], [])) == []
  {
  }

  /**
   * Any number of sessions on one file that did not exist before, closed one after another. The first of them creates
   * the file, so LoadAll finds none exactly when there was no session; otherwise it answers as it does for all their
   * writes made in one go.
   */
  method RunSessions(x: Codec, sessions: seq<seq<Op>>) returns (load: Option<Load>)
    requires Lawful(x)
    ensures load.None? <==> sessions == []
    ensures var log, kept := LogOf(x, "", [], AllEntries(sessions)), Kept(x, AllEntries(sessions));
            && StampedLog(x, "", kept, log)
            && (load.Some? ==> (load.value.err.None? <==> Readable(x, kept, log)))
            && (load.Some? && load.value.err.None? ==> GivesBack(x, "", kept, load.value.recs))
  {
    hide Lawful, LawfulLine, Stamped, Canon, LoadAllOf, Readable, GivesBack, Kept, StampedLog, Lines, LogOf, ResumedAt;
    var file: TraceData? := null;
    NothingWritten(x);
    for i := 0 to |sessions|
      invariant file == null <==> i == 0
      invariant file != null ==> fresh(file)
      invariant AllMarshal(x, LogOf(x, "", [], AllEntries(sessions[..i])))
      invariant file != null ==> file.data == Lines(x, LogOf(x, "", [], AllEntries(sessions[..i])))
    {
      if file == null { file := new TraceData(); }
      assert sessions[..i + 1][..i] == sessions[..i];
      LogOfAppend(x, "", [], AllEntries(sessions[..i]), Entries(sessions[i]));
      RunSession(x, file, sessions[i]);
      SessionExtends(x, LogOf(x, "", [], AllEntries(sessions[..i])), Entries(sessions[i]));
    }
    assert sessions[..|sessions|] == sessions;
    LoadsWrittenIff(x, AllEntries(sessions));
    if file == null { return None; }
    var found := LoadAll(x, file.data);
    return Some(found);
  }
}
