/** When the backward scan of the writer and the forward reader agree on the last record, and what happens when not. */
module TraceResume {
  import opened Common
  import opened TraceSchema
  import opened TraceFile
  import opened TraceReader
  import opened TraceWriter

  function LastOf(rs: seq<Record>): Option<Record> {
    if rs == [] then None else Some(rs[|rs| - 1])
  }

  /** Reading stops at the first error; up to there it is line by line. */
  lemma {:induction false} ReadAllInParts(x: Codec, a: seq<seq<byte>>, b: seq<seq<byte>>)
    ensures ReadAll(x, a + b)
            == if ReadAll(x, a).err.Some? then ReadAll(x, a)
               else Load(ReadAll(x, a).recs + ReadAll(x, b).recs, ReadAll(x, b).err)
  {
    hide ReadAll;
    if a == [] {
      assert a + b == b;
      NothingToRead(x);
      assert [] + ReadAll(x, b).recs == ReadAll(x, b).recs;
    } else {
      ReadAllInParts(x, a[1..], b);
      assert (a + b)[1..] == a[1..] + b;
      ReadAllFirst(x, a);
      ReadAllFirst(x, a + b);
      Reassociate(FirstRead(x, a[0]).recs, ReadAll(x, a[1..]).recs, ReadAll(x, b).recs);
    }
  }

  /** One line as the reader takes it. */
  function FirstRead(x: Codec, line: seq<byte>): Load {
    if |line| >= MAX_LINE then Load([], Some(TooLong))
    else if DropCR(line) == [] then Load([], None)
    else if x.unmarshal(DropCR(line)).None? then Load([], Some(UnmarshalFailed))
    else Load([x.unmarshal(DropCR(line)).value], None)
  }

  lemma ReadAllFirst(x: Codec, lines: seq<seq<byte>>)
    requires lines != []
    ensures var first, rest := FirstRead(x, lines[0]), ReadAll(x, lines[1..]);
            ReadAll(x, lines) == if first.err.Some? then first else Load(first.recs + rest.recs, rest.err)
  {
    hide DropCR;
  }

  lemma OneLine(x: Codec, line: seq<byte>)
    ensures ReadAll(x, [line]) == FirstRead(x, line)
  {
    assert [line][1..] == [];
  }

  lemma CRIsNothing(x: Codec, line: seq<byte>)
    requires Lawful(x)
    ensures x.unmarshal(line) == x.unmarshal(DropCR(line))
    ensures DropCR(line) == [] ==> x.unmarshal(line).None?
  {
    if line != [] && line[|line| - 1] == CR {
      assert line == line[..|line| - 1] + [CR];
    }
  }

  /**
   * On a file that reads without error, readLastRecord finds the reader's last record exactly when the last line is not
   * blank, or when there is no record at all.
   */
  lemma ScanAgreesIff(x: Codec, data: seq<byte>)
    requires Lawful(x) && ReadAll(x, Split(data)).err.None?
    ensures LastRecord(x, data) == LastOf(ReadAll(x, Split(data)).recs)
            <==> ReadAll(x, Split(data)).recs == [] || DropCR(Split(data)[|Split(data)| - 1]) != []
  {
    hide Lawful, Split, ReadAll, DropCR;
    var lines := Split(data);
    if lines == [] {
      NothingToRead(x);
    } else {
      var front, last := lines[..|lines| - 1], lines[|lines| - 1];
      assert lines == front + [last];
      ReadAllInParts(x, front, [last]);
      OneLine(x, last);
      CRIsNothing(x, last);
      DropCRShortens(last);
    }
  }

  lemma DropCRShortens(line: seq<byte>)
    ensures DropCR(line) != [] ==> line != []
  {
  }

  lemma ReadRecordLine(x: Codec, r: Record)
    requires Lawful(x) && Short(x, r)
    ensures ReadAll(x, [x.marshal(r).value]) == Load([Canon(x, r)], None)
  {
    hide Lawful, Canon, SameRecord, DropCR;
    OneLine(x, x.marshal(r).value);
    LineDecodes(x, r);
  }

  /** The lines of a record, a blank line, and whatever follows. */
  lemma BlankLineSplits(x: Codec, r: Record, rest: seq<byte>)
    requires Lawful(x) && x.marshal(r).Some?
    ensures Split(x.marshal(r).value + [NL] + ([NL] + rest)) == [x.marshal(r).value] + ([[]] + Split(rest))
  {
    hide Split, Canon;
    assert LawfulLine(x, r);
    SplitLine(x.marshal(r).value, [NL] + rest);
    assert [NL] + rest == [] + [NL] + rest;
    SplitLine([], rest);
  }

  /** One blank line at the end is enough: the reader still finds the record, the scan finds nothing. */
  lemma ScanMissesBehindBlankLine(x: Codec, r: Record)
    requires Lawful(x) && Short(x, r)
    ensures LastRecord(x, x.marshal(r).value + [NL] + [NL]).None?
    ensures ReadAll(x, Split(x.marshal(r).value + [NL] + [NL])) == Load([Canon(x, r)], None)
  {
    hide Lawful, Split, ReadAll, Canon, DropCR;
    var b := x.marshal(r).value;
    BlankLineSplits(x, r, []);
    assert [NL] + [] == [NL];
    SplitNothing();
    assert [b] + ([[]] + []) == [b] + [[]];
    ReadAllInParts(x, [b], [[]]);
    ReadRecordLine(x, r);
    BlankLine(x);
    assert [Canon(x, r)] + [] == [Canon(x, r)];
  }

  lemma BlankLine(x: Codec)
    ensures ReadAll(x, [[]]) == Load([], None)
  {
    OneLine(x, []);
  }

  /** A session opened on such a file starts the chain anew, and the file no longer verifies. */
  lemma BlankLineBreaksChain(x: Codec, first: Entry, next: Entry)
    requires Lawful(x) && Stamped(x, first, "").Some? && Stamped(x, next, "").Some?
    requires Short(x, Stamped(x, first, "").value) && Short(x, Stamped(x, next, "").value)
    requires first.rec.schemaVersion in {0, CURRENT_SCHEMA} && next.rec.schemaVersion in {0, CURRENT_SCHEMA}
    ensures var r, q := Stamped(x, first, "").value, Stamped(x, next, "").value;
            LoadAllOf(x, x.marshal(r).value + [NL] + ([NL] + (x.marshal(q).value + [NL] + [])))
            == Load([Canon(x, r), Canon(x, q)], Some(ChainBroken))
  {
    hide Lawful, Split, ReadAll, Canon, DropCR, VerifyChain, SameRecord;
    var r, q := Stamped(x, first, "").value, Stamped(x, next, "").value;
    var b, d := x.marshal(r).value, x.marshal(q).value;
    RestartIsBroken(x, first, next);
    BlankLineSplits(x, r, d + [NL] + []);
    LinesHaveNoNewline(x, [q]);
    assert q in [q];
    SplitLine(d, []);
    SplitNothing();
    assert [d] + [] == [d];
    ReadAllInParts(x, [b], [[]] + [d]);
    ReadAllInParts(x, [[]], [d]);
    ReadRecordLine(x, r);
    ReadRecordLine(x, q);
    BlankLine(x);
    assert [] + [Canon(x, q)] == [Canon(x, q)];
    assert [Canon(x, r)] + [Canon(x, q)] == [Canon(x, r), Canon(x, q)];
  }

  lemma RestartIsBroken(x: Codec, first: Entry, next: Entry)
    requires Lawful(x) && Stamped(x, first, "").Some? && Stamped(x, next, "").Some?
    requires first.rec.schemaVersion in {0, CURRENT_SCHEMA} && next.rec.schemaVersion in {0, CURRENT_SCHEMA}
    ensures var r, q := Stamped(x, first, "").value, Stamped(x, next, "").value;
            VerifyChain(x, [Canon(x, r), Canon(x, q)]).1 == Some(ChainBroken)
  {
    hide Canon, VerifyChain;
    var r, q := Stamped(x, first, "").value, Stamped(x, next, "").value;
    var rs := [Canon(x, r), Canon(x, q)];
    LineDecodes(x, r);
    LineDecodes(x, q);
    assert Check(x, rs, 0).None?;
    assert Check(x, rs, 1) == Some(ChainBroken);
    var v := VerifyChain(x, rs);
  }

  // ----- a session on a file that loads

  /** The file ends in a newline and its last line is not blank. */
  predicate EndsWell(data: seq<byte>) {
    data != [] && data[|data| - 1] == NL && Split(data) != [] && DropCR(Split(data)[|Split(data)| - 1]) != []
  }

  lemma NewLinesRead(x: Codec, new_: seq<Record>)
    requires Lawful(x) && AllMarshal(x, new_) && forall r :: r in new_ ==> Short(x, r)
    ensures ReadAll(x, Split(Lines(x, new_))) == Load(Read(x, new_), None)
  {
    hide Lawful, Canon, Split, ReadAll, Short;
    LinesHaveNoNewline(x, new_);
    SplitAppend(x, new_, []);
    assert Lines(x, new_) + [] == Lines(x, new_);
    SplitNothing();
    ReadBack(x, new_, []);
    NothingToRead(x);
    assert Read(x, new_) + [] == Read(x, new_);
  }

  /** Records chained from start continue an intact trace exactly when it ends in start. */
  lemma ChainExtends(x: Codec, rs: seq<Record>, start: string, new_: seq<Record>)
    requires Lawful(x) && Intact(x, rs) && rs != [] && new_ != [] && Chained(x, start, new_)
    requires forall r :: r in new_ ==> r.schemaVersion == CURRENT_SCHEMA
    ensures Intact(x, rs + Read(x, new_)) <==> rs[|rs| - 1].hash == start
  {
    hide Lawful, Canon, Check, Chained, Read;
    var all := rs + Read(x, new_);
    ReadLength(x, new_);
    forall i | 0 <= i < |rs| ensures Check(x, all, i).None? { OldCheck(x, rs, Read(x, new_), i); }
    forall j | |rs| <= j < |all| ensures Check(x, all, j).None? <==> j > |rs| || rs[|rs| - 1].hash == start {
      NewCheck(x, rs, start, new_, j);
    }
    assert Intact(x, all) ==> Check(x, all, |rs|).None?;
  }

  lemma ReadLength(x: Codec, log: seq<Record>)
    ensures |Read(x, log)| == |log|
  {
  }

  lemma OldCheck(x: Codec, rs: seq<Record>, more: seq<Record>, i: nat)
    requires Intact(x, rs) && i < |rs|
    ensures Check(x, rs + more, i).None?
  {
    assert Check(x, rs, i).None?;
  }

  lemma NewCheck(x: Codec, rs: seq<Record>, start: string, new_: seq<Record>, j: nat)
    requires Lawful(x) && rs != [] && Chained(x, start, new_) && |rs| <= j < |rs| + |new_|
    requires forall r :: r in new_ ==> r.schemaVersion == CURRENT_SCHEMA
    ensures Check(x, rs + Read(x, new_), j).None? <==> j > |rs| || rs[|rs| - 1].hash == start
  {
    hide Lawful, LawfulLine, Canon;
    var i := j - |rs|;
    assert new_[i] in new_;
    LineDecodes(x, new_[i]);
    if i > 0 { LineDecodes(x, new_[i - 1]); }
  }

  lemma IntactHasHashes(x: Codec, rs: seq<Record>)
    requires Lawful(x) && Intact(x, rs) && rs != []
    ensures rs[|rs| - 1].hash != ""
  {
    assert Check(x, rs, |rs| - 1).None?;
  }

  /** The new lines behind a newline. */
  lemma BehindNewline(x: Codec, data: seq<byte>, new_: seq<Record>)
    requires Lawful(x) && AllMarshal(x, new_) && (forall r :: r in new_ ==> Short(x, r))
    requires data != [] && data[|data| - 1] == NL && ReadAll(x, Split(data)).err.None?
    ensures ReadAll(x, Split(data + Lines(x, new_))) == Load(ReadAll(x, Split(data)).recs + Read(x, new_), None)
  {
    hide Lawful, Split, ReadAll, Lines, Canon, Short;
    SplitAtNewline(data, Lines(x, new_));
    ReadAllInParts(x, Split(data), Split(Lines(x, new_)));
    NewLinesRead(x, new_);
  }

  /** Without a newline the first new line is glued to the last old one. */
  lemma GluedSplits(x: Codec, pre: seq<byte>, last: seq<byte>, new_: seq<Record>)
    requires Lawful(x) && AllMarshal(x, new_) && new_ != [] && NL !in last && last != [] && (pre == [] || pre[|pre| - 1] == NL)
    ensures Split(pre + last) == Split(pre) + [last]
    ensures Split(pre + last + Lines(x, new_))
            == Split(pre) + ([last + x.marshal(new_[0]).value] + Split(Lines(x, new_[1..])))
  {
    hide Lawful, Split, Lines;
    var b, rest := x.marshal(new_[0]).value, Lines(x, new_[1..]);
    SplitAtNewline(pre, last);
    NoNewline(last);
    FirstLineOf(x, new_);
    Glue(pre, last, b, rest);
    SplitAtNewline(pre, (last + b) + [NL] + rest);
    SplitLine(last + b, rest);
  }

  lemma Glue(pre: seq<byte>, last: seq<byte>, b: seq<byte>, rest: seq<byte>)
    ensures pre + last + (b + [NL] + rest) == pre + ((last + b) + [NL] + rest)
  {
  }

  lemma FirstLineOf(x: Codec, new_: seq<Record>)
    requires Lawful(x) && AllMarshal(x, new_) && new_ != []
    ensures Lines(x, new_) == x.marshal(new_[0]).value + [NL] + Lines(x, new_[1..])
    ensures NL !in x.marshal(new_[0]).value
  {
    hide Lawful, Lines;
    assert new_ == [new_[0]] + new_[1..];
    LinesJoin(x, [new_[0]], new_[1..]);
    OneRecordLines(x, new_[0]);
    LinesHaveNoNewline(x, new_);
    assert new_[0] in new_;
  }

  lemma OneRecordLines(x: Codec, r: Record)
    requires x.marshal(r).Some?
    ensures AllMarshal(x, [r]) && Lines(x, [r]) == x.marshal(r).value + [NL]
  {
    assert [r][..0] == [];
    assert Lines(x, []) + x.marshal(r).value == x.marshal(r).value;
  }

  /** What is read of a line with a record glued to it. */
  lemma GluedLine(x: Codec, last: seq<byte>, r: Record)
    requires Lawful(x) && x.marshal(r).Some? && last != []
    requires FirstRead(x, last).err.None?
    ensures var f := FirstRead(x, last + x.marshal(r).value);
            if DropCR(last) != [] then f.err.Some? else f.err.Some? || f == Load([Canon(x, r)], None)
  {
    hide Lawful, Canon, SameRecord;
    var b := x.marshal(r).value;
    LineDecodes(x, r);
    CRIsNothing(x, last);
    NoTrailingCR(last, b);
    if DropCR(last) != [] {
      TwoInARow(x, last, b);
    } else {
      assert last == [CR];
      TwoInARow(x, last, b);
    }
  }

  lemma NoTrailingCR(a: seq<byte>, b: seq<byte>)
    requires b != [] && DropCR(b) == b
    ensures DropCR(a + b) == a + b
  {
    assert (a + b)[|a + b| - 1] == b[|b| - 1];
  }

  lemma TwoInARow(x: Codec, a: seq<byte>, b: seq<byte>)
    requires Lawful(x)
    ensures x.unmarshal(a).Some? && x.unmarshal(b).Some? ==> x.unmarshal(a + b).None?
    ensures a == [CR] ==> x.unmarshal(a + b) == x.unmarshal(b)
  {
  }

  lemma ReadFirst(x: Codec, new_: seq<Record>)
    requires new_ != []
    ensures Read(x, new_) == [Canon(x, new_[0])] + Read(x, new_[1..])
  {
  }

  /** Behind a blank last line the writer resumes nowhere. */
  lemma BlankResumesNowhere(x: Codec, data: seq<byte>)
    requires Lawful(x) && Split(data) != [] && DropCR(Split(data)[|Split(data)| - 1]) == []
    ensures ResumedAt(x, data) == ""
  {
    hide Split, DropCR, Lawful;
    CRIsNothing(x, Split(data)[|Split(data)| - 1]);
  }

  lemma BlankReads(x: Codec, line: seq<byte>)
    requires DropCR(line) == [] && FirstRead(x, line).err.None?
    ensures FirstRead(x, line) == Load([], None)
  {
  }

  /** The lines of data, which ends in last, and of data with a record and more glued to it. */
  lemma GluedReads(x: Codec, pre: seq<byte>, last: seq<byte>, new_: seq<Record>)
    requires Lawful(x) && AllMarshal(x, new_) && new_ != [] && NL !in last && last != [] && (pre == [] || pre[|pre| - 1] == NL)
    requires (forall r :: r in new_ ==> Short(x, r)) && ReadAll(x, Split(pre + last)).err.None?
    ensures ReadAll(x, Split(pre)).err.None? && FirstRead(x, last).err.None?
    ensures ReadAll(x, Split(pre + last)).recs == ReadAll(x, Split(pre)).recs + FirstRead(x, last).recs
    ensures var glued, all := FirstRead(x, last + x.marshal(new_[0]).value), ReadAll(x, Split(pre + last + Lines(x, new_)));
            if glued.err.Some? then all.err.Some?
            else all == Load(ReadAll(x, Split(pre)).recs + (glued.recs + Read(x, new_[1..])), None)
  {
    hide Lawful, Split, ReadAll, Lines, FirstRead, Short, Read;
    GluedSplits(x, pre, last, new_);
    var line, rest := last + x.marshal(new_[0]).value, Split(Lines(x, new_[1..]));
    ReadAllInParts(x, Split(pre), [last]);
    OneLine(x, last);
    ReadAllInParts(x, Split(pre), [line] + rest);
    ReadAllInParts(x, [line], rest);
    OneLine(x, line);
    NewLinesRead(x, new_[1..]);
  }

  /** Glued lines: not readable, or, behind a lone CR, read as records that do not continue the chain. */
  lemma GluedFails(x: Codec, data: seq<byte>, new_: seq<Record>)
    requires Lawful(x) && Chained(x, ResumedAt(x, data), new_) && new_ != [] && (forall r :: r in new_ ==> Short(x, r))
    requires forall r :: r in new_ ==> r.schemaVersion == CURRENT_SCHEMA
    requires data != [] && data[|data| - 1] != NL && LoadAllOf(x, data).err.None? && LoadAllOf(x, data).recs != []
    ensures AllMarshal(x, new_) && LoadAllOf(x, data + Lines(x, new_)).err.Some?
  {
    hide Lawful, Split, ReadAll, Lines, Canon, DropCR, FirstRead, VerifyChain, LastRecord, ResumedAt, Chained, Short, Intact, Read;
    ChainedMarshals(x, ResumedAt(x, data), new_);
    var pre, last := LastLine(data);
    assert last != [];
    var recs := ReadAll(x, Split(data)).recs;
    GluedReads(x, pre, last, new_);
    GluedLine(x, last, new_[0]);
    if FirstRead(x, last + x.marshal(new_[0]).value).err.None? {
      BlankReads(x, last);
      GluedSplits(x, pre, last, new_);
      BlankResumesNowhere(x, data);
      ReadFirst(x, new_);
      assert ReadAll(x, Split(pre)).recs + [] == ReadAll(x, Split(pre)).recs;
      ChainExtends(x, recs, "", new_);
      IntactHasHashes(x, recs);
    }
  }

  /** Lines behind a newline are read, and continue the chain exactly when the last old line is not blank. */
  lemma BehindNewlineIff(x: Codec, data: seq<byte>, new_: seq<Record>)
    requires Lawful(x) && Chained(x, ResumedAt(x, data), new_) && new_ != [] && (forall r :: r in new_ ==> Short(x, r))
    requires forall r :: r in new_ ==> r.schemaVersion == CURRENT_SCHEMA
    requires data != [] && data[|data| - 1] == NL && LoadAllOf(x, data).err.None? && LoadAllOf(x, data).recs != []
    ensures AllMarshal(x, new_) && LoadAllOf(x, data + Lines(x, new_)).recs == LoadAllOf(x, data).recs + Read(x, new_)
    ensures LoadAllOf(x, data + Lines(x, new_)).err.None? <==> EndsWell(data)
  {
    hide Lawful, Split, ReadAll, Lines, Canon, DropCR, VerifyChain, LastRecord, Chained, Short, Intact, Read;
    ChainedMarshals(x, ResumedAt(x, data), new_);
    var recs := ReadAll(x, Split(data)).recs;
    BehindNewline(x, data, new_);
    ChainExtends(x, recs, ResumedAt(x, data), new_);
    IntactHasHashes(x, recs);
    ScanAgreesIff(x, data);
    if Split(data) == [] {
      NothingToRead(x);
    } else if !EndsWell(data) {
      BlankResumesNowhere(x, data);
    }
  }

  lemma {:induction false} VersionsKept(x: Codec, start: string, writes: seq<Entry>)
    requires Lawful(x) && Readable(x, Kept(x, writes), LogOf(x, start, [], writes))
    ensures Chained(x, start, LogOf(x, start, [], writes))
    ensures forall r :: r in LogOf(x, start, [], writes) ==> r.schemaVersion == CURRENT_SCHEMA && Short(x, r)
  {
    hide Lawful, Stamped, Short, LogOf, Kept;
    WritesAreChained(x, start, [], writes);
    LogKeepsWrites(x, start, [], writes);
    StampedLogVersions(x, start, Kept(x, writes), LogOf(x, start, [], writes));
  }

  /**
   * A session that keeps at least one write, of known version and short enough, on any file that LoadAll accepts with at
   * least one record: LoadAll accepts the file afterwards exactly when it ended in a newline and its last line was not
   * blank. It then gives the old records and gives back the new writes, linked to the last old record.
   */
  lemma SessionLoadsIff(x: Codec, data: seq<byte>, writes: seq<Entry>)
    requires Lawful(x) && LoadAllOf(x, data).err.None? && LoadAllOf(x, data).recs != []
    requires var new_ := LogOf(x, ResumedAt(x, data), [], writes); new_ != [] && Readable(x, Kept(x, writes), new_)
    ensures var new_ := LogOf(x, ResumedAt(x, data), [], writes);
            && AllMarshal(x, new_)
            && var l := LoadAllOf(x, data + Lines(x, new_));
               && (l.err.None? <==> EndsWell(data))
               && (l.err.None? ==> l.recs == LoadAllOf(x, data).recs + Read(x, new_))
    ensures GivesBack(x, ResumedAt(x, data), Kept(x, writes), Read(x, LogOf(x, ResumedAt(x, data), [], writes)))
    ensures EndsWell(data) ==> ResumedAt(x, data) == LoadAllOf(x, data).recs[|LoadAllOf(x, data).recs| - 1].hash
  {
    hide GivesBack, StampedLog, Lawful, LogOf, Kept, Readable, LoadAllOf, LastRecord, ResumedAt, Short, Read, Chained, Lines, Split;
    var new_ := LogOf(x, ResumedAt(x, data), [], writes);
    VersionsKept(x, ResumedAt(x, data), writes);
    KeptIsStamped(x, ResumedAt(x, data), writes);
    ReadGivesBack(x, ResumedAt(x, data), Kept(x, writes), new_);
    HasBytes(x, data);
    if EndsWell(data) { ResumesAtTheEnd(x, data); }
    if data[|data| - 1] == NL {
      BehindNewlineIff(x, data, new_);
    } else {
      GluedFails(x, data, new_);
    }
  }

  lemma ResumesAtTheEnd(x: Codec, data: seq<byte>)
    requires Lawful(x) && LoadAllOf(x, data).err.None? && LoadAllOf(x, data).recs != [] && EndsWell(data)
    ensures ResumedAt(x, data) == LoadAllOf(x, data).recs[|LoadAllOf(x, data).recs| - 1].hash
  {
    hide Lawful, Split, ReadAll, VerifyChain, LastRecord;
    ScanAgreesIff(x, data);
  }

  lemma KeptIsStamped(x: Codec, start: string, writes: seq<Entry>)
    requires Lawful(x)
    ensures StampedLog(x, start, Kept(x, writes), LogOf(x, start, [], writes))
  {
    hide Lawful, Stamped, LogOf, Kept;
    LogKeepsWrites(x, start, [], writes);
  }

  lemma HasBytes(x: Codec, data: seq<byte>)
    requires LoadAllOf(x, data).recs != []
    ensures data != []
  {
  }
}
