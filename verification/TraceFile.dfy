/** The bytes of a trace file: its lines, and the backward scan for the last one. */
module TraceFile {
  import opened Common
  import opened TraceSchema

  // ----- lines

  /** bufio.Scanner's limit on one line. */
  const MAX_LINE := 4 * 1024 * 1024

  /** Where the first newline is; |data| when there is none. */
  function FirstNL(data: seq<byte>): (i: nat)
    ensures i <= |data|
    ensures NL !in data[..i]
    ensures i < |data| ==> data[i] == NL
  {
    if data == [] || data[0] == NL then 0
    else
      var i := FirstNL(data[1..]);
      assert data[..i + 1] == [data[0]] + data[1..][..i];
      i + 1
  }

  /** The lines of a file as the scanner sees them, before a trailing CR is dropped. */
  function Split(data: seq<byte>): seq<seq<byte>>
    decreases |data|
  {
    if data == [] then []
    else
      var i := FirstNL(data);
      [data[..i]] + (if i < |data| then Split(data[i + 1..]) else [])
  }

  function DropCR(line: seq<byte>): seq<byte> {
    if line != [] && line[|line| - 1] == CR then line[..|line| - 1] else line
  }

  /** What the writer puts on disk for stamped records. */
  function Lines(x: Codec, log: seq<Record>): seq<byte>
    requires forall r :: r in log ==> x.marshal(r).Some?
  {
    if log == [] then [] else Lines(x, log[..|log| - 1]) + x.marshal(log[|log| - 1]).value + [NL]
  }

  function Marshaled(x: Codec, log: seq<Record>): seq<seq<byte>>
    requires forall r :: r in log ==> x.marshal(r).Some?
  {
    if log == [] then [] else Marshaled(x, log[..|log| - 1]) + [x.marshal(log[|log| - 1]).value]
  }

  lemma {:induction false} FirstNLAt(a: seq<byte>, b: seq<byte>)
    requires NL !in a
    ensures FirstNL(a + [NL] + b) == |a|
  {
    if a != [] {
      assert (a + [NL] + b)[1..] == a[1..] + [NL] + b;
      FirstNLAt(a[1..], b);
    }
  }

  lemma {:induction false} SplitLine(a: seq<byte>, b: seq<byte>)
    requires NL !in a
    ensures Split(a + [NL] + b) == [a] + Split(b)
  {
    FirstNLAt(a, b);
    var d := a + [NL] + b;
    assert d[..|a|] == a && d[|a| + 1..] == b;
  }

  /** Lines that end in a newline do not run into what follows. */
  lemma {:induction false} SplitAppend(x: Codec, log: seq<Record>, rest: seq<byte>)
    requires forall r :: r in log ==> x.marshal(r).Some? && NL !in x.marshal(r).value
    ensures Split(Lines(x, log) + rest) == Marshaled(x, log) + Split(rest)
    decreases |log|
  {
    if log == [] {
      assert Lines(x, log) + rest == rest;
    } else {
      var n := |log| - 1;
      var b := x.marshal(log[n]).value;
      Regroup(Lines(x, log[..n]), b, [NL], rest);
      SplitAppend(x, log[..n], b + [NL] + rest);
      SplitLine(b, rest);
      Regroup(Marshaled(x, log[..n]), [b], [], Split(rest));
      assert [b] + [] == [b] && Marshaled(x, log[..n]) + [b] + [] == Marshaled(x, log);
    }
  }

  /** A newline at the end keeps what follows apart. */
  lemma {:induction false} SplitAtNewline(pre: seq<byte>, rest: seq<byte>)
    requires pre == [] || pre[|pre| - 1] == NL
    ensures Split(pre + rest) == Split(pre) + Split(rest)
    decreases |pre|
  {
    hide Split;
    if pre == [] {
      SplitNothing();
      assert pre + rest == rest && [] + Split(rest) == Split(rest);
    } else {
      var a, b := FirstCut(pre);
      CutBehind(pre, a, b, rest);
      SplitLine(a, b);
      SplitLine(a, b + rest);
      SplitAtNewline(b, rest);
      assert [a] + (Split(b) + Split(rest)) == ([a] + Split(b)) + Split(rest);
    }
  }

  lemma SplitNothing()
    ensures Split([]) == []
  {
  }

  lemma FirstCut(pre: seq<byte>) returns (a: seq<byte>, b: seq<byte>)
    requires pre != [] && pre[|pre| - 1] == NL
    ensures pre == a + [NL] + b && NL !in a && (b == [] || b[|b| - 1] == NL)
  {
    var i := FirstNL(pre);
    a, b := pre[..i], pre[i + 1..];
    assert pre == a + [NL] + b;
    assert b == [] || b[|b| - 1] == pre[|pre| - 1];
  }

  lemma CutBehind(pre: seq<byte>, a: seq<byte>, b: seq<byte>, rest: seq<byte>)
    requires pre == a + [NL] + b
    ensures pre + rest == a + [NL] + (b + rest)
  {
  }

  /** What stands behind the last newline. */
  lemma {:induction false} LastLine(data: seq<byte>) returns (pre: seq<byte>, last: seq<byte>)
    ensures data == pre + last && NL !in last && (pre == [] || pre[|pre| - 1] == NL)
    decreases |data|
  {
    if data == [] || data[|data| - 1] == NL {
      pre, last := data, [];
    } else {
      var n := |data| - 1;
      pre, last := LastLine(data[..n]);
      last := last + [data[n]];
      assert data == data[..n] + [data[n]];
    }
  }

  // ----- readLastRecord

  /** The last line as the backward scan of readLastRecord finds it: nothing when it is empty. */
  function LastRecord(x: Codec, data: seq<byte>): Option<Record> {
    var lines := Split(data);
    if lines == [] || lines[|lines| - 1] == [] then None else x.unmarshal(lines[|lines| - 1])
  }

  /** The line behind the last newline, or in front of the last one, is the last line. */
  lemma LastSplit(pre: seq<byte>, last: seq<byte>)
    requires NL !in last && (pre == [] || pre[|pre| - 1] == NL)
    ensures last != [] ==> Split(pre + last) == Split(pre) + [last]
    ensures Split(pre + last + [NL]) == Split(pre) + [last]
  {
    hide Split;
    SplitAtNewline(pre, last);
    SplitAtNewline(pre, last + [NL]);
    SplitLine(last, []);
    SplitNothing();
    assert last + [NL] + [] == last + [NL] && [last] + [] == [last] && pre + (last + [NL]) == pre + last + [NL];
    if last != [] { NoNewline(last); }
  }

  lemma {:induction false} NoNewline(a: seq<byte>)
    requires NL !in a && a != []
    ensures Split(a) == [a]
  {
    assert FirstNL(a) == |a|;
    assert a[..|a|] == a;
  }

  /** readLastRecord: the byte-by-byte scan from the end finds the last line; TraceResume says when a reader agrees. */
  method ReadLastRecord(x: Codec, data: seq<byte>) returns (last: Option<Record>)
    ensures last == LastRecord(x, data)
  {
    if |data| == 0 {
      return None;
    }
    var end := |data|;
    if data[end - 1] == NL {
      end := end - 1;
    }
    var start := end;
    while start > 0 && data[start - 1] != NL
      invariant 0 <= start <= end <= |data|
      invariant NL !in data[start..end]
    {
      start := start - 1;
      assert data[start..end] == [data[start]] + data[start + 1..end];
    }
    ScanStopsAtLastLine(x, data, start, end);
    if start == end {
      return None;
    }
    return x.unmarshal(data[start..end]);
  }

  lemma ScanStopsAtLastLine(x: Codec, data: seq<byte>, start: nat, end: nat)
    requires start <= end <= |data| && data != []
    requires if data[|data| - 1] == NL then end == |data| - 1 else end == |data|
    requires NL !in data[start..end] && (start == 0 || data[start - 1] == NL)
    ensures LastRecord(x, data) == if start == end then None else x.unmarshal(data[start..end])
  {
    hide Split, FirstNL;
    var pre, line := data[..start], data[start..end];
    LastSplit(pre, line);
    if end < |data| {
      assert data == pre + line + [NL];
    } else {
      assert data == pre + line;
      assert start < end;
    }
  }
}
