/** The forward reader: Next, All, LoadAll. */
module TraceReader {
  import opened Common
  import opened TraceSchema
  import opened TraceFile

  /** What reading the remaining lines gives: the records up to the first error, and that error. */
  datatype Load = Load(recs: seq<Record>, err: Option<TraceError>)

  function ReadAll(x: Codec, lines: seq<seq<byte>>): Load {
    if lines == [] then Load([], None)
    else if |lines[0]| >= MAX_LINE then Load([], Some(TooLong))
    else if DropCR(lines[0]) == [] then ReadAll(x, lines[1..])
    else
      var r := x.unmarshal(DropCR(lines[0]));
      if r.None? then Load([], Some(UnmarshalFailed))
      else
        var rest := ReadAll(x, lines[1..]);
        Load([r.value] + rest.recs, rest.err)
  }

  function LoadAllOf(x: Codec, data: seq<byte>): Load {
    var all := ReadAll(x, Split(data));
    if all.err.Some? then all else Load(all.recs, VerifyChain(x, all.recs).1)
  }

  /** One line, with or without a CR behind it: too long, blank, not a record, or a record. */
  lemma OneLineReads(x: Codec, text: seq<byte>, line: seq<byte>)
    requires text == [] || text[|text| - 1] != 13
    requires line == text || line == text + [13]
    ensures |line| >= 4194304 ==> ReadAll(x, [line]) == Load([], Some(TooLong))
    ensures |line| < 4194304 && text == [] ==> ReadAll(x, [line]) == Load([], None)
    ensures |line| < 4194304 && text != [] && x.unmarshal(text).None? ==> ReadAll(x, [line]) == Load([], Some(UnmarshalFailed))
    ensures |line| < 4194304 && text != [] && x.unmarshal(text).Some? ==> ReadAll(x, [line]) == Load([x.unmarshal(text).value], None)
  {
    assert DropCR(line) == text;
    assert [line][1..] == [];
  }

  /** One answer of Next: a record, the end, or an error. */
  datatype Item = Got(rec: Record) | End | Bad(err: TraceError)

  /** A cursor over the file; a scanner that met a line too long stops for good. */
  class Reader {
    const codec: Codec
    const data: seq<byte>
    var pos: nat

    ghost predicate Valid()
      reads this
    {
      pos <= |data|
    }

    /** What is still to be read. */
    ghost function Rest(): Load
      reads this
      requires Valid()
    {
      ReadAll(codec, Split(data[pos..]))
    }

    constructor (x: Codec, data: seq<byte>)
      ensures Valid() && codec == x && this.data == data && pos == 0
    {
      codec, this.data, pos := x, data, 0;
    }

    method Next() returns (item: Item)
      requires Valid()
      modifies this`pos
      ensures Valid()
      ensures match item
              case Got(rec) => old(Rest()) == Load([rec] + Rest().recs, Rest().err) && pos > old(pos)
              case End => old(Rest()) == Load([], None)
              case Bad(err) => old(Rest()) == Load([], Some(err))
    {
      while pos < |data|
        invariant Valid() && pos >= old(pos)
        invariant Rest() == old(Rest())
      {
        ghost var rest := data[pos..];
        var n := FirstNL(data[pos..]);
        var line := data[pos..pos + n];
        assert line == rest[..n];
        if |line| >= MAX_LINE {
          return Bad(TooLong);
        }
        pos := if pos + n < |data| then pos + n + 1 else |data|;
        Remaining(rest, n, data[pos..]);
        if DropCR(line) != [] {
          var rec := codec.unmarshal(DropCR(line));
          if rec.None? {
            return Bad(UnmarshalFailed);
          }
          return Got(rec.value);
        }
      }
      return End;
    }

    /** Next until the end or the first error. */
    method All() returns (load: Load)
      requires Valid()
      modifies this`pos
      ensures load == old(Rest())
    {
      hide ReadAll, Split, Rest;
      var out: seq<Record> := [];
      assert [] + Rest().recs == Rest().recs;
      while true
        invariant Valid()
        invariant old(Rest()) == Load(out + Rest().recs, Rest().err)
        decreases |data| - pos
      {
        ghost var before := out;
        var item := Next();
        match item {
          case Got(rec) =>
            out := out + [rec];
            assert before + ([rec] + Rest().recs) == out + Rest().recs;
          case End =>
            assert out + [] == out;
            return Load(out, None);
          case Bad(err) =>
            assert out + [] == out;
            return Load(out, Some(err));
        }
      }
    }
  }

  /** Past the first line and its newline, the other lines remain. */
  lemma Remaining(rest: seq<byte>, n: nat, after: seq<byte>)
    requires rest != [] && n == FirstNL(rest)
    requires after == if n < |rest| then rest[n + 1..] else []
    ensures Split(rest) == [rest[..n]] + Split(after)
  {
    hide FirstNL;
    if n == |rest| { SplitNothing(); }
  }

  /** Open, read all, verify the chain. */
  method LoadAll(x: Codec, data: seq<byte>) returns (load: Load)
    ensures load == LoadAllOf(x, data)
  {
    var r := new Reader(x, data);
    assert data[0..] == data;
    var all := r.All();
    if all.err.Some? {
      return all;
    }
    var v := VerifyChain(x, all.recs);
    return Load(all.recs, v.1);
  }
}
