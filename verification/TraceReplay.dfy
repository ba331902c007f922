/** Replay of a trace in its three modes, over one loop. */
module TraceReplay {
  import opened Common
  import opened TraceSchema

  datatype Mode = Strict | Observe | DryRun

  /** The tools, by call number: a stateful executor may answer the same record differently the next time. */
  type Executor = (nat, Record) -> Result<seq<byte>>

  datatype Entry = Entry(stepId: string, tool: string, matched: bool, diff: Option<(seq<byte>, seq<byte>)>, execErr: Option<Error>, diverged: bool)

  datatype ReplayError = BrokenChain(broken: int, why: TraceError) | ExecFailed(at: nat, cause: Error) | OutputDiverged(at: nat)

  const EXECUTED := "executed"

  predicate EqualNormalized(x: Codec, a: seq<byte>, b: seq<byte>) {
    if a == [] && b == [] then true
    else if x.norm(a).None? || x.norm(b).None? then a == b
    else x.norm(a) == x.norm(b)
  }

  /** The records a replay executes, in order. */
  function Executed(rs: seq<Record>): seq<Record>
    decreases |rs|
  {
    if rs == [] then []
    else
      var last := rs[|rs| - 1];
      Executed(rs[..|rs| - 1]) + (if last.decision == EXECUTED then [last] else [])
  }

  /** The entry for a record that an executor answered. */
  function Compare(x: Codec, r: Record, got: Result<seq<byte>>): Entry {
    match got
    case Err(e) => Entry(r.stepId, r.tool, false, None, Some(e), true)
    case Ok(out) =>
      if EqualNormalized(x, out, r.output) then Entry(r.stepId, r.tool, true, None, None, false)
      else Entry(r.stepId, r.tool, false, Some((r.output, out)), None, true)
  }

  function Unexecuted(r: Record): Entry {
    Entry(r.stepId, r.tool, true, None, None, false)
  }

  /** What observe mode reports for record i, whose call number is the number of executed records before it. */
  function Observed(exec: Executor, x: Codec, rs: seq<Record>, i: nat): Entry
    requires i < |rs|
  {
    if rs[i].decision != EXECUTED then Unexecuted(rs[i])
    else Compare(x, rs[i], exec(|Executed(rs[..i])|, rs[i]))
  }

  function ObserveAll(exec: Executor, x: Codec, rs: seq<Record>): seq<Entry> {
    seq(|rs|, i requires 0 <= i < |rs| => Observed(exec, x, rs, i))
  }

  // ----- what an entry has to say, in the terms of the trace and the executor

  /** The call gave the recorded output: the same bytes, or JSON that means the same. */
  predicate Reproduces(x: Codec, got: Result<seq<byte>>, want: seq<byte>) {
    got.Ok? && (got.value == want || (x.norm(got.value).Some? && x.norm(got.value) == x.norm(want)))
  }

  predicate Passed(r: Record, e: Entry) {
    (e.stepId, e.tool) == (r.stepId, r.tool) && e.matched && e.diff.None? && e.execErr.None? && !e.diverged
  }

  /** The entry matches exactly when the output is reproduced; otherwise it carries both outputs, or the executor's error. */
  predicate Judged(x: Codec, r: Record, got: Result<seq<byte>>, e: Entry) {
    if Reproduces(x, got, r.output) then Passed(r, e)
    else
      && (e.stepId, e.tool) == (r.stepId, r.tool) && !e.matched && e.diverged
      && e.diff == (if got.Ok? then Some((r.output, got.value)) else None)
      && e.execErr == (if got.Err? then Some(got.error) else None)
  }

  /** The call for record i: its number is the number of executed records before it. */
  function Call(exec: Executor, rs: seq<Record>, i: nat): Result<seq<byte>>
    requires i < |rs|
  {
    exec(|Executed(rs[..i])|, rs[i])
  }

  /** e is the right entry for record i. */
  predicate Reports(x: Codec, exec: Executor, rs: seq<Record>, i: nat, e: Entry)
    requires i < |rs|
  {
    if rs[i].decision == "executed" then Judged(x, rs[i], Call(exec, rs, i), e) else Passed(rs[i], e)
  }

  lemma ObservedReports(exec: Executor, x: Codec, rs: seq<Record>)
    ensures |ObserveAll(exec, x, rs)| == |rs|
    ensures forall i :: 0 <= i < |rs| ==> Reports(x, exec, rs, i, ObserveAll(exec, x, rs)[i])
    ensures (forall e :: e in ObserveAll(exec, x, rs) ==> !e.diverged)
            <==> forall i :: 0 <= i < |rs| && rs[i].decision == "executed" ==> Reproduces(x, Call(exec, rs, i), rs[i].output)
  {
    hide Executed;
    var all := ObserveAll(exec, x, rs);
    forall i | 0 <= i < |rs|
      ensures Reports(x, exec, rs, i, all[i])
      ensures !all[i].diverged <==> (rs[i].decision == "executed" ==> Reproduces(x, Call(exec, rs, i), rs[i].output))
    {
    }
    if forall e :: e in all ==> !e.diverged {
      forall i | 0 <= i < |rs| && rs[i].decision == "executed" ensures Reproduces(x, Call(exec, rs, i), rs[i].output) { assert all[i] in all; }
    }
  }

  function IfExecuted(r: Record): seq<Record> {
    if r.decision == "executed" then [r] else []
  }

  lemma ExecutedSnoc(rs: seq<Record>, r: Record)
    ensures Executed(rs + [r]) == Executed(rs) + IfExecuted(r)
    ensures Executed([]) == []
  {
    assert (rs + [r])[..|rs|] == rs;
  }

  /** Executed keeps the executed records of both parts, in order. */
  lemma {:induction false} ExecutedIs(a: seq<Record>, b: seq<Record>, r: Record)
    ensures Executed([r]) == if r.decision == "executed" then [r] else []
    ensures Executed(a + b) == Executed(a) + Executed(b)
    decreases |b|
  {
    hide Executed;
    ExecutedSnoc([], r);
    assert [] + [r] == [r];
    if b == [] {
      assert a + b == a;
    } else {
      var front, last := b[..|b| - 1], b[|b| - 1];
      ExecutedIs(a, front, r);
      LastApart(a, b);
      ExecutedSnoc(a + front, last);
      ExecutedSnoc(front, last);
      Reassociate(Executed(a), Executed(front), IfExecuted(last));
    }
  }

  /** A diverged entry says how its call went. */
  lemma DivergedSays(x: Codec, exec: Executor, rs: seq<Record>, i: nat, e: Entry)
    requires i < |rs| && Reports(x, exec, rs, i, e) && e.diverged
    ensures StrictError(e, i) == if Call(exec, rs, i).Err? then ExecFailed(i, Call(exec, rs, i).error) else OutputDiverged(i)
    ensures rs[i].decision == "executed" && !Reproduces(x, Call(exec, rs, i), rs[i].output)
  {
  }

  lemma SkippedPasses(r: Record)
    ensures Passed(r, Unexecuted(r))
  {
  }

  /** The entries up to and including the first that diverged. */
  function Cut(es: seq<Entry>): (c: seq<Entry>)
    ensures c <= es
    ensures forall i :: 0 <= i < |c| - 1 ==> !c[i].diverged
    ensures |c| < |es| ==> c != [] && c[|c| - 1].diverged
  {
    if es == [] then [] else if es[0].diverged then [es[0]] else [es[0]] + Cut(es[1..])
  }

  /** The error strict mode returns for the diverged entry at index i. */
  function StrictError(e: Entry, i: nat): ReplayError {
    if e.execErr.Some? then ExecFailed(i, e.execErr.value) else OutputDiverged(i)
  }

  /**
   * Nothing is executed on a broken chain or in a dry run. Strict mode reports what observe mode reports, cut just
   * after the first diverged entry; it returns nil exactly when every executed record's call reproduces the recorded
   * output, and otherwise says at which record it did not. Observe always returns nil. The executor sees exactly the
   * executed records of the part reported on, once each and in order.
   */
  method Replay(x: Codec, records: seq<Record>, exec: Executor, mode: Mode)
    returns (results: seq<Entry>, err: Option<ReplayError>, calls: seq<Record>)
    ensures !Intact(x, records) ==>
              results == [] && calls == []
              && err == Some(BrokenChain(VerifyChain(x, records).0, VerifyChain(x, records).1.value))
    ensures Intact(x, records) && mode == DryRun ==>
              err.None? && calls == [] && |results| == |records| && forall i :: 0 <= i < |records| ==> Passed(records[i], results[i])
    ensures Intact(x, records) && mode == Observe ==>
              err.None? && |results| == |records| && calls == Executed(records) && results == ObserveAll(exec, x, records)
    ensures Intact(x, records) && mode == Strict ==>
              && results == Cut(ObserveAll(exec, x, records))
              && calls == Executed(records[..|results|])
              && (err.None? <==> forall i :: 0 <= i < |records| && records[i].decision == "executed" ==>
                                   Reproduces(x, Call(exec, records, i), records[i].output))
    ensures Intact(x, records) && mode != DryRun ==>
              |results| <= |records| && forall i :: 0 <= i < |results| ==> Reports(x, exec, records, i, results[i])
    ensures Intact(x, records) && err.Some? ==>
              && mode == Strict && results != []
              && var last := |results| - 1;
                 && results[last].diverged && (forall i :: 0 <= i < last ==> !results[i].diverged)
                 && var got := Call(exec, records, last);
                    err.value == if got.Err? then ExecFailed(last, got.error) else OutputDiverged(last)
  {
    hide Compare, Unexecuted, VerifyChain, Cut, EqualNormalized, ObserveAll, Observed, Executed, Reproduces, Passed, Call, Reports;
    hide StrictError;
    results, err, calls := [], None, [];
    var v := VerifyChain(x, records);
    if v.1.Some? {
      return [], Some(BrokenChain(v.0, v.1.value)), [];
    }
    ghost var all := ObserveAll(exec, x, records);
    NothingObserved(exec, x, records);
    ObservedReports(exec, x, records);
    for i := 0 to |records|
      invariant |results| == i && err.None?
      invariant mode == DryRun ==> calls == [] && forall j :: 0 <= j < i ==> Passed(records[j], results[j])
      invariant mode != DryRun ==> results == all[..i] && calls == Executed(records[..i])
      invariant mode == Strict ==> forall j :: 0 <= j < i ==> !all[j].diverged
    {
      var rec := records[i];
      ObserveStep(exec, x, records, i);
      if mode == DryRun || rec.decision != EXECUTED {
        SkippedPasses(rec);
        results := results + [Unexecuted(rec)];
        continue;
      }
      var got := exec(|calls|, rec);
      calls := calls + [rec];
      var entry := Compare(x, rec, got);
      results := results + [entry];
      if mode == Strict && entry.diverged {
        CutAt(all, i);
        DivergedSays(x, exec, records, i, all[i]);
        return results, Some(StrictError(entry, i)), calls;
      }
    }
    assert records[..|records|] == records && all[..|records|] == all;
    if mode == Strict {
      CutNothing(all);
    }
  }

  lemma NothingObserved(exec: Executor, x: Codec, rs: seq<Record>)
    ensures |ObserveAll(exec, x, rs)| == |rs| && Executed(rs[..0]) == []
  {
  }

  /** One record more: what observe mode reports so far, and what it has executed. */
  lemma ObserveStep(exec: Executor, x: Codec, rs: seq<Record>, i: nat)
    requires i < |rs|
    ensures var all := ObserveAll(exec, x, rs);
            && |all| == |rs| && all[..i + 1] == all[..i] + [all[i]]
            && all[i] == (if rs[i].decision != EXECUTED then Unexecuted(rs[i])
                          else Compare(x, rs[i], exec(|Executed(rs[..i])|, rs[i])))
            && (rs[i].decision != EXECUTED ==> !all[i].diverged)
    ensures Executed(rs[..i + 1]) == Executed(rs[..i]) + (if rs[i].decision == EXECUTED then [rs[i]] else [])
  {
    hide Compare;
    assert rs[..i + 1][..i] == rs[..i];
  }

  lemma {:induction false} CutAt(es: seq<Entry>, i: nat)
    requires i < |es| && es[i].diverged && forall j :: 0 <= j < i ==> !es[j].diverged
    ensures Cut(es) == es[..i + 1]
  {
    if i > 0 {
      CutAt(es[1..], i - 1);
    }
  }

  lemma {:induction false} CutNothing(es: seq<Entry>)
    requires forall j :: 0 <= j < |es| ==> !es[j].diverged
    ensures Cut(es) == es
  {
    if es != [] {
      CutNothing(es[1..]);
    }
  }

  /** Observe mode is documented to return an error when a call fails: it does as documented exactly when none fails. */
  lemma ObserveAsDocumentedIff(exec: Executor, x: Codec, rs: seq<Record>)
    ensures (forall e :: e in ObserveAll(exec, x, rs) ==> e.execErr.None?)
            <==> forall i :: 0 <= i < |rs| && rs[i].decision == EXECUTED ==> exec(|Executed(rs[..i])|, rs[i]).Ok?
  {
    hide EqualNormalized, Executed;
    var all := ObserveAll(exec, x, rs);
    forall i | 0 <= i < |rs|
      ensures all[i].execErr.None? <==> (rs[i].decision == EXECUTED ==> exec(|Executed(rs[..i])|, rs[i]).Ok?)
    {
    }
    if forall e :: e in all ==> e.execErr.None? {
      forall i | 0 <= i < |rs| && rs[i].decision == EXECUTED ensures exec(|Executed(rs[..i])|, rs[i]).Ok? { assert all[i] in all; }
    }
  }
}
