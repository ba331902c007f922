/** redactDeferredSecrets on one string: two loops that rewrite the string until no marker of their kind is closed. */
module Redaction {
  import opened Common
  import opened Text

  const REDACTED := "<REDACTED>"
  const VAULT := "<VAULT:"
  const SSH_KEY := "<GEN_SSH_KEY:"

  /** A prefix that the replacement cannot produce or complete. */
  predicate Marker(p: string) {
    |p| >= 2 && p[0] == '<' && p[1] != 'R' && forall i :: 1 <= i < |p| ==> p[i] != '<' && p[i] != '>'
  }

  /** A marker of this kind with a '>' somewhere behind it. */
  ghost predicate Closed(p: string, s: string) {
    exists i: nat, j: nat :: OccursAt(s, p, i) && i < j < |s| && s[j] == '>'
  }

  /** Where the first marker that the loop replaces starts and where the rest begins; (-1, 0) when there is none. */
  function FirstSpan(p: string, s: string): (int, nat) {
    var i := Index(s, p);
    if i < 0 then (-1, 0)
    else
      var j := Index(s[i..], ">");
      if j < 0 then (-1, 0) else (i, i + j + 1)
  }

  lemma IndexOfClosing(s: string, i: nat)
    requires i <= |s|
    ensures var j := Index(s[i..], ">");
            if j < 0 then forall k :: i <= k < |s| ==> s[k] != '>'
            else i + j < |s| && s[i + j] == '>' && forall k :: i <= k < i + j ==> s[k] != '>'
  {
    var t := s[i..];
    var j := Index(t, ">");
    forall k | i <= k < |s| && (j < 0 || k < i + j) ensures s[k] != '>' {
      assert !OccursAt(t, ">", k - i);
      assert t[k - i..k - i + 1] == [s[k]];
    }
    if j >= 0 {
      assert t[j..j + 1] == [s[i + j]];
    }
  }

  lemma MarkerChars(p: string, s: string, i: nat)
    requires Marker(p) && OccursAt(s, p, i)
    ensures s[i] == '<' && s[i + 1] != 'R' && forall k :: i < k < i + |p| ==> s[k] != '<' && s[k] != '>'
  {
    var t := s[i..i + |p|];
    assert t[0] == s[i] && t[1] == s[i + 1];
    forall k | i < k < i + |p| ensures s[k] != '<' && s[k] != '>' {
      assert t[k - i] == s[k];
    }
  }

  lemma FirstSpanIs(p: string, s: string)
    requires Marker(p)
    ensures var r := FirstSpan(p, s);
            && (r.0 == -1 <==> !Closed(p, s))
            && (r.0 != -1 ==>
                  && 0 <= r.0 && r.0 + |p| < r.1 <= |s| && OccursAt(s, p, r.0) && s[r.1 - 1] == '>'
                  && (forall k :: r.0 <= k < r.1 - 1 ==> s[k] != '>')
                  && (forall k: nat :: k < r.0 ==> !OccursAt(s, p, k)))
  {
    var i := Index(s, p);
    if i >= 0 {
      IndexOfClosing(s, i);
      MarkerChars(p, s, i);
    }
  }

  /** One pass, from left to right: each closed marker in turn becomes the replacement. */
  function Pass(p: string, s: string): string
    requires Marker(p)
    decreases |s|
  {
    FirstSpanIs(p, s);
    var r := FirstSpan(p, s);
    if r.0 == -1 then s else s[..r.0] + REDACTED + Pass(p, s[r.1..])
  }

  function Redact(s: string): string {
    Pass(SSH_KEY, Pass(VAULT, s))
  }

  // ----- the replacement makes no marker

  /** A marker in a + REDACTED + b lies in a or in b. */
  lemma NoMarkerAcross(p: string, a: string, b: string, i: nat)
    requires Marker(p) && OccursAt(a + REDACTED + b, p, i)
    ensures (i + |p| <= |a| && OccursAt(a, p, i)) || (i >= |a| + |REDACTED| && OccursAt(b, p, i - |a| - |REDACTED|))
  {
    var s := a + REDACTED + b;
    MarkerChars(p, s, i);
    assert s[|a|] == '<' && s[|a| + 1] == 'R';
    assert forall k :: 1 <= k < |REDACTED| ==> s[|a| + k] == REDACTED[k] != '<';
    if i + |p| <= |a| {
      assert s == a + (REDACTED + b);
      OccursInFront(a, REDACTED + b, p, i);
    } else if i >= |a| + |REDACTED| {
      OccursInPart(a + REDACTED, b, p, i);
    }
  }

  /** The first occurrence that is closed, with the first '>' behind it, is the span. */
  lemma SpanUnique(p: string, s: string, i: nat, e: nat)
    requires Marker(p) && i < e <= |s| && OccursAt(s, p, i) && s[e - 1] == '>'
    requires (forall k: nat :: k < i ==> !OccursAt(s, p, k)) && forall k :: i <= k < e - 1 ==> s[k] != '>'
    ensures FirstSpan(p, s) == (i, e)
  {
    hide FirstSpan, OccursAt;
    FirstSpanIs(p, s);
    MarkerChars(p, s, i);
    var r := FirstSpan(p, s);
    assert e - 1 > i;
    assert Closed(p, s);
    assert r.0 == i;
  }

  lemma ClosedShift(a: string, b: string, p: string)
    requires Closed(p, a + b) && forall i: nat :: i < |a| ==> !OccursAt(a + b, p, i)
    ensures Closed(p, b)
  {
    hide OccursAt;
    OccursShift(a, b, p);
    var i: nat, j: nat :| OccursAt(a + b, p, i) && i < j < |a + b| && (a + b)[j] == '>';
    assert OccursAt(b, p, i - |a|) && b[j - |a|] == '>';
  }

  /** Behind text without the beginning of a marker, everything is as without that text. */
  lemma SpanSkips(p: string, a: string, b: string)
    requires Marker(p) && forall i: nat :: i < |a| ==> !OccursAt(a + b, p, i)
    ensures var r, q := FirstSpan(p, a + b), FirstSpan(p, b);
            if q.0 == -1 then r.0 == -1 else r == (|a| + q.0, |a| + q.1)
  {
    hide FirstSpan, OccursAt, Closed, Marker;
    var q := FirstSpan(p, b);
    FirstSpanIs(p, a + b);
    FirstSpanIs(p, b);
    if q.0 == -1 {
      if Closed(p, a + b) { ClosedShift(a, b, p); }
    } else {
      OccursShift(a, b, p);
      SpanUnique(p, a + b, |a| + q.0, |a| + q.1);
    }
  }

  /** One span of a pass. */
  lemma PassUnfolds(p: string, s: string)
    requires Marker(p)
    ensures var r := FirstSpan(p, s);
            if r.0 == -1 then Pass(p, s) == s
            else 0 <= r.0 <= r.1 <= |s| && 0 < r.1 && Pass(p, s) == s[..r.0] + REDACTED + Pass(p, s[r.1..])
  {
    hide FirstSpan;
    FirstSpanIs(p, s);
  }

  lemma {:induction false} PassSkips(p: string, a: string, b: string)
    requires Marker(p) && forall i: nat :: i < |a| ==> !OccursAt(a + b, p, i)
    ensures Pass(p, a + b) == a + Pass(p, b)
  {
    hide FirstSpan, Pass, Marker, OccursAt;
    SpanSkips(p, a, b);
    PassUnfolds(p, b);
    PassUnfolds(p, a + b);
    var s, q := a + b, FirstSpan(p, b);
    if q.0 != -1 {
      assert s[..|a| + q.0] == a + b[..q.0] && s[|a| + q.1..] == b[q.1..];
      Regroup(a, b[..q.0], REDACTED, Pass(p, b[q.1..]));
    }
  }

  /** Up to the end of the replacement no marker begins. */
  lemma FrontIsClean(p: string, s: string)
    requires Marker(p) && FirstSpan(p, s).0 != -1
    ensures FirstSpan(p, s).0 <= |s| && FirstSpan(p, s).1 <= |s| && FirstSpan(p, s).0 >= 0
    ensures var r := FirstSpan(p, s);
            forall i: nat :: i < r.0 + |REDACTED| ==> !OccursAt(s[..r.0] + REDACTED + s[r.1..], p, i)
  {
    hide FirstSpan;
    FirstSpanIs(p, s);
    var r := FirstSpan(p, s);
    var a, b := s[..r.0], s[r.1..];
    assert "" + a + s[r.0..] == s;
    forall i: nat | i < r.0 + |REDACTED| ensures !OccursAt(a + REDACTED + b, p, i) {
      if OccursAt(a + REDACTED + b, p, i) {
        NoMarkerAcross(p, a, b, i);
        OccursInWhole("", a, s[r.0..], p, i);
      }
    }
  }

  /** Replacing the first closed marker and starting over gives the same as going on behind it. */
  lemma PassRestarts(p: string, s: string)
    requires Marker(p) && FirstSpan(p, s).0 != -1
    ensures FirstSpan(p, s).0 <= |s| && FirstSpan(p, s).1 <= |s| && FirstSpan(p, s).0 >= 0
    ensures var r := FirstSpan(p, s); Pass(p, s[..r.0] + REDACTED + s[r.1..]) == Pass(p, s)
  {
    hide FirstSpan;
    FrontIsClean(p, s);
    var r := FirstSpan(p, s);
    PassSkips(p, s[..r.0] + REDACTED, s[r.1..]);
  }

  // ----- termination: the number of prefixes falls although the string may grow

  function Count(p: string, s: string): nat {
    if s == "" then 0 else (if OccursAt(s, p, 0) then 1 else 0) + Count(p, s[1..])
  }

  lemma {:induction false} CountFrom(p: string, s: string, n: nat)
    requires n <= |s|
    ensures Count(p, s[n..]) <= Count(p, s)
    ensures (forall i: nat :: i < n ==> !OccursAt(s, p, i)) ==> Count(p, s[n..]) == Count(p, s)
    ensures n > 0 && (exists i: nat :: i < n && OccursAt(s, p, i)) ==> Count(p, s[n..]) < Count(p, s)
  {
    hide OccursAt;
    if n == 0 {
      assert s[0..] == s;
    } else {
      CountFrom(p, s[1..], n - 1);
      assert s[1..][n - 1..] == s[n..];
      OccursInTail(s, p);
      if i: nat :| i < n && OccursAt(s, p, i) {
        if i > 0 { assert OccursAt(s[1..], p, i - 1); }
      }
      forall i: nat | i < n - 1 && OccursAt(s[1..], p, i) ensures OccursAt(s, p, i + 1) {
      }
    }
  }

  lemma CountDrops(p: string, s: string)
    requires Marker(p) && FirstSpan(p, s).0 != -1
    ensures FirstSpan(p, s).0 <= |s| && FirstSpan(p, s).1 <= |s| && FirstSpan(p, s).0 >= 0
    ensures var r := FirstSpan(p, s); Count(p, s[..r.0] + REDACTED + s[r.1..]) < Count(p, s)
  {
    hide FirstSpan;
    FirstSpanIs(p, s);
    FrontIsClean(p, s);
    var r := FirstSpan(p, s);
    var a, b := s[..r.0] + REDACTED, s[r.1..];
    CountFrom(p, a + b, |a|);
    assert (a + b)[|a|..] == b;
    CountFrom(p, s, r.1);
  }

  /** One of the two loops: rewrite out in place until it holds no closed marker of this kind. */
  method RedactKind(prefix: string, s: string) returns (out: string)
    requires Marker(prefix)
    ensures out == Pass(prefix, s)
  {
    hide Pass, Count;
    out := s;
    while true
      invariant Pass(prefix, out) == Pass(prefix, s)
      decreases Count(prefix, out)
    {
      var i := Index(out, prefix);
      if i < 0 {
        break;
      }
      var j := Index(out[i..], ">");
      if j < 0 {
        break;
      }
      PassRestarts(prefix, out);
      CountDrops(prefix, out);
      out := out[..i] + REDACTED + out[i + j + 1..];
    }
    PassDone(prefix, out);
  }

  lemma PassDone(p: string, s: string)
    requires Marker(p) && FirstSpan(p, s).0 == -1
    ensures Pass(p, s) == s
  {
  }

  /** The closure passed to the string walker. */
  method RedactString(s: string) returns (out: string)
    ensures out == Redact(s)
  {
    out := s;
    out := RedactKind(VAULT, out);
    out := RedactKind(SSH_KEY, out);
  }

  // ----- what is left

  /** A pass closes no marker of any kind, and leaves none of its own kind closed. */
  lemma {:induction false} PassLeavesNone(p: string, q: string, s: string)
    requires Marker(p) && Marker(q) && (p == q || !Closed(q, s))
    ensures !Closed(q, Pass(p, s))
    decreases |s|
  {
    hide FirstSpan, Closed, OccursAt;
    FirstSpanIs(p, s);
    var r := FirstSpan(p, s);
    if r.0 != -1 {
      var b := s[r.1..];
      assert s[..r.1] + b == s;
      if p != q && Closed(q, b) {
        ClosedInWhole(q, s[..r.1], b);
      }
      PassLeavesNone(p, q, b);
      if Closed(q, Pass(p, s)) {
        ClosedComesFrom(p, q, s, Pass(p, b));
      }
    }
  }

  lemma ClosedBehind(q: string, front: string, rest: string, i: nat, j: nat)
    requires |front| <= i < j < |front + rest| && OccursAt(rest, q, i - |front|) && (front + rest)[j] == '>'
    ensures Closed(q, rest)
  {
    hide OccursAt;
    assert rest[j - |front|] == (front + rest)[j];
  }

  /** A marker in front of the span is closed by the '>' of the span, so it is not of the span's kind. */
  lemma ClosedBySpan(p: string, q: string, s: string, i: nat)
    requires Marker(p) && FirstSpan(p, s).0 != -1 && 0 <= FirstSpan(p, s).0 <= |s|
    requires i + |q| <= FirstSpan(p, s).0 && OccursAt(s[..FirstSpan(p, s).0], q, i) && |q| > 0
    ensures p != q && Closed(q, s)
  {
    hide FirstSpan, OccursAt, Marker;
    FirstSpanIs(p, s);
    var r := FirstSpan(p, s);
    assert "" + s[..r.0] + s[r.0..] == s;
    OccursInWhole("", s[..r.0], s[r.0..], q, i);
    assert i < r.1 - 1 < |s| && s[r.1 - 1] == '>';
  }

  /** A closed marker behind the replacement was there before, and one in front of it was closed by the same '>'. */
  lemma ClosedComesFrom(p: string, q: string, s: string, rest: string)
    requires Marker(p) && Marker(q) && FirstSpan(p, s).0 != -1
    requires 0 <= FirstSpan(p, s).0 <= |s| && Closed(q, s[..FirstSpan(p, s).0] + REDACTED + rest)
    ensures Closed(q, rest) || (p != q && Closed(q, s))
  {
    hide FirstSpan, OccursAt;
    var a := s[..FirstSpan(p, s).0];
    var out := a + REDACTED + rest;
    var i: nat, j: nat :| OccursAt(out, q, i) && i < j < |out| && out[j] == '>';
    NoMarkerAcross(q, a, rest, i);
    hide Closed;
    if i >= |a| + |REDACTED| {
      ClosedBehind(q, a + REDACTED, rest, i, j);
    } else {
      ClosedBySpan(p, q, s, i);
    }
  }

  lemma ClosedInWhole(q: string, a: string, b: string)
    requires Closed(q, b)
    ensures Closed(q, a + b)
  {
    var i: nat, j: nat :| OccursAt(b, q, i) && i < j < |b| && b[j] == '>';
    OccursInWhole(a, b, "", q, i);
    assert a + b + "" == a + b;
    assert (a + b)[|a| + j] == '>';
  }

  /** The result holds no closed marker of either kind, and redaction changes exactly the strings that do. */
  lemma RedactedIsClean(s: string)
    ensures !Closed(VAULT, Redact(s)) && !Closed(SSH_KEY, Redact(s))
    ensures Redact(s) == s <==> !Closed(VAULT, s) && !Closed(SSH_KEY, s)
  {
    hide FirstSpan, Pass, Closed;
    PassLeavesNone(VAULT, VAULT, s);
    PassLeavesNone(SSH_KEY, VAULT, Pass(VAULT, s));
    PassLeavesNone(SSH_KEY, SSH_KEY, Pass(VAULT, s));
    if !Closed(VAULT, s) && !Closed(SSH_KEY, s) {
      FirstSpanIs(VAULT, s);
      PassDone(VAULT, s);
      FirstSpanIs(SSH_KEY, s);
      PassDone(SSH_KEY, s);
    }
  }

  lemma RedactIsIdempotent(s: string)
    ensures Redact(Redact(s)) == Redact(s)
  {
    RedactedIsClean(s);
    RedactedIsClean(Redact(s));
  }

  // ----- what is kept

  /** A stretch of kept text and the closed marker behind it. */
  datatype Piece = Piece(kept: string, marker: string)

  function Pieces(p: string, s: string): (seq<Piece>, string)
    requires Marker(p)
    decreases |s|
  {
    FirstSpanIs(p, s);
    var r := FirstSpan(p, s);
    if r.0 == -1 then ([], s)
    else
      var rest := Pieces(p, s[r.1..]);
      ([Piece(s[..r.0], s[r.0..r.1])] + rest.0, rest.1)
  }

  function Assemble(ps: seq<Piece>, tail: string, redacted: bool): string {
    if ps == [] then tail else ps[0].kept + (if redacted then REDACTED else ps[0].marker) + Assemble(ps[1..], tail, redacted)
  }

  lemma PiecesUnfold(p: string, s: string)
    requires Marker(p)
    ensures var r, c := FirstSpan(p, s), Pieces(p, s);
            if r.0 == -1 then c == ([], s)
            else
              && 0 <= r.0 <= r.1 <= |s| && 0 < r.1
              && var rest := Pieces(p, s[r.1..]); c == ([Piece(s[..r.0], s[r.0..r.1])] + rest.0, rest.1)
  {
    hide FirstSpan;
    FirstSpanIs(p, s);
  }

  /** The string cuts into kept text and markers, and a pass replaces exactly the markers. */
  lemma {:induction false} PassKeepsTheRest(p: string, s: string)
    requires Marker(p)
    ensures var c := Pieces(p, s); s == Assemble(c.0, c.1, false) && Pass(p, s) == Assemble(c.0, c.1, true)
    ensures forall x :: x in Pieces(p, s).0 ==> IsClosedMarker(p, x.marker)
    decreases |s|
  {
    hide FirstSpan, IsClosedMarker, Pass, Pieces, Marker, OccursAt;
    PassUnfolds(p, s);
    PiecesUnfold(p, s);
    var r := FirstSpan(p, s);
    if r.0 != -1 {
      PassKeepsTheRest(p, s[r.1..]);
      var c, rest := Pieces(p, s), Pieces(p, s[r.1..]);
      assert c.0[1..] == rest.0;
      assert s == s[..r.0] + s[r.0..r.1] + s[r.1..];
      SpanIsMarker(p, s);
    }
  }

  lemma SpanIsMarker(p: string, s: string)
    requires Marker(p) && FirstSpan(p, s).0 != -1
    ensures 0 <= FirstSpan(p, s).0 <= FirstSpan(p, s).1 <= |s|
    ensures IsClosedMarker(p, s[FirstSpan(p, s).0..FirstSpan(p, s).1])
  {
    hide FirstSpan;
    FirstSpanIs(p, s);
    var r := FirstSpan(p, s);
    assert s[r.0..r.1][..|p|] == s[r.0..r.0 + |p|];
  }

  /** The prefix, then text up to and including the first '>'. */
  predicate IsClosedMarker(p: string, m: string) {
    p <= m && |p| < |m| && m[|m| - 1] == '>' && forall k :: 0 <= k < |m| - 1 ==> m[k] != '>'
  }

  // ----- one marker

  lemma {:induction false} PassIsNotEmpty(p: string, s: string)
    requires Marker(p) && s != ""
    ensures Pass(p, s) != ""
  {
    hide FirstSpan, Pass;
    PassUnfolds(p, s);
  }

  lemma BehindReplacement(p: string, b: string)
    requires Marker(p)
    ensures Pass(p, REDACTED + b) == REDACTED + Pass(p, b)
  {
    hide Pass, OccursAt;
    forall i: nat | i < |REDACTED| ensures !OccursAt(REDACTED + b, p, i) {
      assert "" + REDACTED + b == REDACTED + b;
      if OccursAt(REDACTED + b, p, i) { NoMarkerAcross(p, "", b, i); }
    }
    PassSkips(p, REDACTED, b);
  }

  /** A marker's own span ends at the first '>' of what it marks, or at its last character. */
  lemma MarkerPass(p: string, spec: string, n: nat)
    requires Marker(p) && n <= |spec| && (forall k :: 0 <= k < n ==> spec[k] != '>') && (n < |spec| ==> spec[n] == '>')
    ensures Pass(p, p + spec + ">") == REDACTED + Pass(p, (spec + ">")[n + 1..])
  {
    hide Pass, FirstSpan;
    var s, e := p + spec + ">", |p| + n + 1;
    assert s[0..|p|] == p && s[e - 1] == (spec + ">")[n];
    assert forall k :: |p| <= k < e - 1 ==> s[k] == spec[k - |p|];
    SpanUnique(p, s, 0, e);
    PassUnfolds(p, s);
    assert s[e..] == (spec + ">")[n + 1..] && s[..0] + REDACTED == REDACTED;
  }

  /** The marker of a vault secret is redacted as a whole exactly when nothing in it looks like its end. */
  lemma VaultMarkerRedactedIff(spec: string)
    ensures Redact("<VAULT:" + spec + ">") == "<REDACTED>" <==> '>' !in spec
  {
    hide Pass;
    var n := FirstEnd(spec);
    var rest := (spec + ">")[n + 1..];
    MarkerPass(VAULT, spec, n);
    BehindReplacement(SSH_KEY, Pass(VAULT, rest));
    if n == |spec| {
      assert rest == "";
      PassUnfolds(VAULT, "");
      PassUnfolds(SSH_KEY, "");
      assert REDACTED + "" == REDACTED;
    } else {
      PassIsNotEmpty(VAULT, rest);
      PassIsNotEmpty(SSH_KEY, Pass(VAULT, rest));
      assert spec[n] in spec;
    }
  }

  /** Where the first '>' is. */
  function FirstEnd(s: string): (n: nat)
    ensures n <= |s| && (forall k :: 0 <= k < n ==> s[k] != '>') && (n < |s| ==> s[n] == '>')
  {
    if s == "" || s[0] == '>' then 0 else 1 + FirstEnd(s[1..])
  }
}
