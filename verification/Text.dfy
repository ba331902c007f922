/** The functions of Go's strings package that the model uses. */
module Text {

  predicate OccursAt(s: string, p: string, i: nat) {
    i + |p| <= |s| && s[i..i + |p|] == p
  }

  lemma OccursInTail(s: string, p: string)
    requires s != ""
    ensures forall j: nat :: j > 0 ==> (OccursAt(s, p, j) <==> OccursAt(s[1..], p, j - 1))
  {
    forall j: nat | j > 0 ensures OccursAt(s, p, j) <==> OccursAt(s[1..], p, j - 1) {
      if j + |p| <= |s| { assert s[1..][j - 1..j - 1 + |p|] == s[j..j + |p|]; }
    }
  }

  /** strings.Index: the first occurrence, or -1. */
  function Index(s: string, p: string): (i: int)
    ensures i == -1 || (0 <= i && OccursAt(s, p, i))
    ensures forall j: nat :: (i == -1 || j < i) ==> !OccursAt(s, p, j)
  {
    if OccursAt(s, p, 0) then 0
    else if s == "" then -1
    else
      OccursInTail(s, p);
      var i := Index(s[1..], p);
      if i == -1 then -1 else i + 1
  }

  /** An occurrence in a part is an occurrence in the whole. */
  lemma OccursInWhole(a: string, b: string, c: string, p: string, i: nat)
    requires OccursAt(b, p, i)
    ensures OccursAt(a + b + c, p, |a| + i)
  {
    assert (a + b + c)[|a| + i..|a| + i + |p|] == b[i..i + |p|];
  }

  lemma OccursInPart(a: string, b: string, p: string, i: nat)
    requires OccursAt(a + b, p, i) && i >= |a|
    ensures OccursAt(b, p, i - |a|)
  {
    assert (a + b)[i..i + |p|] == b[i - |a|..i - |a| + |p|];
  }

  /** Behind a prefix, the occurrences are those of the text without it. */
  lemma OccursShift(a: string, b: string, p: string)
    ensures forall i: nat :: i >= |a| ==> (OccursAt(a + b, p, i) <==> OccursAt(b, p, i - |a|))
  {
    forall i: nat | i >= |a| ensures OccursAt(a + b, p, i) <==> OccursAt(b, p, i - |a|) {
      if i + |p| <= |a + b| { assert (a + b)[i..i + |p|] == b[i - |a|..i - |a| + |p|]; }
    }
  }

  lemma OccursInFront(a: string, b: string, p: string, i: nat)
    requires OccursAt(a + b, p, i) && i + |p| <= |a|
    ensures OccursAt(a, p, i)
  {
    assert (a + b)[i..i + |p|] == a[i..i + |p|];
  }

  /** Two adjacent texts occur exactly where their concatenation does. */
  lemma OccursAdjacent(s: string, p: string, q: string, i: nat)
    ensures OccursAt(s, p + q, i) <==> OccursAt(s, p, i) && OccursAt(s, q, i + |p|)
  {
    if OccursAt(s, p + q, i) {
      assert s[i..i + |p + q|][..|p|] == p && s[i..i + |p + q|][|p|..] == q;
    }
    if OccursAt(s, p, i) && OccursAt(s, q, i + |p|) {
      assert s[i..i + |p + q|] == s[i..i + |p|] + s[i + |p|..i + |p| + |q|];
    }
  }

  /** strings.Split with a one-character separator. */
  function Split(s: string, sep: char): (parts: seq<string>)
    ensures parts != [] && forall p :: p in parts ==> sep !in p
  {
    if s == "" then [""]
    else
      var rest := Split(s[1..], sep);
      if s[0] == sep then [""] + rest else [[s[0]] + rest[0]] + rest[1..]
  }

  /** strings.Join with a one-character separator. */
  function Join(parts: seq<string>, sep: char): string {
    if parts == [] then "" else if |parts| == 1 then parts[0] else parts[0] + [sep] + Join(parts[1..], sep)
  }

  lemma {:induction false} SplitOne(a: string, sep: char)
    requires sep !in a
    ensures Split(a, sep) == [a]
  {
    if a != "" {
      SplitOne(a[1..], sep);
      assert [a[0]] + a[1..] == a;
    }
  }

  lemma {:induction false} SplitFirst(a: string, rest: string, sep: char)
    requires sep !in a
    ensures Split(a + [sep] + rest, sep) == [a] + Split(rest, sep)
  {
    var d := a + [sep] + rest;
    if a == "" {
      assert d[1..] == rest;
    } else {
      SplitFirst(a[1..], rest, sep);
      assert d[1..] == a[1..] + [sep] + rest;
      assert [a[0]] + a[1..] == a;
      assert ([a[1..]] + Split(rest, sep))[1..] == Split(rest, sep);
    }
  }

  lemma {:induction false} SplitOfJoin(ls: seq<string>, sep: char)
    requires ls != [] && forall l :: l in ls ==> sep !in l
    ensures Split(Join(ls, sep), sep) == ls
  {
    hide Split;
    if |ls| == 1 {
      SplitOne(ls[0], sep);
    } else {
      SplitOfJoin(ls[1..], sep);
      SplitFirst(ls[0], Join(ls[1..], sep), sep);
    }
  }

  lemma {:induction false} JoinOfSplit(data: string, sep: char)
    ensures Join(Split(data, sep), sep) == data
  {
    if data != "" {
      JoinOfSplit(data[1..], sep);
      var rest := Split(data[1..], sep);
      if data[0] == sep {
        assert ([""] + rest)[1..] == rest;
        assert "" + [sep] + data[1..] == data;
      } else {
        var l := [data[0]] + rest[0];
        assert ([l] + rest[1..])[1..] == rest[1..];
        assert [data[0]] + data[1..] == data;
        if |rest| > 1 {
          assert l + [sep] + Join(rest[1..], sep) == [data[0]] + (rest[0] + [sep] + Join(rest[1..], sep));
        }
      }
    }
  }

  // ----- blanks

  /** unicode.IsSpace */
  predicate IsBlank(c: char) {
    c == ' ' || '\t' <= c <= '\r' || c == '\U{85}' || c == '\U{A0}' || c == '\U{1680}' || '\U{2000}' <= c <= '\U{200A}'
    || c == '\U{2028}' || c == '\U{2029}' || c == '\U{202F}' || c == '\U{205F}' || c == '\U{3000}'
  }

  function TrimLeft(s: string): string {
    if s != "" && IsBlank(s[0]) then TrimLeft(s[1..]) else s
  }

  function TrimRight(s: string): string {
    if s != "" && IsBlank(s[|s| - 1]) then TrimRight(s[..|s| - 1]) else s
  }

  /** strings.TrimSpace */
  function TrimSpace(s: string): string {
    TrimRight(TrimLeft(s))
  }

  predicate AllBlanks(s: string) {
    forall c :: c in s ==> IsBlank(c)
  }

  lemma {:induction false} TrimLeftIs(s: string) returns (front: string)
    ensures s == front + TrimLeft(s) && AllBlanks(front)
    ensures TrimLeft(s) == "" || !IsBlank(TrimLeft(s)[0])
  {
    hide IsBlank;
    front := "";
    if s != "" && IsBlank(s[0]) {
      var rest := TrimLeftIs(s[1..]);
      front := [s[0]] + rest;
    }
  }

  lemma {:induction false} TrimRightIs(s: string) returns (back: string)
    ensures s == TrimRight(s) + back && AllBlanks(back)
    ensures TrimRight(s) == "" || !IsBlank(TrimRight(s)[|TrimRight(s)| - 1])
  {
    hide IsBlank;
    back := "";
    if s != "" && IsBlank(s[|s| - 1]) {
      var rest := TrimRightIs(s[..|s| - 1]);
      back := rest + [s[|s| - 1]];
    }
  }

  /** What is left when the blanks at both ends, and nothing else, are taken away. */
  lemma TrimSpaceIs(s: string) returns (front: string, back: string)
    ensures s == front + TrimSpace(s) + back && AllBlanks(front) && AllBlanks(back)
    ensures var t := TrimSpace(s); t == "" || (!IsBlank(t[0]) && !IsBlank(t[|t| - 1]))
  {
    hide IsBlank, TrimLeft, TrimRight;
    front := TrimLeftIs(s);
    back := TrimRightIs(TrimLeft(s));
    assert TrimLeft(s) == TrimSpace(s) + back;
  }

  lemma FrontsAgree(front: string, rest: string, f: string, r: string)
    requires front + rest == f + r && AllBlanks(front) && AllBlanks(f)
    requires rest != "" && !IsBlank(rest[0]) && r != "" && !IsBlank(r[0])
    ensures front == f && rest == r
  {
    hide IsBlank;
    var s := front + rest;
    assert s[|front|] == rest[0] && s[|f|] == r[0];
    assert front == s[..|front|] && f == s[..|f|] && rest == s[|front|..] && r == s[|f|..];
  }

  lemma BacksAgree(word: string, back: string, t: string, b: string)
    requires word + back == t + b && AllBlanks(back) && AllBlanks(b)
    requires word != "" && !IsBlank(word[|word| - 1]) && t != "" && !IsBlank(t[|t| - 1])
    ensures word == t
  {
    hide IsBlank;
    var s := word + back;
    assert s[|word| - 1] == word[|word| - 1] && s[|t| - 1] == t[|t| - 1];
    assert word == s[..|word|] && t == s[..|t|];
  }

  /** The trimmed text is the only one that begins and ends with something else than a blank. */
  lemma TrimUnique(front: string, word: string, back: string)
    requires AllBlanks(front) && AllBlanks(back) && word != "" && !IsBlank(word[0]) && !IsBlank(word[|word| - 1])
    ensures TrimSpace(front + word + back) == word
  {
    hide IsBlank, TrimSpace;
    var s := front + word + back;
    var f, b := TrimSpaceIs(s);
    var t := TrimSpace(s);
    assert s[|front|] == word[0];
    if t != "" {
      assert s == front + (word + back) && s == f + (t + b);
      FrontsAgree(front, word + back, f, t + b);
      BacksAgree(word, back, t, b);
    }
  }

  lemma NothingToTrim(s: string)
    requires s != "" && !IsBlank(s[0]) && !IsBlank(s[|s| - 1])
    ensures TrimSpace(s) == s
  {
  }
}
