/** patchKernelCmdline: inject the autoinstall arguments into every kernel line of a boot config. */
module BootConfig {
  import opened Common
  import opened Text

  const AUTOINSTALL := "autoinstall"
  const NEWLINE := '\n'

  // ----- one line

  predicate IsSpace(c: char) {
    c == ' ' || c == '\t' || c == '\n' || c == '\r' || c == '\U{0C}'
  }

  /** How many blanks s starts with. */
  function Blanks(s: string): (n: nat)
    ensures n <= |s|
    ensures forall k :: 0 <= k < n ==> IsSpace(s[k])
    ensures n < |s| ==> !IsSpace(s[n])
  {
    if s != "" && IsSpace(s[0]) then 1 + Blanks(s[1..]) else 0
  }

  lemma {:induction false} BlanksIs(s: string, n: nat)
    requires n <= |s| && (forall k :: 0 <= k < n ==> IsSpace(s[k])) && (n < |s| ==> !IsSpace(s[n]))
    ensures Blanks(s) == n
  {
    if n > 0 { BlanksIs(s[1..], n - 1); }
  }

  predicate VerbAt(s: string, verb: string) {
    verb <= s && |verb| < |s| && IsSpace(s[|verb|])
  }

  /** The capture groups of ^(\s*)(linux|linuxefi|append)\s+(.*)$ */
  datatype Match = Match(indent: string, verb: string, body: string)

  const VERBS := ["linux", "linuxefi", "append"]

  /** The verb s starts with, if it starts with one. */
  function VerbOf(s: string): (verb: string)
    ensures verb in VERBS
  {
    assert VERBS[0] == "linux" && VERBS[1] == "linuxefi" && VERBS[2] == "append";
    if VerbAt(s, "linux") then "linux" else if VerbAt(s, "linuxefi") then "linuxefi" else "append"
  }

  function MatchLine(line: string): Option<Match> {
    var n := Blanks(line);
    var s := line[n..];
    var verb := VerbOf(s);
    if !VerbAt(s, verb) then None
    else
      var tail := s[|verb|..];
      Some(Match(line[..n], verb, tail[Blanks(tail)..]))
  }

  predicate Has(s: string, p: string) {
    Index(s, p) != -1
  }

  const SEPARATOR := "---"

  /** (\s)---(\s|$) matches at i. */
  predicate SeparatorAt(body: string, i: nat) {
    && i + 4 <= |body| && IsSpace(body[i]) && body[i + 1] == '-' && body[i + 2] == '-' && body[i + 3] == '-'
    && (i + 4 == |body| || IsSpace(body[i + 4]))
  }

  /** Where the first separator begins, or the end of the body. */
  function InsertionPoint(body: string): (n: nat)
    ensures n <= |body|
    ensures n < |body| ==> SeparatorAt(body, n)
    ensures forall i: nat :: i < n ==> !SeparatorAt(body, i)
  {
    SearchSeparator(body, 0)
  }

  function SearchSeparator(body: string, from: nat): (n: nat)
    requires from <= |body|
    ensures from <= n <= |body|
    ensures n < |body| ==> SeparatorAt(body, n)
    ensures forall i: nat :: from <= i < n ==> !SeparatorAt(body, i)
    decreases |body| - from
  {
    if from == |body| || SeparatorAt(body, from) then from else SearchSeparator(body, from + 1)
  }

  function Inject(body: string, args: string): string {
    var n := InsertionPoint(body);
    body[..n] + " " + args + body[n..]
  }

  /** The line is one the patch rewrites. */
  predicate Patchable(line: string) {
    MatchLine(line).Some? && !Has(MatchLine(line).value.body, AUTOINSTALL)
  }

  function Patched(m: Match, args: string): string {
    m.indent + m.verb + " " + Inject(m.body, args)
  }

  function PatchLine(line: string, args: string): string {
    if Patchable(line) then Patched(MatchLine(line).value, args) else line
  }

  function PatchLines(ls: seq<string>, args: string): seq<string> {
    seq(|ls|, i requires 0 <= i < |ls| => PatchLine(ls[i], args))
  }

  function Patch(data: string, args: string): string {
    Join(PatchLines(Split(data, NEWLINE), args), NEWLINE)
  }

  /** patchKernelCmdline between reading and writing the file: the lines are overwritten in place. */
  method PatchKernelCmdline(data: string, args: string) returns (out: string)
    ensures out == Patch(data, args)
  {
    hide Split, Join, MatchLine, Has, Inject;
    var split := Split(data, NEWLINE);
    var lines := new string[|split|](i requires 0 <= i < |split| => split[i]);
    for i := 0 to lines.Length
      invariant forall k :: 0 <= k < i ==> lines[k] == PatchLine(split[k], args)
      invariant forall k :: i <= k < lines.Length ==> lines[k] == split[k]
    {
      var m := MatchLine(lines[i]);
      if m.None? || Has(m.value.body, AUTOINSTALL) {
        continue;
      }
      lines[i] := m.value.indent + m.value.verb + " " + Inject(m.value.body, args);
    }
    assert lines[..] == PatchLines(split, args);
    out := Join(lines[..], NEWLINE);
  }

  // ----- the patch, line by line

  lemma PatchedLines(data: string, args: string)
    requires NEWLINE !in args
    ensures Split(Patch(data, args), NEWLINE) == PatchLines(Split(data, NEWLINE), args)
  {
    hide PatchLine, Split, Join;
    var ls := Split(data, NEWLINE);
    forall l | l in PatchLines(ls, args) ensures NEWLINE !in l {
      var i :| 0 <= i < |ls| && PatchLines(ls, args)[i] == l;
      assert ls[i] in ls;
      PatchedHasNoNewline(ls[i], args);
    }
    SplitOfJoin(PatchLines(ls, args), NEWLINE);
  }

  predicate AllSpaces(s: string) {
    forall c :: c in s ==> IsSpace(c)
  }

  /** The groups and the blanks between verb and body make up the line. */
  lemma MatchParts(line: string) returns (gap: string)
    requires MatchLine(line).Some?
    ensures var m := MatchLine(line).value;
            && line == m.indent + m.verb + gap + m.body
            && gap != "" && AllSpaces(gap) && AllSpaces(m.indent) && m.verb in VERBS
            && (m.body == "" || !IsSpace(m.body[0]))
  {
    hide Blanks, VerbOf, IsSpace, AllSpaces, VERBS;
    var m := MatchLine(line).value;
    var s := line[|m.indent|..];
    var tail := s[|m.verb|..];
    gap := tail[..|tail| - |m.body|];
    BlanksAreBlank(line);
    BlanksAreBlank(tail);
    assert tail[0] == s[|m.verb|];
    assert gap + m.body == tail;
    Reassemble(line, m.indent, m.verb, gap, m.body, s, tail);
  }

  lemma Reassemble(line: string, a: string, b: string, c: string, d: string, s: string, tail: string)
    requires |a| <= |line| && a == line[..|a|] && s == line[|a|..]
    requires |b| <= |s| && b == s[..|b|] && tail == s[|b|..] && tail == c + d
    ensures line == a + b + c + d
  {
    assert line == a + s && s == b + tail;
  }

  lemma BlanksAreBlank(s: string)
    ensures AllSpaces(s[..Blanks(s)])
  {
    hide Blanks;
  }

  lemma BlanksThen(blank: string, s: string)
    requires AllSpaces(blank) && (s == "" || !IsSpace(s[0]))
    ensures Blanks(blank + s) == |blank|
    ensures (blank + s)[..|blank|] == blank && (blank + s)[|blank|..] == s
  {
    BlanksIs(blank + s, |blank|);
  }

  lemma VerbThen(verb: string, gap: string, body: string)
    requires gap != "" && AllSpaces(gap) && verb in VERBS
    ensures VerbAt(verb + (gap + body), verb) && VerbOf(verb + (gap + body)) == verb
    ensures (verb + (gap + body))[|verb|..] == gap + body && !IsSpace((verb + (gap + body))[0])
  {
    hide Blanks;
    assert verb == "linux" || verb == "linuxefi" || verb == "append";
    var s := verb + (gap + body);
    assert s[..|verb|] == verb && s[|verb|] == gap[0] && s[0] == verb[0];
    OnlyItsVerb(verb, gap + body);
  }

  /** And a line made up like that matches with those groups. */
  lemma MatchOf(indent: string, verb: string, gap: string, body: string)
    requires gap != "" && AllSpaces(gap) && AllSpaces(indent) && verb in VERBS && (body == "" || !IsSpace(body[0]))
    ensures MatchLine(indent + verb + gap + body) == Some(Match(indent, verb, body))
  {
    hide Blanks, IsSpace, AllSpaces, VERBS, VerbOf, VerbAt;
    VerbThen(verb, gap, body);
    BlanksThen(indent, verb + (gap + body));
    BlanksThen(gap, body);
    assert indent + verb + gap + body == indent + (verb + (gap + body));
  }

  lemma OnlyItsVerb(verb: string, tail: string)
    requires verb in VERBS
    ensures VerbAt(verb + tail, "linux") ==> verb == "linux"
    ensures VerbAt(verb + tail, "linuxefi") ==> verb != "append"
  {
    var s := verb + tail;
    assert verb == "linux" || verb == "linuxefi" || verb == "append";
    if verb == "linuxefi" { assert s[5] == 'e'; }
    if verb == "append" { assert s[0] == 'a'; }
  }

  lemma PatchedHasNoNewline(line: string, args: string)
    requires NEWLINE !in line && NEWLINE !in args
    ensures NEWLINE !in PatchLine(line, args)
  {
    hide MatchLine, Has, InsertionPoint, Inject;
    if Patchable(line) {
      var m := MatchLine(line).value;
      var gap := MatchParts(line);
      InjectHasNoNewline(m.body, args);
    }
  }

  lemma InjectHasNoNewline(body: string, args: string)
    requires NEWLINE !in body && NEWLINE !in args
    ensures NEWLINE !in Inject(body, args)
  {
    hide InsertionPoint;
  }

  // ----- where the arguments land

  /** out is body with a blank and args put in at n. */
  predicate Spliced(body: string, args: string, n: nat, out: string) {
    var m := n + 1 + |args|;
    && n <= |body| && |out| == |body| + 1 + |args|
    && (forall k :: 0 <= k < n ==> out[k] == body[k])
    && out[n] == ' '
    && (forall k :: n < k < m ==> out[k] == args[k - n - 1])
    && (forall k :: m <= k < |out| ==> out[k] == body[k - 1 - |args|])
  }

  lemma InjectSplices(body: string, args: string)
    ensures Spliced(body, args, InsertionPoint(body), Inject(body, args))
  {
    hide InsertionPoint;
  }

  lemma TakeOut(body: string, args: string, n: nat, out: string)
    requires Spliced(body, args, n, out)
    ensures out[n..n + 1 + |args|] == " " + args && out[..n] + out[n + 1 + |args|..] == body
  {
  }

  lemma NoSeparatorInFront(body: string, args: string, n: nat, out: string, i: nat)
    requires Spliced(body, args, n, out) && i < n && !SeparatorAt(body, i) && (n < |body| ==> IsSpace(body[n]))
    ensures !SeparatorAt(out, i)
  {
  }

  lemma NoSeparatorInArgs(body: string, args: string, n: nat, out: string, i: nat)
    requires Spliced(body, args, n, out) && n <= i < n + 1 + |args| && (n < |body| ==> IsSpace(body[n]))
    requires !OccursAt(args, SEPARATOR, i - n)
    ensures !SeparatorAt(out, i)
  {
    var a, m := i - n, n + 1 + |args|;
    if a + 3 <= |args| {
      assert args[a..a + 3] == [args[a], args[a + 1], args[a + 2]];
      assert out[i + 1] == args[a] && out[i + 2] == args[a + 1] && out[i + 3] == args[a + 2];
    } else if m < |out| {
      assert out[m] == body[n] != '-';
    }
  }

  lemma SeparatorBehindArgs(body: string, args: string, n: nat, out: string)
    requires Spliced(body, args, n, out) && SeparatorAt(body, n)
    ensures SeparatorAt(out, n + 1 + |args|)
  {
  }

  lemma SeparatorsShift(body: string, args: string)
    requires Index(args, SEPARATOR) == -1
    ensures InsertionPoint(Inject(body, args)) == InsertionPoint(body) + 1 + |args|
  {
    hide InsertionPoint, Inject, Index, Spliced, SeparatorAt, OccursAt;
    var n, out := InsertionPoint(body), Inject(body, args);
    InjectSplices(body, args);
    SeparatorStartsBlank(body, n);
    forall i: nat | i < n + 1 + |args| ensures !SeparatorAt(out, i) {
      if i < n {
        NoSeparatorInFront(body, args, n, out, i);
      } else {
        NoSeparatorInArgs(body, args, n, out, i);
      }
    }
    if n < |body| {
      SeparatorBehindArgs(body, args, n, out);
    }
    SplicedLength(body, args, n, out);
  }

  lemma SplicedLength(body: string, args: string, n: nat, out: string)
    requires Spliced(body, args, n, out)
    ensures |out| == |body| + 1 + |args|
  {
  }

  lemma SeparatorStartsBlank(body: string, n: nat)
    ensures SeparatorAt(body, n) ==> IsSpace(body[n])
  {
  }

  /**
   * The arguments stand in the body just before its first separator, or at its end; taking them out gives the body
   * back, and unless they bring a separator of their own the first separator is still the one behind them.
   */
  lemma InjectBeforeFirstSeparator(body: string, args: string)
    ensures |Inject(body, args)| >= InsertionPoint(body) + 1 + |args|
    ensures var n, out := InsertionPoint(body), Inject(body, args);
            && out[n..n + 1 + |args|] == " " + args
            && out[..n] + out[n + 1 + |args|..] == body
            && (Index(args, SEPARATOR) == -1 ==> InsertionPoint(out) == n + 1 + |args|)
  {
    hide InsertionPoint, Inject, Index, Spliced;
    InjectSplices(body, args);
    SplicedLength(body, args, InsertionPoint(body), Inject(body, args));
    TakeOut(body, args, InsertionPoint(body), Inject(body, args));
    if Index(args, SEPARATOR) == -1 {
      SeparatorsShift(body, args);
    }
  }

  // ----- patching twice

  lemma OccursChars(s: string, p: string, i: nat)
    requires i + |p| <= |s|
    ensures OccursAt(s, p, i) <==> forall k :: 0 <= k < |p| ==> s[i + k] == p[k]
  {
    if OccursAt(s, p, i) {
      forall k | 0 <= k < |p| ensures s[i + k] == p[k] { assert s[i..i + |p|][k] == p[k]; }
    }
  }

  lemma HasIff(s: string, p: string)
    ensures Has(s, p) <==> exists i: nat :: OccursAt(s, p, i)
  {
  }

  lemma AutoinstallHasNoBlank()
    ensures |AUTOINSTALL| == 11 && forall k :: 0 <= k < |AUTOINSTALL| ==> !IsSpace(AUTOINSTALL[k])
  {
  }

  /** An occurrence of autoinstall in the patched body is in the old body or in the arguments. */
  lemma AutoinstallComesFrom(body: string, args: string, n: nat, out: string, i: nat)
    requires Spliced(body, args, n, out) && (n < |body| ==> IsSpace(body[n])) && OccursAt(out, AUTOINSTALL, i)
    ensures Has(body, AUTOINSTALL) || Has(args, AUTOINSTALL)
  {
    hide Index, Has;
    AutoinstallHasNoBlank();
    OccursChars(out, AUTOINSTALL, i);
    HasIff(body, AUTOINSTALL);
    HasIff(args, AUTOINSTALL);
    OneSide(body, args, n, out, i);
    if i + 11 <= n {
      OccursChars(body, AUTOINSTALL, i);
    } else if i > n && i + 11 <= n + 1 + |args| {
      OccursChars(args, AUTOINSTALL, i - n - 1);
    } else {
      OccursChars(body, AUTOINSTALL, i - 1 - |args|);
    }
  }

  /** The blanks around the inserted arguments keep an occurrence on one side of them. */
  lemma OneSide(body: string, args: string, n: nat, out: string, i: nat)
    requires Spliced(body, args, n, out) && (n < |body| ==> IsSpace(body[n])) && OccursAt(out, AUTOINSTALL, i)
    ensures i + 11 <= n || (i > n && i + 11 <= n + 1 + |args|) || i >= n + 1 + |args|
  {
    AutoinstallHasNoBlank();
    OccursChars(out, AUTOINSTALL, i);
    if i <= n < i + 11 { BlankBreaks(out, i, n); }
    var m := n + 1 + |args|;
    if i < m < i + 11 { BlankBreaks(out, i, m); }
  }

  /** No occurrence covers a blank. */
  lemma BlankBreaks(s: string, i: nat, k: nat)
    requires OccursAt(s, AUTOINSTALL, i) && i <= k < i + 11
    ensures k < |s| && !IsSpace(s[k])
  {
    AutoinstallHasNoBlank();
    OccursChars(s, AUTOINSTALL, i);
    assert s[i + (k - i)] == AUTOINSTALL[k - i];
  }

  lemma PatchedHasAutoinstall(body: string, args: string)
    ensures Has(args, AUTOINSTALL) ==> Has(Inject(body, args), AUTOINSTALL)
    ensures Has(Inject(body, args), AUTOINSTALL) ==> Has(body, AUTOINSTALL) || Has(args, AUTOINSTALL)
  {
    hide Index, Inject, InsertionPoint, Has, IsSpace, OccursAt, Spliced, SeparatorAt;
    var n, out := InsertionPoint(body), Inject(body, args);
    InjectSplices(body, args);
    SeparatorStartsBlank(body, n);
    HasIff(args, AUTOINSTALL);
    HasIff(out, AUTOINSTALL);
    if i: nat :| OccursAt(args, AUTOINSTALL, i) {
      ArgsOccur(body, args, n, out, i);
    }
    if i: nat :| OccursAt(out, AUTOINSTALL, i) {
      AutoinstallComesFrom(body, args, n, out, i);
    }
  }

  lemma ArgsOccur(body: string, args: string, n: nat, out: string, i: nat)
    requires Spliced(body, args, n, out) && OccursAt(args, AUTOINSTALL, i)
    ensures OccursAt(out, AUTOINSTALL, n + 1 + i)
  {
    OccursChars(args, AUTOINSTALL, i);
    OccursChars(out, AUTOINSTALL, n + 1 + i);
  }

  /** Leading blanks do not matter for finding autoinstall. */
  lemma TrimmedHasAutoinstall(s: string, k: nat)
    requires k <= Blanks(s)
    ensures Has(s[k..], AUTOINSTALL) <==> Has(s, AUTOINSTALL)
  {
    hide Index;
    AutoinstallHasNoBlank();
    hide Has;
    HasIff(s, AUTOINSTALL);
    HasIff(s[k..], AUTOINSTALL);
    if i: nat :| OccursAt(s, AUTOINSTALL, i) {
      OccursChars(s, AUTOINSTALL, i);
      assert s[i + 0] == AUTOINSTALL[0];
      OccursChars(s[k..], AUTOINSTALL, i - k);
      assert OccursAt(s[k..], AUTOINSTALL, i - k);
    }
    if i: nat :| OccursAt(s[k..], AUTOINSTALL, i) {
      OccursChars(s[k..], AUTOINSTALL, i);
      OccursChars(s, AUTOINSTALL, k + i);
      assert OccursAt(s, AUTOINSTALL, k + i);
    }
  }

  /** A patched line is a kernel line again; only an empty body loses the arguments' leading blanks to the gap. */
  lemma PatchedMatches(m: Match, args: string)
    requires AllSpaces(m.indent) && m.verb in VERBS && (m.body == "" || !IsSpace(m.body[0]))
    ensures MatchLine(Patched(m, args))
            == Some(m.(body := if m.body == "" then args[Blanks(args)..] else Inject(m.body, args)))
  {
    hide MatchLine, Inject, Blanks, IsSpace, AllSpaces, VERBS;
    if m.body == "" {
      EmptyInject(args);
      var gap, rest := "  " + args[..Blanks(args)], args[Blanks(args)..];
      BlankGap(args);
      MatchOf(m.indent, m.verb, gap, rest);
      assert args == args[..Blanks(args)] + rest;
      assert Patched(m, args) == m.indent + m.verb + gap + rest;
    } else {
      InjectStartsLike(m.body, args);
      BlankGap("");
      MatchOf(m.indent, m.verb, " ", Inject(m.body, args));
    }
  }

  lemma BlankGap(args: string)
    ensures AllSpaces("  " + args[..Blanks(args)]) && AllSpaces(" ")
    ensures args[Blanks(args)..] == "" || !IsSpace(args[Blanks(args)..][0])
  {
  }

  lemma InjectStartsLike(body: string, args: string)
    requires body != "" && !IsSpace(body[0])
    ensures Inject(body, args) != "" && Inject(body, args)[0] == body[0]
  {
    assert InsertionPoint(body) > 0;
  }

  lemma EmptyInject(args: string)
    ensures Inject("", args) == " " + args
  {
  }

  /** The patch leaves the line as it is after one application. */
  predicate Settles(line: string, args: string) {
    PatchLine(PatchLine(line, args), args) == PatchLine(line, args)
  }

  /** Nothing at all is injected: no body, and arguments that are blank. */
  predicate BlankCase(line: string, args: string) {
    MatchLine(line).Some? && MatchLine(line).value.body == "" && AllSpaces(args)
  }

  lemma LineSettlesIff(line: string, args: string)
    ensures Settles(line, args) <==> !Patchable(line) || Has(args, AUTOINSTALL) || BlankCase(line, args)
  {
    hide MatchLine, Has, Inject, Blanks;
    if Patchable(line) {
      var m := MatchLine(line).value;
      var gap := MatchParts(line);
      var line' := Patched(m, args);
      PatchedMatches(m, args);
      PatchedHasAutoinstall(m.body, args);
      TrimmedHasAutoinstall(args, Blanks(args));
      if !Has(args, AUTOINSTALL) {
        InjectGrows(m.body, args);
        InjectGrows(MatchLine(line').value.body, args);
        BlankArgs(args);
        EmptyInject(args);
      }
    }
  }

  lemma InjectGrows(body: string, args: string)
    ensures |Inject(body, args)| == |body| + 1 + |args|
  {
  }

  lemma BlankArgs(args: string)
    ensures args[Blanks(args)..] == "" <==> AllSpaces(args)
  {
    var n := Blanks(args);
    if n < |args| { assert args[n] in args; }
  }

  /**
   * Patching an already patched config changes nothing exactly when the arguments contain autoinstall, or no line is
   * left to patch but bodiless ones with blank arguments. The arguments the builder uses contain it.
   */
  lemma PatchIsIdempotentIff(data: string, args: string)
    requires NEWLINE !in args
    ensures Patch(Patch(data, args), args) == Patch(data, args)
            <==> Has(args, AUTOINSTALL) || forall l :: l in Split(data, NEWLINE) && Patchable(l) ==> BlankCase(l, args)
  {
    hide Split, Join, PatchLine, Patchable, BlankCase, Has;
    var ls := Split(data, NEWLINE);
    var once := PatchLines(ls, args);
    PatchedLines(data, args);
    PatchedLines(Patch(data, args), args);
    JoinOfSplit(Patch(data, args), NEWLINE);
    assert Patch(Patch(data, args), args) == Patch(data, args) <==> PatchLines(once, args) == once by {
      JoinOfSplit(Patch(Patch(data, args), args), NEWLINE);
    }
    forall i | 0 <= i < |ls| ensures PatchLines(once, args)[i] == once[i] <==> !Patchable(ls[i]) || Has(args, AUTOINSTALL) || BlankCase(ls[i], args) {
      LineSettlesIff(ls[i], args);
    }
    if PatchLines(once, args) == once && !Has(args, AUTOINSTALL) {
      forall l | l in ls && Patchable(l) ensures BlankCase(l, args) {
        var i :| 0 <= i < |ls| && ls[i] == l;
        assert PatchLines(once, args)[i] == once[i];
      }
    }
  }

  /** Arguments without autoinstall are put in again each time. */
  lemma PatchAddsAgainExample()
    ensures Patch(Patch("linux a", "x"), "x") != Patch("linux a", "x")
  {
    hide Split, Join, MatchLine, Patch, Has;
    var l := "linux" + " " + "a";
    assert l == "linux a";
    SplitOne(l, NEWLINE);
    assert VERBS[0] == "linux";
    MatchOf("", "linux", " ", "a");
    assert "" + "linux" + " " + "a" == l;
    HasIff("a", AUTOINSTALL);
    HasIff("x", AUTOINSTALL);
    assert l in Split(l, NEWLINE);
    PatchIsIdempotentIff(l, "x");
  }

  // ----- one line in words, with none of the functions above

  predicate Blank(c: char) {
    c in " \t\n\r\U{0C}"
  }

  predicate OnlyBlanks(s: string) {
    forall c :: c in s ==> Blank(c)
  }

  /** The line is blanks, one of the three verbs, blanks again, and the body. */
  predicate KernelLine(line: string, indent: string, verb: string, gap: string, body: string) {
    && line == indent + verb + gap + body && verb in ["linux", "linuxefi", "append"]
    && OnlyBlanks(indent) && OnlyBlanks(gap) && gap != "" && (body == "" || !Blank(body[0]))
  }

  /** Three dashes between blanks, or between a blank and the end. */
  predicate SeparatorFirst(s: string) {
    |s| >= 4 && Blank(s[0]) && s[1..4] == "---" && (|s| == 4 || Blank(s[4]))
  }

  /** No separator begins in front, and one begins at rest unless there is none. */
  predicate Cuts(front: string, rest: string) {
    (rest == "" || SeparatorFirst(rest)) && forall i :: 0 <= i < |front| ==> !SeparatorFirst((front + rest)[i..])
  }

  ghost predicate Mentions(s: string) {
    exists i: nat :: OccursAt(s, "autoinstall", i)
  }

  /** A kernel line that does not mention autoinstall gets the arguments in front of its first separator; no other line changes. */
  ghost predicate LinePatched(line: string, args: string, out: string) {
    if forall indent, verb, gap, body :: KernelLine(line, indent, verb, gap, body) ==> Mentions(body) then out == line
    else exists indent, verb, gap, front, rest ::
           && KernelLine(line, indent, verb, gap, front + rest) && Cuts(front, rest) && !Mentions(front + rest)
           && out == indent + verb + " " + (front + " " + args + rest)
  }

  lemma BlankIs(s: string)
    ensures forall c :: Blank(c) <==> IsSpace(c)
    ensures OnlyBlanks(s) <==> AllSpaces(s)
  {
  }

  lemma SeparatorIs(body: string, i: nat)
    ensures i <= |body| ==> (SeparatorFirst(body[i..]) <==> SeparatorAt(body, i))
  {
    if i + 4 <= |body| {
      var s := body[i..];
      assert s[1..4] == [s[1], s[2], s[3]] && s[1] == body[i + 1] && s[2] == body[i + 2] && s[3] == body[i + 3];
      BlankIs("");
    }
  }

  /** The body is cut at its insertion point. */
  lemma InsertionCuts(body: string)
    ensures var n := InsertionPoint(body); Cuts(body[..n], body[n..])
  {
    hide SeparatorFirst, SeparatorAt, InsertionPoint;
    var n := InsertionPoint(body);
    SeparatorIs(body, n);
    assert body[..n] + body[n..] == body;
    forall i | 0 <= i < n ensures !SeparatorFirst(body[i..]) { SeparatorIs(body, i); }
  }

  lemma KernelLineIs(line: string, indent: string, verb: string, gap: string, body: string)
    ensures KernelLine(line, indent, verb, gap, body) ==> MatchLine(line) == Some(Match(indent, verb, body))
  {
    hide MatchLine;
    BlankIs(indent);
    BlankIs(gap);
    if KernelLine(line, indent, verb, gap, body) { MatchOf(indent, verb, gap, body); }
  }

  lemma MatchIsKernelLine(line: string) returns (gap: string)
    requires MatchLine(line).Some?
    ensures var m := MatchLine(line).value; KernelLine(line, m.indent, m.verb, gap, m.body)
  {
    hide MatchLine;
    gap := MatchParts(line);
    BlankIs(gap);
    BlankIs(MatchLine(line).value.indent);
  }

  lemma MentionsIs(s: string)
    ensures Mentions(s) <==> Has(s, AUTOINSTALL)
  {
    hide Has, OccursAt;
    HasIff(s, AUTOINSTALL);
  }

  lemma PatchLineMeans(line: string, args: string)
    ensures LinePatched(line, args, PatchLine(line, args))
  {
    hide MatchLine, KernelLine, Cuts, Mentions, Has, InsertionPoint;
    forall indent, verb, gap, body | KernelLine(line, indent, verb, gap, body)
      ensures MatchLine(line) == Some(Match(indent, verb, body)) && (Mentions(body) <==> Has(body, AUTOINSTALL))
    {
      KernelLineIs(line, indent, verb, gap, body);
      MentionsIs(body);
    }
    if MatchLine(line).Some? {
      var m := MatchLine(line).value;
      var gap := MatchIsKernelLine(line);
      MentionsIs(m.body);
      var front, rest := m.body[..InsertionPoint(m.body)], m.body[InsertionPoint(m.body)..];
      InsertionCuts(m.body);
      assert front + rest == m.body;
      assert Patchable(line) ==> KernelLine(line, m.indent, m.verb, gap, front + rest) && Cuts(front, rest) && !Mentions(front + rest);
    }
  }

  /** The number of lines is kept, and exactly the kernel lines without autoinstall change, as said above. */
  lemma PatchKeepsLines(data: string, args: string)
    requires NEWLINE !in args
    ensures var old_, new_ := Split(data, NEWLINE), Split(Patch(data, args), NEWLINE);
            && |new_| == |old_|
            && forall i :: 0 <= i < |old_| ==> LinePatched(old_[i], args, new_[i])
  {
    hide Split, Join, PatchLine, LinePatched;
    PatchedLines(data, args);
    var ls := Split(data, NEWLINE);
    forall i | 0 <= i < |ls| ensures LinePatched(ls[i], args, PatchLine(ls[i], args)) { PatchLineMeans(ls[i], args); }
  }
}
