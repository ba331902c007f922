/** Disk sizes as normalizeSizeGiB rewrites them. */
module DiskSize {
  import opened Common
  import opened Text
  import opened Decimal

  /** Where the text up to the last digit ends. */
  function NumEnd(s: string): (n: nat)
    ensures n <= |s| && (n > 0 ==> IsDigit(s[n - 1])) && forall k :: n <= k < |s| ==> !IsDigit(s[k])
  {
    if s == "" || IsDigit(s[|s| - 1]) then |s| else NumEnd(s[..|s| - 1])
  }

  /** unicode.ToUpper, as far as the result can be an ASCII letter. */
  function Upper(c: char): char {
    if 'a' <= c <= 'z' then (c as int - 32) as char
    else if c == '\U{131}' then 'I'
    else if c == '\U{17F}' then 'S'
    else c
  }

  function ToUpper(s: string): string {
    seq(|s|, i requires 0 <= i < |s| => Upper(s[i]))
  }

  datatype Unit = Giga | Tera | Mega | Unknown

  function UnitOf(tail: string): Unit {
    var suffix := ToUpper(TrimSpace(tail));
    if suffix in Names(Giga) then Giga
    else if suffix in Names(Tera) then Tera
    else if suffix in Names(Mega) then Mega
    else Unknown
  }

  function Names(u: Unit): seq<string> {
    match u
    case Giga => ["G", "GB", "GIB"]
    case Tera => ["T", "TB", "TIB"]
    case Mega => ["M", "MB", "MIB"]
    case Unknown => []
  }

  /** The unit's letter, or that and b, or that and ib, in any case; the dotless i has the same capital letter. */
  predicate Written(word: string, u: Unit) {
    && word != "" && word[0] in (match u case Giga => "gG" case Tera => "tT" case Mega => "mM" case Unknown => "")
    && (|word| == 1 || (|word| == 2 && word[1] in "bB") || (|word| == 3 && word[1] in "iI\U{131}" && word[2] in "bB"))
  }

  lemma UpperLetters(c: char)
    ensures (Upper(c) == 'G' <==> c in "gG") && (Upper(c) == 'T' <==> c in "tT") && (Upper(c) == 'M' <==> c in "mM")
    ensures (Upper(c) == 'B' <==> c in "bB") && (Upper(c) == 'I' <==> c in "iI\U{131}")
  {
  }

  lemma WrittenIff(word: string, u: Unit)
    ensures Written(word, u) <==> ToUpper(word) in Names(u)
  {
    hide Upper;
    var up := ToUpper(word);
    forall i | 0 <= i < |word| { UpperLetters(word[i]); }
    if 0 < |word| <= 3 {
      assert up == [Upper(word[0])] || up == [Upper(word[0]), Upper(word[1])] || up == [Upper(word[0]), Upper(word[1]), Upper(word[2])];
    }
  }

  /** The tail is one of the unit's names between blanks. */
  ghost predicate Spells(tail: string, u: Unit) {
    exists front, word, back :: tail == front + word + back && AllBlanks(front) && AllBlanks(back) && Written(word, u)
  }

  lemma NamesAreDistinct(name: string, u: Unit, v: Unit)
    requires name in Names(u) && name in Names(v)
    ensures u == v && name != "" && 'A' <= name[0] <= 'Z' && 'A' <= name[|name| - 1] <= 'Z'
  {
    assert name[0] == (match u case Giga => 'G' case Tera => 'T' case Mega => 'M' case Unknown => 'A');
    assert name[0] == (match v case Giga => 'G' case Tera => 'T' case Mega => 'M' case Unknown => 'A');
  }

  lemma LettersAreNotBlank(c: char)
    requires 'A' <= Upper(c) <= 'Z'
    ensures !IsBlank(c)
  {
  }

  /** Blanks around a unit and the case of its letters do not matter, and nothing else passes for a unit. */
  lemma UnitOfIff(tail: string, u: Unit)
    requires u != Unknown
    ensures UnitOf(tail) == u <==> Spells(tail, u)
  {
    hide TrimSpace, IsBlank, Upper, Names, AllBlanks, Written;
    if UnitOf(tail) == u {
      var front, back := TrimSpaceIs(tail);
      WrittenIff(TrimSpace(tail), u);
      assert tail == front + TrimSpace(tail) + back && ToUpper(TrimSpace(tail)) in Names(u);
    }
    if Spells(tail, u) {
      var front, word, back :| tail == front + word + back && AllBlanks(front) && AllBlanks(back) && Written(word, u);
      WrittenIff(word, u);
      NamesAreDistinct(ToUpper(word), u, u);
      LettersAreNotBlank(word[0]);
      LettersAreNotBlank(word[|word| - 1]);
      TrimUnique(front, word, back);
      if UnitOf(tail) != Unknown {
        NamesAreDistinct(ToUpper(word), u, UnitOf(tail));
      }
    }
  }

  function Rewritten(s: string, num: string, unit: Unit): string {
    var n := Atoi(num);
    match unit
    case Giga => num
    case Tera => if n.Some? then Itoa(Wrap(n.value * 1024)) else s
    case Mega => if n.Some? && n.value % 1024 == 0 then Itoa(n.value / 1024) else s
    case Unknown => s
  }

  function Normalize(s: string): string {
    var end := NumEnd(s);
    if end == 0 || end == |s| then s else Rewritten(s, s[..end], UnitOf(s[end..]))
  }

  method NormalizeSizeGiB(s: string) returns (r: string)
    ensures r == Normalize(s)
  {
    if s == "" { return s; }
    var end := |s|;
    while end > 0
      invariant 0 <= end <= |s|
      invariant NumEnd(s) == NumEnd(s[..end])
    {
      var c := s[end - 1];
      if '0' <= c <= '9' { break; }
      assert s[..end][..end - 1] == s[..end - 1];
      end := end - 1;
    }
    if end == 0 || end == |s| { return s; }
    var num := s[..end];
    match UnitOf(s[end..]) {
      case Giga => return num;
      case Tera =>
        var n := Atoi(num);
        if n.Some? { return Itoa(Wrap(n.value * 1024)); }
      case Mega =>
        var n := Atoi(num);
        if n.Some? && n.value % 1024 == 0 { return Itoa(n.value / 1024); }
      case Unknown =>
    }
    return s;
  }

  // ----- what a size means

  /** MiB per unit; a bare number counts GiB. */
  function Scale(tail: string): Option<int> {
    if tail == "" then Some(1024)
    else match UnitOf(tail)
         case Giga => Some(1024)
         case Tera => Some(1024 * 1024)
         case Mega => Some(1)
         case Unknown => None
  }

  /** s is a decimal integer followed by a unit, mib MiB in all. */
  ghost predicate Denotes(s: string, mib: int) {
    exists num, tail :: s == num + tail && Integer(num).Some? && Scale(tail).Some? && NumEnd(tail) == 0
                        && mib == Integer(num).value * Scale(tail).value
  }

  /** The number is everything up to the last digit. */
  lemma SplitIsUnique(num: string, tail: string)
    requires num != "" && IsDigit(num[|num| - 1]) && NumEnd(tail) == 0
    ensures NumEnd(num + tail) == |num|
  {
    var s := num + tail;
    assert s[|num| - 1] == num[|num| - 1];
    assert forall k :: |num| <= k < |s| ==> s[k] == tail[k - |num|];
  }

  lemma DenotesOne(num: string, tail: string, mib: int)
    requires Integer(num).Some? && Scale(tail).Some? && NumEnd(tail) == 0 && Denotes(num + tail, mib)
    ensures mib == Integer(num).value * Scale(tail).value
  {
    hide Integer, Scale, NumEnd;
    var num', tail' :| num + tail == num' + tail' && Integer(num').Some? && Scale(tail').Some? && NumEnd(tail') == 0
                       && mib == Integer(num').value * Scale(tail').value;
    IntegerEndsInDigit(num);
    IntegerEndsInDigit(num');
    SplitIsUnique(num, tail);
    SplitIsUnique(num', tail');
    assert num == (num + tail)[..|num|] == num';
    assert tail == (num + tail)[|num|..] == tail';
  }

  /** n * 1024 leaves the range of int: the one case in which the rewritten size is another one. */
  predicate Overflows(num: string, tail: string)
    requires Integer(num).Some?
  {
    tail != "" && UnitOf(tail) == Tera && Fits(Integer(num).value) && !Fits(Integer(num).value * 1024)
  }

  /** A size with a unit that Proxmox is then given as a bare number of GiB. */
  predicate BecomesBare(num: string, tail: string)
    requires Integer(num).Some?
  {
    var n := Integer(num).value;
    || tail == "" || UnitOf(tail) == Giga || (UnitOf(tail) == Tera && Fits(n))
    || (UnitOf(tail) == Mega && Fits(n) && n % 1024 == 0)
  }

  lemma NormalizeParts(num: string, tail: string)
    requires Integer(num).Some? && NumEnd(tail) == 0
    ensures Normalize(num + tail) == if tail == "" then num else Rewritten(num + tail, num, UnitOf(tail))
  {
    hide Integer, UnitOf, Rewritten;
    IntegerEndsInDigit(num);
    SplitIsUnique(num, tail);
    assert (num + tail)[..|num|] == num && (num + tail)[|num|..] == tail;
    if tail == "" { assert num + tail == num; }
  }

  lemma BareDenotes(n: int, mib: int)
    ensures Denotes(Itoa(n), mib) <==> mib == n * 1024
  {
    hide Itoa, Integer;
    IntegerOfItoa(n);
    assert Itoa(n) + "" == Itoa(n);
    if Denotes(Itoa(n), mib) { DenotesOne(Itoa(n), "", mib); }
  }

  /**
   * Whatever the number and the unit, the size is the same after as before, except exactly when the product overflows;
   * and what comes out is a bare number exactly for G, for T in range, and for M in range and divisible.
   */
  lemma NormalizeKeepsSizeIff(num: string, tail: string)
    requires Integer(num).Some? && Scale(tail).Some? && NumEnd(tail) == 0
    ensures Denotes(num + tail, Integer(num).value * Scale(tail).value)
    ensures Denotes(Normalize(num + tail), Integer(num).value * Scale(tail).value) <==> !Overflows(num, tail)
    ensures Integer(Normalize(num + tail)).Some? <==> BecomesBare(num, tail)
  {
    hide Itoa, Integer, UnitOf, Denotes, NumEnd, Normalize, Wrap;
    var n, s := Integer(num).value, num + tail;
    DenotesItself(num, tail);
    NormalizeParts(num, tail);
    if tail != "" {
      TailIsNoInteger(num, tail);
      match UnitOf(tail) {
        case Giga =>
          DenotesItself(num, "");
          assert num + "" == num;
        case Tera =>
          BareDenotes(Wrap(n * 1024), n * (1024 * 1024));
          IntegerOfItoa(Wrap(n * 1024));
        case Mega =>
          BareDenotes(n / 1024, n);
          IntegerOfItoa(n / 1024);
        case Unknown =>
      }
    } else {
      assert num + "" == num;
    }
  }

  /** The text that comes out, unit by unit; whatever is not listed comes out as it went in. */
  lemma NormalizesTo(num: string, tail: string)
    requires Integer(num).Some? && NumEnd(tail) == 0
    ensures var n, out := Integer(num).value, Normalize(num + tail);
            if Spells(tail, Giga) then out == num
            else if Spells(tail, Tera) && Fits(n) then out == Itoa(Wrap(n * 1024))
            else if Spells(tail, Mega) && Fits(n) && n % 1024 == 0 then out == Itoa(n / 1024)
            else out == num + tail
  {
    hide Itoa, Integer, UnitOf, NumEnd, Normalize, Wrap, Spells;
    NormalizeParts(num, tail);
    UnitOfIff(tail, Giga);
    UnitOfIff(tail, Tera);
    UnitOfIff(tail, Mega);
    if tail == "" {
      assert num + tail == num;
      NoUnitIsEmpty();
    }
  }

  lemma NoUnitIsEmpty()
    ensures UnitOf("") == Unknown
  {
  }

  lemma DenotesItself(num: string, tail: string)
    requires Integer(num).Some? && Scale(tail).Some? && NumEnd(tail) == 0
    ensures Denotes(num + tail, Integer(num).value * Scale(tail).value)
  {
  }

  lemma TailIsNoInteger(num: string, tail: string)
    requires Integer(num).Some? && tail != "" && NumEnd(tail) == 0
    ensures Integer(num + tail).None?
  {
    hide Integer;
    if Integer(num + tail).Some? {
      IntegerEndsInDigit(num);
      IntegerEndsInDigit(num + tail);
      SplitIsUnique(num, tail);
    }
  }

  lemma EndsInDigitStays(s: string)
    requires s != "" && IsDigit(s[|s| - 1])
    ensures Normalize(s) == s
  {
  }

  /** Rewriting a rewritten size changes nothing, whatever the input. */
  lemma NormalizeIsIdempotent(s: string)
    ensures Normalize(Normalize(s)) == Normalize(s)
  {
    hide UnitOf, Atoi;
    if Normalize(s) != s { EndsInDigitStays(Normalize(s)); }
  }

  /** A string that is not a size is left alone exactly unless it ends in a digit and a G unit: "a1G" becomes "a1". */
  lemma NonSizeStaysIff(s: string)
    requires forall mib :: !Denotes(s, mib)
    ensures Normalize(s) == s <==> !(0 < NumEnd(s) < |s| && UnitOf(s[NumEnd(s)..]) == Giga)
  {
    hide UnitOf, Integer;
    var end := NumEnd(s);
    if 0 < end < |s| {
      var num, tail := s[..end], s[end..];
      assert s == num + tail && NumEnd(tail) == 0;
      if Integer(num).Some? && Scale(tail).Some? { DenotesItself(num, tail); }
    }
  }

  lemma SizeSplitsAtLastDigit(s: string, mib: int)
    requires Denotes(s, mib)
    ensures Integer(s[..NumEnd(s)]).Some?
  {
    hide Integer, Scale, NumEnd;
    var num, tail :| s == num + tail && Integer(num).Some? && Scale(tail).Some? && NumEnd(tail) == 0
                     && mib == Integer(num).value * Scale(tail).value;
    IntegerEndsInDigit(num);
    SplitIsUnique(num, tail);
    assert s[..|num|] == num;
  }

  lemma NonSizeExample()
    ensures Normalize("a1G") == "a1" && forall mib :: !Denotes("a1G", mib)
  {
    hide Denotes, Integer, Scale;
    assert NumEnd("a1G") == 2 by { assert "a1" + "G" == "a1G"; SplitIsUnique("a1", "G"); }
    assert TrimSpace("G") == "G" && ToUpper("G") == "G";
    assert "a1G"[..2] == "a1";
    LetterIsNoInteger();
    forall mib ensures !Denotes("a1G", mib) {
      if Denotes("a1G", mib) { SizeSplitsAtLastDigit("a1G", mib); }
    }
  }

  lemma LetterIsNoInteger()
    ensures Integer("a1").None?
  {
    assert "a1"[0] == 'a' && 'a' in "a1" && !IsDigit('a');
  }

  /** An overflow is real: 2 to the 53 TiB come out as another size. */
  lemma OverflowExample()
    ensures var num := Itoa(0x20_0000_0000_0000);
            Denotes(num + "T", 0x20_0000_0000_0000 * 1024 * 1024) && !Denotes(Normalize(num + "T"), 0x20_0000_0000_0000 * 1024 * 1024)
  {
    hide Itoa, Integer, Denotes, Normalize;
    IntegerOfItoa(0x20_0000_0000_0000);
    TeraUnit();
    NormalizeKeepsSizeIff(Itoa(0x20_0000_0000_0000), "T");
  }

  lemma TeraUnit()
    ensures UnitOf("T") == Tera && NumEnd("T") == 0
  {
    assert TrimSpace("T") == "T" && ToUpper("T") == "T";
    assert "T" in Names(Tera) && "T" !in Names(Giga);
  }
}
