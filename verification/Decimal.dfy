/** strconv.Itoa and strconv.Atoi on 64-bit integers. */
module Decimal {
  import opened Common

  predicate IsDigit(c: char) {
    '0' <= c <= '9'
  }

  /** Without leading zeros. */
  function Digits(n: nat): (r: string)
    ensures r != "" && forall c :: c in r ==> IsDigit(c)
    ensures n > 0 ==> '1' <= r[0] <= '9'
    ensures n == 0 ==> r == "0"
  {
    (if n < 10 then "" else Digits(n / 10)) + [('0' as int + n % 10) as char]
  }

  function Natural(s: string): nat
    requires forall c :: c in s ==> IsDigit(c)
  {
    if s == "" then 0
    else
      assert IsDigit(s[|s| - 1]);
      10 * Natural(s[..|s| - 1]) + (s[|s| - 1] as int - '0' as int)
  }

  /** An optional sign and at least one digit, of any size. */
  function Integer(s: string): Option<int> {
    var negative, signed := "-" <= s, "-" <= s || "+" <= s;
    var body := if signed then s[1..] else s;
    if body == "" || exists c :: c in body && !IsDigit(c) then None
    else
      var n: int := Natural(body);
      Some(if negative then -n else n)
  }

  const MIN_INT := -0x8000_0000_0000_0000
  const MAX_INT := 0x7fff_ffff_ffff_ffff

  predicate Fits(n: int) {
    MIN_INT <= n <= MAX_INT
  }

  /** What a product of two ints is when it does not fit. */
  function Wrap(n: int): (r: int)
    ensures Fits(r)
    ensures Fits(n) <==> r == n
    ensures (r - n) % 0x1_0000_0000_0000_0000 == 0
  {
    (n - MIN_INT) % 0x1_0000_0000_0000_0000 + MIN_INT
  }

  function Atoi(s: string): Option<int> {
    var n := Integer(s);
    if n.Some? && Fits(n.value) then n else None
  }

  /** The number that it reads back as, with no leading zero and a sign only when it is negative. */
  function Itoa(n: int): (r: string)
    ensures r != "" && IsDigit(r[|r| - 1])
    ensures n > 0 ==> '1' <= r[0] <= '9'
    ensures n == 0 ==> r == "0"
    ensures n < 0 ==> |r| > 1 && r[0] == '-' && '1' <= r[1] <= '9'
  {
    if n < 0 then "-" + Digits(-n) else Digits(n)
  }

  lemma {:induction false} NaturalOfDigits(n: nat)
    ensures Natural(Digits(n)) == n
  {
    var s := Digits(n);
    var last := ('0' as int + n % 10) as char;
    if n >= 10 {
      NaturalOfDigits(n / 10);
      assert s[..|s| - 1] == Digits(n / 10);
    }
  }

  lemma IntegerOfItoa(n: int)
    ensures Integer(Itoa(n)) == Some(n)
  {
    hide Digits, Natural;
    var d := Digits(if n < 0 then -n else n);
    NaturalOfDigits(if n < 0 then -n else n);
    assert d[0] in d;
    if n < 0 { assert Itoa(n)[1..] == d; }
  }

  lemma IntegerEndsInDigit(s: string)
    requires Integer(s).Some?
    ensures s != "" && IsDigit(s[|s| - 1])
  {
    var body := if "-" <= s || "+" <= s then s[1..] else s;
    assert body[|body| - 1] in body;
  }

  lemma {:induction false} ZeroInFront(s: string)
    requires forall c :: c in s ==> IsDigit(c)
    ensures forall c :: c in "0" + s ==> IsDigit(c)
    ensures Natural("0" + s) == Natural(s)
    decreases |s|
  {
    var t := "0" + s;
    if s != "" {
      var n := |s| - 1;
      ZeroInFront(s[..n]);
      assert t[..|t| - 1] == "0" + s[..n];
    } else {
      assert t == "0" && t[..0] == "";
    }
  }

  /** Leading zeros and a plus sign make no difference, a minus sign negates, and nothing but digits may follow. */
  lemma SignsAndZeros(s: string)
    requires s != ""
    ensures (forall c :: c in s ==> IsDigit(c)) ==>
              && Integer(s).Some? && Integer("0" + s) == Integer(s) && Integer("+" + s) == Integer(s)
              && Integer("-" + s) == Some(-Integer(s).value)
    ensures (exists c :: c in s && !IsDigit(c)) ==> Integer("+" + s).None? && Integer("-" + s).None? && (IsDigit(s[0]) ==> Integer(s).None?)
  {
    hide Natural;
    assert ("+" + s)[1..] == s && ("-" + s)[1..] == s && s[0] in s;
    if forall c :: c in s ==> IsDigit(c) { ZeroInFront(s); }
  }
}
