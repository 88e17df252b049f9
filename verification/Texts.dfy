/** Strings as the Python sources handle them: stripping and decimal numerals. */
module Texts {

  predicate IsDigit(c: char) { '0' <= c <= '9' }

  /** The characters `str.strip` removes. */
  predicate IsSpace(c: char) {
    || '\t' <= c <= '\r' || '\U{1C}' <= c <= ' ' || c == '\U{85}' || c == '\U{A0}' || c == '\U{1680}'
    || '\U{2000}' <= c <= '\U{200A}' || c == '\U{2028}' || c == '\U{2029}'
    || c == '\U{202F}' || c == '\U{205F}' || c == '\U{3000}'
  }

  function StripLeft(s: string): string {
    if s != "" && IsSpace(s[0]) then StripLeft(s[1..]) else s
  }

  function StripRight(s: string): string {
    if s != "" && IsSpace(s[|s| - 1]) then StripRight(s[..|s| - 1]) else s
  }

  function Strip(s: string): string { StripRight(StripLeft(s)) }

  lemma StripNothing(s: string)
    requires forall c :: c in s ==> !IsSpace(c)
    ensures Strip(s) == s
  {
  }

  lemma {:induction false} StripLeftEnds(s: string)
    ensures var t := StripLeft(s); (t != "" ==> !IsSpace(t[0])) && StripLeft(t) == t
  {
    if s != "" && IsSpace(s[0]) { StripLeftEnds(s[1..]); }
  }

  lemma {:induction false} StripRightEnds(s: string)
    ensures var t := StripRight(s); (t != "" ==> s != "" && t[0] == s[0] && !IsSpace(t[|t| - 1])) && StripRight(t) == t
  {
    if s != "" && IsSpace(s[|s| - 1]) { StripRightEnds(s[..|s| - 1]); }
  }

  /** Stripping takes white space off both ends and nothing else. */
  lemma StripIs(s: string) returns (a: string, b: string)
    ensures s == a + Strip(s) + b
    ensures forall c :: c in a + b ==> IsSpace(c)
    ensures Strip(s) != "" ==> !IsSpace(Strip(s)[0]) && !IsSpace(Strip(s)[|Strip(s)| - 1])
  {
    a := TakenLeft(s);
    b := TakenRight(StripLeft(s));
    StripLeftEnds(s);
    StripRightEnds(StripLeft(s));
  }

  lemma {:induction false} TakenLeft(s: string) returns (a: string)
    ensures s == a + StripLeft(s) && forall c :: c in a ==> IsSpace(c)
  {
    a := "";
    if s != "" && IsSpace(s[0]) {
      var rest := TakenLeft(s[1..]);
      a := [s[0]] + rest;
    }
  }

  lemma {:induction false} TakenRight(s: string) returns (b: string)
    ensures s == StripRight(s) + b && forall c :: c in b ==> IsSpace(c)
  {
    b := "";
    if s != "" && IsSpace(s[|s| - 1]) {
      var rest := TakenRight(s[..|s| - 1]);
      b := rest + [s[|s| - 1]];
    }
  }

  /** Stripping twice is stripping once. */
  lemma StripTwice(s: string)
    ensures Strip(Strip(s)) == Strip(s)
  {
    StripLeftEnds(s);
    StripRightEnds(StripLeft(s));
    var t := Strip(s);
    if t != "" { assert StripLeft(t) == t; }
  }

  /** `str(n)` for a natural number. */
  function Numeral(n: nat): (s: string)
    ensures |s| > 0 && forall c :: c in s ==> IsDigit(c)
  {
    if n < 10 then [Digit(n)] else Numeral(n / 10) + [Digit(n % 10)]
  }

  function Digit(d: nat): (c: char)
    requires d < 10
    ensures IsDigit(c) && DigitValue(c) == d
  {
    '0' + d as char
  }

  function DigitValue(c: char): nat
    requires IsDigit(c)
  {
    c as int - '0' as int
  }

  /** `int(s)` for a string of digits. */
  function Value(s: string): nat
    requires forall c :: c in s ==> IsDigit(c)
  {
    if s == "" then 0 else 10 * Value(s[..|s| - 1]) + DigitValue(s[|s| - 1])
  }

  lemma {:induction false} ValueOfNumeral(n: nat)
    ensures Value(Numeral(n)) == n
  {
    if n >= 10 {
      ValueOfNumeral(n / 10);
      var s := Numeral(n / 10) + [Digit(n % 10)];
      assert s[..|s| - 1] == Numeral(n / 10);
    }
  }

  /** Reading digits and writing the number again, leading zeros gone, is no longer. */
  lemma {:induction false} NumeralNoLonger(s: string)
    requires s != "" && forall c :: c in s ==> IsDigit(c)
    ensures |Numeral(Value(s))| <= |s|
  {
    var front := s[..|s| - 1];
    assert s[|s| - 1] in s && forall c :: c in front ==> c in s;
    if front == "" {
      assert Value(s) < 10;
    } else {
      NumeralNoLonger(front);
      var n := Value(s);
      assert n / 10 == Value(front);
      if n < 10 { assert |Numeral(n)| == 1; }
    }
  }

  /** Different numbers have different numerals. */
  lemma NumeralInjective(a: nat, b: nat)
    requires Numeral(a) == Numeral(b)
    ensures a == b
  {
    ValueOfNumeral(a);
    ValueOfNumeral(b);
  }

  /** `str(n)` for an integer. */
  function Str(n: int): (s: string)
    ensures n < 0 ==> s == "-" + Numeral(-n)
    ensures n >= 0 ==> s == Numeral(n) && s[0] != '-'
  {
    if n < 0 then "-" + Numeral(-n) else assert Numeral(n)[0] in Numeral(n); Numeral(n)
  }

  lemma StrInjective(a: int, b: int)
    requires Str(a) == Str(b)
    ensures a == b
  {
    if a < 0 && b < 0 {
      assert Str(a)[1..] == Numeral(-a) && Str(b)[1..] == Numeral(-b);
      NumeralInjective(-a, -b);
    } else if a >= 0 && b >= 0 {
      NumeralInjective(a, b);
    }
  }
}
