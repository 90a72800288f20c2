/** Integers in base ten, as `String(n)` and `BigInt(s)` have them. */
module Decimal {

  predicate IsDigit(c: char) {
    '0' <= c <= '9'
  }

  predicate AllDigits(s: string) {
    forall i :: 0 <= i < |s| ==> IsDigit(s[i])
  }

  function Digit(d: nat): (c: char)
    requires d < 10
    ensures IsDigit(c) && DigitValue(c) == d
  {
    ('0' as int + d) as char
  }

  function DigitValue(c: char): (d: nat)
    requires IsDigit(c)
    ensures d < 10
  {
    c as int - '0' as int
  }

  function Digits(n: nat): (s: string)
    ensures s != "" && AllDigits(s)
  {
    if n < 10 then [Digit(n)] else Digits(n / 10) + [Digit(n % 10)]
  }

  function Value(s: string): nat
    requires AllDigits(s)
  {
    if s == "" then 0 else 10 * Value(s[..|s| - 1]) + DigitValue(s[|s| - 1])
  }

  function Print(n: int): (s: string) {
    if n < 0 then "-" + Digits(-n) else Digits(n)
  }

  /** `-?\d+` */
  predicate IsInteger(s: string) {
    && s != ""
    && (if s[0] == '-' then |s| > 1 && AllDigits(s[1..]) else AllDigits(s))
  }

  function Parse(s: string): int
    requires IsInteger(s)
  {
    if s[0] == '-' then -(Value(s[1..]) as int) else Value(s)
  }

  lemma DigitIff(c: char)
    ensures IsDigit(c) <==> c in "0123456789"
  {
    if IsDigit(c) { assert "0123456789"[c as int - '0' as int] == c; }
  }

  /** The digits are the ten characters, in their order. */
  lemma DigitIs(d: nat)
    requires d < 10
    ensures Digit(d) == "0123456789"[d] && DigitValue("0123456789"[d]) == d
  {
  }

  lemma {:induction false} ValueOfDigits(n: nat)
    ensures Value(Digits(n)) == n
  {
    var s := Digits(n);
    if n >= 10 {
      ValueOfDigits(n / 10);
      assert s[..|s| - 1] == Digits(n / 10);
    } else {
      assert s[..|s| - 1] == "";
    }
  }

  /** Every integer prints as one, and parsing gives it back. */
  lemma ParseUndoesPrint(n: int)
    ensures IsInteger(Print(n)) && Parse(Print(n)) == n
  {
    ValueOfDigits(if n < 0 then -n else n);
    if n < 0 { assert Print(n)[1..] == Digits(-n); }
  }

  /** As printing would have it: no leading zeros, and no negative zero. */
  predicate Canonical(s: string)
    requires IsInteger(s)
  {
    if s[0] == '-' then s[1] != '0' else |s| == 1 || s[0] != '0'
  }

  lemma {:induction false} LeadingDigit(s: string)
    requires s != "" && AllDigits(s) && s[0] != '0'
    ensures Value(s) > 0
  {
    if |s| > 1 { LeadingDigit(s[..|s| - 1]); }
  }

  lemma {:induction false} DigitsUndoesValueIff(s: string)
    requires s != "" && AllDigits(s)
    ensures Digits(Value(s)) == s <==> |s| == 1 || s[0] != '0'
  {
    var n := |s| - 1;
    var p, c := s[..n], s[n];
    assert s == p + [c];
    assert Digit(DigitValue(c)) == c;
    if n > 0 {
      DigitsUndoesValueIff(p);
      if p[0] != '0' { LeadingDigit(p); }
      var v := Value(p);
      assert Value(s) == 10 * v + DigitValue(c);
      if v > 0 {
        assert Digits(Value(s)) == Digits(v) + [c];
        assert Digits(Value(s))[..|Digits(v)|] == Digits(v);
      }
    } else {
      assert p == "";
    }
  }

  /** Printing undoes parsing exactly on the canonical spelling. */
  lemma PrintUndoesParseIff(s: string)
    requires IsInteger(s)
    ensures Print(Parse(s)) == s <==> Canonical(s)
  {
    if s[0] == '-' {
      var t := s[1..];
      assert s == "-" + t;
      DigitsUndoesValueIff(t);
      if t[0] != '0' { LeadingDigit(t); }
      if Value(t) > 0 {
        assert Print(Parse(s)) == "-" + Digits(Value(t));
        assert Print(Parse(s))[1..] == Digits(Value(t));
      } else {
        assert Print(Parse(s))[0] != '-';
      }
    } else {
      DigitsUndoesValueIff(s);
    }
  }
}
