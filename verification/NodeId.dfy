/** The 66-hex spelling of a 264-bit node id (src/identity.js) and the region read off it. */
module NodeId {
  import opened Collections

  const WIDTH: nat := 66

  function Digit(d: nat): (c: char)
    requires d < 16
    ensures IsHexDigit(c)
  {
    if d < 10 then '0' + d as char else 'a' + (d - 10) as char
  }

  /** A lowercase hex digit. */
  predicate IsHexDigit(c: char) {
    '0' <= c <= '9' || 'a' <= c <= 'f'
  }

  function DigitValue(c: char): (d: nat)
    requires IsHexDigit(c)
    ensures d < 16 && Digit(d) == c
  {
    if c <= '9' then c as nat - '0' as nat else c as nat - 'a' as nat + 10
  }

  /** A hex digit is one of the sixteen, small letters only. */
  lemma HexDigitIff(c: char)
    ensures IsHexDigit(c) <==> c in "0123456789abcdef"
  {
    if IsHexDigit(c) { DigitIs(DigitValue(c)); }
  }

  /** The digits are the sixteen characters, in their order. */
  lemma DigitIs(d: nat)
    requires d < 16
    ensures Digit(d) == "0123456789abcdef"[d] && DigitValue("0123456789abcdef"[d]) == d
  {
  }

  /** The whole string is lowercase hex. */
  predicate IsHex(s: string) {
    forall i :: 0 <= i < |s| ==> IsHexDigit(s[i])
  }

  predicate IsHex66(s: string) {
    |s| == WIDTH && IsHex(s)
  }

  /** `BigInt('0x' + s)`. */
  function Value(s: string): (n: nat)
    requires IsHex(s)
  {
    if s == "" then 0 else 16 * Value(s[..|s| - 1]) + DigitValue(s[|s| - 1])
  }

  /** `n.toString(16)`: no leading zero, and "0" for zero. */
  function ToHex(n: nat): (s: string)
    ensures |s| > 0 && IsHex(s)
  {
    if n < 16 then [Digit(n)] else ToHex(n / 16) + [Digit(n % 16)]
  }

  function Zeros(k: nat): (s: string)
    ensures |s| == k && IsHex(s)
  {
    seq(k, _ => '0')
  }

  /** `s.padStart(width, '0')`. */
  function PadStart(s: string, width: nat): string {
    if |s| >= width then s else Zeros(width - |s|) + s
  }

  function IdToHex(n: nat): string {
    PadStart(ToHex(n), WIDTH)
  }

  function Pow16(k: nat): (p: nat)
    ensures p > 0
  {
    if k == 0 then 1 else 16 * Pow16(k - 1)
  }

  lemma {:induction false} ValueOfPadded(k: nat, s: string)
    requires IsHex(s)
    ensures IsHex(Zeros(k) + s) && Value(Zeros(k) + s) == Value(s)
    decreases k + |s|
  {
    var t := Zeros(k) + s;
    if s == "" {
      if k > 0 {
        assert t == Zeros(k) && t[..|t| - 1] == Zeros(k - 1) + "";
        ValueOfPadded(k - 1, "");
      }
    } else {
      assert t[..|t| - 1] == Zeros(k) + s[..|s| - 1];
      ValueOfPadded(k, s[..|s| - 1]);
    }
  }

  lemma {:induction false} ValueOfToHex(n: nat)
    ensures Value(ToHex(n)) == n
  {
    if n >= 16 {
      ValueOfToHex(n / 16);
      assert ToHex(n)[..|ToHex(n)| - 1] == ToHex(n / 16);
    } else {
      assert ToHex(n)[..0] == "";
    }
  }

  /** A number has at most k digits exactly when it is below 16^k. */
  lemma {:induction false} ToHexLength(n: nat, k: nat)
    requires k > 0
    ensures |ToHex(n)| <= k <==> n < Pow16(k)
  {
    if n >= 16 {
      if k > 1 {
        ToHexLength(n / 16, k - 1);
        assert n / 16 < Pow16(k - 1) <==> n < 16 * Pow16(k - 1);
      } else {
        assert Pow16(1) == 16 * Pow16(0) == 16;
      }
    } else {
      PowGrows(k);
    }
  }

  lemma {:induction false} PowGrows(k: nat)
    requires k > 0
    ensures Pow16(k) >= 16
  {
    if k > 1 { PowGrows(k - 1); } else { assert Pow16(1) == 16 * Pow16(0); }
  }

  lemma PaddedParses(n: nat, width: nat)
    requires width > 0
    ensures IsHex(PadStart(ToHex(n), width)) && Value(PadStart(ToHex(n), width)) == n
    ensures |PadStart(ToHex(n), width)| == width <==> n < Pow16(width)
  {
    ValueOfToHex(n);
    ToHexLength(n, width);
    if |ToHex(n)| < width {
      ValueOfPadded(width - |ToHex(n)|, ToHex(n));
    }
  }

  /** Parsing undoes printing for every id; the print is 66 hex digits exactly for ids below 2^264. */
  lemma ParseUndoesPrint(n: nat)
    ensures IsHex(IdToHex(n)) && Value(IdToHex(n)) == n
    ensures IsHex66(IdToHex(n)) <==> n < Pow16(WIDTH)
  {
    PaddedParses(n, WIDTH);
  }

  lemma {:induction false} ValueBound(s: string)
    requires IsHex(s)
    ensures Value(s) < Pow16(|s|)
  {
    if s != "" {
      ValueBound(s[..|s| - 1]);
    }
  }

  /** Two spellings of the same width and value are the same spelling. */
  lemma {:induction false} ValueInjective(s: string, t: string)
    requires IsHex(s) && IsHex(t) && |s| == |t| && Value(s) == Value(t)
    ensures s == t
  {
    if s != "" {
      var s', t' := s[..|s| - 1], t[..|t| - 1];
      assert Value(s') == Value(s) / 16 && Value(t') == Value(t) / 16;
      ValueInjective(s', t');
      assert DigitValue(s[|s| - 1]) == DigitValue(t[|t| - 1]);
      assert s == s' + [s[|s| - 1]] && t == t' + [t[|t| - 1]];
    }
  }

  /** Printing undoes parsing for every 66-hex spelling. */
  lemma PrintUndoesParse(s: string)
    requires IsHex66(s)
    ensures Value(s) < Pow16(WIDTH) && IdToHex(Value(s)) == s
  {
    ValueBound(s);
    ParseUndoesPrint(Value(s));
    ValueInjective(IdToHex(Value(s)), s);
  }

  /** The region of a bound identity: `idToHex(nid).slice(0, 2)`. */
  function BoundRegion(n: nat): string {
    var h := IdToHex(n);
    if |h| < 2 then h else h[..2]
  }

  /** The region a client-hello claims with its `nodeId` field (src/anchor_select.js): a hint, never a binding. */
  function ClaimedRegion(nodeId: Option<string>): Option<string> {
    match nodeId
    case Some(v) => if IsHex66(v) then Some(v[..2]) else None
    case None => None
  }

  /** The value of a spelling is its head's, shifted by the tail's digits, plus its tail's. */
  lemma {:induction false} ValueSplit(s: string, k: nat)
    requires IsHex(s) && k <= |s|
    ensures Value(s) == Value(s[..k]) * Pow16(|s| - k) + Value(s[k..])
  {
    if k == |s| {
      assert s[..k] == s && s[k..] == "";
    } else {
      var front := s[..|s| - 1];
      ValueSplit(front, k);
      assert front[..k] == s[..k] && s[k..][..|s[k..]| - 1] == front[k..];
      ShiftDigits(Value(s[..k]), Pow16(|front| - k), Value(front[k..]));
    }
  }

  lemma ShiftDigits(head: nat, p: nat, rest: nat)
    ensures 16 * (head * p + rest) == head * (16 * p) + 16 * rest
  {
  }

  /**
   The region printed for a bound 264-bit id is its top byte, floor(id / 2^256), as two hex
   digits, and a client that claims that id's spelling claims that same region.
  */
  lemma RegionIsTopByte(n: nat)
    requires n < Pow16(WIDTH)
    ensures IsHex(BoundRegion(n)) && |BoundRegion(n)| == 2
    ensures Value(BoundRegion(n)) == n / Pow16(64)
    ensures ClaimedRegion(Some(IdToHex(n))) == Some(BoundRegion(n))
  {
    ParseUndoesPrint(n);
    var h := IdToHex(n);
    ValueSplit(h, 2);
    ValueBound(h[2..]);
    DivideOut(Value(h[..2]), Pow16(64), Value(h[2..]));
  }

  lemma DivideOut(a: nat, p: nat, b: nat)
    requires b < p
    ensures (a * p + b) / p == a
  {
    var q := (a * p + b) / p;
    assert q * p <= a * p + b < q * p + p;
    assert (q + 1) * p == q * p + p && (a + 1) * p == a * p + p;
    CancelFactor(q, a + 1, p);
    CancelFactor(a, q + 1, p);
  }

  lemma CancelFactor(x: nat, y: nat, p: nat)
    requires x * p < y * p
    ensures x < y
  {
    var gap: int := x - y;
    assert gap >= 0 ==> gap * p >= 0;
    assert gap * p == x * p - y * p;
  }

  /** A claim of anything but 66 lowercase hex digits is no claim. */
  lemma OnlyHex66Claims(v: string)
    ensures ClaimedRegion(Some(v)).Some? <==> IsHex66(v)
    ensures IsHex66(v) ==> ClaimedRegion(Some(v)).value == BoundRegion(Value(v))
  {
    if IsHex66(v) {
      PrintUndoesParse(v);
    }
  }
}
