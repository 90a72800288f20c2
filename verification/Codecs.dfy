/** BigInts and sets on the wire: `bigintReplacer` and `bigintReviver` (src/server.js), on value trees. */
module Codecs {
  import D = Decimal

  datatype Field = Field(key: string, value: Value)

  datatype Value =
    | Null
    | Bool(b: bool)
    | Num(x: real)
    | Str(s: string)
    | Big(n: int)
    | Arr(items: seq<Value>)
    | SetOf(members: seq<Value>)
    | Obj(fields: seq<Field>)

  /** `/^-?\d+n$/` */
  predicate IsBigLiteral(s: string) {
    s != "" && s[|s| - 1] == 'n' && D.IsInteger(s[..|s| - 1])
  }

  /** Decimal digits from `k` up to the last character, at least one, and then an n. */
  ghost predicate DigitsThenN(s: string, k: nat) {
    k + 1 < |s| && s[|s| - 1] == 'n' && forall i :: k <= i < |s| - 1 ==> s[i] in "0123456789"
  }

  lemma DigitsFrom(s: string, k: nat)
    requires s != "" && s[|s| - 1] == 'n' && k < |s|
    ensures DigitsThenN(s, k) <==> s[..|s| - 1][k..] != "" && D.AllDigits(s[..|s| - 1][k..])
  {
    var u := s[..|s| - 1][k..];
    assert forall i :: 0 <= i < |u| ==> u[i] == s[i + k];
    forall i | 0 <= i < |u| ensures D.IsDigit(u[i]) <==> u[i] in "0123456789" { D.DigitIff(u[i]); }
    if u != "" && D.AllDigits(u) {
      forall i | k <= i < |s| - 1 ensures s[i] in "0123456789" { assert s[i] == u[i - k]; }
    }
  }

  /** Such a string, or one with a minus in front. */
  lemma LiteralIs(s: string)
    ensures IsBigLiteral(s) <==> DigitsThenN(s, 0) || (s != "" && s[0] == '-' && DigitsThenN(s, 1))
  {
    if s != "" && s[|s| - 1] == 'n' {
      var t := s[..|s| - 1];
      DigitsFrom(s, 0);
      assert t[0..] == t;
      if |s| > 1 { DigitsFrom(s, 1); }
      D.DigitIff(s[0]);
    }
  }

  function PrintBig(n: int): string {
    D.Print(n) + "n"
  }

  function ParseBig(s: string): int
    requires IsBigLiteral(s)
  {
    D.Parse(s[..|s| - 1])
  }

  // ----- Out and in -----

  /** `JSON.stringify` with the replacer: what it returns is walked in turn. */
  function Replace(v: Value): Value {
    match v
    case Big(n) => Str(PrintBig(n))
    case Arr(items) => Arr(seq(|items|, i requires 0 <= i < |items| => Replace(items[i])))
    case SetOf(members) => Arr(seq(|members|, i requires 0 <= i < |members| => Replace(members[i])))
    case Obj(fields) =>
      Obj(seq(|fields|, i requires 0 <= i < |fields| => Field(fields[i].key, Replace(fields[i].value))))
    case _ => v
  }

  /** `JSON.parse` with the reviver: leaves first. */
  function Revive(v: Value): Value {
    match v
    case Str(s) => if IsBigLiteral(s) then Big(ParseBig(s)) else v
    case Arr(items) => Arr(seq(|items|, i requires 0 <= i < |items| => Revive(items[i])))
    case Obj(fields) =>
      Obj(seq(|fields|, i requires 0 <= i < |fields| => Field(fields[i].key, Revive(fields[i].value))))
    case _ => v
  }

  /** The same value with its sets written as arrays. */
  function Flatten(v: Value): Value {
    match v
    case Arr(items) => Arr(seq(|items|, i requires 0 <= i < |items| => Flatten(items[i])))
    case SetOf(members) => Arr(seq(|members|, i requires 0 <= i < |members| => Flatten(members[i])))
    case Obj(fields) =>
      Obj(seq(|fields|, i requires 0 <= i < |fields| => Field(fields[i].key, Flatten(fields[i].value))))
    case _ => v
  }

  /** No string anywhere in the tree looks like a BigInt. */
  predicate Unambiguous(v: Value) {
    match v
    case Str(s) => !IsBigLiteral(s)
    case Arr(items) => forall i :: 0 <= i < |items| ==> Unambiguous(items[i])
    case SetOf(members) => forall i :: 0 <= i < |members| ==> Unambiguous(members[i])
    case Obj(fields) => forall i :: 0 <= i < |fields| ==> Unambiguous(fields[i].value)
    case _ => true
  }

  lemma BigRoundTrip(n: int)
    ensures IsBigLiteral(PrintBig(n)) && ParseBig(PrintBig(n)) == n
  {
    D.ParseUndoesPrint(n);
    assert PrintBig(n)[..|PrintBig(n)| - 1] == D.Print(n);
  }

  /** What is sent is what is received, sets flattened, exactly when no string looks like a BigInt. */
  lemma {:induction false} ReviveUndoesReplaceIff(v: Value)
    ensures Revive(Replace(v)) == Flatten(v) <==> Unambiguous(v)
  {
    match v
    case Big(n) => BigRoundTrip(n);
    case Arr(items) => AllUndo(items);
    case SetOf(members) => AllUndo(members);
    case Obj(fields) => FieldsUndo(fields);
    case _ =>
  }

  lemma {:induction false} AllUndo(items: seq<Value>)
    ensures Revive(Replace(Arr(items))) == Flatten(Arr(items)) <==>
            forall i :: 0 <= i < |items| ==> Unambiguous(items[i])
    ensures Replace(SetOf(items)) == Replace(Arr(items)) && Flatten(SetOf(items)) == Flatten(Arr(items))
    decreases items, 0
  {
    forall i | 0 <= i < |items|
      ensures Revive(Replace(items[i])) == Flatten(items[i]) <==> Unambiguous(items[i])
    {
      ReviveUndoesReplaceIff(items[i]);
    }
    var there, back := Revive(Replace(Arr(items))).items, Flatten(Arr(items)).items;
    assert forall i :: 0 <= i < |items| ==> there[i] == Revive(Replace(items[i])) && back[i] == Flatten(items[i]);
    assert there == back <==> forall i :: 0 <= i < |items| ==> there[i] == back[i];
  }

  lemma {:induction false} FieldsUndo(fields: seq<Field>)
    ensures Revive(Replace(Obj(fields))) == Flatten(Obj(fields)) <==>
            forall i :: 0 <= i < |fields| ==> Unambiguous(fields[i].value)
    decreases fields, 0
  {
    forall i | 0 <= i < |fields|
      ensures Revive(Replace(fields[i].value)) == Flatten(fields[i].value) <==> Unambiguous(fields[i].value)
    {
      ReviveUndoesReplaceIff(fields[i].value);
    }
    var there, back := Revive(Replace(Obj(fields))).fields, Flatten(Obj(fields)).fields;
    assert forall i :: 0 <= i < |fields| ==>
      there[i] == Field(fields[i].key, Revive(Replace(fields[i].value)))
      && back[i] == Field(fields[i].key, Flatten(fields[i].value));
    assert there == back <==> forall i :: 0 <= i < |fields| ==> there[i] == back[i];
  }

  /** What is sent has no BigInt and no set in it: `JSON.stringify` takes it. */
  lemma {:induction false} ReplaceGoesOnWire(v: Value)
    ensures OnWire(Replace(v))
  {
    match v
    case Arr(items) =>
      forall i | 0 <= i < |items| ensures OnWire(Replace(items[i])) { ReplaceGoesOnWire(items[i]); }
    case SetOf(members) =>
      forall i | 0 <= i < |members| ensures OnWire(Replace(members[i])) { ReplaceGoesOnWire(members[i]); }
    case Obj(fields) =>
      forall i | 0 <= i < |fields| ensures OnWire(Replace(fields[i].value)) { ReplaceGoesOnWire(fields[i].value); }
    case _ =>
  }

  /** A string that looks like a BigInt arrives as one. */
  lemma LookalikeComesBackAsBig()
    ensures Revive(Replace(Str("1n"))) == Big(1) && Flatten(Str("1n")) == Str("1n")
  {
    assert D.Print(1) == "1" && D.Print(1) + "n" == "1n";
    BigRoundTrip(1);
  }

  // ----- In and out again -----

  /** What can stand on the wire: no BigInt, no set. */
  predicate OnWire(v: Value) {
    match v
    case Big(_) => false
    case SetOf(_) => false
    case Arr(items) => forall i :: 0 <= i < |items| ==> OnWire(items[i])
    case Obj(fields) => forall i :: 0 <= i < |fields| ==> OnWire(fields[i].value)
    case _ => true
  }

  /** Every BigInt on the wire is spelled as the replacer spells it. */
  predicate Canonical(v: Value) {
    match v
    case Str(s) => IsBigLiteral(s) ==> D.Canonical(s[..|s| - 1])
    case Arr(items) => forall i :: 0 <= i < |items| ==> Canonical(items[i])
    case Obj(fields) => forall i :: 0 <= i < |fields| ==> Canonical(fields[i].value)
    case _ => true
  }

  lemma LiteralRoundTrip(s: string)
    requires IsBigLiteral(s)
    ensures PrintBig(ParseBig(s)) == s <==> D.Canonical(s[..|s| - 1])
  {
    var t := s[..|s| - 1];
    assert s == t + "n";
    D.PrintUndoesParseIff(t);
    if PrintBig(ParseBig(s)) == s {
      assert PrintBig(ParseBig(s))[..|s| - 1] == D.Print(D.Parse(t));
    }
  }

  /** A frame read and written again, as the relay does, is the same frame exactly when its BigInts are canonical. */
  lemma {:induction false} RelayIsVerbatimIff(w: Value)
    requires OnWire(w)
    ensures Replace(Revive(w)) == w <==> Canonical(w)
  {
    match w
    case Str(s) => if IsBigLiteral(s) { LiteralRoundTrip(s); }
    case Arr(items) =>
      forall i | 0 <= i < |items|
        ensures Replace(Revive(items[i])) == items[i] <==> Canonical(items[i])
      {
        RelayIsVerbatimIff(items[i]);
      }
      var back := Replace(Revive(w)).items;
      assert forall i :: 0 <= i < |items| ==> back[i] == Replace(Revive(items[i]));
      assert back == items <==> forall i :: 0 <= i < |items| ==> back[i] == items[i];
    case Obj(fields) =>
      forall i | 0 <= i < |fields|
        ensures Replace(Revive(fields[i].value)) == fields[i].value <==> Canonical(fields[i].value)
      {
        RelayIsVerbatimIff(fields[i].value);
      }
      var back := Replace(Revive(w)).fields;
      assert forall i :: 0 <= i < |fields| ==> back[i] == Field(fields[i].key, Replace(Revive(fields[i].value)));
      assert back == fields <==> forall i :: 0 <= i < |fields| ==> back[i] == fields[i];
    case _ =>
  }

  /** A BigInt with a leading zero is relayed without it. */
  lemma LeadingZeroIsLost()
    ensures Replace(Revive(Str("01n"))) == Str("1n")
  {
    var s := "01";
    assert s[..1] == "0" && s[..1][..0] == "";
    assert D.Value(s[..1]) == 0 && D.Parse(s) == 1;
    assert "01n"[..2] == s;
    assert D.Print(1) == "1";
  }
}
