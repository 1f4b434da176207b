/** Numbers as the C library prints and reads them, in the bases up to 16. */
module Numerals {
  import opened Bits

  /** White space of the C locale. */
  predicate IsSpace(c: char) {
    c == ' ' || '\t' <= c <= '\r'
  }

  /** The index of the first character from i on that is no white space. */
  function SpaceEnd(t: string, i: nat): (j: nat)
    requires i <= |t|
    ensures i <= j <= |t|
    ensures forall k :: i <= k < j ==> IsSpace(t[k])
    decreases |t| - i
  {
    if i < |t| && IsSpace(t[i]) then SpaceEnd(t, i + 1) else i
  }

  lemma {:induction false} SpacesRun(t: string, i: nat, e: nat)
    requires i <= e <= |t| && forall k :: i <= k < e ==> IsSpace(t[k])
    requires e == |t| || !IsSpace(t[e])
    ensures SpaceEnd(t, i) == e
    decreases e - i
  {
    if i == e {
    } else {
      SpacesRun(t, i + 1, e);
    }
  }

  function Digit(d: nat): char
    requires d < 16
  {
    "0123456789abcdef"[d]
  }

  /** The value of a digit in either case; 16 for any other character. */
  function DigitValue(c: char): (d: nat)
    ensures d <= 16
  {
    if '0' <= c <= '9' then (c - '0') as nat
    else if 'a' <= c <= 'f' then (c - 'a') as nat + 10
    else if 'A' <= c <= 'F' then (c - 'A') as nat + 10
    else 16
  }

  predicate IsDigit(c: char, base: nat) { DigitValue(c) < base }

  /** The digits, in both cases, and no other characters. */
  lemma DigitsExactly(c: char)
    ensures forall d :: 0 <= d < 16 ==>
              (DigitValue(c) == d <==> c == "0123456789abcdef"[d] || c == "0123456789ABCDEF"[d])
  {}

  /** The six characters that isspace accepts in the C locale. */
  lemma SpacesExactly(c: char)
    ensures IsSpace(c) <==> c in {' ', '\t', '\n', '\U{b}', '\U{c}', '\r'}
  {}

  lemma DigitInverse(d: nat)
    requires d < 16
    ensures DigitValue(Digit(d)) == d
  {}

  /** The index of the first character from i on that is no digit. */
  function DigitsEnd(t: string, i: nat, base: nat): (j: nat)
    requires i <= |t|
    ensures i <= j <= |t|
    ensures forall k :: i <= k < j ==> IsDigit(t[k], base)
    ensures j < |t| ==> !IsDigit(t[j], base)
    decreases |t| - i
  {
    if i < |t| && IsDigit(t[i], base) then DigitsEnd(t, i + 1, base) else i
  }

  lemma {:induction false} DigitsRun(t: string, i: nat, e: nat, base: nat)
    requires i <= e <= |t| && forall k :: i <= k < e ==> IsDigit(t[k], base)
    requires e == |t| || !IsDigit(t[e], base)
    ensures DigitsEnd(t, i, base) == e
    decreases e - i
  {
    if i == e {
    } else {
      DigitsRun(t, i + 1, e, base);
    }
  }

  /** The number a digit string denotes. */
  function Value(s: string, base: nat): nat
    requires forall c :: c in s ==> IsDigit(c, base)
  {
    if s == "" then 0 else base * Value(s[..|s| - 1], base) + DigitValue(s[|s| - 1])
  }

  function Power(base: nat, n: nat): nat {
    if n == 0 then 1 else base * Power(base, n - 1)
  }

  /** Positional notation: digits further left count for more. */
  lemma {:induction false} ValueConcat(a: string, b: string, base: nat)
    requires forall c :: c in a + b ==> IsDigit(c, base)
    ensures (forall c :: c in a ==> IsDigit(c, base)) && (forall c :: c in b ==> IsDigit(c, base))
    ensures Value(a + b, base) == Value(a, base) * Power(base, |b|) + Value(b, base)
  {
    assert forall c :: c in a || c in b ==> c in a + b;
    if b == "" {
      assert a + b == a;
    } else {
      var rest, last := b[..|b| - 1], b[|b| - 1];
      assert (a + b)[..|a + b| - 1] == a + rest;
      assert forall c :: c in a + rest ==> c in a + b;
      ValueConcat(a, rest, base);
      Shifted(Value(a, base), Power(base, |rest|), Value(rest, base), base);
    }
  }

  lemma Shifted(v: nat, p: nat, r: nat, base: nat)
    ensures base * (v * p + r) == v * (base * p) + base * r
  {}

  lemma SingleValue(c: char, base: nat)
    requires IsDigit(c, base)
    ensures Value([c], base) == DigitValue(c)
  {
    assert [c][..0] == "";
  }

  /** The text of a number: no leading zeros, "0" for zero. */
  function Printed(v: nat, base: nat): (s: string)
    requires 2 <= base <= 16
    ensures s != ""
    ensures forall c :: c in s ==> IsDigit(c, base)
    decreases v
  {
    Quotient(v, base);
    DigitInverse(v % base);
    if v < base then [Digit(v)] else Printed(v / base, base) + [Digit(v % base)]
  }

  lemma Quotient(v: nat, base: nat)
    requires 2 <= base
    ensures 0 <= v / base && base * (v / base) + v % base == v && v % base < base
    ensures v >= base ==> v / base < v
    ensures v < base ==> v % base == v
  {
    DivMod(v, base);
    if v >= base {
      MulGe(v, base);
      DivLess(v, base, v);
      MulMono(v, 1, base);
    } else {
      DivModIs(v, base, 0, v);
    }
  }

  /** Lower-case digits, and a zero in front only for zero itself. */
  lemma {:induction false} PrintedDigits(v: nat, base: nat)
    requires 2 <= base <= 16
    ensures var s := Printed(v, base);
            (forall c :: c in s ==> c in "0123456789abcdef") && (s[0] == '0' <==> v == 0)
  {
    Quotient(v, base);
    if v < base {
    } else {
      PrintedDigits(v / base, base);
      QuotientPositive(v, base);
    }
  }

  lemma QuotientPositive(v: nat, base: nat)
    requires 2 <= base <= v
    ensures v / base > 0
  {
    Quotient(v, base);
  }

  /** The printed text denotes the number. */
  lemma {:induction false} PrintedValue(v: nat, base: nat)
    requires 2 <= base <= 16
    ensures Value(Printed(v, base), base) == v
  {
    hide Digit, DigitValue;
    Quotient(v, base);
    DigitInverse(v % base);
    if v < base {
    } else {
      PrintedValue(v / base, base);
      var s := Printed(v, base);
      assert s[..|s| - 1] == Printed(v / base, base);
    }
  }
}
