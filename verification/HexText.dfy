/** Hexadecimal text of natural numbers and the big-endian value of byte sequences. */
module HexText {
  import opened Bits
  import opened Numerals

  /** printf's %0kx for a value of at most k digits. */
  function Fixed(v: nat, k: nat): (s: string)
    ensures |s| == k
  {
    if k == 0 then "" else Fixed(v / 16, k - 1) + [Digit(v % 16)]
  }

  /** The text is the number in base 16, in lower-case digits. */
  lemma {:induction false} FixedValue(v: nat, k: nat)
    requires v < Pow2(4 * k)
    ensures forall c :: c in Fixed(v, k) ==> c in "0123456789abcdef" && IsDigit(c, 16)
    ensures Value(Fixed(v, k), 16) == v
  {
    if k == 0 {
    } else {
      var s := Fixed(v, k);
      PowAdd(4, 4 * (k - 1));
      Powers();
      hide Pow2;
      FixedValue(v / 16, k - 1);
      DigitInverse(v % 16);
      hide Digit, DigitValue;
      assert s[..|s| - 1] == Fixed(v / 16, k - 1);
    }
  }

  /** printf's %x: no leading zeros, "0" for zero. */
  function Plain(v: nat): (s: string)
    ensures s != "" && forall c :: c in s ==> IsDigit(c, 16)
  {
    Printed(v, 16)
  }

  lemma PlainValue(v: nat)
    ensures Value(Plain(v), 16) == v
  {
    PrintedValue(v, 16);
  }

  /** A value below 16^k prints in at most k digits. */
  lemma {:induction false} PlainLength(v: nat, k: nat)
    requires 1 <= k && v < Pow2(4 * k)
    ensures |Plain(v)| <= k
  {
    PowAdd(4, 4 * (k - 1));
    Powers();
    if v < 16 {
    } else {
      PlainLength(v / 16, k - 1);
    }
  }

  // ---------------------------------------------------------------- big-endian bytes

  /** b[0] is the most significant byte. */
  function BigEndian(b: seq<uint8>): nat {
    if b == [] then 0 else Shl(b[0], 8 * (|b| - 1)) + BigEndian(b[1..])
  }

  /** The C expression b[n - 1] << 0 | ... | b[1] << 8 * (n - 2) | b[0] << 8 * (n - 1). */
  function OrChain(b: seq<uint8>): nat {
    if b == [] then 0 else Or(OrChain(b[1..]), Shl(b[0], 8 * (|b| - 1)))
  }

  lemma {:induction false} OrChainValue(b: seq<uint8>)
    ensures OrChain(b) == BigEndian(b) < Pow2(8 * |b|)
  {
    if b == [] {
    } else {
      var k := 8 * (|b| - 1);
      OrChainValue(b[1..]);
      OrDisjoint(b[0], BigEndian(b[1..]), k);
      PowAdd(8, k);
      Powers();
      MulMono(Pow2(k), b[0], 0x100);
    }
  }

  /** Two zero-padded digits for every byte, in order. */
  function BytesText(b: seq<uint8>): (s: string)
    ensures |s| == 2 * |b|
  {
    if b == [] then "" else Fixed(b[0], 2) + BytesText(b[1..])
  }

  lemma {:induction false} BytesTextConcat(a: seq<uint8>, b: seq<uint8>)
    ensures BytesText(a + b) == BytesText(a) + BytesText(b)
  {
    hide Fixed;
    if a == [] {
      assert a + b == b;
    } else {
      BytesTextConcat(a[1..], b);
      assert (a + b)[1..] == a[1..] + b;
    }
  }

  lemma BytesTextAppend(a: seq<uint8>, b: uint8)
    ensures BytesText(a + [b]) == BytesText(a) + Fixed(b, 2)
  {
    hide Fixed;
    BytesTextConcat(a, [b]);
    assert [b][1..] == [];
    assert BytesText([b]) == Fixed(b, 2) + BytesText([]);
  }

  /** Characters 2i and 2i + 1 are the digits of byte i. */
  lemma {:induction false} BytesTextAt(b: seq<uint8>, i: nat)
    requires i < |b|
    ensures BytesText(b)[2 * i] == "0123456789abcdef"[b[i] / 16]
    ensures BytesText(b)[2 * i + 1] == "0123456789abcdef"[b[i] % 16]
  {
    if i == 0 {
      TwoDigits(b[0]);
    } else {
      BytesTextAt(b[1..], i - 1);
    }
  }

  lemma TwoDigits(v: uint8)
    ensures Fixed(v, 2) == ["0123456789abcdef"[v / 16], "0123456789abcdef"[v % 16]]
  {
    assert Fixed(v / 16 / 16, 0) == "";
    assert Fixed(v / 16, 1) == [Digit(v / 16)];
  }

  lemma {:induction false} FixedSplit(h: nat, l: nat, j: nat, k: nat)
    requires l < Pow2(4 * k)
    ensures Fixed(Shl(h, 4 * k) + l, j + k) == Fixed(h, j) + Fixed(l, k)
  {
    hide Digit;
    if k == 0 {
    } else {
      ShiftedDigit(h, l, k);
      var v := Shl(h, 4 * k) + l;
      FixedSplit(h, l / 16, j, k - 1);
      assert Fixed(v, j + k) == Fixed(v / 16, j + k - 1) + [Digit(v % 16)];
      assert Fixed(l, k) == Fixed(l / 16, k - 1) + [Digit(l % 16)];
    }
  }

  /** Dropping the last digit of h l, where l has k digits. */
  lemma ShiftedDigit(h: nat, l: nat, k: nat)
    requires 1 <= k && l < Pow2(4 * k)
    ensures var v := Shl(h, 4 * k) + l;
            v / 16 == Shl(h, 4 * (k - 1)) + l / 16 && v % 16 == l % 16
    ensures l / 16 < Pow2(4 * (k - 1))
  {
    var p := Pow2(4 * (k - 1));
    PowAdd(4, 4 * (k - 1));
    Powers();
    hide Pow2;
    Sixteen(h, p);
  }

  lemma Sixteen(h: nat, p: nat)
    ensures h * (16 * p) == 16 * (h * p)
  {}

  /** The padded text of a big-endian value is the text of its bytes. */
  lemma {:induction false} FixedBigEndian(b: seq<uint8>)
    ensures Fixed(BigEndian(b), 2 * |b|) == BytesText(b)
  {
    hide Digit, OrChain, Shl;
    if b == [] {
    } else {
      var t := b[1..];
      OrChainValue(t);
      FixedBigEndian(t);
      FixedSplit(b[0], BigEndian(t), 2, 2 * |t|);
    }
  }
}
