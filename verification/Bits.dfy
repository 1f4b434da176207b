/** Machine words as natural numbers: the C operators on unsigned operands, defined bit by
    bit or by powers of two, and the arithmetic laws the other modules use. */
module Bits {

  const W32: nat := 0x1_0000_0000
  const W64: nat := 0x1_0000_0000_0000_0000

  type uint8 = n: nat | n < 0x100
  type uint32 = n: nat | n < W32
  type uint64 = n: nat | n < W64

  function Pow2(k: nat): (p: nat)
    ensures 1 <= p
  {
    if k == 0 then 1 else 2 * Pow2(k - 1)
  }

  // ---------------------------------------------------------------- the operators

  function And(x: nat, y: nat): nat {
    if x == 0 then 0
    else (if x % 2 == 1 && y % 2 == 1 then 1 else 0) + 2 * And(x / 2, y / 2)
  }

  function Or(x: nat, y: nat): nat {
    if x == 0 then y
    else (if x % 2 == 1 || y % 2 == 1 then 1 else 0) + 2 * Or(x / 2, y / 2)
  }

  function Xor(x: nat, y: nat): nat {
    if x == 0 then y
    else (if x % 2 != y % 2 then 1 else 0) + 2 * Xor(x / 2, y / 2)
  }

  /** x << n before the result is cut to its width. */
  function Shl(x: nat, n: nat): nat { x * Pow2(n) }

  /** x >> n. */
  function Shr(x: nat, n: nat): nat {
    DivNonnegative(x, Pow2(n));
    x / Pow2(n)
  }

  function And32(x: uint32, y: uint32): uint32 { Bounded(x, y, 32); And(x, y) }

  function Or32(x: uint32, y: uint32): uint32 { Bounded(x, y, 32); Or(x, y) }

  function Xor32(x: uint32, y: uint32): uint32 { Bounded(x, y, 32); Xor(x, y) }

  function Not32(x: uint32): uint32 { W32 - 1 - x }

  function Add32(x: uint32, y: uint32): uint32 { (x + y) % W32 }

  function Shl32(x: uint32, n: nat): uint32 { Shl(x, n) % W32 }

  function Shr32(x: uint32, n: nat): uint32 {
    ShrBound(x, n);
    Shr(x, n)
  }

  // ---------------------------------------------------------------- laws

  lemma {:induction false} PowAdd(i: nat, j: nat)
    ensures Pow2(i + j) == Pow2(i) * Pow2(j)
  {
    if i == 0 {
    } else {
      PowAdd(i - 1, j);
    }
  }

  lemma Powers()
    ensures Pow2(3) == 8 && Pow2(4) == 0x10 && Pow2(6) == 0x40 && Pow2(8) == 0x100
    ensures Pow2(16) == 0x1_0000 && Pow2(24) == 0x100_0000 && Pow2(29) == 0x2000_0000
    ensures Pow2(32) == W32
  {
    PowAdd(4, 4);
    PowAdd(8, 8);
    PowAdd(16, 8);
    PowAdd(16, 16);
    PowAdd(24, 5);
  }

  /** A wrapped sum minus one operand is the other. */
  lemma AddUndone(x: uint32, y: uint32)
    ensures ((x + y) % W32 - x) % W32 == y
  {}

  lemma {:induction false} MulGe(d: nat, k: nat)
    requires k >= 1
    ensures d * k >= d
  {
    if k == 1 {
    } else {
      MulGe(d, k - 1);
    }
  }

  lemma MulMono(d: nat, i: nat, j: nat)
    requires i < j
    ensures d * i + d <= d * j
  {
    Distribute(d, j, i);
    MulGe(d, j - i);
  }

  lemma Distribute(d: int, a: int, b: int)
    ensures d * (a - b) == d * a - d * b
  {}

  lemma DivMod(x: int, d: nat)
    requires d > 0
    ensures d * (x / d) + x % d == x && 0 <= x % d < d
  {}

  lemma DivNonnegative(x: nat, d: nat)
    requires d > 0
    ensures 0 <= x / d
  {
    DivMod(x, d);
  }

  /** Quotient and remainder are determined by their equation. */
  lemma DivModIs(x: int, d: nat, q: int, r: int)
    requires 0 <= r < d && x == d * q + r
    ensures x / d == q && x % d == r
  {
    var q' := x / d;
    DivMod(x, d);
    Distribute(d, q, q');
    Distribute(d, q', q);
    if q > q' {
      MulGe(d, q - q');
    } else if q < q' {
      MulGe(d, q' - q);
    }
  }

  lemma DivLess(x: nat, d: nat, p: nat)
    requires 0 < d && x < d * p
    ensures 0 <= x / d < p
  {
    var q := x / d;
    DivMod(x, d);
    if q > p {
      MulMono(d, p, q);
    }
  }

  lemma ShrBound(x: nat, n: nat)
    ensures Shr(x, n) <= x
  {
    MulGe(x + 1, Pow2(n));
    DivLess(x, Pow2(n), x + 1);
  }

  lemma {:induction false} BoundedBits(x: nat, y: nat, k: nat)
    requires x < Pow2(k) && y < Pow2(k)
    ensures And(x, y) < Pow2(k) && Or(x, y) < Pow2(k) && Xor(x, y) < Pow2(k)
  {
    if x == 0 {
    } else {
      BoundedBits(x / 2, y / 2, k - 1);
    }
  }

  lemma Bounded(x: uint32, y: uint32, k: nat)
    requires k == 32
    ensures And(x, y) < W32 && Or(x, y) < W32 && Xor(x, y) < W32
  {
    Powers();
    BoundedBits(x, y, 32);
  }

  /** Masking with 2^k - 1 keeps the low k bits. */
  lemma {:induction false} AndMask(x: nat, k: nat)
    ensures And(x, Pow2(k) - 1) == x % Pow2(k)
  {
    if x == 0 {
      DivModIs(0, Pow2(k), 0, 0);
    } else if k == 0 {
      AndZero(x);
    } else {
      AndMask(x / 2, k - 1);
      HalfMod(x, Pow2(k - 1));
      AndHalves(x, Pow2(k - 1));
    }
  }

  lemma AndHalves(x: nat, p: nat)
    requires 0 < p
    ensures And(x, 2 * p - 1) == x % 2 + 2 * And(x / 2, p - 1)
  {
    assert (2 * p - 1) / 2 == p - 1;
  }

  lemma {:induction false} AndZero(x: nat)
    ensures And(x, 0) == 0
  {
    if x == 0 {
    } else {
      AndZero(x / 2);
    }
  }

  lemma HalfMod(x: nat, p: nat)
    requires 0 < p
    ensures x % (2 * p) == x % 2 + 2 * (x / 2 % p)
  {
    var h := x / 2;
    DivMod(h, p);
    Double(p, h / p);
    DivModIs(x, 2 * p, h / p, 2 * (h % p) + x % 2);
  }

  lemma Double(p: int, q: int)
    ensures (2 * p) * q == 2 * (p * q) == p * (2 * q)
  {}

  /** Or of disjoint bit ranges is a sum. */
  lemma {:induction false} OrDisjoint(x: nat, y: nat, k: nat)
    requires y < Pow2(k)
    ensures Or(Shl(x, k), y) == Shl(x, k) + y
    ensures Or(y, Shl(x, k)) == Shl(x, k) + y
  {
    if k == 0 {
      OrZero(x);
    } else {
      OrDisjoint(x, y / 2, k - 1);
      Double(x, Pow2(k - 1));
      OrHalves(Shl(x, k - 1), y);
    }
  }

  lemma OrHalves(s: nat, y: nat)
    ensures Or(2 * s, y) == y % 2 + 2 * Or(s, y / 2)
    ensures Or(y, 2 * s) == y % 2 + 2 * Or(y / 2, s)
  {}

  lemma {:induction false} OrZero(x: nat)
    ensures Or(x, 0) == x
  {
    if x == 0 {
    } else {
      OrZero(x / 2);
    }
  }

  // ---------------------------------------------------------------- bit by bit

  /** Bit k of x, counted from the low-order end. */
  predicate Bit(x: nat, k: nat) {
    if k == 0 then x % 2 == 1 else Bit(x / 2, k - 1)
  }

  lemma {:induction false} OperatorBits(x: nat, y: nat, k: nat)
    ensures Bit(And(x, y), k) <==> Bit(x, k) && Bit(y, k)
    ensures Bit(Or(x, y), k) <==> Bit(x, k) || Bit(y, k)
    ensures Bit(Xor(x, y), k) <==> Bit(x, k) != Bit(y, k)
  {
    if x == 0 {
      ZeroBits(k);
    } else {
      AndHalf(x, y);
      OrHalf(x, y);
      XorHalf(x, y);
      if k > 0 {
        hide And, Or, Xor;
        OperatorBits(x / 2, y / 2, k - 1);
      }
    }
  }

  // Each operator acts on the lowest bits and on the rest.

  lemma AndHalf(x: nat, y: nat)
    requires x != 0
    ensures (And(x, y) % 2 == 1 <==> x % 2 == 1 && y % 2 == 1) && And(x, y) / 2 == And(x / 2, y / 2)
  {
    var b, h := x % 2 == 1 && y % 2 == 1, And(x / 2, y / 2);
    assert And(x, y) == (if b then 1 else 0) + 2 * h;
    hide And;
    LowestBit(b, h);
  }

  lemma OrHalf(x: nat, y: nat)
    requires x != 0
    ensures (Or(x, y) % 2 == 1 <==> x % 2 == 1 || y % 2 == 1) && Or(x, y) / 2 == Or(x / 2, y / 2)
  {
    var b, h := x % 2 == 1 || y % 2 == 1, Or(x / 2, y / 2);
    assert Or(x, y) == (if b then 1 else 0) + 2 * h;
    hide Or;
    LowestBit(b, h);
  }

  lemma XorHalf(x: nat, y: nat)
    requires x != 0
    ensures (Xor(x, y) % 2 == 1 <==> x % 2 != y % 2) && Xor(x, y) / 2 == Xor(x / 2, y / 2)
  {
    var b, h := x % 2 != y % 2, Xor(x / 2, y / 2);
    assert Xor(x, y) == (if b then 1 else 0) + 2 * h;
    hide Xor;
    LowestBit(b, h);
  }

  lemma LowestBit(b: bool, h: nat)
    ensures var r := (if b then 1 else 0) + 2 * h; (r % 2 == 1 <==> b) && r / 2 == h
  {}

  lemma {:induction false} ZeroBits(k: nat)
    ensures !Bit(0, k)
  {
    if k == 0 {
    } else {
      ZeroBits(k - 1);
    }
  }

  lemma {:induction false} ComplementBits(x: nat, n: nat, k: nat)
    requires x < Pow2(n) && k < n
    ensures Bit(Pow2(n) - 1 - x, k) <==> !Bit(x, k)
  {
    var c := Pow2(n) - 1 - x;
    if k == 0 {
    } else {
      assert c / 2 == Pow2(n - 1) - 1 - x / 2;
      ComplementBits(x / 2, n - 1, k - 1);
    }
  }

  lemma NotBits(x: uint32, k: nat)
    requires k < 32
    ensures Bit(Not32(x), k) <==> !Bit(x, k)
  {
    Powers();
    ComplementBits(x, 32, k);
  }

  // ---------------------------------------------------------------- rotation

  /** The C expression (x << n) | (x >> (32 - n)). */
  function RotateLeft(x: uint32, n: nat): uint32
    requires 0 < n < 32
  {
    Or32(Shl32(x, n), Shr32(x, 32 - n))
  }

  /** The circular shift of section 2 of RFC 1321: the n top bits move to the bottom. */
  function Circular(x: uint32, n: nat): uint32
    requires 0 < n < 32
  {
    CircularBound(x, n);
    Shl(x % Pow2(32 - n), n) + Shr(x, 32 - n)
  }

  /** The opposite circular shift. */
  function Uncircular(x: uint32, n: nat): uint32
    requires 0 < n < 32
  {
    CircularBound(x, 32 - n);
    Shl(x % Pow2(n), 32 - n) + Shr(x, n)
  }

  lemma CircularBound(x: uint32, n: nat)
    requires 0 < n < 32
    ensures Shl(x % Pow2(32 - n), n) + Shr(x, 32 - n) < W32
  {
    var h, l := Cut(x, n);
    Paste(l, h, n);
  }

  lemma PowSplit(n: nat)
    requires n <= 32
    ensures Pow2(32 - n) * Pow2(n) == W32
  {
    PowAdd(32 - n, n);
    Powers();
  }

  /** The top n bits h and the bottom bits l of a word. */
  lemma Cut(x: uint32, n: nat) returns (h: nat, l: nat)
    requires n <= 32
    ensures h == Shr(x, 32 - n) && l == x % Pow2(32 - n)
    ensures x == Shl(h, 32 - n) + l
    ensures h < Pow2(n) && l < Pow2(32 - n)
  {
    hide Pow2;
    var q := Pow2(32 - n);
    PowSplit(n);
    DivMod(x, q);
    DivLess(x, q, Pow2(n));
    h, l := x / q, x % q;
  }

  /** The turned word l h: its range, and its bottom n bits and the rest. */
  lemma Paste(l: nat, h: nat, n: nat)
    requires n <= 32 && h < Pow2(n) && l < Pow2(32 - n)
    ensures Shl(l, n) + h < W32
    ensures (Shl(l, n) + h) % Pow2(n) == h && Shr(Shl(l, n) + h, n) == l
  {
    hide Pow2;
    var p := Pow2(n);
    PowSplit(n);
    MulMono(p, l, Pow2(32 - n));
    DivModIs(Shl(l, n) + h, p, l, h);
  }

  lemma RotateIsCircular(x: uint32, n: nat)
    requires 0 < n < 32
    ensures RotateLeft(x, n) == Circular(x, n)
  {
    var h, l := Cut(x, n);
    Paste(l, h, n);
    ShlCut(h, l, n);
    DivModIs(Shl(x, n), W32, h, Shl(l, n));
    OrDisjoint(l, h, n);
  }

  lemma ShlCut(h: nat, l: nat, n: nat)
    requires n <= 32
    ensures Shl(Shl(h, 32 - n) + l, n) == W32 * h + Shl(l, n)
  {
    hide Pow2;
    PowSplit(n);
    Expand(h, Pow2(32 - n), l, Pow2(n));
  }

  lemma Expand(h: nat, q: nat, l: nat, p: nat)
    ensures (h * q + l) * p == (q * p) * h + l * p
  {}

  lemma {:induction false} PastedBits(l: nat, h: nat, n: nat, k: nat)
    requires h < Pow2(n)
    ensures Bit(Shl(l, n) + h, k) == if k < n then Bit(h, k) else Bit(l, k - n)
  {
    if n == 0 {
    } else {
      Double(l, Pow2(n - 1));
      LowestBit(h % 2 == 1, Shl(l, n - 1) + h / 2);
      if k > 0 {
        PastedBits(l, h / 2, n - 1, k - 1);
      }
    }
  }

  /** Every bit moves up by n places, and around from the top to the bottom. */
  lemma CircularBits(x: uint32, n: nat, k: nat)
    requires 0 < n < 32 && k < 32
    ensures Bit(Circular(x, n), (k + n) % 32) == Bit(x, k)
  {
    hide Bit, Pow2;
    var h, l := Cut(x, n);
    PastedBits(h, l, 32 - n, k);
    PastedBits(l, h, n, (k + n) % 32);
  }

  /** Turning left and right by the same amount undoes the turn, in both orders. */
  lemma CircularInverse(x: uint32, n: nat)
    requires 0 < n < 32
    ensures Uncircular(Circular(x, n), n) == x
    ensures Circular(Uncircular(x, n), n) == x
  {
    var h, l := Cut(x, n);
    Paste(l, h, n);
    var h', l' := Cut(x, 32 - n);
    Paste(l', h', 32 - n);
  }
}
