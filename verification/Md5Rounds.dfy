/** The block step of MD5: the table of section 3.4 of RFC 1321, the unrolled
    statements of the program, and the inverse of the 64 steps. */
module Md5Rounds {
  import opened Bits

  /** The four chaining registers A, B, C, D. */
  datatype Regs = Regs(a: uint32, b: uint32, c: uint32, d: uint32)

  function F(x: uint32, y: uint32, z: uint32): uint32 { Or32(And32(x, y), And32(Not32(x), z)) }

  function G(x: uint32, y: uint32, z: uint32): uint32 { Or32(And32(x, z), And32(y, Not32(z))) }

  function H(x: uint32, y: uint32, z: uint32): uint32 { Xor32(Xor32(x, y), z) }

  function I(x: uint32, y: uint32, z: uint32): uint32 { Xor32(y, Or32(x, Not32(z))) }

  /** In each bit position, section 3.4 of RFC 1321: F is "if x then y else z", G is the same
      choice made by z, H is the parity, and I turns y over unless z is set and x is not. */
  lemma AuxiliaryBits(x: uint32, y: uint32, z: uint32, k: nat)
    requires k < 32
    ensures Bit(F(x, y, z), k) == if Bit(x, k) then Bit(y, k) else Bit(z, k)
    ensures Bit(G(x, y, z), k) == if Bit(z, k) then Bit(x, k) else Bit(y, k)
    ensures Bit(H(x, y, z), k) == ((Bit(x, k) == Bit(y, k)) == Bit(z, k))
    ensures Bit(I(x, y, z), k) == if Bit(z, k) && !Bit(x, k) then Bit(y, k) else !Bit(y, k)
  {
    hide Bit, And, Or, Xor, Not32;
    NotBits(x, k);
    NotBits(z, k);
    OperatorBits(x, y, k);
    OperatorBits(Not32(x), z, k);
    OperatorBits(And32(x, y), And32(Not32(x), z), k);
    OperatorBits(x, z, k);
    OperatorBits(y, Not32(z), k);
    OperatorBits(And32(x, z), And32(y, Not32(z)), k);
    OperatorBits(Xor32(x, y), z, k);
    OperatorBits(x, Not32(z), k);
    OperatorBits(y, Or32(x, Not32(z)), k);
  }

  // ---------------------------------------------------------------- the reference

  /** The auxiliary function of step i (counting from 0). */
  function Aux(i: nat, x: uint32, y: uint32, z: uint32): uint32
    requires i < 64
  {
    if i < 16 then F(x, y, z)
    else if i < 32 then G(x, y, z)
    else if i < 48 then H(x, y, z)
    else I(x, y, z)
  }

  /** One entry of the table: message word, rotation amount, additive constant. */
  datatype Row = Row(k: nat, s: nat, t: uint32)

  /** The 64 entries [abcd k s i], the constant T[i + 1] written out. */
  function Table(i: nat): Row
    requires i < 64
  {
    match i
    case 0 => Row(0, 7, 0xd76aa478) case 1 => Row(1, 12, 0xe8c7b756) case 2 => Row(2, 17, 0x242070db)
    case 3 => Row(3, 22, 0xc1bdceee) case 4 => Row(4, 7, 0xf57c0faf) case 5 => Row(5, 12, 0x4787c62a)
    case 6 => Row(6, 17, 0xa8304613) case 7 => Row(7, 22, 0xfd469501) case 8 => Row(8, 7, 0x698098d8)
    case 9 => Row(9, 12, 0x8b44f7af) case 10 => Row(10, 17, 0xffff5bb1) case 11 => Row(11, 22, 0x895cd7be)
    case 12 => Row(12, 7, 0x6b901122) case 13 => Row(13, 12, 0xfd987193) case 14 => Row(14, 17, 0xa679438e)
    case 15 => Row(15, 22, 0x49b40821) case 16 => Row(1, 5, 0xf61e2562) case 17 => Row(6, 9, 0xc040b340)
    case 18 => Row(11, 14, 0x265e5a51) case 19 => Row(0, 20, 0xe9b6c7aa) case 20 => Row(5, 5, 0xd62f105d)
    case 21 => Row(10, 9, 0x02441453) case 22 => Row(15, 14, 0xd8a1e681) case 23 => Row(4, 20, 0xe7d3fbc8)
    case 24 => Row(9, 5, 0x21e1cde6) case 25 => Row(14, 9, 0xc33707d6) case 26 => Row(3, 14, 0xf4d50d87)
    case 27 => Row(8, 20, 0x455a14ed) case 28 => Row(13, 5, 0xa9e3e905) case 29 => Row(2, 9, 0xfcefa3f8)
    case 30 => Row(7, 14, 0x676f02d9) case 31 => Row(12, 20, 0x8d2a4c8a) case 32 => Row(5, 4, 0xfffa3942)
    case 33 => Row(8, 11, 0x8771f681) case 34 => Row(11, 16, 0x6d9d6122) case 35 => Row(14, 23, 0xfde5380c)
    case 36 => Row(1, 4, 0xa4beea44) case 37 => Row(4, 11, 0x4bdecfa9) case 38 => Row(7, 16, 0xf6bb4b60)
    case 39 => Row(10, 23, 0xbebfbc70) case 40 => Row(13, 4, 0x289b7ec6) case 41 => Row(0, 11, 0xeaa127fa)
    case 42 => Row(3, 16, 0xd4ef3085) case 43 => Row(6, 23, 0x04881d05) case 44 => Row(9, 4, 0xd9d4d039)
    case 45 => Row(12, 11, 0xe6db99e5) case 46 => Row(15, 16, 0x1fa27cf8) case 47 => Row(2, 23, 0xc4ac5665)
    case 48 => Row(0, 6, 0xf4292244) case 49 => Row(7, 10, 0x432aff97) case 50 => Row(14, 15, 0xab9423a7)
    case 51 => Row(5, 21, 0xfc93a039) case 52 => Row(12, 6, 0x655b59c3) case 53 => Row(3, 10, 0x8f0ccc92)
    case 54 => Row(10, 15, 0xffeff47d) case 55 => Row(1, 21, 0x85845dd1) case 56 => Row(8, 6, 0x6fa87e4f)
    case 57 => Row(15, 10, 0xfe2ce6e0) case 58 => Row(6, 15, 0xa3014314) case 59 => Row(13, 21, 0x4e0811a1)
    case 60 => Row(4, 6, 0xf7537e82) case 61 => Row(11, 10, 0xbd3af235) case 62 => Row(2, 15, 0x2ad7d2bb)
    case _ => Row(9, 21, 0xeb86d391)
  }

  lemma TableBounds(i: nat)
    requires i < 64
    ensures Table(i).k < 16 && 0 < Table(i).s < 32
  {}

  /** The closed form of the table's first column: the four rounds walk the block with
      strides 1, 5, 3 and 7. */
  lemma TableWords(i: nat)
    requires i < 64
    ensures Table(i).k ==
            (if i < 16 then i else if i < 32 then 5 * i + 1 else if i < 48 then 3 * i + 5 else 7 * i) % 16
  {
    if i < 16 {
    } else if i < 32 {
    } else if i < 48 {
    } else {
    }
  }

  /** The second column: each round repeats its four amounts. */
  lemma TableShifts(r: nat, j: nat)
    requires r < 4 && j < 16
    ensures Table(16 * r + j).s == [[7, 12, 17, 22], [5, 9, 14, 20], [4, 11, 16, 23], [6, 10, 15, 21]][r][j % 4]
  {
    if r == 0 {
    } else if r == 1 {
    } else if r == 2 {
    } else {
    }
  }

  /** b + ((a + f + X[k] + T[i]) <<< s). */
  function Mix(f: uint32, a: uint32, b: uint32, x: uint32, s: nat, t: uint32): uint32
    requires 0 < s < 32
  {
    (b + Circular((a + f + x + t) % W32, s)) % W32
  }

  /** One step: mix, then rename the registers so that the next step again writes "a". */
  function Step(i: nat, x: seq<uint32>, q: Regs): Regs
    requires i < 64 && |x| == 16
  {
    TableBounds(i);
    var row := Table(i);
    Regs(q.d, Mix(Aux(i, q.b, q.c, q.d), q.a, q.b, x[row.k], row.s, row.t), q.b, q.c)
  }

  /** Section 3.4 of RFC 1321, [abcd k s i]: in every bit position the four rounds choose by b,
      choose by d, take the parity, and turn c over unless d is set and b is not. */
  lemma AuxBits(i: nat, b: uint32, c: uint32, d: uint32, k: nat)
    requires i < 64 && k < 32
    ensures var x, y, z := Bit(b, k), Bit(c, k), Bit(d, k);
            Bit(Aux(i, b, c, d), k) ==
            if i < 16 then if x then y else z
            else if i < 32 then if z then x else y
            else if i < 48 then (x && y && z) || (x && !y && !z) || (!x && y && !z) || (!x && !y && z)
            else (x || !z) != y
  {
    hide F, G, H, I, Bit;
    AuxiliaryBits(b, c, d, k);
  }

  /** And a = b + ((a + aux + X[k] + T[i]) <<< s), while b, c and d keep their values. */
  lemma StepEquation(i: nat, x: seq<uint32>, q: Regs)
    requires i < 64 && |x| == 16
    ensures var n, row := Step(i, x, q), Table(i);
            && row.k < 16 && 0 < row.s < 32
            && (n.c, n.d, n.a) == (q.b, q.c, q.d)
            && Circular((q.a + Aux(i, q.b, q.c, q.d) + x[row.k] + row.t) % W32, row.s) == (n.b - q.b) % W32
  {
    hide Aux, Table, Circular;
    TableBounds(i);
    var row := Table(i);
    AddUndone(q.b, Circular((Aux(i, q.b, q.c, q.d) + q.a + x[row.k] + row.t) % W32, row.s));
    assert Aux(i, q.b, q.c, q.d) + q.a == q.a + Aux(i, q.b, q.c, q.d);
  }

  const STEPS: nat := 64

  /** Steps lo..hi, in order. */
  function Steps(lo: nat, hi: nat, x: seq<uint32>, q: Regs): Regs
    requires lo <= hi <= 64 && |x| == 16
    decreases hi
  {
    if lo == hi then q else Step(hi - 1, x, Steps(lo, hi - 1, x, q))
  }

  /** Splitting a run of steps. */
  lemma {:induction false} StepsSplit(lo: nat, mid: nat, hi: nat, x: seq<uint32>, q: Regs)
    requires lo <= mid <= hi <= 64 && |x| == 16
    ensures Steps(mid, hi, x, Steps(lo, mid, x, q)) == Steps(lo, hi, x, q)
  {
    hide Step;
    if mid == hi {
    } else {
      StepsSplit(lo, mid, hi - 1, x, q);
    }
  }

  lemma FourSteps(lo: nat, x: seq<uint32>, q: Regs)
    requires lo <= 60 && |x| == 16
    ensures Steps(lo, lo + 4, x, q) ==
            Step(lo + 3, x, Step(lo + 2, x, Step(lo + 1, x, Step(lo, x, q))))
  {
    hide Step;
    assert Steps(lo, lo + 1, x, q) == Step(lo, x, q);
    assert Steps(lo, lo + 2, x, q) == Step(lo + 1, x, Steps(lo, lo + 1, x, q));
    assert Steps(lo, lo + 3, x, q) == Step(lo + 2, x, Steps(lo, lo + 2, x, q));
  }

  // ---------------------------------------------------------------- the program's statements

  lemma ModSum(u: nat, v: nat)
    ensures (u % W32 + v) % W32 == (u + v) % W32
  {}

  lemma MixOrder(f: uint32, a: uint32, b: uint32, x: uint32, s: nat, t: uint32)
    requires 0 < s < 32
    ensures Add32(RotateLeft(Add32(a, Add32(Add32(f, x), t)), s), b) == Mix(f, a, b, x, s, t)
  {
    hide RotateLeft, Circular;
    var sum := Add32(a, Add32(Add32(f, x), t));
    assert sum == (a + f + x + t) % W32 by {
      ModSum(f + x, t);
      ModSum(f + x + t, a);
    }
    RotateIsCircular(sum, s);
  }

  // FF, GG, HH and II return the new value of their reference parameter a.

  method FF(a0: uint32, b: uint32, c: uint32, d: uint32, x: uint32, s: nat, ac: uint32) returns (a: uint32)
    requires 0 < s < 32
    ensures a == Mix(F(b, c, d), a0, b, x, s, ac)
  {
    hide *;
    MixOrder(F(b, c, d), a0, b, x, s, ac);
    a := Add32(a0, Add32(Add32(F(b, c, d), x), ac));
    a := Add32(RotateLeft(a, s), b);
  }

  method GG(a0: uint32, b: uint32, c: uint32, d: uint32, x: uint32, s: nat, ac: uint32) returns (a: uint32)
    requires 0 < s < 32
    ensures a == Mix(G(b, c, d), a0, b, x, s, ac)
  {
    hide *;
    MixOrder(G(b, c, d), a0, b, x, s, ac);
    a := Add32(a0, Add32(Add32(G(b, c, d), x), ac));
    a := Add32(RotateLeft(a, s), b);
  }

  method HH(a0: uint32, b: uint32, c: uint32, d: uint32, x: uint32, s: nat, ac: uint32) returns (a: uint32)
    requires 0 < s < 32
    ensures a == Mix(H(b, c, d), a0, b, x, s, ac)
  {
    hide *;
    MixOrder(H(b, c, d), a0, b, x, s, ac);
    a := Add32(a0, Add32(Add32(H(b, c, d), x), ac));
    a := Add32(RotateLeft(a, s), b);
  }

  method II(a0: uint32, b: uint32, c: uint32, d: uint32, x: uint32, s: nat, ac: uint32) returns (a: uint32)
    requires 0 < s < 32
    ensures a == Mix(I(b, c, d), a0, b, x, s, ac)
  {
    hide *;
    MixOrder(I(b, c, d), a0, b, x, s, ac);
    a := Add32(a0, Add32(Add32(I(b, c, d), x), ac));
    a := Add32(RotateLeft(a, s), b);
  }

  method Round1(x: seq<uint32>, a0: uint32, b0: uint32, c0: uint32, d0: uint32)
    returns (a: uint32, b: uint32, c: uint32, d: uint32)
    requires |x| == 16
    ensures Regs(a, b, c, d) == Steps(0, 16, x, Regs(a0, b0, c0, d0))
  {
    hide Mix, F, G, H, I, Steps;
    ghost var q := Regs(a0, b0, c0, d0);
    a, b, c, d := a0, b0, c0, d0;
    FourSteps(0, x, Regs(a, b, c, d));
    a := FF(a, b, c, d, x[ 0],  7, 0xd76aa478);
    d := FF(d, a, b, c, x[ 1], 12, 0xe8c7b756);
    c := FF(c, d, a, b, x[ 2], 17, 0x242070db);
    b := FF(b, c, d, a, x[ 3], 22, 0xc1bdceee);
    assert Regs(a, b, c, d) == Steps(0, 4, x, q);
    FourSteps(4, x, Regs(a, b, c, d));
    StepsSplit(0, 4, 8, x, q);
    a := FF(a, b, c, d, x[ 4],  7, 0xf57c0faf);
    d := FF(d, a, b, c, x[ 5], 12, 0x4787c62a);
    c := FF(c, d, a, b, x[ 6], 17, 0xa8304613);
    b := FF(b, c, d, a, x[ 7], 22, 0xfd469501);
    assert Regs(a, b, c, d) == Steps(0, 8, x, q);
    FourSteps(8, x, Regs(a, b, c, d));
    StepsSplit(0, 8, 12, x, q);
    a := FF(a, b, c, d, x[ 8],  7, 0x698098d8);
    d := FF(d, a, b, c, x[ 9], 12, 0x8b44f7af);
    c := FF(c, d, a, b, x[10], 17, 0xffff5bb1);
    b := FF(b, c, d, a, x[11], 22, 0x895cd7be);
    assert Regs(a, b, c, d) == Steps(0, 12, x, q);
    FourSteps(12, x, Regs(a, b, c, d));
    StepsSplit(0, 12, 16, x, q);
    a := FF(a, b, c, d, x[12],  7, 0x6b901122);
    d := FF(d, a, b, c, x[13], 12, 0xfd987193);
    c := FF(c, d, a, b, x[14], 17, 0xa679438e);
    b := FF(b, c, d, a, x[15], 22, 0x49b40821);
    assert Regs(a, b, c, d) == Steps(0, 16, x, q);
  }

  method Round2(x: seq<uint32>, a0: uint32, b0: uint32, c0: uint32, d0: uint32)
    returns (a: uint32, b: uint32, c: uint32, d: uint32)
    requires |x| == 16
    ensures Regs(a, b, c, d) == Steps(16, 32, x, Regs(a0, b0, c0, d0))
  {
    hide Mix, F, G, H, I, Steps;
    ghost var q := Regs(a0, b0, c0, d0);
    a, b, c, d := a0, b0, c0, d0;
    FourSteps(16, x, Regs(a, b, c, d));
    a := GG(a, b, c, d, x[ 1],  5, 0xf61e2562);
    d := GG(d, a, b, c, x[ 6],  9, 0xc040b340);
    c := GG(c, d, a, b, x[11], 14, 0x265e5a51);
    b := GG(b, c, d, a, x[ 0], 20, 0xe9b6c7aa);
    assert Regs(a, b, c, d) == Steps(16, 20, x, q);
    FourSteps(20, x, Regs(a, b, c, d));
    StepsSplit(16, 20, 24, x, q);
    a := GG(a, b, c, d, x[ 5],  5, 0xd62f105d);
    d := GG(d, a, b, c, x[10],  9, 0x02441453);
    c := GG(c, d, a, b, x[15], 14, 0xd8a1e681);
    b := GG(b, c, d, a, x[ 4], 20, 0xe7d3fbc8);
    assert Regs(a, b, c, d) == Steps(16, 24, x, q);
    FourSteps(24, x, Regs(a, b, c, d));
    StepsSplit(16, 24, 28, x, q);
    a := GG(a, b, c, d, x[ 9],  5, 0x21e1cde6);
    d := GG(d, a, b, c, x[14],  9, 0xc33707d6);
    c := GG(c, d, a, b, x[ 3], 14, 0xf4d50d87);
    b := GG(b, c, d, a, x[ 8], 20, 0x455a14ed);
    assert Regs(a, b, c, d) == Steps(16, 28, x, q);
    FourSteps(28, x, Regs(a, b, c, d));
    StepsSplit(16, 28, 32, x, q);
    a := GG(a, b, c, d, x[13],  5, 0xa9e3e905);
    d := GG(d, a, b, c, x[ 2],  9, 0xfcefa3f8);
    c := GG(c, d, a, b, x[ 7], 14, 0x676f02d9);
    b := GG(b, c, d, a, x[12], 20, 0x8d2a4c8a);
    assert Regs(a, b, c, d) == Steps(16, 32, x, q);
  }

  method Round3(x: seq<uint32>, a0: uint32, b0: uint32, c0: uint32, d0: uint32)
    returns (a: uint32, b: uint32, c: uint32, d: uint32)
    requires |x| == 16
    ensures Regs(a, b, c, d) == Steps(32, 48, x, Regs(a0, b0, c0, d0))
  {
    hide Mix, F, G, H, I, Steps;
    ghost var q := Regs(a0, b0, c0, d0);
    a, b, c, d := a0, b0, c0, d0;
    FourSteps(32, x, Regs(a, b, c, d));
    a := HH(a, b, c, d, x[ 5],  4, 0xfffa3942);
    d := HH(d, a, b, c, x[ 8], 11, 0x8771f681);
    c := HH(c, d, a, b, x[11], 16, 0x6d9d6122);
    b := HH(b, c, d, a, x[14], 23, 0xfde5380c);
    assert Regs(a, b, c, d) == Steps(32, 36, x, q);
    FourSteps(36, x, Regs(a, b, c, d));
    StepsSplit(32, 36, 40, x, q);
    a := HH(a, b, c, d, x[ 1],  4, 0xa4beea44);
    d := HH(d, a, b, c, x[ 4], 11, 0x4bdecfa9);
    c := HH(c, d, a, b, x[ 7], 16, 0xf6bb4b60);
    b := HH(b, c, d, a, x[10], 23, 0xbebfbc70);
    assert Regs(a, b, c, d) == Steps(32, 40, x, q);
    FourSteps(40, x, Regs(a, b, c, d));
    StepsSplit(32, 40, 44, x, q);
    a := HH(a, b, c, d, x[13],  4, 0x289b7ec6);
    d := HH(d, a, b, c, x[ 0], 11, 0xeaa127fa);
    c := HH(c, d, a, b, x[ 3], 16, 0xd4ef3085);
    b := HH(b, c, d, a, x[ 6], 23, 0x04881d05);
    assert Regs(a, b, c, d) == Steps(32, 44, x, q);
    FourSteps(44, x, Regs(a, b, c, d));
    StepsSplit(32, 44, 48, x, q);
    a := HH(a, b, c, d, x[ 9],  4, 0xd9d4d039);
    d := HH(d, a, b, c, x[12], 11, 0xe6db99e5);
    c := HH(c, d, a, b, x[15], 16, 0x1fa27cf8);
    b := HH(b, c, d, a, x[ 2], 23, 0xc4ac5665);
    assert Regs(a, b, c, d) == Steps(32, 48, x, q);
  }

  method Round4(x: seq<uint32>, a0: uint32, b0: uint32, c0: uint32, d0: uint32)
    returns (a: uint32, b: uint32, c: uint32, d: uint32)
    requires |x| == 16
    ensures Regs(a, b, c, d) == Steps(48, 64, x, Regs(a0, b0, c0, d0))
  {
    hide Mix, F, G, H, I, Steps;
    ghost var q := Regs(a0, b0, c0, d0);
    a, b, c, d := a0, b0, c0, d0;
    FourSteps(48, x, Regs(a, b, c, d));
    a := II(a, b, c, d, x[ 0],  6, 0xf4292244);
    d := II(d, a, b, c, x[ 7], 10, 0x432aff97);
    c := II(c, d, a, b, x[14], 15, 0xab9423a7);
    b := II(b, c, d, a, x[ 5], 21, 0xfc93a039);
    assert Regs(a, b, c, d) == Steps(48, 52, x, q);
    FourSteps(52, x, Regs(a, b, c, d));
    StepsSplit(48, 52, 56, x, q);
    a := II(a, b, c, d, x[12],  6, 0x655b59c3);
    d := II(d, a, b, c, x[ 3], 10, 0x8f0ccc92);
    c := II(c, d, a, b, x[10], 15, 0xffeff47d);
    b := II(b, c, d, a, x[ 1], 21, 0x85845dd1);
    assert Regs(a, b, c, d) == Steps(48, 56, x, q);
    FourSteps(56, x, Regs(a, b, c, d));
    StepsSplit(48, 56, 60, x, q);
    a := II(a, b, c, d, x[ 8],  6, 0x6fa87e4f);
    d := II(d, a, b, c, x[15], 10, 0xfe2ce6e0);
    c := II(c, d, a, b, x[ 6], 15, 0xa3014314);
    b := II(b, c, d, a, x[13], 21, 0x4e0811a1);
    assert Regs(a, b, c, d) == Steps(48, 60, x, q);
    FourSteps(60, x, Regs(a, b, c, d));
    StepsSplit(48, 60, 64, x, q);
    a := II(a, b, c, d, x[ 4],  6, 0xf7537e82);
    d := II(d, a, b, c, x[11], 10, 0xbd3af235);
    c := II(c, d, a, b, x[ 2], 15, 0x2ad7d2bb);
    b := II(b, c, d, a, x[ 9], 21, 0xeb86d391);
    assert Regs(a, b, c, d) == Steps(48, 64, x, q);
  }

  /** The 64 unrolled statements of the program are the 64 steps of the table. */
  method Unrolled(x: seq<uint32>, q: Regs) returns (r: Regs)
    requires |x| == 16
    ensures r == Steps(0, STEPS, x, q)
  {
    hide Step, Steps;
    var a, b, c, d := Round1(x, q.a, q.b, q.c, q.d);
    a, b, c, d := Round2(x, a, b, c, d);
    a, b, c, d := Round3(x, a, b, c, d);
    a, b, c, d := Round4(x, a, b, c, d);
    StepsSplit(0, 16, 32, x, q);
    StepsSplit(0, 32, 48, x, q);
    StepsSplit(0, 48, 64, x, q);
    r := Regs(a, b, c, d);
  }

  // ---------------------------------------------------------------- the steps are a bijection

  /** Solves Mix for its register argument a. */
  function Unmix(f: uint32, m: uint32, b: uint32, x: uint32, s: nat, t: uint32): uint32
    requires 0 < s < 32
  {
    (Uncircular((m - b) % W32, s) - f - x - t) % W32
  }

  function Unstep(i: nat, x: seq<uint32>, q: Regs): Regs
    requires i < 64 && |x| == 16
  {
    TableBounds(i);
    var row := Table(i);
    Regs(Unmix(Aux(i, q.c, q.d, q.a), q.b, q.c, x[row.k], row.s, row.t), q.c, q.d, q.a)
  }

  /** Steps hi - 1 down to lo, undone one after the other. */
  function Unsteps(lo: nat, hi: nat, x: seq<uint32>, q: Regs): Regs
    requires lo <= hi <= 64 && |x| == 16
    decreases hi
  {
    if lo == hi then q else Unsteps(lo, hi - 1, x, Unstep(hi - 1, x, q))
  }

  lemma UnmixMix(f: uint32, a: uint32, b: uint32, x: uint32, s: nat, t: uint32)
    requires 0 < s < 32
    ensures Unmix(f, Mix(f, a, b, x, s, t), b, x, s, t) == a
  {
    hide Circular, Uncircular;
    var sum: uint32 := (a + f + x + t) % W32;
    CircularInverse(sum, s);
    assert (Mix(f, a, b, x, s, t) - b) % W32 == Circular(sum, s);
  }

  lemma MixUnmix(f: uint32, m: uint32, b: uint32, x: uint32, s: nat, t: uint32)
    requires 0 < s < 32
    ensures Mix(f, Unmix(f, m, b, x, s, t), b, x, s, t) == m
  {
    hide Circular, Uncircular;
    var diff: uint32 := (m - b) % W32;
    CircularInverse(diff, s);
    assert (Unmix(f, m, b, x, s, t) + f + x + t) % W32 == Uncircular(diff, s);
  }

  lemma UnstepInverse(i: nat, x: seq<uint32>, q: Regs)
    requires i < 64 && |x| == 16
    ensures Unstep(i, x, Step(i, x, q)) == q
    ensures Step(i, x, Unstep(i, x, q)) == q
  {
    hide Mix, Unmix, Aux, Table;
    TableBounds(i);
    var row := Table(i);
    UnmixMix(Aux(i, q.b, q.c, q.d), q.a, q.b, x[row.k], row.s, row.t);
    MixUnmix(Aux(i, q.c, q.d, q.a), q.b, q.c, x[row.k], row.s, row.t);
  }

  /** For every block, any run of steps is undone by the explicit inverse steps, on both
      sides; with lo == 0 and hi == 64 the whole round function is a bijection. */
  lemma {:induction false} StepsBijective(lo: nat, hi: nat, x: seq<uint32>, q: Regs)
    requires lo <= hi <= 64 && |x| == 16
    ensures Unsteps(lo, hi, x, Steps(lo, hi, x, q)) == q
    ensures Steps(lo, hi, x, Unsteps(lo, hi, x, q)) == q
  {
    hide Step, Unstep;
    if lo == hi {
    } else {
      UnstepInverse(hi - 1, x, Steps(lo, hi - 1, x, q));
      StepsBijective(lo, hi - 1, x, q);
      UnstepInverse(hi - 1, x, q);
      StepsBijective(lo, hi - 1, x, Unstep(hi - 1, x, q));
    }
  }
}
