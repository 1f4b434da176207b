/** 128-bit arithmetic on two 64-bit words. */
module Uint128 {
  import opened Bits
  import opened HexText

  const W128: nat := 0x1_0000_0000_0000_0000_0000_0000_0000_0000

  /** The two words of a value. */
  datatype Wide = Wide(high: uint64, low: uint64) {
    /** The number the words stand for. */
    function Number(): (n: nat)
      ensures n < W128
    {
      W64 * high + low
    }
  }

  /** The 32 padded hexadecimal digits of the number are those of the high word, then those of
      the low word. */
  lemma NumberDigits(a: Wide)
    ensures Fixed(a.Number(), 32) == Fixed(a.high, 16) + Fixed(a.low, 16)
  {
    hide Pow2, Fixed;
    PowAdd(32, 32);
    Powers();
    FixedSplit(a.high, a.low, 16, 16);
  }

  lemma NumberInjective(a: Wide, b: Wide)
    ensures a.Number() == b.Number() <==> a == b
  {}

  // ---------------------------------------------------------------- comparisons

  predicate Less(a: Wide, b: Wide)
    ensures Less(a, b) <==> a.Number() < b.Number()
  {
    if a.high < b.high then true else if a.high > b.high then false else a.low < b.low
  }

  predicate Greater(a: Wide, b: Wide)
    ensures Greater(a, b) <==> a.Number() > b.Number()
  {
    if a.high > b.high then true else if a.high < b.high then false else a.low > b.low
  }

  predicate LessEqual(a: Wide, b: Wide)
    ensures LessEqual(a, b) <==> a.Number() <= b.Number()
  {
    if a.high < b.high then true else if a.high > b.high then false else a.low <= b.low
  }

  predicate GreaterEqual(a: Wide, b: Wide)
    ensures GreaterEqual(a, b) <==> a.Number() >= b.Number()
  {
    if a.high > b.high then true else if a.high < b.high then false else a.low >= b.low
  }

  // ---------------------------------------------------------------- the operators in place

  class Uint128 {
    var high: uint64
    var low: uint64

    ghost function View(): Wide
      reads this
    {
      Wide(high, low)
    }

    constructor (high: uint64, low: uint64)
      ensures View() == Wide(high, low)
    {
      this.high, this.low := high, low;
    }

    method Assign(rhs: Uint128)
      modifies this
      ensures View() == old(rhs.View())
    {
      high, low := rhs.high, rhs.low;
    }

    method Increment()
      modifies this
      ensures View().Number() == (old(View().Number()) + 1) % W128
    {
      hide Reduce;
      low := (low + 1) % W64;
      if low == 0 {
        high := (high + 1) % W64;
      }
      IncrementedWords(old(View()));
    }

    method Decrement()
      modifies this
      ensures View().Number() == (old(View().Number()) - 1) % W128
    {
      hide Reduce;
      if low == 0 {
        high := (high - 1) % W64;
      }
      low := (low - 1) % W64;
      DecrementedWords(old(View()));
    }

    /** rhs may be this object itself. */
    method AddAssign(rhs: Uint128)
      modifies this
      ensures View().Number() == (old(View().Number()) + old(rhs.View().Number())) % W128
    {
      hide Reduce;
      var oldLow := low;
      low := (low + rhs.low) % W64;
      if low < oldLow {
        high := (high + rhs.high + 1) % W64;
      } else {
        high := (high + rhs.high) % W64;
      }
      SumOfWords(old(View()), old(rhs.View()));
    }
  }

  /** a + b for a 64-bit b; a is left as it is. */
  method AddLow(a: Uint128, b: uint64) returns (result: Uint128)
    ensures fresh(result) && result.View().Number() == (a.View().Number() + b) % W128
  {
    hide Reduce;
    result := new Uint128(a.high, a.low);
    result.low := (result.low + b) % W64;
    if result.low < a.low {
      result.high := (result.high + 1) % W64;
    }
    LowSumOfWords(a.View(), b);
  }

  /** a + b; a and b are left as they are. */
  method Add(a: Uint128, b: Uint128) returns (result: Uint128)
    ensures fresh(result) && result.View().Number() == (a.View().Number() + b.View().Number()) % W128
  {
    result := new Uint128(a.high, a.low);
    result.AddAssign(b);
  }

  /** a - b for a 64-bit b; a is left as it is. */
  method SubtractLow(a: Uint128, b: uint64) returns (result: Uint128)
    ensures fresh(result) && result.View().Number() == (a.View().Number() - b) % W128
  {
    hide Reduce;
    result := new Uint128(a.high, a.low);
    result.low := (result.low - b) % W64;
    if result.low > a.low {
      result.high := (result.high - 1) % W64;
    }
    DifferenceOfWords(a.View(), b);
  }

  // ---------------------------------------------------------------- the reference

  datatype Op = Up | Down | Plus(rhs: Wide) | Twice | PlusLow(b: uint64) | MinusLow(b: uint64)

  /** The words of an integer modulo 2^128. */
  function Reduce(n: int): (w: Wide)
    ensures w.Number() == n % W128
  {
    var m := n % W128;
    assert m / W64 < W64;
    Wide(m / W64, m % W64)
  }

  /** A word pair that differs from n by a multiple of 2^128 is the reduction of n. */
  lemma Reduced(w: Wide, n: int, k: int)
    requires n == W128 * k + w.Number()
    ensures w == Reduce(n)
  {
    DivModIs(n, W128, k, w.Number());
    NumberInjective(w, Reduce(n));
  }

  /** The sum of the low words lies below either operand exactly when a carry is due. */
  lemma CarryDue(x: uint64, y: uint64)
    ensures (x + y) % W64 < x <==> x + y >= W64
    ensures (x + y) % W64 == if x + y >= W64 then x + y - W64 else x + y
  {}

  /** The difference lies above the first operand exactly when a borrow is due. */
  lemma BorrowDue(x: uint64, y: uint64)
    ensures (x - y) % W64 > x <==> x < y
    ensures (x - y) % W64 == if x < y then x - y + W64 else x - y
  {}

  lemma SumOfWords(a: Wide, b: Wide)
    ensures var low := (a.low + b.low) % W64;
            var carry := if low < a.low then 1 else 0;
            Wide((a.high + b.high + carry) % W64, low) == Reduce(a.Number() + b.Number())
  {
    CarryDue(a.low, b.low);
    var low := (a.low + b.low) % W64;
    var carry := if low < a.low then 1 else 0;
    var h := a.high + b.high + carry;
    Reduced(Wide(h % W64, low), a.Number() + b.Number(), h / W64);
  }

  lemma DifferenceOfWords(a: Wide, b: uint64)
    ensures var low := (a.low - b) % W64;
            var borrow := if low > a.low then 1 else 0;
            Wide((a.high - borrow) % W64, low) == Reduce(a.Number() - b)
  {
    BorrowDue(a.low, b);
    var low := (a.low - b) % W64;
    var borrow := if low > a.low then 1 else 0;
    var h := a.high - borrow;
    Reduced(Wide(h % W64, low), a.Number() - b, h / W64);
  }

  lemma IncrementedWords(a: Wide)
    ensures var low := (a.low + 1) % W64;
            Wide(if low == 0 then (a.high + 1) % W64 else a.high, low) == Apply(Up, a)
  {
    hide Reduce;
    SumOfWords(a, Wide(0, 1));
  }

  lemma DecrementedWords(a: Wide)
    ensures Wide(if a.low == 0 then (a.high - 1) % W64 else a.high, (a.low - 1) % W64) == Apply(Down, a)
  {
    hide Reduce;
    DifferenceOfWords(a, 1);
  }

  lemma LowSumOfWords(a: Wide, b: uint64)
    ensures var low := (a.low + b) % W64;
            Wide(if low < a.low then (a.high + 1) % W64 else a.high, low) == Apply(PlusLow(b), a)
  {
    hide Reduce;
    SumOfWords(a, Wide(0, b));
  }

  /** The effect of an operator on unbounded integers; Twice is a += a. */
  function Ideal(op: Op, n: int): int {
    match op
    case Up => n + 1
    case Down => n - 1
    case Plus(rhs) => n + rhs.Number()
    case Twice => 2 * n
    case PlusLow(b) => n + b
    case MinusLow(b) => n - b
  }

  function Apply(op: Op, w: Wide): Wide {
    Reduce(Ideal(op, w.Number()))
  }

  function ApplyAll(ops: seq<Op>, w: Wide): Wide {
    if ops == [] then w else ApplyAll(ops[1..], Apply(ops[0], w))
  }

  function IdealAll(ops: seq<Op>, n: int): int {
    if ops == [] then n else IdealAll(ops[1..], Ideal(ops[0], n))
  }

  /** Every operator respects congruence modulo 2^128. */
  lemma IdealCongruent(op: Op, m: int, k: int)
    ensures exists j :: Ideal(op, m + W128 * k) == Ideal(op, m) + W128 * j
  {
    var j := if op.Twice? then 2 * k else k;
    assert Ideal(op, m + W128 * k) == Ideal(op, m) + W128 * j;
  }

  /** For every sequence of operators the words represent the result of the same sequence
      on unbounded integers, modulo 2^128. */
  lemma {:induction false} RunIsModular(ops: seq<Op>, w: Wide, n: int)
    requires w == Reduce(n)
    ensures ApplyAll(ops, w) == Reduce(IdealAll(ops, n))
  {
    if ops == [] {
    } else {
      var k := n / W128;
      assert n == w.Number() + W128 * k;
      IdealCongruent(ops[0], w.Number(), k);
      var j :| Ideal(ops[0], n) == Ideal(ops[0], w.Number()) + W128 * j;
      SameReduction(Ideal(ops[0], w.Number()), j);
      RunIsModular(ops[1..], Apply(ops[0], w), Ideal(ops[0], n));
    }
  }

  lemma SameReduction(m: int, j: int)
    ensures Reduce(m + W128 * j) == Reduce(m)
  {
    var w := Reduce(m);
    DivMod(m, W128);
    Reduced(w, m + W128 * j, m / W128 + j);
  }

  /** A sum is below an operand exactly when it wrapped. */
  lemma WrapDetected(a: Wide, b: Wide)
    ensures Less(Apply(Plus(b), a), a) <==> a.Number() + b.Number() >= W128
  {
    var n := a.Number() + b.Number();
    if n < W128 {
      DivModIs(n, W128, 0, n);
    } else {
      DivModIs(n, W128, 1, n - W128);
    }
  }

  /** Performs a sequence of operators on one object, a += a with the object as its own
      right-hand side: the number it ends with is the integer result modulo 2^128. */
  method Perform(u: Uint128, ops: seq<Op>)
    modifies u
    ensures u.View().Number() == IdealAll(ops, old(u.View()).Number()) % W128
  {
    hide Reduce;
    Reduced(u.View(), u.View().Number(), 0);
    RunIsModular(ops, u.View(), u.View().Number());
    var i := 0;
    while i < |ops|
      invariant i <= |ops|
      invariant ApplyAll(ops[i..], u.View()) == ApplyAll(ops, old(u.View()))
    {
      assert ops[i..][1..] == ops[i + 1..];
      ghost var w := u.View();
      match ops[i] {
        case Up => u.Increment();
        case Down => u.Decrement();
        case Plus(rhs) => var v := new Uint128(rhs.high, rhs.low); u.AddAssign(v);
        case Twice => u.AddAssign(u);
        case PlusLow(b) => var v := AddLow(u, b); u.Assign(v);
        case MinusLow(b) => var v := SubtractLow(u, b); u.Assign(v);
      }
      NumberInjective(u.View(), Apply(ops[i], w));
      assert u.View() == Apply(ops[i], w);
      i := i + 1;
    }
  }
}
