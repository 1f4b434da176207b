/** The one-shot MD5 of RFC 1321, sections 3.1 to 3.5: pad, append the length, fold the
    block step over the 64-byte blocks, output the registers low-order byte first. */
module Md5Digest {
  import opened Bits
  import opened Md5Rounds
  import opened Md5Codec

  const BLOCK: nat := 64

  /** Section 3.3. */
  const INITIAL := Regs(0x67452301, 0xefcdab89, 0x98badcfe, 0x10325476)

  /** Section 3.4: the 64 steps, then the feed-forward additions. */
  function Compress(q: Regs, block: seq<uint8>): Regs
    requires |block| == BLOCK
  {
    var r := Steps(0, STEPS, Decoded(block), q);
    Regs(Add32(q.a, r.a), Add32(q.b, r.b), Add32(q.c, r.c), Add32(q.d, r.d))
  }

  /** The bytes A, B, C, D of section 3.3, low-order byte first. */
  lemma InitialBytes()
    ensures Encoded([INITIAL.a, INITIAL.b, INITIAL.c, INITIAL.d]) ==
            [0x01, 0x23, 0x45, 0x67, 0x89, 0xab, 0xcd, 0xef, 0xfe, 0xdc, 0xba, 0x98, 0x76, 0x54, 0x32, 0x10]
  {
    hide Encoded;
    var bytes: seq<uint8> :=
      [0x01, 0x23, 0x45, 0x67, 0x89, 0xab, 0xcd, 0xef, 0xfe, 0xdc, 0xba, 0x98, 0x76, 0x54, 0x32, 0x10];
    var words: seq<uint32> := [INITIAL.a, INITIAL.b, INITIAL.c, INITIAL.d];
    assert Decoded(bytes) == words;
    EncodeDecode(bytes);
  }

  /** Each register is added to itself: what the block step adds, undone by the 64 inverse
      steps, is what it was added to. */
  lemma FeedForward(q: Regs, block: seq<uint8>)
    requires |block| == BLOCK
    ensures var n := Compress(q, block);
            Unsteps(0, 64, Decoded(block),
                    Regs((n.a - q.a) % W32, (n.b - q.b) % W32, (n.c - q.c) % W32, (n.d - q.d) % W32)) == q
  {
    hide Steps, Unsteps, Decoded;
    var r := Steps(0, STEPS, Decoded(block), q);
    Differences(q, r, Compress(q, block));
    hide Compress;
    StepsBijective(0, 64, Decoded(block), q);
  }

  lemma Differences(q: Regs, r: Regs, n: Regs)
    requires n == Regs(Add32(q.a, r.a), Add32(q.b, r.b), Add32(q.c, r.c), Add32(q.d, r.d))
    ensures Regs((n.a - q.a) % W32, (n.b - q.b) % W32, (n.c - q.c) % W32, (n.d - q.d) % W32) == r
  {
    AddUndone(q.a, r.a);
    AddUndone(q.b, r.b);
    AddUndone(q.c, r.c);
    AddUndone(q.d, r.d);
  }

  /** The fold of the block step over the complete blocks of a text. */
  function Absorb(q: Regs, text: seq<uint8>): Regs
    decreases |text|
  {
    if |text| < BLOCK then q else Absorb(Compress(q, text[..BLOCK]), text[BLOCK..])
  }

  /** Section 3.1: at least one byte, as few as bring the length to 56 modulo 64. */
  function PadCount(n: nat): (k: nat)
    ensures 1 <= k <= BLOCK && (n + k) % BLOCK == 56
  {
    (55 - n) % BLOCK + 1
  }

  lemma PadCountLeast(n: nat, j: nat)
    requires 1 <= j && (n + j) % BLOCK == 56
    ensures PadCount(n) <= j
  {}

  function Pad(n: nat): seq<uint8> { [0x80] + Zeros(PadCount(n) - 1) }

  function Zeros(k: nat): (z: seq<uint8>)
    ensures |z| == k
    ensures forall i :: 0 <= i < k ==> z[i] == 0
  {
    seq(k, _ => 0)
  }

  /** Section 3.2: the bit count modulo 2^64 as two words, low-order word first. */
  function LengthField(bits: nat): (f: seq<uint8>)
    ensures |f| == 8
  {
    Encoded([bits % W32, bits / W32 % W32])
  }

  function Padded(message: seq<uint8>, bits: nat): (text: seq<uint8>)
    ensures |text| % BLOCK == 0 && text != []
  {
    message + Pad(|message|) + LengthField(bits)
  }

  /** The layout of sections 3.1 and 3.2: the message, a one bit, zero bits, and the bit count
      modulo 2^64, low-order byte first. */
  lemma PaddedLayout(message: seq<uint8>, bits: nat)
    ensures var text := Padded(message, bits);
            var m, n := |message|, |Padded(message, bits)| - 8;
            && m < n && text[..m] == message && text[m] == 0x80
            && (forall i :: m < i < n ==> text[i] == 0)
            && var f: seq<nat> := text[n..];
               f[0] + 0x100 * f[1] + 0x1_0000 * f[2] + 0x100_0000 * f[3]
               + W32 * (f[4] + 0x100 * f[5] + 0x1_0000 * f[6] + 0x100_0000 * f[7]) == bits % W64
  {
    hide ByteOf;
    var low, high := bits % W32, bits / W32 % W32;
    var text, n := Padded(message, bits), |Padded(message, bits)| - 8;
    var f := LengthField(bits);
    assert text[n..] == f;
    FieldBytes(low, high);
    SplitWords(bits);
    ByteDigits(low);
    ByteDigits(high);
  }

  lemma FieldBytes(low: uint32, high: uint32)
    ensures Encoded([low, high]) ==
            [ByteOf(low, 0), ByteOf(low, 1), ByteOf(low, 2), ByteOf(low, 3),
             ByteOf(high, 0), ByteOf(high, 1), ByteOf(high, 2), ByteOf(high, 3)]
  {
    hide ByteOf;
  }

  function LastBlock(text: seq<uint8>): (block: seq<uint8>)
    requires |text| % BLOCK == 0 && text != []
    ensures |block| == BLOCK
  {
    text[|text| - BLOCK..]
  }

  /** The digest of a message whose length field holds the given bit count. */
  function DigestWith(message: seq<uint8>, bits: nat): seq<uint8> {
    var q := Absorb(INITIAL, Padded(message, bits));
    Encoded([q.a, q.b, q.c, q.d])
  }

  function Digest(message: seq<uint8>): seq<uint8> {
    DigestWith(message, 8 * |message|)
  }

  // ---------------------------------------------------------------- laws

  /** The fold may be cut at any block boundary. */
  lemma {:induction false} AbsorbConcat(q: Regs, s: seq<uint8>, t: seq<uint8>)
    requires |s| % BLOCK == 0
    ensures Absorb(q, s + t) == Absorb(Absorb(q, s), t)
    decreases |s|
  {
    hide Compress;
    if s == [] {
      assert s + t == t;
    } else {
      assert (s + t)[..BLOCK] == s[..BLOCK];
      assert (s + t)[BLOCK..] == s[BLOCK..] + t;
      AbsorbConcat(Compress(q, s[..BLOCK]), s[BLOCK..], t);
    }
  }

  /** One more block is one more step. */
  lemma AbsorbBlock(q: Regs, text: seq<uint8>, done: nat)
    requires done % BLOCK == 0 && done + BLOCK <= |text|
    ensures Absorb(q, text[..done + BLOCK]) == Compress(Absorb(q, text[..done]), text[done..done + BLOCK])
  {
    hide Compress;
    var block := text[done..done + BLOCK];
    assert text[..done] + block == text[..done + BLOCK];
    AbsorbConcat(q, text[..done], block);
    assert block[..BLOCK] == block && block[BLOCK..] == [];
  }

  /** An incomplete block changes nothing. */
  lemma AbsorbTail(q: Regs, text: seq<uint8>)
    ensures Absorb(q, text) == Absorb(q, text[..|text| - |text| % BLOCK])
  {
    hide Compress;
    var full := |text| - |text| % BLOCK;
    assert text == text[..full] + text[full..];
    AbsorbConcat(q, text[..full], text[full..]);
  }

  /** Two length fields agree exactly when the bit counts agree modulo 2^64. */
  lemma LengthFieldInjective(x: nat, y: nat)
    ensures LengthField(x) == LengthField(y) <==> x % W64 == y % W64
  {
    hide Encoded;
    SplitWords(x);
    SplitWords(y);
    DecodeEncode([x % W32, x / W32 % W32]);
    DecodeEncode([y % W32, y / W32 % W32]);
    if LengthField(x) == LengthField(y) {
      assert [x % W32, x / W32 % W32] == [y % W32, y / W32 % W32];
      assert [x % W32, x / W32 % W32][0] == [y % W32, y / W32 % W32][0];
      assert [x % W32, x / W32 % W32][1] == [y % W32, y / W32 % W32][1];
    }
  }

  lemma SplitWords(x: nat)
    ensures x % W64 == x % W32 + W32 * (x / W32 % W32)
    ensures x % W64 % W32 == x % W32 && x % W64 / W32 == x / W32 % W32
  {}
}
