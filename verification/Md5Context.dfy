/** The incremental MD5 object, and its agreement with the one-shot digest for every
    cutting of a message into chunks. */
module Md5Context {
  import opened Bits
  import opened Md5Rounds
  import opened Md5Codec
  import opened Md5Digest
  import opened HexText

  const PADDING: seq<uint8> := [0x80] + Zeros(63)

  /** The two counter words hold a bit count modulo 2^64. */
  ghost predicate Counts(low: uint32, high: uint32, bits: nat) {
    W32 * high + low == bits % W64
  }

  /** The counter update: the byte count is cut to 32 bits, shifted left by 3 into the low
      word with a carry, and its top 3 bits are added to the high word. */
  lemma CountAdvances(low: uint32, high: uint32, bits: nat, length: uint32)
    requires Counts(low, high, bits)
    ensures var more := Shl32(length, 3);
            var low' := Add32(low, more);
            var carried := if low' < more then Add32(high, 1) else high;
            Counts(low', Add32(carried, Shr32(length, 29)), bits + 8 * length)
  {
    hide Shl32, Shr32;
    ShiftCount(length);
    var more := Shl32(length, 3);
    Carry(low, more);
    var carry := (low + more) / W32;
    var top := 8 * length / W32;
    assert Add32(high, carry) == (high + carry) % W32;
    ModSum(high + carry, top);
    AddCounts(low, high, bits, 8 * length);
  }

  lemma ShiftCount(l: uint32)
    ensures Shl32(l, 3) == 8 * l % W32 && Shr32(l, 29) == 8 * l / W32
  {
    Powers();
  }

  /** The wrapped sum is below an operand exactly when it wrapped. */
  lemma Carry(x: uint32, y: uint32)
    ensures Add32(x, y) < y <==> x + y >= W32
    ensures (x + y) / W32 == if x + y >= W32 then 1 else 0
  {}

  lemma AddCounts(low: uint32, high: uint32, bits: nat, more: nat)
    requires W32 * high + low == bits % W64
    ensures var sum := low + more % W32;
            W32 * ((high + sum / W32 + more / W32) % W32) + sum % W32 == (bits + more) % W64
  {
    var sum := low + more % W32;
    var h := high + sum / W32 + more / W32;
    var k, q := bits / W64, h / W32;
    assert W32 * h + sum % W32 == bits % W64 + more;
    DivModIs(bits + more, W64, k + q, W32 * (h % W32) + sum % W32);
  }

  /** The buffer index is read from the low word alone, also after that word has wrapped. */
  lemma BufferIndex(low: uint32, high: uint32, bytes: nat)
    requires Counts(low, high, 8 * bytes)
    ensures And32(Shr32(low, 3), 0x3f) == bytes % BLOCK
  {
    hide And, Shr;
    Powers();
    AndMask(Shr32(low, 3), 6);
    ShiftIndex(low);
    LowIndex(low, high, bytes);
  }

  lemma ShiftIndex(low: uint32)
    ensures Shr32(low, 3) == low / 8
  {
    Powers();
  }

  lemma LowIndex(low: uint32, high: uint32, bytes: nat)
    requires Counts(low, high, 8 * bytes)
    ensures low / 8 % BLOCK == bytes % BLOCK
  {
    var k := 8 * bytes / W64;
    var q := 0x80_0000_0000_0000 * k + 0x80_0000 * high;
    assert low == 8 * (bytes - BLOCK * q);
    DivModIs(low, 8, bytes - BLOCK * q, 0);
    DivModIs(bytes, BLOCK, q + low / 8 / BLOCK, low / 8 % BLOCK);
  }

  /** The fields of an unfinished object that was given a message in chunks whose 32-bit
      lengths add up to counted. */
  ghost predicate Absorbed(state: Regs, buffer: seq<uint8>, low: uint32, high: uint32,
                           message: seq<uint8>, counted: nat, transforms: nat)
    requires |buffer| == BLOCK
  {
    var n := |message|;
    && state == Absorb(INITIAL, message)
    && buffer[..n % BLOCK] == message[n - n % BLOCK..]
    && Counts(low, high, 8 * counted)
    && counted % BLOCK == n % BLOCK
    && transforms == n / BLOCK
  }

  lemma NothingAbsorbed(buffer: seq<uint8>)
    requires |buffer| == BLOCK
    ensures Absorbed(INITIAL, buffer, 0, 0, [], 0, 0)
  {
    hide Compress;
  }

  /** The bytes before the first zero byte. */
  function CString(text: seq<uint8>): (s: seq<uint8>)
    ensures s <= text && 0 !in s
    ensures |s| < |text| ==> text[|s|] == 0
  {
    if text == [] || text[0] == 0 then [] else [text[0]] + CString(text[1..])
  }

  lemma ShortText(message: seq<uint8>, counted: nat)
    requires counted == |message| % W32
    ensures |message| < W32 ==> DigestWith(message, 8 * counted) == Digest(message)
  {
    hide DigestWith;
    if |message| < W32 {
      assert counted == |message|;
    }
  }

  lemma HalfFits(half: seq<uint8>)
    requires |half| == 8
    ensures OrChain(half) == BigEndian(half) < W64
  {
    OrChainValue(half);
    PowAdd(32, 32);
    Powers();
  }

  /** For every digest the padded hexadecimal digits of the two halves are the text of
      the sixteen bytes. */
  lemma HalvesText(digest: seq<uint8>)
    requires |digest| == 16
    ensures Fixed(BigEndian(digest[..8]), 16) + Fixed(BigEndian(digest[8..]), 16) == BytesText(digest)
  {
    FixedBigEndian(digest[..8]);
    FixedBigEndian(digest[8..]);
    BytesTextConcat(digest[..8], digest[8..]);
    assert digest[..8] + digest[8..] == digest;
  }

  class MD5 {
    var state: Regs
    var count0: uint32
    var count1: uint32
    const buffer: array<uint8>
    const digest: array<uint8>
    var finalized: bool

    ghost var message: seq<uint8>  // the bytes passed to Update
    ghost var counted: nat         // the sum of their 32-bit chunk lengths
    ghost var transforms: nat      // the number of block steps performed

    /** Before Finalize: the state is the fold over the complete blocks, the buffer starts
        with the remaining tail, the counter holds the bit count. Afterwards: the digest. */
    ghost predicate Valid()
      reads this, buffer, digest
    {
      && buffer.Length == BLOCK && digest.Length == 16 && buffer != digest
      && (!finalized ==> Absorbing())
      && (finalized ==> digest[..] == DigestWith(message, 8 * counted))
    }

    ghost predicate Absorbing()
      reads this, buffer
      requires buffer.Length == BLOCK
    {
      Absorbed(state, buffer[..], count0, count1, message, counted, transforms)
    }

    constructor ()
      ensures Valid() && fresh(buffer) && fresh(digest)
      ensures !finalized && message == [] && counted == 0 && transforms == 0
    {
      hide Absorbed, Absorb, DigestWith, Counts;
      finalized := false;
      count0, count1 := 0, 0;
      state := INITIAL;
      buffer := new uint8[BLOCK];
      digest := new uint8[16];
      message, counted, transforms := [], 0, 0;
      new;
      NothingAbsorbed(buffer[..]);
      assert Absorbed(state, buffer[..], count0, count1, message, counted, transforms);
      assert Valid();
    }

    /** The constructor from a C string: init, update with strlen bytes, finalize. */
    constructor OfString(text: seq<uint8>)
      ensures Valid() && fresh(buffer) && fresh(digest) && finalized
      ensures message == CString(text) && counted == |CString(text)| % W32
      ensures |CString(text)| < W32 ==> digest[..] == Digest(CString(text))
    {
      hide Absorbed, Absorb, DigestWith, Digest, CString, Counts;
      finalized := false;
      count0, count1 := 0, 0;
      state := INITIAL;
      buffer := new uint8[BLOCK];
      digest := new uint8[16];
      message, counted, transforms := [], 0, 0;
      new;
      NothingAbsorbed(buffer[..]);
      assert Absorbed(state, buffer[..], count0, count1, message, counted, transforms);
      assert Valid();
      var bytes := CString(text);
      Update(bytes);
      assert message == bytes && counted == |bytes| % W32;
      ShortText(bytes, counted);
      Finalize();
    }

    /** The private block step. */
    method Transform(block: seq<uint8>)
      requires |block| == BLOCK && !finalized
      modifies this`state, this`transforms
      ensures state == Compress(old(state), block)
      ensures transforms == old(transforms) + 1
    {
      hide Steps;
      var x := new uint32[16];
      Decode(x, block, 64);
      assert block[..64] == block && x[..] == x[..16] == Decoded(block);
      var r := Unrolled(x[..], state);
      state := Regs(Add32(state.a, r.a), Add32(state.b, r.b), Add32(state.c, r.c), Add32(state.d, r.d));
      transforms := transforms + 1;
    }

    method Memcpy(output: array<uint8>, at: nat, input: seq<uint8>)
      requires at + |input| <= output.Length
      modifies output
      ensures output[..] == old(output[..at]) + input + old(output[at + |input|..])
    {
      var i := 0;
      while i < |input|
        invariant i <= |input|
        invariant forall k :: 0 <= k < output.Length ==>
                    output[k] == if at <= k < at + i then input[k - at] else old(output[k])
      {
        output[at + i] := input[i];
        i := i + 1;
      }
    }

    /** The two counter statements of Update. */
    method Count(length: uint32)
      requires Counts(count0, count1, 8 * counted)
      modifies this`count0, this`count1
      ensures Counts(count0, count1, 8 * (counted + length))
    {
      hide Shl32, Shr32;
      CountAdvances(count0, count1, 8 * counted, length);
      count0 := Add32(count0, Shl32(length, 3));
      if count0 < Shl32(length, 3) {
        count1 := Add32(count1, 1);
      }
      count1 := Add32(count1, Shr32(length, 29));
    }

    method Update(input: seq<uint8>)
      requires Valid()
      modifies this, buffer
      ensures Valid() && finalized == old(finalized)
      ensures old(finalized) ==> message == old(message) && counted == old(counted) && transforms == old(transforms)
      ensures old(finalized) ==> state == old(state) && count0 == old(count0) && count1 == old(count1)
      ensures old(finalized) ==> buffer[..] == old(buffer[..])
      ensures !old(finalized) ==> message == old(message) + input
      ensures !old(finalized) ==> counted == old(counted) + |input| % W32
      ensures !old(finalized) && |old(message)| % BLOCK + |input| == BLOCK ==>
                buffer[..] == old(message)[|old(message)| - |old(message)| % BLOCK..] + input
    {
      hide Absorbed, Absorb, DigestWith, Counts;
      if finalized {
        return;
      }
      Take(input);
    }

    /** Update of an object that is not finalized. A block that is just filled stays in the
        buffer. */
    method Take(input: seq<uint8>)
      requires Valid() && !finalized
      modifies this, buffer
      ensures Valid() && !finalized
      ensures message == old(message) + input && counted == old(counted) + |input| % W32
      ensures var tail := old(message)[|old(message)| - |old(message)| % BLOCK..];
              |tail| + |input| == BLOCK ==> buffer[..] == tail + input
    {
      hide Compress, Absorb, DigestWith, And32, Shr32, Counts;
      BufferIndex(count0, count1, counted);
      var bufferIndex := And32(Shr32(count0, 3), 0x3f);
      Count(|input| % W32);

      var inputIndex := 0;
      ghost var tail := buffer[..bufferIndex];
      AbsorbTail(INITIAL, message);
      if |input| >= 64 - bufferIndex {
        inputIndex := TransformAll(input, bufferIndex);
        bufferIndex := 0;
      }
      ghost var filled := buffer[..];
      Memcpy(buffer, bufferIndex, input[inputIndex..]);
      StillFilled(filled, buffer[..], tail, input, inputIndex);
      InputAbsorbed(state, tail, buffer[..], count0, count1, message, counted, transforms, input, inputIndex);
      message, counted := message + input, counted + |input| % W32;
    }

    /** The branch of Update that has enough input to fill the buffer: one block from the
        buffer, then every complete block of the input, bypassing the buffer. */
    method TransformAll(input: seq<uint8>, bufferIndex: nat) returns (inputIndex: nat)
      requires buffer.Length == BLOCK && !finalized
      requires bufferIndex == |message| % BLOCK && |input| >= BLOCK - bufferIndex
      requires buffer[..bufferIndex] == message[|message| - bufferIndex..]
      requires state == Absorb(INITIAL, message[..|message| - bufferIndex])
      requires transforms == |message| / BLOCK
      modifies this`state, this`transforms, buffer
      ensures BLOCK - bufferIndex <= inputIndex <= |input| && |input| - inputIndex < BLOCK
      ensures (|message| + inputIndex) % BLOCK == 0
      ensures state == Absorb(INITIAL, (message + input)[..|message| + inputIndex])
      ensures transforms == (|message| + inputIndex) / BLOCK
      ensures buffer[..] == old(buffer[..bufferIndex]) + input[..BLOCK - bufferIndex]
    {
      hide Compress, Absorb;
      var bufferSpace := 64 - bufferIndex;
      ghost var total := message + input;
      FirstBlock(message, buffer[..bufferIndex], input);
      Memcpy(buffer, bufferIndex, input[..bufferSpace]);
      ghost var start := |message| - bufferIndex;
      assert buffer[..] == old(buffer[..bufferIndex]) + input[..bufferSpace];
      AbsorbBlock(INITIAL, total, start);
      Transform(buffer[..]);
      inputIndex := bufferSpace;
      while inputIndex + 63 < |input|
        modifies this`state, this`transforms
        invariant bufferSpace <= inputIndex <= |input|
        invariant (|message| + inputIndex) % BLOCK == 0
        invariant state == Absorb(INITIAL, total[..|message| + inputIndex])
        invariant transforms == (|message| + inputIndex) / BLOCK
      {
        assert total[|message| + inputIndex..|message| + inputIndex + 64] == input[inputIndex..inputIndex + 64];
        AbsorbBlock(INITIAL, total, |message| + inputIndex);
        Transform(input[inputIndex..inputIndex + 64]);
        inputIndex := inputIndex + 64;
      }
    }

    /** Afterwards the buffer holds the last block of the padded text but for its first byte. */
    method Finalize()
      requires Valid()
      modifies this, buffer, digest
      ensures Valid() && finalized
      ensures message == old(message) && counted == old(counted)
      ensures old(finalized) ==> digest[..] == old(digest[..]) && transforms == old(transforms)
      ensures old(finalized) ==> state == old(state) && count0 == old(count0) && count1 == old(count1)
      ensures old(finalized) ==> buffer[..] == old(buffer[..])
      ensures !old(finalized) ==>
                transforms == old(transforms) + if |message| % BLOCK < 56 then 1 else 2
      ensures !old(finalized) ==> state == Absorb(INITIAL, Padded(message, 8 * counted))
      ensures !old(finalized) ==>
                Counts(count0, count1, 8 * (counted + |Padded(message, 8 * counted)| - |message|))
      ensures !old(finalized) ==> buffer[..] == [0] + LastBlock(Padded(message, 8 * counted))[1..]
    {
      hide Absorb, Absorbed, Counts, DigestWith, Padded, LastBlock, Encoded;
      if finalized {
        return;
      }
      ghost var m, c := message, counted;
      AppendPadding();
      CountWords(state, buffer[..], count0, count1, message, counted, transforms);
      StateOf(state, buffer[..], count0, count1, message, counted, transforms);
      ghost var last := buffer[..];
      StoreDigest();
      buffer[0] := 0;
      assert buffer[..] == [0] + last[1..];
      finalized := true;
      message, counted := m, c;
      DigestIs(state, m, c);
    }

    method StoreDigest()
      requires digest.Length == 16
      modifies digest
      ensures digest[..] == Encoded([state.a, state.b, state.c, state.d])
    {
      var words := [state.a, state.b, state.c, state.d];
      assert words[..4] == words;
      Encode(digest, words, 16);
      assert digest[..] == digest[..16];
    }

    /** The padding and the bit count are passed to Update as a part of the message. */
    method AppendPadding()
      requires Valid() && !finalized
      modifies this, buffer
      ensures Valid() && !finalized
      ensures message == Padded(old(message), 8 * old(counted))
      ensures counted == old(counted) + |message| - |old(message)|
      ensures transforms == old(transforms) + if |old(message)| % BLOCK < 56 then 1 else 2
      ensures buffer[..] == LastBlock(message)
    {
      hide Absorb, Absorbed, Counts, DigestWith, Padded, Pad, LengthField, Encoded, And32, Shr32;
      ghost var m, c := message, counted;
      var bits := new uint8[8];
      CountWords(state, buffer[..], count0, count1, m, c, transforms);
      assert [count0, count1][..2] == [count0, count1];
      Encode(bits, [count0, count1], 8);
      assert bits[..] == bits[..8];

      BufferIndex(count0, count1, counted);
      var index := And32(Shr32(count0, 3), 0x3f);
      var padLen := if index < 56 then 56 - index else 120 - index;
      PaddingPrefix(|m|, padLen);
      Update(PADDING[..padLen]);
      LastFilled(message, bits[..]);
      hide LastBlock;
      Update(bits[..]);

      PaddedText(m, c);
      assert message == Padded(m, 8 * c);
      StateOf(state, buffer[..], count0, count1, message, counted, transforms);
    }

    /** A copy of the digest; the empty string before Finalize. */
    method RawDigest() returns (bytes: seq<uint8>)
      requires Valid()
      ensures bytes == if finalized then DigestWith(message, 8 * counted) else []
    {
      hide DigestWith;
      if !finalized {
        return [];
      }
      return digest[..];
    }

    /** The digest as two 64-bit halves, most significant byte first. */
    method RawDigestWords() returns (high: uint64, low: uint64)
      requires Valid()
      ensures high == BigEndian(digest[..8]) && low == BigEndian(digest[8..])
    {
      HalfFits(digest[..8]);
      HalfFits(digest[8..]);
      high, low := OrChain(digest[..8]), OrChain(digest[8..]);
    }

    /** The digest as 32 hexadecimal digits; the empty string before Finalize. */
    method HexDigest() returns (s: string)
      requires Valid()
      ensures s == if finalized then BytesText(DigestWith(message, 8 * counted)) else ""
    {
      hide DigestWith;
      if !finalized {
        return "";
      }
      s := "";
      var i := 0;
      while i < 16
        invariant i <= 16 && s == BytesText(digest[..i])
      {
        BytesTextAppend(digest[..i], digest[i]);
        assert digest[..i + 1] == digest[..i] + [digest[i]];
        s := s + Fixed(digest[i], 2);
        i := i + 1;
      }
      assert digest[..16] == digest[..];
    }
  }

  lemma CountWords(state: Regs, buffer: seq<uint8>, low: uint32, high: uint32,
                   message: seq<uint8>, counted: nat, transforms: nat)
    requires |buffer| == BLOCK && Absorbed(state, buffer, low, high, message, counted, transforms)
    ensures Counts(low, high, 8 * counted)
    ensures Encoded([low, high]) == LengthField(8 * counted)
    ensures counted % BLOCK == |message| % BLOCK
    ensures transforms == |message| / BLOCK
  {
    CountersSplit(low, high, 8 * counted);
  }

  lemma CountersSplit(low: uint32, high: uint32, bits: nat)
    requires Counts(low, high, bits)
    ensures Encoded([low, high]) == LengthField(bits)
  {
    hide Encoded;
    SplitWords(bits);
    assert low == bits % W32 && high == bits / W32 % W32;
  }

  /** The prefix of the padding table that is used is the padding of section 3.1. */
  lemma PaddingPrefix(n: nat, padLen: nat)
    requires padLen == if n % BLOCK < 56 then 56 - n % BLOCK else 120 - n % BLOCK
    ensures padLen <= |PADDING| == 64 && PADDING[..padLen] == Pad(n)
  {
    assert padLen == PadCount(n);
  }

  /** The buffer after the length has been appended. */
  lemma LastFilled(message: seq<uint8>, bits: seq<uint8>)
    requires |message| % BLOCK == 56 && |bits| == 8
    ensures LastBlock(message + bits) == message[|message| - 56..] + bits
  {}

  lemma PaddedText(message: seq<uint8>, counted: nat)
    ensures Padded(message, 8 * counted) == message + Pad(|message|) + LengthField(8 * counted)
    ensures |Padded(message, 8 * counted)| / BLOCK == |message| / BLOCK + if |message| % BLOCK < 56 then 1 else 2
  {
    hide LengthField;
    var n := |message|;
    assert |Pad(n)| == if n % BLOCK < 56 then 56 - n % BLOCK else 120 - n % BLOCK;
  }

  lemma StateOf(state: Regs, buffer: seq<uint8>, low: uint32, high: uint32,
                message: seq<uint8>, counted: nat, transforms: nat)
    requires |buffer| == BLOCK && Absorbed(state, buffer, low, high, message, counted, transforms)
    ensures state == Absorb(INITIAL, message) && transforms == |message| / BLOCK
  {}

  lemma DigestIs(q: Regs, message: seq<uint8>, counted: nat)
    requires q == Absorb(INITIAL, Padded(message, 8 * counted))
    ensures Encoded([q.a, q.b, q.c, q.d]) == DigestWith(message, 8 * counted)
  {
    hide Absorb, Padded, Encoded;
  }

  /** Input that just fills the buffer is all copied behind the tail. */
  lemma StillFilled(filled: seq<uint8>, buffer: seq<uint8>, tail: seq<uint8>, input: seq<uint8>, i: nat)
    requires |filled| == |buffer| == BLOCK && |tail| < BLOCK && i <= |input|
    requires |tail| + |input| >= BLOCK ==> BLOCK - |tail| <= i && filled == tail + input[..BLOCK - |tail|]
    requires |tail| + |input| >= BLOCK && |input| - i < BLOCK ==>
               buffer == filled[..0] + input[i..] + filled[|input| - i..]
    ensures |tail| + |input| == BLOCK ==> buffer == tail + input
  {
    if |tail| + |input| == BLOCK {
      assert input[..|input|] == input;
    }
  }

  /** The bytes that complete the buffered block are the next bytes of the total text. */
  lemma FirstBlock(message: seq<uint8>, tail: seq<uint8>, input: seq<uint8>)
    requires |tail| == |message| % BLOCK && |tail| + |input| >= BLOCK
    requires tail == message[|message| - |tail|..]
    ensures var total, start := message + input, |message| - |tail|;
            && start + BLOCK <= |total| && start % BLOCK == 0
            && total[..start] == message[..start]
            && total[start..start + BLOCK] == tail + input[..BLOCK - |tail|]
  {}

  /** The state reached when the complete blocks are transformed, i bytes of the input being
      used, and the rest is copied behind the tail (i == 0) or to the front. */
  lemma InputAbsorbed(state: Regs, tail: seq<uint8>, buffer: seq<uint8>, low: uint32, high: uint32,
                      message: seq<uint8>, counted: nat, transforms: nat, input: seq<uint8>, i: nat)
    requires |buffer| == BLOCK && i <= |input|
    requires |tail| == |message| % BLOCK == counted % BLOCK && tail == message[|message| - |tail|..]
    requires Counts(low, high, 8 * (counted + |input| % W32))
    requires i == 0 ==> |tail| + |input| < BLOCK && tail + input <= buffer
    requires i == 0 ==> state == Absorb(INITIAL, message) && transforms == |message| / BLOCK
    requires i > 0 ==> (|message| + i) % BLOCK == 0 && |input| - i < BLOCK && input[i..] <= buffer
    requires i > 0 ==> state == Absorb(INITIAL, (message + input)[..|message| + i])
    requires i > 0 ==> transforms == (|message| + i) / BLOCK
    ensures Absorbed(state, buffer, low, high, message + input, counted + |input| % W32, transforms)
  {
    hide Compress, Absorb, Counts;
    LastState(message, input, i);
    LastBytes(message, tail, input, i);
    LengthsAgree(counted, |message|, |input|);
  }

  /** What is left after the last complete block. */
  lemma LastBytes(message: seq<uint8>, tail: seq<uint8>, input: seq<uint8>, i: nat)
    requires |tail| == |message| % BLOCK && tail == message[|message| - |tail|..]
    requires i <= |input|
    requires i == 0 ==> |tail| + |input| < BLOCK
    requires i > 0 ==> (|message| + i) % BLOCK == 0 && |input| - i < BLOCK
    ensures var total := message + input;
            var rest := if i == 0 then tail + input else input[i..];
            && |rest| == |total| % BLOCK && rest == total[|total| - |rest|..]
    ensures (if i == 0 then |message| else |message| + i) / BLOCK == (|message| + |input|) / BLOCK
  {}

  lemma LastState(message: seq<uint8>, input: seq<uint8>, i: nat)
    requires i <= |input|
    requires i == 0 ==> |message| % BLOCK + |input| < BLOCK
    requires i > 0 ==> (|message| + i) % BLOCK == 0 && |input| - i < BLOCK
    ensures var total := message + input;
            Absorb(INITIAL, total) == Absorb(INITIAL, if i == 0 then message else total[..|message| + i])
  {
    hide Compress, Absorb;
    var total := message + input;
    AbsorbTail(INITIAL, total);
    if i == 0 {
      AbsorbTail(INITIAL, message);
      var start := |message| - |message| % BLOCK;
      assert total[..start] == message[..start];
    }
  }

  lemma LengthsAgree(counted: nat, n: nat, more: nat)
    requires counted % BLOCK == n % BLOCK
    ensures (counted + more % W32) % BLOCK == (n + more) % BLOCK
  {
    assert more % W32 % BLOCK == more % BLOCK;
  }

  // ---------------------------------------------------------------- chunks

  function Flatten(chunks: seq<seq<uint8>>): seq<uint8> {
    if chunks == [] then [] else Flatten(chunks[..|chunks| - 1]) + chunks[|chunks| - 1]
  }

  /** The bytes the counter sees: every chunk length is cut to 32 bits. */
  function Counted(chunks: seq<seq<uint8>>): nat {
    if chunks == [] then 0 else Counted(chunks[..|chunks| - 1]) + |chunks[|chunks| - 1]| % W32
  }

  /** The multiples of 2^32 that the cuts lose. */
  function Lost(chunks: seq<seq<uint8>>): nat {
    if chunks == [] then 0 else Lost(chunks[..|chunks| - 1]) + |chunks[|chunks| - 1]| / W32
  }

  lemma {:induction false} CountedAndLost(chunks: seq<seq<uint8>>)
    ensures |Flatten(chunks)| == Counted(chunks) + W32 * Lost(chunks)
    ensures (forall i :: 0 <= i < |chunks| ==> |chunks[i]| < W32) ==> Lost(chunks) == 0
  {
    if chunks == [] {
    } else {
      CountedAndLost(chunks[..|chunks| - 1]);
    }
  }

  /** The padded text is the one of RFC 1321 exactly when the lost lengths vanish modulo 2^64
      bits; in particular when every chunk is shorter than 2^32 bytes. */
  lemma PaddedExactly(chunks: seq<seq<uint8>>)
    ensures var m := Flatten(chunks);
            Padded(m, 8 * Counted(chunks)) == Padded(m, 8 * |m|) <==> Lost(chunks) % 0x2000_0000 == 0
  {
    hide LengthField;
    var m := Flatten(chunks);
    var x, y := 8 * Counted(chunks), 8 * |m|;
    CountedAndLost(chunks);
    MultipleOf(x, Lost(chunks));
    LengthFieldInjective(x, y);
    var head := m + Pad(|m|);
    assert Padded(m, x)[|head|..] == LengthField(x);
    assert Padded(m, y)[|head|..] == LengthField(y);
  }

  /** A message on which the padded text is not that of RFC 1321: 2^32 zero bytes in one chunk,
      whose length is counted as 0. */
  lemma WideChunkMispadded()
    ensures var m := Zeros(W32);
            Flatten([m]) == m && Counted([m]) == 0 && Padded(m, 8 * Counted([m])) != Padded(m, 8 * |m|)
  {
    hide Padded;
    var m := Zeros(W32);
    var none: seq<seq<uint8>> := [];
    assert [m][..0] == none;
    assert Flatten([m]) == Flatten(none) + m == m;
    assert Counted([m]) == Counted(none) + |m| % W32 == 0;
    assert Lost([m]) == Lost(none) + |m| / W32 == 1;
    PaddedExactly([m]);
  }

  lemma MultipleOf(x: nat, lost: nat)
    ensures x % W64 == (x + 8 * W32 * lost) % W64 <==> lost % 0x2000_0000 == 0
  {
    var q, r := lost / 0x2000_0000, lost % 0x2000_0000;
    assert 8 * W32 * lost == W64 * q + 8 * W32 * r;
    assert (x + 8 * W32 * lost) % W64 == (x + 8 * W32 * r) % W64;
    assert 0 <= 8 * W32 * r < W64;
  }

  /** Construct, update with each chunk, finalize: every cutting of a message yields the
      one-shot digest. */
  method DigestOfChunks(chunks: seq<seq<uint8>>) returns (digest: seq<uint8>)
    ensures digest == DigestWith(Flatten(chunks), 8 * Counted(chunks))
    ensures Lost(chunks) % 0x2000_0000 == 0 ==> digest == Digest(Flatten(chunks))
    ensures (forall i :: 0 <= i < |chunks| ==> |chunks[i]| < W32) ==> digest == Digest(Flatten(chunks))
  {
    hide Absorbed, Absorb, Encoded, Padded;
    var md5 := new MD5();
    var i := 0;
    while i < |chunks|
      invariant i <= |chunks|
      invariant md5.Valid() && fresh(md5) && fresh(md5.buffer) && fresh(md5.digest) && !md5.finalized
      invariant md5.message == Flatten(chunks[..i]) && md5.counted == Counted(chunks[..i])
    {
      md5.Update(chunks[i]);
      assert chunks[..i + 1][..i] == chunks[..i];
      i := i + 1;
    }
    assert chunks[..|chunks|] == chunks;
    md5.Finalize();
    digest := md5.RawDigest();
    CountedAndLost(chunks);
    PaddedExactly(chunks);
  }
}
