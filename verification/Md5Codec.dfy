/** Words to bytes and back, low-order byte first (section 2 of RFC 1321). */
module Md5Codec {
  import opened Bits

  // ---------------------------------------------------------------- the reference

  /** Byte j of a word, counted from the low-order end. */
  function ByteOf(w: uint32, j: nat): uint8
    requires j < 4
  {
    match j
    case 0 => w % 0x100
    case 1 => w / 0x100 % 0x100
    case 2 => w / 0x1_0000 % 0x100
    case _ => w / 0x100_0000
  }

  function WordOf(b0: uint8, b1: uint8, b2: uint8, b3: uint8): uint32 {
    b0 + 0x100 * b1 + 0x1_0000 * b2 + 0x100_0000 * b3
  }

  function Encoded(words: seq<uint32>): (bytes: seq<uint8>)
    ensures |bytes| == 4 * |words|
    ensures forall j :: 0 <= j < |bytes| ==> bytes[j] == ByteOf(words[j / 4], j % 4)
  {
    seq(4 * |words|, j requires 0 <= j < 4 * |words| => ByteOf(words[j / 4], j % 4))
  }

  function Decoded(bytes: seq<uint8>): (words: seq<uint32>)
    requires |bytes| % 4 == 0
    ensures |words| == |bytes| / 4
    ensures forall i :: 0 <= i < |words| ==>
              words[i] == WordOf(bytes[4 * i], bytes[4 * i + 1], bytes[4 * i + 2], bytes[4 * i + 3])
  {
    seq(|bytes| / 4, i requires 0 <= i < |bytes| / 4 =>
          WordOf(bytes[4 * i], bytes[4 * i + 1], bytes[4 * i + 2], bytes[4 * i + 3]))
  }

  // ---------------------------------------------------------------- mutual inverses

  /** The bytes are the digits of the word in base 256. */
  lemma ByteDigits(w: uint32)
    ensures ByteOf(w, 0) + 0x100 * ByteOf(w, 1) + 0x1_0000 * ByteOf(w, 2) + 0x100_0000 * ByteOf(w, 3) == w
  {
    hide ByteOf;
    WordBytes(w);
  }

  lemma WordBytes(w: uint32)
    ensures WordOf(ByteOf(w, 0), ByteOf(w, 1), ByteOf(w, 2), ByteOf(w, 3)) == w
  {
    assert w / 0x1_0000 == w / 0x100 / 0x100;
    assert w / 0x100_0000 == w / 0x1_0000 / 0x100;
  }

  lemma BytesWord(b0: uint8, b1: uint8, b2: uint8, b3: uint8)
    ensures var w := WordOf(b0, b1, b2, b3);
            ByteOf(w, 0) == b0 && ByteOf(w, 1) == b1 && ByteOf(w, 2) == b2 && ByteOf(w, 3) == b3
  {
    var w := WordOf(b0, b1, b2, b3);
    assert w / 0x100 == b1 + 0x100 * b2 + 0x1_0000 * b3;
    assert w / 0x1_0000 == b2 + 0x100 * b3;
  }

  /** Decoding an encoding gives the words back. */
  lemma DecodeEncode(words: seq<uint32>)
    ensures Decoded(Encoded(words)) == words
  {
    hide ByteOf, WordOf;
    var bytes := Encoded(words);
    forall i | 0 <= i < |words|
      ensures Decoded(bytes)[i] == words[i]
    {
      QuarterIndex(i);
      WordBytes(words[i]);
    }
  }

  /** Encoding a decoding gives the bytes back. */
  lemma EncodeDecode(bytes: seq<uint8>)
    requires |bytes| % 4 == 0
    ensures Encoded(Decoded(bytes)) == bytes
  {
    hide ByteOf, WordOf;
    var words := Decoded(bytes);
    forall j | 0 <= j < |bytes|
      ensures Encoded(words)[j] == bytes[j]
    {
      var i := j / 4;
      BytesWord(bytes[4 * i], bytes[4 * i + 1], bytes[4 * i + 2], bytes[4 * i + 3]);
    }
  }

  lemma QuarterIndex(i: nat)
    ensures forall k {:trigger 4 * i + k} :: 0 <= k < 4 ==> (4 * i + k) / 4 == i && (4 * i + k) % 4 == k
    ensures (4 * i) / 4 == i && (4 * i) % 4 == 0
  {}

  // ---------------------------------------------------------------- the program's expressions

  /** (input >> 8 * j) & 0xff. */
  function Masked(w: uint32, j: nat): nat {
    And(Shr32(w, 8 * j), 0xff)
  }

  lemma MaskedByte(w: uint32, j: nat)
    requires j < 4
    ensures Masked(w, j) == ByteOf(w, j)
  {
    hide And;
    Powers();
    AndMask(Shr32(w, 8 * j), 8);
  }

  /** input[j] | input[j + 1] << 8 | input[j + 2] << 16 | input[j + 3] << 24. */
  function Joined(b0: uint8, b1: uint8, b2: uint8, b3: uint8): uint32 {
    Or32(Or32(Or32(b0, Shl32(b1, 8)), Shl32(b2, 16)), Shl32(b3, 24))
  }

  lemma JoinedWord(b0: uint8, b1: uint8, b2: uint8, b3: uint8)
    ensures Joined(b0, b1, b2, b3) == WordOf(b0, b1, b2, b3)
  {
    hide Or32, Shl32;
    OrAbove(b0, b1, 8, 0x100);
    OrAbove(b0 + 0x100 * b1, b2, 16, 0x1_0000);
    OrAbove(b0 + 0x100 * b1 + 0x1_0000 * b2, b3, 24, 0x100_0000);
  }

  lemma OrAbove(low: uint32, b: uint8, k: nat, p: nat)
    requires k in {8, 16, 24} && low < p
    requires p == if k == 8 then 0x100 else if k == 16 then 0x1_0000 else 0x100_0000
    ensures Or32(low, Shl32(b, k)) == low + p * b
  {
    hide Or;
    Powers();
    OrDisjoint(b, low, k);
    assert Shl(b, k) == b * p < W32;
  }

  // ---------------------------------------------------------------- the program's loops

  method Encode(output: array<uint8>, input: seq<uint32>, len: nat)
    requires len % 4 == 0 && len <= output.Length && len / 4 <= |input|
    modifies output
    ensures output[..len] == Encoded(input[..len / 4])
    ensures output[len..] == old(output[len..])
  {
    hide ByteOf, Masked;
    var i, j := 0, 0;
    while j < len
      invariant j == 4 * i && j <= len
      invariant forall k :: 0 <= k < j ==> output[k] == ByteOf(input[k / 4], k % 4)
      invariant output[len..] == old(output[len..])
    {
      MaskedByte(input[i], 0);
      MaskedByte(input[i], 1);
      MaskedByte(input[i], 2);
      MaskedByte(input[i], 3);
      output[j] := Masked(input[i], 0);
      output[j + 1] := Masked(input[i], 1);
      output[j + 2] := Masked(input[i], 2);
      output[j + 3] := Masked(input[i], 3);
      i, j := i + 1, j + 4;
    }
  }

  method Decode(output: array<uint32>, input: seq<uint8>, len: nat)
    requires len % 4 == 0 && len <= |input| && len / 4 <= output.Length
    modifies output
    ensures output[..len / 4] == Decoded(input[..len])
    ensures output[len / 4..] == old(output[len / 4..])
  {
    hide WordOf, Joined;
    var i, j := 0, 0;
    while j < len
      invariant j == 4 * i && j <= len
      invariant forall k :: 0 <= k < i ==>
                  output[k] == WordOf(input[4 * k], input[4 * k + 1], input[4 * k + 2], input[4 * k + 3])
      invariant output[len / 4..] == old(output[len / 4..])
    {
      JoinedWord(input[j], input[j + 1], input[j + 2], input[j + 3]);
      output[i] := Joined(input[j], input[j + 1], input[j + 2], input[j + 3]);
      i, j := i + 1, j + 4;
    }
  }
}
