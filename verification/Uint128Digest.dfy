/** The 128-bit value made from the MD5 digest of a text. */
module Uint128Digest {
  import opened Bits
  import opened HexText
  import opened Md5Digest
  import opened Md5Context
  import opened Uint128

  /** The value's 32 zero-padded hexadecimal digits are the text of the digest with the length
      counted in 32 bits, which is the digest for texts shorter than 2^32 bytes. */
  method MakeUint128(text: seq<uint8>) returns (value: Uint128)
    ensures fresh(value)
    ensures Fixed(value.View().Number(), 32) ==
            BytesText(DigestWith(CString(text), 8 * (|CString(text)| % W32)))
    ensures |CString(text)| < W32 ==>
              Fixed(value.View().Number(), 32) == BytesText(Digest(CString(text)))
  {
    hide *;
    var md5 := new MD5.OfString(text);
    var high, low := md5.RawDigestWords();
    ghost var digest := md5.digest[..];
    MD5Shape(md5);
    HalvesText(digest);
    assert digest[..8] == md5.digest[..8] && digest[8..] == md5.digest[8..];
    value := new Uint128(high, low);
    ViewWords(value, high, low);
    NumberDigits(value.View());
  }

  lemma MD5Shape(md5: MD5)
    requires md5.Valid() && md5.finalized
    ensures md5.digest.Length == 16 && md5.digest[..] == DigestWith(md5.message, 8 * md5.counted)
  {}

  lemma ViewWords(value: Uint128, high: uint64, low: uint64)
    requires value.View() == Wide(high, low)
    ensures value.View().high == high && value.View().low == low
  {}
}
