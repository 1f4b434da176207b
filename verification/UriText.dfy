/** Searching in strings: std::string::find, find_first_of and the decimal numbers of a port. */
module UriText {
  import opened Numerals

  /** No character of s is in the set. */
  predicate Free(s: string, chars: set<char>) {
    forall c :: c in s ==> c !in chars
  }

  /** find_first_of; |s| stands for npos. */
  function FindFirstOf(s: string, chars: set<char>): (i: nat)
    ensures i <= |s|
    ensures Free(s[..i], chars)
    ensures i < |s| ==> s[i] in chars
  {
    if s == "" || s[0] in chars then 0
    else
      var i := 1 + FindFirstOf(s[1..], chars);
      assert s[..i] == [s[0]] + s[1..][..i - 1];
      i
  }

  /** find; |s| stands for npos. */
  function Find(s: string, word: string): (i: nat)
    requires word != ""
    ensures i <= |s|
    ensures i < |s| ==> word <= s[i..]
    ensures forall j :: 0 <= j < i ==> !(word <= s[j..])
  {
    if s == "" || word <= s then 0
    else
      var i := 1 + Find(s[1..], word);
      assert forall j :: 1 <= j <= |s| ==> s[j..] == s[1..][j - 1..];
      i
  }

  lemma FreeSlice(s: string, i: nat, j: nat, chars: set<char>)
    requires i <= j <= |s| && Free(s, chars)
    ensures Free(s[i..j], chars)
  {}

  lemma FreeUnion(s: string, a: set<char>, b: set<char>)
    requires Free(s, a) && Free(s, b)
    ensures Free(s, a + b)
  {}

  /** The first hit is where a free prefix ends. */
  lemma {:induction false} FirstHit(a: string, b: string, chars: set<char>)
    requires Free(a, chars)
    requires b == "" || b[0] in chars
    ensures FindFirstOf(a + b, chars) == |a|
  {
    if a == "" {
      assert a + b == b;
    } else {
      assert a[0] in a;
      assert (a + b)[1..] == a[1..] + b;
      FirstHit(a[1..], b, chars);
    }
  }

  // ---------------------------------------------------------------- decimal numbers

  const LONG_MAX: int := 0x7fff_ffff_ffff_ffff

  datatype Long = Long(value: int, next: nat)

  /** strtol in base 10 with a 64-bit long: optional white space and sign, then digits;
      saturating; nothing is read without a digit. */
  function StrToL(t: string): (r: Long)
    ensures r.next <= |t|
  {
    var i := SpaceEnd(t, 0);
    var negative := i < |t| && t[i] == '-';
    var k := if i < |t| && (t[i] == '-' || t[i] == '+') then i + 1 else i;
    var e := DigitsEnd(t, k, 10);
    if e == k then Long(0, 0)
    else
      var v: int := Value(t[k..e], 10);
      if negative then Long(if v > LONG_MAX + 1 then -LONG_MAX - 1 else -v, e)
      else Long(if v > LONG_MAX then LONG_MAX else v, e)
  }

  /** The decimal text of a number, as a stream prints it. */
  function Decimal(n: nat): (s: string)
    ensures s != "" && forall c :: c in s ==> IsDigit(c, 10)
  {
    Printed(n, 10)
  }

  lemma DecimalValue(n: nat)
    ensures Value(Decimal(n), 10) == n
  {
    PrintedValue(n, 10);
  }

  /** strtol reads back a printed number, or the largest long for one that does not fit. */
  lemma DecimalRead(n: nat)
    ensures StrToL(Decimal(n)) == Long(if n > LONG_MAX then LONG_MAX else n, |Decimal(n)|)
  {
    hide Decimal, Value;
    var t := Decimal(n);
    assert forall k :: 0 <= k < |t| ==> t[k] in t;
    DecimalValue(n);
    DigitsRun(t, 0, |t|, 10);
    assert t[0..|t|] == t;
  }

  /** With a sign in front: the number or its negation, saturated at either end. */
  lemma SignedRead(n: nat)
    ensures StrToL("+" + Decimal(n)) ==
            Long(if n > 0x7fff_ffff_ffff_ffff then 0x7fff_ffff_ffff_ffff else n, |Decimal(n)| + 1)
    ensures StrToL("-" + Decimal(n)) ==
            Long(if n > 0x8000_0000_0000_0000 then -0x8000_0000_0000_0000 else -(n as int), |Decimal(n)| + 1)
  {
    hide Decimal, Value;
    var d := Decimal(n);
    DecimalValue(n);
    assert forall k :: 0 <= k < |d| ==> d[k] in d;
    forall sign | sign in {'+', '-'}
      ensures ([sign] + d)[1..|d| + 1] == d && DigitsEnd([sign] + d, 1, 10) == |d| + 1
    {
      DigitsRun([sign] + d, 1, |d| + 1, 10);
    }
    assert "+" + d == ['+'] + d && "-" + d == ['-'] + d;
  }

  /** White space up to i, a sign or nothing up to k, then one digit or more. */
  predicate Number(t: string, i: nat, k: nat) {
    && i <= k < |t|
    && (forall n :: 0 <= n < i ==> IsSpace(t[n]))
    && t[i..k] in {"", "+", "-"}
    && (forall n :: k <= n < |t| ==> IsDigit(t[n], 10))
  }

  ghost predicate IsNumber(t: string) {
    exists i, k :: Number(t, i, k)
  }

  /** strtol reads a non-empty text to its end exactly when it is a number. */
  lemma NumberRead(t: string)
    ensures t != "" && StrToL(t).next == |t| <==> IsNumber(t)
  {
    hide Value, Number, IsSpace;
    if t != "" && StrToL(t).next == |t| {
      NumberParts(t);
    }
    if i, k :| Number(t, i, k) {
      NumberIsRead(t, i, k);
    }
  }

  lemma NumberParts(t: string)
    requires t != "" && StrToL(t).next == |t|
    ensures IsNumber(t)
  {
    hide Value, IsSpace;
    var i := SpaceEnd(t, 0);
    var k := if i < |t| && (t[i] == '-' || t[i] == '+') then i + 1 else i;
    assert i < k ==> t[i..k] == [t[i]] && t[i..k] in {"+", "-"};
    assert Number(t, i, k);
  }

  lemma NumberIsRead(t: string, i: nat, k: nat)
    requires Number(t, i, k)
    ensures t != "" && StrToL(t).next == |t|
  {
    hide Value;
    if k > i {
      assert k == i + 1 && t[i] == t[i..k][0];
    }
    SpacesRun(t, 0, i);
    DigitsRun(t, k, |t|, 10);
  }

  /** A number begins with white space, a sign or a digit. */
  lemma NoNumber(t: string)
    requires t != "" && !IsSpace(t[0]) && t[0] !in {'+', '-'} && !IsDigit(t[0], 10)
    ensures !IsNumber(t)
  {
    forall i: nat, k: nat | i <= k < |t|
      ensures !Number(t, i, k)
    {
      if i == 0 && k > 0 {
        assert t[i..k][0] == t[0];
      }
    }
  }
}
