/** The text forms of 128-bit values: printing, and the parser that accepts all of them. */
module Uint128Text {
  import opened Bits
  import opened Wrappers
  import opened HexText
  import opened Numerals
  import opened Uint128

  // ---------------------------------------------------------------- strtoull, base 16

  /** The number read and the index of the first character not read. */
  datatype Scan = Scan(value: uint64, next: nat)

  /** "0x" counts as a prefix only when a digit follows. */
  predicate HasPrefix(t: string, i: nat) {
    i + 2 < |t| && t[i] == '0' && (t[i + 1] == 'x' || t[i + 1] == 'X') && IsDigit(t[i + 2], 16)
  }

  /** Optional white space, sign and prefix, then digits; nothing is read without a digit.
      Too large a number reads as 2^64 - 1, a negated one as its 64-bit complement. */
  function StrToULL(t: string, start: nat): (s: Scan)
    requires start <= |t|
    ensures start <= s.next <= |t|
  {
    var i := SpaceEnd(t, start);
    var signed := i < |t| && (t[i] == '-' || t[i] == '+');
    var j := if signed then i + 1 else i;
    var k := if HasPrefix(t, j) then j + 2 else j;
    var e := DigitsEnd(t, k, 16);
    if e == k then Scan(0, start)
    else
      var v := Value(t[k..e], 16);
      if v >= W64 then Scan(W64 - 1, e)
      else if signed && t[i] == '-' then Scan((W64 - v) % W64, e)
      else Scan(v, e)
  }

  /** A numeral that begins at start: white space up to i, a sign or nothing up to j, a prefix
      or nothing up to k, then all the digits there are, up to e; a prefix is not passed over. */
  ghost predicate Numeral(t: string, start: nat, i: nat, j: nat, k: nat, e: nat) {
    && start <= i <= j <= k < e <= |t|
    && (forall n :: start <= n < i ==> IsSpace(t[n]))
    && t[i..j] in {"", "+", "-"}
    && t[j..k] in {"", "0x", "0X"}
    && (forall n :: k <= n < e ==> IsDigit(t[n], 16))
    && (e == |t| || !IsDigit(t[e], 16))
    && (j == k ==> !HasPrefix(t, j))
  }

  /** Modulo 2^64 for a minus sign; the largest word for digits that do not fit. */
  ghost function NumeralValue(t: string, start: nat, i: nat, j: nat, k: nat, e: nat): uint64
    requires Numeral(t, start, i, j, k, e)
  {
    assert forall c :: c in t[k..e] ==> IsDigit(c, 16);
    var v := Value(t[k..e], 16);
    if v >= W64 then W64 - 1 else if t[i..j] == "-" then (W64 - v) % W64 else v
  }

  /** The word read from start on: that of a numeral there, or 0 without one. */
  ghost predicate Reads(t: string, start: nat, x: uint64) {
    || (exists i, j, k, e :: Numeral(t, start, i, j, k, e) && x == NumeralValue(t, start, i, j, k, e))
    || (x == 0 && !exists i, j, k, e :: Numeral(t, start, i, j, k, e))
  }

  /** A numeral is read as its value, up to its end. */
  lemma NumeralScan(t: string, start: nat, i: nat, j: nat, k: nat, e: nat)
    requires Numeral(t, start, i, j, k, e)
    ensures StrToULL(t, start) == Scan(NumeralValue(t, start, i, j, k, e), e)
  {
    hide Value;
    NumeralStart(t, start, i, j, k, e);
    SpacesRun(t, start, i);
    DigitsRun(t, k, e, 16);
  }

  /** What follows the white space, and what follows the sign. */
  lemma NumeralStart(t: string, start: nat, i: nat, j: nat, k: nat, e: nat)
    requires Numeral(t, start, i, j, k, e)
    ensures i < |t| && !IsSpace(t[i])
    ensures (t[i] == '-' || t[i] == '+') <==> j == i + 1
    ensures j <= i + 1 && (t[i..j] == "-" <==> t[i] == '-')
    ensures k == if HasPrefix(t, j) then j + 2 else j
  {
    hide Value;
    assert j == i || (j == i + 1 && t[i..j] == [t[i]]);
    assert k == j || (k == j + 2 && t[j..k] == [t[j], t[j + 1]]);
    assert IsDigit(t[k], 16);
  }

  /** Whatever is read is a numeral. */
  lemma ScanNumeral(t: string, start: nat) returns (i: nat, j: nat, k: nat)
    requires start <= |t| && StrToULL(t, start).next > start
    ensures Numeral(t, start, i, j, k, StrToULL(t, start).next)
  {
    hide Value, IsSpace;
    i := SpaceEnd(t, start);
    j := if i < |t| && (t[i] == '-' || t[i] == '+') then i + 1 else i;
    k := if HasPrefix(t, j) then j + 2 else j;
    assert i < j ==> t[i..j] == [t[i]] && t[i..j] in {"+", "-"};
    assert t[j..j] == t[i..i] == "";
    if j < k {
      PrefixText(t, j);
    }
    assert Numeral(t, start, i, j, k, StrToULL(t, start).next);
  }

  lemma PrefixText(t: string, j: nat)
    requires HasPrefix(t, j)
    ensures t[j..j + 2] in {"0x", "0X"}
  {
    var p := t[j..j + 2];
    assert p[0] == '0' && p[1] == t[j + 1];
    assert p == (if t[j + 1] == 'x' then "0x" else "0X");
  }

  lemma ReadsExactly(t: string, start: nat, x: uint64)
    requires start <= |t|
    ensures Reads(t, start, x) <==> x == StrToULL(t, start).value
  {
    hide StrToULL, Numeral, NumeralValue;
    if i, j, k, e :| Numeral(t, start, i, j, k, e) {
      forall i, j, k, e | Numeral(t, start, i, j, k, e)
        ensures NumeralValue(t, start, i, j, k, e) == StrToULL(t, start).value
      {
        NumeralScan(t, start, i, j, k, e);
      }
    } else {
      NothingRead(t, start);
    }
  }

  lemma NothingRead(t: string, start: nat)
    requires start <= |t| && !exists i, j, k, e :: Numeral(t, start, i, j, k, e)
    ensures StrToULL(t, start) == Scan(0, start)
  {
    hide Numeral, Value;
    if StrToULL(t, start).next > start {
      var i, j, k := ScanNumeral(t, start);
    }
  }

  // ---------------------------------------------------------------- assignment from text

  /** The characters before the first NUL. */
  function CText(s: string): (t: string)
    ensures t <= s && '\0' !in t
    ensures |t| < |s| ==> s[|t|] == '\0'
  {
    if s == "" || s[0] == '\0' then "" else [s[0]] + CText(s[1..])
  }

  const ESCAPED_COLON: string := "\\058"

  /** None where the program's assertions fail. */
  function Parse(from: string): Option<Wide> {
    if from == "" then Some(Wide(0, 0))
    else
      var t := CText(from);
      var first := StrToULL(t, 0);
      if first.next == 0 then None
      else if first.next == |t| then Some(Wide(0, first.value))
      else if ESCAPED_COLON <= t[first.next..] then
        Some(Wide(first.value, StrToULL(t, first.next + 4).value))
      else if t[first.next] == ':' then
        Some(Wide(first.value, StrToULL(t, first.next + 1).value))
      else None
  }

  /** A text with a numeral in front: alone it is the low word; before a colon or an escaped
      colon it is the high word, and the low word is read from there on. */
  ghost predicate Denotes(t: string, w: Wide, i: nat, j: nat, k: nat, e: nat) {
    && Numeral(t, 0, i, j, k, e)
    && var v := NumeralValue(t, 0, i, j, k, e);
       if e == |t| then w == Wide(0, v)
       else if ESCAPED_COLON <= t[e..] then w.high == v && Reads(t, e + 4, w.low)
       else t[e] == ':' && w.high == v && Reads(t, e + 1, w.low)
  }

  /** The texts that are accepted, and their values: for every other text an assertion fails. */
  lemma ParseExactly(from: string, w: Wide)
    ensures Parse(from) == Some(w) <==>
            if from == "" then w == Wide(0, 0) else exists i, j, k, e :: Denotes(CText(from), w, i, j, k, e)
  {
    hide StrToULL, CText, Numeral, NumeralValue, Reads;
    if from != "" {
      var t := CText(from);
      if Parse(from) == Some(w) {
        var e := StrToULL(t, 0).next;
        LowWordRead(t, e, w.low);
        var i, j, k := ScanNumeral(t, 0);
        NumeralScan(t, 0, i, j, k, e);
        assert Denotes(t, w, i, j, k, e);
        assert exists i, j, k, e :: Denotes(CText(from), w, i, j, k, e);
      }
      if i, j, k, e :| Denotes(t, w, i, j, k, e) {
        NumeralScan(t, 0, i, j, k, e);
        NumeralEnds(t, 0, i, j, k, e);
        LowWordRead(t, e, w.low);
        assert Parse(from) == Some(w);
      }
    }
  }

  lemma NumeralEnds(t: string, start: nat, i: nat, j: nat, k: nat, e: nat)
    requires Numeral(t, start, i, j, k, e)
    ensures start < e <= |t|
  {}

  lemma LowWordRead(t: string, e: nat, x: uint64)
    requires e <= |t|
    ensures e + 1 <= |t| ==> (Reads(t, e + 1, x) <==> x == StrToULL(t, e + 1).value)
    ensures ESCAPED_COLON <= t[e..] ==>
              e + 4 <= |t| && (Reads(t, e + 4, x) <==> x == StrToULL(t, e + 4).value)
  {
    hide Reads, StrToULL;
    if e + 1 <= |t| {
      ReadsExactly(t, e + 1, x);
    }
    if ESCAPED_COLON <= t[e..] {
      ReadsExactly(t, e + 4, x);
    }
  }

  /** The assignment in place: the words are written as the cursor moves on. */
  method AssignText(u: Uint128, from: string) returns (ok: bool)
    modifies u
    ensures ok == Parse(from).Some?
    ensures ok ==> u.View() == Parse(from).value
  {
    hide StrToULL, CText;
    if from == "" {
      u.high, u.low := 0, 0;
      return true;
    }
    var t := CText(from);
    var scan := StrToULL(t, 0);
    u.high := scan.value;
    var next := scan.next;
    if next == 0 {
      return false;
    }
    if next == |t| {
      u.low := u.high;
      u.high := 0;
    } else {
      if ESCAPED_COLON <= t[next..] {
        next := next + 4;
      } else {
        if t[next] != ':' {
          return false;
        }
        next := next + 1;
      }
      u.low := StrToULL(t, next).value;
    }
    return true;
  }

  // ---------------------------------------------------------------- printing

  /** Both words, without leading zeros. */
  function Halves(w: Wide): string {
    Plain(w.high) + ":" + Plain(w.low)
  }

  /** snprintf into a buffer of the given size keeps size - 1 characters. */
  function Snprintf(size: nat, s: string): string
    requires size > 0
  {
    if |s| < size then s else s[..size - 1]
  }

  function GetString(w: Wide): string {
    Snprintf(34, Halves(w))
  }

  /** operator<<. */
  function Print(w: Wide): string {
    if w.high == 0 then Plain(w.low) else Halves(w)
  }

  /** The stream form has a colon exactly when the high word is not zero. */
  lemma StreamForm(w: Wide)
    ensures ':' in Print(w) <==> w.high != 0
  {
    hide Plain;
    assert IsDigit(':', 16) == false;
    if w.high != 0 {
      assert Print(w)[|Plain(w.high)|] == ':';
    }
  }

  /** A minus sign takes the number from 2^64: "-1" is the largest word. */
  lemma NegativeRead()
    ensures StrToULL("-1", 0) == Scan(0xffff_ffff_ffff_ffff, 2)
  {
    hide StrToULL, Value;
    assert "-1"[0..0] == "" && "-1"[0..1] == "-" && "-1"[1..1] == "" && "-1"[1..2] == "1";
    SingleValue('1', 16);
    NumeralScan("-1", 0, 0, 1, 1, 2);
  }

  /** Nothing is cut off: the text and its terminator fit the 34 bytes. */
  lemma FitsBuffer(w: Wide)
    ensures |Halves(w)| < 34 && GetString(w) == Plain(w.high) + ":" + Plain(w.low)
  {
    hide Plain, Pow2;
    SixteenDigits();
    PlainLength(w.high, 16);
    PlainLength(w.low, 16);
  }

  lemma SixteenDigits()
    ensures Pow2(4 * 16) == W64
  {
    PowAdd(32, 32);
    Powers();
  }

  // ---------------------------------------------------------------- round trips

  /** A spelling of v: an optional prefix, then digits of either case, leading zeros allowed. */
  predicate Spells(s: string, v: uint64) {
    exists n: nat :: n <= |s| && s[..n] in {"", "0x", "0X"} && Digits(s[n..]) && Value(s[n..], 16) == v
  }

  predicate Digits(s: string) {
    s != "" && forall c :: c in s ==> IsDigit(c, 16)
  }

  lemma PlainSpells(v: uint64)
    ensures Spells(Plain(v), v)
  {
    hide Plain, Value;
    PlainValue(v);
    var s := Plain(v);
    assert s[..0] == "" && s[0..] == s;
  }

  /** The parts of a spelling: n is the length of its prefix. */
  lemma SpellingParts(s: string, v: uint64) returns (n: nat)
    requires Spells(s, v)
    ensures n == 0 || (n == 2 && |s| > 2 && s[0] == '0' && (s[1] == 'x' || s[1] == 'X'))
    ensures n <= |s| && s[..n] in {"", "0x", "0X"}
    ensures n < |s| && forall i :: n <= i < |s| ==> IsDigit(s[i], 16)
    ensures Digits(s[n..]) && Value(s[n..], 16) == v
  {
    hide Value;
    n :| n <= |s| && s[..n] in {"", "0x", "0X"} && Digits(s[n..]) && Value(s[n..], 16) == v;
    if n != 0 {
      assert |s[..n]| == 2;
      assert s[0] == s[..n][0] && s[1] == s[..n][1];
    }
    forall i | n <= i < |s|
      ensures IsDigit(s[i], 16)
    {
      assert s[i] == s[n..][i - n];
    }
  }

  /** A spelling followed by the end, a colon or a backslash is read as its value. */
  lemma ScanSpelling(a: string, s: string, rest: string, v: uint64)
    requires Spells(s, v)
    requires rest == "" || rest[0] == ':' || rest[0] == '\\'
    ensures StrToULL(a + s + rest, |a|) == Scan(v, |a| + |s|)
  {
    hide Value, Spells, StrToULL;
    var t := a + s + rest;
    var n := SpellingParts(s, v);
    var k, e := |a| + n, |a| + |s|;
    assert t[k..e] == s[n..];
    assert forall i :: k <= i < e ==> t[i] == s[i - |a|];
    assert e < |t| ==> t[e] == rest[0];
    if n == 0 {
      NoPrefix(t, |a|, e);
    } else {
      assert t[|a|] == s[0] && t[|a| + 1] == s[1] && t[|a| + 2] == s[2];
    }
    assert t[|a|..|a|] == "" && t[|a|..k] == s[..n];
    assert Numeral(t, |a|, |a|, |a|, k, e);
    NumeralScan(t, |a|, |a|, |a|, k, e);
  }

  lemma NoPrefix(t: string, i: nat, e: nat)
    requires i < e <= |t| && forall k :: i <= k < e ==> IsDigit(t[k], 16)
    requires e == |t| || t[e] == ':' || t[e] == '\\'
    ensures !HasPrefix(t, i)
  {}

  lemma {:induction false} NoNul(s: string)
    requires '\0' !in s
    ensures CText(s) == s
  {
    if s == "" {
    } else {
      NoNul(s[1..]);
    }
  }

  lemma SpellingHasNoNul(s: string, v: uint64)
    requires Spells(s, v)
    ensures s != "" && '\0' !in s
  {
    hide Value;
    var n := SpellingParts(s, v);
  }

  /** Two spellings joined by a colon or by the escaped colon parse to the two words. */
  lemma ParsePair(h: string, separator: string, l: string, w: Wide)
    requires Spells(h, w.high) && Spells(l, w.low)
    requires separator == ":" || separator == ESCAPED_COLON
    ensures Parse(h + separator + l) == Some(w)
  {
    hide StrToULL, Spells;
    var t := h + separator + l;
    SpellingHasNoNul(h, w.high);
    SpellingHasNoNul(l, w.low);
    NoNul(t);
    ScanSpelling("", h, separator + l, w.high);
    assert "" + h + (separator + l) == t;
    ScanSpelling(h + separator, l, "", w.low);
    assert (h + separator) + l + "" == t;
    assert t[|h|..] == separator + l;
    if separator == ":" {
      assert t[|h|..][0] == ':';
      assert t[|h|] == ':';
      assert ESCAPED_COLON[0] == '\\';
      assert !(ESCAPED_COLON <= t[|h|..]);
    }
  }

  /** A single spelling parses to the low word. */
  lemma ParseSingle(l: string, v: uint64)
    requires Spells(l, v)
    ensures Parse(l) == Some(Wide(0, v))
  {
    hide StrToULL, Spells;
    SpellingHasNoNul(l, v);
    NoNul(l);
    ScanSpelling("", l, "", v);
    assert "" + l + "" == l;
  }

  /** Every value survives each of its printed forms. */
  lemma PrintParse(w: Wide)
    ensures Parse(GetString(w)) == Some(w)
    ensures Parse(Print(w)) == Some(w)
    ensures Parse(Plain(w.high) + ['\\', '0', '5', '8'] + Plain(w.low)) == Some(w)
  {
    hide Parse, Spells, Plain;
    FitsBuffer(w);
    PlainSpells(w.high);
    PlainSpells(w.low);
    ParsePair(Plain(w.high), ":", Plain(w.low), w);
    ParsePair(Plain(w.high), ESCAPED_COLON, Plain(w.low), w);
    ParseSingle(Plain(w.low), w.low);
  }
}
