/** Well-formed UTF-8 as section 4 of RFC 3629 defines it: the check that
    `std::str::from_utf8` performs on the bytes of a string field. */
module Utf8 {
  import opened Wire

  predicate IsTail(b: byte) { 0x80 <= b <= 0xBF }

  /** The length of the well-formed character that `s` begins with, or 0 when
      `s` does not begin with one (overlong forms, surrogates, code points above
      U+10FFFF, stray continuation bytes and truncated sequences all give 0). */
  function CharWidth(s: Bytes): (w: nat)
    ensures w <= 4 && w <= |s|
    ensures s != [] && s[0] < 0x80 ==> w == 1
    ensures w > 0 ==> s != [] && (s[0] < 0x80 <==> w == 1)
  {
    if s == [] then 0
    else
      var b := s[0];
      if b <= 0x7F then 1
      else if 0xC2 <= b <= 0xDF then
        if |s| >= 2 && IsTail(s[1]) then 2 else 0
      else if b == 0xE0 then
        if |s| >= 3 && 0xA0 <= s[1] <= 0xBF && IsTail(s[2]) then 3 else 0
      else if 0xE1 <= b <= 0xEC || 0xEE <= b <= 0xEF then
        if |s| >= 3 && IsTail(s[1]) && IsTail(s[2]) then 3 else 0
      else if b == 0xED then
        if |s| >= 3 && 0x80 <= s[1] <= 0x9F && IsTail(s[2]) then 3 else 0
      else if b == 0xF0 then
        if |s| >= 4 && 0x90 <= s[1] <= 0xBF && IsTail(s[2]) && IsTail(s[3]) then 4 else 0
      else if 0xF1 <= b <= 0xF3 then
        if |s| >= 4 && IsTail(s[1]) && IsTail(s[2]) && IsTail(s[3]) then 4 else 0
      else if b == 0xF4 then
        if |s| >= 4 && 0x80 <= s[1] <= 0x8F && IsTail(s[2]) && IsTail(s[3]) then 4 else 0
      else 0
  }

  /** `s` is a sequence of well-formed UTF-8 characters. */
  predicate Valid(s: Bytes)
    decreases |s|
  {
    s == [] || (CharWidth(s) > 0 && Valid(s[CharWidth(s)..]))
  }

  predicate IsAscii(s: Bytes) { forall i :: 0 <= i < |s| ==> s[i] < 0x80 }

  /** Every ASCII byte string is well-formed UTF-8. */
  lemma {:induction false} AsciiIsValid(s: Bytes)
    requires IsAscii(s)
    ensures Valid(s)
  {
    if s != [] {
      assert IsAscii(s[1..]);
      AsciiIsValid(s[1..]);
    }
  }

  /** An ASCII prefix does not change whether the rest is well-formed. */
  lemma {:induction false} AsciiPrefix(a: Bytes, b: Bytes)
    requires IsAscii(a)
    ensures Valid(a + b) <==> Valid(b)
  {
    if a != [] {
      assert (a + b)[1..] == a[1..] + b;
      assert IsAscii(a[1..]);
      AsciiPrefix(a[1..], b);
    } else {
      assert a + b == b;
    }
  }
}
