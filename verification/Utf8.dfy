/**
 UTF-8 text (section 4 of RFC 3629) and the character-boundary test the buffer makes through
 ropey's byte/char index conversions.
 */
module Utf8 {

  newtype byte = x: int | 0 <= x < 256

  type Text = seq<byte>

  predicate Between(s: Text, i: nat, lo: byte, hi: byte) {
    i < |s| && lo <= s[i] <= hi
  }

  predicate Tail(s: Text, i: nat) {
    Between(s, i, 0x80, 0xBF)
  }

  /** Byte length of the character at the front of `s`; 0 when `s` does not start with one. */
  function CharLen(s: Text): (n: nat)
    ensures n <= |s| && n <= 4
    ensures n > 0 ==> !Tail(s, 0) && forall i :: 0 < i < n ==> Tail(s, i)
  {
    if Between(s, 0, 0x00, 0x7F) then 1
    else if Between(s, 0, 0xC2, 0xDF) && Tail(s, 1) then 2
    else if Between(s, 0, 0xE0, 0xE0) && Between(s, 1, 0xA0, 0xBF) && Tail(s, 2) then 3
    else if Between(s, 0, 0xE1, 0xEC) && Tail(s, 1) && Tail(s, 2) then 3
    else if Between(s, 0, 0xED, 0xED) && Between(s, 1, 0x80, 0x9F) && Tail(s, 2) then 3
    else if Between(s, 0, 0xEE, 0xEF) && Tail(s, 1) && Tail(s, 2) then 3
    else if Between(s, 0, 0xF0, 0xF0) && Between(s, 1, 0x90, 0xBF) && Tail(s, 2) && Tail(s, 3) then 4
    else if Between(s, 0, 0xF1, 0xF3) && Tail(s, 1) && Tail(s, 2) && Tail(s, 3) then 4
    else if Between(s, 0, 0xF4, 0xF4) && Between(s, 1, 0x80, 0x8F) && Tail(s, 2) && Tail(s, 3) then 4
    else 0
  }

  predicate ValidUtf8(s: Text) {
    s == [] || (CharLen(s) > 0 && ValidUtf8(s[CharLen(s)..]))
  }

  /** `str::is_char_boundary`: the ends, and every byte that is not a continuation byte. */
  predicate Boundary(s: Text, i: nat) {
    i == 0 || i == |s| || (i < |s| && !Tail(s, i))
  }

  /** ropey's `byte_to_char`: index of the character that contains byte `b` (`b` may be the end). */
  function ByteToChar(s: Text, b: nat): (c: nat)
    requires ValidUtf8(s) && b <= |s|
  {
    if s == [] || b < CharLen(s) then 0
    else 1 + ByteToChar(s[CharLen(s)..], b - CharLen(s))
  }

  /** ropey's `char_to_byte`: offset of the first byte of character `c`. */
  function CharToByte(s: Text, c: nat): (b: nat)
    requires ValidUtf8(s)
    ensures b <= |s|
  {
    if c == 0 || s == [] then 0
    else CharLen(s) + CharToByte(s[CharLen(s)..], c - 1)
  }

  /** The round trip `char_to_byte(byte_to_char(b)) == b` succeeds exactly on boundaries. */
  lemma {:induction false} RoundTripIffBoundary(s: Text, b: nat)
    requires ValidUtf8(s) && b <= |s|
    ensures CharToByte(s, ByteToChar(s, b)) == b <==> Boundary(s, b)
  {
    if s != [] && b >= CharLen(s) {
      var n := CharLen(s);
      RoundTripIffBoundary(s[n..], b - n);
      assert b < |s| ==> s[n..][b - n] == s[b];
      if b == n && b < |s| {
        assert ValidUtf8(s[n..]) && s[n..] != [];
        assert !Tail(s[n..], 0);
      }
    }
  }

  lemma CharLenPrefix(s: Text, t: Text)
    requires CharLen(s) > 0
    ensures CharLen(s + t) == CharLen(s)
  {
    var n := CharLen(s);
    assert forall i :: 0 <= i < |s| ==> (s + t)[i] == s[i];
  }

  lemma {:induction false} ValidConcat(a: Text, b: Text)
    requires ValidUtf8(a) && ValidUtf8(b)
    ensures ValidUtf8(a + b)
  {
    if a == [] {
      assert a + b == b;
    } else {
      var n := CharLen(a);
      CharLenPrefix(a, b);
      assert (a + b)[n..] == a[n..] + b;
      ValidConcat(a[n..], b);
    }
  }

  lemma {:induction false} ValidSplit(s: Text, i: nat)
    requires ValidUtf8(s) && i <= |s| && Boundary(s, i)
    ensures ValidUtf8(s[..i]) && ValidUtf8(s[i..])
  {
    if i == 0 || i == |s| {
      assert s[..|s|] == s && s[0..] == s;
    } else {
      var n := CharLen(s);
      InsideOneChar(s, i);
      assert s[n..][i - n] == s[i];
      ValidSplit(s[n..], i - n);
      FirstCharStays(s, i);
      assert s[n..][..i - n] == s[..i][n..] && s[n..][i - n..] == s[i..];
    }
  }

  /** No boundary lies inside the first character. */
  lemma InsideOneChar(s: Text, i: nat)
    requires CharLen(s) > 0 && 0 < i < |s| && !Tail(s, i)
    ensures CharLen(s) <= i
  {
  }

  lemma FirstCharStays(s: Text, i: nat)
    requires 0 < CharLen(s) <= i <= |s|
    ensures CharLen(s[..i]) == CharLen(s)
  {
    assert forall k :: 0 <= k < i ==> s[..i][k] == s[k];
  }

  /** Cutting between two boundaries leaves valid text. */
  lemma ValidSlice(s: Text, i: nat, j: nat)
    requires ValidUtf8(s) && i <= j <= |s| && Boundary(s, i) && Boundary(s, j)
    ensures ValidUtf8(s[i..j])
  {
    ValidSplit(s, j);
    var h := s[..j];
    assert Boundary(h, i);
    ValidSplit(h, i);
    assert h[i..] == s[i..j];
  }
}
