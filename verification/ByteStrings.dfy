/** Byte strings and UTF-8. */
module ByteStrings {
  newtype byte = x: int | 0 <= x < 256

  type Bytes = seq<byte>

  predicate Continuation(b: byte) {
    0x80 <= b < 0xC0
  }

  /** The length of the well-formed UTF-8 sequence `s` starts with, or 0. */
  function CharLength(s: Bytes): (n: nat)
    ensures n <= 4 && n <= |s|
  {
    if s == [] then 0
    else if s[0] < 0x80 then 1
    else if 0xC2 <= s[0] < 0xE0 then
      if |s| >= 2 && Continuation(s[1]) then 2 else 0
    else if 0xE0 <= s[0] < 0xF0 then
      if |s| >= 3 && Continuation(s[1]) && Continuation(s[2])
         && (s[0] == 0xE0 ==> s[1] >= 0xA0) && (s[0] == 0xED ==> s[1] < 0xA0) then 3 else 0
    else if 0xF0 <= s[0] < 0xF5 then
      if |s| >= 4 && Continuation(s[1]) && Continuation(s[2]) && Continuation(s[3])
         && (s[0] == 0xF0 ==> s[1] >= 0x90) && (s[0] == 0xF4 ==> s[1] < 0x90) then 4 else 0
    else 0
  }

  predicate ValidUtf8(s: Bytes) {
    s == [] || (CharLength(s) > 0 && ValidUtf8(s[CharLength(s)..]))
  }

  /** Offsets at which a valid string may be cut. */
  predicate IsCharBoundary(s: Bytes, i: nat) {
    i == 0 || i == |s| || (i < |s| && !Continuation(s[i]))
  }

  lemma CharLengthIsLocal(s: Bytes, t: Bytes)
    requires CharLength(s) > 0 && CharLength(s) <= |t| && t[..CharLength(s)] == s[..CharLength(s)]
    ensures CharLength(t) == CharLength(s)
  {
    var n := CharLength(s);
    assert t[0] == t[..n][0] == s[..n][0] == s[0];
    assert n > 1 ==> t[1] == t[..n][1] == s[..n][1] == s[1];
    assert n > 2 ==> t[2] == t[..n][2] == s[..n][2] == s[2];
    assert n > 3 ==> t[3] == t[..n][3] == s[..n][3] == s[3];
  }

  /** Valid strings concatenate to a valid string. */
  lemma {:induction false} ConcatValid(s: Bytes, t: Bytes)
    requires ValidUtf8(s) && ValidUtf8(t)
    ensures ValidUtf8(s + t)
  {
    if s == [] {
      assert s + t == t;
    } else {
      var n := CharLength(s);
      assert (s + t)[..n] == s[..n];
      CharLengthIsLocal(s, s + t);
      assert (s + t)[n..] == s[n..] + t;
      ConcatValid(s[n..], t);
    }
  }

  /** A valid string cut at a boundary gives two valid strings. */
  lemma {:induction false} CutValid(s: Bytes, i: nat)
    requires ValidUtf8(s) && IsCharBoundary(s, i)
    ensures i <= |s| && ValidUtf8(s[..i]) && ValidUtf8(s[i..])
  {
    if i == 0 {
      assert s[..0] == [] && s[0..] == s;
    } else {
      var n := CharLength(s);
      assert i >= n;
      var rest := s[n..];
      assert i < |s| ==> rest[i - n] == s[i];
      CutValid(rest, i - n);
      assert s[..i][..n] == s[..n] && s[..i][n..] == rest[..i - n] && s[i..] == rest[i - n..];
      CharLengthIsLocal(s, s[..i]);
    }
  }
}
