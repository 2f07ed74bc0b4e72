/** Well-formed UTF-8, by the byte ranges of section 4 of RFC 3629. */
module Utf8Text {
  import opened Bytes

  predicate Tails(s: seq<byte>, n: nat) {
    |s| > n && forall i :: 1 <= i <= n ==> 0x80 <= s[i] <= 0xBF
  }

  /** Length of the character at the front, 0 when there is none. */
  function CharLen(s: seq<byte>): (n: nat)
    ensures n <= |s|
  {
    if s == [] then 0
    else if s[0] <= 0x7F then 1
    else if 0xC2 <= s[0] <= 0xDF && Tails(s, 1) then 2
    else if 0xE0 <= s[0] <= 0xEF && Tails(s, 2) &&
            (s[0] == 0xE0 ==> s[1] >= 0xA0) && (s[0] == 0xED ==> s[1] <= 0x9F) then 3
    else if 0xF0 <= s[0] <= 0xF4 && Tails(s, 3) &&
            (s[0] == 0xF0 ==> s[1] >= 0x90) && (s[0] == 0xF4 ==> s[1] <= 0x8F) then 4
    else 0
  }

  predicate Utf8(s: seq<byte>)
    decreases |s|
  {
    s == [] || (CharLen(s) > 0 && Utf8(s[CharLen(s)..]))
  }

  // ---------------------------------------------------------------------------
  // What it is for: encodings of characters, by section 3 of RFC 3629.

  type Scalar = c: int | 0 <= c < 0xD800 || 0xE000 <= c < 0x11_0000

  function CharBytes(c: Scalar): (s: seq<byte>)
    ensures 1 <= |s| <= 4
  {
    if c < 0x80 then [c]
    else if c < 0x800 then [0xC0 + c / 0x40, 0x80 + c % 0x40]
    else if c < 0x1_0000 then [0xE0 + c / 0x1000, 0x80 + c / 0x40 % 0x40, 0x80 + c % 0x40]
    else [0xF0 + c / 0x4_0000, 0x80 + c / 0x1000 % 0x40, 0x80 + c / 0x40 % 0x40, 0x80 + c % 0x40]
  }

  function TextBytes(cs: seq<Scalar>): seq<byte> {
    if cs == [] then [] else CharBytes(cs[0]) + TextBytes(cs[1..])
  }

  /** The front of an encoding is found to be one character. */
  lemma CharFound(c: Scalar, t: seq<byte>)
    ensures CharLen(CharBytes(c) + t) == |CharBytes(c)| >= 1
  {
    var s := CharBytes(c) + t;
    if 0x800 <= c < 0x1_0000 {
      assert s[1] == CharBytes(c)[1] && s[2] == CharBytes(c)[2];
      assert c < 0x1000 ==> c / 0x40 % 0x40 == c / 0x40 && c / 0x40 >= 0x20;
      assert c / 0x1000 == 13 ==> c / 0x40 == 13 * 0x40 + c / 0x40 % 0x40;
    } else if c >= 0x1_0000 {
      assert s[1] == CharBytes(c)[1] && s[2] == CharBytes(c)[2] && s[3] == CharBytes(c)[3];
      assert c / 0x4_0000 == 0 ==> c / 0x1000 % 0x40 == c / 0x1000 && c / 0x1000 >= 0x10;
      assert c / 0x4_0000 == 4 ==> c / 0x1000 == 4 * 0x40 + c / 0x1000 % 0x40;
    }
  }

  /** And what is found is the encoding of a character. */
  lemma CharDecoded(s: seq<byte>) returns (c: Scalar)
    requires CharLen(s) > 0
    ensures CharBytes(c) == s[..CharLen(s)]
  {
    var n := CharLen(s);
    if n == 1 {
      c := s[0];
    } else if n == 2 {
      c := TwoBytes(s[0], s[1]);
    } else if n == 3 {
      c := ThreeBytes(s[0], s[1], s[2]);
    } else {
      c := FourBytes(s[0], s[1], s[2], s[3]);
    }
  }

  lemma TwoBytes(a: byte, b: byte) returns (c: Scalar)
    requires 0xC2 <= a <= 0xDF && 0x80 <= b <= 0xBF
    ensures CharBytes(c) == [a, b]
  {
    c := (a - 0xC0) * 0x40 + (b - 0x80);
  }

  lemma ThreeBytes(a: byte, b: byte, d: byte) returns (c: Scalar)
    requires 0xE0 <= a <= 0xEF && 0x80 <= b <= 0xBF && 0x80 <= d <= 0xBF
    requires (a == 0xE0 ==> b >= 0xA0) && (a == 0xED ==> b <= 0x9F)
    ensures CharBytes(c) == [a, b, d]
  {
    var x, y, z := a - 0xE0, b - 0x80, d - 0x80;
    var v := x * 0x1000 + y * 0x40 + z;
    assert v % 0x40 == z && v / 0x40 == x * 0x40 + y && v / 0x1000 == x;
    c := v;
  }

  lemma FourBytes(a: byte, b: byte, d: byte, e: byte) returns (c: Scalar)
    requires 0xF0 <= a <= 0xF4 && 0x80 <= b <= 0xBF && 0x80 <= d <= 0xBF && 0x80 <= e <= 0xBF
    requires (a == 0xF0 ==> b >= 0x90) && (a == 0xF4 ==> b <= 0x8F)
    ensures CharBytes(c) == [a, b, d, e]
  {
    var w, x, y, z := a - 0xF0, b - 0x80, d - 0x80, e - 0x80;
    c := w * 0x4_0000 + x * 0x1000 + y * 0x40 + z;
    FourDigits(c, w, x, y, z);
  }

  lemma FourDigits(v: nat, w: nat, x: nat, y: nat, z: nat)
    requires x < 0x40 && y < 0x40 && z < 0x40 && v == w * 0x4_0000 + x * 0x1000 + y * 0x40 + z
    ensures v / 0x4_0000 == w && v / 0x1000 % 0x40 == x && v / 0x40 % 0x40 == y && v % 0x40 == z
  {
    assert v / 0x40 == w * 0x1000 + x * 0x40 + y;
    assert v / 0x1000 == w * 0x40 + x;
  }

  lemma {:induction false} TextIsUtf8(cs: seq<Scalar>)
    ensures Utf8(TextBytes(cs))
    decreases |cs|
  {
    hide CharLen, CharBytes;
    if cs != [] {
      var front, rest := CharBytes(cs[0]), TextBytes(cs[1..]);
      TextIsUtf8(cs[1..]);
      CharFound(cs[0], rest);
      assert (front + rest)[|front|..] == rest;
    }
  }

  lemma {:induction false} Utf8IsText(s: seq<byte>) returns (cs: seq<Scalar>)
    requires Utf8(s)
    ensures TextBytes(cs) == s
    decreases |s|
  {
    hide CharLen, CharBytes;
    if s == [] {
      cs := [];
    } else {
      var n := CharLen(s);
      var c := CharDecoded(s);
      var rest := Utf8IsText(s[n..]);
      cs := [c] + rest;
      assert cs[1..] == rest && s[..n] + s[n..] == s;
    }
  }

  /** The byte ranges admit exactly the encodings of characters: no surrogates, nothing
      overlong, nothing past the last character. */
  lemma Utf8Iff(s: seq<byte>)
    ensures Utf8(s) <==> exists cs: seq<Scalar> :: TextBytes(cs) == s
  {
    hide Utf8, TextBytes;
    if Utf8(s) {
      var cs := Utf8IsText(s);
    }
    if cs: seq<Scalar> :| TextBytes(cs) == s {
      TextIsUtf8(cs);
    }
  }
}
