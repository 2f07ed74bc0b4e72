/** FNV-1a over self-delimiting encodings: the one digest behind row bands and whole
    frames. Words are 64-bit and wrap. */
module Fingerprints {
  import opened Arithmetic
  import opened Bytes

  const FNV_OFFSET: u64 := 0xcbf2_9ce4_8422_2325

  /** Multiplication by the FNV prime, modulo 2^64. */
  function TimesPrime(x: u64): u64 {
    x * 0x0000_0100_0000_01b3 % 0x1_0000_0000_0000_0000
  }

  /** Bitwise exclusive or of the low `n` bits. */
  function Xor(n: nat, a: nat, b: nat): nat {
    if n == 0 then 0 else (a % 2 + b % 2) % 2 + 2 * Xor(n - 1, a / 2, b / 2)
  }

  lemma {:induction false} XorCancels(n: nat, a: nat, b: nat)
    requires a < Pow2(n)
    ensures Xor(n, a, b) < Pow2(n)
    ensures Xor(n, Xor(n, a, b), b) == a
    decreases n
  {
    if n > 0 {
      XorCancels(n - 1, a / 2, b / 2);
      LowBit(n, a, b);
      LowBit(n, Xor(n, a, b), b);
      hide Xor;
      AddTwice(a % 2, b % 2);
    }
  }

  lemma AddTwice(r: nat, s: nat)
    requires r < 2 && s < 2
    ensures ((r + s) % 2 + s) % 2 == r
  {
  }

  lemma LowBit(n: nat, a: nat, b: nat)
    requires n > 0
    ensures Xor(n, a, b) % 2 == (a % 2 + b % 2) % 2 && Xor(n, a, b) / 2 == Xor(n - 1, a / 2, b / 2)
  {
  }

  lemma {:induction false} XorCommutes(n: nat, a: nat, b: nat)
    ensures Xor(n, a, b) == Xor(n, b, a)
    decreases n
  {
    if n > 0 { XorCommutes(n - 1, a / 2, b / 2); }
  }

  function XorByte(a: byte, b: byte): byte {
    XorByteCancels(a, b);
    Xor(8, a, b)
  }

  lemma XorByteCancels(a: byte, b: byte)
    ensures Xor(8, a, b) < 256
    ensures Xor(8, Xor(8, a, b), b) == a
    ensures Xor(8, Xor(8, a, b), a) == b
  {
    hide Xor;
    assert Pow2(8) == 256 by {
      assert Pow2(4) == 16;
    }
    XorCancels(8, a, b);
    XorCancels(8, b, a);
    XorCommutes(8, a, b);
  }

  lemma XorByteInjective(a: byte, b: byte, c: byte)
    ensures XorByte(a, c) == XorByte(b, c) ==> a == b
    ensures XorByte(c, a) == XorByte(c, b) ==> a == b
  {
    hide Xor;
    XorByteCancels(a, c);
    XorByteCancels(b, c);
    XorByteCancels(c, a);
    XorByteCancels(c, b);
  }

  /** Xor into the low byte. */
  function XorLow(h: u64, b: byte): (r: u64) {
    var low := h % 256;
    h - low + XorByte(low, b)
  }

  function Eat(h: u64, b: byte): u64 {
    TimesPrime(XorLow(h, b))
  }

  function Digest(h: u64, bytes: seq<byte>): u64
    decreases |bytes|
  {
    if bytes == [] then h else Eat(Digest(h, bytes[..|bytes| - 1]), bytes[|bytes| - 1])
  }

  /** A published value: the 64-bit FNV-1a hash of "a". */
  lemma HashOfLetterA()
    ensures Digest(FNV_OFFSET, [0x61]) == 0xaf63_dc4c_8601_ec8c
  {
    hide Xor, XorLow, TimesPrime;
    FirstXor();
    FirstProduct();
    var s: seq<byte> := [0x61];
    assert s[..0] == [];
  }

  lemma FirstXor()
    ensures XorLow(FNV_OFFSET, 0x61) == 0xcbf2_9ce4_8422_2344
  {
    hide Xor;
    NoXor();
    LowBit(1, 0, 0);
    LowBit(2, 0, 1);
    LowBit(3, 1, 3);
    LowBit(4, 2, 6);
    LowBit(5, 4, 12);
    LowBit(6, 9, 24);
    LowBit(7, 18, 48);
    LowBit(8, 0x25, 0x61);
    assert Xor(4, 2, 6) == 4;
    assert Xor(8, 0x25, 0x61) == 0x44;
  }

  lemma NoXor()
    ensures Xor(0, 0, 0) == 0
  {
  }

  lemma FirstProduct()
    ensures TimesPrime(0xcbf2_9ce4_8422_2344) == 0xaf63_dc4c_8601_ec8c
  {
  }

  /** The prime is odd, so multiplying by it can be undone. */
  lemma UndoMultiply(x: u64)
    ensures TimesPrime(x) * 0xce96_5057_aff6_957b % 0x1_0000_0000_0000_0000 == x
  {
    var q := x * 0x0000_0100_0000_01b3 / 0x1_0000_0000_0000_0000;
    var r := TimesPrime(x);
    assert x * 0x0000_0100_0000_01b3 == q * 0x1_0000_0000_0000_0000 + r;
  }

  lemma XorLowInjective(g: u64, h: u64, a: byte, b: byte)
    ensures XorLow(g, a) == XorLow(h, a) ==> g == h
    ensures XorLow(g, a) == XorLow(g, b) ==> a == b
  {
    hide XorByte;
    var x, y := g % 256, h % 256;
    XorByteInjective(x, y, a);
    XorByteInjective(a, b, x);
  }

  /** No two states merge and no two bytes act alike. */
  lemma EatInjective(g: u64, h: u64, a: byte, b: byte)
    ensures Eat(g, a) == Eat(h, a) ==> g == h
    ensures Eat(g, a) == Eat(g, b) ==> a == b
  {
    hide XorLow, TimesPrime;
    UndoMultiply(XorLow(g, a));
    UndoMultiply(XorLow(h, a));
    UndoMultiply(XorLow(g, b));
    XorLowInjective(g, h, a, b);
  }

  lemma {:induction false} DigestConcat(h: u64, a: seq<byte>, b: seq<byte>)
    ensures Digest(h, a + b) == Digest(Digest(h, a), b)
    decreases |b|
  {
    if b == [] {
      assert a + b == a;
    } else {
      DigestConcat(h, a, b[..|b| - 1]);
      assert (a + b)[..|a + b| - 1] == a + b[..|b| - 1];
    }
  }

  lemma {:induction false} DigestInjectiveInState(g: u64, h: u64, s: seq<byte>)
    requires Digest(g, s) == Digest(h, s)
    ensures g == h
    decreases |s|
  {
    if s != [] {
      var n := |s| - 1;
      EatInjective(Digest(g, s[..n]), Digest(h, s[..n]), s[n], s[n]);
      DigestInjectiveInState(g, h, s[..n]);
    }
  }

  /** Two streams of equal length that differ in exactly one byte never share a
      digest, wherever the byte is and whatever surrounds it. */
  lemma OneByteChangesDigest(h: u64, s: seq<byte>, t: seq<byte>, i: nat)
    requires i < |s| == |t| && s[i] != t[i]
    requires forall j :: 0 <= j < |s| && j != i ==> s[j] == t[j]
    ensures Digest(h, s) != Digest(h, t)
  {
    hide Eat;
    var head, tail := s[..i], s[i + 1..];
    assert s == head + ([s[i]] + tail) && t == head + ([t[i]] + tail);
    DigestConcat(h, head, [s[i]] + tail);
    DigestConcat(h, head, [t[i]] + tail);
    var g := Digest(h, head);
    OneStep(g, s[i], tail);
    OneStep(g, t[i], tail);
    EatInjective(g, g, s[i], t[i]);
    if Digest(h, s) == Digest(h, t) {
      DigestInjectiveInState(Eat(g, s[i]), Eat(g, t[i]), tail);
    }
  }

  lemma OneStep(h: u64, b: byte, tail: seq<byte>)
    ensures Digest(h, [b] + tail) == Digest(Eat(h, b), tail)
  {
    DigestConcat(h, [b], tail);
    assert Digest(h, [b]) == Eat(h, b) by {
      assert [b][..0] == [];
      assert Digest(h, []) == h;
    }
  }

  // ---------------------------------------------------------------------------
  // Encodings. An encoding is self-delimiting when it can be read off the front of
  // any byte string in at most one way.

  function Le(n: nat, v: nat): (s: seq<byte>)
    ensures |s| == n
  {
    if n == 0 then [] else [v % 256] + Le(n - 1, v / 256)
  }

  function Pow256(n: nat): nat {
    if n == 0 then 1 else 256 * Pow256(n - 1)
  }

  lemma {:induction false} LeInjective(n: nat, v: nat, w: nat)
    requires v < Pow256(n) && w < Pow256(n) && Le(n, v) == Le(n, w)
    ensures v == w
    decreases n
  {
    if n > 0 {
      assert Le(n, v)[1..] == Le(n - 1, v / 256) && Le(n, w)[1..] == Le(n - 1, w / 256);
      assert Le(n, v)[0] == v % 256 && Le(n, w)[0] == w % 256;
      LeInjective(n - 1, v / 256, w / 256);
    }
  }

  /** A fixed-width field at the front of equal byte strings. */
  lemma SplitFixed(a: seq<byte>, s: seq<byte>, b: seq<byte>, t: seq<byte>)
    requires |a| == |b| && a + s == b + t
    ensures a == b && s == t
  {
    assert a == (a + s)[..|a|] && b == (b + t)[..|b|];
    assert s == (a + s)[|a|..] && t == (b + t)[|b|..];
  }

  function Word(v: u64): seq<byte> { Le(8, v) }

  lemma SplitWord(v: u64, s: seq<byte>, w: u64, t: seq<byte>)
    requires Word(v) + s == Word(w) + t
    ensures v == w && s == t
  {
    SplitFixed(Word(v), s, Word(w), t);
    assert Pow256(8) == TWO_64 by { assert Pow256(4) == TWO_32; }
    LeInjective(8, v, w);
  }

  function Words(vs: seq<u64>): seq<byte> {
    if vs == [] then [] else Word(vs[0]) + Words(vs[1..])
  }

  lemma {:induction false} SplitWords(vs: seq<u64>, s: seq<byte>, ws: seq<u64>, t: seq<byte>)
    requires |vs| == |ws| && Words(vs) + s == Words(ws) + t
    ensures vs == ws && s == t
    decreases |vs|
  {
    if vs == [] {
      assert [] + s == s && [] + t == t;
    } else {
      assert Word(vs[0]) + (Words(vs[1..]) + s) == Words(vs) + s;
      assert Word(ws[0]) + (Words(ws[1..]) + t) == Words(ws) + t;
      SplitWord(vs[0], Words(vs[1..]) + s, ws[0], Words(ws[1..]) + t);
      SplitWords(vs[1..], s, ws[1..], t);
      assert vs == [vs[0]] + vs[1..] && ws == [ws[0]] + ws[1..];
    }
  }

  type Text = s: seq<byte> | |s| < 0x1_0000_0000_0000_0000 witness []
  type WordList = s: seq<u64> | |s| < 0x1_0000_0000_0000_0000 witness []

  /** Length first, then the bytes. */
  function Sized(s: Text): seq<byte> {
    Word(|s|) + s
  }

  lemma SplitSized(a: Text, s: seq<byte>, b: Text, t: seq<byte>)
    requires Sized(a) + s == Sized(b) + t
    ensures a == b && s == t
  {
    assert Word(|a|) + (a + s) == Sized(a) + s;
    assert Word(|b|) + (b + t) == Sized(b) + t;
    SplitWord(|a|, a + s, |b|, b + t);
    SplitFixed(a, s, b, t);
  }

  function SizedWords(vs: WordList): seq<byte> {
    Word(|vs|) + Words(vs)
  }

  lemma Regroup(a: seq<byte>, b: seq<byte>, c: seq<byte>)
    ensures a + b + c == a + (b + c)
  {
  }

  lemma SplitSizedWords(a: WordList, s: seq<byte>, b: WordList, t: seq<byte>)
    requires SizedWords(a) + s == SizedWords(b) + t
    ensures a == b && s == t
  {
    hide Word, Words;
    Regroup(Word(|a|), Words(a), s);
    Regroup(Word(|b|), Words(b), t);
    SplitWord(|a|, Words(a) + s, |b|, Words(b) + t);
    SplitWords(a, s, b, t);
  }

  // ---------------------------------------------------------------------------

  datatype Rgb = Rgb(r: byte, g: byte, b: byte)

  /** The incremental hasher; `fed` is the history of what it ate. */
  class Fnv {
    var h: u64
    ghost var fed: seq<byte>

    ghost predicate Valid()
      reads this
    {
      h == Digest(FNV_OFFSET, fed)
    }

    constructor ()
      ensures Valid() && fed == []
    {
      h, fed := FNV_OFFSET, [];
    }

    method Byte(b: byte)
      requires Valid()
      modifies this
      ensures Valid() && fed == old(fed) + [b]
    {
      h := Eat(h, b);
      fed := fed + [b];
      assert fed[..|fed| - 1] == old(fed);
    }

    method Bytes(s: seq<byte>)
      requires Valid()
      modifies this
      ensures Valid() && fed == old(fed) + s
    {
      for i := 0 to |s|
        invariant Valid() && fed == old(fed) + s[..i]
      {
        Byte(s[i]);
        assert s[..i + 1] == s[..i] + [s[i]];
      }
      assert s[..|s|] == s;
    }

    /** The eight little-endian bytes of a word, as the program eats every integer. */
    method U64(v: u64)
      requires Valid()
      modifies this
      ensures Valid() && fed == old(fed) + Word(v)
    {
      Bytes(Word(v));
    }

    method EachU64(vs: seq<u64>)
      requires Valid()
      modifies this
      ensures Valid() && fed == old(fed) + Words(vs)
    {
      assert vs[0..] == vs;
      for i := 0 to |vs|
        invariant Valid() && fed + Words(vs[i..]) == old(fed) + Words(vs)
      {
        U64(vs[i]);
        assert vs[i..][0] == vs[i] && vs[i..][1..] == vs[i + 1..];
      }
      assert vs[|vs|..] == [];
    }

    method SizedBytes(s: Text)
      requires Valid()
      modifies this
      ensures Valid() && fed == old(fed) + Sized(s)
    {
      U64(|s|);
      Bytes(s);
    }

    method Colour(c: Rgb)
      requires Valid()
      modifies this
      ensures Valid() && fed == old(fed) + [c.r, c.g, c.b]
    {
      Byte(c.r);
      Byte(c.g);
      Byte(c.b);
    }
  }
}
