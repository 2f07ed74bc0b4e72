/** Row bands: which groups of sixteen rows have to be rebuilt this frame, judged by
    a fingerprint of everything that shows in the band. */
module Bands {
  import opened Bytes
  import opened Fingerprints

  const BAND_ROWS: nat := 16

  function BandOf(row: nat): nat { row / BAND_ROWS }

  function BandCount(rows: nat): nat { (rows + BAND_ROWS - 1) / BAND_ROWS }

  datatype PxRect = PxRect(x: u32, y: u32, w: u32, h: u32)

  datatype BandInput = BandInput(
    rowHashes: WordList, termPx: PxRect, style: u64, defaultFg: Rgb, cols: u16,
    preedit: Text, preeditCol: u16, preeditFg: Rgb, fakeCursorOff: Option<(u16, u16)>)

  // ---------------------------------------------------------------------------
  // The encoding.

  function RgbBytes(c: Rgb): seq<byte> { [c.r, c.g, c.b] }

  function RectBytes(p: PxRect): seq<byte> { Words([p.x, p.y, p.w, p.h]) }

  function OffBytes(o: Option<(u16, u16)>): seq<byte> {
    match o
    case None => [0]
    case Some(rc) => [1] + Words([rc.0, rc.1])
  }

  function Tail(i: BandInput): seq<byte> {
    Sized(i.preedit) + (Word(i.preeditCol) + (RgbBytes(i.preeditFg) + OffBytes(i.fakeCursorOff)))
  }

  function BandBytes(i: BandInput): seq<byte> {
    SizedWords(i.rowHashes) +
    (RectBytes(i.termPx) + (Word(i.style) + (RgbBytes(i.defaultFg) + (Word(i.cols) + Tail(i)))))
  }

  lemma SplitRgb(a: Rgb, s: seq<byte>, b: Rgb, t: seq<byte>)
    requires RgbBytes(a) + s == RgbBytes(b) + t
    ensures a == b && s == t
  {
    SplitFixed(RgbBytes(a), s, RgbBytes(b), t);
  }

  lemma SplitRect(a: PxRect, s: seq<byte>, b: PxRect, t: seq<byte>)
    requires RectBytes(a) + s == RectBytes(b) + t
    ensures a == b && s == t
  {
    var v, w := [a.x, a.y, a.w, a.h], [b.x, b.y, b.w, b.h];
    SplitWords(v, s, w, t);
    assert v[0] == w[0] && v[1] == w[1] && v[2] == w[2] && v[3] == w[3];
  }

  lemma OffInjective(a: Option<(u16, u16)>, b: Option<(u16, u16)>)
    requires OffBytes(a) == OffBytes(b)
    ensures a == b
  {
    hide Words;
    assert OffBytes(a)[0] == OffBytes(b)[0];
    if a.Some? {
      var v, w := [a.value.0, a.value.1], [b.value.0, b.value.1];
      assert Words(v) + [] == OffBytes(a)[1..] == OffBytes(b)[1..] == Words(w) + [];
      SplitWords(v, [], w, []);
      assert v[0] == w[0] && v[1] == w[1];
    }
  }

  lemma TailInjective(i: BandInput, j: BandInput)
    requires Tail(i) == Tail(j)
    ensures i.preedit == j.preedit && i.preeditCol == j.preeditCol
    ensures i.preeditFg == j.preeditFg && i.fakeCursorOff == j.fakeCursorOff
  {
    hide Sized, Word, RgbBytes, OffBytes;
    var s, t := RgbBytes(i.preeditFg) + OffBytes(i.fakeCursorOff), RgbBytes(j.preeditFg) + OffBytes(j.fakeCursorOff);
    SplitSized(i.preedit, Word(i.preeditCol) + s, j.preedit, Word(j.preeditCol) + t);
    SplitWord(i.preeditCol, s, j.preeditCol, t);
    SplitRgb(i.preeditFg, OffBytes(i.fakeCursorOff), j.preeditFg, OffBytes(j.fakeCursorOff));
    OffInjective(i.fakeCursorOff, j.fakeCursorOff);
  }

  /** Nothing that shows in a band is lost: equal encodings, equal inputs. */
  lemma BandBytesInjective(i: BandInput, j: BandInput)
    requires BandBytes(i) == BandBytes(j)
    ensures i == j
  {
    hide SizedWords, RectBytes, Word, RgbBytes, Tail;
    var a, b := Word(i.cols) + Tail(i), Word(j.cols) + Tail(j);
    var c, d := RgbBytes(i.defaultFg) + a, RgbBytes(j.defaultFg) + b;
    var e, f := Word(i.style) + c, Word(j.style) + d;
    SplitSizedWords(i.rowHashes, RectBytes(i.termPx) + e, j.rowHashes, RectBytes(j.termPx) + f);
    SplitRect(i.termPx, e, j.termPx, f);
    SplitWord(i.style, c, j.style, d);
    SplitRgb(i.defaultFg, a, j.defaultFg, b);
    SplitWord(i.cols, Tail(i), j.cols, Tail(j));
    TailInjective(i, j);
  }

  function BandFp(i: BandInput): u64 {
    Digest(FNV_OFFSET, BandBytes(i))
  }

  /** A row fingerprint that moves in one byte always moves its band's. */
  lemma OneRowByteMovesBand(i: BandInput, j: BandInput, r: nat, k: nat)
    requires r < |i.rowHashes| == |j.rowHashes| && k < 8
    requires i == j.(rowHashes := i.rowHashes)
    requires forall s :: 0 <= s < |i.rowHashes| && s != r ==> i.rowHashes[s] == j.rowHashes[s]
    requires Word(i.rowHashes[r])[k] != Word(j.rowHashes[r])[k]
    requires forall m :: 0 <= m < 8 && m != k ==> Word(i.rowHashes[r])[m] == Word(j.rowHashes[r])[m]
    ensures BandFp(i) != BandFp(j)
  {
    var rest := RectBytes(i.termPx) + (Word(i.style) + (RgbBytes(i.defaultFg) + (Word(i.cols) + Tail(i))));
    hide Words, Word, RectBytes, RgbBytes, Tail, Digest;
    assert Tail(i) == Tail(j) by { TailUnchanged(i, j); }
    WordsDiffer(i.rowHashes, j.rowHashes, r, k);
    var at := 8 + 8 * r + k;
    var s, t := BandBytes(i), BandBytes(j);
    assert s == (Word(|i.rowHashes|) + Words(i.rowHashes)) + rest;
    assert t == (Word(|j.rowHashes|) + Words(j.rowHashes)) + rest;
    forall m | 0 <= m < |s| ensures (s[m] == t[m] <==> m != at) {
      if 8 <= m < 8 + 8 * |i.rowHashes| {
        assert s[m] == Words(i.rowHashes)[m - 8] && t[m] == Words(j.rowHashes)[m - 8];
      }
    }
    OneByteChangesDigest(FNV_OFFSET, s, t, at);
  }

  lemma TailUnchanged(i: BandInput, j: BandInput)
    requires i == j.(rowHashes := i.rowHashes)
    ensures Tail(i) == Tail(j)
  {
  }

  lemma {:induction false} WordsDiffer(v: seq<u64>, w: seq<u64>, r: nat, k: nat)
    requires r < |v| == |w| && k < 8
    requires forall s :: 0 <= s < |v| && s != r ==> v[s] == w[s]
    requires Word(v[r])[k] != Word(w[r])[k]
    requires forall m :: 0 <= m < 8 && m != k ==> Word(v[r])[m] == Word(w[r])[m]
    ensures |Words(v)| == |Words(w)| == 8 * |v|
    ensures forall m :: 0 <= m < 8 * |v| ==> (Words(v)[m] == Words(w)[m] <==> m != 8 * r + k)
    decreases |v|
  {
    hide Word;
    WordsLength(v);
    WordsLength(w);
    if r > 0 {
      WordsDiffer(v[1..], w[1..], r - 1, k);
    } else {
      assert v[1..] == w[1..];
      WordsLength(v[1..]);
    }
  }

  lemma {:induction false} WordsLength(v: seq<u64>)
    ensures |Words(v)| == 8 * |v|
    decreases |v|
  {
    if v != [] { WordsLength(v[1..]); }
  }

  method Fingerprint(i: BandInput) returns (fp: u64)
    ensures fp == BandFp(i)
  {
    hide Digest, Word, Words;
    var h := new Fnv();
    h.U64(|i.rowHashes|);
    h.EachU64(i.rowHashes);
    h.EachU64([i.termPx.x, i.termPx.y, i.termPx.w, i.termPx.h]);
    h.U64(i.style);
    h.Colour(i.defaultFg);
    h.U64(i.cols);
    ghost var front := h.fed;
    HashTail(h, i);
    fp := h.h;
    assert h.fed == BandBytes(i);
  }

  method HashTail(h: Fnv, i: BandInput)
    requires h.Valid()
    modifies h
    ensures h.Valid() && h.fed == old(h.fed) + Tail(i)
  {
    hide Digest, Word, Words;
    h.SizedBytes(i.preedit);
    h.U64(i.preeditCol);
    h.Colour(i.preeditFg);
    match i.fakeCursorOff
    case Some(rc) =>
      h.Byte(1);
      h.EachU64([rc.0, rc.1]);
    case None =>
      h.Byte(0);
  }
}
