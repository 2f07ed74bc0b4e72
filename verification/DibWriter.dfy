/** A reference writer of clipboard bitmaps in every layout the decoder reads, and the proof
    that decoding inverts it. */
module DibWriters {
  import opened Bytes
  import opened LittleEndian
  import opened Arithmetic
  import opened BitFields
  import opened Dibs

  /** Where the three 8-bit channels of a 32-bit pixel are. */
  datatype Shifts = Shifts(r: nat, g: nat, b: nat)

  predicate Apart(a: nat, b: nat) { a + 8 <= b || b + 8 <= a }

  predicate Disjoint(s: Shifts) {
    s.r <= 24 && s.g <= 24 && s.b <= 24 && Apart(s.r, s.g) && Apart(s.r, s.b) && Apart(s.g, s.b)
  }

  /** `size` is the header's own; `fields` are given if the masks are written out: right
      behind a 40-byte header, or at the same place within a longer one. */
  datatype Format = Format(depth: nat, size: nat, fields: Option<Shifts>, topDown: bool)

  predicate FormatOk(f: Format) {
    f.depth in {24, 32} && 40 <= f.size < TWO_32 &&
    (f.fields.Some? ==> Disjoint(f.fields.value) && (f.size == 40 || f.size >= 52))
  }

  function ShiftsOf(f: Format): Shifts {
    if f.fields.Some? then f.fields.value else Shifts(16, 8, 0)
  }

  predicate WellFormed(bm: Bitmap) {
    1 <= bm.w <= 65535 && 1 <= bm.h <= 65535 && |bm.rgb| == Start(bm.h, 3 * bm.w)
  }

  function Px(bm: Bitmap, x: nat, y: nat): (px: seq<byte>)
    requires WellFormed(bm) && x < bm.w && y < bm.h
    ensures |px| == 3
  {
    StartInside(y, bm.h, 3 * bm.w);
    bm.rgb[Start(y, 3 * bm.w) + 3 * x..Start(y, 3 * bm.w) + 3 * x + 3]
  }

  function Zeros(n: nat): (s: seq<byte>)
    ensures |s| == n
  {
    seq(n, _ => 0)
  }

  /** Three channels in their places in a 32-bit word. */
  function PixelWord(px: seq<byte>, s: Shifts): (v: u32)
    requires |px| == 3 && Disjoint(s)
  {
    WordFits(px, s);
    Times(px[0], Pow2(s.r)) + Times(px[1], Pow2(s.g)) + Times(px[2], Pow2(s.b))
  }

  /** Blue, green, red, or a word of four bytes. */
  function StoredPx(px: seq<byte>, f: Format): (s: seq<byte>)
    requires |px| == 3 && FormatOk(f)
    ensures |s| == BytesPerPx(f.depth)
  {
    if f.depth == 32 then Le32(PixelWord(px, ShiftsOf(f))) else [px[2], px[1], px[0]]
  }

  function StoredPxs(bm: Bitmap, f: Format, y: nat, n: nat): (s: seq<byte>)
    requires WellFormed(bm) && FormatOk(f) && y < bm.h && n <= bm.w
    ensures |s| == Start(n, BytesPerPx(f.depth))
  {
    if n == 0 then []
    else
      StartInside(n - 1, n, BytesPerPx(f.depth));
      StoredPxs(bm, f, y, n - 1) + StoredPx(Px(bm, n - 1, y), f)
  }

  function StoredLine(bm: Bitmap, f: Format, y: nat): (s: seq<byte>)
    requires WellFormed(bm) && FormatOk(f) && y < bm.h
    ensures |s| == Stride(bm.w, f.depth)
  {
    StrideHoldsRow(bm.w, f.depth);
    StoredPxs(bm, f, y, bm.w) + Zeros(Stride(bm.w, f.depth) - bm.w * BytesPerPx(f.depth))
  }

  /** The first `n` stored rows. */
  function StoredLines(bm: Bitmap, f: Format, n: nat): (s: seq<byte>)
    requires WellFormed(bm) && FormatOk(f) && n <= bm.h
    ensures |s| == Start(n, Stride(bm.w, f.depth))
  {
    if n == 0 then []
    else
      StartInside(n - 1, n, Stride(bm.w, f.depth));
      StoredLines(bm, f, n - 1)
      + StoredLine(bm, f, if f.topDown then n - 1 else bm.h - n)
  }

  function Compression(f: Format): nat { if f.fields.Some? then 3 else 0 }

  /** Pixels follow the header, and masks that are not part of it. */
  function Offset(f: Format): nat {
    if f.fields.Some? && f.size == 40 then 52 else f.size
  }

  function FieldBytes(s: Shifts): (m: seq<byte>)
    requires Disjoint(s)
    ensures |m| == 12
  {
    ByteMask(s.r);
    ByteMask(s.g);
    ByteMask(s.b);
    Le32(FieldMask(s.r, 8)) + Le32(FieldMask(s.g, 8)) + Le32(FieldMask(s.b, 8))
  }

  function Front(bm: Bitmap, f: Format): (s: seq<byte>)
    requires WellFormed(bm) && FormatOk(f)
    ensures |s| == 40
  {
    Le32(f.size) + Le32(bm.w) + Le32(if f.topDown then TWO_32 - bm.h else bm.h)
    + Le16(1) + Le16(f.depth) + Le32(Compression(f)) + Zeros(20)
  }

  /** What comes after the first 40 bytes and before the pixels. */
  function Back(f: Format): (s: seq<byte>)
    requires FormatOk(f)
    ensures |s| == Offset(f) - 40
  {
    if f.fields.Some? then FieldBytes(f.fields.value) + Zeros(Offset(f) - 52) else Zeros(f.size - 40)
  }

  function HeaderBytes(bm: Bitmap, f: Format): (s: seq<byte>)
    requires WellFormed(bm) && FormatOk(f)
    ensures |s| == Offset(f)
  {
    Front(bm, f) + Back(f)
  }

  function Write(bm: Bitmap, f: Format): seq<byte>
    requires WellFormed(bm) && FormatOk(f)
  {
    HeaderBytes(bm, f) + StoredLines(bm, f, bm.h)
  }

  function MasksFor(f: Format): Masks
    requires FormatOk(f)
  {
    if f.fields.None? && f.depth == 24 then Masks(0, 0, 0)
    else
      var s := ShiftsOf(f);
      ByteMask(s.r);
      ByteMask(s.g);
      ByteMask(s.b);
      Masks(FieldMask(s.r, 8), FieldMask(s.g, 8), FieldMask(s.b, 8))
  }

  function LayoutOf(bm: Bitmap, f: Format): Layout
    requires FormatOk(f)
  {
    Layout(bm.w, bm.h, f.topDown, f.depth, MasksFor(f), Offset(f))
  }

  lemma {:induction false} LinesAt(bm: Bitmap, f: Format, n: nat, row: nat)
    requires WellFormed(bm) && FormatOk(f) && row < n <= bm.h
    ensures var stride, lines := Stride(bm.w, f.depth), StoredLines(bm, f, n);
            Start(row, stride) + stride <= |lines| &&
            lines[Start(row, stride)..Start(row, stride) + stride]
            == StoredLine(bm, f, if f.topDown then row else bm.h - 1 - row)
    decreases n
  {
    hide StoredLine, Stride, Start;
    StartInside(row, n, Stride(bm.w, f.depth));
    if row < n - 1 {
      LinesAt(bm, f, n - 1, row);
      var less := StoredLines(bm, f, n - 1);
      assert StoredLines(bm, f, n)[..|less|] == less;
    } else {
      var less, line := StoredLines(bm, f, row), StoredLine(bm, f, if f.topDown then row else bm.h - 1 - row);
      assert StoredLines(bm, f, n) == less + line;
      assert |less| == Start(row, Stride(bm.w, f.depth));
    }
  }

  lemma {:induction false} PxsAt(bm: Bitmap, f: Format, y: nat, n: nat, x: nat)
    requires WellFormed(bm) && FormatOk(f) && y < bm.h && x < n <= bm.w
    ensures var b, pxs := BytesPerPx(f.depth), StoredPxs(bm, f, y, n);
            Start(x, b) + b <= |pxs| && pxs[Start(x, b)..Start(x, b) + b] == StoredPx(Px(bm, x, y), f)
    decreases n
  {
    hide StoredPx, Px, BytesPerPx, Start;
    StartInside(x, n, BytesPerPx(f.depth));
    if x < n - 1 {
      PxsAt(bm, f, y, n - 1, x);
      var less := StoredPxs(bm, f, y, n - 1);
      assert StoredPxs(bm, f, y, n)[..|less|] == less;
    } else {
      var less, px := StoredPxs(bm, f, y, x), StoredPx(Px(bm, x, y), f);
      assert StoredPxs(bm, f, y, n) == less + px;
      assert |less| == Start(x, BytesPerPx(f.depth));
    }
  }

  // ---------------------------------------------------------------------------
  // Channels.

  /** The mask of eight bits is found to be just that. */
  lemma ByteMask(shift: nat)
    requires shift <= 24
    ensures var mask := FieldMask(shift, 8);
            mask == Times(255, Pow2(shift)) && mask < TWO_32 && MaskShiftWidth(mask) == Some((shift, 8))
  {
    hide BitLen, TrailingZeros, Pow2, Times;
    MaskBound(shift);
    Ones(shift, 255);
    EightOnes();
  }

  /** Reading a channel back through its mask: the eight bits at its place, whatever the
      others are. */
  lemma ChannelAt(v: u32, shift: nat)
    requires shift <= 24
    ensures FieldMask(shift, 8) < TWO_32 && TakeChannel(v, FieldMask(shift, 8)) == v / Pow2(shift) % 256
  {
    hide FieldMask, TakeChannel, MaskShiftWidth;
    ByteMask(shift);
    ByteChannel(v, FieldMask(shift, 8), shift);
  }

  /** The masks of an uncompressed 32-bit picture. */
  lemma StandardMasks(v: u32)
    ensures TakeChannel(v, 0x00ff_0000) == v / 0x1_0000 % 256
    ensures TakeChannel(v, 0x0000_ff00) == v / 0x100 % 256
    ensures TakeChannel(v, 0x0000_00ff) == v % 256
  {
    hide TakeChannel;
    ChannelAt(v, 0);
    ChannelAt(v, 8);
    ChannelAt(v, 16);
    StandardFields();
    SmallPowers();
  }

  lemma StandardFields()
    ensures FieldMask(16, 8) == 0x00ff_0000 && FieldMask(8, 8) == 0x0000_ff00 && FieldMask(0, 8) == 0x0000_00ff
  {
    SmallPowers();
  }

  /** `c` at `t` seen from `s`: below it, or whole multiples of what is above it. */
  lemma Elsewhere(c: byte, s: nat, t: nat) returns (low: nat, high: nat)
    requires Apart(s, t)
    ensures c * Pow2(t) == low + Times(high, Pow2(s + 8)) && low < Pow2(s)
    ensures if t < s then low == c * Pow2(t) && high == 0 else low == 0
  {
    hide Pow2;
    if t < s {
      low, high := c * Pow2(t), 0;
      BelowNext(c, t, s);
    } else {
      var d := t - (s + 8);
      low, high := 0, c * Pow2(d);
      Pow2Sum(d, s + 8);
      Regroup(c, Pow2(d), Pow2(s + 8));
    }
  }

  lemma Regroup(a: nat, b: nat, c: nat)
    ensures a * (b * c) == Times(a * b, c)
  {
  }

  lemma BelowNext(c: byte, t: nat, s: nat)
    requires t + 8 <= s
    ensures (c + 1) * Pow2(t) <= Pow2(s)
  {
    hide Pow2;
    SmallPowers();
    Pow2Sum(8, t);
    Pow2Monotone(t + 8, s);
    MulMonotone(Pow2(t), c + 1, 256);
  }

  /** Two lower channels together stay below. */
  lemma TwoBelow(c: byte, t: nat, d: byte, u: nat, s: nat)
    requires t + 8 <= u && u + 8 <= s
    ensures c * Pow2(t) + d * Pow2(u) < Pow2(s)
  {
    BelowNext(c, t, u);
    BelowNext(d, u, s);
  }

  lemma Isolate(v: nat, c: byte, s: nat, low: nat, high: nat)
    requires v == low + c * Pow2(s) + Times(high, Pow2(s + 8)) && low < Pow2(s)
    ensures v / Pow2(s) % 256 == c
  {
    hide Pow2;
    SmallPowers();
    Pow2Sum(8, s);
    var p := Pow2(s);
    assert v == low + p * (c + 256 * high) by {
      assert Times(high, 256 * p) == high * (256 * p) == p * (256 * high);
    }
    DivIs(v, p, c + 256 * high);
  }

  /** Each channel can be read back, wherever the other two are. */
  lemma ChannelBack(c: byte, s: nat, d: byte, t: nat, e: byte, u: nat, v: nat)
    requires Apart(s, t) && Apart(s, u) && Apart(t, u)
    requires v == Times(c, Pow2(s)) + Times(d, Pow2(t)) + Times(e, Pow2(u))
    ensures v / Pow2(s) % 256 == c
  {
    hide Pow2;
    var l, h := Elsewhere(d, s, t);
    var m, i := Elsewhere(e, s, u);
    if t < s && u < s {
      if t < u {
        TwoBelow(d, t, e, u, s);
      } else {
        TwoBelow(e, u, d, t, s);
      }
    }
    assert Times(h, Pow2(s + 8)) + Times(i, Pow2(s + 8)) == Times(h + i, Pow2(s + 8));
    Isolate(v, c, s, l + m, h + i);
  }

  lemma WordFits(px: seq<byte>, s: Shifts)
    requires |px| == 3 && Disjoint(s)
    ensures Times(px[0], Pow2(s.r)) + Times(px[1], Pow2(s.g)) + Times(px[2], Pow2(s.b)) < TWO_32
  {
    hide Pow2;
    ThreeBelow(px[0], s.r, px[1], s.g, px[2], s.b);
  }

  lemma ThreeBelow(a: byte, r: nat, b: byte, g: nat, c: byte, t: nat)
    requires r <= 24 && g <= 24 && t <= 24 && Apart(r, g) && Apart(r, t) && Apart(g, t)
    ensures a * Pow2(r) + b * Pow2(g) + c * Pow2(t) < TWO_32
  {
    hide Pow2;
    FourBytes();
    if g < r && t < r {
      TopChannel(a, r, b, g, c, t);
    } else if r < g && t < g {
      TopChannel(b, g, a, r, c, t);
    } else {
      TopChannel(c, t, a, r, b, g);
    }
  }

  lemma FourBytes()
    ensures Pow2(32) == TWO_32
  {
    hide Pow2;
    SmallPowers();
    Pow2Sum(16, 16);
  }

  lemma TopChannel(a: byte, r: nat, b: byte, g: nat, c: byte, t: nat)
    requires r <= 24 && g + 8 <= r && t + 8 <= r && Apart(g, t)
    ensures a * Pow2(r) + b * Pow2(g) + c * Pow2(t) < Pow2(32)
  {
    hide Pow2;
    if g < t {
      TwoBelow(b, g, c, t, r);
    } else {
      TwoBelow(c, t, b, g, r);
    }
    BelowNext(a, r, 32);
  }

  lemma MaskBound(shift: nat)
    requires shift <= 24
    ensures Pow2(8) - 1 == 255 && Times(255, Pow2(shift)) < TWO_32
  {
    hide Pow2;
    SmallPowers();
    Pow2Monotone(shift, 24);
    assert Times(255, Pow2(shift)) == 255 * Pow2(shift);
  }

  lemma EightOnes()
    ensures BitLen(255) == 8 && TrailingZeros(255) == 0
  {
    assert BitLen(15) == 4;
  }

  /** Shifting an odd number up adds zeros below and length above. */
  lemma {:induction false} Ones(shift: nat, odd: nat)
    requires odd % 2 == 1
    ensures var m := Times(odd, Pow2(shift));
            m > 0 && TrailingZeros(m) == shift && BitLen(m) == BitLen(odd) + shift
    decreases shift
  {
    if shift > 0 {
      Ones(shift - 1, odd);
      TimesDouble(odd, Pow2(shift - 1));
      var m := Times(odd, Pow2(shift - 1));
      assert (2 * m) / 2 == m && (2 * m) % 2 == 0;
    }
  }

  // ---------------------------------------------------------------------------
  // The header.

  lemma FrontFields(bm: Bitmap, f: Format, rest: seq<byte>)
    requires WellFormed(bm) && FormatOk(f)
    ensures var dib := Front(bm, f) + rest;
            U32At(dib, 0) == Some(f.size) && U32At(dib, 4) == Some(bm.w) &&
            U32At(dib, 8) == Some(if f.topDown then TWO_32 - bm.h else bm.h) &&
            U16At(dib, 14) == Some(f.depth) && U32At(dib, 16) == Some(Compression(f))
  {
    hide Le16, Le32, From16, From32, Start;
    var dib := Front(bm, f) + rest;
    var ht: u32 := if f.topDown then TWO_32 - bm.h else bm.h;
    assert dib[0..4] == Le32(f.size) && dib[4..8] == Le32(bm.w) && dib[8..12] == Le32(ht);
    assert dib[14..16] == Le16(f.depth) && dib[16..20] == Le32(Compression(f));
    ReadAfterWrite(f.size);
    ReadAfterWrite(bm.w);
    ReadAfterWrite(ht);
    ReadAfterWrite(Compression(f));
    Le16Bijective(f.depth, [0, 0]);
  }

  lemma FieldsRead(front: seq<byte>, s: Shifts, rest: seq<byte>)
    requires |front| == 40 && Disjoint(s)
    ensures var dib := front + (FieldBytes(s) + rest);
            FieldMask(s.r, 8) < TWO_32 && FieldMask(s.g, 8) < TWO_32 && FieldMask(s.b, 8) < TWO_32 &&
            U32At(dib, 40) == Some(FieldMask(s.r, 8)) && U32At(dib, 44) == Some(FieldMask(s.g, 8)) &&
            U32At(dib, 48) == Some(FieldMask(s.b, 8))
  {
    hide Le32, From32, FieldMask;
    ByteMask(s.r);
    ByteMask(s.g);
    ByteMask(s.b);
    var dib := front + (FieldBytes(s) + rest);
    assert dib[40..44] == Le32(FieldMask(s.r, 8)) && dib[44..48] == Le32(FieldMask(s.g, 8)) && dib[48..52] == Le32(FieldMask(s.b, 8));
    ReadAfterWrite(FieldMask(s.r, 8));
    ReadAfterWrite(FieldMask(s.g, 8));
    ReadAfterWrite(FieldMask(s.b, 8));
  }

  lemma WrittenMasks(bm: Bitmap, f: Format)
    requires WellFormed(bm) && FormatOk(f)
    ensures MasksOf(Write(bm, f), Compression(f), f.depth) == Some(MasksFor(f))
  {
    hide Front, StoredLines, FieldBytes, U32At, FieldMask;
    if f.fields.Some? {
      var pad, lines := Zeros(Offset(f) - 52), StoredLines(bm, f, bm.h);
      var s := f.fields.value;
      FieldsRead(Front(bm, f), s, pad + lines);
      assert Front(bm, f) + (FieldBytes(s) + pad) + lines == Front(bm, f) + (FieldBytes(s) + (pad + lines));
    } else {
      StandardFields();
    }
  }

  lemma WrittenHeader(bm: Bitmap, f: Format)
    requires WellFormed(bm) && FormatOk(f)
    ensures Header(Write(bm, f)) == Ok(LayoutOf(bm, f)) && Fits(Write(bm, f), LayoutOf(bm, f))
  {
    hide Front, Back, StoredLines, U32At, U16At, Start, Stride, MasksOf, MasksFor;
    var rest := Back(f) + StoredLines(bm, f, bm.h);
    FrontFields(bm, f, rest);
    WrittenMasks(bm, f);
    assert Write(bm, f) == Front(bm, f) + rest;
  }

  lemma PxInLine(bm: Bitmap, f: Format, x: nat, y: nat)
    requires WellFormed(bm) && FormatOk(f) && x < bm.w && y < bm.h
    ensures var b, line := BytesPerPx(f.depth), StoredLine(bm, f, y);
            Start(x, b) + b <= |line| && line[Start(x, b)..Start(x, b) + b] == StoredPx(Px(bm, x, y), f)
  {
    hide Px, StoredPx, StoredPxs, Stride, Start, BytesPerPx;
    PxsAt(bm, f, y, bm.w, x);
    var b, pxs := BytesPerPx(f.depth), StoredPxs(bm, f, y, bm.w);
    StrideHoldsRow(bm.w, f.depth);
    assert StoredLine(bm, f, y)[Start(x, b)..Start(x, b) + b] == pxs[Start(x, b)..Start(x, b) + b];
  }

  lemma PxInLines(bm: Bitmap, f: Format, x: nat, y: nat)
    requires WellFormed(bm) && FormatOk(f) && x < bm.w && y < bm.h
    ensures var b, lines := BytesPerPx(f.depth), StoredLines(bm, f, bm.h);
            var at := Start(StoredRow(LayoutOf(bm, f), y), Stride(bm.w, f.depth)) + Start(x, b);
            at + b <= |lines| && lines[at..at + b] == StoredPx(Px(bm, x, y), f)
  {
    hide StoredLines, StoredLine, Px, StoredPx, Stride, Start, BytesPerPx;
    var row := StoredRow(LayoutOf(bm, f), y);
    LinesAt(bm, f, bm.h, row);
    PxInLine(bm, f, x, y);
    var b, stride := BytesPerPx(f.depth), Stride(bm.w, f.depth);
    SubSlice(StoredLines(bm, f, bm.h), Start(row, stride), stride, Start(x, b), b);
  }

  /** The stored bytes of a pixel sit where the decoder looks for them. */
  lemma WrittenPx(bm: Bitmap, f: Format, x: nat, y: nat)
    requires WellFormed(bm) && FormatOk(f) && x < bm.w && y < bm.h
    ensures var dib, at := Write(bm, f), PxAt(LayoutOf(bm, f), x, y);
            at + BytesPerPx(f.depth) <= |dib| &&
            dib[at..at + BytesPerPx(f.depth)] == StoredPx(Px(bm, x, y), f)
  {
    hide HeaderBytes, StoredLines, Px, StoredPx, Stride, Start, BytesPerPx;
    PxInLines(bm, f, x, y);
    var b := BytesPerPx(f.depth);
    var i := Start(StoredRow(LayoutOf(bm, f), y), Stride(bm.w, f.depth)) + Start(x, b);
    StartIs(x, b);
  }

  lemma StartIs(n: nat, size: nat)
    ensures Start(n, size) == n * size
  {
  }

  lemma WrittenPixel(bm: Bitmap, f: Format, x: nat, y: nat)
    requires WellFormed(bm) && FormatOk(f) && x < bm.w && y < bm.h
    requires Fits(Write(bm, f), LayoutOf(bm, f))
    ensures PixelOf(Write(bm, f), LayoutOf(bm, f), x, y) == Px(bm, x, y)
  {
    hide Write, Px, PxAt, Fits, TakeChannel;
    WrittenPx(bm, f, x, y);
    var dib, lay := Write(bm, f), LayoutOf(bm, f);
    var at, px := PxAt(lay, x, y), Px(bm, x, y);
    var stored := StoredPx(px, f);
    assert BytesPerPx(24) == 3 && BytesPerPx(32) == 4;
    assert dib[at..at + BytesPerPx(f.depth)][0] == stored[0];
    assert dib[at..at + BytesPerPx(f.depth)][1] == stored[1];
    assert dib[at..at + BytesPerPx(f.depth)][2] == stored[2];
    if f.depth == 32 {
      Unpack(px, ShiftsOf(f));
    }
  }

  lemma Unpack(px: seq<byte>, s: Shifts)
    requires |px| == 3 && Disjoint(s)
    ensures FieldMask(s.r, 8) < TWO_32 && FieldMask(s.g, 8) < TWO_32 && FieldMask(s.b, 8) < TWO_32
    ensures var v := From32(Le32(PixelWord(px, s)));
            [TakeChannel(v, FieldMask(s.r, 8)), TakeChannel(v, FieldMask(s.g, 8)), TakeChannel(v, FieldMask(s.b, 8))] == px
  {
    hide TakeChannel, From32, Le32, FieldMask, Pow2;
    var v := PixelWord(px, s);
    ReadAfterWrite(v);
    ChannelAt(v, s.r);
    ChannelAt(v, s.g);
    ChannelAt(v, s.b);
    ChannelBack(px[0], s.r, px[1], s.g, px[2], s.b, v);
    ChannelBack(px[1], s.g, px[0], s.r, px[2], s.b, v);
    ChannelBack(px[2], s.b, px[0], s.r, px[1], s.g, v);
  }

  lemma LayoutSize(bm: Bitmap, f: Format)
    requires FormatOk(f)
    ensures LayoutOf(bm, f).w == bm.w && LayoutOf(bm, f).h == bm.h
  {
  }

  lemma StartZero(size: nat)
    ensures Start(0, size) == 0
  {
  }

  lemma {:induction false} WrittenRow(bm: Bitmap, f: Format, y: nat, n: nat)
    requires WellFormed(bm) && FormatOk(f) && y < bm.h && n <= bm.w
    requires Fits(Write(bm, f), LayoutOf(bm, f))
    ensures Start(y, 3 * bm.w) + 3 * n <= |bm.rgb|
    ensures RowOf(Write(bm, f), LayoutOf(bm, f), y, n)
            == bm.rgb[Start(y, 3 * bm.w)..Start(y, 3 * bm.w) + 3 * n]
    decreases n
  {
    hide Write, Start, PixelOf, Fits, LayoutOf;
    StartInside(y, bm.h, 3 * bm.w);
    LayoutSize(bm, f);
    if n > 0 {
      WrittenRow(bm, f, y, n - 1);
      WrittenPixel(bm, f, n - 1, y);
    }
  }

  lemma {:induction false} WrittenImage(bm: Bitmap, f: Format, n: nat)
    requires WellFormed(bm) && FormatOk(f) && n <= bm.h
    requires Fits(Write(bm, f), LayoutOf(bm, f))
    ensures Start(n, 3 * bm.w) <= |bm.rgb|
    ensures Image(Write(bm, f), LayoutOf(bm, f), n) == bm.rgb[..Start(n, 3 * bm.w)]
    decreases n
  {
    hide Write, Start, RowOf, Fits, LayoutOf;
    LayoutSize(bm, f);
    StartZero(3 * bm.w);
    if n > 0 {
      StartInside(n - 1, bm.h, 3 * bm.w);
      WrittenImage(bm, f, n - 1);
      WrittenRow(bm, f, n - 1, bm.w);
    }
  }

  /** Decoding inverts the reference writer for every bitmap, either depth, either row
      order, any header size, and masks written out or left to the standard. */
  lemma DecodeInvertsWrite(bm: Bitmap, f: Format)
    requires WellFormed(bm) && FormatOk(f)
    ensures Decoded(Write(bm, f)) == Ok(bm)
  {
    hide Write, Header, Image, Fits;
    WrittenHeader(bm, f);
    WrittenImage(bm, f, bm.h);
    assert bm.rgb[..|bm.rgb|] == bm.rgb;
  }
}
