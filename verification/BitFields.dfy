/** Bit fields of an unsigned word, and the stretching of a field's value over a byte. */
module BitFields {
  import opened Arithmetic
  import opened Bytes

  function BitAnd(a: nat, b: nat): nat {
    if a == 0 || b == 0 then 0 else (a % 2) * (b % 2) + 2 * BitAnd(a / 2, b / 2)
  }

  function TrailingZeros(m: nat): nat
    requires m > 0
  {
    if m % 2 == 1 then 0 else 1 + TrailingZeros(m / 2)
  }

  /** Shift and width of a channel mask; `None` when the channel does not exist. */
  function MaskShiftWidth(mask: u32): Option<(nat, nat)> {
    if mask == 0 then None
    else
      BitLenCoversZeros(mask);
      Some((TrailingZeros(mask), BitLen(mask) - TrailingZeros(mask)))
  }

  lemma {:induction false} BitLenCoversZeros(m: nat)
    requires m > 0
    ensures TrailingZeros(m) < BitLen(m)
  {
    if m % 2 == 0 { BitLenCoversZeros(m / 2); }
  }

  /** Stretch `v` of `0..=max` over `0..=255`, rounding to nearest, in 32-bit
      arithmetic that wraps. */
  function Stretch(v: nat, max: nat): byte
    requires max > 0
  {
    ((v * 255 + max / 2) % 0x1_0000_0000) / max % 256
  }

  /** The masked bits, moved down to bit 0. */
  function Field(px: nat, mask: nat, shift: nat): nat {
    Quot(BitAnd(px, mask), Pow2(shift))
  }

  function Quot(a: nat, b: nat): nat
    requires b > 0
  {
    a / b
  }

  /** One channel of a 32-bit pixel. The shift amount wraps at 32, which leaves a mask
      spanning the whole word with nothing. */
  function TakeChannel(px: u32, mask: u32): byte {
    match MaskShiftWidth(mask)
    case None => 0
    case Some((shift, width)) =>
      var max := Pow2(width % 32) - 1;
      if max == 0 then 0 else Stretch(Field(px, mask, shift), max)
  }

  lemma {:induction false} BitAndAtMost(a: nat, b: nat)
    ensures BitAnd(a, b) <= b
  {
    if a != 0 && b != 0 { BitAndAtMost(a / 2, b / 2); }
  }

  /** A masked value never exceeds its field. */
  lemma FieldInRange(px: u32, mask: u32)
    requires mask > 0
    ensures var (shift, width) := MaskShiftWidth(mask).value;
            Field(px, mask, shift) < Pow2(width)
  {
    var (shift, width) := MaskShiftWidth(mask).value;
    BitAndAtMost(px, mask);
    BitLenBounds(mask);
    Pow2Sum(shift, width);
    DivLess(BitAnd(px, mask), Pow2(shift), Pow2(width));
  }

  /** A whole field of ones at `shift`. */
  function FieldMask(shift: nat, width: nat): nat {
    Times(Pow2(width) - 1, Pow2(shift))
  }

  function Times(a: nat, b: nat): nat { a * b }

  lemma TimesDouble(a: nat, b: nat)
    ensures Times(a, 2 * b) == 2 * Times(a, b)
  {
  }

  /** Reading a contiguous field is shifting it down and cutting it off. */
  lemma {:induction false} ContiguousField(px: nat, shift: nat, width: nat)
    ensures Field(px, FieldMask(shift, width), shift) == px / Pow2(shift) % Pow2(width)
    decreases shift
  {
    if shift > 0 {
      hide BitAnd, Times;
      var m := FieldMask(shift - 1, width);
      TimesDouble(Pow2(width) - 1, Pow2(shift - 1));
      ContiguousField(px / 2, shift - 1, width);
      HalveFirst(px, Pow2(shift - 1));
      HalveFirst(2 * BitAnd(px / 2, m), Pow2(shift - 1));
    } else {
      assert FieldMask(0, width) == Pow2(width) - 1;
      LowField(px, width);
    }
  }

  lemma HalveFirst(a: nat, d: nat)
    requires d > 0
    ensures a / (2 * d) == a / 2 / d
  {
    var q := a / 2 / d;
    var r := a / 2 - d * q;
    assert 0 <= r < d;
    assert 2 * d * q <= a < 2 * d * (q + 1) by {
      assert a / 2 == d * q + r;
    }
    DivIs(a, 2 * d, q);
  }

  lemma {:induction false} LowField(px: nat, width: nat)
    ensures BitAnd(px, Pow2(width) - 1) == px % Pow2(width)
    decreases width
  {
    if width > 0 {
      var p := Pow2(width - 1);
      LowField(px / 2, width - 1);
      ModSplit(px, p);
      assert (Pow2(width) - 1) % 2 == 1 && (Pow2(width) - 1) / 2 == p - 1;
      assert px > 0 ==> BitAnd(px, Pow2(width) - 1) == px % 2 + 2 * BitAnd(px / 2, p - 1);
    }
  }

  lemma ModSplit(a: nat, p: nat)
    requires p > 0
    ensures a % (2 * p) == a % 2 + 2 * (a / 2 % p)
  {
    HalveFirst(a, p);
    var q := a / 2 / p;
    assert a / 2 == p * q + a / 2 % p;
    assert a == 2 * (a / 2) + a % 2;
    assert a == (2 * p) * q + (a % 2 + 2 * (a / 2 % p));
    assert a == (2 * p) * (a / (2 * p)) + a % (2 * p);
  }

  // ---------------------------------------------------------------------------

  /** As long as nothing wraps, which masks of up to 24 bits guarantee, the stretch is
      the nearest byte, keeps order and ends, and changes nothing for 8-bit fields. */
  lemma StretchIsNearest(v: nat, max: nat)
    requires 0 < max < 0x100_0000 && v <= max
    ensures var off: int := 2 * (max * Stretch(v, max) - v * 255);
            0 <= off + max && off <= max
  {
    hide Stretch;
    StretchIsQuotient(v, max);
    DivBelow(v * 255 + max / 2, max);
    assert max * (Stretch(v, max) as int + 1) == max * Stretch(v, max) + max;
  }

  /** Nothing maps to nothing, full to full, and a byte to itself. */
  lemma StretchEnds(v: nat, max: nat)
    requires 0 < max < 0x100_0000 && v <= max
    ensures v == 0 ==> Stretch(v, max) == 0
    ensures v == max ==> Stretch(v, max) == 255
    ensures max == 255 ==> Stretch(v, max) == v
  {
    hide Stretch;
    StretchIsQuotient(v, max);
    var n: int := v * 255 + max / 2;
    if v == 0 { DivIs(n, max, 0); }
    if v == max { DivIs(n, max, 255); }
    if max == 255 { DivIs(n, max, v); }
  }

  lemma StretchIsQuotient(v: nat, max: nat)
    requires 0 < max < 0x100_0000 && v <= max
    ensures Stretch(v, max) == (v * 255 + max / 2) / max
  {
    var n := v * 255 + max / 2;
    assert n < max * 256 && n % 0x1_0000_0000 == n;
    DivLess(n, max, 256);
    SmallMod(n / max);
  }

  lemma SmallMod(q: nat)
    requires q < 256
    ensures q % 256 == q
  {
  }

  lemma StretchMonotone(v: nat, w: nat, max: nat)
    requires 0 < max < 0x100_0000 && v <= w <= max
    ensures Stretch(v, max) <= Stretch(w, max)
  {
    StretchIsQuotient(v, max);
    StretchIsQuotient(w, max);
    DivMonotone(v * 255 + max / 2, w * 255 + max / 2, max);
  }

  /** A full 8-bit channel comes out as the byte it is. */
  lemma ByteChannel(px: u32, mask: u32, shift: nat)
    requires mask == FieldMask(shift, 8) && MaskShiftWidth(mask) == Some((shift, 8))
    ensures TakeChannel(px, mask) == px / Pow2(shift) % 256
  {
    hide Field, Pow2, FieldMask, MaskShiftWidth, Stretch;
    SmallPowers();
    ContiguousField(px, shift, 8);
    StretchEnds(px / Pow2(shift) % 256, 255);
  }

  /** Every mask gives a stretch of its field, save the one that spans the whole word,
      which gives nothing. */
  lemma ChannelIsStretch(px: u32, mask: u32, shift: nat, width: nat)
    requires MaskShiftWidth(mask) == Some((shift, width))
    ensures 1 <= width <= 32
    ensures width == 32 ==> TakeChannel(px, mask) == 0
    ensures width < 32 ==>
              0 < Pow2(width) - 1 && Field(px, mask, shift) <= Pow2(width) - 1 &&
              TakeChannel(px, mask) == Stretch(Field(px, mask, shift), Pow2(width) - 1)
  {
    FieldShape(px, mask, shift, width);
    MaskFits(mask);
    hide Field, Stretch, MaskShiftWidth, Pow2;
    TwoAtLeast(width);
    assert width % 32 == if width < 32 then width else 0;
  }

  lemma TwoAtLeast(width: nat)
    ensures Pow2(0) == 1 && (width >= 1 ==> Pow2(width) >= 2)
  {
  }

  lemma MaskFits(mask: u32)
    requires mask > 0
    ensures forall f :: MaskShiftWidth(mask) == Some(f) ==> f.1 <= 32
  {
    BitLenBounds(mask);
    WidePowers();
    if BitLen(mask) > 32 {
      Pow2Monotone(32, BitLen(mask) - 1);
    }
  }

  lemma FieldShape(px: u32, mask: u32, shift: nat, width: nat)
    requires MaskShiftWidth(mask) == Some((shift, width))
    ensures width >= 1 && Field(px, mask, shift) < Pow2(width)
  {
    FieldInRange(px, mask);
    BitLenCoversZeros(mask);
  }

  lemma FieldSize(width: nat)
    requires 1 <= width <= 24
    ensures 2 <= Pow2(width) <= 0x100_0000
  {
    SmallPowers();
    Pow2Monotone(1, width);
    Pow2Monotone(width, 24);
    assert Pow2(1) == 2;
  }

  lemma WidePowers()
    ensures Pow2(25) == 0x200_0000 && Pow2(26) == 0x400_0000 && Pow2(27) == 0x800_0000 && Pow2(28) == 0x1000_0000
    ensures Pow2(29) == 0x2000_0000 && Pow2(30) == 0x4000_0000 && Pow2(31) == 0x8000_0000 && Pow2(32) == 0x1_0000_0000
  {
    SmallPowers();
    assert Pow2(26) == 2 * Pow2(25);
    assert Pow2(28) == 2 * Pow2(27);
    assert Pow2(30) == 2 * Pow2(29);
  }

  /** Where the 32-bit product of a field of 25 to 31 bits first wraps: just before, the
      channel is not black, and one step on it is. */
  function LastBeforeWrap(max: u32): nat {
    (0xffff_ffff - max / 2) / 255
  }

  predicate Wraps(max: u32)
    requires max > 0
  {
    var v := LastBeforeWrap(max);
    v < max && Stretch(v, max) > 0 && Stretch(v + 1, max) == 0 && Stretch(max, max) < 128
  }

  lemma WideFieldsWrap(width: nat)
    requires 25 <= width <= 31
    ensures 0 < Pow2(width) - 1 < TWO_32 && Wraps(Pow2(width) - 1)
  {
    WidePowers();
    hide Stretch, Pow2, Wraps;
    Wrap25();
    Wrap26();
    Wrap27();
    Wrap28();
    Wrap29();
    Wrap30();
    Wrap31();
  }

  lemma Wrap25()
    ensures Wraps(0x1ff_ffff)
  {
    assert LastBeforeWrap(0x1ff_ffff) == 16777216;
    assert Stretch(16777216, 0x1ff_ffff) == 128;
    assert Stretch(0x1ff_ffff, 0x1ff_ffff) == 127;
  }

  lemma Wrap26()
    ensures Wraps(0x3ff_ffff)
  {
    assert LastBeforeWrap(0x3ff_ffff) == 16711422;
    assert Stretch(16711422, 0x3ff_ffff) == 63;
    assert Stretch(0x3ff_ffff, 0x3ff_ffff) == 63;
  }

  lemma Wrap27()
    ensures Wraps(0x7ff_ffff)
  {
    assert LastBeforeWrap(0x7ff_ffff) == 16579836;
    assert Stretch(16579836, 0x7ff_ffff) == 31;
    assert Stretch(0x7ff_ffff, 0x7ff_ffff) == 31;
  }

  lemma Wrap28()
    ensures Wraps(0xfff_ffff)
  {
    assert LastBeforeWrap(0xfff_ffff) == 16316664;
    assert Stretch(16316664, 0xfff_ffff) == 15;
    assert Stretch(0xfff_ffff, 0xfff_ffff) == 15;
  }

  lemma Wrap29()
    ensures Wraps(0x1fff_ffff)
  {
    assert LastBeforeWrap(0x1fff_ffff) == 15790320;
    assert Stretch(15790320, 0x1fff_ffff) == 7;
    assert Stretch(0x1fff_ffff, 0x1fff_ffff) == 7;
  }

  lemma Wrap30()
    ensures Wraps(0x3fff_ffff)
  {
    assert LastBeforeWrap(0x3fff_ffff) == 14737632;
    assert Stretch(14737632, 0x3fff_ffff) == 3;
    assert Stretch(0x3fff_ffff, 0x3fff_ffff) == 3;
  }

  lemma Wrap31()
    ensures Wraps(0x7fff_ffff)
  {
    assert LastBeforeWrap(0x7fff_ffff) == 12632256;
    assert Stretch(12632256, 0x7fff_ffff) == 1;
    assert Stretch(0x7fff_ffff, 0x7fff_ffff) == 1;
  }

  ghost predicate Nearest(v: nat, max: nat)
    requires max > 0
  {
    var off: int := 2 * (max * Stretch(v, max) - v * 255);
    0 <= off + max && off <= max
  }

  ghost predicate Faithful(max: nat)
    requires max > 0
  {
    forall v: nat :: v <= max ==> Nearest(v, max)
  }

  ghost predicate Ordered(max: nat)
    requires max > 0
  {
    forall v: nat, w: nat :: v <= w <= max ==> Stretch(v, max) <= Stretch(w, max)
  }

  /** A field's values come out as the nearest bytes, in order, and the full value as 255,
      if and only if the field is at most 24 bits wide. */
  lemma FaithfulIff(width: nat)
    requires 1 <= width <= 31
    ensures var max := Pow2(width) - 1;
            max > 0 &&
            (Faithful(max) <==> width <= 24) &&
            (Ordered(max) <==> width <= 24) &&
            (Stretch(max, max) == 255 <==> width <= 24)
  {
    hide Stretch;
    Pow2Monotone(1, width);
    var max := Pow2(width) - 1;
    if width <= 24 {
      FieldSize(width);
      forall v: nat | v <= max ensures Nearest(v, max) {
        StretchIsNearest(v, max);
      }
      forall v: nat, w: nat | v <= w <= max ensures Stretch(v, max) <= Stretch(w, max) {
        StretchMonotone(v, w, max);
      }
      StretchEnds(max, max);
    } else {
      WideFieldsWrap(width);
      var v := LastBeforeWrap(max);
      assert v <= v + 1 <= max && Stretch(v, max) > Stretch(v + 1, max);
      FullIsFar(max);
    }
  }

  lemma FullIsFar(max: nat)
    requires max > 0 && Stretch(max, max) < 128
    ensures !Nearest(max, max)
  {
    hide Stretch;
    var s := Stretch(max, max);
    MulMonotone(max, s, 127);
  }
}
