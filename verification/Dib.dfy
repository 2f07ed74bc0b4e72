/** Decoding a clipboard bitmap (a DIB of 24 or 32 bits per pixel) to RGB bytes. */
module Dibs {
  import opened Bytes
  import opened LittleEndian
  import opened BitFields

  datatype Error =
    | NoHeader | Incomplete | BadHeader(size: nat) | BadSize(w: int, h: int) | BadCompression(c: nat)
    | BadDepth(bits: nat) | NoMasks | Truncated

  datatype Result<T> = Ok(value: T) | Err(error: Error)

  datatype Bitmap = Bitmap(w: nat, h: nat, rgb: seq<byte>)

  function U16At(b: seq<byte>, off: nat): Option<u16> {
    if off + 2 <= |b| then Some(From16(b[off..off + 2])) else None
  }

  function U32At(b: seq<byte>, off: nat): Option<u32> {
    if off + 4 <= |b| then Some(From32(b[off..off + 4])) else None
  }

  /** The same 32 bits read as two's complement. */
  function Signed(v: u32): int {
    if v < TWO_31 then v else v as int - TWO_32
  }

  datatype Masks = Masks(r: u32, g: u32, b: u32)

  /** Everything the header decides. */
  datatype Layout = Layout(w: nat, h: nat, topDown: bool, depth: nat, masks: Masks, offset: nat)

  function BytesPerPx(depth: nat): nat { depth / 8 }

  /** Where row `n` starts when rows are `size` bytes apart. */
  function Start(n: nat, size: nat): nat { n * size }

  lemma StartInside(row: nat, n: nat, size: nat)
    requires row < n
    ensures Start(row + 1, size) == Start(row, size) + size <= Start(n, size)
  {
    assert (row + 1) * size <= n * size;
  }

  /** Rows are padded to four bytes. */
  function Stride(w: nat, depth: nat): nat {
    (w * BytesPerPx(depth) + 3) / 4 * 4
  }

  predicate SizeOk(w: int, h: int) {
    1 <= w <= 65535 && h != 0 && -65535 <= h <= 65535
  }

  function Abs(h: int): nat { if h < 0 then -h else h }

  function MasksOf(dib: seq<byte>, compression: nat, depth: nat): Option<Masks> {
    if compression == 3 then
      var r, g, b := U32At(dib, 40), U32At(dib, 44), U32At(dib, 48);
      if r.Some? && g.Some? && b.Some? then Some(Masks(r.value, g.value, b.value)) else None
    else if depth == 32 then Some(Masks(0x00ff_0000, 0x0000_ff00, 0x0000_00ff))
    else Some(Masks(0, 0, 0))
  }

  /** The header, with its refusals in the order they are made. */
  function Header(dib: seq<byte>): Result<Layout> {
    if U32At(dib, 0) == None then Err(NoHeader)
    else
      var size := U32At(dib, 0).value;
      var wd, ht, bits, comp := U32At(dib, 4), U32At(dib, 8), U16At(dib, 14), U32At(dib, 16);
      if size < 40 then Err(BadHeader(size))
      else if wd == None || ht == None || bits == None || comp == None then Err(Incomplete)
      else if !SizeOk(Signed(wd.value), Signed(ht.value)) then Err(BadSize(Signed(wd.value), Signed(ht.value)))
      else if comp.value != 0 && comp.value != 3 then Err(BadCompression(comp.value))
      else if bits.value != 24 && bits.value != 32 then Err(BadDepth(bits.value))
      else
        var masks := MasksOf(dib, comp.value, bits.value);
        if masks == None then Err(NoMasks)
        else
          Pixels(dib, Layout(Signed(wd.value), Abs(Signed(ht.value)), Signed(ht.value) < 0, bits.value, masks.value,
                             if comp.value == 3 && size == 40 then 52 else size))
  }

  function Pixels(dib: seq<byte>, lay: Layout): Result<Layout> {
    if lay.offset + Start(lay.h, Stride(lay.w, lay.depth)) <= |dib| then Ok(lay) else Err(Truncated)
  }

  /** A layout whose pixel rows lie inside the data. */
  ghost predicate Fits(dib: seq<byte>, lay: Layout) {
    1 <= lay.w <= 65535 && 1 <= lay.h <= 65535 && lay.depth in {24, 32} &&
    lay.offset + Start(lay.h, Stride(lay.w, lay.depth)) <= |dib|
  }

  lemma HeaderFits(dib: seq<byte>)
    ensures Header(dib).Ok? ==> Fits(dib, Header(dib).value)
  {
    hide From16, From32, Stride;
  }

  /** Row `y` of the picture, counted from the top, as it is stored. */
  function StoredRow(lay: Layout, y: nat): nat
    requires y < lay.h
  {
    if lay.topDown then y else lay.h - 1 - y
  }

  function PxAt(lay: Layout, x: nat, y: nat): nat
    requires y < lay.h
  {
    lay.offset + Start(StoredRow(lay, y), Stride(lay.w, lay.depth)) + x * BytesPerPx(lay.depth)
  }

  lemma StrideHoldsRow(w: nat, depth: nat)
    requires depth in {24, 32}
    ensures w * BytesPerPx(depth) <= Stride(w, depth) < w * BytesPerPx(depth) + 4 && Stride(w, depth) % 4 == 0
  {
    assert BytesPerPx(24) == 3 && BytesPerPx(32) == 4;
  }

  lemma PxInside(dib: seq<byte>, lay: Layout, x: nat, y: nat)
    requires Fits(dib, lay) && x < lay.w && y < lay.h
    ensures PxAt(lay, x, y) + BytesPerPx(lay.depth) <= |dib|
  {
    hide Stride;
    StrideHoldsRow(lay.w, lay.depth);
    StartInside(StoredRow(lay, y), lay.h, Stride(lay.w, lay.depth));
    assert BytesPerPx(24) == 3 && BytesPerPx(32) == 4;
  }

  /** The three bytes of a pixel, for either depth. */
  function PixelOf(dib: seq<byte>, lay: Layout, x: nat, y: nat): (px: seq<byte>)
    requires Fits(dib, lay) && x < lay.w && y < lay.h
    ensures |px| == 3
  {
    PxInside(dib, lay, x, y);
    var at := PxAt(lay, x, y);
    if lay.depth == 24 then [dib[at + 2], dib[at + 1], dib[at]]
    else
      var v := From32(dib[at..at + 4]);
      [TakeChannel(v, lay.masks.r), TakeChannel(v, lay.masks.g), TakeChannel(v, lay.masks.b)]
  }

  function RowOf(dib: seq<byte>, lay: Layout, y: nat, n: nat): (s: seq<byte>)
    requires Fits(dib, lay) && y < lay.h && n <= lay.w
    ensures |s| == 3 * n
  {
    if n == 0 then [] else RowOf(dib, lay, y, n - 1) + PixelOf(dib, lay, n - 1, y)
  }

  function Image(dib: seq<byte>, lay: Layout, n: nat): (s: seq<byte>)
    requires Fits(dib, lay) && n <= lay.h
    ensures |s| == Start(n, 3 * lay.w)
  {
    if n == 0 then []
    else
      StartInside(n - 1, n, 3 * lay.w);
      Image(dib, lay, n - 1) + RowOf(dib, lay, n - 1, lay.w)
  }

  /** The specified decoding. */
  function Decoded(dib: seq<byte>): Result<Bitmap> {
    HeaderFits(dib);
    match Header(dib)
    case Err(e) => Err(e)
    case Ok(lay) => Ok(Bitmap(lay.w, lay.h, Image(dib, lay, lay.h)))
  }

  /** Decoding is total and loses no place: an error, or exactly three bytes for every
      pixel of the stated size. */
  lemma DecodedSize(dib: seq<byte>)
    ensures Decoded(dib).Ok? ==>
              var bm := Decoded(dib).value;
              1 <= bm.w <= 65535 && 1 <= bm.h <= 65535 && |bm.rgb| == Start(bm.h, 3 * bm.w)
  {
    HeaderFits(dib);
  }

  /** What a readable bitmap is, on its bytes. */
  ghost predicate Readable(dib: seq<byte>) {
    |dib| >= 20 &&
    var size, w, h := From32(dib[0..4]), From32(dib[4..8]), From32(dib[8..12]);
    var depth, comp := From16(dib[14..16]), From32(dib[16..20]);
    var rows := if h < 0x8000_0000 then h else 0x1_0000_0000 - h;
    size >= 40 && 1 <= w <= 65535 && 1 <= rows <= 65535 && (depth == 24 || depth == 32) &&
    (comp == 0 || (comp == 3 && |dib| >= 52)) &&
    (if comp == 3 && size == 40 then 52 else size as int) + Start(rows, Stride(w, depth)) <= |dib|
  }

  /** Nothing else is refused, and nothing else accepted. */
  lemma AcceptedIff(dib: seq<byte>)
    ensures Decoded(dib).Ok? <==> Readable(dib)
  {
    hide From16, From32, Stride, Image, Start;
  }

  lemma {:induction false} RowAt(dib: seq<byte>, lay: Layout, y: nat, n: nat, x: nat)
    requires Fits(dib, lay) && y < lay.h && x < n <= lay.w
    ensures RowOf(dib, lay, y, n)[3 * x..3 * x + 3] == PixelOf(dib, lay, x, y)
    decreases n
  {
    hide PixelOf;
    if x < n - 1 {
      RowAt(dib, lay, y, n - 1, x);
      assert RowOf(dib, lay, y, n)[..3 * (n - 1)] == RowOf(dib, lay, y, n - 1);
    }
  }

  lemma {:induction false} ImageAt(dib: seq<byte>, lay: Layout, n: nat, y: nat)
    requires Fits(dib, lay) && y < n <= lay.h
    ensures Start(y, 3 * lay.w) + 3 * lay.w <= |Image(dib, lay, n)|
    ensures Image(dib, lay, n)[Start(y, 3 * lay.w)..Start(y, 3 * lay.w) + 3 * lay.w] == RowOf(dib, lay, y, lay.w)
    decreases n
  {
    hide RowOf, Start;
    StartInside(y, n, 3 * lay.w);
    if y < n - 1 {
      ImageAt(dib, lay, n - 1, y);
      assert Image(dib, lay, n)[..|Image(dib, lay, n - 1)|] == Image(dib, lay, n - 1);
    }
  }

  /** Each output pixel is the stored pixel at its place: the row found by the flip and
      the four-byte stride, the column by the pixel size. */
  lemma PixelIsExact(dib: seq<byte>, lay: Layout, x: nat, y: nat)
    requires Header(dib) == Ok(lay) && Fits(dib, lay) && x < lay.w && y < lay.h
    ensures var rgb, at := Decoded(dib).value.rgb, Start(y, 3 * lay.w) + 3 * x;
            at + 3 <= |rgb| && rgb[at..at + 3] == PixelOf(dib, lay, x, y)
  {
    hide PixelOf, Header, Start;
    ImageAt(dib, lay, lay.h, y);
    RowAt(dib, lay, y, lay.w, x);
    SubSlice(Image(dib, lay, lay.h), Start(y, 3 * lay.w), 3 * lay.w, 3 * x, 3);
  }

  /** Three bytes inside a row inside the picture. */
  lemma SubSlice(s: seq<byte>, a: nat, n: nat, b: nat, m: nat)
    requires a + n <= |s| && b + m <= n
    ensures s[a..a + n][b..b + m] == s[a + b..a + b + m]
  {
    var t := s[a..a + n];
    var u, v := t[b..b + m], s[a + b..a + b + m];
    forall i | 0 <= i < m ensures u[i] == v[i] {
      assert u[i] == t[b + i] == s[a + (b + i)];
    }
  }

  /** The nested row and column loops. */
  method DibToBitmap(dib: seq<byte>) returns (r: Result<Bitmap>)
    ensures r == Decoded(dib)
  {
    hide Header, PixelOf, Stride;
    var header := Header(dib);
    if header.Err? {
      return Err(header.error);
    }
    var lay := header.value;
    HeaderFits(dib);
    var rgb: seq<byte> := [];
    for y := 0 to lay.h
      invariant rgb == Image(dib, lay, y)
    {
      var row := RowLoop(dib, lay, y);
      rgb := rgb + row;
    }
    r := Ok(Bitmap(lay.w, lay.h, rgb));
  }

  method RowLoop(dib: seq<byte>, lay: Layout, y: nat) returns (row: seq<byte>)
    requires Fits(dib, lay) && y < lay.h
    ensures row == RowOf(dib, lay, y, lay.w)
  {
    hide Stride, TakeChannel, From32, Start;
    var stride, bpp := Stride(lay.w, lay.depth), BytesPerPx(lay.depth);
    var rowIx := if lay.topDown then y else lay.h - 1 - y;
    var start := lay.offset + Start(rowIx, stride);
    row := [];
    for x := 0 to lay.w
      invariant row == RowOf(dib, lay, y, x)
    {
      PxInside(dib, lay, x, y);
      assert BytesPerPx(24) == 3 && BytesPerPx(32) == 4;
      var p := start + x * bpp;
      if lay.depth == 24 {
        row := row + [dib[p + 2], dib[p + 1], dib[p]];
      } else {
        var v := From32(dib[p..p + 4]);
        row := row + [TakeChannel(v, lay.masks.r), TakeChannel(v, lay.masks.g), TakeChannel(v, lay.masks.b)];
      }
    }
  }
}
