/** Little-endian 16- and 32-bit fields. */
module LittleEndian {
  import opened Bytes

  function Le16(v: u16): (s: seq<byte>)
    ensures |s| == 2
  {
    [v % 256, v / 256]
  }

  function Le32(v: u32): (s: seq<byte>)
    ensures |s| == 4
  {
    Le16(v % TWO_16) + Le16(v / TWO_16)
  }

  function From16(s: seq<byte>): u16
    requires |s| == 2
  {
    s[0] as int + 256 * s[1] as int
  }

  function From32(s: seq<byte>): u32
    requires |s| == 4
  {
    From16(s[..2]) + TWO_16 * From16(s[2..])
  }

  lemma Le16Bijective(v: u16, s: seq<byte>)
    requires |s| == 2
    ensures From16(Le16(v)) == v
    ensures Le16(From16(s)) == s
  {
  }

  lemma Le32Bijective(v: u32, s: seq<byte>)
    requires |s| == 4
    ensures From32(Le32(v)) == v
    ensures Le32(From32(s)) == s
  {
    ReadAfterWrite(v);
  }

  /** Low bytes first. */
  lemma Le32Digits(v: u32)
    ensures Le32(v) == [v % 0x100, v / 0x100 % 0x100, v / 0x1_0000 % 0x100, v / 0x100_0000]
  {
    var low, high := v % 0x1_0000, v / 0x1_0000;
    assert v == 0x1_0000 * high + low;
    assert v / 0x100 == 0x100 * high + low / 0x100;
  }

  lemma ReadAfterWrite(v: u32)
    ensures From32(Le32(v)) == v
  {
    hide Le16, From16;
    Le16Bijective(v % TWO_16, [0, 0]);
    Le16Bijective(v / TWO_16, [0, 0]);
    assert Le32(v)[..2] == Le16(v % TWO_16) && Le32(v)[2..] == Le16(v / TWO_16);
  }

}
