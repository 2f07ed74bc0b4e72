/** The cross-process clipboard payload: a strict length-prefixed codec for file
    paths, and the envelope that survives a padded buffer. */
module ClipboardCodec {
  import opened Bytes
  import opened LittleEndian
  import opened Utf8Text

  /** "MULCLIP1" */
  const MAGIC: seq<byte> := [0x4d, 0x55, 0x4c, 0x43, 0x4c, 0x49, 0x50, 0x31]

  datatype Mode = Copy | Cut

  datatype Item = Item(path: seq<byte>, isDir: bool)

  datatype Clip = Clip(fingerprint: seq<byte>, mode: Mode, items: seq<Item>)

  // ---------------------------------------------------------------------------

  function ModeByte(m: Mode): byte { if m == Copy then 0 else 1 }

  function ItemBytes(i: Item): seq<byte> {
    [if i.isDir then 1 else 0] + (Le32(|i.path| % TWO_32) + i.path)
  }

  function ItemsBytes(items: seq<Item>): seq<byte> {
    if items == [] then [] else ItemBytes(items[0]) + ItemsBytes(items[1..])
  }

  /** Where everything is on the wire: magic, mode, fingerprint with its length in two bytes,
      number of items in four, and each item as kind, length in four bytes, and path. */
  lemma WireLayout(c: Clip)
    requires InRange(c)
    ensures var s, n := Encoded(c), |c.fingerprint|;
            |s| >= 15 + n && s[..8] == [0x4d, 0x55, 0x4c, 0x43, 0x4c, 0x49, 0x50, 0x31] &&
            s[8] == (if c.mode == Copy then 0 else 1) && From16(s[9..11]) == n && s[11..11 + n] == c.fingerprint &&
            From32(s[11 + n..15 + n]) == |c.items| && s[15 + n..] == ItemsBytes(c.items)
  {
    hide Le16, Le32, From16, From32, Utf8, ItemsBytes;
    var s, n := Encoded(c), |c.fingerprint|;
    Le16Bijective(n, [0, 0]);
    ReadAfterWrite(|c.items|);
    assert s[9..11] == Le16(n) && s[11 + n..15 + n] == Le32(|c.items|);
  }

  lemma ItemLayout(i: Item)
    requires |i.path| < TWO_32
    ensures var s := ItemBytes(i);
            |s| == 5 + |i.path| && s[0] == (if i.isDir then 1 else 0) && From32(s[1..5]) == |i.path| && s[5..] == i.path
  {
    hide Le32, From32;
    ReadAfterWrite(|i.path|);
    assert ItemBytes(i)[1..5] == Le32(|i.path|);
  }

  /** The payload. Lengths are cast down to their fields' widths. */
  function Encoded(c: Clip): seq<byte> {
    MAGIC + ([ModeByte(c.mode)] + (Le16(|c.fingerprint| % TWO_16) + (c.fingerprint +
      (Le32(|c.items| % TWO_32) + ItemsBytes(c.items)))))
  }

  /** Clips whose lengths fit their fields and whose fingerprint is text. */
  predicate InRange(c: Clip) {
    |c.fingerprint| < TWO_16 && Utf8(c.fingerprint) && |c.items| < TWO_32 &&
    forall i :: 0 <= i < |c.items| ==> |c.items[i].path| < TWO_32
  }

  method Encode(c: Clip) returns (out: seq<byte>)
    ensures out == Encoded(c)
  {
    hide Le16, Le32, ItemsBytes, ItemBytes;
    out := MAGIC;
    out := out + [ModeByte(c.mode)];
    out := out + Le16(|c.fingerprint| % TWO_16);
    out := out + c.fingerprint;
    out := out + Le32(|c.items| % TWO_32);
    assert c.items[0..] == c.items;
    assert out + ItemsBytes(c.items) == Encoded(c);
    for i := 0 to |c.items|
      invariant out + ItemsBytes(c.items[i..]) == Encoded(c)
    {
      ghost var before := out;
      NextItem(c.items, i, before);
      out := out + [if c.items[i].isDir then 1 else 0];
      out := out + Le32(|c.items[i].path| % TWO_32);
      out := out + c.items[i].path;
    }
    assert ItemsBytes(c.items[|c.items|..]) == [] by { NoItems(c.items[|c.items|..]); }
    assert out + [] == out;
  }

  lemma NextItem(items: seq<Item>, i: nat, before: seq<byte>)
    requires i < |items|
    ensures before + ItemsBytes(items[i..]) ==
            before + [if items[i].isDir then 1 else 0] + Le32(|items[i].path| % TWO_32) + items[i].path + ItemsBytes(items[i + 1..])
  {
    hide Le32;
    assert items[i..][0] == items[i] && items[i..][1..] == items[i + 1..];
  }

  lemma NoItems(items: seq<Item>)
    requires items == []
    ensures ItemsBytes(items) == []
  {
  }

  // ---------------------------------------------------------------------------
  // The strict parser, as a function: every read may run out of bytes.

  /** One item at the front, and what follows it. */
  function ParseItem(s: seq<byte>): Option<(Item, seq<byte>)> {
    if |s| < 5 || s[0] > 1 then None
    else
      var len := From32(s[1..5]);
      if |s| < 5 + len then None else Some((Item(s[5..5 + len], s[0] == 1), s[5 + len..]))
  }

  function ParseItems(s: seq<byte>, n: nat): Option<(seq<Item>, seq<byte>)> {
    if n == 0 then Some(([], s))
    else
      match ParseItem(s)
      case None => None
      case Some(r) =>
        match ParseItems(r.1, n - 1)
        case None => None
        case Some(q) => Some(([r.0] + q.0, q.1))
  }

  /** The count and the items; nothing may be left over. */
  function ParseBody(mode: Mode, fp: seq<byte>, s: seq<byte>): Option<Clip> {
    if |s| < 4 then None
    else
      match ParseItems(s[4..], From32(s[..4]))
      case None => None
      case Some(r) => if r.1 == [] then Some(Clip(fp, mode, r.0)) else None
  }

  function Parse(s: seq<byte>): Option<Clip> {
    if |s| < 8 || s[..8] != MAGIC then None
    else if |s| < 9 || s[8] > 1 then None
    else if |s| < 11 then None
    else
      var len := From16(s[9..11]);
      if |s| < 11 + len || !Utf8(s[11..11 + len]) then None
      else ParseBody(if s[8] == 0 then Copy else Cut, s[11..11 + len], s[11 + len..])
  }

  lemma ParseItemOfBytes(i: Item, s: seq<byte>)
    requires |i.path| < TWO_32
    ensures ParseItem(ItemBytes(i) + s) == Some((i, s))
  {
    hide Le32, From32;
    var t := ItemBytes(i) + s;
    Le32Bijective(|i.path|, [0, 0, 0, 0]);
    assert t[1..5] == Le32(|i.path| % TWO_32);
    assert t[5..5 + |i.path|] == i.path && t[5 + |i.path|..] == s;
  }

  lemma {:induction false} ParseItemsOfBytes(items: seq<Item>, s: seq<byte>)
    requires forall i :: 0 <= i < |items| ==> |items[i].path| < TWO_32
    ensures ParseItems(ItemsBytes(items) + s, |items|) == Some((items, s))
    decreases |items|
  {
    if items == [] {
      assert ItemsBytes(items) + s == s;
    } else {
      hide ParseItem, ItemBytes;
      var rest := ItemsBytes(items[1..]) + s;
      assert ItemsBytes(items) + s == ItemBytes(items[0]) + rest;
      ParseItemOfBytes(items[0], rest);
      ParseItemsOfBytes(items[1..], s);
      assert items == [items[0]] + items[1..];
    }
  }

  /** Whatever fits comes back exactly, bytes of the paths included. */
  lemma RoundTrip(c: Clip)
    requires InRange(c)
    ensures Parse(Encoded(c)) == Some(c)
  {
    hide Le16, Le32, From16, From32, Utf8, ParseItems, ItemsBytes;
    var n := |c.fingerprint|;
    var t := Encoded(c);
    var body := Le32(|c.items| % TWO_32) + ItemsBytes(c.items);
    Le16Bijective(n, [0, 0]);
    Le32Bijective(|c.items|, [0, 0, 0, 0]);
    assert t[..8] == MAGIC && t[8] == ModeByte(c.mode) && t[9..11] == Le16(n % TWO_16);
    assert t[11..11 + n] == c.fingerprint && t[11 + n..] == body;
    assert body[..4] == Le32(|c.items| % TWO_32) && body[4..] == ItemsBytes(c.items);
    assert ItemsBytes(c.items) + [] == ItemsBytes(c.items);
    ParseItemsOfBytes(c.items, []);
  }

  lemma ItemOfParse(s: seq<byte>)
    ensures ParseItem(s).Some? ==>
              |ParseItem(s).value.0.path| < TWO_32 && s == ItemBytes(ParseItem(s).value.0) + ParseItem(s).value.1
  {
    if ParseItem(s).Some? {
      hide Le32, From32;
      var len := From32(s[1..5]);
      Le32Bijective(0, s[1..5]);
      assert s == [s[0]] + (s[1..5] + s[5..5 + len]) + s[5 + len..];
    }
  }

  lemma {:induction false} ItemsOfParse(s: seq<byte>, n: nat)
    ensures ParseItems(s, n).Some? ==>
              var (items, rest) := ParseItems(s, n).value;
              |items| == n && s == ItemsBytes(items) + rest && forall i :: 0 <= i < n ==> |items[i].path| < TWO_32
    decreases n
  {
    if n > 0 && ParseItem(s).Some? {
      hide ParseItem, ItemBytes;
      ItemOfParse(s);
      var (i, t) := ParseItem(s).value;
      ItemsOfParse(t, n - 1);
      if ParseItems(t, n - 1).Some? {
        var (items, rest) := ParseItems(t, n - 1).value;
        assert ([i] + items)[1..] == items;
        assert s == (ItemBytes(i) + ItemsBytes(items)) + rest;
      }
    } else if n == 0 {
      assert ItemsBytes([]) + s == s;
    }
  }

  lemma {:induction false} BodyIsStrict(mode: Mode, fp: seq<byte>, s: seq<byte>)
    requires ParseBody(mode, fp, s).Some?
    ensures var c := ParseBody(mode, fp, s).value;
            c == Clip(fp, mode, c.items) && |c.items| < TWO_32 &&
            (forall i :: 0 <= i < |c.items| ==> |c.items[i].path| < TWO_32) &&
            s == Le32(|c.items| % TWO_32) + ItemsBytes(c.items)
  {
    hide Le32, From32, ParseItems, ItemsBytes;
    var n := From32(s[..4]);
    Le32Bijective(0, s[..4]);
    ItemsOfParse(s[4..], n);
    var r := ParseItems(s[4..], n).value;
    assert s[4..] == ItemsBytes(r.0) + r.1;
    assert ItemsBytes(r.0) + [] == ItemsBytes(r.0);
    assert s == s[..4] + s[4..];
    assert n % TWO_32 == n;
  }

  lemma {:induction false} HeaderIsStrict(s: seq<byte>)
    requires Parse(s).Some?
    ensures |s| >= 11 && s[8] <= 1 && |s| >= 11 + From16(s[9..11]) as int
    ensures var n: int, mode := From16(s[9..11]), if s[8] == 0 then Copy else Cut;
            Utf8(s[11..11 + n]) && ParseBody(mode, s[11..11 + n], s[11 + n..]) == Parse(s) &&
            s == MAGIC + ([ModeByte(mode)] + (Le16(n) + (s[11..11 + n] + s[11 + n..])))
  {
    hide Le16, From16, Utf8, ParseBody;
    var n: int := From16(s[9..11]);
    Le16Bijective(0, s[9..11]);
  }

  /** Nothing is accepted but what the encoder writes: a payload that decodes is, byte
      for byte, the encoding of what it decodes to. */
  lemma {:induction false} ParseIsStrict(s: seq<byte>)
    ensures Parse(s).Some? ==> InRange(Parse(s).value) && Encoded(Parse(s).value) == s
  {
    if Parse(s).Some? {
      HeaderIsStrict(s);
      hide Le16, From16, Utf8, ParseBody, ItemsBytes, Parse, MAGIC, ModeByte, Encoded;
      var n: int := From16(s[9..11]);
      var mode, fp, body := if s[8] == 0 then Copy else Cut, s[11..11 + n], s[11 + n..];
      BodyIsStrict(mode, fp, body);
      Assemble(Clip(fp, mode, ParseBody(mode, fp, body).value.items), n, body);
    }
  }

  lemma {:induction false} Assemble(c: Clip, n: u16, body: seq<byte>)
    requires |c.fingerprint| == n && body == Le32(|c.items| % TWO_32) + ItemsBytes(c.items)
    ensures Encoded(c) == MAGIC + ([ModeByte(c.mode)] + (Le16(n) + (c.fingerprint + body)))
  {
    hide Le16, Le32, ItemsBytes, MAGIC, ModeByte;
  }

  /** The round trip works for exactly the clips that fit. */
  lemma RoundTripIffInRange(c: Clip)
    ensures Parse(Encoded(c)) == Some(c) <==> InRange(c)
  {
    ParseIsStrict(Encoded(c));
    if InRange(c) {
      RoundTrip(c);
    }
  }

  // ---------------------------------------------------------------------------

  /** `take`: the next `n` bytes, if there are that many. */
  method Take(s: seq<byte>, at: nat, n: nat) returns (r: Option<seq<byte>>, at': nat)
    requires at <= |s|
    ensures at + n <= |s| ==> r == Some(s[at..at + n]) && at' == at + n
    ensures at + n > |s| ==> r == None && at' == at
  {
    if at + n <= |s| {
      r, at' := Some(s[at..at + n]), at + n;
    } else {
      r, at' := None, at;
    }
  }

  method DecodeItem(s: seq<byte>, at: nat) returns (item: Option<Item>, at': nat)
    requires at <= |s|
    ensures at <= at' <= |s|
    ensures match ParseItem(s[at..])
            case None => item == None
            case Some(r) => item == Some(r.0) && s[at'..] == r.1
  {
    hide From32;
    at' := at;
    var tag, size, path;
    tag, at' := Take(s, at', 1);
    if tag == None || tag.value[0] > 1 { return None, at'; }
    size, at' := Take(s, at', 4);
    if size == None { return None, at'; }
    assert s[at..][1..5] == size.value;
    path, at' := Take(s, at', From32(size.value));
    if path == None { return None, at'; }
    assert s[at..][5..5 + From32(size.value)] == path.value;
    item := Some(Item(path.value, tag.value[0] == 1));
  }

  method DecodeItems(s: seq<byte>, start: nat, count: nat) returns (items: Option<seq<Item>>, at: nat)
    requires start <= |s|
    ensures start <= at <= |s|
    ensures match ParseItems(s[start..], count)
            case None => items == None
            case Some(r) => items == Some(r.0) && s[at..] == r.1
  {
    hide ParseItem;
    var out: seq<Item> := [];
    at := start;
    if ParseItems(s[start..], count).Some? {
      assert out + ParseItems(s[start..], count).value.0 == ParseItems(s[start..], count).value.0;
    }
    for i := 0 to count
      invariant start <= at <= |s|
      invariant match ParseItems(s[at..], count - i)
                case None => ParseItems(s[start..], count) == None
                case Some(q) => ParseItems(s[start..], count) == Some((out + q.0, q.1))
    {
      var item;
      ghost var was := at;
      item, at := DecodeItem(s, at);
      if item == None {
        return None, at;
      }
      ghost var more := ParseItems(s[at..], count - i - 1);
      if more.Some? {
        assert out + ([item.value] + more.value.0) == (out + [item.value]) + more.value.0;
      }
      out := out + [item.value];
    }
    assert out + [] == out;
    items := Some(out);
  }

  /** The cursor-driven decoder. */
  method Decode(s: seq<byte>) returns (c: Option<Clip>)
    ensures c == Parse(s)
  {
    hide From16, From32, Utf8, ParseItems;
    var at := 0;
    var magic, mode, size, fp, count, items;
    magic, at := Take(s, at, 8);
    if magic == None || magic.value != MAGIC { return None; }
    mode, at := Take(s, at, 1);
    if mode == None || mode.value[0] > 1 { return None; }
    size, at := Take(s, at, 2);
    if size == None { return None; }
    fp, at := Take(s, at, From16(size.value));
    if fp == None || !Utf8(fp.value) { return None; }
    ghost var body := s[at..];
    count, at := Take(s, at, 4);
    if count == None { return None; }
    assert body[..4] == count.value && body[4..] == s[at..];
    items, at := DecodeItems(s, at, From32(count.value));
    if items == None || at != |s| { return None; }
    c := Some(Clip(fp.value, if mode.value[0] == 0 then Copy else Cut, items.value));
  }

  // ---------------------------------------------------------------------------
  // The envelope.

  function Wrapped(p: seq<byte>): seq<byte> {
    Le32(|p| % TWO_32) + p
  }

  function Unwrap(s: seq<byte>): Option<seq<byte>> {
    if |s| < 4 || |s| < 4 + From32(s[..4]) then None else Some(s[4..4 + From32(s[..4])])
  }

  /** However much padding the buffer carries, the envelope gives back the payload,
      exactly when its length fits the length field. */
  lemma UnwrapIgnoresPadding(p: seq<byte>, pad: seq<byte>)
    ensures Unwrap(Wrapped(p) + pad) == Some(p) <==> |p| < TWO_32
  {
    hide Le32, From32;
    var s := Wrapped(p) + pad;
    Le32Bijective(|p| % TWO_32, [0, 0, 0, 0]);
    assert s[..4] == Le32(|p| % TWO_32);
    if |p| < TWO_32 {
      assert s[4..4 + |p|] == p;
    }
  }

  /** The whole way across, through any padded buffer: a clip comes back exactly when its
      parts fit their fields and its encoding fits the envelope. */
  lemma EnvelopeRoundTrip(c: Clip, pad: seq<byte>)
    ensures var u := Unwrap(Wrapped(Encoded(c)) + pad);
            u.Some? && Parse(u.value) == Some(c) <==> InRange(c) && |Encoded(c)| < TWO_32
  {
    hide Parse, Encoded, Unwrap, Wrapped;
    UnwrapIgnoresPadding(Encoded(c), pad);
    if InRange(c) {
      RoundTrip(c);
    }
    var u := Unwrap(Wrapped(Encoded(c)) + pad);
    if u.Some? {
      ParseIsStrict(u.value);
    }
  }
}
