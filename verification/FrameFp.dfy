/** The whole-frame fingerprint: everything a frame shows, encoded without loss and
    digested, so that a frame identical to the last one need not be submitted. Float
    fields are their 32-bit patterns. */
module FrameFps {
  import opened Bytes
  import opened Fingerprints
  import opened Bands

  datatype Style = Style(family: Text, fontPx: u32, cellW: u32, cellH: u32, defaultFg: Rgb)

  datatype Vertex = Vertex(x: u32, y: u32, u: u32, v: u32, r: byte, g: byte, b: byte, a: byte)

  type Vertices = s: seq<Vertex> | |s| < 0x1_0000_0000_0000_0000 witness []

  datatype Mesh = Mesh(clip: PxRect, user: bool, textureId: u64, indices: WordList, vertices: Vertices)

  datatype Job = Draw(mesh: Mesh) | Callback(clip: PxRect)

  /** What a pane contributes: geometry, content fingerprints, and the cursor as it
      is drawn (`cursorStyle`, `fakeOff`), not as it is requested. */
  datatype PaneView = PaneView(
    id: u32, px: PxRect, titlePx: PxRect, termPx: PxRect, gridW: u32, gridH: u32,
    focused: bool, preedit: Text, cols: u16, cursorRow: u16, cursorCol: u16,
    visible: bool, blinking: bool, cursorStyle: byte, fakeOff: bool, rows: RowHashes)

  type RowHashes = s: seq<u64> | |s| < 0x1_0000 witness []
  type Meshes = s: seq<Mesh> | |s| < 0x1_0000_0000_0000_0000 witness []
  type Jobs = s: seq<Job> | |s| < 0x1_0000_0000_0000_0000 witness []
  type PaneViews = s: seq<PaneView> | |s| < 0x1_0000_0000_0000_0000 witness []

  datatype Scene = Scene(surfaceW: u32, surfaceH: u32, style: Style, meshes: Meshes, panes: PaneViews)

  function Flag(b: bool): byte { if b then 1 else 0 }

  function StyleBytes(s: Style): seq<byte> {
    Sized(s.family) + (Words([s.fontPx, s.cellW, s.cellH]) + RgbBytes(s.defaultFg))
  }

  function VertexBytes(v: Vertex): (s: seq<byte>) {
    Words([v.x, v.y, v.u, v.v]) + [v.r, v.g, v.b, v.a]
  }

  function Each<T>(enc: T -> seq<byte>, xs: seq<T>): seq<byte> {
    if xs == [] then [] else enc(xs[0]) + Each(enc, xs[1..])
  }

  function MeshBytes(m: Mesh): seq<byte> {
    RectBytes(m.clip) + ([Flag(m.user)] + (Word(m.textureId) +
      (SizedWords(m.indices) + (Word(|m.vertices|) + Each(VertexBytes, m.vertices)))))
  }

  function GeomWords(p: PaneView): seq<u64> {
    [p.id, p.px.x, p.px.y, p.px.w, p.px.h, p.titlePx.x, p.titlePx.y, p.titlePx.w, p.titlePx.h,
     p.termPx.x, p.termPx.y, p.termPx.w, p.termPx.h, p.gridW, p.gridH]
  }

  function CursorFlags(p: PaneView): seq<byte> {
    [Flag(p.visible), Flag(p.blinking), p.cursorStyle, Flag(p.fakeOff)]
  }

  function PaneBytes(p: PaneView): seq<byte> {
    Words(GeomWords(p)) + ([Flag(p.focused)] + (Sized(p.preedit) +
      (Words([p.cols, |p.rows|, p.cursorRow, p.cursorCol]) + (CursorFlags(p) + Words(p.rows)))))
  }

  function SceneBytes(s: Scene): seq<byte> {
    Words([s.surfaceW, s.surfaceH]) + (StyleBytes(s.style) +
      (Word(|s.meshes|) + (Each(MeshBytes, s.meshes) + (Word(|s.panes|) + Each(PaneBytes, s.panes)))))
  }

  // ---------------------------------------------------------------------------
  // Each part can be read off the front in one way only.

  /** Any two values of this encoding at the front of the same bytes are equal. */
  ghost predicate SelfDelimiting<T(!new)>(enc: T -> seq<byte>) {
    forall a: T, b: T, s: seq<byte>, t: seq<byte> :: enc(a) + s == enc(b) + t ==> a == b && s == t
  }

  lemma {:induction false} SplitEach<T(!new)>(enc: T -> seq<byte>, xs: seq<T>, s: seq<byte>, ys: seq<T>, t: seq<byte>)
    requires SelfDelimiting(enc) && |xs| == |ys| && Each(enc, xs) + s == Each(enc, ys) + t
    ensures xs == ys && s == t
    decreases |xs|
  {
    if xs == [] {
      assert [] + s == s && [] + t == t;
    } else {
      assert enc(xs[0]) + (Each(enc, xs[1..]) + s) == Each(enc, xs) + s;
      assert enc(ys[0]) + (Each(enc, ys[1..]) + t) == Each(enc, ys) + t;
      SplitEach(enc, xs[1..], s, ys[1..], t);
      assert xs == [xs[0]] + xs[1..] && ys == [ys[0]] + ys[1..];
    }
  }

  lemma SplitVertex(a: Vertex, s: seq<byte>, b: Vertex, t: seq<byte>)
    requires VertexBytes(a) + s == VertexBytes(b) + t
    ensures a == b && s == t
  {
    hide Words;
    var v: seq<u64>, w: seq<u64> := [a.x, a.y, a.u, a.v], [b.x, b.y, b.u, b.v];
    var c, d: seq<byte> := [a.r, a.g, a.b, a.a], [b.r, b.g, b.b, b.a];
    assert Words(v) + (c + s) == VertexBytes(a) + s;
    assert Words(w) + (d + t) == VertexBytes(b) + t;
    SplitWords(v, c + s, w, d + t);
    SplitFixed(c, s, d, t);
    assert v[0] == w[0] && v[1] == w[1] && v[2] == w[2] && v[3] == w[3];
    assert c[0] == d[0] && c[1] == d[1] && c[2] == d[2] && c[3] == d[3];
  }

  lemma VerticesDelimit()
    ensures SelfDelimiting(VertexBytes)
  {
    hide VertexBytes;
    forall a: Vertex, b: Vertex, s: seq<byte>, t: seq<byte> | VertexBytes(a) + s == VertexBytes(b) + t
      ensures a == b && s == t
    {
      SplitVertex(a, s, b, t);
    }
  }

  lemma SplitStyle(a: Style, s: seq<byte>, b: Style, t: seq<byte>)
    requires StyleBytes(a) + s == StyleBytes(b) + t
    ensures a == b && s == t
  {
    hide Words, Sized, RgbBytes;
    var v: seq<u64>, w: seq<u64> := [a.fontPx, a.cellW, a.cellH], [b.fontPx, b.cellW, b.cellH];
    var c, d := RgbBytes(a.defaultFg) + s, RgbBytes(b.defaultFg) + t;
    assert Sized(a.family) + (Words(v) + c) == StyleBytes(a) + s;
    assert Sized(b.family) + (Words(w) + d) == StyleBytes(b) + t;
    SplitSized(a.family, Words(v) + c, b.family, Words(w) + d);
    SplitWords(v, c, w, d);
    SplitRgb(a.defaultFg, s, b.defaultFg, t);
    assert v[0] == w[0] && v[1] == w[1] && v[2] == w[2];
  }

  lemma SplitFlag(a: bool, s: seq<byte>, b: bool, t: seq<byte>)
    requires [Flag(a)] + s == [Flag(b)] + t
    ensures a == b && s == t
  {
    SplitFixed([Flag(a)], s, [Flag(b)], t);
    assert [Flag(a)][0] == [Flag(b)][0];
  }

  lemma SplitMesh(a: Mesh, s: seq<byte>, b: Mesh, t: seq<byte>)
    requires MeshBytes(a) + s == MeshBytes(b) + t
    ensures a == b && s == t
  {
    hide RectBytes, Word, SizedWords, Each;
    var e, f := Each(VertexBytes, a.vertices) + s, Each(VertexBytes, b.vertices) + t;
    var g, h := Word(|a.vertices|) + e, Word(|b.vertices|) + f;
    var i, j := SizedWords(a.indices) + g, SizedWords(b.indices) + h;
    var k, l := Word(a.textureId) + i, Word(b.textureId) + j;
    assert RectBytes(a.clip) + ([Flag(a.user)] + k) == MeshBytes(a) + s;
    assert RectBytes(b.clip) + ([Flag(b.user)] + l) == MeshBytes(b) + t;
    SplitRect(a.clip, [Flag(a.user)] + k, b.clip, [Flag(b.user)] + l);
    SplitFlag(a.user, k, b.user, l);
    SplitWord(a.textureId, i, b.textureId, j);
    SplitSizedWords(a.indices, g, b.indices, h);
    SplitWord(|a.vertices|, e, |b.vertices|, f);
    VerticesDelimit();
    SplitEach(VertexBytes, a.vertices, s, b.vertices, t);
  }

  lemma MeshesDelimit()
    ensures SelfDelimiting(MeshBytes)
  {
    hide MeshBytes;
    forall a: Mesh, b: Mesh, s: seq<byte>, t: seq<byte> | MeshBytes(a) + s == MeshBytes(b) + t
      ensures a == b && s == t
    {
      SplitMesh(a, s, b, t);
    }
  }

  lemma GeomInjective(a: PaneView, b: PaneView)
    requires GeomWords(a) == GeomWords(b)
    ensures a.id == b.id && a.px == b.px && a.titlePx == b.titlePx && a.termPx == b.termPx
    ensures a.gridW == b.gridW && a.gridH == b.gridH
  {
    var v, w := GeomWords(a), GeomWords(b);
    assert v[0] == w[0] && v[1] == w[1] && v[2] == w[2] && v[3] == w[3] && v[4] == w[4];
    assert v[5] == w[5] && v[6] == w[6] && v[7] == w[7] && v[8] == w[8] && v[9] == w[9];
    assert v[10] == w[10] && v[11] == w[11] && v[12] == w[12] && v[13] == w[13] && v[14] == w[14];
  }

  lemma CursorInjective(a: PaneView, b: PaneView)
    requires CursorFlags(a) == CursorFlags(b)
    ensures a.visible == b.visible && a.blinking == b.blinking && a.cursorStyle == b.cursorStyle && a.fakeOff == b.fakeOff
  {
    var v, w := CursorFlags(a), CursorFlags(b);
    assert v[0] == w[0] && v[1] == w[1] && v[2] == w[2] && v[3] == w[3];
  }

  lemma SplitPane(a: PaneView, s: seq<byte>, b: PaneView, t: seq<byte>)
    requires PaneBytes(a) + s == PaneBytes(b) + t
    ensures a == b && s == t
  {
    hide Words, Sized, GeomWords, CursorFlags;
    var e, f := Words(a.rows) + s, Words(b.rows) + t;
    var g, h := CursorFlags(a) + e, CursorFlags(b) + f;
    var v: seq<u64>, w: seq<u64> := [a.cols, |a.rows|, a.cursorRow, a.cursorCol], [b.cols, |b.rows|, b.cursorRow, b.cursorCol];
    var i, j := Sized(a.preedit) + (Words(v) + g), Sized(b.preedit) + (Words(w) + h);
    assert Words(GeomWords(a)) + ([Flag(a.focused)] + i) == PaneBytes(a) + s;
    assert Words(GeomWords(b)) + ([Flag(b.focused)] + j) == PaneBytes(b) + t;
    assert |GeomWords(a)| == |GeomWords(b)| by { GeomSize(a); GeomSize(b); }
    SplitWords(GeomWords(a), [Flag(a.focused)] + i, GeomWords(b), [Flag(b.focused)] + j);
    GeomInjective(a, b);
    SplitFlag(a.focused, i, b.focused, j);
    SplitSized(a.preedit, Words(v) + g, b.preedit, Words(w) + h);
    SplitWords(v, g, w, h);
    assert v[0] == w[0] && v[1] == w[1] && v[2] == w[2] && v[3] == w[3];
    assert |CursorFlags(a)| == |CursorFlags(b)| by { CursorSize(a); CursorSize(b); }
    SplitFixed(CursorFlags(a), e, CursorFlags(b), f);
    CursorInjective(a, b);
    SplitWords(a.rows, s, b.rows, t);
  }

  lemma GeomSize(p: PaneView)
    ensures |GeomWords(p)| == 15
  {
  }

  lemma CursorSize(p: PaneView)
    ensures |CursorFlags(p)| == 4
  {
  }

  lemma PanesDelimit()
    ensures SelfDelimiting(PaneBytes)
  {
    hide PaneBytes;
    forall a: PaneView, b: PaneView, s: seq<byte>, t: seq<byte> | PaneBytes(a) + s == PaneBytes(b) + t
      ensures a == b && s == t
    {
      SplitPane(a, s, b, t);
    }
  }

  /** No two different frames are encoded alike: sizes, style, every vertex of every
      mesh and everything every pane shows can be read back from the bytes. */
  lemma SceneBytesInjective(a: Scene, b: Scene)
    requires SceneBytes(a) == SceneBytes(b)
    ensures a == b
  {
    hide Words, Word, StyleBytes, Each;
    var e, f := Each(PaneBytes, a.panes), Each(PaneBytes, b.panes);
    var g, h := Word(|a.panes|) + e, Word(|b.panes|) + f;
    var i, j := Each(MeshBytes, a.meshes) + g, Each(MeshBytes, b.meshes) + h;
    var k, l := Word(|a.meshes|) + i, Word(|b.meshes|) + j;
    var v: seq<u64>, w: seq<u64> := [a.surfaceW, a.surfaceH], [b.surfaceW, b.surfaceH];
    SplitWords(v, StyleBytes(a.style) + k, w, StyleBytes(b.style) + l);
    assert v[0] == w[0] && v[1] == w[1];
    SplitStyle(a.style, k, b.style, l);
    SplitWord(|a.meshes|, i, |b.meshes|, j);
    MeshesDelimit();
    SplitEach(MeshBytes, a.meshes, g, b.meshes, h);
    SplitWord(|a.panes|, e, |b.panes|, f);
    PanesDelimit();
    assert e + [] == e && f + [] == f;
    SplitEach(PaneBytes, a.panes, [], b.panes, []);
  }

  // ---------------------------------------------------------------------------

  datatype FrameFp = Hash(h: u64) | Unhashable

  function SameAs(a: FrameFp, b: FrameFp): bool {
    a.Hash? && b.Hash? && a.h == b.h
  }

  function CanSkip(prev: Option<FrameFp>, cur: FrameFp, deltasEmpty: bool): bool {
    deltasEmpty && prev.Some? && SameAs(prev.value, cur)
  }

  /** The meshes of a job list without callbacks. */
  function MeshesOf(jobs: seq<Job>): Option<seq<Mesh>> {
    if jobs == [] then Some([])
    else if jobs[0].Callback? then None
    else
      match MeshesOf(jobs[1..])
      case None => None
      case Some(ms) => Some([jobs[0].mesh] + ms)
  }

  lemma {:induction false} MeshesOfLength(jobs: seq<Job>)
    ensures MeshesOf(jobs).Some? <==> forall i :: 0 <= i < |jobs| ==> jobs[i].Draw?
    ensures MeshesOf(jobs).Some? ==>
              |MeshesOf(jobs).value| == |jobs| && forall i :: 0 <= i < |jobs| ==> MeshesOf(jobs).value[i] == jobs[i].mesh
    decreases |jobs|
  {
    if jobs != [] { MeshesOfLength(jobs[1..]); }
  }

  function Fingerprint(w: u32, h: u32, style: Style, jobs: Jobs, panes: PaneViews): FrameFp {
    MeshesOfLength(jobs);
    match MeshesOf(jobs)
    case None => Unhashable
    case Some(ms) => Hash(Digest(FNV_OFFSET, SceneBytes(Scene(w, h, style, ms, panes))))
  }

  /** A frame is skipped only when nothing was left to upload, neither frame contains
      a callback, and the two scenes are the same or collide in the digest. */
  lemma SkipIsSound(w1: u32, h1: u32, s1: Style, j1: Jobs, p1: PaneViews,
                    w2: u32, h2: u32, s2: Style, j2: Jobs, p2: PaneViews, deltasEmpty: bool)
    requires CanSkip(Some(Fingerprint(w1, h1, s1, j1, p1)), Fingerprint(w2, h2, s2, j2, p2), deltasEmpty)
    ensures deltasEmpty && MeshesOf(j1).Some? && MeshesOf(j2).Some?
    ensures |MeshesOf(j1).value| == |j1| && |MeshesOf(j2).value| == |j2|
    ensures var a := Scene(w1, h1, s1, MeshesOf(j1).value, p1);
            var b := Scene(w2, h2, s2, MeshesOf(j2).value, p2);
            a == b || (SceneBytes(a) != SceneBytes(b) &&
                       Digest(FNV_OFFSET, SceneBytes(a)) == Digest(FNV_OFFSET, SceneBytes(b)))
  {
    hide SceneBytes, Digest;
    MeshesOfLength(j1);
    MeshesOfLength(j2);
    var a, b := Scene(w1, h1, s1, MeshesOf(j1).value, p1), Scene(w2, h2, s2, MeshesOf(j2).value, p2);
    if SceneBytes(a) == SceneBytes(b) {
      SceneBytesInjective(a, b);
    }
  }

  /** And it is skipped whenever it can be: with nothing to upload, no callback in either
      frame, and one digest, as two equal frames have. Without a frame before, never. */
  lemma SkipIff(w1: u32, h1: u32, s1: Style, j1: Jobs, p1: PaneViews,
                w2: u32, h2: u32, s2: Style, j2: Jobs, p2: PaneViews, deltasEmpty: bool)
    ensures !CanSkip(None, Fingerprint(w2, h2, s2, j2, p2), deltasEmpty)
    ensures (forall i :: 0 <= i < |j1| ==> j1[i].Draw?) <==> MeshesOf(j1).Some? && |MeshesOf(j1).value| == |j1|
    ensures (forall i :: 0 <= i < |j2| ==> j2[i].Draw?) <==> MeshesOf(j2).Some? && |MeshesOf(j2).value| == |j2|
    ensures CanSkip(Some(Fingerprint(w1, h1, s1, j1, p1)), Fingerprint(w2, h2, s2, j2, p2), deltasEmpty) <==>
            deltasEmpty && (forall i :: 0 <= i < |j1| ==> j1[i].Draw?) && (forall i :: 0 <= i < |j2| ==> j2[i].Draw?) &&
            Digest(FNV_OFFSET, SceneBytes(Scene(w1, h1, s1, MeshesOf(j1).value, p1))) ==
            Digest(FNV_OFFSET, SceneBytes(Scene(w2, h2, s2, MeshesOf(j2).value, p2)))
  {
    hide SceneBytes, Digest;
    MeshesOfLength(j1);
    MeshesOfLength(j2);
  }

  // ---------------------------------------------------------------------------
  // The hashing loops.

  method HashStyle(h: Fnv, s: Style)
    requires h.Valid()
    modifies h
    ensures h.Valid() && h.fed == old(h.fed) + StyleBytes(s)
  {
    hide Digest, Word, Words;
    h.SizedBytes(s.family);
    h.EachU64([s.fontPx, s.cellW, s.cellH]);
    h.Colour(s.defaultFg);
  }

  method HashMesh(h: Fnv, m: Mesh)
    requires h.Valid()
    modifies h
    ensures h.Valid() && h.fed == old(h.fed) + MeshBytes(m)
  {
    hide Digest, Word, Words;
    h.EachU64([m.clip.x, m.clip.y, m.clip.w, m.clip.h]);
    h.Byte(Flag(m.user));
    h.U64(m.textureId);
    h.U64(|m.indices|);
    h.EachU64(m.indices);
    h.U64(|m.vertices|);
    HashVertices(h, m.vertices);
  }

  method HashVertices(h: Fnv, vs: seq<Vertex>)
    requires h.Valid()
    modifies h
    ensures h.Valid() && h.fed == old(h.fed) + Each(VertexBytes, vs)
  {
    hide Digest, Word, Words;
    assert vs[0..] == vs;
    for i := 0 to |vs|
      invariant h.Valid() && h.fed + Each(VertexBytes, vs[i..]) == old(h.fed) + Each(VertexBytes, vs)
    {
      var v := vs[i];
      h.EachU64([v.x, v.y, v.u, v.v]);
      h.Byte(v.r);
      h.Byte(v.g);
      h.Byte(v.b);
      h.Byte(v.a);
      assert vs[i..][0] == v && vs[i..][1..] == vs[i + 1..];
    }
    assert vs[|vs|..] == [];
  }

  /** Stops at the first callback: what a callback draws cannot be fingerprinted. */
  method HashJobs(h: Fnv, jobs: Jobs) returns (hashable: bool)
    requires h.Valid()
    modifies h
    ensures h.Valid() && (hashable <==> MeshesOf(jobs).Some?)
    ensures hashable ==> h.fed == old(h.fed) + (Word(|jobs|) + Each(MeshBytes, MeshesOf(jobs).value))
  {
    hide Digest, Word, Words, MeshBytes;
    h.U64(|jobs|);
    assert jobs[0..] == jobs;
    for i := 0 to |jobs|
      invariant h.Valid() && (MeshesOf(jobs).Some? <==> MeshesOf(jobs[i..]).Some?)
      invariant MeshesOf(jobs).Some? ==>
        h.fed + Each(MeshBytes, MeshesOf(jobs[i..]).value)
        == old(h.fed) + (Word(|jobs|) + Each(MeshBytes, MeshesOf(jobs).value))
    {
      assert jobs[i..][0] == jobs[i] && jobs[i..][1..] == jobs[i + 1..];
      if jobs[i].Callback? {
        return false;
      }
      HashMesh(h, jobs[i].mesh);
      if MeshesOf(jobs).Some? {
        ghost var ms := MeshesOf(jobs[i..]).value;
        assert ms[0] == jobs[i].mesh && ms[1..] == MeshesOf(jobs[i + 1..]).value;
      }
    }
    assert jobs[|jobs|..] == [];
    hashable := true;
  }

  method HashPane(h: Fnv, p: PaneView)
    requires h.Valid()
    modifies h
    ensures h.Valid() && h.fed == old(h.fed) + PaneBytes(p)
  {
    hide Digest, Word, Words;
    h.EachU64(GeomWords(p));
    h.Byte(Flag(p.focused));
    h.SizedBytes(p.preedit);
    h.EachU64([p.cols, |p.rows|, p.cursorRow, p.cursorCol]);
    h.Bytes(CursorFlags(p));
    h.EachU64(p.rows);
  }

  method HashPanes(h: Fnv, ps: PaneViews)
    requires h.Valid()
    modifies h
    ensures h.Valid() && h.fed == old(h.fed) + (Word(|ps|) + Each(PaneBytes, ps))
  {
    hide Digest, Word, Words, PaneBytes;
    h.U64(|ps|);
    assert ps[0..] == ps;
    for i := 0 to |ps|
      invariant h.Valid()
      invariant h.fed + Each(PaneBytes, ps[i..]) == old(h.fed) + (Word(|ps|) + Each(PaneBytes, ps))
    {
      HashPane(h, ps[i]);
      assert ps[i..][0] == ps[i] && ps[i..][1..] == ps[i + 1..];
    }
    assert ps[|ps|..] == [];
  }

  method FrameFingerprint(w: u32, ht: u32, style: Style, jobs: Jobs, panes: PaneViews) returns (fp: FrameFp)
    ensures fp == Fingerprint(w, ht, style, jobs, panes)
  {
    hide Digest, Word, Words, Each, StyleBytes;
    var h := new Fnv();
    h.EachU64([w, ht]);
    HashStyle(h, style);
    var hashable := HashJobs(h, jobs);
    if !hashable {
      return Unhashable;
    }
    HashPanes(h, panes);
    MeshesOfLength(jobs);
    assert h.fed == SceneBytes(Scene(w, ht, style, MeshesOf(jobs).value, panes));
    fp := Hash(h.h);
  }
}
