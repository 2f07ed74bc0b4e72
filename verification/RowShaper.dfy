/** The text layer's use of the shaping cache: one frame walks every visible row,
    reusing, shaping or shaping aside; a font change clears the cache. What is drawn
    must always be what shaping the row from scratch would give. */
module RowShapers {
  import opened Bytes
  import opened ShapedCaches

  /** A shaped run living in a reusable buffer. */
  datatype Buf<G> = Buf(shaped: G)

  /** A visible row: its content, the cells to shape when the row is drawn aside
      (preedit hole, blinked-off cursor cell), its pane's width. */
  datatype RowReq<C> = RowReq(content: C, drawn: C, termW: u32, aside: bool)

  type Hash<!C> = C -> u64
  type Shape<!F, !C, !G> = (F, C, u32) -> seq<G>

  function KeyOf<C>(hash: Hash<C>, r: RowReq<C>): ShapeKey {
    ShapeKey(hash(r.content), r.termW)
  }

  /** Shaping with no cache at all. */
  function FromScratch<F, C, G>(shape: Shape<F, C, G>, font: F, r: RowReq<C>): seq<G> {
    if r.aside then shape(font, r.drawn, r.termW) else shape(font, r.content, r.termW)
  }

  function Texts<G>(runs: seq<CachedRun<Buf<G>>>): (ts: seq<G>)
    ensures |ts| == |runs| && forall i :: 0 <= i < |runs| ==> ts[i] == runs[i].payload.shaped
  {
    seq(|runs|, i requires 0 <= i < |runs| => runs[i].payload.shaped)
  }

  /** The fingerprint decides the shaping: rows with equal fingerprints shape alike. */
  ghost predicate KeyDecides<F(!new), C(!new), G>(hash: Hash<C>, shape: Shape<F, C, G>) {
    forall f: F, c: C, d: C, w: u32 :: hash(c) == hash(d) ==> shape(f, c, w) == shape(f, d, w)
  }

  // ---------------------------------------------------------------------------
  // What the cache makes of a row, and whether that is right.

  /** The shaped text in the cache, by key. */
  function Store<G>(rows: map<ShapeKey, CachedRow<Buf<G>>>): map<ShapeKey, seq<G>> {
    map k | k in rows :: Texts(rows[k].runs)
  }

  /** What is drawn for a row, given what is known: aside rows are shaped aside, known
      keys are reused, and anything else is shaped. */
  function Shown<F, C, G>(hash: Hash<C>, shape: Shape<F, C, G>, font: F, known: map<ShapeKey, seq<G>>, r: RowReq<C>): seq<G> {
    if !r.aside && KeyOf(hash, r) in known then known[KeyOf(hash, r)] else FromScratch(shape, font, r)
  }

  function Learn<F, C, G>(hash: Hash<C>, shape: Shape<F, C, G>, font: F, known: map<ShapeKey, seq<G>>, r: RowReq<C>)
    : map<ShapeKey, seq<G>>
  {
    if r.aside || KeyOf(hash, r) in known then known else known[KeyOf(hash, r) := FromScratch(shape, font, r)]
  }

  /** The rows of a frame in turn: what is drawn, and what is known afterwards. */
  function ShownRows<F, C, G>(hash: Hash<C>, shape: Shape<F, C, G>, font: F, known: map<ShapeKey, seq<G>>, rs: seq<RowReq<C>>)
    : (res: (seq<seq<G>>, map<ShapeKey, seq<G>>))
    ensures |res.0| == |rs|
  {
    if rs == [] then ([], known)
    else
      var n := |rs| - 1;
      var before := ShownRows(hash, shape, font, known, rs[..n]);
      (before.0 + [Shown(hash, shape, font, before.1, rs[n])], Learn(hash, shape, font, before.1, rs[n]))
  }

  function Keep<G>(known: map<ShapeKey, seq<G>>, keys: set<ShapeKey>): map<ShapeKey, seq<G>> {
    map k | k in known && k in keys :: known[k]
  }

  datatype Op<F, C> = Show(rows: seq<RowReq<C>>) | Font(font: F)

  /** A whole run: each frame keeps what it used; a new font keeps nothing. */
  ghost function ShownRun<F, C, G>(hash: Hash<C>, shape: Shape<F, C, G>, font: F, known: map<ShapeKey, seq<G>>,
                                   ops: seq<Op<F, C>>): seq<seq<seq<G>>>
    decreases |ops|
  {
    if ops == [] then []
    else
      match ops[0]
      case Show(rows) =>
        var r := ShownRows(hash, shape, font, known, rows);
        [r.0] + ShownRun(hash, shape, font, Keep(r.1, Keys(hash, rows)), ops[1..])
      case Font(f) => ShownRun(hash, shape, f, if f == font then known else map[], ops[1..])
  }

  /** What a run should put on screen: every row of every frame shaped from scratch in
      the font of the moment. */
  ghost function Reference<F, C, G>(shape: Shape<F, C, G>, font: F, ops: seq<Op<F, C>>): seq<seq<seq<G>>>
    decreases |ops|
  {
    if ops == [] then []
    else
      match ops[0]
      case Show(rows) => [AllFromScratch(shape, font, rows)] + Reference(shape, font, ops[1..])
      case Font(f) => Reference(shape, f, ops[1..])
  }

  function AllFromScratch<F, C, G>(shape: Shape<F, C, G>, font: F, rs: seq<RowReq<C>>): seq<seq<G>> {
    if rs == [] then []
    else AllFromScratch(shape, font, rs[..|rs| - 1]) + [FromScratch(shape, font, rs[|rs| - 1])]
  }

  /** Each entry is what its key's content shapes to in the current font. */
  ghost predicate Faithful<F(!new), C(!new), G>(hash: Hash<C>, shape: Shape<F, C, G>, font: F, known: map<ShapeKey, seq<G>>) {
    forall k :: k in known ==> exists c: C :: hash(c) == k.hash && known[k] == shape(font, c, k.termW)
  }

  lemma RowRight<F(!new), C(!new), G>(hash: Hash<C>, shape: Shape<F, C, G>, font: F, known: map<ShapeKey, seq<G>>, r: RowReq<C>)
    requires KeyDecides(hash, shape) && Faithful(hash, shape, font, known)
    ensures Shown(hash, shape, font, known, r) == FromScratch(shape, font, r)
    ensures Faithful(hash, shape, font, Learn(hash, shape, font, known, r))
  {
  }

  lemma {:induction false} RowsRight<F(!new), C(!new), G>(hash: Hash<C>, shape: Shape<F, C, G>, font: F,
                                                         known: map<ShapeKey, seq<G>>, rs: seq<RowReq<C>>)
    requires KeyDecides(hash, shape) && Faithful(hash, shape, font, known)
    ensures ShownRows(hash, shape, font, known, rs).0 == AllFromScratch(shape, font, rs)
    ensures Faithful(hash, shape, font, ShownRows(hash, shape, font, known, rs).1)
    decreases |rs|
  {
    if rs != [] {
      hide KeyDecides, Faithful, Shown, Learn, FromScratch;
      var n := |rs| - 1;
      RowsRight(hash, shape, font, known, rs[..n]);
      RowRight(hash, shape, font, ShownRows(hash, shape, font, known, rs[..n]).1, rs[n]);
    }
  }

  lemma {:induction false} ScratchAt<F, C, G>(shape: Shape<F, C, G>, font: F, rs: seq<RowReq<C>>, i: nat)
    requires i < |rs|
    ensures |AllFromScratch(shape, font, rs)| == |rs|
    ensures AllFromScratch(shape, font, rs)[i] == shape(font, if rs[i].aside then rs[i].drawn else rs[i].content, rs[i].termW)
    decreases |rs|
  {
    var n := |rs| - 1;
    if i < n {
      ScratchAt(shape, font, rs[..n], i);
    } else if n > 0 {
      ScratchAt(shape, font, rs[..n], 0);
    }
  }

  /** Each row of a frame shows its own cells at its own width: what is to be drawn for rows
      drawn aside, their content for the others. */
  lemma EachRowShowsItself<F(!new), C(!new), G>(hash: Hash<C>, shape: Shape<F, C, G>, font: F,
                                               known: map<ShapeKey, seq<G>>, rs: seq<RowReq<C>>, i: nat)
    requires KeyDecides(hash, shape) && Faithful(hash, shape, font, known) && i < |rs|
    ensures ShownRows(hash, shape, font, known, rs).0[i]
            == shape(font, if rs[i].aside then rs[i].drawn else rs[i].content, rs[i].termW)
  {
    hide KeyDecides, Faithful, ShownRows;
    RowsRight(hash, shape, font, known, rs);
    ScratchAt(shape, font, rs, i);
  }

  lemma {:induction false} RunRight<F(!new), C(!new), G>(hash: Hash<C>, shape: Shape<F, C, G>, font: F,
                                                        known: map<ShapeKey, seq<G>>, ops: seq<Op<F, C>>)
    requires KeyDecides(hash, shape) && Faithful(hash, shape, font, known)
    ensures ShownRun(hash, shape, font, known, ops) == Reference(shape, font, ops)
    decreases |ops|
  {
    if ops != [] {
      match ops[0]
      case Show(rows) =>
        RowsRight(hash, shape, font, known, rows);
        RunRight(hash, shape, font, Keep(ShownRows(hash, shape, font, known, rows).1, Keys(hash, rows)), ops[1..]);
      case Font(f) =>
        RunRight(hash, shape, f, if f == font then known else map[], ops[1..]);
    }
  }

  lemma NextShown<F, C, G>(hash: Hash<C>, shape: Shape<F, C, G>, font: F, known: map<ShapeKey, seq<G>>, rs: seq<RowReq<C>>,
                           r: RowReq<C>)
    ensures var before := ShownRows(hash, shape, font, known, rs);
            ShownRows(hash, shape, font, known, rs + [r]) ==
              (before.0 + [Shown(hash, shape, font, before.1, r)], Learn(hash, shape, font, before.1, r))
  {
    assert (rs + [r])[..|rs|] == rs;
  }

  /** Two rows of one fingerprint that shape differently: shown one after the other, the
      second is drawn wrong. */
  lemma CollisionShows<F(!new), C(!new), G>(hash: Hash<C>, shape: Shape<F, C, G>, font: F, c: C, d: C, w: u32)
    requires hash(c) == hash(d) && shape(font, c, w) != shape(font, d, w)
    ensures var ops: seq<Op<F, C>> := [Show([RowReq(c, c, w, false), RowReq(d, d, w, false)])];
            ShownRun(hash, shape, font, map[], ops) != Reference(shape, font, ops)
  {
    var p, q := RowReq(c, c, w, false), RowReq(d, d, w, false);
    var none: map<ShapeKey, seq<G>> := map[];
    assert [p, q][..1] == [p] && [p][..0] == [];
    NextShown(hash, shape, font, none, [], p);
    NextShown(hash, shape, font, none, [p], q);
    assert [] + [p] == [p] && [p] + [q] == [p, q];
    assert AllFromScratch(shape, font, [p]) == [shape(font, c, w)];
    assert AllFromScratch(shape, font, [p, q]) == [shape(font, c, w)] + [shape(font, d, w)];
    var ops: seq<Op<F, C>> := [Show([p, q])];
    assert ShownRun(hash, shape, font, none, ops)[0] == ShownRows(hash, shape, font, none, [p, q]).0;
    assert Reference(shape, font, ops)[0] == AllFromScratch(shape, font, [p, q]);
    assert ShownRun(hash, shape, font, none, ops)[0][1] != Reference(shape, font, ops)[0][1];
  }

  /** The cache is invisible, over all runs of frames and font changes, if and only if
      rows with equal fingerprints shape alike. */
  lemma CacheIsInvisibleIff<F(!new), C(!new), G>(hash: Hash<C>, shape: Shape<F, C, G>)
    ensures KeyDecides(hash, shape) <==>
            forall font: F, ops: seq<Op<F, C>> :: ShownRun(hash, shape, font, map[], ops) == Reference(shape, font, ops)
  {
    if KeyDecides(hash, shape) {
      forall font: F, ops: seq<Op<F, C>> ensures ShownRun(hash, shape, font, map[], ops) == Reference(shape, font, ops) {
        RunRight(hash, shape, font, map[], ops);
      }
    } else {
      var f: F, c: C, d: C, w: u32 :| hash(c) == hash(d) && shape(f, c, w) != shape(f, d, w);
      CollisionShows(hash, shape, f, c, d, w);
    }
  }

  // ---------------------------------------------------------------------------
  // What a frame costs.

  /** The keys a frame uses: aside rows neither read nor write the cache. */
  function Keys<C>(hash: Hash<C>, rs: seq<RowReq<C>>): set<ShapeKey> {
    if rs == [] then {}
    else
      var r := rs[|rs| - 1];
      Keys(hash, rs[..|rs| - 1]) + (if r.aside then {} else {KeyOf(hash, r)})
  }

  /** How many buffers a frame needs on top of what the cache already holds. */
  function Need<F, C, G>(hash: Hash<C>, shape: Shape<F, C, G>, font: F, known: set<ShapeKey>, rs: seq<RowReq<C>>): nat {
    if rs == [] then 0
    else
      var n := |rs| - 1;
      var r := rs[n];
      Need(hash, shape, font, known, rs[..n]) +
      (if r.aside || KeyOf(hash, r) in known + Keys(hash, rs[..n]) then 0 else |FromScratch(shape, font, r)|)
  }

  lemma NextRow<F, C, G>(hash: Hash<C>, shape: Shape<F, C, G>, font: F, known: set<ShapeKey>, rs: seq<RowReq<C>>, i: nat)
    requires i < |rs|
    ensures Keys(hash, rs[..i + 1]) == Keys(hash, rs[..i]) + (if rs[i].aside then {} else {KeyOf(hash, rs[i])})
    ensures Need(hash, shape, font, known, rs[..i + 1])
            == Need(hash, shape, font, known, rs[..i]) +
               (if rs[i].aside || KeyOf(hash, rs[i]) in known + Keys(hash, rs[..i]) then 0
                else |FromScratch(shape, font, rs[i])|)
  {
    assert rs[..i + 1][..i] == rs[..i];
  }

  function Minus(a: nat, b: nat): nat {
    if a < b then 0 else a - b
  }

  function Min(a: nat, b: nat): nat {
    if a < b then a else b
  }

  /** Exactly the keys in `used` carry the current stamp. */
  ghost predicate Stamped<G>(rows: map<ShapeKey, CachedRow<Buf<G>>>, frame: u64, used: set<ShapeKey>) {
    forall k :: k in rows ==> (rows[k].lastSeen == frame <==> k in used)
  }

  /** `need` buffers were taken: from the pool while it lasted, then allocated; all
      of them are in the cache now. */
  ghost predicate Spent(allocs: nat, poolBefore: nat, poolAfter: nat, heldBefore: nat, heldAfter: nat, need: nat) {
    allocs == Minus(need, poolBefore) && poolAfter == Minus(poolBefore, need) && heldAfter == heldBefore + need
  }

  /** What drawing one row does to the cache and the pool: an aside row leaves the
      cache alone, any other row leaves its key stamped, and only a missed row takes
      buffers. */
  ghost predicate RowDone<F, C, G>(hash: Hash<C>, shape: Shape<F, C, G>, font: F, r: RowReq<C>, frame: u64,
                                   a: map<ShapeKey, CachedRow<Buf<G>>>, b: map<ShapeKey, CachedRow<Buf<G>>>,
                                   allocs: nat, poolBefore: nat, poolAfter: nat) {
    var key := KeyOf(hash, r);
    (r.aside ==> b == a) &&
    (!r.aside ==> b.Keys == a.Keys + {key} && b[key].lastSeen == frame) &&
    (forall k :: k in a && k != key ==> k in b && b[k] == a[k]) &&
    Spent(allocs, poolBefore, poolAfter, |Held(a)|, |Held(b)|,
          if r.aside || key in a then 0 else |FromScratch(shape, font, r)|)
  }

  /** What drawing a list of rows, starting from the entries `a0` of earlier frames,
      has done so far. */
  ghost predicate RowsDone<F, C, G>(hash: Hash<C>, shape: Shape<F, C, G>, font: F, rs: seq<RowReq<C>>, frame: u64,
                                    a: map<ShapeKey, CachedRow<Buf<G>>>, b: map<ShapeKey, CachedRow<Buf<G>>>,
                                    allocs: nat, poolBefore: nat, poolAfter: nat) {
    b.Keys == a.Keys + Keys(hash, rs) &&
    Stamped(b, frame, Keys(hash, rs)) &&
    Spent(allocs, poolBefore, poolAfter, |Held(a)|, |Held(b)|, Need(hash, shape, font, a.Keys, rs))
  }

  lemma RowsStart<F, C, G>(hash: Hash<C>, shape: Shape<F, C, G>, font: F, frame: u64,
                           a: map<ShapeKey, CachedRow<Buf<G>>>, pool: nat)
    requires Stamped(a, frame, {})
    ensures RowsDone(hash, shape, font, [], frame, a, a, 0, pool, pool)
  {
  }

  lemma RowsStep<F, C, G>(hash: Hash<C>, shape: Shape<F, C, G>, font: F, rs: seq<RowReq<C>>, i: nat, frame: u64,
                          a: map<ShapeKey, CachedRow<Buf<G>>>, b: map<ShapeKey, CachedRow<Buf<G>>>,
                          c: map<ShapeKey, CachedRow<Buf<G>>>, m: nat, n: nat, p: nat, p1: nat, p2: nat)
    requires i < |rs|
    requires RowsDone(hash, shape, font, rs[..i], frame, a, b, m, p, p1)
    requires RowDone(hash, shape, font, rs[i], frame, b, c, n, p1, p2)
    ensures RowsDone(hash, shape, font, rs[..i + 1], frame, a, c, m + n, p, p2)
  {
    hide Held, FromScratch, Need, Keys, KeyOf;
    NextRow(hash, shape, font, a.Keys, rs, i);
    if rs[i].aside {
      assert Keys(hash, rs[..i + 1]) == Keys(hash, rs[..i]);
    }
  }

  class RowShaper<F(==,!new), C(!new), G(!new)> {
    const hash: Hash<C>
    const shape: Shape<F, C, G>
    var font: F
    const cache: ShapedCache<Buf<G>>
    var pool: seq<Spare<Buf<G>>>

    ghost predicate Valid()
      reads this, cache
    {
      forall k :: k in cache.rows ==> cache.rows[k].lastSeen == cache.frame
    }

    constructor (h: Hash<C>, s: Shape<F, C, G>, f: F)
      ensures Valid() && hash == h && shape == s && font == f
      ensures cache.rows == map[] && pool == [] && fresh(cache)
    {
      hash, shape, font, pool := h, s, f, [];
      cache := new ShapedCache();
    }

    method SetFont(f: F)
      requires Valid()
      modifies this, cache
      ensures Valid() && font == f
      ensures f == old(font) ==> cache.rows == old(cache.rows) && pool == old(pool)
      ensures f != old(font) ==> cache.rows == map[] && multiset(pool) == Held(old(cache.rows)) + multiset(old(pool))
    {
      if f == font {
        return;
      }
      font := f;
      pool := cache.Clear(pool);
    }

    /** Shape one row into buffers taken from the pool while it lasts. */
    method ShapeInto(texts: seq<G>) returns (runs: seq<CachedRun<Buf<G>>>, allocs: nat)
      modifies this`pool
      ensures Texts(runs) == texts
      ensures allocs == Minus(|texts|, |old(pool)|)
      ensures |pool| == Minus(|old(pool)|, |texts|)
    {
      runs, allocs := [], 0;
      for i := 0 to |texts|
        invariant |runs| == i && Texts(runs) == texts[..i]
        invariant allocs == Minus(i, |old(pool)|)
        invariant |pool| == Minus(|old(pool)|, i)
      {
        if pool == [] {
          allocs := allocs + 1;
        } else {
          pool := pool[..|pool| - 1];
        }
        runs := runs + [CachedRun(i, Buf(texts[i]), 0)];
      }
      assert texts[..|texts|] == texts;
    }

    /** The row loop of one frame, before the end-of-frame eviction. */
    method DrawRows(rs: seq<RowReq<C>>) returns (drawn: seq<seq<G>>, allocs: nat)
      requires Stamped(cache.rows, cache.frame, {})
      modifies this`pool, cache`rows
      ensures (drawn, Store(cache.rows)) == ShownRows(hash, shape, font, Store(old(cache.rows)), rs)
      ensures RowsDone(hash, shape, font, rs, cache.frame, old(cache.rows), cache.rows, allocs, |old(pool)|, |pool|)
    {
      hide FromScratch, Shown, Learn, Store, Stamped, RowsDone, RowDone;
      assert rs[..0] == [] && rs[..|rs|] == rs;
      drawn, allocs := [], 0;
      ghost var a, p := cache.rows, |pool|;
      RowsStart(hash, shape, font, cache.frame, a, p);
      for i := 0 to |rs|
        invariant (drawn, Store(cache.rows)) == ShownRows(hash, shape, font, Store(a), rs[..i])
        invariant RowsDone(hash, shape, font, rs[..i], cache.frame, a, cache.rows, allocs, p, |pool|)
      {
        ghost var b, p1 := cache.rows, |pool|;
        var out, n := DrawRow(rs[i]);
        RowsStep(hash, shape, font, rs, i, cache.frame, a, b, cache.rows, allocs, n, p, p1, |pool|);
        assert rs[..i + 1][..i] == rs[..i];
        drawn, allocs := drawn + [out], allocs + n;
      }
    }

    method DrawRow(r: RowReq<C>) returns (out: seq<G>, allocs: nat)
      modifies this`pool, cache`rows
      ensures out == Shown(hash, shape, font, Store(old(cache.rows)), r)
      ensures Store(cache.rows) == Learn(hash, shape, font, Store(old(cache.rows)), r)
      ensures RowDone(hash, shape, font, r, cache.frame, old(cache.rows), cache.rows, allocs, |old(pool)|, |pool|)
    {
      allocs := 0;
      match PlanRow(cache.Get(KeyOf(hash, r)), r.aside)
      case Reuse => out := ReuseRow(r);
      case Reshape => out, allocs := ReshapeRow(r);
      case Temporary => out := shape(font, r.drawn, r.termW);
    }

    method ReuseRow(r: RowReq<C>) returns (out: seq<G>)
      requires !r.aside && KeyOf(hash, r) in cache.rows
      modifies cache`rows
      ensures out == Texts(old(cache.rows)[KeyOf(hash, r)].runs) && Store(cache.rows) == Store(old(cache.rows))
      ensures RowDone(hash, shape, font, r, cache.frame, old(cache.rows), cache.rows, 0, |pool|, |pool|)
    {
      hide Held;
      var key := KeyOf(hash, r);
      HeldRestamp(cache.rows, key, cache.frame);
      cache.Touch(key);
      out := Texts(cache.rows[key].runs);
    }

    method ReshapeRow(r: RowReq<C>) returns (out: seq<G>, allocs: nat)
      requires !r.aside && KeyOf(hash, r) !in cache.rows
      modifies this`pool, cache`rows
      ensures out == FromScratch(shape, font, r)
      ensures Store(cache.rows) == Store(old(cache.rows))[KeyOf(hash, r) := out]
      ensures RowDone(hash, shape, font, r, cache.frame, old(cache.rows), cache.rows, allocs, |old(pool)|, |pool|)
    {
      hide Held;
      var key := KeyOf(hash, r);
      out := shape(font, r.content, r.termW);
      var runs;
      runs, allocs := ShapeInto(out);
      HeldWith(cache.rows, key, CachedRow(cache.frame, runs));
      cache.Insert(key, runs);
    }

    /** One whole frame. */
    method PrepareFrame(rs: seq<RowReq<C>>) returns (drawn: seq<seq<G>>, allocs: nat)
      requires Valid()
      modifies this`pool, cache
      ensures Valid()
      ensures var r := ShownRows(hash, shape, font, Store(old(cache.rows)), rs);
              drawn == r.0 && Store(cache.rows) == Keep(r.1, Keys(hash, rs))
      ensures cache.rows.Keys == Keys(hash, rs)
      ensures var need := Need(hash, shape, font, old(cache.rows).Keys, rs);
              var back := Minus(|old(pool)|, need) + |Held(old(cache.rows))| + need - |Held(cache.rows)|;
              back >= 0 &&
              allocs == Minus(need, |old(pool)|) &&
              |pool| == Min(PoolCapFor(|Held(cache.rows)|), back)
    {
      hide Held, Need, Keys, ShownRows;
      cache.BeginFrame();
      drawn, allocs := DrawRows(rs);
      ghost var before, spare := cache.rows, pool;
      ghost var dropped;
      pool, dropped := cache.EndFrame(pool);
      Sizes(Held(cache.rows), pool, dropped, Held(before), spare);
    }
  }

  /** A whole run on a live shaper; `CacheIsInvisibleIff` says when this is right. */
  method Session<F(==,!new), C(!new), G(!new)>(t: RowShaper<F, C, G>, ops: seq<Op<F, C>>) returns (shown: seq<seq<seq<G>>>)
    requires t.Valid()
    modifies t, t.cache
    ensures t.Valid() && shown == ShownRun(t.hash, t.shape, old(t.font), Store(old(t.cache.rows)), ops)
  {
    hide Store, ShownRows, Keep;
    ghost var all := ShownRun(t.hash, t.shape, t.font, Store(t.cache.rows), ops);
    shown := [];
    assert ops[0..] == ops;
    for n := 0 to |ops|
      invariant t.Valid() && shown + ShownRun(t.hash, t.shape, t.font, Store(t.cache.rows), ops[n..]) == all
    {
      assert ops[n..][1..] == ops[n + 1..];
      match ops[n]
      case Font(f) =>
        t.SetFont(f);
        EmptyStore<G>();
      case Show(rows) =>
        ghost var rest := ShownRun(t.hash, t.shape, t.font, Store(t.cache.rows), ops[n..]);
        var drawn, _ := t.PrepareFrame(rows);
        assert rest == [drawn] + ShownRun(t.hash, t.shape, t.font, Store(t.cache.rows), ops[n + 1..]);
        shown := shown + [drawn];
    }
    assert ops[|ops|..] == [];
  }

  lemma EmptyStore<G>()
    ensures Store<G>(map[]) == map[]
  {
  }

  lemma Sizes<T>(a: multiset<T>, p: seq<T>, d: seq<T>, b: multiset<T>, s: seq<T>)
    requires a + multiset(p) + multiset(d) == b + multiset(s)
    ensures |a| + |p| + |d| == |b| + |s|
  {
    assert |a + multiset(p) + multiset(d)| == |b + multiset(s)|;
  }
}
