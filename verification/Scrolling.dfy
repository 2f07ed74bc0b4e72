/** Scrolling a document past the shaping cache: which payloads each frame needs, which
    come back to the pool, and when a frame has to allocate. Lines may differ in how many
    runs they are cut into. */
module Scrolling {
  import opened Bytes
  import opened ShapedCaches
  import opened RowShapers

  // ---------------------------------------------------------------------------
  // The books, from the lines' run counts alone.

  function Max(a: nat, b: nat): nat {
    if a < b then b else a
  }

  /** Runs in the `n` lines from `a` on. */
  function Runs(cost: nat -> nat, a: nat, n: nat): nat {
    if n == 0 then 0 else Runs(cost, a, n - 1) + cost(a + n - 1)
  }

  /** The first visible line of frame `j`, scrolling by `k` lines per frame. */
  function Top(k: nat, j: nat): nat {
    if j == 0 then 0 else Top(k, j - 1) + k
  }

  /** Runs on screen in frame `j`. */
  function OnScreen(cost: nat -> nat, n: nat, k: nat, j: nat): nat {
    Runs(cost, Top(k, j), n)
  }

  /** Runs of the lines that come into view, and of those that go out of view. */
  function Entering(cost: nat -> nat, n: nat, k: nat, top: nat): nat {
    Runs(cost, top + Max(n, k), Min(n, k))
  }

  function Leaving(cost: nat -> nat, n: nat, k: nat, top: nat): nat {
    Runs(cost, top, Min(n, k))
  }

  /** Spare payloads after frame `j`, starting with `p` of them and an empty cache. */
  function PoolAfter(cost: nat -> nat, n: nat, k: nat, p: nat, j: nat): nat {
    Min(PoolCapFor(OnScreen(cost, n, k, j)),
        if j == 0 then Minus(p, OnScreen(cost, n, k, 0))
        else Minus(PoolAfter(cost, n, k, p, j - 1), Entering(cost, n, k, Top(k, j - 1))) + Leaving(cost, n, k, Top(k, j - 1)))
  }

  /** Payloads allocated in frame `j`. */
  function Allocated(cost: nat -> nat, n: nat, k: nat, p: nat, j: nat): nat {
    if j == 0 then Minus(OnScreen(cost, n, k, 0), p)
    else Minus(Entering(cost, n, k, Top(k, j - 1)), PoolAfter(cost, n, k, p, j - 1))
  }

  lemma {:induction false} RunsSplit(cost: nat -> nat, a: nat, m: nat, n: nat)
    ensures Runs(cost, a, m + n) == Runs(cost, a, m) + Runs(cost, a + m, n)
  {
    if n > 0 {
      RunsSplit(cost, a, m, n - 1);
    }
  }

  /** What was on screen, and what comes in, is what goes out and what is on screen. */
  lemma WindowShift(cost: nat -> nat, n: nat, k: nat, top: nat)
    ensures Runs(cost, top, n) + Entering(cost, n, k, top) == Leaving(cost, n, k, top) + Runs(cost, top + k, n)
  {
    if k <= n {
      RunsSplit(cost, top, k, n - k);
      RunsSplit(cost, top + k, n - k, k);
    }
  }

  /** Payloads in use at once while frame `j` is shaped: those of the frame before, still
      cached, and those of the lines that come in. */
  function Peak(cost: nat -> nat, n: nat, k: nat, j: nat): nat {
    if j == 0 then OnScreen(cost, n, k, 0) else OnScreen(cost, n, k, j - 1) + Entering(cost, n, k, Top(k, j - 1))
  }

  function HighestPeak(cost: nat -> nat, n: nat, k: nat, p: nat, j: nat): nat {
    Max(if j == 0 then p else HighestPeak(cost, n, k, p, j - 1), Peak(cost, n, k, j))
  }

  /** The pool's cap would not cut what the highest peak so far leaves over. */
  predicate Roomy(cost: nat -> nat, n: nat, k: nat, p: nat, j: nat) {
    HighestPeak(cost, n, k, p, j) <= OnScreen(cost, n, k, j) + PoolCapFor(OnScreen(cost, n, k, j))
  }

  /** As long as the cap does not bite, every payload ever allocated is on screen or in
      the pool, and there are as many as the highest peak so far needed. */
  lemma {:induction false} PoolIsPeakRest(cost: nat -> nat, n: nat, k: nat, p: nat, j: nat)
    requires forall i :: 0 <= i <= j ==> Roomy(cost, n, k, p, i)
    ensures PoolAfter(cost, n, k, p, j) + OnScreen(cost, n, k, j) == HighestPeak(cost, n, k, p, j)
  {
    hide Roomy, PoolAfter, HighestPeak, OnScreen;
    if j == 0 {
      PoolFirst(cost, n, k, p);
    } else {
      PoolIsPeakRest(cost, n, k, p, j - 1);
      PoolStep(cost, n, k, p, j);
    }
  }

  lemma PoolFirst(cost: nat -> nat, n: nat, k: nat, p: nat)
    requires Roomy(cost, n, k, p, 0)
    ensures PoolAfter(cost, n, k, p, 0) + OnScreen(cost, n, k, 0) == HighestPeak(cost, n, k, p, 0)
  {
    hide OnScreen, PoolCapFor;
  }

  lemma PoolStep(cost: nat -> nat, n: nat, k: nat, p: nat, j: nat)
    requires j > 0 && Roomy(cost, n, k, p, j)
    requires PoolAfter(cost, n, k, p, j - 1) + OnScreen(cost, n, k, j - 1) == HighestPeak(cost, n, k, p, j - 1)
    ensures PoolAfter(cost, n, k, p, j) + OnScreen(cost, n, k, j) == HighestPeak(cost, n, k, p, j)
  {
    hide Runs, PoolCapFor, Entering, Leaving, Minus;
    WindowShift(cost, n, k, Top(k, j - 1));
    PeakArithmetic(PoolAfter(cost, n, k, p, j - 1), Entering(cost, n, k, Top(k, j - 1)), Leaving(cost, n, k, Top(k, j - 1)),
                   OnScreen(cost, n, k, j - 1), OnScreen(cost, n, k, j));
  }

  lemma PeakArithmetic(pool: nat, entering: nat, leaving: nat, before: nat, after: nat)
    requires before + entering == leaving + after
    ensures Minus(pool, entering) + leaving + after == Max(pool + before, before + entering)
  {
  }

  /** A frame allocates if and only if it is a new peak: if the lines on screen before it
      and those coming in have more runs together than at any frame so far. It then
      allocates exactly the difference. */
  lemma AllocatesIffNewPeak(cost: nat -> nat, n: nat, k: nat, p: nat, j: nat)
    requires j > 0 && forall i :: 0 <= i < j ==> Roomy(cost, n, k, p, i)
    ensures Allocated(cost, n, k, p, j) == Minus(Peak(cost, n, k, j), HighestPeak(cost, n, k, p, j - 1))
    ensures Allocated(cost, n, k, p, j) == 0 <==> Peak(cost, n, k, j) <= HighestPeak(cost, n, k, p, j - 1)
  {
    hide PoolAfter, HighestPeak, Roomy;
    PoolIsPeakRest(cost, n, k, p, j - 1);
  }

  /** With the cap or without: what left in the frame before is there for what comes in
      now, so a frame allocates nothing if no more runs come in than left then and than
      the cap allowed to be kept. */
  lemma ReplacedIsEnough(cost: nat -> nat, n: nat, k: nat, p: nat, j: nat)
    requires j > 1
    requires Entering(cost, n, k, Top(k, j - 1)) <= Leaving(cost, n, k, Top(k, j - 2))
    requires Entering(cost, n, k, Top(k, j - 1)) <= PoolCapFor(OnScreen(cost, n, k, j - 1))
    ensures Allocated(cost, n, k, p, j) == 0
  {
  }

  lemma {:induction false} RunsUniform(cost: nat -> nat, r: nat, a: nat, n: nat)
    requires forall i: nat :: a <= i < a + n ==> cost(i) == r
    ensures Runs(cost, a, n) == r * n
  {
    if n > 0 {
      RunsUniform(cost, r, a, n - 1);
      assert r * n == r * (n - 1) + r;
    } else {
      assert r * 0 == 0;
    }
  }

  /** If all lines are cut into equally many runs, no frame allocates after the first
      scroll frame, however long it goes on and by however much it scrolls. */
  lemma UniformNeverAllocates(cost: nat -> nat, r: nat, n: nat, k: nat, p: nat, j: nat)
    requires j > 1 && forall i: nat :: i < Top(k, j) + n ==> cost(i) == r
    ensures Allocated(cost, n, k, p, j) == 0
  {
    var m := Min(n, k);
    var before, top := Top(k, j - 2), Top(k, j - 1);
    assert Top(k, j) == top + k && top == before + k;
    assert top + Max(n, k) + m == top + k + n;
    RunsUniform(cost, r, before, m);
    RunsUniform(cost, r, top, n);
    RunsUniform(cost, r, top + Max(n, k), m);
    TimesMonotone(r, m, n);
    hide PoolAfter, Top, Runs;
    ReplacedIsEnough(cost, n, k, p, j);
  }

  lemma TimesMonotone(r: nat, m: nat, n: nat)
    requires m <= n
    ensures r * m <= r * n
  {
  }

  /** Otherwise there is no such promise. One visible line, scrolled by one, and lines of
      one, one and two runs: the second scroll frame allocates. */
  lemma VaryingLinesAllocate()
    ensures var cost := (i: nat) => if i == 2 then 2 else 1;
            Allocated(cost, 1, 1, 0, 1) == 1 && Allocated(cost, 1, 1, 0, 2) == 1
  {
    var cost := (i: nat) => if i == 2 then 2 else 1;
    assert Top(1, 1) == 1;
    assert Runs(cost, 0, 1) == 1 && Runs(cost, 1, 1) == 1 && Runs(cost, 2, 1) == 2;
    assert PoolAfter(cost, 1, 1, 0, 0) == 0;
    assert PoolAfter(cost, 1, 1, 0, 1) == 1;
  }

  // ---------------------------------------------------------------------------
  // The live shaper keeps these books.

  function LineKey<C>(hash: Hash<C>, line: nat -> C, w: u32, i: nat): ShapeKey {
    ShapeKey(hash(line(i)), w)
  }

  function Cost<F, C, G>(shape: Shape<F, C, G>, font: F, line: nat -> C, w: u32): nat -> nat {
    (i: nat) => |shape(font, line(i), w)|
  }

  function Window<C>(line: nat -> C, w: u32, top: nat, n: nat): seq<RowReq<C>> {
    seq(n, (i: nat) => RowReq(line(top + i), line(top + i), w, false))
  }

  /** The first `m` lines have different fingerprints. */
  ghost predicate Document<C>(hash: Hash<C>, line: nat -> C, m: nat) {
    forall i: nat, j: nat :: i < j < m ==> hash(line(i)) != hash(line(j))
  }

  function Low64(c: nat): u64 { c % TWO_64 }

  /** There are such documents of every length up to 2^64 lines. */
  lemma DocumentsExist(m: nat)
    requires m <= TWO_64
    ensures Document(Low64, (i: nat) => i, m)
  {
  }

  lemma WindowGrows<C>(hash: Hash<C>, line: nat -> C, w: u32, top: nat, n: nat)
    ensures Window(line, w, top, n + 1)[..n] == Window(line, w, top, n)
    ensures Keys(hash, Window(line, w, top, n + 1)) == Keys(hash, Window(line, w, top, n)) + {LineKey(hash, line, w, top + n)}
  {
    var rows := Window(line, w, top, n + 1);
    assert rows[..n] == Window(line, w, top, n);
    assert KeyOf(hash, rows[n]) == LineKey(hash, line, w, top + n);
  }

  lemma {:induction false} KeyInWindow<C>(hash: Hash<C>, line: nat -> C, w: u32, m: nat, top: nat, n: nat, i: nat)
    requires Document(hash, line, m) && top + n <= m && i < m
    ensures LineKey(hash, line, w, i) in Keys(hash, Window(line, w, top, n)) <==> top <= i < top + n
    decreases n
  {
    if n > 0 {
      hide Keys, Window;
      KeyInWindow(hash, line, w, m, top, n - 1, i);
      WindowGrows(hash, line, w, top, n - 1);
    }
  }

  lemma NeedStep<F, C, G>(hash: Hash<C>, shape: Shape<F, C, G>, font: F, line: nat -> C, w: u32,
                          m: nat, known: set<ShapeKey>, a: nat, n: nat)
    requires Document(hash, line, m) && a + n < m
    ensures Need(hash, shape, font, known, Window(line, w, a, n + 1))
            == Need(hash, shape, font, known, Window(line, w, a, n)) +
               (if LineKey(hash, line, w, a + n) in known then 0 else Cost(shape, font, line, w)(a + n))
  {
    hide Keys;
    var rows := Window(line, w, a, n + 1);
    WindowGrows(hash, line, w, a, n);
    assert rows[n] == RowReq(line(a + n), line(a + n), w, false);
    KeyInWindow(hash, line, w, m, a, n, a + n);
  }

  lemma NeedNothing<F, C, G>(hash: Hash<C>, shape: Shape<F, C, G>, font: F, line: nat -> C, w: u32, known: set<ShapeKey>, a: nat)
    ensures Need(hash, shape, font, known, Window(line, w, a, 0)) == 0
  {
    assert Window(line, w, a, 0) == [];
  }

  /** A scroll frame needs the runs of the lines that come in. */
  lemma {:induction false} ScrollNeed<F, C, G>(hash: Hash<C>, shape: Shape<F, C, G>, font: F, line: nat -> C, w: u32,
                                               m: nat, top: nat, n: nat, k: nat, l: nat)
    requires Document(hash, line, m) && l <= n && top + n <= m && top + k + l <= m
    ensures Need(hash, shape, font, Keys(hash, Window(line, w, top, n)), Window(line, w, top + k, l))
            == Runs(Cost(shape, font, line, w), top + Max(n, k), Minus(l, Minus(n, k)))
    decreases l
  {
    hide Need, Keys, Window, Cost, LineKey, Document;
    if l == 0 {
      NeedNothing(hash, shape, font, line, w, Keys(hash, Window(line, w, top, n)), top + k);
    } else {
      ScrollNeed(hash, shape, font, line, w, m, top, n, k, l - 1);
      NeedStep(hash, shape, font, line, w, m, Keys(hash, Window(line, w, top, n)), top + k, l - 1);
      KeyInWindow(hash, line, w, m, top, n, top + k + l - 1);
    }
  }

  lemma {:induction false} FirstNeed<F, C, G>(hash: Hash<C>, shape: Shape<F, C, G>, font: F, line: nat -> C, w: u32,
                                              m: nat, n: nat)
    requires Document(hash, line, m) && n <= m
    ensures Need(hash, shape, font, {}, Window(line, w, 0, n)) == Runs(Cost(shape, font, line, w), 0, n)
    decreases n
  {
    hide Need, Window, Cost, LineKey, Document;
    if n == 0 {
      NeedNothing(hash, shape, font, line, w, {}, 0);
    } else {
      FirstNeed(hash, shape, font, line, w, m, n - 1);
      NeedStep(hash, shape, font, line, w, m, {}, 0, n - 1);
    }
  }

  /** What is known of a line has as many runs as the line. */
  ghost predicate Priced<F, C, G>(hash: Hash<C>, shape: Shape<F, C, G>, font: F, line: nat -> C, w: u32, m: nat,
                                  known: map<ShapeKey, seq<G>>) {
    forall i: nat :: i < m && LineKey(hash, line, w, i) in known ==>
      |known[LineKey(hash, line, w, i)]| == Cost(shape, font, line, w)(i)
  }

  lemma LearnPriced<F, C, G>(hash: Hash<C>, shape: Shape<F, C, G>, font: F, line: nat -> C, w: u32, m: nat,
                             known: map<ShapeKey, seq<G>>, a: nat)
    requires Document(hash, line, m) && a < m && Priced(hash, shape, font, line, w, m, known)
    ensures Priced(hash, shape, font, line, w, m, Learn(hash, shape, font, known, RowReq(line(a), line(a), w, false)))
  {
  }

  lemma {:induction false} WindowPriced<F, C, G>(hash: Hash<C>, shape: Shape<F, C, G>, font: F, line: nat -> C, w: u32,
                                                 m: nat, known: map<ShapeKey, seq<G>>, a: nat, n: nat)
    requires Document(hash, line, m) && a + n <= m && Priced(hash, shape, font, line, w, m, known)
    ensures Priced(hash, shape, font, line, w, m, ShownRows(hash, shape, font, known, Window(line, w, a, n)).1)
    decreases n
  {
    if n > 0 {
      hide Priced, Learn, Shown;
      var rows := Window(line, w, a, n);
      assert rows[..n - 1] == Window(line, w, a, n - 1);
      WindowPriced(hash, shape, font, line, w, m, known, a, n - 1);
      LearnPriced(hash, shape, font, line, w, m, ShownRows(hash, shape, font, known, rows[..n - 1]).1, a + n - 1);
    }
  }

  lemma KeepPriced<F, C, G>(hash: Hash<C>, shape: Shape<F, C, G>, font: F, line: nat -> C, w: u32, m: nat,
                            known: map<ShapeKey, seq<G>>, keys: set<ShapeKey>)
    requires Priced(hash, shape, font, line, w, m, known)
    ensures Priced(hash, shape, font, line, w, m, Keep(known, keys))
  {
  }

  lemma HeldNothing<C, G>(hash: Hash<C>, line: nat -> C, w: u32, top: nat, rows: map<ShapeKey, CachedRow<Buf<G>>>)
    requires rows.Keys == Keys(hash, Window(line, w, top, 0))
    ensures |Held(rows)| == 0
  {
    assert Window(line, w, top, 0) == [];
  }

  /** A cache that holds a window holds the runs of its lines. */
  lemma {:induction false} HeldIsRuns<F, C, G>(hash: Hash<C>, shape: Shape<F, C, G>, font: F, line: nat -> C, w: u32, m: nat,
                                               top: nat, n: nat, rows: map<ShapeKey, CachedRow<Buf<G>>>)
    requires Document(hash, line, m) && top + n <= m
    requires rows.Keys == Keys(hash, Window(line, w, top, n)) && Priced(hash, shape, font, line, w, m, Store(rows))
    ensures |Held(rows)| == Runs(Cost(shape, font, line, w), top, n)
    decreases n
  {
    hide Held, Keys, Window, Document, Store, Priced, Cost, LineKey;
    if n == 0 {
      HeldNothing(hash, line, w, top, rows);
    } else {
      var last := LineKey(hash, line, w, top + n - 1);
      WindowGrows(hash, line, w, top, n - 1);
      KeyInWindow(hash, line, w, m, top, n - 1, top + n - 1);
      HeldWithout(rows, last);
      assert (rows - {last}).Keys == rows.Keys - {last} == Keys(hash, Window(line, w, top, n - 1));
      PricedWithout(hash, shape, font, line, w, m, top + n - 1, rows);
      HeldIsRuns(hash, shape, font, line, w, m, top, n - 1, rows - {last});
    }
  }

  lemma PricedWithout<F, C, G>(hash: Hash<C>, shape: Shape<F, C, G>, font: F, line: nat -> C, w: u32, m: nat,
                               i: nat, rows: map<ShapeKey, CachedRow<Buf<G>>>)
    requires Priced(hash, shape, font, line, w, m, Store(rows)) && i < m && LineKey(hash, line, w, i) in rows
    ensures Priced(hash, shape, font, line, w, m, Store(rows - {LineKey(hash, line, w, i)}))
    ensures |rows[LineKey(hash, line, w, i)].runs| == Cost(shape, font, line, w)(i)
  {
    var key := LineKey(hash, line, w, i);
    assert Store(rows - {key}) == Store(rows) - {key};
    assert |Store(rows)[key]| == |rows[key].runs|;
  }

  /** One scroll frame: allocations and pool follow from the pool before. */
  method ScrollOnce<F(==,!new), C(!new), G(!new)>(t: RowShaper<F, C, G>, line: nat -> C, w: u32, top: nat,
                                                  n: nat, k: nat, ghost m: nat) returns (allocs: nat)
    requires t.Valid() && Document(t.hash, line, m) && top + n <= m && top + k + n <= m
    requires t.cache.rows.Keys == Keys(t.hash, Window(line, w, top, n))
    requires Priced(t.hash, t.shape, t.font, line, w, m, Store(t.cache.rows))
    modifies t`pool, t.cache
    ensures t.Valid() && t.cache.rows.Keys == Keys(t.hash, Window(line, w, top + k, n))
    ensures Priced(t.hash, t.shape, t.font, line, w, m, Store(t.cache.rows))
    ensures var cost := Cost(t.shape, t.font, line, w);
            var need := Entering(cost, n, k, top);
            allocs == Minus(need, |old(t.pool)|) &&
            |t.pool| == Min(PoolCapFor(Runs(cost, top + k, n)), Minus(|old(t.pool)|, need) + Leaving(cost, n, k, top))
  {
    hide Held, Need, Keys, Document, ShownRows, Store, Window, PoolCapFor, Priced, Cost, Runs, Keep;
    ghost var cost := Cost(t.shape, t.font, line, w);
    WindowPriced(t.hash, t.shape, t.font, line, w, m, Store(t.cache.rows), top + k, n);
    ScrollNeed(t.hash, t.shape, t.font, line, w, m, top, n, k, n);
    HeldIsRuns(t.hash, t.shape, t.font, line, w, m, top, n, t.cache.rows);
    ghost var shown := ShownRows(t.hash, t.shape, t.font, Store(t.cache.rows), Window(line, w, top + k, n)).1;
    KeepPriced(t.hash, t.shape, t.font, line, w, m, shown, Keys(t.hash, Window(line, w, top + k, n)));
    var _, a := t.PrepareFrame(Window(line, w, top + k, n));
    HeldIsRuns(t.hash, t.shape, t.font, line, w, m, top + k, n, t.cache.rows);
    WindowShift(cost, n, k, top);
    allocs := a;
  }

  method FirstFrame<F(==,!new), C(!new), G(!new)>(t: RowShaper<F, C, G>, line: nat -> C, w: u32, n: nat, ghost m: nat)
    returns (allocs: nat)
    requires t.Valid() && t.cache.rows.Keys == {} && Document(t.hash, line, m) && n <= m
    modifies t`pool, t.cache
    ensures t.Valid() && t.cache.rows.Keys == Keys(t.hash, Window(line, w, 0, n))
    ensures Priced(t.hash, t.shape, t.font, line, w, m, Store(t.cache.rows))
    ensures var held := Runs(Cost(t.shape, t.font, line, w), 0, n);
            allocs == Minus(held, |old(t.pool)|) && |t.pool| == Min(PoolCapFor(held), Minus(|old(t.pool)|, held))
  {
    assert Priced(t.hash, t.shape, t.font, line, w, m, Store(t.cache.rows)) && |Held(t.cache.rows)| == 0;
    hide Held, Need, Keys, Document, ShownRows, Store, Window, PoolCapFor, Priced, Cost, Runs, Keep;
    WindowPriced(t.hash, t.shape, t.font, line, w, m, Store(t.cache.rows), 0, n);
    FirstNeed(t.hash, t.shape, t.font, line, w, m, n);
    ghost var shown := ShownRows(t.hash, t.shape, t.font, Store(t.cache.rows), Window(line, w, 0, n)).1;
    KeepPriced(t.hash, t.shape, t.font, line, w, m, shown, Keys(t.hash, Window(line, w, 0, n)));
    var _, a := t.PrepareFrame(Window(line, w, 0, n));
    HeldIsRuns(t.hash, t.shape, t.font, line, w, m, 0, n, t.cache.rows);
    allocs := a;
  }

  /** A document whose lines have different fingerprints, scrolled by `k` lines per frame
      through a window of `n`: each frame allocates what the books say. `AllocatesIffNewPeak`
      and `UniformNeverAllocates` say when that is nothing. */
  method Scroll<F(==,!new), C(!new), G(!new)>(t: RowShaper<F, C, G>, line: nat -> C, w: u32, n: nat, k: nat, frames: nat)
    returns (allocs: seq<nat>)
    requires t.Valid() && t.cache.rows.Keys == {} && Document(t.hash, line, Top(k, frames) + n)
    modifies t`pool, t.cache
    ensures |allocs| == frames + 1
    ensures forall j :: 0 <= j <= frames ==>
              allocs[j] == Allocated(Cost(t.shape, t.font, line, w), n, k, |old(t.pool)|, j)
    ensures forall j :: 0 < j <= frames ==>
              (allocs[j] == 0 <==> Entering(Cost(t.shape, t.font, line, w), n, k, Top(k, j - 1)) <=
                                   PoolAfter(Cost(t.shape, t.font, line, w), n, k, |old(t.pool)|, j - 1))
  {
    hide Keys, Document, Store, Window, Priced, Cost, Runs, Held;
    ghost var m, p, cost := Top(k, frames) + n, |t.pool|, Cost(t.shape, t.font, line, w);
    TopGrows(k, 0, frames);
    var a := FirstFrame(t, line, w, n, m);
    allocs := [a];
    var top: nat := 0;
    for j := 0 to frames
      invariant |allocs| == j + 1 && top == Top(k, j)
      invariant t.Valid() && t.cache.rows.Keys == Keys(t.hash, Window(line, w, top, n))
      invariant Priced(t.hash, t.shape, t.font, line, w, m, Store(t.cache.rows))
      invariant |t.pool| == PoolAfter(cost, n, k, p, j)
      invariant forall i :: 0 <= i <= j ==> allocs[i] == Allocated(cost, n, k, p, i)
    {
      TopGrows(k, j, frames);
      TopGrows(k, j + 1, frames);
      var b := ScrollOnce(t, line, w, top, n, k, m);
      top := top + k;
      allocs := allocs + [b];
    }
  }

  lemma {:induction false} TopGrows(k: nat, i: nat, j: nat)
    requires i <= j
    ensures Top(k, i) <= Top(k, j)
    decreases j
  {
    if i < j {
      TopGrows(k, i, j - 1);
    }
  }
}
