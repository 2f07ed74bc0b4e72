/** `ShapedCache`: shaped rows kept across frames, addressed by content, evicted by
    frame stamp, their payloads recycled through a pool. Payloads are opaque here;
    `RowShaper` drives the cache the way the text layer does. */
module ShapedCaches {
  import opened Bytes

  datatype ShapeKey = ShapeKey(hash: u64, termW: u32)

  datatype CachedRun<T> = CachedRun(col: nat, payload: T, glyphs: nat)

  datatype CachedRow<T> = CachedRow(lastSeen: u64, runs: seq<CachedRun<T>>)

  datatype RowPlan = Reuse | Reshape | Temporary

  /** A preedit row is shaped aside whatever the cache holds. */
  function PlanRow<T>(cached: Option<CachedRow<T>>, isPreedit: bool): RowPlan {
    if isPreedit then Temporary
    else if cached.Some? then Reuse
    else Reshape
  }

  const POOL_CAP_FLOOR: nat := 256

  function PoolCapFor(payloads: nat): nat {
    if 2 * payloads < POOL_CAP_FLOOR then POOL_CAP_FLOOR else 2 * payloads
  }

  /** The least cap that leaves room for a frame on top of what is held, and for a few rows
      in any case. */
  lemma PoolCapIsLeast(payloads: nat, cap: nat)
    ensures PoolCapFor(payloads) <= cap <==> 256 <= cap && payloads + payloads <= cap
  {
  }

  type Spare<T> = (T, nat)

  function Freed<T>(runs: seq<CachedRun<T>>): (f: seq<Spare<T>>)
    ensures |f| == |runs|
  {
    if runs == [] then []
    else Freed(runs[..|runs| - 1]) + [(runs[|runs| - 1].payload, runs[|runs| - 1].glyphs)]
  }

  ghost function Pick<T>(rows: map<ShapeKey, CachedRow<T>>): (k: ShapeKey)
    requires rows.Keys != {}
    ensures k in rows
  {
    var k :| k in rows.Keys; k
  }

  /** Every payload in the cache, counted. */
  ghost function Held<T>(rows: map<ShapeKey, CachedRow<T>>): multiset<Spare<T>>
    decreases |rows.Keys|
  {
    if rows.Keys == {} then multiset{}
    else
      var k := Pick(rows);
      assert (rows - {k}).Keys == rows.Keys - {k};
      multiset(Freed(rows[k].runs)) + Held(rows - {k})
  }

  /** The choice of key does not matter. */
  lemma {:induction false} HeldWithout<T>(rows: map<ShapeKey, CachedRow<T>>, k: ShapeKey)
    requires k in rows
    ensures Held(rows) == multiset(Freed(rows[k].runs)) + Held(rows - {k})
    decreases |rows.Keys|, 1
  {
    var j := Pick(rows);
    if j != k {
      HeldSwap(rows, j, k);
    }
  }

  lemma {:induction false} HeldSwap<T>(rows: map<ShapeKey, CachedRow<T>>, j: ShapeKey, k: ShapeKey)
    requires j in rows && k in rows && j != k
    requires Held(rows) == multiset(Freed(rows[j].runs)) + Held(rows - {j})
    ensures Held(rows) == multiset(Freed(rows[k].runs)) + Held(rows - {k})
    decreases |rows.Keys|, 0
  {
    hide Held, Freed;
    assert (rows - {j}).Keys == rows.Keys - {j} && (rows - {k}).Keys == rows.Keys - {k};
    HeldWithout(rows - {j}, k);
    HeldWithout(rows - {k}, j);
    assert rows - {j} - {k} == rows - {k} - {j};
  }

  lemma HeldWith<T>(rows: map<ShapeKey, CachedRow<T>>, k: ShapeKey, r: CachedRow<T>)
    requires k !in rows
    ensures Held(rows[k := r]) == Held(rows) + multiset(Freed(r.runs))
  {
    hide Held, Freed;
    HeldWithout(rows[k := r], k);
    assert rows[k := r] - {k} == rows;
  }

  /** Stamps do not hold payloads. */
  lemma HeldRestamp<T>(rows: map<ShapeKey, CachedRow<T>>, k: ShapeKey, stamp: u64)
    requires k in rows
    ensures Held(rows[k := rows[k].(lastSeen := stamp)]) == Held(rows)
  {
    hide Held, Freed;
    var after := rows[k := rows[k].(lastSeen := stamp)];
    HeldWithout(rows, k);
    HeldWithout(after, k);
    assert after - {k} == rows - {k};
  }

  function SeenIn<T>(rows: map<ShapeKey, CachedRow<T>>, f: u64): map<ShapeKey, CachedRow<T>> {
    map k | k in rows && rows[k].lastSeen == f :: rows[k]
  }

  class ShapedCache<T(!new)> {
    var rows: map<ShapeKey, CachedRow<T>>
    var frame: u64

    constructor ()
      ensures rows == map[] && frame == 0
    {
      rows, frame := map[], 0;
    }

    method BeginFrame()
      modifies this`frame
      ensures frame == (old(frame) + 1) % TWO_64
    {
      frame := (frame + 1) % TWO_64;
    }

    function Get(key: ShapeKey): Option<CachedRow<T>>
      reads this
    {
      if key in rows then Some(rows[key]) else None
    }

    method Touch(key: ShapeKey)
      modifies this`rows
      ensures rows == if key in old(rows) then old(rows)[key := old(rows)[key].(lastSeen := frame)] else old(rows)
    {
      if key in rows {
        rows := rows[key := rows[key].(lastSeen := frame)];
      }
    }

    method Insert(key: ShapeKey, runs: seq<CachedRun<T>>)
      modifies this`rows
      ensures rows == old(rows)[key := CachedRow(frame, runs)]
    {
      rows := rows[key := CachedRow(frame, runs)];
    }

    method PayloadCount() returns (n: nat)
      ensures n == |Held(rows)|
    {
      n := 0;
      var rest := rows;
      while rest.Keys != {}
        invariant n + |Held(rest)| == |Held(rows)|
        decreases |rest.Keys|
      {
        var k :| k in rest.Keys;
        HeldWithout(rest, k);
        n := n + |rest[k].runs|;
        assert (rest - {k}).Keys == rest.Keys - {k};
        rest := rest - {k};
      }
    }

    /** Everything not seen this frame leaves the cache for the pool, in no promised
        order; the pool is then cut to its cap. Nothing appears or disappears: each
        payload ends in the cache, in the pool or among the dropped. */
    method EndFrame(recycle: seq<Spare<T>>) returns (pool: seq<Spare<T>>, ghost dropped: seq<Spare<T>>)
      modifies this`rows
      ensures rows == SeenIn(old(rows), frame)
      ensures Held(rows) + multiset(pool) + multiset(dropped) == Held(old(rows)) + multiset(recycle)
      ensures recycle <= pool + dropped
      ensures |pool| <= PoolCapFor(|Held(rows)|)
      ensures dropped != [] ==> |pool| == PoolCapFor(|Held(rows)|)
    {
      var all := Evict(recycle);
      var n := PayloadCount();
      var cap := PoolCapFor(n);
      if cap < |all| {
        pool, dropped := all[..cap], all[cap..];
        assert all == pool + dropped;
      } else {
        pool, dropped := all, [];
      }
    }

    method Evict(recycle: seq<Spare<T>>) returns (all: seq<Spare<T>>)
      modifies this`rows
      ensures rows == SeenIn(old(rows), frame)
      ensures Held(rows) + multiset(all) == Held(old(rows)) + multiset(recycle)
      ensures recycle <= all
    {
      hide Held, Freed;
      all := recycle;
      var todo := rows.Keys;
      while todo != {}
        invariant todo <= rows.Keys
        invariant forall k :: k in rows ==> k in old(rows) && rows[k] == old(rows)[k]
        invariant forall k :: k in rows && k !in todo ==> rows[k].lastSeen == frame
        invariant forall k :: k in old(rows) && old(rows)[k].lastSeen == frame ==> k in rows
        invariant Held(rows) + multiset(all) == Held(old(rows)) + multiset(recycle)
        invariant recycle <= all
        decreases |todo|
      {
        var k :| k in todo;
        todo := todo - {k};
        if rows[k].lastSeen != frame {
          HeldWithout(rows, k);
          all := all + Freed(rows[k].runs);
          rows := rows - {k};
        }
      }
      assert rows == SeenIn(old(rows), frame);
    }

    /** Font family, size or DPI changed: nothing shaped so far is usable. */
    method Clear(recycle: seq<Spare<T>>) returns (pool: seq<Spare<T>>)
      modifies this`rows
      ensures rows == map[]
      ensures multiset(pool) == Held(old(rows)) + multiset(recycle)
      ensures recycle <= pool
    {
      pool := recycle;
      while rows.Keys != {}
        invariant Held(rows) + multiset(pool) == Held(old(rows)) + multiset(recycle)
        invariant recycle <= pool
        decreases |rows.Keys|
      {
        var k :| k in rows.Keys;
        HeldWithout(rows, k);
        pool := pool + Freed(rows[k].runs);
        assert (rows - {k}).Keys == rows.Keys - {k};
        rows := rows - {k};
      }
      assert rows == map[];
    }
  }
}
