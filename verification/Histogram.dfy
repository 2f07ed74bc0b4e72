/** Timing histograms with logarithmic buckets, and the quantile read off them. */
module Histograms {
  import opened Arithmetic

  const BUCKETS: nat := 24

  function BucketOf(us: nat): (k: nat)
    ensures k < BUCKETS
  {
    if BitLen(us) < BUCKETS - 1 then BitLen(us) else BUCKETS - 1
  }

  function BucketUpper(k: nat): nat {
    if k == 0 then 0 else Pow2(if k < BUCKETS - 1 then k else BUCKETS - 1)
  }

  lemma TopPower()
    ensures Pow2(BUCKETS - 1) == 8_388_608
  {
    SmallPowers();
  }

  /** Larger samples never land in an earlier bucket. */
  lemma BucketMonotone(a: nat, b: nat)
    requires a <= b
    ensures BucketOf(a) <= BucketOf(b)
  {
    if a > 0 && BitLen(a) > BitLen(b) {
      BitLenBounds(a);
      BitLenBounds(b);
      Pow2Monotone(BitLen(b), BitLen(a) - 1);
    }
  }

  /** A bucket's upper bound covers its samples, and overstates none by more than a
      factor of two, except in the last bucket, which is open above. */
  lemma UpperBounds(us: nat)
    ensures us == 0 <==> BucketUpper(BucketOf(us)) == 0
    ensures us <= BucketUpper(BucketOf(us)) <==> us <= 8_388_608
    ensures us >= 1 ==> BucketUpper(BucketOf(us)) <= 2 * us
    ensures us >= 8_388_608 ==> BucketUpper(BucketOf(us)) == 8_388_608
  {
    TopPower();
    if us > 0 {
      var b := BitLen(us);
      BitLenBounds(us);
      if b >= BUCKETS - 1 {
        Pow2Monotone(BUCKETS - 2, b - 1);
        assert Pow2(BUCKETS - 1) == 2 * Pow2(BUCKETS - 2);
        if us < 8_388_608 && b > BUCKETS - 1 {
          Pow2Monotone(BUCKETS - 1, b - 1);
        }
      } else {
        Pow2Monotone(b, BUCKETS - 1);
        Pow2Monotone(b, BUCKETS - 2);
        assert Pow2(b) == 2 * Pow2(b - 1);
      }
    }
  }

  /** The buckets are the powers of two: a sample from `2^n` up to `2^(n + 1)` is reported
      as the latter, and from 2^22 on as 2^23. */
  lemma BucketIsPower(us: nat, n: nat)
    requires Pow2(n) <= us < Pow2(n + 1)
    ensures BucketOf(us) == (if n < 22 then n + 1 else 23)
    ensures BucketUpper(BucketOf(us)) == (if n < 22 then Pow2(n + 1) else 8_388_608)
  {
    TopPower();
    BitLenBounds(us);
    var b := BitLen(us);
    if b < n + 1 {
      Pow2Monotone(b, n);
    } else if b > n + 1 {
      Pow2Monotone(n + 1, b - 1);
    }
  }

  // ---------------------------------------------------------------------------
  // Counting samples.

  function CountIf(samples: seq<nat>, p: nat -> bool): nat {
    if samples == [] then 0
    else CountIf(samples[..|samples| - 1], p) + (if p(samples[|samples| - 1]) then 1 else 0)
  }

  function Within(k: nat): nat -> bool { (us: nat) => BucketOf(us) == k }

  function Before(k: nat): nat -> bool { (us: nat) => BucketOf(us) < k }

  function Below(v: nat): nat -> bool { (us: nat) => us < v }

  function AtMost(v: nat): nat -> bool { (us: nat) => us <= v }

  /** The bucket counts of a list of samples. */
  function Tally(samples: seq<nat>): (c: seq<nat>)
    ensures |c| == BUCKETS
  {
    seq(BUCKETS, k requires 0 <= k < BUCKETS => CountIf(samples, Within(k)))
  }

  function Sum(c: seq<nat>): nat {
    if c == [] then 0 else Sum(c[..|c| - 1]) + c[|c| - 1]
  }

  lemma {:induction false} CountImplies(samples: seq<nat>, p: nat -> bool, q: nat -> bool)
    requires forall us :: us in samples && p(us) ==> q(us)
    ensures CountIf(samples, p) <= CountIf(samples, q)
  {
    if samples != [] {
      CountImplies(samples[..|samples| - 1], p, q);
    }
  }

  lemma {:induction false} CountBound(samples: seq<nat>, p: nat -> bool)
    ensures CountIf(samples, p) <= |samples|
    ensures (forall us :: us in samples ==> p(us)) ==> CountIf(samples, p) == |samples|
    ensures (exists us :: us in samples && p(us)) ==> CountIf(samples, p) > 0
  {
    if samples != [] {
      CountBound(samples[..|samples| - 1], p);
    }
  }

  lemma {:induction false} BeforeSplits(samples: seq<nat>, k: nat)
    ensures CountIf(samples, Before(k + 1)) == CountIf(samples, Before(k)) + CountIf(samples, Within(k))
  {
    if samples != [] {
      BeforeSplits(samples[..|samples| - 1], k);
    }
  }

  lemma {:induction false} NothingBefore(samples: seq<nat>)
    ensures CountIf(samples, Before(0)) == 0
  {
    if samples != [] {
      NothingBefore(samples[..|samples| - 1]);
    }
  }

  /** Adding up the first `k` counts counts the samples of the first `k` buckets. */
  lemma {:induction false} PrefixSum(samples: seq<nat>, k: nat)
    requires k <= BUCKETS
    ensures Sum(Tally(samples)[..k]) == CountIf(samples, Before(k))
  {
    if k == 0 {
      NothingBefore(samples);
    } else {
      PrefixSum(samples, k - 1);
      BeforeSplits(samples, k - 1);
      assert Tally(samples)[..k][..k - 1] == Tally(samples)[..k - 1];
    }
  }

  lemma TallyTotal(samples: seq<nat>)
    ensures Sum(Tally(samples)) == |samples|
  {
    PrefixSum(samples, BUCKETS);
    assert Tally(samples)[..BUCKETS] == Tally(samples);
    CountBound(samples, Before(BUCKETS));
  }

  lemma TallyOneMore(samples: seq<nat>, us: nat)
    ensures Tally(samples + [us]) == Tally(samples)[BucketOf(us) := Tally(samples)[BucketOf(us)] + 1]
  {
    assert (samples + [us])[..|samples|] == samples;
  }

  // ---------------------------------------------------------------------------
  // Quantiles. The quantile asked for is the fraction `num / den`.

  /** The rank looked for: the fraction of the total, rounded up, and at least one. */
  function Rank(total: nat, num: nat, den: nat): nat
    requires den > 0
  {
    var r := (total * num + den - 1) / den;
    if r < 1 then 1 else r
  }

  /** `v` is the sample of rank `r` in ascending order. */
  ghost predicate NearestRank(samples: seq<nat>, r: nat, v: nat) {
    v in samples && CountIf(samples, Below(v)) < r <= CountIf(samples, AtMost(v))
  }

  lemma RankInRange(total: nat, num: nat, den: nat)
    requires den > 0 && num <= den && total > 0
    ensures 1 <= Rank(total, num, den) <= total
  {
    var x := total * num + den - 1;
    MulMonotone(total, num, den);
    assert x < den * (total + 1);
    DivLess(x, den, total + 1);
  }

  /** The rank is the least that makes up the fraction. */
  lemma RankIsLeast(total: nat, num: nat, den: nat, r: nat)
    requires den > 0
    ensures Times(den, Rank(total, num, den)) >= Times(total, num) && Rank(total, num, den) >= 1
    ensures r >= 1 && Times(den, r) >= Times(total, num) ==> Rank(total, num, den) <= r
  {
    var x := Times(total, num) + den - 1;
    var q := x / den;
    DivBelow(x, den);
    assert Times(total, num) == total * num;
    assert den * (q + 1) == den * q + den;
    if q < 1 {
      assert Times(den, 1) == den && den * q == 0;
    }
    if r >= 1 && Times(den, r) >= Times(total, num) && q > r {
      MulMonotone(den, r + 1, q);
      assert den * (r + 1) == Times(den, r) + den;
    }
  }

  function Times(a: nat, b: nat): nat { a * b }

  /** `v` is the nearest-rank sample of a fraction of the samples: up to it are at least
      that fraction of them, before it less than the fraction, or nothing. */
  ghost predicate NearestTo(samples: seq<nat>, num: nat, den: nat, v: nat) {
    var below, upTo := CountIf(samples, Below(v)), CountIf(samples, AtMost(v));
    v in samples && Times(den, upTo) >= Times(|samples|, num) && (below == 0 || Times(den, below) < Times(|samples|, num))
  }

  lemma RankedIsNearest(samples: seq<nat>, num: nat, den: nat, v: nat)
    requires den > 0 && NearestRank(samples, Rank(|samples|, num, den), v)
    ensures NearestTo(samples, num, den, v)
  {
    hide CountIf, Rank;
    var below, upTo := CountIf(samples, Below(v)), CountIf(samples, AtMost(v));
    RankIsLeast(|samples|, num, den, below);
    var r := Rank(|samples|, num, den);
    MulMonotone(den, r, upTo);
    assert Times(den, r) <= Times(den, upTo);
  }

  /** Every rank up to the number of samples is somebody's. */
  lemma {:induction false} RankIsTaken(samples: seq<nat>, r: nat, bound: nat) returns (v: nat)
    requires 1 <= r <= CountIf(samples, AtMost(bound))
    ensures NearestRank(samples, r, v)
  {
    NothingBelow(samples);
    if CountIf(samples, Below(bound)) < r {
      v := bound;
      if bound !in samples {
        CountImplies(samples, AtMost(bound), Below(bound));
        assert false;
      }
    } else {
      CountImplies(samples, Below(bound), AtMost(bound - 1));
      v := RankIsTaken(samples, r, bound - 1);
    }
  }

  lemma {:induction false} NothingBelow(samples: seq<nat>)
    ensures CountIf(samples, Below(0)) == 0
  {
    if samples != [] {
      NothingBelow(samples[..|samples| - 1]);
    }
  }

  function Max(samples: seq<nat>): (m: nat)
    ensures forall us :: us in samples ==> us <= m
  {
    if samples == [] then 0
    else
      var m := Max(samples[..|samples| - 1]);
      assert samples == samples[..|samples| - 1] + [samples[|samples| - 1]];
      if m < samples[|samples| - 1] then samples[|samples| - 1] else m
  }

  /** The first bucket by which `r` samples have been seen, scanning from bucket `k`. */
  function Scan(c: seq<nat>, r: nat, k: nat): nat
    requires k <= |c| == BUCKETS
    decreases |c| - k
  {
    if k == |c| then BUCKETS - 1
    else if Sum(c[..k + 1]) >= r then k
    else Scan(c, r, k + 1)
  }

  function Quantile(c: seq<nat>, num: nat, den: nat): nat
    requires |c| == BUCKETS && den > 0
  {
    if Sum(c) == 0 then 0 else BucketUpper(Scan(c, Rank(Sum(c), num, den), 0))
  }

  /** Before `v`'s bucket the scan has seen too few samples; in it, enough. */
  lemma BucketOfRank(samples: seq<nat>, r: nat, v: nat)
    requires NearestRank(samples, r, v)
    ensures CountIf(samples, Before(BucketOf(v))) < r <= CountIf(samples, Before(BucketOf(v) + 1))
  {
    forall us | us in samples
      ensures (BucketOf(us) < BucketOf(v) ==> us < v) && (us <= v ==> BucketOf(us) <= BucketOf(v))
    {
      if us <= v {
        BucketMonotone(us, v);
      } else {
        BucketMonotone(v, us);
      }
    }
    hide BucketOf;
    CountImplies(samples, Before(BucketOf(v)), Below(v));
    CountImplies(samples, AtMost(v), Before(BucketOf(v) + 1));
  }

  lemma {:induction false} BeforeMonotone(samples: seq<nat>, k: nat, l: nat)
    requires k <= l
    ensures CountIf(samples, Before(k)) <= CountIf(samples, Before(l))
  {
    hide BucketOf;
    CountImplies(samples, Before(k), Before(l));
  }

  lemma {:induction false} ScanFinds(samples: seq<nat>, r: nat, v: nat, k: nat)
    requires NearestRank(samples, r, v) && k <= BucketOf(v)
    ensures Scan(Tally(samples), r, k) == BucketOf(v)
    decreases BUCKETS - k
  {
    hide Tally, CountIf, BucketOf, NearestRank;
    var b := BucketOf(v);
    BucketOfRank(samples, r, v);
    PrefixSum(samples, k + 1);
    if k < b {
      BeforeMonotone(samples, k + 1, b);
      ScanFinds(samples, r, v, k + 1);
    }
  }

  /** The quantile is decided by the nearest-rank sample alone: it is the upper bound of
      that sample's bucket. So, for every list of samples and every fraction from 0 to 1,
      it is zero if and only if the sample is; it is never more than twice the sample;
      and it is no less than the sample if and only if the sample is at most 2^23. */
  lemma QuantileBound(samples: seq<nat>, num: nat, den: nat) returns (v: nat)
    requires samples != [] && den > 0 && num <= den
    ensures NearestTo(samples, num, den, v)
    ensures var q := Quantile(Tally(samples), num, den);
            q == BucketUpper(BucketOf(v)) && (q == 0 <==> v == 0) && (v >= 1 ==> q <= 2 * v) &&
            (v <= q <==> v <= 8_388_608) && (v > 8_388_608 ==> q == 8_388_608)
  {
    hide Tally, CountIf, BucketOf, NearestRank, NearestTo, Rank;
    var r := Rank(|samples|, num, den);
    RankInRange(|samples|, num, den);
    var top := Max(samples);
    CountBound(samples, AtMost(top));
    v := RankIsTaken(samples, r, top);
    RankedIsNearest(samples, num, den, v);
    TallyTotal(samples);
    ScanFinds(samples, r, v, 0);
    UpperBounds(v);
  }

  lemma NoSamples(num: nat, den: nat)
    requires den > 0
    ensures Quantile(Tally([]), num, den) == 0
  {
    TallyTotal([]);
  }

  /** There is only one nearest-rank sample. */
  lemma NearestIsUnique(samples: seq<nat>, num: nat, den: nat, v: nat, w: nat)
    requires NearestTo(samples, num, den, v) && NearestTo(samples, num, den, w)
    ensures v == w
  {
    hide CountIf, Times;
    if v < w {
      NotBoth(samples, num, den, v, w);
    } else if w < v {
      NotBoth(samples, num, den, w, v);
    }
  }

  lemma NotBoth(samples: seq<nat>, num: nat, den: nat, v: nat, w: nat)
    requires v < w && NearestTo(samples, num, den, v)
    ensures !NearestTo(samples, num, den, w)
  {
    hide CountIf;
    CountImplies(samples, AtMost(v), Below(w));
    CountBound(samples, Below(w));
    assert Below(w)(v);
    var upTo, below := CountIf(samples, AtMost(v)), CountIf(samples, Below(w));
    MulMonotone(den, upTo, below);
    assert Times(den, upTo) <= Times(den, below);
  }

  method QuantileOf(c: seq<nat>, num: nat, den: nat) returns (q: nat)
    requires |c| == BUCKETS && den > 0
    ensures q == Quantile(c, num, den)
  {
    var total := 0;
    for k := 0 to |c|
      invariant total == Sum(c[..k])
    {
      assert c[..k + 1][..k] == c[..k];
      total := total + c[k];
    }
    assert c[..|c|] == c;
    if total == 0 {
      return 0;
    }
    var target := (total * num + den - 1) / den;
    if target < 1 {
      target := 1;
    }
    var acc := 0;
    for k := 0 to |c|
      invariant acc == Sum(c[..k])
      invariant Scan(c, target, k) == Scan(c, target, 0)
    {
      assert c[..k + 1][..k] == c[..k];
      acc := acc + c[k];
      if acc >= target {
        return BucketUpper(k);
      }
    }
    q := BucketUpper(BUCKETS - 1);
  }

  // ---------------------------------------------------------------------------

  class Histogram {
    const counts: array<nat>
    ghost var samples: seq<nat>

    ghost predicate Valid()
      reads this, counts
    {
      counts.Length == BUCKETS && counts[..] == Tally(samples)
    }

    constructor ()
      ensures Valid() && fresh(counts) && samples == []
    {
      counts := new nat[BUCKETS](_ => 0);
      samples := [];
    }

    method Record(us: nat)
      requires Valid()
      modifies this, counts
      ensures Valid() && samples == old(samples) + [us]
    {
      TallyOneMore(samples, us);
      counts[BucketOf(us)] := counts[BucketOf(us)] + 1;
      samples := samples + [us];
    }

    /** Takes the window's counts and starts the next window empty. */
    method Drain() returns (window: array<nat>)
      requires Valid()
      modifies this, counts
      ensures Valid() && samples == [] && fresh(window)
      ensures window[..] == Tally(old(samples))
    {
      window := new nat[BUCKETS](_ => 0);
      for k := 0 to BUCKETS
        invariant forall i :: 0 <= i < BUCKETS ==> window[i] == if i < k then old(counts[i]) else 0
        invariant forall i :: 0 <= i < BUCKETS ==> counts[i] == if i < k then 0 else old(counts[i])
      {
        window[k], counts[k] := counts[k], 0;
      }
      samples := [];
      assert window[..] == old(counts[..]);
    }
  }

  // ---------------------------------------------------------------------------
  // Draining while samples are being recorded.

  datatype Event = Recorded(us: nat) | Taken(k: nat)

  datatype Tables = Tables(counts: seq<nat>, window: seq<nat>)

  predicate WellFormed(t: Tables) { |t.counts| == BUCKETS == |t.window| }

  function Happen(t: Tables, e: Event): (u: Tables)
    requires WellFormed(t)
    ensures WellFormed(u)
  {
    match e
    case Recorded(us) => t.(counts := t.counts[BucketOf(us) := t.counts[BucketOf(us)] + 1])
    case Taken(k) =>
      if k < BUCKETS then Tables(t.counts[k := 0], t.window[k := t.counts[k]]) else t
  }

  function HappenAll(t: Tables, es: seq<Event>): (u: Tables)
    requires WellFormed(t)
    ensures WellFormed(u)
  {
    if es == [] then t else Happen(HappenAll(t, es[..|es| - 1]), es[|es| - 1])
  }

  function Recordings(es: seq<Event>): seq<nat> {
    if es == [] then []
    else
      var e := es[|es| - 1];
      Recordings(es[..|es| - 1]) + (if e.Recorded? then [e.us] else [])
  }

  ghost predicate TakenOnce(es: seq<Event>) {
    forall i, j :: 0 <= i < j < |es| && es[i].Taken? && es[j].Taken? ==> es[i].k != es[j].k
  }

  predicate TakenIn(es: seq<Event>, k: nat) { Taken(k) in es }

  /** Buckets are taken one by one, so samples may arrive in between. Each is in this
      window or left for the next, never lost and never counted twice. */
  lemma {:induction false} DrainLosesNothing(start: seq<nat>, es: seq<Event>, k: nat)
    requires TakenOnce(es) && k < BUCKETS
    ensures var t := HappenAll(Tables(Tally(start), seq(BUCKETS, _ => 0)), es);
            t.window[k] + t.counts[k] == Tally(start + Recordings(es))[k] &&
            (!TakenIn(es, k) ==> t.window[k] == 0)
    decreases |es|
  {
    hide BucketOf, Tally;
    if es == [] {
      assert start + Recordings(es) == start;
    } else {
      var n := |es| - 1;
      var e := es[n];
      DrainLosesNothing(start, es[..n], k);
      var before := start + Recordings(es[..n]);
      if e.Recorded? {
        assert start + Recordings(es) == before + [e.us];
        TallyOneMore(before, e.us);
      } else {
        assert start + Recordings(es) == before;
        assert e.k == k ==> !TakenIn(es[..n], k);
      }
    }
  }
}
