/** Who gets one of a fixed number of slots: shared by the two attribution tables. */
module Seating {
  const TABLE_SLOTS: nat := 8

  /** The distinct keys in order of first appearance. */
  function Distinct(ks: seq<nat>): (ds: seq<nat>)
    ensures forall k :: k in ds <==> k in ks
    ensures forall i, j :: 0 <= i < j < |ds| ==> ds[i] != ds[j]
  {
    if ks == [] then []
    else
      var n := |ks| - 1;
      var ds := Distinct(ks[..n]);
      assert ks == ks[..n] + [ks[n]];
      if ks[n] in ds then ds else ds + [ks[n]]
  }

  /** The keys that get a slot: the first eight distinct ones. */
  function Seated(ks: seq<nat>): (ds: seq<nat>)
    ensures |ds| <= TABLE_SLOTS
  {
    var ds := Distinct(ks);
    if |ds| <= TABLE_SLOTS then ds else ds[..TABLE_SLOTS]
  }

  function Active(hits: seq<nat>): nat {
    if hits == [] then 0
    else Active(hits[..|hits| - 1]) + (if hits[|hits| - 1] > 0 then 1 else 0)
  }

  lemma {:induction false} ActiveUpdate(hits: seq<nat>, i: nat, h: nat)
    requires i < |hits| && h > 0
    ensures Active(hits[i := h]) == Active(hits) + (if hits[i] > 0 then 0 else 1)
    decreases |hits|
  {
    var n := |hits| - 1;
    if i < n {
      ActiveUpdate(hits[..n], i, h);
      assert hits[i := h][..n] == hits[..n][i := h];
    } else {
      assert hits[i := h][..n] == hits[..n];
    }
  }

  lemma {:induction false} ActiveBound(hits: seq<nat>)
    ensures Active(hits) <= |hits|
    ensures Active(hits) == |hits| ==> forall i :: 0 <= i < |hits| ==> hits[i] > 0
    ensures Active(hits) == 0 <==> forall i :: 0 <= i < |hits| ==> hits[i] == 0
    decreases |hits|
  {
    if hits != [] {
      ActiveBound(hits[..|hits| - 1]);
      assert forall i :: 0 <= i < |hits| - 1 ==> hits[..|hits| - 1][i] == hits[i];
    }
  }

  lemma SeatedStep(ks: seq<nat>, k: nat)
    ensures var seats, seats' := Seated(ks), Seated(ks + [k]);
            seats' == if k in seats || |seats| == TABLE_SLOTS then seats else seats + [k]
  {
    assert (ks + [k])[..|ks|] == ks;
    var ds := Distinct(ks);
    if |ds| > TABLE_SLOTS {
      assert (ds + [k])[..TABLE_SLOTS] == ds[..TABLE_SLOTS];
    }
  }

  lemma {:induction false} ActiveAll(hits: seq<nat>)
    requires forall i :: 0 <= i < |hits| ==> hits[i] > 0
    ensures Active(hits) == |hits|
    decreases |hits|
  {
    if hits != [] {
      ActiveAll(hits[..|hits| - 1]);
    }
  }
}
