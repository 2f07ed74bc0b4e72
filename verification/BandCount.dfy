/** Folding a frame's band plan into the per-pane table: one note per pane, found by
    scanning runs of equal pane ids without a map. */
module BandCounts {
  import opened Bytes
  import opened PaneTables
  import opened BandPlans
  import opened FiniteSets

  function Bit(band: nat): nat { if band < 63 then band else 63 }

  lemma BitFits(band: nat)
    ensures Bit(band) < 64 && (band < 64 ==> Bit(band) == band) && (band >= 64 ==> Bit(band) == 63)
  {
  }

  /** The bits of the dirty bands among the plans from `i` to `j`; bands from 63 on share
      the top bit. */
  function Bits(ps: seq<Plan>, i: nat, j: nat): set<nat>
    requires i <= j <= |ps|
  {
    set k | i <= k < j && ps[k].dirty :: Bit(ps[k].key.1)
  }

  /** How many plans from `i` on belong to pane `id` without a break. */
  function RunEnd(ps: seq<Plan>, id: nat, i: nat): (j: nat)
    requires i <= |ps|
    ensures i <= j <= |ps| && (forall k :: i <= k < j ==> ps[k].key.0 == id)
    ensures j < |ps| ==> ps[j].key.0 != id
    decreases |ps| - i
  {
    if i == |ps| || ps[i].key.0 != id then i else RunEnd(ps, id, i + 1)
  }

  /** One note for each run of equal pane ids. */
  function Notes(ps: seq<Plan>, i: nat): seq<Op>
    requires i <= |ps|
    decreases |ps| - i
  {
    if i == |ps| then []
    else
      var j := RunEnd(ps, ps[i].key.0, i);
      [NoteBands(ps[i].key.0, Bits(ps, i, j), j - i)] + Notes(ps, j)
  }

  /** Where the plans of one pane are. */
  function Of(ps: seq<Plan>, id: nat): set<int> {
    set k | 0 <= k < |ps| && ps[k].key.0 == id
  }

  /** The bits of the pane's dirty bands. */
  function BitsOf(ps: seq<Plan>, id: nat): set<nat> {
    set k | k in Of(ps, id) && ps[k].dirty :: Bit(ps[k].key.1)
  }

  ghost predicate Contiguous(ps: seq<Plan>) {
    forall i, j, k :: 0 <= i < j < k < |ps| && ps[i].key.0 == ps[k].key.0 ==> ps[j].key.0 == ps[i].key.0
  }

  lemma OfRun(ps: seq<Plan>, id: nat, i: nat, j: nat)
    requires i <= j <= |ps|
    requires forall k :: 0 <= k < |ps| ==> (ps[k].key.0 == id <==> i <= k < j)
    ensures |Of(ps, id)| == j - i && BitsOf(ps, id) == Bits(ps, i, j)
  {
    RangeSize(i, j);
    assert Of(ps, id) == Range(i, j);
  }

  /** A note that is the whole of its pane's plan. */
  ghost predicate WholePane(ps: seq<Plan>, n: Op) {
    n == NoteBands(n.id, BitsOf(ps, n.id), |Of(ps, n.id)|)
  }

  ghost predicate PaneFrom(ps: seq<Plan>, i: nat, id: nat) {
    exists k :: i <= k < |ps| && ps[k].key.0 == id
  }

  /** Each note is the whole of its pane's plan, no pane is noted twice, and every
      pane from `i` on is noted. */
  ghost predicate Grouped(ps: seq<Plan>, i: nat, ns: seq<Op>) {
    (forall x :: 0 <= x < |ns| ==> WholePane(ps, ns[x]) && PaneFrom(ps, i, ns[x].id)) &&
    (forall x, y :: 0 <= x < y < |ns| ==> ns[x].id != ns[y].id) &&
    (forall id :: PaneFrom(ps, i, id) ==> exists x :: 0 <= x < |ns| && ns[x].id == id)
  }

  lemma {:induction false} NotesGroup(ps: seq<Plan>, i: nat)
    requires Contiguous(ps) && i <= |ps|
    requires i < |ps| ==> forall k :: 0 <= k < i ==> ps[k].key.0 != ps[i].key.0
    ensures Grouped(ps, i, Notes(ps, i))
    decreases |ps| - i
  {
    hide Grouped, Of, BitsOf, Bits, RunEnd;
    if i == |ps| {
      NothingGrouped(ps);
    } else {
      var id := ps[i].key.0;
      var j := RunEnd(ps, id, i);
      NotesFrom(ps, i, j);
      RunIsWhole(ps, i);
      NotesGroup(ps, j);
      OfRun(ps, id, i, j);
      GroupStep(ps, i, j, id, Notes(ps, j));
    }
  }

  lemma NothingGrouped(ps: seq<Plan>)
    ensures Grouped(ps, |ps|, [])
  {
  }

  lemma GroupStep(ps: seq<Plan>, i: nat, j: nat, id: nat, rest: seq<Op>)
    requires i < j <= |ps| && forall k :: 0 <= k < |ps| ==> (ps[k].key.0 == id <==> i <= k < j)
    requires |Of(ps, id)| == j - i && BitsOf(ps, id) == Bits(ps, i, j) && Grouped(ps, j, rest)
    ensures Grouped(ps, i, [NoteBands(id, Bits(ps, i, j), j - i)] + rest)
  {
    hide Bits, BitsOf, Of;
    var ns := [NoteBands(id, Bits(ps, i, j), j - i)] + rest;
    assert ps[i].key.0 == id;
    assert WholePane(ps, ns[0]) && PaneFrom(ps, i, id);
    assert !PaneFrom(ps, j, id);
    forall c | PaneFrom(ps, i, c) ensures exists x :: 0 <= x < |ns| && ns[x].id == c {
      if c == id {
        assert ns[0].id == c;
      } else {
        assert PaneFrom(ps, j, c);
        var x :| 0 <= x < |rest| && rest[x].id == c;
        assert ns[x + 1].id == c;
      }
    }
    forall c | PaneFrom(ps, j, c) ensures PaneFrom(ps, i, c) {
    }
  }

  lemma RunIsWhole(ps: seq<Plan>, i: nat)
    requires Contiguous(ps) && i < |ps|
    requires forall k :: 0 <= k < i ==> ps[k].key.0 != ps[i].key.0
    ensures var j := RunEnd(ps, ps[i].key.0, i);
            i < j && (forall k :: 0 <= k < |ps| ==> (ps[k].key.0 == ps[i].key.0 <==> i <= k < j)) &&
            (j < |ps| ==> forall k :: 0 <= k < j ==> ps[k].key.0 != ps[j].key.0)
  {
    var j := RunEnd(ps, ps[i].key.0, i);
    forall k | j <= k < |ps| ensures ps[k].key.0 != ps[i].key.0 {
      assert k > j ==> ps[j].key.0 != ps[i].key.0;
    }
    if j < |ps| {
      forall k | 0 <= k < i ensures ps[k].key.0 != ps[j].key.0 {
        assert ps[i].key.0 != ps[k].key.0;
      }
    }
  }

  /** The plan of a frame with distinct panes is contiguous, so each pane's frame
      count grows by one and its bits and total are exactly its own. */
  lemma PlanIsContiguous(panes: seq<Pane>, look: Look, prev: map<Key, u64>, force: bool, out: seq<Plan>)
    requires DistinctIds(panes) && Planned(Places(panes, look), prev, force, out)
    ensures Contiguous(out)
  {
    hide Places, PlanOf, InputOf;
    forall i, j, k | 0 <= i < j < k < |out| && out[i].key.0 == out[k].key.0
      ensures out[j].key.0 == out[i].key.0
    {
      var a, b := PlaceOrigin(panes, look, i);
      var c, d := PlaceOrigin(panes, look, j);
      var e, f := PlaceOrigin(panes, look, k);
      PlanKey(Places(panes, look)[i], prev, force);
      PlanKey(Places(panes, look)[j], prev, force);
      PlanKey(Places(panes, look)[k], prev, force);
      assert a == e;
      if c < a {
        BaseGrows(panes, c + 1, a);
      } else if c > a {
        BaseGrows(panes, a + 1, c);
      }
    }
  }

  /** So counting any frame's plan notes each pane with bands exactly once. */
  lemma FrameCountsEachPaneOnce(panes: seq<Pane>, look: Look, prev: map<Key, u64>, force: bool, out: seq<Plan>)
    requires DistinctIds(panes) && Planned(Places(panes, look), prev, force, out)
    ensures Grouped(out, 0, Notes(out, 0))
  {
    PlanIsContiguous(panes, look, prev, force, out);
    NotesGroup(out, 0);
  }

  lemma PlanKey(pl: Place, prev: map<Key, u64>, force: bool)
    ensures PlanOf(pl, prev, force).key == pl.key
  {
  }

  class BandTotals {
    var dirty: nat
    var total: nat
    var segments: nat

    constructor ()
      ensures dirty == 0 && total == 0 && segments == 0
    {
      dirty, total, segments := 0, 0, 0;
    }
  }

  function DirtyOnes(ps: seq<Plan>, n: nat): set<int>
    requires n <= |ps|
  {
    set k | 0 <= k < n && ps[k].dirty
  }

  method CountDirty(ps: seq<Plan>) returns (n: nat)
    ensures n == |DirtyOnes(ps, |ps|)|
  {
    n := 0;
    assert DirtyOnes(ps, 0) == {};
    for i := 0 to |ps|
      invariant n == |DirtyOnes(ps, i)|
    {
      assert DirtyOnes(ps, i + 1) == DirtyOnes(ps, i) + (if ps[i].dirty then {i} else {});
      if ps[i].dirty {
        n := n + 1;
      }
    }
  }

  /** The inner loop: one pane's run of plans. */
  method ReadRun(ps: seq<Plan>, start: nat) returns (end: nat, bits: set<nat>, total: nat)
    requires start < |ps|
    ensures end == RunEnd(ps, ps[start].key.0, start) && bits == Bits(ps, start, end) && total == end - start
  {
    var pane := ps[start].key.0;
    end, bits, total := start, {}, 0;
    while end < |ps| && ps[end].key.0 == pane
      invariant start <= end <= |ps| && RunEnd(ps, pane, start) == RunEnd(ps, pane, end)
      invariant bits == Bits(ps, start, end) && total == end - start
    {
      BitsMore(ps, start, end);
      if ps[end].dirty {
        bits := bits + {Bit(ps[end].key.1)};
      }
      total := total + 1;
      end := end + 1;
    }
  }

  lemma BitsMore(ps: seq<Plan>, i: nat, j: nat)
    requires i <= j < |ps|
    ensures Bits(ps, i, j + 1) == Bits(ps, i, j) + (if ps[j].dirty then {Bit(ps[j].key.1)} else {})
  {
    var more := Bits(ps, i, j + 1);
    if ps[j].dirty {
      assert Bit(ps[j].key.1) in more;
    }
    forall b | b in Bits(ps, i, j) ensures b in more {
      var k :| i <= k < j && ps[k].dirty && Bit(ps[k].key.1) == b;
      assert i <= k < j + 1;
    }
  }

  lemma NotesFrom(ps: seq<Plan>, i: nat, j: nat)
    requires i < |ps| && j == RunEnd(ps, ps[i].key.0, i)
    ensures i < j <= |ps|
    ensures Notes(ps, i) == [NoteBands(ps[i].key.0, Bits(ps, i, j), j - i)] + Notes(ps, j)
  {
  }

  lemma OneMoreAct(t: Panes, done: seq<Op>, op: Op)
    requires Eight(t)
    ensures Acts(t, done + [op]) == Act(Acts(t, done), op)
  {
    assert (done + [op])[..|done|] == done;
  }

  method NotePanes(table: PaneTable, ps: seq<Plan>)
    requires table.Valid()
    modifies table, table.slots
    ensures table.Valid() && Eight(old(table.View()))
    ensures table.View() == Acts(old(table.View()), Notes(ps, 0))
  {
    hide Acts, Act, Notes, Bits, RunEnd;
    var i := 0;
    ghost var start := table.View();
    ghost var done: seq<Op> := [];
    assert Eight(start) && Acts(start, []) == start by { NoActs(start); }
    while i < |ps|
      invariant i <= |ps| && table.Valid() && Eight(start)
      invariant table.View() == Acts(start, done)
      invariant done + Notes(ps, i) == Notes(ps, 0)
    {
      var pane := ps[i].key.0;
      var j, bits, total := ReadRun(ps, i);
      table.Note(pane, bits, total);
      ghost var op := NoteBands(pane, bits, total);
      OneMoreAct(start, done, op);
      NotesFrom(ps, i, j);
      assert done + ([op] + Notes(ps, j)) == done + [op] + Notes(ps, j);
      done := done + [op];
      i := j;
    }
    NoMoreNotes(ps);
    assert done + [] == done;
  }

  lemma NoActs(t: Panes)
    requires Eight(t)
    ensures Acts(t, []) == t
  {
  }

  lemma NoMoreNotes(ps: seq<Plan>)
    ensures Notes(ps, |ps|) == []
  {
  }

  method CountBands(totals: BandTotals, table: PaneTable, ps: seq<Plan>, segments: nat)
    requires table.Valid()
    modifies totals, table, table.slots
    ensures table.Valid() && Eight(old(table.View()))
    ensures table.View() == Acts(old(table.View()), Notes(ps, 0))
    ensures totals.dirty == old(totals.dirty) + |DirtyOnes(ps, |ps|)| && totals.total == old(totals.total) + |ps|
    ensures totals.segments == old(totals.segments) + if ps == [] then 0 else segments
  {
    if ps == [] {
      return;
    }
    var d := CountDirty(ps);
    totals.dirty := totals.dirty + d;
    totals.total := totals.total + |ps|;
    totals.segments := totals.segments + segments;
    NotePanes(table, ps);
  }
}
