/** Planning a frame's bands, and what the plan guarantees over a run of frames in
    which only the dirty bands are rebuilt. */
module BandPlans {
  import opened Bytes
  import opened Fingerprints
  import opened Bands
  import opened FiniteSets

  /** The rows of a pane with the parts of its state that show. Row numbers are 16-bit
      and the last band's end, `lo + BAND_ROWS`, must fit as well. */
  type Rows = s: seq<u64> | |s| <= 65520 witness []

  datatype Pane = Pane(id: u32, rows: Rows, termPx: PxRect, cols: u16, cursorRow: u16, cursorCol: u16,
                       cursorVisible: bool, preedit: Text, fakeOff: Option<(u16, u16)>)

  datatype Look = Look(style: u64, defaultFg: Rgb, preeditFg: Rgb)

  type Key = (nat, nat)

  datatype Plan = Plan(key: Key, fp: u64, dirty: bool)

  function Lo(b: nat): nat { b * BAND_ROWS }

  function Hi(p: Pane, b: nat): nat {
    if Lo(b) + BAND_ROWS < |p.rows| then Lo(b) + BAND_ROWS else |p.rows|
  }

  predicate HasPreedit(p: Pane, b: nat) {
    p.preedit != [] && p.cursorVisible && Lo(b) <= p.cursorRow < Hi(p, b)
  }

  /** What shows in band `b` of a pane. */
  function InputOf(p: Pane, look: Look, b: nat): BandInput
    requires b < BandCount(|p.rows|)
  {
    var here := HasPreedit(p, b);
    BandInput(p.rows[Lo(b)..Hi(p, b)], p.termPx, look.style, look.defaultFg, p.cols,
              if here then p.preedit else [], if here then p.cursorCol else 0, look.preeditFg,
              if p.fakeOff.Some? && Lo(b) <= p.fakeOff.value.0 < Hi(p, b) then p.fakeOff else None)
  }

  /** The input behind a place in the plan: bands follow panes, in order. */
  datatype Place = Place(key: Key, input: BandInput)

  function PanePlaces(p: Pane, look: Look): seq<Place> {
    seq(BandCount(|p.rows|), b requires 0 <= b < BandCount(|p.rows|) => Place((p.id, b), InputOf(p, look, b)))
  }

  function Places(panes: seq<Pane>, look: Look): seq<Place> {
    if panes == [] then [] else Places(panes[..|panes| - 1], look) + PanePlaces(panes[|panes| - 1], look)
  }

  function IsDirty(prev: Option<u64>, now: u64, force: bool): bool {
    force || prev.None? || prev.value != now
  }

  function Lookup(prev: map<Key, u64>, k: Key): Option<u64> {
    if k in prev then Some(prev[k]) else None
  }

  function PlanOf(pl: Place, prev: map<Key, u64>, force: bool): Plan {
    Plan(pl.key, BandFp(pl.input), IsDirty(Lookup(prev, pl.key), BandFp(pl.input), force))
  }

  /** The entry of a place: under its key, with the digest of its input, to be rebuilt
      exactly if that is asked for or no equal digest is on record. */
  lemma PlanIsDirtyIff(pl: Place, prev: map<Key, u64>, force: bool)
    ensures var plan := PlanOf(pl, prev, force);
            plan.key == pl.key && plan.fp == Digest(FNV_OFFSET, BandBytes(pl.input)) &&
            (plan.dirty <==> force || pl.key !in prev || prev[pl.key] != plan.fp)
  {
  }

  ghost predicate Planned(places: seq<Place>, prev: map<Key, u64>, force: bool, out: seq<Plan>) {
    |out| == |places| && forall i :: 0 <= i < |out| ==> out[i] == PlanOf(places[i], prev, force)
  }

  lemma PlannedAppend(a: seq<Place>, b: seq<Place>, prev: map<Key, u64>, force: bool, out: seq<Plan>, more: seq<Plan>)
    requires Planned(a, prev, force, out) && Planned(b, prev, force, more)
    ensures Planned(a + b, prev, force, out + more)
  {
    hide PlanOf;
  }

  method PlanPane(p: Pane, prev: map<Key, u64>, look: Look, force: bool) returns (out: seq<Plan>)
    ensures Planned(PanePlaces(p, look), prev, force, out)
  {
    hide BandFp, InputOf;
    out := [];
    for b := 0 to BandCount(|p.rows|)
      invariant |out| == b
      invariant forall c :: 0 <= c < b ==> out[c] == PlanOf(PanePlaces(p, look)[c], prev, force)
    {
      var fp := Fingerprint(InputOf(p, look, b));
      out := out + [Plan((p.id, b), fp, IsDirty(Lookup(prev, (p.id, b)), fp, force))];
    }
  }

  method PlanBands(panes: seq<Pane>, prev: map<Key, u64>, look: Look, force: bool) returns (out: seq<Plan>)
    ensures Planned(Places(panes, look), prev, force, out)
  {
    out := [];
    for i := 0 to |panes|
      invariant Planned(Places(panes[..i], look), prev, force, out)
    {
      assert panes[..i + 1][..i] == panes[..i];
      var more := PlanPane(panes[i], prev, look, force);
      PlannedAppend(Places(panes[..i], look), PanePlaces(panes[i], look), prev, force, out, more);
      out := out + more;
    }
    assert panes[..|panes|] == panes;
  }

  /** The end of a band computed in 16 bits, wrapping. */
  function HiU16(rows: u16, b: nat): nat {
    var end := (Lo(b) + BAND_ROWS) % TWO_16;
    if end < rows then end else rows
  }

  /** Exactly up to 65520 rows, the bands reach every row; above, the last rows
      belong to a band whose end has wrapped to zero. */
  lemma BandsReachEveryRow(rows: u16)
    ensures (forall r: nat :: r < rows ==> r < HiU16(rows, BandOf(r))) <==> rows <= 65520
  {
    if rows > 65520 {
      assert BandOf(65520) == 4095 && HiU16(rows, 4095) == 0;
      assert !(65520 < HiU16(rows, BandOf(65520)));
    } else {
      forall r: nat | r < rows ensures r < HiU16(rows, BandOf(r)) {
        assert Lo(BandOf(r)) <= 65504;
      }
    }
  }

  // ---------------------------------------------------------------------------
  // Every row has its band, and only that one.

  /** Where a pane's bands start. */
  function Base(panes: seq<Pane>, i: nat): nat
    requires i <= |panes|
  {
    if i == 0 then 0 else Base(panes, i - 1) + BandCount(|panes[i - 1].rows|)
  }

  lemma {:induction false} BaseGrows(panes: seq<Pane>, i: nat, j: nat)
    requires i <= j <= |panes|
    ensures Base(panes, i) <= Base(panes, j)
    decreases j
  {
    if i < j { BaseGrows(panes, i, j - 1); }
  }

  ghost predicate DistinctIds(panes: seq<Pane>) {
    forall i, j :: 0 <= i < j < |panes| ==> panes[i].id != panes[j].id
  }

  lemma RowInBand(p: Pane, r: nat)
    requires r < |p.rows|
    ensures BandOf(r) < BandCount(|p.rows|)
    ensures Lo(BandOf(r)) <= r < Hi(p, BandOf(r))
    ensures forall b :: b != BandOf(r) ==> !(Lo(b) <= r < Hi(p, b))
  {
    forall b: nat | Lo(b) <= r < Hi(p, b) ensures b == BandOf(r) {
      assert 16 * b <= r < 16 * b + 16;
    }
  }

  lemma {:induction false} PlacesLength(panes: seq<Pane>, look: Look, n: nat)
    requires n <= |panes|
    ensures |Places(panes[..n], look)| == Base(panes, n)
    decreases n
  {
    if n > 0 {
      PlacesLength(panes, look, n - 1);
      assert panes[..n][..n - 1] == panes[..n - 1];
    }
  }

  /** Band `b` of pane `i` sits at `Base(i) + b`. */
  lemma {:induction false} PlaceAt(panes: seq<Pane>, look: Look, n: nat, i: nat, b: nat)
    requires i < n <= |panes| && b < BandCount(|panes[i].rows|)
    ensures Base(panes, i) + b < |Places(panes[..n], look)|
    ensures Places(panes[..n], look)[Base(panes, i) + b] == Place((panes[i].id, b), InputOf(panes[i], look, b))
    decreases n
  {
    hide InputOf, BandCount;
    assert panes[..n][..n - 1] == panes[..n - 1];
    PlacesLength(panes, look, n - 1);
    if i < n - 1 {
      PlaceAt(panes, look, n - 1, i, b);
    }
  }

  /** Which pane and band a place belongs to. */
  lemma {:induction false} Whose(panes: seq<Pane>, n: nat, x: nat) returns (i: nat, b: nat)
    requires n <= |panes| && x < Base(panes, n)
    ensures i < n && b < BandCount(|panes[i].rows|) && x == Base(panes, i) + b
    decreases n
  {
    if x >= Base(panes, n - 1) {
      i, b := n - 1, x - Base(panes, n - 1);
    } else {
      i, b := Whose(panes, n - 1, x);
    }
  }

  /** The place of row `r` of pane `i`. */
  function PlaceOf(panes: seq<Pane>, i: nat, r: nat): nat
    requires i < |panes|
  {
    Base(panes, i) + BandOf(r)
  }

  lemma PlaceIn(panes: seq<Pane>, look: Look, i: nat, b: nat)
    requires i < |panes| && b < BandCount(|panes[i].rows|)
    ensures Base(panes, i) + b < |Places(panes, look)|
    ensures Places(panes, look)[Base(panes, i) + b] == Place((panes[i].id, b), InputOf(panes[i], look, b))
  {
    PlaceAt(panes, look, |panes|, i, b);
    assert panes[..|panes|] == panes;
  }

  /** Every place is some pane's band. */
  lemma PlaceOrigin(panes: seq<Pane>, look: Look, x: nat) returns (i: nat, b: nat)
    requires x < |Places(panes, look)|
    ensures i < |panes| && b < BandCount(|panes[i].rows|) && x == Base(panes, i) + b
    ensures Places(panes, look)[x] == Place((panes[i].id, b), InputOf(panes[i], look, b))
  {
    PlacesLength(panes, look, |panes|);
    assert panes[..|panes|] == panes;
    i, b := Whose(panes, |panes|, x);
    PlaceIn(panes, look, i, b);
  }

  /** Every visible row belongs to exactly one plan entry, found without a search at
      its pane's start plus its band number. */
  lemma RowHasOnePlace(panes: seq<Pane>, look: Look, i: nat, r: nat)
    requires i < |panes| && r < |panes[i].rows| && DistinctIds(panes)
    ensures BandOf(r) < BandCount(|panes[i].rows|)
    ensures var at := PlaceOf(panes, i, r);
            var places := Places(panes, look);
            at < |places| && places[at] == Place((panes[i].id, BandOf(r)), InputOf(panes[i], look, BandOf(r))) &&
            forall x :: 0 <= x < |places| && x != at ==> places[x].key != (panes[i].id, BandOf(r))
  {
    hide InputOf, Places, BandCount;
    RowInBand(panes[i], r);
    PlaceIn(panes, look, i, BandOf(r));
    var at, places := PlaceOf(panes, i, r), Places(panes, look);
    forall x | 0 <= x < |places| && x != at ensures places[x].key != (panes[i].id, BandOf(r)) {
      var j, b := PlaceOrigin(panes, look, x);
    }
  }

  /** The places of a frame never share a key. */
  lemma PlacesDistinct(panes: seq<Pane>, look: Look, x: nat, y: nat)
    requires DistinctIds(panes)
    requires x < |Places(panes, look)| && y < |Places(panes, look)|
    requires Places(panes, look)[x].key == Places(panes, look)[y].key
    ensures x == y
  {
    hide InputOf, Places, BandCount;
    var i, b := PlaceOrigin(panes, look, x);
    var j, c := PlaceOrigin(panes, look, y);
  }

  lemma SameLength(a: seq<Pane>, b: seq<Pane>, look: Look)
    requires |a| == |b| && Base(a, |a|) == Base(b, |b|)
    ensures |Places(a, look)| == |Places(b, look)|
  {
    PlacesLength(a, look, |a|);
    PlacesLength(b, look, |b|);
    assert a[..|a|] == a && b[..|b|] == b;
  }

  lemma {:induction false} BasesAgree(a: seq<Pane>, b: seq<Pane>, n: nat)
    requires |a| == |b| && n <= |a| && forall i :: 0 <= i < |a| ==> |a[i].rows| == |b[i].rows|
    ensures forall m :: 0 <= m <= n ==> Base(a, m) == Base(b, m)
    decreases n
  {
    if n > 0 { BasesAgree(a, b, n - 1); }
  }

  // ---------------------------------------------------------------------------
  // Runs of frames. `fps` is the record of the last rebuild of each band that can
  // still be trusted; `built` is what that rebuild was made from.

  datatype Screen = Screen(fps: map<Key, u64>, built: map<Key, BandInput>, force: bool)

  /** One frame's input; `failAt` is the place whose rebuild runs out of atlas. */
  datatype FrameIn = FrameIn(panes: seq<Pane>, look: Look, failAt: Option<nat>)

  /** Rebuild the dirty places before `n`, in order. */
  function Rebuild(s: Screen, places: seq<Place>, plans: seq<Plan>, n: nat): Screen
    requires n <= |places| == |plans|
  {
    if n == 0 then s
    else
      var t := Rebuild(s, places, plans, n - 1);
      var k := places[n - 1].key;
      if plans[n - 1].dirty
      then t.(fps := t.fps[k := plans[n - 1].fp], built := t.built[k := places[n - 1].input])
      else t
  }

  function KeysOf(places: seq<Place>): set<Key> {
    set i | 0 <= i < |places| :: places[i].key
  }

  function Plans(places: seq<Place>, prev: map<Key, u64>, force: bool): (out: seq<Plan>)
    ensures Planned(places, prev, force, out)
  {
    seq(|places|, i requires 0 <= i < |places| => PlanOf(places[i], prev, force))
  }

  /** A frame: plan, rebuild what is dirty, forget bands that are gone. When the atlas
      is full every recorded fingerprint is void and the next frame rebuilds all. */
  function Frame(s: Screen, f: FrameIn): Screen {
    var places := Places(f.panes, f.look);
    var plans := Plans(places, s.fps, s.force);
    if Fails(s, f) then
      var t := Rebuild(s, places, plans, f.failAt.value);
      Screen(map[], t.built, true)
    else
      var t := Rebuild(s, places, plans, |places|);
      Screen(map k | k in t.fps && k in KeysOf(places) :: t.fps[k], t.built, false)
  }

  /** A band that was to be rebuilt could not be. */
  predicate Fails(s: Screen, f: FrameIn) {
    var places := Places(f.panes, f.look);
    f.failAt.Some? && f.failAt.value < |places| && PlanOf(places[f.failAt.value], s.fps, s.force).dirty
  }

  const NOTHING: Screen := Screen(map[], map[], false)

  function Frames(s: Screen, fs: seq<FrameIn>): Screen {
    if fs == [] then s else Frame(Frames(s, fs[..|fs| - 1]), fs[|fs| - 1])
  }

  ghost predicate DistinctKeys(places: seq<Place>) {
    forall x, y :: 0 <= x < y < |places| ==> places[x].key != places[y].key
  }

  /** Every trusted fingerprint is that of what the band was last rebuilt from. */
  ghost predicate Honest(s: Screen) {
    forall k :: k in s.fps ==> k in s.built && s.fps[k] == BandFp(s.built[k])
  }

  lemma {:induction false} RebuildHonest(s: Screen, places: seq<Place>, force: bool, prev: map<Key, u64>, n: nat)
    requires Honest(s) && n <= |places|
    requires DistinctKeys(places)
    ensures var t := Rebuild(s, places, Plans(places, prev, force), n);
            Honest(t) &&
            (forall x :: 0 <= x < n && PlanOf(places[x], prev, force).dirty ==>
               places[x].key in t.fps && t.fps[places[x].key] == BandFp(places[x].input)
               && t.built[places[x].key] == places[x].input) &&
            (forall x :: 0 <= x < |places| && (x >= n || !PlanOf(places[x], prev, force).dirty) && places[x].key in s.fps ==>
               places[x].key in t.fps && t.fps[places[x].key] == s.fps[places[x].key])
    decreases n
  {
    hide BandFp, IsDirty, Lookup, Plans;
    if n > 0 {
      RebuildHonest(s, places, force, prev, n - 1);
    }
  }

  lemma {:induction false} FrameShows(s: Screen, f: FrameIn, x: nat)
    requires Honest(s) && DistinctIds(f.panes) && f.failAt.None? && x < |Places(f.panes, f.look)|
    ensures var place, t := Places(f.panes, f.look)[x], Frame(s, f);
            place.key in t.built && BandFp(t.built[place.key]) == BandFp(place.input) &&
            (PlanOf(place, s.fps, s.force).dirty ==> t.built[place.key] == place.input)
  {
    hide BandFp, Places;
    var places := Places(f.panes, f.look);
    DistinctPlaces(f.panes, f.look);
    RebuildHonest(s, places, s.force, s.fps, |places|);
  }

  /** After any run of frames, failed rebuilds included, a frame that completes shows
      in every band either what that band was rebuilt from just now, or what it was
      last rebuilt from with the very same fingerprint. */
  lemma {:induction false} SkippedOnlyWhenSame(fs: seq<FrameIn>, f: FrameIn, x: nat)
    requires forall i :: 0 <= i < |fs| ==> DistinctIds(fs[i].panes)
    requires DistinctIds(f.panes) && f.failAt.None? && x < |Places(f.panes, f.look)|
    ensures var s, place := Frames(NOTHING, fs), Places(f.panes, f.look)[x];
            var t := Frame(s, f);
            place.key in t.built && BandFp(t.built[place.key]) == BandFp(place.input) &&
            (PlanOf(place, s.fps, s.force).dirty ==> t.built[place.key] == place.input)
  {
    hide BandFp, Places, Frame, Frames, Honest;
    FramesHonest(fs);
    FrameShows(Frames(NOTHING, fs), f, x);
  }

  /** The frame shows the band from the very same fingerprint. */
  ghost predicate HasBand(f: FrameIn, place: Place) {
    exists y :: 0 <= y < |Places(f.panes, f.look)| && SameBand(Places(f.panes, f.look)[y], place)
  }

  predicate SameBand(a: Place, b: Place) {
    a.key == b.key && BandFp(a.input) == BandFp(b.input)
  }

  /** The last frame completed, with this band and this fingerprint. */
  ghost predicate ShownBefore(fs: seq<FrameIn>, place: Place)
    requires fs != []
  {
    var n := |fs| - 1;
    !Fails(Frames(NOTHING, fs[..n]), fs[n]) && HasBand(fs[n], place)
  }

  /** Over any run: a band is rebuilt if and only if the frame before did not complete, or
      did not have the band, or had it with another fingerprint. */
  lemma {:induction false} DirtyIffChanged(fs: seq<FrameIn>, f: FrameIn, x: nat)
    requires forall i :: 0 <= i < |fs| ==> DistinctIds(fs[i].panes)
    requires x < |Places(f.panes, f.look)|
    ensures var s, place := Frames(NOTHING, fs), Places(f.panes, f.look)[x];
            PlanOf(place, s.fps, s.force).dirty <==> !(fs != [] && ShownBefore(fs, place))
  {
    hide Places, BandFp, Honest, Fails;
    var place := Places(f.panes, f.look)[x];
    if fs != [] {
      hide Frame;
      var n := |fs| - 1;
      var s, g := Frames(NOTHING, fs[..n]), fs[n];
      FramesHonest(fs[..n]);
      if Fails(s, g) {
        FailedFrame(s, g);
      } else {
        CompletedFrame(s, g, place);
      }
    }
  }

  lemma FailedFrame(s: Screen, g: FrameIn)
    requires Fails(s, g)
    ensures Frame(s, g).force
  {
  }

  lemma CompletedFrame(s: Screen, g: FrameIn, place: Place)
    requires Honest(s) && DistinctIds(g.panes) && !Fails(s, g)
    ensures !Frame(s, g).force
    ensures Lookup(Frame(s, g).fps, place.key) == Some(BandFp(place.input)) <==> HasBand(g, place)
  {
    hide Places, BandFp, Rebuild, Fails;
    var places := Places(g.panes, g.look);
    DistinctPlaces(g.panes, g.look);
    RebuildHonest(s, places, s.force, s.fps, |places|);
    var t := Frame(s, g);
    forall y | 0 <= y < |places| ensures places[y].key in t.fps && t.fps[places[y].key] == BandFp(places[y].input) {
    }
    if place.key in t.fps {
      var y :| 0 <= y < |places| && places[y].key == place.key;
      assert t.fps[place.key] == BandFp(places[y].input);
      assert SameBand(places[y], place) <==> BandFp(places[y].input) == BandFp(place.input);
    }
  }

  lemma {:induction false} DistinctPlaces(panes: seq<Pane>, look: Look)
    requires DistinctIds(panes)
    ensures DistinctKeys(Places(panes, look))
  {
    hide Places;
    var places := Places(panes, look);
    forall x, y | 0 <= x < y < |places| ensures places[x].key != places[y].key {
      if places[x].key == places[y].key {
        PlacesDistinct(panes, look, x, y);
      }
    }
  }

  lemma {:induction false} FramesHonest(fs: seq<FrameIn>)
    requires forall i :: 0 <= i < |fs| ==> DistinctIds(fs[i].panes)
    ensures Honest(Frames(NOTHING, fs))
    decreases |fs|
  {
    if fs != [] {
      var n := |fs| - 1;
      FramesHonest(fs[..n]);
      FrameHonest(Frames(NOTHING, fs[..n]), fs[n]);
    }
  }

  lemma {:induction false} FrameHonest(s: Screen, f: FrameIn)
    requires Honest(s) && DistinctIds(f.panes)
    ensures Honest(Frame(s, f))
  {
    hide BandFp, Places;
    var places := Places(f.panes, f.look);
    DistinctPlaces(f.panes, f.look);
    RebuildHonest(s, places, s.force, s.fps, |places|);
  }

  // ---------------------------------------------------------------------------

  /** How many runs of adjacent row numbers there are in a list. */
  function Segments(rows: seq<u16>): nat {
    if rows == [] then 0
    else
      var n := |rows| - 1;
      Segments(rows[..n]) +
      (if n == 0 || (rows[n] != rows[n - 1] && rows[n] != (rows[n - 1] + 1) % TWO_16) then 1 else 0)
  }

  method CountSegments(rows: seq<u16>) returns (n: nat)
    ensures n == Segments(rows)
  {
    n := 0;
    var prev: Option<u16> := None;
    for i := 0 to |rows|
      invariant n == Segments(rows[..i])
      invariant prev == if i == 0 then None else Some(rows[i - 1])
    {
      assert rows[..i + 1][..i] == rows[..i];
      var r := rows[i];
      if prev.None? || (r != prev.value && r != (prev.value + 1) % TWO_16) {
        n := n + 1;
      }
      prev := Some(r);
    }
    assert rows[..|rows|] == rows;
  }

  function RowSet(rows: seq<u16>): set<int> {
    set i | 0 <= i < |rows| :: rows[i]
  }

  predicate Begins(s: set<int>, r: int) {
    r in s && r - 1 !in s
  }

  /** The rows that begin a connected block: one for each component. */
  function Starts(s: set<int>): set<int> {
    set r | r in s && Begins(s, r)
  }

  lemma StartsGrow(s: set<int>, r: int)
    ensures Starts(s + {r}) <= Starts(s) + {r}
    ensures r in s || r - 1 in s ==> Starts(s + {r}) <= Starts(s)
    ensures r !in s && r - 1 !in s && r + 1 !in s ==> Starts(s + {r}) == Starts(s) + {r}
    ensures (r in s || r - 1 in s) && r + 1 !in s ==> Starts(s + {r}) == Starts(s)
  {
    var t := s + {r};
    assert forall x :: x in t <==> x in s || x == r;
    assert forall x :: Begins(t, x) ==> x == r || Begins(s, x);
    assert forall x :: x != r + 1 && x in s && Begins(s, x) ==> Begins(t, x);
    if r in s || r - 1 in s {
      assert Begins(t, r) ==> Begins(s, r);
    }
    if r + 1 !in s {
      assert forall x :: Begins(s, x) ==> Begins(t, x);
    }
  }

  /** The count is never below the number of connected blocks, sorted or not, as long as
      no 65535 is directly followed by 0. */
  lemma {:induction false} NeverUndercounts(rows: seq<u16>)
    requires forall i :: 0 < i < |rows| && rows[i] == 0 ==> rows[i - 1] < 65535
    ensures |Starts(RowSet(rows))| <= Segments(rows)
    decreases |rows|
  {
    if rows == [] {
      assert RowSet(rows) == {} && Starts({}) == {};
    } else {
      var n := |rows| - 1;
      NeverUndercounts(rows[..n]);
      StartsStep(rows);
    }
  }

  /** The last row joins the one before it, or opens a new run. */
  ghost predicate Joins(rows: seq<u16>)
    requires rows != []
  {
    var n := |rows| - 1;
    n > 0 && (rows[n] == rows[n - 1] || rows[n] as int == rows[n - 1] as int + 1)
  }

  lemma SegmentsStep(rows: seq<u16>)
    requires rows != [] && (rows[|rows| - 1] == 0 && |rows| > 1 ==> rows[|rows| - 2] < 65535)
    ensures Segments(rows) == Segments(rows[..|rows| - 1]) + if Joins(rows) then 0 else 1
  {
    if |rows| > 1 {
      NextRow(rows[|rows| - 2], rows[|rows| - 1]);
    }
  }

  lemma NextRow(q: u16, r: u16)
    ensures r as int == (q as int + 1) % TWO_16 <==> r as int == q as int + 1 || (r == 0 && q == 65535)
  {
  }

  lemma StartsStep(rows: seq<u16>)
    requires rows != [] && (rows[|rows| - 1] == 0 && |rows| > 1 ==> rows[|rows| - 2] < 65535)
    ensures var n := |rows| - 1;
            |Starts(RowSet(rows))| <= |Starts(RowSet(rows[..n]))| + Segments(rows) - Segments(rows[..n])
  {
    hide Starts, RowSet, Segments;
    var n := |rows| - 1;
    var s, r := RowSet(rows[..n]), rows[n];
    RowSetStep(rows);
    SegmentsStep(rows);
    StartsGrow(s, r);
    SubsetSize(Starts(s + {r}), Starts(s) + {r});
    assert |Starts(s) + {r}| <= |Starts(s)| + 1;
    if Joins(rows) {
      SubsetSize(Starts(s + {r}), Starts(s));
    }
  }

  lemma RowSetStep(rows: seq<u16>)
    requires rows != []
    ensures var n := |rows| - 1;
            RowSet(rows) == RowSet(rows[..n]) + {rows[n]} && (n > 0 ==> rows[n - 1] in RowSet(rows[..n]))
    ensures forall x :: x in RowSet(rows) ==> exists i :: 0 <= i < |rows| && rows[i] == x
  {
    var n := |rows| - 1;
    if n > 0 {
      assert rows[..n][n - 1] in RowSet(rows[..n]);
    }
  }

  /** On ascending rows, as the caller supplies them, the count is exact. */
  lemma {:induction false} ExactWhenSorted(rows: seq<u16>)
    requires forall i, j :: 0 <= i < j < |rows| ==> rows[i] <= rows[j]
    ensures |Starts(RowSet(rows))| == Segments(rows)
    decreases |rows|
  {
    if rows == [] {
      assert RowSet(rows) == {} && Starts({}) == {};
    } else {
      var n := |rows| - 1;
      ExactWhenSorted(rows[..n]);
      ExactStep(rows);
    }
  }

  lemma ExactStep(rows: seq<u16>)
    requires rows != [] && forall i, j :: 0 <= i < j < |rows| ==> rows[i] <= rows[j]
    requires |Starts(RowSet(rows[..|rows| - 1]))| == Segments(rows[..|rows| - 1])
    ensures |Starts(RowSet(rows))| == Segments(rows)
  {
    hide Starts, RowSet, Segments, Joins;
    var s, r := RowSet(rows[..|rows| - 1]), rows[|rows| - 1];
    RowSetStep(rows);
    SegmentsStep(rows);
    StartsGrow(s, r);
    StartsInside(s);
    SortedLast(rows);
    if !Joins(rows) {
      assert Starts(s + {r}) == Starts(s) + {r} && r !in Starts(s);
    }
  }

  /** In ascending order the last row is the largest so far, and joins exactly when it
      or its predecessor is there already. */
  lemma SortedLast(rows: seq<u16>)
    requires rows != [] && forall i, j :: 0 <= i < j < |rows| ==> rows[i] <= rows[j]
    ensures var s: set<int>, r: int := RowSet(rows[..|rows| - 1]), rows[|rows| - 1];
            r + 1 !in s && (Joins(rows) <==> r in s || r - 1 in s)
  {
    hide RowSet;
    var n := |rows| - 1;
    var s: set<int>, r: int := RowSet(rows[..n]), rows[n];
    if n > 0 {
      RowSetStep(rows);
      RowSetStep(rows[..n]);
      assert forall x :: x in s ==> x <= rows[n - 1];
    } else {
      NoRows(rows[..n]);
    }
  }

  lemma NoRows(rows: seq<u16>)
    requires rows == []
    ensures RowSet(rows) == {}
  {
  }

  lemma StartsInside(s: set<int>)
    ensures Starts(s) <= s
  {
  }

  /** The wrap-around in the adjacency test joins 65535 to 0: there two blocks count
      as one. */
  lemma WrapUndercounts()
    ensures Segments([65535, 0]) == 1 && |Starts(RowSet([65535, 0]))| == 2
  {
    var rows: seq<u16> := [65535, 0];
    assert rows[..1] == [65535] && rows[..1][..0] == [];
    assert Segments([65535]) == 1 by {
      var one: seq<u16> := [65535];
      assert one[..0] == [];
    }
    assert rows[0] in RowSet(rows) && rows[1] in RowSet(rows);
    assert RowSet(rows) == {0, 65535};
    assert Starts({0, 65535}) == {0, 65535};
  }
}
