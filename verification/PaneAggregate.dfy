/** Aggregating the pacers of several panes: any dirty, none holding, and the one
    deadline the event loop has to be woken at. */
module PaneAggregate {
  import opened Bytes
  import opened FiniteSets
  import opened SyncPacer

  ghost predicate Holding(p: Pacer, now: nat) {
    p.sync.inSync && Elapsed(p.sync.sinceMs, now) < SYNC_TIMEOUT_MS
  }

  ghost function Deadline(p: Pacer): nat {
    p.sync.sinceMs + SYNC_TIMEOUT_MS
  }

  /** Some pane has something to show and no pane is inside an unexpired block.
      With no pane at all there is nothing to hold a frame back. */
  ghost predicate Ready(ps: seq<Pacer>, now: nat) {
    ps == [] ||
    ((exists i :: 0 <= i < |ps| && ps[i].dirty) && forall i :: 0 <= i < |ps| ==> !Holding(ps[i], now))
  }

  ghost predicate IsEarliest(ps: seq<Pacer>, now: nat, d: Option<nat>) {
    match d
    case None => forall i :: 0 <= i < |ps| ==> !Holding(ps[i], now)
    case Some(t) =>
      (exists i :: 0 <= i < |ps| && Holding(ps[i], now) && Deadline(ps[i]) == t) &&
      (forall i :: 0 <= i < |ps| && Holding(ps[i], now) ==> t <= Deadline(ps[i]))
  }

  ghost function HoldingSet(ps: seq<Pacer>, now: nat): set<int> {
    set i | 0 <= i < |ps| && Holding(ps[i], now)
  }

  /** A holding pane stops exactly at its deadline, not before. */
  lemma HoldingUntilDeadline(p: Pacer, now: nat, t: nat)
    requires now <= t && Holding(p, now)
    ensures now < Deadline(p)
    ensures Holding(p, t) <==> t < Deadline(p)
  {
  }

  /** With no new bytes, nothing changes before the reported deadline. */
  lemma QuietBeforeDeadline(ps: seq<Pacer>, now: nat, d: Option<nat>, t: nat)
    requires IsEarliest(ps, now, d) && now <= t && (d.Some? ==> t < d.value)
    ensures HoldingSet(ps, t) == HoldingSet(ps, now)
    ensures Ready(ps, t) <==> Ready(ps, now)
  {
    assert forall i :: 0 <= i < |ps| ==> (Holding(ps[i], t) <==> Holding(ps[i], now));
    forall i ensures i in HoldingSet(ps, t) <==> i in HoldingSet(ps, now) {
    }
  }

  /** The deadline lies strictly in the future and jumping to it frees a pane. */
  lemma JumpFreesAPane(ps: seq<Pacer>, now: nat, t: nat)
    requires IsEarliest(ps, now, Some(t))
    ensures now < t
    ensures HoldingSet(ps, t) < HoldingSet(ps, now)
  {
    var i :| 0 <= i < |ps| && Holding(ps[i], now) && Deadline(ps[i]) == t;
    assert i in HoldingSet(ps, now) && i !in HoldingSet(ps, t);
  }

  /** The event loop's schedule: wake at the reported deadline, ask again, until no
      deadline is reported. */
  ghost predicate Cascade(ps: seq<Pacer>, now: nat, wakes: seq<nat>)
    decreases |wakes|
  {
    if wakes == [] then IsEarliest(ps, now, None)
    else IsEarliest(ps, now, Some(wakes[0])) && Cascade(ps, wakes[0], wakes[1..])
  }

  ghost function End(now: nat, wakes: seq<nat>): nat {
    if wakes == [] then now else wakes[|wakes| - 1]
  }

  /** A cascade exists, takes no more wake-ups than panes, and ends where every
      dirty set is presentable, at most one timeout away. */
  lemma {:induction false} NoFreeze(ps: seq<Pacer>, now: nat) returns (wakes: seq<nat>)
    requires forall i :: 0 <= i < |ps| ==> ps[i].sync.sinceMs <= now
    ensures Cascade(ps, now, wakes)
    ensures |wakes| <= |HoldingSet(ps, now)| <= |ps|
    ensures now <= End(now, wakes) <= now + SYNC_TIMEOUT_MS
    ensures (exists i :: 0 <= i < |ps| && ps[i].dirty) ==> Ready(ps, End(now, wakes))
  {
    wakes := CascadeFrom(ps, now, now);
    HoldingAtMostAll(ps, now);
  }

  lemma HoldingAtMostAll(ps: seq<Pacer>, now: nat)
    ensures |HoldingSet(ps, now)| <= |ps|
  {
    RangeSize(0, |ps|);
    SubsetSize(HoldingSet(ps, now), Range(0, |ps|));
  }

  lemma {:induction false} CascadeFrom(ps: seq<Pacer>, base: nat, now: nat) returns (wakes: seq<nat>)
    requires base <= now <= base + SYNC_TIMEOUT_MS
    requires forall i :: 0 <= i < |ps| ==> ps[i].sync.sinceMs <= base
    ensures Cascade(ps, now, wakes) && |wakes| <= |HoldingSet(ps, now)|
    ensures now <= End(now, wakes) <= base + SYNC_TIMEOUT_MS
    ensures forall i :: 0 <= i < |ps| ==> !Holding(ps[i], End(now, wakes))
    decreases |HoldingSet(ps, now)|
  {
    var d := EarliestExists(ps, now);
    if d == None {
      wakes := [];
    } else {
      var t := d.value;
      JumpFreesAPane(ps, now, t);
      SubsetSize(HoldingSet(ps, t), HoldingSet(ps, now));
      var rest := CascadeFrom(ps, base, t);
      wakes := [t] + rest;
      assert wakes[1..] == rest;
      assert End(now, wakes) == End(t, rest);
    }
  }

  lemma {:induction false} EarliestExists(ps: seq<Pacer>, now: nat) returns (d: Option<nat>)
    ensures IsEarliest(ps, now, d)
    decreases |ps|
  {
    if ps == [] {
      d := None;
    } else {
      var n := |ps| - 1;
      d := EarliestExists(ps[..n], now);
      if Holding(ps[n], now) && (d == None || Deadline(ps[n]) < d.value) {
        d := Some(Deadline(ps[n]));
      } else if d.Some? {
        var i :| 0 <= i < n && Holding(ps[..n][i], now) && Deadline(ps[..n][i]) == d.value;
        assert Holding(ps[i], now) && Deadline(ps[i]) == d.value;
      }
      forall i | 0 <= i < n ensures ps[i] == ps[..n][i] {
      }
    }
  }

  // ---------------------------------------------------------------------------
  // The loops over live pacers.

  ghost function Views(ps: seq<SyncFramePacer>): (vs: seq<Pacer>)
    reads ps
    ensures |vs| == |ps| && forall i :: 0 <= i < |ps| ==> vs[i] == ps[i].View()
  {
    if ps == [] then [] else Views(ps[..|ps| - 1]) + [ps[|ps| - 1].View()]
  }

  method IsHoldingFrame(p: SyncFramePacer, nowMs: nat) returns (h: bool)
    ensures h <==> Holding(p.View(), nowMs)
  {
    h := p.inSync && Elapsed(p.syncSinceMs, nowMs) < SYNC_TIMEOUT_MS;
  }

  method PanesReadyToPresent(pacers: seq<SyncFramePacer>, nowMs: nat) returns (ready: bool)
    ensures ready <==> Ready(Views(pacers), nowMs)
  {
    ghost var vs := Views(pacers);
    var sawAnyPane, anyDirty, noneHolding := false, false, true;
    for i := 0 to |pacers|
      invariant sawAnyPane <==> i > 0
      invariant anyDirty <==> exists j :: 0 <= j < i && vs[j].dirty
      invariant noneHolding <==> forall j :: 0 <= j < i ==> !Holding(vs[j], nowMs)
    {
      sawAnyPane := true;
      assert vs[i].dirty == pacers[i].dirty;
      anyDirty := anyDirty || pacers[i].dirty;
      var h := IsHoldingFrame(pacers[i], nowMs);
      noneHolding := noneHolding && !h;
    }
    ready := !sawAnyPane || (anyDirty && noneHolding);
  }

  method EarliestSyncTimeoutMs(pacers: seq<SyncFramePacer>, nowMs: nat) returns (d: Option<nat>)
    ensures IsEarliest(Views(pacers), nowMs, d)
  {
    d := None;
    for i := 0 to |pacers|
      invariant IsEarliest(Views(pacers)[..i], nowMs, d)
    {
      ghost var vs, d0 := Views(pacers), d;
      var h := IsHoldingFrame(pacers[i], nowMs);
      if h {
        var at := pacers[i].syncSinceMs + SYNC_TIMEOUT_MS;
        if d == None || at < d.value {
          d := Some(at);
        }
      }
      ExtendEarliest(vs, i, nowMs, d0);
    }
    assert Views(pacers)[..|pacers|] == Views(pacers);
  }

  lemma ExtendEarliest(vs: seq<Pacer>, n: nat, now: nat, d: Option<nat>)
    requires n < |vs| && IsEarliest(vs[..n], now, d)
    ensures IsEarliest(vs[..n + 1], now,
              if Holding(vs[n], now) && (d == None || Deadline(vs[n]) < d.value)
              then Some(Deadline(vs[n])) else d)
  {
    var e := if Holding(vs[n], now) && (d == None || Deadline(vs[n]) < d.value)
             then Some(Deadline(vs[n])) else d;
    forall i | 0 <= i < n ensures vs[..n][i] == vs[..n + 1][i] {
    }
    assert vs[..n + 1][n] == vs[n];
    if e == d && d.Some? {
      var i :| 0 <= i < n && Holding(vs[..n][i], now) && Deadline(vs[..n][i]) == d.value;
      assert Holding(vs[..n + 1][i], now);
    }
  }
}
