/** `KeyTable`: a fixed number of slots attributing hits to keys. This module is the
    table used by one thread at a time; `KeyTableRace` interleaves a drain with the
    writer. */
module KeyTables {
  import opened Seating

  /** The contents of a table: 0 in `key` marks an empty slot. */
  datatype Table = Table(key: seq<nat>, hits: seq<nat>, other: nat)

  ghost predicate Shape(t: Table) {
    |t.key| == |t.hits| == TABLE_SLOTS
  }

  /** Nonzero keys are never in two slots, and only claimed slots have hits. */
  ghost predicate Inv(t: Table) {
    Shape(t) &&
    (forall i :: 0 <= i < TABLE_SLOTS && t.hits[i] > 0 ==> t.key[i] != 0) &&
    (forall i, j :: 0 <= i < j < TABLE_SLOTS && t.key[i] != 0 ==> t.key[i] != t.key[j])
  }

  predicate Quiet(t: Table, i: nat)
    requires i < |t.key| && i < |t.hits|
  {
    t.key[i] == 0 || t.hits[i] == 0
  }

  /** The first slot from `i` on that carries `k`, or the number of slots. */
  function FindKey(key: seq<nat>, k: nat, i: nat): (r: nat)
    requires i <= |key|
    ensures i <= r <= |key|
    ensures r < |key| ==> key[r] == k
    ensures forall j :: i <= j < r ==> key[j] != k
    decreases |key| - i
  {
    if i == |key| || key[i] == k then i else FindKey(key, k, i + 1)
  }

  /** The first quiet slot from `i` on, or the number of slots. */
  function FindQuiet(t: Table, i: nat): (r: nat)
    requires |t.key| == |t.hits| && i <= |t.key|
    ensures i <= r <= |t.key|
    ensures r < |t.key| ==> Quiet(t, r)
    ensures forall j :: i <= j < r ==> !Quiet(t, j)
    decreases |t.key| - i
  {
    if i == |t.key| || Quiet(t, i) then i else FindQuiet(t, i + 1)
  }

  /** One recorded hit: the slot that carries the key, else the first quiet slot,
      else the overflow counter. */
  ghost function Noted(t: Table, k: nat): (t': Table)
    requires Shape(t)
    ensures Shape(t')
  {
    var i, q := FindKey(t.key, k, 0), FindQuiet(t, 0);
    if i < TABLE_SLOTS then t.(hits := t.hits[i := t.hits[i] + 1])
    else if q < TABLE_SLOTS then Table(t.key[q := k], t.hits[q := 1], t.other)
    else t.(other := t.other + 1)
  }

  /** What a drain leaves: hits gone, keys kept only where there were hits. */
  ghost function Drained(t: Table): Table
    requires Shape(t)
  {
    Table(seq(TABLE_SLOTS, i requires 0 <= i < TABLE_SLOTS => if t.hits[i] > 0 then t.key[i] else 0),
          seq(TABLE_SLOTS, _ => 0), 0)
  }

  /** What a drain reports: the slots with hits, in slot order. */
  function Report(key: seq<nat>, hits: seq<nat>): (out: seq<(nat, nat)>)
    requires |key| == |hits|
  {
    if key == [] then []
    else
      var n := |key| - 1;
      Report(key[..n], hits[..n]) + (if hits[n] > 0 then [(key[n], hits[n])] else [])
  }

  // ---------------------------------------------------------------------------
  // What a window should say, from the sequence of keys alone.

  function Count(ks: seq<nat>, k: nat): nat {
    if ks == [] then 0
    else Count(ks[..|ks| - 1], k) + (if ks[|ks| - 1] == k then 1 else 0)
  }

  /** How many hits belong to keys without a slot. */
  function Unseated(ks: seq<nat>, seats: seq<nat>): nat {
    if ks == [] then 0
    else Unseated(ks[..|ks| - 1], seats) + (if ks[|ks| - 1] in seats then 0 else 1)
  }

  ghost predicate Fresh(t: Table) {
    Inv(t) && t.other == 0 && forall i :: 0 <= i < TABLE_SLOTS ==> t.hits[i] == 0
  }

  /** A run of hits within one window. */
  ghost function Notes(t: Table, ks: seq<nat>): (t': Table)
    requires Shape(t)
    ensures Shape(t')
    decreases |ks|
  {
    if ks == [] then t else Noted(Notes(t, ks[..|ks| - 1]), ks[|ks| - 1])
  }

  /** The window invariant: the slots with hits are exactly the seated keys, each
      with its own count. */
  ghost predicate Window(t: Table, ks: seq<nat>) {
    Inv(t) &&
    Active(t.hits) == |Seated(ks)| &&
    (forall i :: 0 <= i < TABLE_SLOTS && t.hits[i] > 0 ==> t.key[i] in Seated(ks) && t.hits[i] == Count(ks, t.key[i])) &&
    (forall k :: k in Seated(ks) ==> exists i :: 0 <= i < TABLE_SLOTS && t.key[i] == k && t.hits[i] > 0) &&
    t.other == Unseated(ks, Seated(ks))
  }

  /** A key that never appeared has count zero; seating one later key does not
      change who was left out before. */
  lemma {:induction false} UnseatedGrows(ks: seq<nat>, seats: seq<nat>, k: nat)
    requires k !in ks
    ensures Count(ks, k) == 0
    ensures Unseated(ks, seats + [k]) == Unseated(ks, seats)
    decreases |ks|
  {
    if ks != [] {
      UnseatedGrows(ks[..|ks| - 1], seats, k);
    }
  }

  lemma WindowShape(t: Table, ks: seq<nat>)
    requires Window(t, ks)
    ensures Shape(t)
  {
  }

  /** One more hit keeps the window exact. */
  lemma WindowStep(t: Table, ks: seq<nat>, k: nat)
    requires Window(t, ks) && k != 0
    ensures Window(Noted(t, k), ks + [k])
  {
    hide Seated, Distinct, Count, Unseated, Active, Window;
    WindowShape(t, ks);
    var i, q := FindKey(t.key, k, 0), FindQuiet(t, 0);
    if i < TABLE_SLOTS {
      HitOwnSlot(t, ks, k, i);
    } else if q < TABLE_SLOTS {
      ClaimQuietSlot(t, ks, k, q);
    } else {
      Overflow(t, ks, k);
    }
  }

  lemma HitOwnSlot(t: Table, ks: seq<nat>, k: nat, i: nat)
    requires Window(t, ks) && k != 0 && i < TABLE_SLOTS && t.key[i] == k
    ensures Window(t.(hits := t.hits[i := t.hits[i] + 1]), ks + [k])
  {
    hide Seated, Distinct, Count, Unseated, Active;
    var t' := t.(hits := t.hits[i := t.hits[i] + 1]);
    SeatedStep(ks, k);
    ActiveUpdate(t.hits, i, t.hits[i] + 1);
    ActiveBound(t.hits);
    if t.hits[i] == 0 {
      Newcomer(t, ks, k);
    }
    SeatedKeysHit(t, t', ks, k, i);
    CountsStep(ks, k, Seated(ks + [k]));
  }

  lemma ClaimQuietSlot(t: Table, ks: seq<nat>, k: nat, i: nat)
    requires Window(t, ks) && k != 0 && k !in t.key && i < TABLE_SLOTS && Quiet(t, i)
    ensures Window(Table(t.key[i := k], t.hits[i := 1], t.other), ks + [k])
  {
    hide Seated, Distinct, Count, Unseated, Active;
    var t' := Table(t.key[i := k], t.hits[i := 1], t.other);
    SeatedStep(ks, k);
    ActiveUpdate(t.hits, i, 1);
    ActiveBound(t.hits);
    Newcomer(t, ks, k);
    SeatedKeysHit(t, t', ks, k, i);
    CountsStep(ks, k, Seated(ks + [k]));
  }

  lemma Overflow(t: Table, ks: seq<nat>, k: nat)
    requires Window(t, ks) && k !in t.key && forall j :: 0 <= j < TABLE_SLOTS ==> !Quiet(t, j)
    ensures Window(t.(other := t.other + 1), ks + [k])
  {
    hide Seated, Distinct, Count, Unseated, Active;
    SeatedStep(ks, k);
    forall j | 0 <= j < TABLE_SLOTS ensures t.hits[j] > 0 {
      assert !Quiet(t, j);
    }
    ActiveAll(t.hits);
    CountsStep(ks, k, Seated(ks + [k]));
  }

  /** Every seated key still has a slot with hits. */
  lemma SeatedKeysHit(t: Table, t': Table, ks: seq<nat>, k: nat, i: nat)
    requires Window(t, ks) && Shape(t') && i < TABLE_SLOTS && t'.key[i] == k && t'.hits[i] > 0
    requires forall j :: 0 <= j < TABLE_SLOTS && j != i ==> t'.key[j] == t.key[j] && t'.hits[j] == t.hits[j]
    requires t.hits[i] > 0 ==> t.key[i] == k
    ensures forall c :: c in Seated(ks) || c == k ==> exists j :: 0 <= j < TABLE_SLOTS && t'.key[j] == c && t'.hits[j] > 0
  {
    forall c | c in Seated(ks) && c != k
      ensures exists j :: 0 <= j < TABLE_SLOTS && t'.key[j] == c && t'.hits[j] > 0
    {
      var j :| 0 <= j < TABLE_SLOTS && t.key[j] == c && t.hits[j] > 0;
      assert j != i && t'.key[j] == c;
    }
  }

  lemma CountsStep(ks: seq<nat>, k: nat, seats: seq<nat>)
    ensures forall c :: Count(ks + [k], c) == Count(ks, c) + (if k == c then 1 else 0)
    ensures Unseated(ks + [k], seats) == Unseated(ks, seats) + (if k in seats then 0 else 1)
  {
    assert (ks + [k])[..|ks|] == ks;
  }

  /** A key without hits that can still be seated has not appeared yet. */
  lemma Newcomer(t: Table, ks: seq<nat>, k: nat)
    requires Window(t, ks) && k !in Seated(ks) && |Seated(ks)| < TABLE_SLOTS
    ensures k !in ks && Count(ks, k) == 0
    ensures Unseated(ks, Seated(ks) + [k]) == Unseated(ks, Seated(ks))
  {
    UnseatedGrows(ks, Seated(ks), k);
  }

  lemma {:induction false} WindowRun(t: Table, ks: seq<nat>)
    requires Fresh(t) && 0 !in ks
    ensures Window(Notes(t, ks), ks)
    decreases |ks|
  {
    if ks == [] {
      ActiveBound(t.hits);
    } else {
      var n := |ks| - 1;
      WindowRun(t, ks[..n]);
      WindowStep(Notes(t, ks[..n]), ks[..n], ks[n]);
      assert ks == ks[..n] + [ks[n]];
    }
  }

  ghost predicate HasHits(key: seq<nat>, hits: seq<nat>, k: int, n: int)
    requires |key| == |hits|
  {
    exists i :: 0 <= i < |key| && key[i] == k && hits[i] == n > 0
  }

  lemma {:induction false} ReportIsActiveSlots(key: seq<nat>, hits: seq<nat>)
    requires |key| == |hits|
    ensures |Report(key, hits)| == Active(hits)
    ensures forall k, n :: (k, n) in Report(key, hits) <==> HasHits(key, hits, k, n)
    decreases |key|
  {
    if key != [] {
      hide HasHits;
      var m := |key| - 1;
      ReportIsActiveSlots(key[..m], hits[..m]);
      forall k, n ensures (k, n) in Report(key, hits) <==> HasHits(key, hits, k, n) {
      }
    }
  }

  /** From any drained table, for any hits on nonzero keys, the next drain reports
      precisely the first eight distinct keys, each once and with its exact count,
      and every other hit in `other`. */
  lemma WindowIsExact(t: Table, ks: seq<nat>)
    requires Fresh(t) && 0 !in ks
    ensures var t' := Notes(t, ks);
            var out := Report(t'.key, t'.hits);
            |out| == |Seated(ks)| &&
            (forall k, n :: (k, n) in out <==> k in Seated(ks) && n == Count(ks, k)) &&
            t'.other == Unseated(ks, Seated(ks))
  {
    var t' := Notes(t, ks);
    WindowRun(t, ks);
    ReportIsActiveSlots(t'.key, t'.hits);
  }

  /** A drain is where the next window starts, so the two lemmas chain over any
      number of windows. */
  lemma NextWindow(t: Table, ks: seq<nat>)
    requires Fresh(t) && 0 !in ks
    ensures Fresh(Drained(Notes(t, ks)))
    ensures var u, v := Notes(t, ks), Drained(Notes(t, ks));
            forall i :: 0 <= i < TABLE_SLOTS ==> v.key[i] == if u.hits[i] > 0 then u.key[i] else 0
  {
    WindowRun(t, ks);
  }

  /** Key 0 is the empty-slot mark. Used as a key it loses hits: on an empty table
      two hits on 0 followed by one on 5 leave a single hit. */
  lemma KeyZeroLosesHits(t: Table)
    requires t == Table(seq(TABLE_SLOTS, _ => 0), seq(TABLE_SLOTS, _ => 0), 0)
    ensures var t' := Noted(Noted(Noted(t, 0), 0), 5);
            t'.hits == seq(TABLE_SLOTS, _ => 0)[0 := 1] && t'.key[0] == 5 && t'.other == 0
  {
    var t2 := Noted(Noted(t, 0), 0);
    assert t2 == Table(t.key, t.hits[0 := 2], 0);
    assert FindKey(t2.key, 5, 0) == TABLE_SLOTS;
    assert FindQuiet(t2, 0) == 0;
  }

  // ---------------------------------------------------------------------------

  class KeyTable {
    const key: array<nat>
    const hits: array<nat>
    var other: nat

    ghost predicate Valid()
      reads this, key, hits
    {
      key != hits && key.Length == TABLE_SLOTS && hits.Length == TABLE_SLOTS
    }

    ghost function View(): Table
      reads this, key, hits
    {
      Table(key[..], hits[..], other)
    }

    constructor ()
      ensures Valid() && Fresh(View()) && fresh(key) && fresh(hits)
    {
      key := new nat[TABLE_SLOTS](_ => 0);
      hits := new nat[TABLE_SLOTS](_ => 0);
      other := 0;
    }

    method Note(k: nat)
      requires Valid()
      modifies this, key, hits
      ensures Valid() && Shape(old(View())) && View() == Noted(old(View()), k)
    {
      ghost var t := View();
      for i := 0 to TABLE_SLOTS
        invariant View() == t && FindKey(t.key, k, 0) == FindKey(t.key, k, i)
      {
        if key[i] == k {
          hits[i] := hits[i] + 1;
          return;
        }
      }
      for i := 0 to TABLE_SLOTS
        invariant View() == t && FindQuiet(t, 0) == FindQuiet(t, i)
      {
        var quiet := key[i] == 0 || hits[i] == 0;
        if quiet {
          key[i] := k;
          hits[i] := 1;
          return;
        }
      }
      other := other + 1;
    }

    method Drain() returns (out: seq<(nat, nat)>, rest: nat)
      requires Valid()
      modifies this, key, hits
      ensures Valid() && Shape(old(View())) && View() == Drained(old(View()))
      ensures out == Report(old(key[..]), old(hits[..])) && rest == old(other)
    {
      ghost var t := View();
      out := [];
      for i := 0 to TABLE_SLOTS
        invariant other == t.other
        invariant forall j :: 0 <= j < i ==> hits[j] == 0 && key[j] == if t.hits[j] > 0 then t.key[j] else 0
        invariant forall j :: i <= j < TABLE_SLOTS ==> hits[j] == t.hits[j] && key[j] == t.key[j]
        invariant out == Report(t.key[..i], t.hits[..i])
      {
        var k := key[i];
        var h := hits[i];
        hits[i] := 0;
        assert t.key[..i + 1][..i] == t.key[..i] && t.hits[..i + 1][..i] == t.hits[..i];
        if h > 0 {
          out := out + [(k, h)];
        } else {
          key[i] := 0;
        }
      }
      assert t.key[..TABLE_SLOTS] == t.key && t.hits[..TABLE_SLOTS] == t.hits;
      rest := other;
      other := 0;
    }
  }
}
