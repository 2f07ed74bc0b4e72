/** The single accesses of `KeyTableRace`, with nobody else about, amount to the sequential
    table of `KeyTables`. */
module KeyTableAlone {
  import opened Seating
  import opened KeyTableRace
  import Sequential = KeyTables

  ghost function TableOf(s: State): Sequential.Table {
    Sequential.Table(s.key, s.hits, s.other)
  }

  /** A second pass over a table without a quiet slot. */
  lemma {:induction false} QuietMisses(s: State, k: nat, j: nat)
    requires Ok(s) && s.w == QuietKey(k, j) && forall i :: j <= i < TABLE_SLOTS ==> s.key[i] != 0 && s.hits[i] > 0
    ensures Reaches(s, s.(w := AddOther(k)))
    decreases TABLE_SLOTS - j
  {
    hide Run;
    ReachSelf(s);
    ReachStep(s, s, ByWriter(0));
    ReachStep(s, s.(w := QuietHits(k, j)), ByWriter(0));
    if j + 1 < TABLE_SLOTS {
      var u := s.(w := QuietKey(k, j + 1));
      QuietMisses(u, k, j + 1);
      ReachOn(s, u, s.(w := AddOther(k)));
    }
  }

  /** The writer alone: a whole note is the sequential note. */
  lemma NoteAlone(s: State, k: nat) returns (t: State)
    requires Ok(s) && s.w == Idle && k != 0
    ensures Ok(t) && Reaches(s, t) && t.w == Idle && t.d == s.d && t.out == s.out
    ensures TableOf(t) == Sequential.Noted(TableOf(s), k)
  {
    hide Run;
    var i, q := Sequential.FindKey(s.key, k, 0), Sequential.FindQuiet(TableOf(s), 0);
    if i < TABLE_SLOTS {
      NoteThere(s, k, i);
      t := OneMore(s, i, k);
    } else if q < TABLE_SLOTS {
      NoneQuiet(s, q);
      Claim(s, k, q);
      t := First(s, q, k).(key := s.key[q := k]);
    } else {
      NoneQuiet(s, q);
      t := NoteOutside(s, k);
    }
  }

  lemma NoneQuiet(s: State, q: nat)
    requires Ok(s) && q == Sequential.FindQuiet(TableOf(s), 0)
    ensures q <= TABLE_SLOTS && forall j :: 0 <= j < q ==> s.key[j] != 0 && s.hits[j] > 0
  {
    forall j | 0 <= j < q ensures s.key[j] != 0 && s.hits[j] > 0 {
      assert !Sequential.Quiet(TableOf(s), j);
    }
  }

  lemma NoteOutside(s: State, k: nat) returns (t: State)
    requires Ok(s) && s.w == Idle && k != 0 && Nowhere(s.key, k)
    requires forall i :: 0 <= i < TABLE_SLOTS ==> s.key[i] != 0 && s.hits[i] > 0
    ensures Ok(t) && Reaches(s, t) && t == s.(other := s.other + 1)
  {
    hide Run, Nowhere;
    ReachSelf(s);
    ReachStep(s, s, ByWriter(k));
    var a, b, c := s.(w := Scan(k, 0)), s.(w := QuietKey(k, 0)), s.(w := AddOther(k));
    ScanMisses(a, k, 0);
    ReachOn(s, a, b);
    QuietMisses(b, k, 0);
    ReachOn(s, b, c);
    ReachStep(s, c, ByWriter(0));
    t := Step(c, ByWriter(0));
  }

  // ---------------------------------------------------------------------------

  function Pairs(out: seq<Entry>): seq<(nat, nat)> {
    if out == [] then [] else Pairs(out[..|out| - 1]) + [(out[|out| - 1].key, out[|out| - 1].hits)]
  }

  lemma OneMorePair(out: seq<Entry>, e: Entry)
    ensures Pairs(out + [e]) == Pairs(out) + [(e.key, e.hits)]
  {
    assert (out + [e])[..|out|] == out;
  }

  /** The slots before `n` are drained, those from `n` on are as they were. */
  ghost predicate DrainedUpTo(s: State, t: State, n: nat) {
    Ok(s) && Ok(t) && n <= TABLE_SLOTS && t.w == s.w && t.other == s.other &&
    Pairs(t.out) == Sequential.Report(s.key[..n], s.hits[..n]) &&
    (forall i :: 0 <= i < n ==> t.hits[i] == 0 && t.key[i] == if s.hits[i] > 0 then s.key[i] else 0) &&
    (forall i :: n <= i < TABLE_SLOTS ==> t.hits[i] == s.hits[i] && t.key[i] == s.key[i])
  }

  lemma {:induction false} DrainAloneTo(s: State, n: nat) returns (t: State)
    requires Ok(s) && s.d == Load(0) && s.out == [] && n <= TABLE_SLOTS
    ensures Ok(t) && Reaches(s, t) && t.d == (if n == TABLE_SLOTS then Done else Load(n)) && DrainedUpTo(s, t, n)
    decreases n
  {
    hide Run;
    if n == 0 {
      ReachSelf(s);
      t := s;
    } else {
      hide Told;
      var u := DrainAloneTo(s, n - 1);
      t := DrainSlot(u);
      ReachOn(s, u, t);
      OneSlotMore(s, u, t, n - 1);
    }
  }

  lemma OneSlotMore(s: State, u: State, t: State, i: nat)
    requires i < TABLE_SLOTS && DrainedUpTo(s, u, i) && Ok(t) && t.w == u.w && t.other == u.other
    requires forall m: nat :: m < TABLE_SLOTS && m != i ==> SameSlot(u, t, m)
    requires t.key[i] == (if u.hits[i] > 0 then u.key[i] else 0) && t.hits[i] == 0
    requires t.out == if u.hits[i] > 0 then u.out + [Entry(i, u.key[i], u.hits[i])] else u.out
    ensures DrainedUpTo(s, t, i + 1)
  {
    hide Told;
    OneMorePair(u.out, Entry(i, u.key[i], u.hits[i]));
    var key, hits := s.key[..i + 1], s.hits[..i + 1];
    assert key[..i] == s.key[..i] && hits[..i] == s.hits[..i];
    forall m | 0 <= m < TABLE_SLOTS && m != i ensures t.hits[m] == u.hits[m] && t.key[m] == u.key[m] {
      var n: nat := m;
      assert SameSlot(u, t, n);
    }
  }

  /** The drainer alone: a whole drain reports what the sequential drain reports, and leaves
      the slots it leaves. */
  lemma DrainAlone(s: State) returns (t: State)
    requires Ok(s) && s.d == Load(0) && s.out == []
    ensures Ok(t) && Reaches(s, t) && t.d == Done && t.w == s.w && t.other == s.other
    ensures Pairs(t.out) == Sequential.Report(s.key, s.hits)
    ensures var d := Sequential.Drained(TableOf(s)); t.key == d.key && t.hits == d.hits
  {
    t := DrainAloneTo(s, TABLE_SLOTS);
    assert s.key[..TABLE_SLOTS] == s.key && s.hits[..TABLE_SLOTS] == s.hits;
  }
}
