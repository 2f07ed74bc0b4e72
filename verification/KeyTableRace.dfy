/** A drain of a `KeyTable` interleaved, one atomic access at a time, with the notes
    of the single writer. Every schedule of the two threads is a sequence of
    actors; each relaxed load, store, swap and fetch-add is one step. */
module KeyTableRace {
  import opened Seating

  /** Where the writer is inside `note`. */
  datatype Writer =
    | Idle
    | Scan(k: nat, i: nat)       // about to load key[i], first pass
    | Add(k: nat, i: nat)        // key[i] matched: about to add to hits[i]
    | QuietKey(k: nat, i: nat)   // about to load key[i], second pass
    | QuietHits(k: nat, i: nat)  // key[i] was nonzero: about to load hits[i]
    | StoreKey(k: nat, i: nat)   // slot judged quiet: about to store the key
    | StoreHit(k: nat, i: nat)   // about to store the first hit
    | AddOther(k: nat)

  /** Where the drainer is. `SwapEarly`/`LoadLate` are the two accesses in the
      opposite order, which the program avoids. */
  datatype Drainer =
    | Load(i: nat)
    | Swap(i: nat, k: nat)
    | SwapEarly(i: nat)
    | LoadLate(i: nat, h: nat)
    | Clear(i: nat, early: bool)
    | Done

  datatype Entry = Entry(slot: nat, key: nat, hits: nat)

  /** Two histories go along: `noted`, how often a hit for a key was written to a slot, and
      `content`, the keys for which the hits now in each slot were written. */
  datatype State = State(key: seq<nat>, hits: seq<nat>, other: nat, w: Writer, d: Drainer,
                         out: seq<Entry>, noted: multiset<(nat, nat)>, content: seq<multiset<nat>>)

  datatype Actor = ByWriter(key: nat) | ByDrainer

  ghost predicate Ok(s: State) {
    |s.key| == |s.hits| == |s.content| == TABLE_SLOTS &&
    (s.w.Idle? || s.w.k != 0) &&
    (s.w.Idle? || s.w.AddOther? || s.w.i < TABLE_SLOTS) &&
    (s.d.Done? || s.d.i < TABLE_SLOTS)
  }

  /** One more hit for `k` in slot `i`. */
  function OneMore(s: State, i: nat, k: nat): State
    requires i < |s.hits| == |s.content|
  {
    s.(hits := s.hits[i := s.hits[i] + 1], noted := s.noted + multiset{(i, k)},
       content := s.content[i := s.content[i] + multiset{k}])
  }

  /** A hit for `k` in place of whatever was in slot `i`. */
  function First(s: State, i: nat, k: nat): State
    requires i < |s.hits| == |s.content|
  {
    s.(hits := s.hits[i := 1], noted := s.noted + multiset{(i, k)}, content := s.content[i := multiset{k}])
  }

  /** One access of the writer; an idle writer starts a note on `k`. */
  function WriterStep(s: State, k: nat): (s': State)
    requires Ok(s)
    ensures Ok(s')
  {
    match s.w
    case Idle => if k == 0 then s else s.(w := Scan(k, 0))
    case Scan(k, i) =>
      if s.key[i] == k then s.(w := Add(k, i))
      else if i + 1 < TABLE_SLOTS then s.(w := Scan(k, i + 1))
      else s.(w := QuietKey(k, 0))
    case Add(k, i) => OneMore(s, i, k).(w := Idle)
    case QuietKey(k, i) =>
      if s.key[i] == 0 then s.(w := StoreKey(k, i)) else s.(w := QuietHits(k, i))
    case QuietHits(k, i) =>
      if s.hits[i] == 0 then s.(w := StoreKey(k, i))
      else if i + 1 < TABLE_SLOTS then s.(w := QuietKey(k, i + 1))
      else s.(w := AddOther(k))
    case StoreKey(k, i) => s.(w := StoreHit(k, i), key := s.key[i := k])
    case StoreHit(k, i) => First(s, i, k).(w := Idle)
    case AddOther(_) => s.(w := Idle, other := s.other + 1)
  }

  function Emptied(s: State, i: nat): State
    requires i < |s.hits| == |s.content|
  {
    s.(hits := s.hits[i := 0], content := s.content[i := multiset{}])
  }

  function NextSlot(i: nat, early: bool): Drainer {
    if i + 1 >= TABLE_SLOTS then Done else if early then SwapEarly(i + 1) else Load(i + 1)
  }

  function DrainerStep(s: State): (s': State)
    requires Ok(s)
    ensures Ok(s')
  {
    match s.d
    case Load(i) => s.(d := Swap(i, s.key[i]))
    case Swap(i, k) => Reported(Emptied(s, i), i, k, s.hits[i], false)
    case SwapEarly(i) => Emptied(s, i).(d := LoadLate(i, s.hits[i]))
    case LoadLate(i, h) => Reported(s, i, s.key[i], h, true)
    case Clear(i, early) => s.(d := NextSlot(i, early), key := s.key[i := 0])
    case Done => s
  }

  function Reported(s: State, i: nat, k: nat, h: nat, early: bool): State {
    if h > 0 then s.(d := NextSlot(i, early), out := s.out + [Entry(i, k, h)])
    else s.(d := Clear(i, early))
  }

  function Step(s: State, a: Actor): (s': State)
    requires Ok(s)
    ensures Ok(s')
  {
    match a
    case ByWriter(k) => WriterStep(s, k)
    case ByDrainer => DrainerStep(s)
  }

  function Run(s: State, schedule: seq<Actor>): (s': State)
    requires Ok(s)
    ensures Ok(s')
  {
    if schedule == [] then s
    else Step(Run(s, schedule[..|schedule| - 1]), schedule[|schedule| - 1])
  }

  /** Hits now in slot `i` that belong to `k`. */
  function Left(s: State, i: nat, k: nat): nat
    requires i < |s.key| == |s.hits|
  {
    if s.key[i] == k then s.hits[i] else 0
  }

  /** Hits of slot `i` reported under `k`. */
  function Told(out: seq<Entry>, i: nat, k: nat): nat {
    if out == [] then 0
    else
      var e := out[|out| - 1];
      Told(out[..|out| - 1], i, k) + (if e.slot == i && e.key == k then e.hits else 0)
  }

  /** Hits now in slot `i` that were written for `k` and stand under it. */
  function Own(s: State, i: nat, k: nat): nat
    requires i < |s.key| == |s.content|
  {
    if s.key[i] == k then s.content[i][k] else 0
  }

  /** From `s` to `t` slot `i` lost nothing and made nothing up: for every key, the hits
      reported under it, and those of its own left under it, are those of its own it had
      there and those noted since. */
  ghost predicate Conserved(s: State, t: State, i: nat) {
    Ok(s) && Ok(t) && i < TABLE_SLOTS &&
    forall k: nat :: k != 0 ==> Told(t.out, i, k) + Own(t, i, k) + s.noted[(i, k)] == Own(s, i, k) + t.noted[(i, k)]
  }

  // ---------------------------------------------------------------------------
  // What holds of the table at any time, over any number of drains.

  ghost predicate Nowhere(key: seq<nat>, k: nat) {
    forall j :: 0 <= j < |key| ==> key[j] != k
  }

  ghost predicate OnlyAt(key: seq<nat>, k: nat, i: nat) {
    i < |key| && (key[i] == 0 || key[i] == k) && forall j :: 0 <= j < |key| && j != i ==> key[j] != k
  }

  ghost predicate NotBefore(key: seq<nat>, k: nat, i: nat) {
    forall j :: 0 <= j < i && j < |key| ==> key[j] != k
  }

  ghost predicate AllDifferent(key: seq<nat>) {
    forall a, b :: 0 <= a < b < |key| && key[a] == key[b] ==> key[a] == 0
  }

  /** No key is in two slots, and the writer knows what it has seen: past its first pass
      the key is nowhere, and a slot about to be claimed was free or silent. */
  ghost predicate Placed(s: State) {
    Ok(s) && AllDifferent(s.key) &&
    (s.w.Scan? ==> NotBefore(s.key, s.w.k, s.w.i)) &&
    (s.w.Add? || s.w.StoreHit? ==> OnlyAt(s.key, s.w.k, s.w.i)) &&
    (s.w.QuietKey? || s.w.QuietHits? || s.w.StoreKey? || s.w.AddOther? ==> Nowhere(s.key, s.w.k)) &&
    (s.w.StoreKey? ==> s.key[s.w.i] == 0 || s.hits[s.w.i] == 0)
  }

  /** Every hit in slot `i` was noted there, and a slot that has a key holds no other key's
      hits, unless the writer is about to store its first hit in it. */
  ghost predicate Accounted(s: State, i: nat) {
    Ok(s) && i < TABLE_SLOTS && |s.content[i]| == s.hits[i] &&
    (s.key[i] != 0 && !(s.w.StoreHit? && s.w.i == i) ==> s.content[i][s.key[i]] == s.hits[i]) &&
    (forall k: nat :: s.content[i][k] <= s.noted[(i, k)])
  }

  ghost predicate Sane(s: State) {
    Placed(s) && forall i: nat :: i < TABLE_SLOTS ==> Accounted(s, i)
  }

  datatype Act = Race(a: Actor) | NextDrain

  const NONE: multiset<nat> := multiset{}

  const EMPTY: State := State([0, 0, 0, 0, 0, 0, 0, 0], [0, 0, 0, 0, 0, 0, 0, 0], 0, Idle, Done, [], multiset{},
                            [NONE, NONE, NONE, NONE, NONE, NONE, NONE, NONE])

  /** A whole life: accesses of either thread, and new drains once one is over. */
  function Life(acts: seq<Act>): (s: State)
    ensures Ok(s)
  {
    if acts == [] then EMPTY
    else
      var s := Life(acts[..|acts| - 1]);
      match acts[|acts| - 1]
      case Race(a) => Step(s, a)
      case NextDrain => Restart(s)
  }

  function Restart(s: State): (t: State)
    requires Ok(s)
    ensures Ok(t)
  {
    if s.d.Done? then s.(d := Load(0), out := []) else s
  }

  lemma PlacedWriter(s: State, k: nat)
    requires Placed(s)
    ensures Placed(WriterStep(s, k))
  {
  }

  lemma PlacedDrainer(s: State)
    requires Placed(s)
    ensures Placed(DrainerStep(s))
  {
  }

  lemma PlacedIsOk(s: State)
    requires Placed(s)
    ensures Ok(s)
  {
  }

  /** What one access of the writer does to slot `i`. */
  lemma WriterAtSlot(s: State, k: nat, i: nat)
    requires Ok(s) && i < TABLE_SLOTS
    ensures var t, at := WriterStep(s, k), s.w;
            if at.Add? && at.i == i then
              t.key == s.key && t.w == Idle && t.hits[i] == s.hits[i] + 1 &&
              t.content[i] == s.content[i] + multiset{at.k} && t.noted == s.noted + multiset{(i, at.k)}
            else if at.StoreHit? && at.i == i then
              t.key == s.key && t.w == Idle && t.hits[i] == 1 &&
              t.content[i] == multiset{at.k} && t.noted == s.noted + multiset{(i, at.k)}
            else
              t.hits[i] == s.hits[i] && t.content[i] == s.content[i] &&
              (forall c :: t.noted[(i, c)] == s.noted[(i, c)]) &&
              if at.StoreKey? && at.i == i then t.key[i] == at.k && t.w == StoreHit(at.k, i)
              else t.key[i] == s.key[i] && !(t.w.StoreHit? && t.w.i == i)
  {
  }

  /** The writer adds to a slot that has its key, and claims a free or silent one. */
  lemma WriterGoesTo(s: State, k: nat, i: nat)
    requires Ok(s) && i < TABLE_SLOTS
    ensures var t := WriterStep(s, k);
            t.d == s.d && t.out == s.out &&
            (t.w.Add? && t.w.i == i ==> t.key[i] == t.w.k) &&
            (t.w.StoreKey? && t.w.i == i ==> t.key[i] == 0 || t.hits[i] == 0)
  {
  }

  lemma AccountedWriter(s: State, k: nat, i: nat)
    requires Placed(s) && Accounted(s, i)
    ensures Accounted(WriterStep(s, k), i)
  {
    assert (s.w.Add? || s.w.StoreHit?) && s.w.i == i ==> s.key[i] == 0 || s.key[i] == s.w.k;
    WriterAtSlot(s, k, i);
    hide WriterStep, Placed;
  }

  lemma AccountedDrainer(s: State, i: nat)
    requires Accounted(s, i)
    ensures Accounted(DrainerStep(s), i)
  {
  }

  lemma SaneStep(s: State, a: Actor)
    requires Sane(s)
    ensures Sane(Step(s, a))
  {
    hide Placed, Accounted, WriterStep, DrainerStep;
    assert Ok(s) by { PlacedIsOk(s); }
    match a
    case ByWriter(k) =>
      PlacedWriter(s, k);
      forall i: nat | i < TABLE_SLOTS ensures Accounted(Step(s, a), i) {
        AccountedWriter(s, k, i);
      }
    case ByDrainer =>
      PlacedDrainer(s);
      forall i: nat | i < TABLE_SLOTS ensures Accounted(Step(s, a), i) {
        AccountedDrainer(s, i);
      }
  }

  lemma SaneRestart(s: State)
    requires Sane(s)
    ensures Sane(Restart(s))
  {
    hide AllDifferent, NotBefore, OnlyAt, Nowhere;
    var t := Restart(s);
    forall i: nat | i < TABLE_SLOTS ensures Accounted(t, i) {
      assert Accounted(s, i);
    }
  }

  lemma {:induction false} LifeIsSane(acts: seq<Act>)
    ensures Sane(Life(acts))
    decreases |acts|
  {
    hide Step, Restart;
    if acts != [] {
      hide Sane;
      var n := |acts| - 1;
      LifeIsSane(acts[..n]);
      match acts[n]
      case Race(a) => SaneStep(Life(acts[..n]), a);
      case NextDrain => SaneRestart(Life(acts[..n]));
    }
  }

  /** How many notes the writer finishes. */
  ghost function Finished(s: State, schedule: seq<Actor>): nat
    requires Ok(s)
  {
    if schedule == [] then 0
    else
      var n := |schedule| - 1;
      var t, a := Run(s, schedule[..n]), schedule[n];
      Finished(s, schedule[..n]) + (if a.ByWriter? && t.w != Idle && Step(t, a).w == Idle then 1 else 0)
  }

  /** Each finished note is written down once, under a key in a slot or in the overflow
      counter, whatever the drainer does. */
  lemma {:induction false} NotesAreBooked(s: State, schedule: seq<Actor>)
    requires Ok(s)
    ensures var t := Run(s, schedule);
            |t.noted| + t.other == |s.noted| + s.other + Finished(s, schedule)
    decreases |schedule|
  {
    if schedule != [] {
      var n := |schedule| - 1;
      NotesAreBooked(s, schedule[..n]);
      BookedOnce(Run(s, schedule[..n]), schedule[n]);
      hide Step;
    }
  }

  lemma BookedOnce(s: State, a: Actor)
    requires Ok(s)
    ensures var t := Step(s, a);
            |t.noted| + t.other == |s.noted| + s.other + (if a.ByWriter? && s.w != Idle && t.w == Idle then 1 else 0)
  {
    match a
    case ByWriter(k) => WriterBooks(s, k);
    case ByDrainer =>
  }

  lemma WriterBooks(s: State, k: nat)
    requires Ok(s)
    ensures var t := WriterStep(s, k);
            |t.noted| + t.other == |s.noted| + s.other + (if s.w != Idle && t.w == Idle then 1 else 0)
  {
  }

  // ---------------------------------------------------------------------------
  // Why a slot with hits is safe.

  ghost predicate NoEntry(out: seq<Entry>, i: nat) {
    forall j :: 0 <= j < |out| ==> out[j].slot != i
  }

  ghost predicate OneEntry(out: seq<Entry>, e: Entry) {
    exists j :: 0 <= j < |out| && out[j] == e && forall m :: 0 <= m < |out| && m != j ==> out[m].slot != e.slot
  }

  /** Since `o`, every hit noted on slot `i` is still there under its own key, or among the
      `n` reported under `K`. */
  ghost predicate Ledger(o: State, s: State, i: nat, K: nat, n: nat) {
    Ok(o) && Ok(s) && i < TABLE_SLOTS &&
    forall k :: s.noted[(i, k)] + Left(o, i, k) == Left(s, i, k) + o.noted[(i, k)] + (if k == K then n else 0)
  }

  lemma LedgerWriter(o: State, s: State, k: nat, i: nat, K: nat, n: nat)
    requires Ledger(o, s, i, K, n)
    requires s.w.Add? && s.w.i == i ==> s.key[i] == s.w.k
    requires s.w.StoreKey? && s.w.i == i ==> s.hits[i] == 0
    requires s.w.StoreHit? && s.w.i == i ==> s.hits[i] == 0 && s.key[i] == s.w.k
    ensures Ledger(o, WriterStep(s, k), i, K, n)
  {
    WriterAtSlot(s, k, i);
    hide WriterStep;
  }

  /** The drain that began at `o` has not swapped slot `i` yet: it still belongs to `K`. */
  ghost predicate Before(o: State, s: State, i: nat, K: nat) {
    Ok(o) && Ok(s) && i < TABLE_SLOTS && K != 0 &&
    ((s.d.Load? && s.d.i <= i) || (s.d.Swap? && s.d.i <= i && (s.d.i == i ==> s.d.k == K)) ||
     (s.d.Clear? && s.d.i < i && !s.d.early)) &&
    s.key[i] == K && s.hits[i] > 0 && NoEntry(s.out, i) &&
    Ledger(o, s, i, K, 0) &&
    (s.w.Add? && s.w.i == i ==> s.w.k == K) &&
    !(s.w.StoreKey? && s.w.i == i) && !(s.w.StoreHit? && s.w.i == i)
  }

  /** The drainer is past slot `i`: it was reported under `K`, and every hit noted on the
      slot is either in that report or still in the slot under its own key. */
  ghost predicate After(o: State, s: State, i: nat, K: nat, n: nat) {
    Ok(o) && Ok(s) && i < TABLE_SLOTS && K != 0 && n > 0 &&
    (s.d.Done? || ((s.d.Load? || s.d.Swap? || (s.d.Clear? && !s.d.early)) && s.d.i > i)) &&
    OneEntry(s.out, Entry(i, K, n)) &&
    s.key[i] != 0 &&
    Ledger(o, s, i, K, n) &&
    (s.w.Add? && s.w.i == i ==> s.key[i] == s.w.k) &&
    (s.w.StoreKey? && s.w.i == i ==> s.hits[i] == 0) &&
    (s.w.StoreHit? && s.w.i == i ==> s.hits[i] == 0 && s.key[i] == s.w.k)
  }

  lemma BeforeWriterStep(o: State, s: State, k: nat, i: nat, K: nat)
    requires Before(o, s, i, K)
    ensures Before(o, WriterStep(s, k), i, K)
  {
    LedgerWriter(o, s, k, i, K, 0);
    WriterAtSlot(s, k, i);
    WriterGoesTo(s, k, i);
    hide NoEntry, Ledger, WriterStep;
  }

  lemma BeforeDrainerStep(o: State, s: State, i: nat, K: nat)
    requires Before(o, s, i, K)
    ensures if s.d.Swap? && s.d.i == i then After(o, DrainerStep(s), i, K, s.hits[i]) else Before(o, DrainerStep(s), i, K)
  {
    hide OneEntry, NoEntry;
    if s.d.Swap? {
      NoEntryGrows(s.out, i, Entry(s.d.i, s.d.k, s.hits[s.d.i]));
    }
  }

  lemma NoEntryGrows(out: seq<Entry>, i: nat, e: Entry)
    requires NoEntry(out, i)
    ensures e.slot != i ==> NoEntry(out + [e], i)
    ensures e.slot == i ==> OneEntry(out + [e], e)
  {
    assert (out + [e])[|out|] == e;
  }

  lemma BeforeStep(o: State, s: State, a: Actor, i: nat, K: nat)
    requires Before(o, s, i, K)
    ensures var t := Step(s, a);
            Before(o, t, i, K) || exists n :: After(o, t, i, K, n)
  {
    hide After, WriterStep, DrainerStep, NoEntry;
    match a
    case ByWriter(k) => BeforeWriterStep(o, s, k, i, K);
    case ByDrainer =>
      BeforeDrainerStep(o, s, i, K);
      if s.d.Swap? && s.d.i == i {
        assert After(o, Step(s, a), i, K, s.hits[i]);
      }
  }

  lemma OneEntryGrows(out: seq<Entry>, e: Entry, f: Entry)
    requires OneEntry(out, e) && f.slot != e.slot
    ensures OneEntry(out + [f], e)
  {
    var j :| 0 <= j < |out| && out[j] == e && forall m :: 0 <= m < |out| && m != j ==> out[m].slot != e.slot;
    assert (out + [f])[j] == e;
  }

  lemma AfterWriterStep(o: State, s: State, k: nat, i: nat, K: nat, n: nat)
    requires After(o, s, i, K, n)
    ensures After(o, WriterStep(s, k), i, K, n)
  {
    LedgerWriter(o, s, k, i, K, n);
    WriterAtSlot(s, k, i);
    WriterGoesTo(s, k, i);
    hide OneEntry, Ledger, WriterStep;
  }

  lemma AfterDrainerStep(o: State, s: State, i: nat, K: nat, n: nat)
    requires After(o, s, i, K, n)
    ensures After(o, DrainerStep(s), i, K, n)
  {
    hide OneEntry;
    var t := DrainerStep(s);
    if t.out != s.out {
      OneEntryGrows(s.out, Entry(i, K, n), t.out[|s.out|]);
    }
  }

  lemma AfterStep(o: State, s: State, a: Actor, i: nat, K: nat, n: nat)
    requires After(o, s, i, K, n)
    ensures After(o, Step(s, a), i, K, n)
  {
    match a
    case ByWriter(k) => AfterWriterStep(o, s, k, i, K, n);
    case ByDrainer => AfterDrainerStep(o, s, i, K, n);
  }

  lemma {:induction false} EveryStep(s: State, schedule: seq<Actor>, i: nat, K: nat)
    requires Before(s, s, i, K)
    ensures var t := Run(s, schedule);
            Before(s, t, i, K) || exists n :: After(s, t, i, K, n)
    decreases |schedule|
  {
    if schedule != [] {
      var m := |schedule| - 1;
      EveryStep(s, schedule[..m], i, K);
      var t := Run(s, schedule[..m]);
      if Before(s, t, i, K) {
        BeforeStep(s, t, schedule[m], i, K);
      } else {
        var n :| After(s, t, i, K, n);
        AfterStep(s, t, schedule[m], i, K, n);
      }
    }
  }

  /** A drain about to begin. */
  ghost predicate Starting(s: State) {
    Sane(s) && s.d == Load(0) && s.out == []
  }

  /** The slot has hits, and the writer is not about to overwrite them with its first. */
  ghost predicate Occupied(s: State, i: nat) {
    Starting(s) && i < TABLE_SLOTS && s.key[i] != 0 && s.hits[i] > 0 && !(s.w.StoreHit? && s.w.i == i)
  }

  lemma OccupiedIsBefore(s: State, i: nat)
    requires Occupied(s, i)
    ensures Before(s, s, i, s.key[i])
  {
  }

  /** However the two threads interleave: what the slot has when the drain begins was all
      noted there for its key. Once the drain is over the slot has been reported exactly
      once, under that key; the hits reported and the key's own left behind are those it
      had and those noted since, and a key that took the slot over keeps exactly its own. */
  lemma DrainAttributes(s: State, schedule: seq<Actor>, i: nat)
    requires Occupied(s, i) && Run(s, schedule).d == Done
    ensures var t, K := Run(s, schedule), s.key[i];
            s.hits[i] == s.content[i][K] <= s.noted[(i, K)] &&
            exists n: nat :: OneEntry(t.out, Entry(i, K, n)) && n >= s.hits[i] &&
                        n + Own(t, i, K) + s.noted[(i, K)] == s.content[i][K] + t.noted[(i, K)] &&
                        forall k :: k != 0 && k != K ==> Own(t, i, k) + s.noted[(i, k)] == t.noted[(i, k)]
  {
    hide Run, OneEntry, Sane;
    SaneIsOk(s);
    var t, K := Run(s, schedule), s.key[i];
    OccupiedIsBefore(s, i);
    EveryStep(s, schedule, i, K);
    assert t.d == Done && !Before(s, t, i, K);
    var n :| After(s, t, i, K, n);
    ReportedAtLeast(s, schedule, i, K, n);
    RunIsSane(s, schedule);
    OwnIsLeft(s, i);
    OwnIsLeft(t, i);
    assert OneEntry(t.out, Entry(i, K, n));
    assert s.content[i][K] <= s.noted[(i, K)] by { SaneIsBacked(s, i, K); }
  }

  lemma SaneIsBacked(s: State, i: nat, k: nat)
    requires Sane(s) && i < TABLE_SLOTS
    ensures Ok(s) && s.content[i][k] <= s.noted[(i, k)]
  {
    assert Accounted(s, i);
  }

  /** A slot that is not about to get its first hit holds its key's own hits only. */
  lemma OwnIsLeft(s: State, i: nat)
    requires Sane(s) && i < TABLE_SLOTS && (s.w.StoreHit? && s.w.i == i ==> s.hits[i] == 0)
    ensures forall k :: k != 0 ==> Own(s, i, k) == Left(s, i, k)
  {
    assert Accounted(s, i);
    forall k | k != 0 ensures Own(s, i, k) == Left(s, i, k) {
      assert s.content[i][k] <= |s.content[i]|;
    }
  }

  /** Hits only grow until the swap. */
  lemma {:induction false} ReportedAtLeast(s: State, schedule: seq<Actor>, i: nat, K: nat, n: nat)
    requires Before(s, s, i, K) && After(s, Run(s, schedule), i, K, n)
    ensures n >= s.hits[i]
    decreases |schedule|
  {
    if schedule != [] {
      var m := |schedule| - 1;
      var t, a := Run(s, schedule[..m]), schedule[m];
      EveryStep(s, schedule[..m], i, K);
      if Before(s, t, i, K) {
        HitsGrow(s, schedule[..m], i, K);
        SwapReportsHits(s, t, a, i, K, n);
      } else {
        var n' :| After(s, t, i, K, n');
        AfterStep(s, t, a, i, K, n');
        SameEntry(Step(t, a).out, Entry(i, K, n'), Entry(i, K, n));
        ReportedAtLeast(s, schedule[..m], i, K, n');
      }
    }
  }

  lemma SameEntry(out: seq<Entry>, e: Entry, f: Entry)
    requires OneEntry(out, e) && OneEntry(out, f) && e.slot == f.slot
    ensures e == f
  {
  }

  lemma SwapReportsHits(o: State, t: State, a: Actor, i: nat, K: nat, n: nat)
    requires Before(o, t, i, K) && After(o, Step(t, a), i, K, n)
    ensures n == t.hits[i]
  {
    hide Before, After, Step, OneEntry, WriterStep, DrainerStep;
    match a
    case ByWriter(k) =>
      BeforeIsOk(o, t, i, K);
      StepOf(t, a);
      BeforeWriterStep(o, t, k, i, K);
      NeverBack(o, Step(t, a), i, K, n);
    case ByDrainer =>
      BeforeIsOk(o, t, i, K);
      StepOf(t, a);
      BeforeDrainerStep(o, t, i, K);
      NeverBack(o, Step(t, a), i, K, n);
      AfterEntry(o, Step(t, a), i, K, n);
      AfterEntry(o, Step(t, a), i, K, t.hits[i]);
      SameEntry(Step(t, a).out, Entry(i, K, n), Entry(i, K, t.hits[i]));
  }

  lemma StepOf(s: State, a: Actor)
    requires Ok(s)
    ensures Step(s, a) == match a case ByWriter(k) => WriterStep(s, k) case ByDrainer => DrainerStep(s)
  {
  }

  lemma AfterEntry(o: State, s: State, i: nat, K: nat, n: nat)
    requires After(o, s, i, K, n)
    ensures OneEntry(s.out, Entry(i, K, n))
  {
  }

  lemma BeforeIsOk(o: State, s: State, i: nat, K: nat)
    requires Before(o, s, i, K)
    ensures Ok(s) && i < TABLE_SLOTS
  {
  }

  lemma NeverBack(o: State, s: State, i: nat, K: nat, n: nat)
    requires After(o, s, i, K, n)
    ensures !Before(o, s, i, K)
  {
  }

  lemma {:induction false} HitsGrow(s: State, schedule: seq<Actor>, i: nat, K: nat)
    requires Before(s, s, i, K) && Before(s, Run(s, schedule), i, K)
    ensures Run(s, schedule).hits[i] >= s.hits[i]
    decreases |schedule|
  {
    if schedule != [] {
      var m := |schedule| - 1;
      var t := Run(s, schedule[..m]);
      assert Run(s, schedule) == Step(t, schedule[m]);
      EveryStep(s, schedule[..m], i, K);
      BeforeIsOk(s, s, i, K);
      hide Before, After, Step, Run;
      if !Before(s, t, i, K) {
        var n :| After(s, t, i, K, n);
        AfterStep(s, t, schedule[m], i, K, n);
        NeverBack(s, Step(t, schedule[m]), i, K, n);
      } else {
        HitsGrow(s, schedule[..m], i, K);
        HitsGrowOnce(s, t, schedule[m], i, K);
      }
    }
  }

  lemma HitsGrowOnce(o: State, s: State, a: Actor, i: nat, K: nat)
    requires Before(o, s, i, K) && Before(o, Step(s, a), i, K)
    ensures Step(s, a).hits[i] >= s.hits[i]
  {
    hide NoEntry;
  }

  lemma {:induction false} ToldNone(out: seq<Entry>, i: nat, k: nat)
    requires NoEntry(out, i)
    ensures Told(out, i, k) == 0
    decreases |out|
  {
    if out != [] {
      ToldNone(out[..|out| - 1], i, k);
    }
  }

  lemma {:induction false} ToldOne(out: seq<Entry>, e: Entry, k: nat)
    requires OneEntry(out, e)
    ensures Told(out, e.slot, k) == if k == e.key then e.hits else 0
    decreases |out|
  {
    var j :| 0 <= j < |out| && out[j] == e && forall m :: 0 <= m < |out| && m != j ==> out[m].slot != e.slot;
    var n := |out| - 1;
    if j == n {
      ToldNone(out[..n], e.slot, k);
    } else {
      assert out[..n][j] == e;
      ToldOne(out[..n], e, k);
    }
  }

  lemma OccupiedIsConserved(s: State, schedule: seq<Actor>, i: nat)
    requires Occupied(s, i) && Run(s, schedule).d == Done
    ensures Conserved(s, Run(s, schedule), i)
  {
    hide OneEntry, Told, Run;
    DrainAttributes(s, schedule, i);
    var t, K := Run(s, schedule), s.key[i];
    var n: nat :| OneEntry(t.out, Entry(i, K, n)) && n + Own(t, i, K) + s.noted[(i, K)] == s.content[i][K] + t.noted[(i, K)];
    forall k: nat | k != 0
      ensures Told(t.out, i, k) + Own(t, i, k) + s.noted[(i, k)] == Own(s, i, k) + t.noted[(i, k)]
    {
      ToldOne(t.out, Entry(i, K, n), k);
    }
  }

  // ---------------------------------------------------------------------------
  // Building schedules.

  ghost predicate Reaches(s: State, t: State)
    requires Ok(s)
  {
    exists schedule :: Run(s, schedule) == t
  }

  lemma ReachSelf(s: State)
    requires Ok(s)
    ensures Reaches(s, s)
  {
    assert Run(s, []) == s;
  }

  lemma ReachStep(s: State, t: State, a: Actor)
    requires Ok(s) && Ok(t) && Reaches(s, t)
    ensures Reaches(s, Step(t, a))
  {
    var schedule :| Run(s, schedule) == t;
    assert (schedule + [a])[..|schedule|] == schedule;
    assert Run(s, schedule + [a]) == Step(t, a);
  }

  lemma {:induction false} RunConcat(s: State, a: seq<Actor>, b: seq<Actor>)
    requires Ok(s)
    ensures Run(s, a + b) == Run(Run(s, a), b)
    decreases |b|
  {
    if b == [] {
      assert a + b == a;
    } else {
      RunConcat(s, a, b[..|b| - 1]);
      assert (a + b)[..|a + b| - 1] == a + b[..|b| - 1];
    }
  }

  lemma ReachOn(s: State, t: State, u: State)
    requires Ok(s) && Ok(t) && Reaches(s, t) && Reaches(t, u)
    ensures Reaches(s, u)
  {
    var a :| Run(s, a) == t;
    var b :| Run(t, b) == u;
    RunConcat(s, a, b);
  }

  lemma {:induction false} RunIsSane(s: State, schedule: seq<Actor>)
    requires Sane(s)
    ensures Sane(Run(s, schedule))
    decreases |schedule|
  {
    if schedule != [] {
      hide Sane, Step;
      SaneIsOk(s);
      RunIsSane(s, schedule[..|schedule| - 1]);
      SaneStep(Run(s, schedule[..|schedule| - 1]), schedule[|schedule| - 1]);
    }
  }

  lemma SaneIsOk(s: State)
    requires Sane(s)
    ensures Ok(s)
  {
  }

  lemma ReachIsSane(s: State, t: State)
    requires Sane(s) && Reaches(s, t)
    ensures Sane(t)
  {
    var schedule :| Run(s, schedule) == t;
    RunIsSane(s, schedule);
  }

  /** Slot `i` looks alike, and has not been reported in between. */
  ghost predicate SameSlot(s: State, t: State, i: nat) {
    Ok(s) && Ok(t) && i < TABLE_SLOTS && t.key[i] == s.key[i] && t.hits[i] == s.hits[i] && t.content[i] == s.content[i] &&
    forall k :: Told(t.out, i, k) == Told(s.out, i, k)
  }

  /** The drainer alone, over one slot. */
  lemma DrainSlot(s: State) returns (t: State)
    requires Ok(s) && s.d.Load?
    ensures Ok(t) && Reaches(s, t) && t.d == NextSlot(s.d.i, false) && t.w == s.w && t.noted == s.noted && t.other == s.other
    ensures forall m: nat :: m < TABLE_SLOTS && m != s.d.i ==> SameSlot(s, t, m)
    ensures var i := s.d.i;
            t.key[i] == (if s.hits[i] > 0 then s.key[i] else 0) && t.hits[i] == 0 && t.content[i] == multiset{} &&
            forall k :: Told(t.out, i, k) == Told(s.out, i, k) + Left(s, i, k)
    ensures t.out == if s.hits[s.d.i] > 0 then s.out + [Entry(s.d.i, s.key[s.d.i], s.hits[s.d.i])] else s.out
  {
    var i := s.d.i;
    hide Run, Told, WriterStep;
    ReachSelf(s);
    var a := Step(s, ByDrainer);
    ReachStep(s, s, ByDrainer);
    var b := Step(a, ByDrainer);
    ReachStep(s, a, ByDrainer);
    t := b;
    if s.hits[i] == 0 {
      t := Step(b, ByDrainer);
      ReachStep(s, b, ByDrainer);
    } else {
      forall m, k ensures Told(t.out, m, k) == Told(s.out, m, k) + (if m == i && k == s.key[i] then s.hits[i] else 0) {
        ToldMore(s.out, Entry(i, s.key[i], s.hits[i]), m, k);
      }
    }
  }

  lemma ToldMore(out: seq<Entry>, e: Entry, i: nat, k: nat)
    ensures Told(out + [e], i, k) == Told(out, i, k) + (if e.slot == i && e.key == k then e.hits else 0)
  {
    assert (out + [e])[..|out|] == out;
  }

  /** The drainer alone, up to slot `i`. */
  lemma {:induction false} DrainTo(s: State, i: nat) returns (t: State)
    requires Ok(s) && s.d.Load? && s.d.i <= i < TABLE_SLOTS
    ensures Ok(t) && Reaches(s, t) && t.d == Load(i) && t.w == s.w && t.noted == s.noted
    ensures forall m: nat :: i <= m < TABLE_SLOTS ==> SameSlot(s, t, m)
    decreases i - s.d.i
  {
    hide Run, Told;
    if s.d.i == i {
      t := s;
      ReachSelf(s);
    } else {
      var u := DrainSlot(s);
      t := DrainTo(u, i);
      ReachOn(s, u, t);
      forall m: nat | i <= m < TABLE_SLOTS ensures SameSlot(s, t, m) {
        assert SameSlot(s, u, m) && SameSlot(u, t, m);
      }
    }
  }

  /** The drainer alone, to the end. */
  lemma {:induction false} DrainRest(s: State) returns (t: State)
    requires Ok(s) && (s.d.Load? || s.d.Done?)
    ensures Ok(t) && Reaches(s, t) && t.d == Done && t.w == s.w && t.noted == s.noted
    ensures forall m: nat :: m < TABLE_SLOTS && (s.d.Load? ==> m < s.d.i) ==> SameSlot(s, t, m)
    ensures forall m: nat :: m < TABLE_SLOTS ==> t.key[m] == s.key[m] || t.key[m] == 0
    decreases if s.d.Load? then TABLE_SLOTS - s.d.i else 0
  {
    hide Run, Told;
    if s.d.Done? {
      t := s;
      ReachSelf(s);
    } else {
      var u := DrainSlot(s);
      t := DrainRest(u);
      ReachOn(s, u, t);
      forall m: nat | m < s.d.i ensures SameSlot(s, t, m) {
        assert SameSlot(s, u, m) && SameSlot(u, t, m);
      }
      forall m: nat | m < TABLE_SLOTS ensures t.key[m] == s.key[m] || t.key[m] == 0 {
        assert m != s.d.i ==> SameSlot(s, u, m);
      }
    }
  }

  /** Bounds how far the writer is from being idle. */
  function Ahead(w: Writer): nat {
    match w
    case Idle => 0
    case AddOther(_) => 1
    case Add(_, _) => 1
    case StoreHit(_, _) => 1
    case StoreKey(_, _) => 2
    case QuietHits(_, i) => if i < TABLE_SLOTS then 3 + 2 * (TABLE_SLOTS - i) else 3
    case QuietKey(_, i) => if i < TABLE_SLOTS then 4 + 2 * (TABLE_SLOTS - i) else 4
    case Scan(_, i) => if i < TABLE_SLOTS then 30 + (TABLE_SLOTS - i) else 30
  }

  /** What one note did: it hit some slot `j` under some key, or none; and no other slot
      was touched. */
  ghost predicate OneNote(s: State, t: State, j: nat) {
    Ok(s) && Ok(t) && t.d == s.d && t.out == s.out && j <= TABLE_SLOTS &&
    (forall m: nat :: m < TABLE_SLOTS && m != j ==> t.key[m] == s.key[m] && t.hits[m] == s.hits[m]) &&
    (if j == TABLE_SLOTS then t.noted == s.noted
     else exists k: nat :: k != 0 && t.noted == s.noted + multiset{(j, k)})
  }

  /** The writer alone finishes the note it is in. */
  lemma {:induction false} FinishNote(s: State) returns (t: State, j: nat)
    requires Ok(s)
    ensures Ok(t) && Reaches(s, t) && t.w == Idle && OneNote(s, t, j)
    decreases Ahead(s.w)
  {
    hide Run;
    ReachSelf(s);
    if s.w.Idle? {
      t, j := s, TABLE_SLOTS;
    } else {
      var u := Step(s, ByWriter(0));
      ReachStep(s, s, ByWriter(0));
      if s.w.Add? || s.w.StoreHit? {
        t, j := u, s.w.i;
        assert t.noted == s.noted + multiset{(j, s.w.k)};
      } else if s.w.StoreKey? {
        t, j := Step(u, ByWriter(0)), s.w.i;
        ReachStep(s, u, ByWriter(0));
        assert t.noted == s.noted + multiset{(j, s.w.k)};
      } else {
        assert u.key == s.key && u.hits == s.hits && u.noted == s.noted && u.out == s.out && u.d == s.d;
        t, j := FinishNote(u);
        ReachOn(s, u, t);
        SameNote(s, u, t, j);
      }
    }
  }

  lemma SameNote(s: State, u: State, t: State, j: nat)
    requires Ok(s) && u.key == s.key && u.hits == s.hits && u.noted == s.noted && u.out == s.out && u.d == s.d && OneNote(u, t, j)
    ensures OneNote(s, t, j)
  {
  }

  /** A first pass finds a key that is in slot `i` and in no earlier one. */
  lemma {:induction false} ScanFinds(s: State, k: nat, j: nat, i: nat)
    requires Ok(s) && s.w == Scan(k, j) && j <= i < TABLE_SLOTS && s.key[i] == k && NotBefore(s.key, k, i)
    ensures Reaches(s, s.(w := Add(k, i)))
    decreases i - j
  {
    hide Run;
    ReachSelf(s);
    ReachStep(s, s, ByWriter(0));
    if j < i {
      var u := s.(w := Scan(k, j + 1));
      ScanFinds(u, k, j + 1, i);
      ReachOn(s, u, s.(w := Add(k, i)));
    }
  }

  /** A whole note of a key that is in slot `i`. */
  lemma NoteThere(s: State, k: nat, i: nat)
    requires Ok(s) && s.w == Idle && k != 0 && i < TABLE_SLOTS && s.key[i] == k && NotBefore(s.key, k, i)
    ensures Reaches(s, OneMore(s, i, k))
  {
    hide Run, NotBefore;
    ReachSelf(s);
    ReachStep(s, s, ByWriter(k));
    var a, b := s.(w := Scan(k, 0)), s.(w := Add(k, i));
    ScanFinds(a, k, 0, i);
    ReachOn(s, a, b);
    ReachStep(s, b, ByWriter(0));
  }

  /** A first pass over a table that lacks the key. */
  lemma {:induction false} ScanMisses(s: State, k: nat, i: nat)
    requires Ok(s) && s.w == Scan(k, i) && Nowhere(s.key, k)
    ensures Reaches(s, s.(w := QuietKey(k, 0)))
    decreases TABLE_SLOTS - i
  {
    hide Run;
    ReachSelf(s);
    ReachStep(s, s, ByWriter(0));
    if i + 1 < TABLE_SLOTS {
      var u := s.(w := Scan(k, i + 1));
      ScanMisses(u, k, i + 1);
      ReachOn(s, u, s.(w := QuietKey(k, 0)));
    }
  }

  ghost predicate Full(s: State, i: nat) {
    Ok(s) && forall j :: 0 <= j < i && j < TABLE_SLOTS ==> s.key[j] != 0 && s.hits[j] > 0
  }

  /** A second pass takes the first free or silent slot. */
  lemma {:induction false} QuietFinds(s: State, k: nat, j: nat, i: nat)
    requires Full(s, i) && s.w == QuietKey(k, j) && j <= i < TABLE_SLOTS && (s.key[i] == 0 || s.hits[i] == 0)
    ensures Reaches(s, s.(w := StoreKey(k, i)))
    decreases i - j
  {
    hide Run;
    ReachSelf(s);
    ReachStep(s, s, ByWriter(0));
    var t := s.(w := StoreKey(k, i));
    if s.key[j] != 0 {
      ReachStep(s, s.(w := QuietHits(k, j)), ByWriter(0));
      if j < i {
        var u := s.(w := QuietKey(k, j + 1));
        QuietFinds(u, k, j + 1, i);
        ReachOn(s, u, t);
      }
    }
  }

  /** A whole note of a key the table lacks, when slot `i` is the first one to be had. */
  lemma Claim(s: State, k: nat, i: nat)
    requires Full(s, i) && s.w == Idle && k != 0 && Nowhere(s.key, k) && i < TABLE_SLOTS && (s.key[i] == 0 || s.hits[i] == 0)
    ensures Reaches(s, First(s, i, k).(key := s.key[i := k]))
  {
    hide Run, Nowhere;
    ReachSelf(s);
    ReachStep(s, s, ByWriter(k));
    var a, b, c := s.(w := Scan(k, 0)), s.(w := QuietKey(k, 0)), s.(w := StoreKey(k, i));
    ScanMisses(a, k, 0);
    ReachOn(s, a, b);
    QuietFinds(b, k, 0, i);
    ReachOn(s, b, c);
    ReachStep(s, c, ByWriter(0));
    ReachStep(s, Step(c, ByWriter(0)), ByWriter(0));
  }

  /** A key not among these. */
  function Unused(keys: seq<nat>): (k: nat)
    ensures k != 0 && Nowhere(keys, k) && forall j :: 0 <= j < |keys| ==> keys[j] < k
  {
    if keys == [] then 1
    else
      var k, last := Unused(keys[..|keys| - 1]), keys[|keys| - 1];
      assert forall j :: 0 <= j < |keys| - 1 ==> keys[j] == keys[..|keys| - 1][j] < k;
      if last < k then k else last + 1
  }

  /** The writer can fill all slots before slot `i` with new keys. */
  lemma {:induction false} FillTo(s: State, i: nat, k: nat) returns (t: State)
    requires Ok(s) && s.w == Idle && i < TABLE_SLOTS && k != 0 && Nowhere(s.key, k)
    ensures Ok(t) && Reaches(s, t) && t.w == Idle && t.d == s.d && t.out == s.out && Full(t, i) && Nowhere(t.key, k)
    ensures forall m: nat :: i <= m < TABLE_SLOTS ==> t.key[m] == s.key[m] && t.hits[m] == s.hits[m]
    ensures forall m, c :: i <= m ==> t.noted[(m, c)] == s.noted[(m, c)]
    decreases i
  {
    hide Run;
    ReachSelf(s);
    t := s;
    if i > 0 {
      var u := FillTo(s, i - 1, k);
      t := u;
      if u.key[i - 1] == 0 || u.hits[i - 1] == 0 {
        var spare := Unused(u.key + [k]);
        assert (u.key + [k])[|u.key|] == k;
        assert forall j :: 0 <= j < |u.key| ==> (u.key + [k])[j] == u.key[j];
        Claim(u, spare, i - 1);
        t := First(u, i - 1, spare).(key := u.key[i - 1 := spare]);
        ReachOn(s, u, t);
      }
    }
  }

  /** The writer can bring a new key into any free or silent slot. */
  lemma FillAndClaim(b: State, k: nat, i: nat) returns (c: State)
    requires Ok(b) && b.w == Idle && i < TABLE_SLOTS && (b.key[i] == 0 || b.hits[i] == 0) && k != 0 && Nowhere(b.key, k)
    ensures Ok(c) && Reaches(b, c) && c.w == Idle && c.d == b.d && c.out == b.out && c.key[i] == k && c.hits[i] == 1
    ensures NotBefore(c.key, k, i)
    ensures forall x :: c.noted[(i, x)] == b.noted[(i, x)] + (if x == k then 1 else 0)
  {
    hide Run;
    var u := FillTo(b, i, k);
    Claim(u, k, i);
    c := First(u, i, k).(key := u.key[i := k]);
    ReachOn(b, u, c);
  }

  /** A slot without hits loses one, whoever is in the middle of what: its key is about to
      be cleared, and a hit still falls on it. */
  lemma SilentSlotLosesAHit(s: State, i: nat) returns (t: State, k: nat)
    requires Starting(s) && i < TABLE_SLOTS && s.hits[i] == 0
    ensures Ok(t) && Reaches(s, t) && t.d == Done && t.w == Idle && t.key[i] == 0
    ensures k != 0 && t.noted[(i, k)] > s.noted[(i, k)] && forall c :: Told(t.out, i, c) == 0
  {
    hide Run, Told, Sane;
    StartIsOk(s);
    var a := DrainTo(s, i);
    ReachStep(s, a, ByDrainer);
    var b := Step(a, ByDrainer);
    ReachStep(s, b, ByDrainer);
    var c := Step(b, ByDrainer);
    assert SameSlot(s, a, i) && a.hits[i := 0] == a.hits;
    assert c.key == a.key && c.hits == a.hits && c.w == a.w && c.d == Clear(i, false) && c.noted == a.noted;
    var e, f := HitTheSlot(s, c, i);
    k := f;
    ReachStep(s, e, ByDrainer);
    var g := Step(e, ByDrainer);
    assert g == e.(d := NextSlot(i, false), key := e.key[i := 0]);
    t := DrainRest(g);
    ReachOn(s, g, t);
    assert SameSlot(g, t, i);
  }

  lemma StartIsOk(s: State)
    requires Starting(s)
    ensures Ok(s) && s.d == Load(0) && s.out == [] && forall i, k :: Told(s.out, i, k) == 0
  {
  }

  /** With the drainer about to clear slot `i`, the writer can still put a hit there. */
  lemma HitTheSlot(s: State, c: State, i: nat) returns (e: State, k: nat)
    requires Sane(s) && Reaches(s, c) && Ok(c) && c.d.Clear? && c.d.i == i
    ensures Ok(e) && Reaches(s, e) && e.w == Idle && e.d == c.d && e.out == c.out
    ensures k != 0 && e.noted[(i, k)] > c.noted[(i, k)]
  {
    hide Run;
    SaneIsOk(s);
    var u, j := FinishNote(c);
    ReachOn(s, c, u);
    if j == i {
      e := u;
      k :| k != 0 && u.noted == c.noted + multiset{(j, k)};
    } else if u.key[i] == 0 {
      k := Unused(u.key);
      e := FillAndClaim(u, k, i);
      ReachOn(s, u, e);
    } else {
      k := u.key[i];
      ReachIsSane(s, u);
      NoteThere(u, k, i);
      e := OneMore(u, i, k);
      ReachOn(s, u, e);
    }
  }

  /** A key was stored in a slot that is not empty, and its first hit is yet to come. */
  ghost predicate AboutToOverwrite(s: State, i: nat) {
    Starting(s) && i < TABLE_SLOTS && s.key[i] != 0 && s.hits[i] > 0 && s.w.StoreHit? && s.w.i == i
  }

  /** What such a slot holds is lost if it is the key's own, and reported as the key's own
      if it is not. */
  lemma OverwrittenHitIsLost(s: State, i: nat) returns (t: State)
    requires AboutToOverwrite(s, i)
    ensures Ok(t) && Reaches(s, t) && t.d == Done && !Conserved(s, t, i)
  {
    if s.content[i][s.key[i]] != 0 {
      t := FirstHitThenDrain(s, i);
    } else {
      t := DrainThenFirstHit(s, i);
    }
  }

  /** The first hit overwrites what the slot held. */
  lemma FirstHitThenDrain(s: State, i: nat) returns (t: State)
    requires AboutToOverwrite(s, i)
    ensures Ok(t) && Reaches(s, t) && t.d == Done
    ensures s.content[i][s.key[i]] != 0 ==> !Conserved(s, t, i)
  {
    hide Run, Told;
    StartIsOk(s);
    var k := s.key[i];
    assert s.w.k == k;
    ReachSelf(s);
    ReachStep(s, s, ByWriter(0));
    var a := Step(s, ByWriter(0));
    t := DrainThrough(a, i);
    ReachOn(s, a, t);
    assert Told(t.out, i, k) == 1 && Own(t, i, k) == 0;
    assert t.noted == s.noted + multiset{(i, k)};
  }

  /** The drain reports all the slot held under the new key. */
  lemma DrainThenFirstHit(s: State, i: nat) returns (t: State)
    requires AboutToOverwrite(s, i)
    ensures Ok(t) && Reaches(s, t) && t.d == Done
    ensures s.content[i][s.key[i]] != s.hits[i] ==> !Conserved(s, t, i)
  {
    hide Run, Told;
    StartIsOk(s);
    var k := s.key[i];
    assert s.w.k == k;
    var a := DrainTo(s, i);
    assert SameSlot(s, a, i);
    var b := DrainSlot(a);
    ReachOn(s, a, b);
    var c := DrainRest(b);
    ReachOn(s, b, c);
    assert SameSlot(b, c, i);
    ReachStep(s, c, ByWriter(0));
    t := Step(c, ByWriter(0));
    assert Told(t.out, i, k) == s.hits[i] && Own(t, i, k) == 1;
    assert t.noted == s.noted + multiset{(i, k)};
  }

  /** The writer alone, past a slot without a key: it comes to rest without touching the
      slot, or it stops just before its first hit there. */
  lemma {:induction false} ClaimOrPass(s: State, i: nat) returns (t: State)
    requires Ok(s) && i < TABLE_SLOTS && s.key[i] == 0 && !((s.w.Add? || s.w.StoreHit?) && s.w.i == i)
    ensures Ok(t) && Reaches(s, t) && t.d == s.d && t.out == s.out && t.hits[i] == s.hits[i]
    ensures forall k :: t.noted[(i, k)] == s.noted[(i, k)]
    ensures (t.w == Idle && t.key[i] == 0) || (t.w.StoreHit? && t.w.i == i && t.key[i] == t.w.k)
    decreases Ahead(s.w)
  {
    hide Run;
    ReachSelf(s);
    if s.w.Idle? {
      t := s;
    } else {
      var u := Step(s, ByWriter(0));
      ReachStep(s, s, ByWriter(0));
      if s.w.StoreKey? && s.w.i == i {
        t := u;
      } else {
        assert u.key[i] == 0 && u.hits[i] == s.hits[i] && u.d == s.d && u.out == s.out;
        t := ClaimOrPass(u, i);
        ReachOn(s, u, t);
      }
    }
  }

  /** A slot without a key but with a stray hit can be brought to where the stray is about
      to be overwritten. */
  lemma BeforeFirstHit(s: State, i: nat) returns (t: State)
    requires Ok(s) && i < TABLE_SLOTS && s.key[i] == 0 && !((s.w.Add? || s.w.StoreHit?) && s.w.i == i)
    ensures Ok(t) && Reaches(s, t) && t.d == s.d && t.out == s.out && t.hits[i] == s.hits[i]
    ensures forall k :: t.noted[(i, k)] == s.noted[(i, k)]
    ensures t.w.StoreHit? && t.w.i == i && t.key[i] == t.w.k
  {
    hide Run, Nowhere;
    t := ClaimOrPass(s, i);
    if t.w == Idle {
      var k := Unused(t.key);
      var u := FillTo(t, i, k);
      ReachOn(s, t, u);
      ReachStep(s, u, ByWriter(k));
      var a, b, c := u.(w := Scan(k, 0)), u.(w := QuietKey(k, 0)), u.(w := StoreKey(k, i));
      ScanMisses(a, k, 0);
      ReachOn(s, a, b);
      QuietFinds(b, k, 0, i);
      ReachOn(s, b, c);
      ReachStep(s, c, ByWriter(0));
      t := Step(c, ByWriter(0));
    }
  }

  lemma KeylessIsNotConserved(s: State, i: nat) returns (t: State)
    requires Starting(s) && i < TABLE_SLOTS && s.key[i] == 0 && s.hits[i] > 0
    ensures Ok(t) && Reaches(s, t) && t.d == Done && !Conserved(s, t, i)
  {
    hide Run, Told, Sane;
    StartIsOk(s);
    if (s.w.Add? || s.w.StoreHit?) && s.w.i == i {
      var k := s.w.k;
      ReachSelf(s);
      ReachStep(s, s, ByWriter(0));
      var a := Step(s, ByWriter(0));
      assert a.noted == s.noted + multiset{(i, k)} && a.d == s.d && a.out == s.out && a.key[i] == 0;
      t := DrainThrough(a, i);
      ReachOn(s, a, t);
      assert Told(t.out, i, k) + Own(t, i, k) + s.noted[(i, k)] != Own(s, i, k) + t.noted[(i, k)];
    } else {
      var a := DrainTo(s, i);
      assert SameSlot(s, a, i);
      var b := BeforeFirstHit(a, i);
      ReachOn(s, a, b);
      t := StrayUnderNewKey(s, b, i);
    }
  }

  lemma StrayUnderNewKey(s: State, b: State, i: nat) returns (t: State)
    requires Ok(s) && i < TABLE_SLOTS && s.key[i] == 0 && Ok(b) && Reaches(s, b) && b.d == Load(i)
    requires b.w.StoreHit? && b.w.i == i && b.key[i] == b.w.k && b.hits[i] > 0
    requires forall k :: Told(b.out, i, k) == 0 && b.noted[(i, k)] == s.noted[(i, k)]
    ensures Ok(t) && Reaches(s, t) && t.d == Done && !Conserved(s, t, i)
  {
    hide Run, Told;
    var k, h := b.w.k, b.hits[i];
    ReachStep(s, b, ByDrainer);
    var c := Step(b, ByDrainer);
    ReachStep(s, c, ByDrainer);
    var e := Step(c, ByDrainer);
    ToldMore(b.out, Entry(i, k, h), i, k);
    assert e.out == b.out + [Entry(i, k, h)];
    ReachStep(s, e, ByWriter(0));
    var f := Step(e, ByWriter(0));
    assert f.hits[i] == 1 && f.key[i] == k && f.noted == b.noted + multiset{(i, k)} && f.out == e.out;
    t := DrainRest(f);
    ReachOn(s, f, t);
    assert SameSlot(f, t, i);
    assert Told(t.out, i, k) + Own(t, i, k) + s.noted[(i, k)] != Own(s, i, k) + t.noted[(i, k)];
  }

  /** The drainer alone, over the whole table: what is in the slot is reported. */
  lemma DrainThrough(s: State, i: nat) returns (t: State)
    requires Ok(s) && s.d == Load(0) && i < TABLE_SLOTS
    ensures Ok(t) && Reaches(s, t) && t.d == Done && t.noted == s.noted
    ensures t.hits[i] == 0 && t.content[i] == multiset{} && forall k :: Told(t.out, i, k) == Told(s.out, i, k) + Left(s, i, k)
  {
    hide Run, Told;
    var a := DrainTo(s, i);
    var b := DrainSlot(a);
    ReachOn(s, a, b);
    t := DrainRest(b);
    ReachOn(s, b, t);
    assert SameSlot(s, a, i) && SameSlot(b, t, i);
  }

  /** Whatever the two threads do, a drain from here neither loses nor makes up hits of
      the slot. */
  ghost predicate AlwaysConserved(s: State, i: nat)
    requires Ok(s)
  {
    forall schedule :: Run(s, schedule).d == Done ==> Conserved(s, Run(s, schedule), i)
  }

  lemma NotAlways(s: State, t: State, i: nat)
    requires Ok(s) && Reaches(s, t) && t.d == Done && !Conserved(s, t, i)
    ensures !AlwaysConserved(s, i)
  {
    hide Conserved, Run;
    var schedule :| Run(s, schedule) == t;
  }

  /** The exact condition: every schedule conserves a slot's hits if and only if the slot
      has a key and hits when the drain begins and the writer is not about to overwrite
      them with its first. */
  lemma ConservedIff(s: State, i: nat)
    requires Starting(s) && i < TABLE_SLOTS
    ensures AlwaysConserved(s, i) <==> s.key[i] != 0 && s.hits[i] > 0 && !(s.w.StoreHit? && s.w.i == i)
  {
    hide Told, Run, Conserved, Starting, Left;
    StartIsOk(s);
    if s.hits[i] == 0 {
      var t := SilentIsNotConserved(s, i);
      NotAlways(s, t, i);
    } else if s.key[i] == 0 {
      var t := KeylessIsNotConserved(s, i);
      NotAlways(s, t, i);
    } else if s.w.StoreHit? && s.w.i == i {
      var t := OverwrittenHitIsLost(s, i);
      NotAlways(s, t, i);
    } else {
      forall schedule | Run(s, schedule).d == Done ensures Conserved(s, Run(s, schedule), i) {
        OccupiedIsConserved(s, schedule, i);
      }
    }
  }

  lemma SilentIsNotConserved(s: State, i: nat) returns (t: State)
    requires Starting(s) && i < TABLE_SLOTS && s.hits[i] == 0
    ensures Ok(t) && Reaches(s, t) && t.d == Done && !Conserved(s, t, i)
  {
    hide Told, Run;
    var k;
    t, k := SilentSlotLosesAHit(s, i);
    assert Told(t.out, i, k) + Own(t, i, k) + s.noted[(i, k)] != Own(s, i, k) + t.noted[(i, k)];
  }

  // ---------------------------------------------------------------------------
  // What goes wrong otherwise.

  lemma {:induction false} NoteMany(s: State, k: nat, i: nat, n: nat) returns (t: State)
    requires Ok(s) && s.w == Idle && k != 0 && i < TABLE_SLOTS && s.key[i] == k && NotBefore(s.key, k, i)
    ensures Reaches(s, t) && t == s.(hits := s.hits[i := s.hits[i] + n], noted := t.noted, content := t.content)
    ensures forall p :: p != (i, k) ==> t.noted[p] == s.noted[p]
    decreases n
  {
    hide Run;
    ReachSelf(s);
    if n == 0 {
      t := s;
    } else {
      var u := NoteMany(s, k, i, n - 1);
      NoteThere(u, k, i);
      t := OneMore(u, i, k);
      ReachOn(s, u, t);
    }
  }

  /** Between the load of a silent slot's key and the swap the slot can be claimed. The
      documentation bounds the damage at a single hit; there is no bound. For every slot
      and every `n` some schedule reports `n` hits under a key that had none. */
  lemma SilentSlotMisattributesAnyNumber(s: State, i: nat, n: nat) returns (t: State)
    requires Starting(s) && s.w == Idle && i < TABLE_SLOTS && s.key[i] != 0 && s.hits[i] == 0 && n > 0
    ensures Ok(t) && Reaches(s, t) && t.d == Done
    ensures Told(t.out, i, s.key[i]) == n && t.noted[(i, s.key[i])] == s.noted[(i, s.key[i])]
  {
    hide Run, Told, Sane;
    StartIsOk(s);
    var a := DrainTo(s, i);
    assert SameSlot(s, a, i);
    ReachStep(s, a, ByDrainer);
    var b := Step(a, ByDrainer);
    assert b == a.(d := Swap(i, s.key[i]));
    var k := Unused(b.key);
    var v := FillAndClaim(b, k, i);
    ReachOn(s, b, v);
    var c := NoteMany(v, k, i, n - 1);
    ReachOn(s, v, c);
    assert k != s.key[i] by { assert b.key[i] != k; }
    ReachStep(s, c, ByDrainer);
    var e := Step(c, ByDrainer);
    ToldMore(c.out, Entry(i, s.key[i], n), i, s.key[i]);
    assert e.out == c.out + [Entry(i, s.key[i], n)];
    t := DrainRest(e);
    ReachOn(s, e, t);
    assert SameSlot(e, t, i);
  }

  /** The lost hit stays behind as a stray. When a new key takes the slot, the next drain
      can report the stray under it, although that key was never noted there. */
  lemma StrayHitIsMisattributed(s: State, k: nat) returns (t: State, u: State)
    requires Starting(s) && s.w == Idle && s.key[0] != 0 && s.hits[0] == 0 && k != 0 && Nowhere(s.key, k)
    ensures Ok(t) && Reaches(s, t) && t.d == Done && Ok(u) && Reaches(Restart(t), u)
    ensures u.out == [Entry(0, k, 1)] && u.noted[(0, k)] == s.noted[(0, k)]
  {
    assert s.key[0] != k;
    hide Run, Told, Nowhere;
    StartIsOk(s);
    var a := LeaveStray(s);
    KeysOnlyCleared(s.key, a.key, k);
    t := DrainRest(a);
    ReachOn(s, a, t);
    assert SameSlot(a, t, 0);
    KeysOnlyCleared(a.key, t.key, k);
    var r := Restart(t);
    u := ReportStray(r, k);
  }

  lemma KeysOnlyCleared(a: seq<nat>, b: seq<nat>, k: nat)
    requires k != 0 && Nowhere(a, k) && |a| == |b| && forall m: nat :: m < |a| ==> b[m] == a[m] || b[m] == 0
    ensures Nowhere(b, k)
  {
  }

  lemma LeaveStray(s: State) returns (a: State)
    requires Starting(s) && s.w == Idle && s.key[0] != 0 && s.hits[0] == 0
    ensures Ok(a) && Reaches(s, a) && a.d == Load(1) && a.w == Idle && a.key == s.key[0 := 0] && a.hits == s.hits[0 := 1]
    ensures a.noted == s.noted + multiset{(0, s.key[0])}
  {
    hide Run, Told;
    ReachSelf(s);
    ReachStep(s, s, ByDrainer);
    var b := Step(s, ByDrainer);
    ReachStep(s, b, ByDrainer);
    var c := Step(b, ByDrainer);
    assert s.hits[0 := 0] == s.hits;
    assert c.key == s.key && c.hits == s.hits && c.w == Idle && c.d == Clear(0, false) && c.noted == s.noted;
    NoteThere(c, s.key[0], 0);
    var e := OneMore(c, 0, s.key[0]);
    ReachOn(s, c, e);
    ReachStep(s, e, ByDrainer);
    a := Step(e, ByDrainer);
  }

  lemma ReportStray(r: State, k: nat) returns (u: State)
    requires Ok(r) && r.d == Load(0) && r.out == [] && r.w == Idle && r.key[0] == 0 && r.hits[0] == 1
    requires k != 0 && Nowhere(r.key, k)
    ensures Ok(u) && Reaches(r, u) && u.out == [Entry(0, k, 1)] && u.noted == r.noted
  {
    hide Run, Nowhere;
    ReachSelf(r);
    ReachStep(r, r, ByWriter(k));
    var a, b, c := r.(w := Scan(k, 0)), r.(w := QuietKey(k, 0)), r.(w := StoreKey(k, 0));
    ScanMisses(a, k, 0);
    ReachOn(r, a, b);
    QuietFinds(b, k, 0, 0);
    ReachOn(r, b, c);
    ReachStep(r, c, ByWriter(0));
    var e := Step(c, ByWriter(0));
    ReachStep(r, e, ByDrainer);
    var f := Step(e, ByDrainer);
    ReachStep(r, f, ByDrainer);
    u := Step(f, ByDrainer);
  }

  /** Swapping before loading reports one key's hits under another: whatever slot 0
      held, the reporter can be made to name a key that never had them. */
  lemma SwapFirstMisattributes(s: State, k: nat) returns (t: State)
    requires Ok(s) && s.w == Idle && s.d == SwapEarly(0) && s.out == []
    requires s.key[0] != 0 && s.hits[0] > 0 && k != 0 && Nowhere(s.key, k)
    ensures Ok(t) && Reaches(s, t) && t.out == [Entry(0, k, s.hits[0])]
    ensures t.noted == s.noted + multiset{(0, k)}
  {
    hide Run, Nowhere;
    ReachSelf(s);
    ReachStep(s, s, ByDrainer);
    var a := Step(s, ByDrainer);
    Claim(a, k, 0);
    var b := First(a, 0, k).(key := a.key[0 := k]);
    ReachOn(s, a, b);
    ReachStep(s, b, ByDrainer);
    t := Step(b, ByDrainer);
  }
}
