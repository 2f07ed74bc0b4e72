/** `PaneTable`: bytes, frames and dirty bands attributed to panes, and the fold of
    a frame's band plan into it. Pane 0 is a legal pane, so a slot is free when it
    is quiet, not when its id is 0. A bitmap is the set of its bits. */
module PaneTables {
  import opened Bytes
  import opened Seating

  datatype Slot = Slot(id: nat, inBytes: nat, dirty: set<nat>, bandTotal: nat, frames: nat)

  datatype Panes = Panes(slots: seq<Slot>, other: nat)

  datatype Op =
    | AddIn(id: nat, bytes: nat)
    | NoteBands(id: nat, bits: set<nat>, total: nat)

  const EMPTY: Slot := Slot(0, 0, {}, 0, 0)

  predicate Loud(s: Slot) {
    s.inBytes > 0 || s.frames > 0
  }

  ghost predicate Eight(t: Panes) {
    |t.slots| == TABLE_SLOTS
  }

  function FindId(slots: seq<Slot>, id: nat, i: nat): (r: nat)
    requires i <= |slots|
    ensures i <= r <= |slots|
    ensures r < |slots| ==> slots[r].id == id
    ensures forall j :: i <= j < r ==> slots[j].id != id
    decreases |slots| - i
  {
    if i == |slots| || slots[i].id == id then i else FindId(slots, id, i + 1)
  }

  function FindQuietSlot(slots: seq<Slot>, i: nat): (r: nat)
    requires i <= |slots|
    ensures i <= r <= |slots|
    ensures r < |slots| ==> !Loud(slots[r])
    ensures forall j :: i <= j < r ==> Loud(slots[j])
    decreases |slots| - i
  {
    if i == |slots| || !Loud(slots[i]) then i else FindQuietSlot(slots, i + 1)
  }

  /** The slot an op goes to (`TABLE_SLOTS` when there is none), and the table after
      a quiet slot was claimed for it. */
  ghost function Seat(t: Panes, id: nat): (r: (nat, Panes))
    requires Eight(t)
    ensures Eight(r.1) && r.0 <= TABLE_SLOTS
  {
    var i, q := FindId(t.slots, id, 0), FindQuietSlot(t.slots, 0);
    if i < TABLE_SLOTS then (i, t)
    else if q < TABLE_SLOTS then (q, t.(slots := t.slots[q := t.slots[q].(id := id, bandTotal := 0)]))
    else (TABLE_SLOTS, t)
  }

  function Apply(s: Slot, op: Op): Slot {
    match op
    case AddIn(_, n) => s.(inBytes := s.inBytes + n)
    case NoteBands(_, bits, total) => s.(dirty := s.dirty + bits, bandTotal := total, frames := s.frames + 1)
  }

  ghost function Act(t: Panes, op: Op): (t': Panes)
    requires Eight(t)
    ensures Eight(t')
  {
    var (i, u) := Seat(t, op.id);
    if i < TABLE_SLOTS then u.(slots := u.slots[i := Apply(u.slots[i], op)])
    else if op.AddIn? then u.(other := u.other + op.bytes)
    else u
  }

  ghost function Acts(t: Panes, ops: seq<Op>): (t': Panes)
    requires Eight(t)
    ensures Eight(t')
  {
    if ops == [] then t else Act(Acts(t, ops[..|ops| - 1]), ops[|ops| - 1])
  }

  function DrainSlot(s: Slot): Slot {
    if Loud(s) then s.(inBytes := 0, dirty := {}, frames := 0) else EMPTY
  }

  ghost function Drained(t: Panes): Panes {
    Panes(seq(|t.slots|, i requires 0 <= i < |t.slots| => DrainSlot(t.slots[i])), 0)
  }

  function Report(slots: seq<Slot>): seq<Slot> {
    if slots == [] then []
    else
      var n := |slots| - 1;
      Report(slots[..n]) + (if Loud(slots[n]) then [slots[n]] else [])
  }

  // ---------------------------------------------------------------------------
  // What a window should say, from the operations alone.

  /** The panes that received bytes or drew a frame, in order. */
  function LoudIds(ops: seq<Op>): seq<nat> {
    if ops == [] then []
    else
      var op := ops[|ops| - 1];
      LoudIds(ops[..|ops| - 1]) + (if op.NoteBands? || op.bytes > 0 then [op.id] else [])
  }

  /** All bytes a pane received. */
  function BytesOf(ops: seq<Op>, id: nat): nat {
    if ops == [] then 0
    else
      var op := ops[|ops| - 1];
      BytesOf(ops[..|ops| - 1], id) + (if op.AddIn? && op.id == id then op.bytes else 0)
  }

  /** The frames a pane drew, by their places among the operations. */
  function FramesOf(ops: seq<Op>, id: nat): set<nat> {
    set i: nat | i < |ops| && ops[i].NoteBands? && ops[i].id == id
  }

  /** Every band that was dirty in some frame of the pane. */
  function BandsOf(ops: seq<Op>, id: nat): set<nat> {
    set i, b | i in FramesOf(ops, id) && b in ops[i].bits :: b
  }

  /** The total noted with the pane's last frame. */
  function LastTotal(ops: seq<Op>, id: nat): nat {
    if ops == [] then 0
    else
      var op := ops[|ops| - 1];
      if op.NoteBands? && op.id == id then op.total else LastTotal(ops[..|ops| - 1], id)
  }

  /** The slot a pane deserves. */
  function Ledger(ops: seq<Op>, id: nat): Slot {
    Slot(id, BytesOf(ops, id), BandsOf(ops, id), LastTotal(ops, id), |FramesOf(ops, id)|)
  }

  lemma LedgerStep(ops: seq<Op>, op: Op, id: nat)
    ensures Ledger(ops + [op], id) == if op.id == id then Apply(Ledger(ops, id), op) else Ledger(ops, id)
  {
    var all, n := ops + [op], |ops|;
    assert all[..n] == ops;
    var its := op.NoteBands? && op.id == id;
    assert FramesOf(all, id) == FramesOf(ops, id) + (if its then {n} else {});
    forall b ensures b in BandsOf(all, id) <==> b in BandsOf(ops, id) || (its && b in op.bits) {
      if b in BandsOf(ops, id) {
        var i :| i in FramesOf(ops, id) && b in ops[i].bits;
        assert i in FramesOf(all, id) && b in all[i].bits;
      }
      if its && b in op.bits {
        assert n in FramesOf(all, id) && b in all[n].bits;
      }
    }
  }

  lemma EmptyLedger(id: nat)
    ensures Ledger([], id) == Slot(id, 0, {}, 0, 0)
  {
    assert FramesOf([], id) == {} && BandsOf([], id) == {};
  }

  /** Bytes that went to panes without a slot. */
  function Homeless(ops: seq<Op>, seats: seq<nat>): nat {
    if ops == [] then 0
    else
      var op := ops[|ops| - 1];
      Homeless(ops[..|ops| - 1], seats) + (if op.AddIn? && op.id !in seats then op.bytes else 0)
  }

  /** `s` is the pane's ledger, up to a band total nobody noted this window. */
  ghost predicate Matches(s: Slot, ledger: Slot) {
    s == ledger.(bandTotal := s.bandTotal) && (s.frames > 0 ==> s.bandTotal == ledger.bandTotal)
  }

  ghost predicate Fresh(t: Panes) {
    Eight(t) && t.other == 0 && forall i :: 0 <= i < TABLE_SLOTS ==> !Loud(t.slots[i]) && t.slots[i].dirty == {}
  }

  ghost function LoudMarks(slots: seq<Slot>): (m: seq<nat>)
    ensures |m| == |slots|
  {
    seq(|slots|, i requires 0 <= i < |slots| => if Loud(slots[i]) then 1 else 0)
  }

  ghost function Seats(ops: seq<Op>): seq<nat> {
    Seated(LoudIds(ops))
  }

  /** Each loud slot is the one its pane is looked up at; quiet slots carry no
      bands. */
  ghost predicate Placed(slots: seq<Slot>) {
    forall i :: 0 <= i < |slots| ==>
      (Loud(slots[i]) ==> FindId(slots, slots[i].id, 0) == i) &&
      (!Loud(slots[i]) ==> slots[i].dirty == {})
  }

  ghost predicate Booked(slots: seq<Slot>, seats: seq<nat>, ops: seq<Op>) {
    forall i :: 0 <= i < |slots| && Loud(slots[i]) ==>
      slots[i].id in seats && Matches(slots[i], Ledger(ops, slots[i].id))
  }

  ghost predicate AllSeated(slots: seq<Slot>, seats: seq<nat>) {
    forall id :: id in seats ==> exists i :: 0 <= i < |slots| && slots[i].id == id && Loud(slots[i])
  }

  ghost predicate Window(t: Panes, ops: seq<Op>) {
    Eight(t) && Placed(t.slots) &&
    Active(LoudMarks(t.slots)) == |Seats(ops)| &&
    Booked(t.slots, Seats(ops), ops) &&
    AllSeated(t.slots, Seats(ops)) &&
    (forall id :: id !in LoudIds(ops) ==> !Loud(Ledger(ops, id)) && Ledger(ops, id).dirty == {}) &&
    t.other == Homeless(ops, Seats(ops))
  }

  /** What one more operation does to the reference quantities. */
  lemma OpsStep(ops: seq<Op>, op: Op, id: nat, seats: seq<nat>)
    ensures LoudIds(ops + [op]) == LoudIds(ops) + (if op.NoteBands? || op.bytes > 0 then [op.id] else [])
    ensures Ledger(ops + [op], id) == if op.id == id then Apply(Ledger(ops, id), op) else Ledger(ops, id)
    ensures Homeless(ops + [op], seats)
            == Homeless(ops, seats) + (if op.AddIn? && op.id !in seats then op.bytes else 0)
  {
    assert (ops + [op])[..|ops|] == ops;
    LedgerStep(ops, op, id);
  }

  lemma {:induction false} HomelessGrows(ops: seq<Op>, seats: seq<nat>, id: nat)
    requires id !in LoudIds(ops)
    ensures Homeless(ops, seats + [id]) == Homeless(ops, seats)
    decreases |ops|
  {
    if ops != [] {
      HomelessGrows(ops[..|ops| - 1], seats, id);
    }
  }

  lemma SeatsStep(ops: seq<Op>, op: Op)
    ensures var seats := Seats(ops);
            Seats(ops + [op]) ==
              if (op.AddIn? && op.bytes == 0) || op.id in seats || |seats| == TABLE_SLOTS
              then seats else seats + [op.id]
  {
    OpsStep(ops, op, 0, []);
    SeatedStep(LoudIds(ops), op.id);
    assert LoudIds(ops) + [] == LoudIds(ops);
  }

  /** Claiming a quiet slot for an absent pane changes no loud slot. */
  lemma ClaimKeepsWindow(t: Panes, ops: seq<Op>, id: nat)
    requires Window(t, ops)
    ensures var (i, u) := Seat(t, id);
            Window(u, ops) &&
            (i < TABLE_SLOTS ==> u.slots[i].id == id && FindId(u.slots, id, 0) == i) &&
            (i == TABLE_SLOTS ==> u == t && forall j :: 0 <= j < TABLE_SLOTS ==> Loud(t.slots[j]) && t.slots[j].id != id)
  {
    hide Seats, Ledger, Homeless, LoudIds, Active;
    var (i, u) := Seat(t, id);
    if u != t {
      assert LoudMarks(u.slots) == LoudMarks(t.slots);
      forall j | 0 <= j < TABLE_SLOTS && Loud(u.slots[j])
        ensures FindId(u.slots, u.slots[j].id, 0) == j
      {
        assert u.slots[j] == t.slots[j];
      }
      forall c | c in Seats(ops)
        ensures exists j :: 0 <= j < TABLE_SLOTS && u.slots[j].id == c && Loud(u.slots[j])
      {
        var j :| 0 <= j < TABLE_SLOTS && t.slots[j].id == c && Loud(t.slots[j]);
        assert u.slots[j] == t.slots[j];
      }
    }
  }

  /** A quiet slot whose pane is about to be heard: the pane is new and has a seat. */
  lemma NewPane(t: Panes, ops: seq<Op>, i: nat)
    requires Window(t, ops) && i < TABLE_SLOTS && !Loud(t.slots[i])
    requires FindId(t.slots, t.slots[i].id, 0) == i
    ensures var id := t.slots[i].id;
            id !in Seats(ops) && |Seats(ops)| < TABLE_SLOTS && id !in LoudIds(ops) &&
            Homeless(ops, Seats(ops) + [id]) == Homeless(ops, Seats(ops))
  {
    var id := t.slots[i].id;
    ActiveBound(LoudMarks(t.slots));
    assert LoudMarks(t.slots)[i] == 0;
    assert id !in Seats(ops);
    HomelessGrows(ops, Seats(ops), id);
  }

  lemma PlacedAfterApply(slots: seq<Slot>, i: nat, op: Op)
    requires Placed(slots) && i < |slots| && slots[i].id == op.id && FindId(slots, op.id, 0) == i
    ensures Placed(slots[i := Apply(slots[i], op)])
  {
    var after := slots[i := Apply(slots[i], op)];
    forall j | 0 <= j < |after| && Loud(after[j])
      ensures FindId(after, after[j].id, 0) == j
    {
    }
  }

  lemma BookedAfterApply(t: Panes, ops: seq<Op>, i: nat, op: Op)
    requires Window(t, ops) && i < TABLE_SLOTS && t.slots[i].id == op.id && FindId(t.slots, op.id, 0) == i
    ensures var slots := t.slots[i := Apply(t.slots[i], op)];
            forall j :: 0 <= j < TABLE_SLOTS && Loud(slots[j]) ==> Matches(slots[j], Ledger(ops + [op], slots[j].id))
  {
    hide Seats, Homeless, LoudIds, Active, Ledger;
    var slots := t.slots[i := Apply(t.slots[i], op)];
    forall j | 0 <= j < TABLE_SLOTS && Loud(slots[j])
      ensures Matches(slots[j], Ledger(ops + [op], slots[j].id))
    {
      OpsStep(ops, op, slots[j].id, []);
      if j == i {
        if !Loud(t.slots[i]) {
          NewPane(t, ops, i);
        }
        LedgerId(ops, op.id);
      } else {
        assert FindId(t.slots, t.slots[j].id, 0) == j;
      }
    }
  }

  lemma LedgerId(ops: seq<Op>, id: nat)
    ensures Ledger(ops, id).id == id
  {
  }

  lemma LoudSlotHeard(t: Panes, ops: seq<Op>, i: nat, op: Op)
    requires Window(t, ops) && i < TABLE_SLOTS && t.slots[i].id == op.id && FindId(t.slots, op.id, 0) == i
    requires op.NoteBands? || op.bytes > 0
    ensures Window(t.(slots := t.slots[i := Apply(t.slots[i], op)]), ops + [op])
  {
    hide Seats, Homeless, LoudIds, Active, Ledger, Placed;
    var slots := t.slots[i := Apply(t.slots[i], op)];
    var seats, seats' := Seats(ops), Seats(ops + [op]);
    PlacedAfterApply(t.slots, i, op);
    BookedAfterApply(t, ops, i, op);
    SeatsStep(ops, op);
    OpsStep(ops, op, op.id, seats');
    assert LoudMarks(slots) == LoudMarks(t.slots)[i := 1];
    ActiveUpdate(LoudMarks(t.slots), i, 1);
    if !Loud(t.slots[i]) {
      NewPane(t, ops, i);
    }
    assert op.id in seats';
    SeatsHeard(t.slots, slots, seats, i);
    forall id | id !in LoudIds(ops + [op])
      ensures !Loud(Ledger(ops + [op], id)) && Ledger(ops + [op], id).dirty == {}
    {
      OpsStep(ops, op, id, []);
    }
  }

  lemma SeatsHeard(before: seq<Slot>, after: seq<Slot>, seats: seq<nat>, i: nat)
    requires AllSeated(before, seats) && |before| == |after| && i < |before|
    requires Loud(after[i]) && after[i].id == before[i].id
    requires forall j :: 0 <= j < |before| && j != i ==> after[j] == before[j]
    ensures AllSeated(after, seats) && AllSeated(after, seats + [after[i].id])
  {
    forall c | c in seats + [after[i].id]
      ensures exists j :: 0 <= j < |after| && after[j].id == c && Loud(after[j])
    {
      if c != after[i].id {
        var j :| 0 <= j < |before| && before[j].id == c && Loud(before[j]);
        assert j != i && after[j].id == c;
      }
    }
  }

  lemma SilentOp(t: Panes, ops: seq<Op>, op: Op)
    requires Window(t, ops) && op.AddIn? && op.bytes == 0
    ensures Window(t, ops + [op])
  {
    hide Homeless, LoudIds, Active, Ledger, Placed, Seats;
    SeatsStep(ops, op);
    OpsStep(ops, op, op.id, Seats(ops));
    assert LoudIds(ops + [op]) == LoudIds(ops);
    forall id ensures Ledger(ops + [op], id) == Ledger(ops, id) {
      OpsStep(ops, op, id, []);
    }
  }

  lemma NoSlot(t: Panes, ops: seq<Op>, op: Op)
    requires Window(t, ops)
    requires forall j :: 0 <= j < TABLE_SLOTS ==> Loud(t.slots[j]) && t.slots[j].id != op.id
    ensures Window(if op.AddIn? then t.(other := t.other + op.bytes) else t, ops + [op])
  {
    hide Homeless, LoudIds, Active, Ledger, Placed, Seats;
    ActiveAll(LoudMarks(t.slots));
    SeatsStep(ops, op);
    assert op.id !in Seats(ops);
    OpsStep(ops, op, op.id, Seats(ops));
    forall id ensures op.id != id ==> Ledger(ops + [op], id) == Ledger(ops, id) {
      OpsStep(ops, op, id, []);
    }
    if op.AddIn? && op.bytes == 0 {
      SilentOp(t, ops, op);
    }
  }

  lemma WindowStep(t: Panes, ops: seq<Op>, op: Op)
    requires Window(t, ops)
    ensures Window(Act(t, op), ops + [op])
  {
    hide Window;
    ClaimKeepsWindow(t, ops, op.id);
    var (i, u) := Seat(t, op.id);
    if i == TABLE_SLOTS {
      NoSlot(t, ops, op);
    } else if op.AddIn? && op.bytes == 0 {
      SilentOp(u, ops, op);
      assert u.slots[i := Apply(u.slots[i], op)] == u.slots;
    } else {
      LoudSlotHeard(u, ops, i, op);
    }
  }

  lemma {:induction false} WindowRun(t: Panes, ops: seq<Op>)
    requires Fresh(t)
    ensures Window(Acts(t, ops), ops)
    decreases |ops|
  {
    if ops == [] {
      hide Ledger;
      ActiveBound(LoudMarks(t.slots));
      forall id ensures Ledger(ops, id) == Slot(id, 0, {}, 0, 0) {
        EmptyLedger(id);
      }
    } else {
      hide Ledger;
      var n := |ops| - 1;
      WindowRun(t, ops[..n]);
      WindowStep(Acts(t, ops[..n]), ops[..n], ops[n]);
      assert ops == ops[..n] + [ops[n]];
    }
  }

  lemma {:induction false} ReportIsLoudSlots(slots: seq<Slot>)
    ensures |Report(slots)| == Active(LoudMarks(slots))
    ensures forall s :: s in Report(slots) <==> s in slots && Loud(s)
    decreases |slots|
  {
    if slots != [] {
      var n := |slots| - 1;
      ReportIsLoudSlots(slots[..n]);
      assert LoudMarks(slots)[..n] == LoudMarks(slots[..n]);
      assert slots == slots[..n] + [slots[n]];
    }
  }

  /** From any drained table, for any traffic between two drains: the report has one
      entry for each of the first eight panes that received bytes or drew a frame,
      carrying exactly that pane's bytes, frames, union of dirty bands and last
      noted band total; the bytes of every other pane, and nothing else, are in
      `other`. */
  lemma WindowIsExact(t: Panes, ops: seq<Op>)
    requires Fresh(t)
    ensures var t' := Acts(t, ops);
            var out := Report(t'.slots);
            |out| == |Seats(ops)| &&
            (forall s :: s in out ==> s.id in Seats(ops) && Matches(s, Ledger(ops, s.id))) &&
            (forall id :: id in Seats(ops) ==> exists s :: s in out && s.id == id) &&
            t'.other == Homeless(ops, Seats(ops))
  {
    hide Active, Seats, Ledger, Homeless, LoudIds;
    var t' := Acts(t, ops);
    WindowRun(t, ops);
    ReportIsLoudSlots(t'.slots);
    forall id | id in Seats(ops)
      ensures exists s :: s in Report(t'.slots) && s.id == id
    {
      var i :| 0 <= i < |t'.slots| && t'.slots[i].id == id && Loud(t'.slots[i]);
      assert t'.slots[i] in Report(t'.slots);
    }
  }

  /** A total the pane brought along from the last window, or noted in this one. */
  ghost predicate CarriedTotal(t: Panes, s: Slot) {
    exists j :: 0 <= j < |t.slots| && t.slots[j].id == s.id && t.slots[j].bandTotal == s.bandTotal
  }

  ghost predicate NotedTotal(ops: seq<Op>, s: Slot) {
    exists j :: 0 <= j < |ops| && ops[j].NoteBands? && ops[j].id == s.id && ops[j].total == s.bandTotal
  }

  /** A slot never shows the band total of the pane that had it before. */
  lemma {:induction false} TotalsAreOwn(t: Panes, ops: seq<Op>, i: nat)
    requires Eight(t) && i < TABLE_SLOTS
    ensures var s := Acts(t, ops).slots[i];
            s.bandTotal == 0 || CarriedTotal(t, s) || NotedTotal(ops, s)
    decreases |ops|
  {
    var s := Acts(t, ops).slots[i];
    if ops == [] {
      assert t.slots[i] == s;
    } else {
      var n := |ops| - 1;
      var before := Acts(t, ops[..n]).slots[i];
      TotalsAreOwn(t, ops[..n], i);
      if s.id == before.id && s.bandTotal == before.bandTotal {
        StillNoted(ops, before, s);
      } else if s.bandTotal != 0 {
        assert ops[n].NoteBands? && ops[n].id == s.id && ops[n].total == s.bandTotal;
      }
    }
  }

  lemma StillNoted(ops: seq<Op>, before: Slot, s: Slot)
    requires ops != [] && s.id == before.id && s.bandTotal == before.bandTotal
    ensures NotedTotal(ops[..|ops| - 1], before) ==> NotedTotal(ops, s)
  {
    if NotedTotal(ops[..|ops| - 1], before) {
      var j :| 0 <= j < |ops| - 1 && ops[..|ops| - 1][j].NoteBands? && ops[..|ops| - 1][j].id == before.id && ops[..|ops| - 1][j].total == before.bandTotal;
      assert ops[j].NoteBands?;
    }
  }

  lemma NextWindow(t: Panes, ops: seq<Op>)
    requires Fresh(t)
    ensures Fresh(Drained(Acts(t, ops)))
    ensures var u, v := Acts(t, ops).slots, Drained(Acts(t, ops)).slots;
            forall i :: 0 <= i < TABLE_SLOTS ==>
              if u[i].inBytes == 0 && u[i].frames == 0 then v[i] == Slot(0, 0, {}, 0, 0)
              else v[i].id == u[i].id && v[i].bandTotal == u[i].bandTotal
  {
    hide Window, Seats;
    WindowRun(t, ops);
  }

  // ---------------------------------------------------------------------------

  class PaneTable {
    const slots: array<Slot>
    var other: nat

    ghost predicate Valid()
      reads this, slots
    {
      slots.Length == TABLE_SLOTS
    }

    ghost function View(): Panes
      reads this, slots
    {
      Panes(slots[..], other)
    }

    constructor ()
      ensures Valid() && Fresh(View()) && fresh(slots)
    {
      slots := new Slot[TABLE_SLOTS](_ => EMPTY);
      other := 0;
    }

    method FindSlot(id: nat) returns (at: Option<nat>)
      requires Valid()
      modifies slots
      ensures Valid() && Eight(old(View()))
      ensures var (i, u) := Seat(old(View()), id);
              View() == u && at == if i < TABLE_SLOTS then Some(i) else None
    {
      ghost var t := View();
      for i := 0 to TABLE_SLOTS
        invariant View() == t && FindId(t.slots, id, 0) == FindId(t.slots, id, i)
      {
        if slots[i].id == id {
          return Some(i);
        }
      }
      for i := 0 to TABLE_SLOTS
        invariant View() == t && FindQuietSlot(t.slots, 0) == FindQuietSlot(t.slots, i)
      {
        var quiet := slots[i].inBytes == 0 && slots[i].frames == 0;
        if quiet {
          slots[i] := slots[i].(id := id, bandTotal := 0);
          return Some(i);
        }
      }
      at := None;
    }

    method Note(id: nat, bits: set<nat>, total: nat)
      requires Valid()
      modifies this, slots
      ensures Valid() && Eight(old(View())) && View() == Act(old(View()), NoteBands(id, bits, total))
    {
      var at := FindSlot(id);
      match at
      case None =>
      case Some(i) =>
        slots[i] := slots[i].(dirty := slots[i].dirty + bits, bandTotal := total, frames := slots[i].frames + 1);
    }

    method Add(id: nat, bytes: nat)
      requires Valid()
      modifies this, slots
      ensures Valid() && Eight(old(View())) && View() == Act(old(View()), AddIn(id, bytes))
    {
      var at := FindSlot(id);
      match at
      case None => other := other + bytes;
      case Some(i) => slots[i] := slots[i].(inBytes := slots[i].inBytes + bytes);
    }

    method Drain() returns (out: seq<Slot>, rest: nat)
      requires Valid()
      modifies this, slots
      ensures Valid() && View() == Drained(old(View()))
      ensures out == Report(old(slots[..])) && rest == old(other)
    {
      ghost var t := slots[..];
      out := [];
      for i := 0 to TABLE_SLOTS
        invariant other == old(other)
        invariant forall j :: 0 <= j < i ==> slots[j] == DrainSlot(t[j])
        invariant forall j :: i <= j < TABLE_SLOTS ==> slots[j] == t[j]
        invariant out == Report(t[..i])
      {
        assert t[..i + 1][..i] == t[..i];
        var s := slots[i];
        slots[i] := s.(inBytes := 0, dirty := {}, frames := 0);
        if s.inBytes > 0 || s.frames > 0 {
          out := out + [s];
        } else {
          slots[i] := slots[i].(id := 0, bandTotal := 0);
        }
      }
      assert t[..TABLE_SLOTS] == t;
      rest := other;
      other := 0;
    }
  }
}
