/** What a pacer knows, read off the history of its life: every byte with the time it was
    delivered at, and every frame presented. Nothing here mentions how the pacer works. */
module SyncHistories {
  import opened Bytes
  import opened SyncPacer
  import opened PaneAggregate

  datatype Atom = Got(b: byte, now: nat) | Shown(now: nat)

  function Delivered(bytes: seq<byte>, now: nat): seq<Atom> {
    if bytes == [] then [] else Delivered(bytes[..|bytes| - 1], now) + [Got(bytes[|bytes| - 1], now)]
  }

  /** The history of a run; draining the counters leaves no trace in it. */
  function History(ops: seq<Op>): seq<Atom> {
    if ops == [] then []
    else
      History(ops[..|ops| - 1]) +
      match ops[|ops| - 1]
      case Feed(bytes, now) => Delivered(bytes, now)
      case Present(now) => [Shown(now)]
      case Take => []
  }

  function Heard(h: seq<Atom>): seq<byte> {
    if h == [] then []
    else Heard(h[..|h| - 1]) + match h[|h| - 1] case Got(b, _) => [b] case Shown(_) => []
  }

  /** The marker `m` is complete with atom `k`. */
  ghost predicate MarkerAt(h: seq<Atom>, k: nat, m: seq<byte>) {
    k < |h| && h[k].Got? && EndsWith(Heard(h[..k + 1]), m)
  }

  /** The last complete marker is an opening one. */
  ghost predicate InBlock(h: seq<Atom>) {
    exists k: nat :: MarkerAt(h, k, BSU) && NotClosed(h, k)
  }

  ghost predicate NotClosed(h: seq<Atom>, k: nat) {
    forall j: nat :: k < j ==> !MarkerAt(h, j, ESU)
  }

  /** Atom `k` completes an opening marker outside of any block. */
  ghost predicate Opens(h: seq<Atom>, k: nat) {
    MarkerAt(h, k, BSU) && !InBlock(h[..k])
  }

  /** The present block began at `k`: the first opening marker after the last closing one. */
  ghost predicate OpenSince(h: seq<Atom>, k: nat) {
    Opens(h, k) && NotClosed(h, k)
  }

  /** Frame `j` was presented when the block begun at `k` was 150 ms old or older. */
  ghost predicate Late(h: seq<Atom>, k: nat, j: nat) {
    k < j < |h| && h[j].Shown? && Elapsed(h[k].now, h[j].now) >= 150
  }

  /** The block begun at `k` was still open at some late frame. */
  ghost predicate Escaped(h: seq<Atom>, k: nat) {
    Opens(h, k) && exists j: nat :: Late(h, k, j) && NotClosed(h[..j], k)
  }

  ghost function Openings(h: seq<Atom>): set<nat> {
    set k: nat | k < |h| && Opens(h, k)
  }

  ghost function Escapes(h: seq<Atom>): set<nat> {
    set k: nat | k < |h| && Escaped(h, k)
  }

  /** Some byte arrived after the last frame. */
  ghost predicate Unshown(h: seq<Atom>) {
    exists k: nat :: k < |h| && h[k].Got? && forall j :: k < j < |h| ==> h[j].Got?
  }

  /** The pacer is what the history makes of it. */
  ghost predicate Tells(h: seq<Atom>, r: Run) {
    r.p.matched <= SYNC_PREFIX_MAX && r.p.matched == Absorb(FRESH, Heard(h), 0).matched &&
    (r.p.sync.inSync <==> InBlock(h)) &&
    (InBlock(h) ==> exists k: nat :: OpenSince(h, k)) &&
    (forall k: nat :: OpenSince(h, k) ==> r.p.sync.sinceMs == h[k].now && (r.p.sync.counted <==> Escaped(h, k))) &&
    r.blocksOut + r.p.sync.blocks == |Openings(h)| &&
    r.timeoutsOut + r.p.timeouts == |Escapes(h)| &&
    (r.p.dirty <==> Unshown(h))
  }

  // ---------------------------------------------------------------------------
  // One more atom.

  lemma HeardMore(h: seq<Atom>, a: Atom)
    ensures Heard(h + [a]) == Heard(h) + match a case Got(b, _) => [b] case Shown(_) => []
  {
    assert (h + [a])[..|h|] == h;
  }

  lemma MarkerKept(h: seq<Atom>, a: Atom, k: nat, m: seq<byte>)
    requires k < |h|
    ensures MarkerAt(h + [a], k, m) <==> MarkerAt(h, k, m)
  {
    assert (h + [a])[..k + 1] == h[..k + 1];
  }

  lemma NotClosedMore(h: seq<Atom>, a: Atom, k: nat)
    ensures NotClosed(h + [a], k) <==> NotClosed(h, k) && (k < |h| ==> !MarkerAt(h + [a], |h|, ESU))
  {
    hide MarkerAt;
    forall j: nat ensures MarkerAt(h + [a], j, ESU) <==> (if j < |h| then MarkerAt(h, j, ESU) else j == |h| && MarkerAt(h + [a], j, ESU)) {
      MarkerIn(h, j, ESU);
      MarkerIn(h + [a], j, ESU);
      if j < |h| {
        MarkerKept(h, a, j, ESU);
      }
    }
    forall j: nat | MarkerAt(h, j, ESU) ensures j < |h| {
      MarkerIn(h, j, ESU);
    }
  }

  lemma MarkerIn(h: seq<Atom>, k: nat, m: seq<byte>)
    ensures MarkerAt(h, k, m) ==> k < |h|
  {
  }

  lemma OpensKept(h: seq<Atom>, a: Atom, k: nat)
    requires k < |h|
    ensures Opens(h + [a], k) <==> Opens(h, k)
  {
    MarkerKept(h, a, k, BSU);
    assert (h + [a])[..k] == h[..k];
  }

  lemma OpensNow(h: seq<Atom>, a: Atom)
    ensures Opens(h + [a], |h|) <==> MarkerAt(h + [a], |h|, BSU) && !InBlock(h)
  {
    assert (h + [a])[..|h|] == h;
  }

  lemma OpensIn(h: seq<Atom>, k: nat)
    ensures Opens(h, k) ==> k < |h|
  {
  }

  /** Not both markers end at one byte. */
  lemma OneMarker(h: seq<Atom>, k: nat)
    ensures !(MarkerAt(h, k, BSU) && MarkerAt(h, k, ESU))
  {
    assert BSU[7] != ESU[7];
  }

  lemma InBlockMore(h: seq<Atom>, a: Atom)
    ensures InBlock(h + [a]) <==> MarkerAt(h + [a], |h|, BSU) || (InBlock(h) && !MarkerAt(h + [a], |h|, ESU))
  {
    hide MarkerAt, NotClosed;
    var t, n := h + [a], |h|;
    OneMarker(t, n);
    forall k: nat
      ensures MarkerAt(t, k, BSU) && NotClosed(t, k) <==>
              if k == n then MarkerAt(t, n, BSU) else MarkerAt(h, k, BSU) && NotClosed(h, k) && !MarkerAt(t, n, ESU)
    {
      NotClosedMore(h, a, k);
      MarkerIn(t, k, BSU);
      MarkerIn(h, k, BSU);
      if k < n {
        MarkerKept(h, a, k, BSU);
      } else if k == n {
        NothingAfter(h);
      }
    }
    assert MarkerAt(h, n, BSU) ==> false by { MarkerIn(h, n, BSU); }
    if InBlock(h) && !MarkerAt(t, n, ESU) {
      var k: nat :| MarkerAt(h, k, BSU) && NotClosed(h, k);
      assert k != n;
      assert MarkerAt(t, k, BSU) && NotClosed(t, k);
    }
    if MarkerAt(t, n, BSU) {
      assert NotClosed(t, n);
    }
  }

  lemma NothingAfter(h: seq<Atom>)
    ensures NotClosed(h, |h|)
  {
  }

  lemma OpenSinceMore(h: seq<Atom>, a: Atom, k: nat)
    ensures OpenSince(h + [a], k) <==>
            if k == |h| then MarkerAt(h + [a], k, BSU) && !InBlock(h) else OpenSince(h, k) && !MarkerAt(h + [a], |h|, ESU)
  {
    hide MarkerAt, NotClosed, Opens, InBlock;
    NotClosedMore(h, a, k);
    OpensIn(h, k);
    OpensIn(h + [a], k);
    if k < |h| {
      OpensKept(h, a, k);
    } else if k == |h| {
      OpensNow(h, a);
      NothingAfter(h);
    }
  }

  /** A block has one beginning. */
  lemma OneBeginning(h: seq<Atom>, k: nat, l: nat)
    requires OpenSince(h, k) && OpenSince(h, l)
    ensures k == l
  {
    if k < l {
      BeganBefore(h, k, l);
    } else if l < k {
      BeganBefore(h, l, k);
    }
  }

  lemma BeganBefore(h: seq<Atom>, k: nat, l: nat)
    requires OpenSince(h, k) && k < l <= |h|
    ensures InBlock(h[..l])
  {
    var p := h[..l];
    assert p[..k + 1] == h[..k + 1];
    forall j: nat | k < j < l ensures !MarkerAt(p, j, ESU) {
      assert p[..j + 1] == h[..j + 1];
      assert !MarkerAt(h, j, ESU);
    }
    assert MarkerAt(p, k, BSU) && NotClosed(p, k);
  }

  /** A block opens or closes with the byte the automaton says it does. */
  lemma MarkerNow(h: seq<Atom>, b: byte, now: nat, letter: byte)
    ensures MarkerAt(h + [Got(b, now)], |h|, PREFIX + [letter]) <==>
            b == letter && Absorb(FRESH, Heard(h), 0).matched == SYNC_PREFIX_MAX
  {
    hide Absorb, EndsWith, MarkerEndsAt, PREFIX;
    var t, s := h + [Got(b, now)], Heard(h);
    HeardMore(h, Got(b, now));
    assert t[..|h| + 1] == t;
    if b == letter {
      MarkerAtEnd(FRESH, s, b, PREFIX + [b], 0);
      EndsIs(s + [b], PREFIX + [b]);
    } else {
      LastByteDiffers(s, b, PREFIX, letter);
    }
  }

  lemma EndsIs(s: seq<byte>, w: seq<byte>)
    ensures EndsWith(s, w) <==> MarkerEndsAt(s, w, |s|)
  {
    assert s[..|s|] == s;
  }

  lemma LastByteDiffers(s: seq<byte>, b: byte, w: seq<byte>, letter: byte)
    requires b != letter
    ensures !EndsWith(s + [b], w + [letter])
  {
    if |w| <= |s| {
      assert (s + [b])[|s| - |w|..][|w|] == b && (w + [letter])[|w|] == letter;
    }
  }

  lemma EscapedKept(h: seq<Atom>, a: Atom, k: nat)
    requires k < |h|
    ensures Escaped(h + [a], k) <==> Escaped(h, k) || (OpenSince(h, k) && Late(h + [a], k, |h|))
  {
    hide NotClosed, Opens;
    var t := h + [a];
    OpensKept(h, a, k);
    forall j: nat ensures Late(t, k, j) <==> (if j < |h| then Late(h, k, j) else j == |h| && Late(t, k, |h|)) {
    }
    forall j: nat | j <= |h| ensures t[..j] == h[..j] {
    }
    assert h[..|h|] == h;
    if Escaped(h, k) {
      var j: nat :| Late(h, k, j) && NotClosed(h[..j], k);
      assert Late(t, k, j) && NotClosed(t[..j], k);
    }
    if OpenSince(h, k) && Late(t, k, |h|) {
      assert NotClosed(t[..|h|], k);
    }
    if Escaped(t, k) {
      var j: nat :| Late(t, k, j) && NotClosed(t[..j], k);
      if j < |h| {
        assert Late(h, k, j) && NotClosed(h[..j], k);
      }
    }
  }

  lemma NotYetEscaped(h: seq<Atom>)
    ensures forall k: nat :: k + 1 >= |h| ==> !Escaped(h, k)
  {
  }

  // ---------------------------------------------------------------------------
  // A byte.

  lemma OpeningsMore(h: seq<Atom>, a: Atom)
    ensures Openings(h + [a]) == Openings(h) + (if Opens(h + [a], |h|) then {|h|} else {})
  {
    hide Opens;
    forall k: nat | k < |h| ensures Opens(h + [a], k) <==> Opens(h, k) {
      OpensKept(h, a, k);
    }
  }

  lemma ByteEscapesNothing(h: seq<Atom>, b: byte, now: nat)
    ensures Escapes(h + [Got(b, now)]) == Escapes(h)
    ensures forall k: nat :: k < |h| ==> (Escaped(h + [Got(b, now)], k) <==> Escaped(h, k))
    ensures !Escaped(h + [Got(b, now)], |h|)
  {
    hide Escaped;
    var a := Got(b, now);
    NotYetEscaped(h + [a]);
    forall k: nat | k < |h| ensures Escaped(h + [a], k) <==> Escaped(h, k) {
      EscapedKept(h, a, k);
    }
  }

  function OneByte(p: Pacer, b: byte, now: nat): Pacer {
    Pacer(NextSync(p.sync, p.matched, b, now), true, if p.matched <= 7 then NextMatched(p.matched, b) else 0, p.timeouts)
  }

  lemma ByteTells(h: seq<Atom>, r: Run, b: byte, now: nat)
    requires Tells(h, r)
    ensures Tells(h + [Got(b, now)], r.(p := OneByte(r.p, b, now)))
  {
    hide InBlock, OpenSince, Opens, Escaped, Escapes, Openings, MarkerAt, Unshown;
    var a, n := Got(b, now), |h|;
    var t, p, q := h + [a], r.p, OneByte(r.p, b, now);
    HeardMore(h, a);
    assert Heard(t)[..|Heard(h)|] == Heard(h);
    MarkerNow(h, b, now, LETTER_H);
    MarkerNow(h, b, now, LETTER_L);
    InBlockMore(h, a);
    OpensNow(h, a);
    OpeningsMore(h, a);
    ByteEscapesNothing(h, b, now);
    assert n !in Openings(h) by { OpeningsIn(h); }
    forall k: nat | OpenSince(t, k)
      ensures k < |t| && q.sync.sinceMs == t[k].now && (q.sync.counted <==> Escaped(t, k))
    {
      OpenSinceMore(h, a, k);
      OpenSinceIn(t, k);
      if k != n {
        OpenSinceIn(h, k);
      }
    }
    if InBlock(t) {
      ByteOpens(h, a);
    }
    assert Unshown(t) by { LastIsUnshown(t); }
  }

  lemma OpeningsIn(h: seq<Atom>)
    ensures |h| !in Openings(h)
  {
  }

  lemma OpenSinceIn(h: seq<Atom>, k: nat)
    ensures OpenSince(h, k) ==> k < |h| && InBlock(h)
  {
  }

  lemma ByteOpens(h: seq<Atom>, a: Atom)
    requires InBlock(h + [a]) && (InBlock(h) ==> exists k: nat :: OpenSince(h, k))
    ensures exists k: nat :: OpenSince(h + [a], k)
  {
    hide OpenSince, InBlock, MarkerAt;
    InBlockMore(h, a);
    if InBlock(h) {
      var k: nat :| OpenSince(h, k);
      OpenSinceMore(h, a, k);
      OpenSinceIn(h, k);
      OneMarker(h + [a], |h|);
    } else {
      OpenSinceMore(h, a, |h|);
    }
  }

  lemma LastIsUnshown(h: seq<Atom>)
    requires h != [] && h[|h| - 1].Got?
    ensures Unshown(h)
  {
    assert h[|h| - 1].Got?;
  }

  // ---------------------------------------------------------------------------
  // A frame.

  lemma FrameIsNoMarker(h: seq<Atom>, now: nat)
    ensures forall m :: !MarkerAt(h + [Shown(now)], |h|, m)
  {
  }

  lemma FrameShows(h: seq<Atom>, now: nat)
    ensures !Unshown(h + [Shown(now)])
  {
    var t := h + [Shown(now)];
    assert t[|h|].Shown?;
  }

  /** A late frame is the escape of the open block, if that has not escaped before. */
  lemma FrameEscapes(h: seq<Atom>, now: nat, k: nat)
    requires OpenSince(h, k)
    ensures var t := h + [Shown(now)];
            (Escaped(t, k) <==> Escaped(h, k) || Elapsed(h[k].now, now) >= 150) &&
            |Escapes(t)| == |Escapes(h)| + (if Elapsed(h[k].now, now) >= 150 && !Escaped(h, k) then 1 else 0)
  {
    hide Escaped, OpenSince;
    var a := Shown(now);
    var t := h + [a];
    NotYetEscaped(t);
    OpenSinceIn(h, k);
    forall l: nat | l < |h| ensures Escaped(t, l) <==> Escaped(h, l) || (l == k && Elapsed(h[k].now, now) >= 150) {
      EscapedKept(h, a, l);
      if OpenSince(h, l) {
        OneBeginning(h, k, l);
      }
    }
    EscapesAre(h, k);
    assert Escapes(t) == Escapes(h) + (if Elapsed(h[k].now, now) >= 150 then {k} else {});
    assert Escaped(h, k) ==> Escapes(h) + {k} == Escapes(h);
  }

  lemma FrameOutside(h: seq<Atom>, now: nat)
    requires !InBlock(h)
    ensures Escapes(h + [Shown(now)]) == Escapes(h)
  {
    hide Escaped, OpenSince, InBlock;
    var a := Shown(now);
    NotYetEscaped(h + [a]);
    forall l: nat | l < |h| ensures Escaped(h + [a], l) <==> Escaped(h, l) {
      EscapedKept(h, a, l);
      OpenSinceIn(h, l);
    }
  }

  lemma EscapesAre(h: seq<Atom>, k: nat)
    ensures k in Escapes(h) <==> Escaped(h, k)
  {
  }

  lemma FrameTells(h: seq<Atom>, r: Run, now: nat)
    requires Tells(h, r)
    ensures Tells(h + [Shown(now)], r.(p := MarkPresented(r.p, now)))
  {
    hide InBlock, OpenSince, Opens, Escaped, Escapes, Openings, MarkerAt, Unshown;
    var a, n := Shown(now), |h|;
    var t, q := h + [a], MarkPresented(r.p, now);
    HeardMore(h, a);
    assert Heard(h) + [] == Heard(h);
    FrameIsNoMarker(h, now);
    InBlockMore(h, a);
    OpensNow(h, a);
    OpeningsMore(h, a);
    FrameShows(h, now);
    forall k: nat ensures OpenSince(t, k) <==> k != n && OpenSince(h, k) {
      OpenSinceMore(h, a, k);
    }
    if InBlock(h) {
      var k: nat :| OpenSince(h, k);
      OpenSinceIn(h, k);
      FrameEscapes(h, now, k);
      assert OpenSince(t, k);
      forall l: nat | OpenSince(t, l) ensures l == k {
        OneBeginning(h, k, l);
      }
    } else {
      FrameOutside(h, now);
      forall l: nat ensures !OpenSince(h, l) {
        OpenSinceIn(h, l);
      }
    }
  }

  // ---------------------------------------------------------------------------
  // Whole runs.

  lemma StartTells()
    ensures Tells([], START)
  {
    assert Openings([]) == {} && Escapes([]) == {};
  }

  lemma {:induction false} FeedTells(h: seq<Atom>, r: Run, bytes: seq<byte>, now: nat)
    requires Tells(h, r)
    ensures Tells(h + Delivered(bytes, now), r.(p := Absorb(r.p, bytes, now)))
    decreases |bytes|
  {
    hide Tells;
    assert r.p.matched <= SYNC_PREFIX_MAX by { MatchedFits(h, r); }
    if bytes == [] {
      assert h + [] == h;
    } else {
      var n := |bytes| - 1;
      FeedTells(h, r, bytes[..n], now);
      var q := Absorb(r.p, bytes[..n], now);
      ByteTells(h + Delivered(bytes[..n], now), r.(p := q), bytes[n], now);
      assert h + Delivered(bytes, now) == h + Delivered(bytes[..n], now) + [Got(bytes[n], now)];
      assert OneByte(q, bytes[n], now) == Absorb(r.p, bytes, now);
    }
  }

  lemma MatchedFits(h: seq<Atom>, r: Run)
    requires Tells(h, r)
    ensures r.p.matched <= SYNC_PREFIX_MAX
  {
  }

  /** After any run the pacer is exactly what its history says. It is in a block if and
      only if the last complete marker was an opening one, and then since the delivery
      that completed the first opening marker after the last closing one. Blocks reported
      or counted are the opening markers met outside of a block; timeouts are the blocks
      in which a frame was presented after 150 ms, each counted once. It is dirty if and
      only if a byte came after the last frame. */
  lemma {:induction false} RunIsItsHistory(ops: seq<Op>)
    ensures Tells(History(ops), Steps(START, ops))
    decreases |ops|
  {
    if ops == [] {
      StartTells();
    } else {
      var n := |ops| - 1;
      RunIsItsHistory(ops[..n]);
      var h, r := History(ops[..n]), Steps(START, ops[..n]);
      match ops[n]
      case Feed(bytes, now) => FeedTells(h, r, bytes, now);
      case Present(now) => FrameTells(h, r, now);
      case Take => assert h + [] == h;
    }
  }

  ghost predicate YoungBlock(h: seq<Atom>, k: nat, now: nat) {
    OpenSince(h, k) && Elapsed(h[k].now, now) < 150
  }

  ghost predicate HeldByYoungBlock(h: seq<Atom>, r: Run, now: nat) {
    Holding(r.p, now) <==> exists k: nat :: YoungBlock(h, k, now)
  }

  /** A pane holds its frames back exactly while a block is open that began less than
      150 ms ago. */
  lemma HoldsWhileBlockIsYoung(ops: seq<Op>, now: nat)
    ensures var h, r := History(ops), Steps(START, ops);
            HeldByYoungBlock(h, r, now)
  {
    hide Tells, Steps, History;
    RunIsItsHistory(ops);
    var h, r := History(ops), Steps(START, ops);
    TellsHolding(h, r, now);
    assert HeldByYoungBlock(h, r, now);
  }

  lemma TellsHolding(h: seq<Atom>, r: Run, now: nat)
    requires Tells(h, r)
    ensures HeldByYoungBlock(h, r, now)
  {
    hide InBlock, Opens, NotClosed, Escaped, Openings, Escapes, Unshown;
    if InBlock(h) {
      var k: nat :| OpenSince(h, k);
      OpenSinceIn(h, k);
      assert Holding(r.p, now) <==> YoungBlock(h, k, now);
      forall l: nat | YoungBlock(h, l, now) ensures l == k {
        OneBeginning(h, k, l);
      }
    } else {
      forall k: nat ensures !OpenSince(h, k) {
        OpenSinceIn(h, k);
      }
    }
  }

  /** Panes, each after a run of its own. */
  ghost function After(runs: seq<seq<Op>>): (ps: seq<Pacer>)
    ensures |ps| == |runs| && forall i :: 0 <= i < |runs| ==> ps[i] == Steps(START, runs[i]).p
  {
    if runs == [] then [] else After(runs[..|runs| - 1]) + [Steps(START, runs[|runs| - 1]).p]
  }

  ghost predicate HasYoungBlock(run: seq<Op>, now: nat) {
    exists k: nat :: YoungBlock(History(run), k, now)
  }

  ghost predicate SomethingNew(runs: seq<seq<Op>>) {
    exists i :: 0 <= i < |runs| && Unshown(History(runs[i]))
  }

  ghost predicate NoYoungBlock(runs: seq<seq<Op>>, now: nat) {
    forall i :: 0 <= i < |runs| ==> !HasYoungBlock(runs[i], now)
  }

  /** A frame of several panes goes out exactly if some pane got a byte that was not shown
      yet, and none is in a block that began less than 150 ms ago; or if there is no pane. */
  lemma ReadyIff(runs: seq<seq<Op>>, now: nat)
    ensures Ready(After(runs), now) <==> runs == [] || (SomethingNew(runs) && NoYoungBlock(runs, now))
  {
    hide SomethingNew, NoYoungBlock;
    assert SomethingNew(runs) <==> exists i :: 0 <= i < |runs| && After(runs)[i].dirty by {
      NewIsDirty(runs, now);
    }
    assert NoYoungBlock(runs, now) <==> forall i :: 0 <= i < |runs| ==> !Holding(After(runs)[i], now) by {
      YoungIsHolding(runs, now);
    }
  }

  lemma NewIsDirty(runs: seq<seq<Op>>, now: nat)
    ensures SomethingNew(runs) ==> exists i :: 0 <= i < |runs| && After(runs)[i].dirty
    ensures !SomethingNew(runs) ==> forall i :: 0 <= i < |runs| ==> !After(runs)[i].dirty
  {
    hide Steps, Unshown;
    forall i | 0 <= i < |runs| ensures After(runs)[i].dirty <==> Unshown(History(runs[i])) {
      OnePane(runs[i], now);
    }
    if SomethingNew(runs) {
      var i :| 0 <= i < |runs| && Unshown(History(runs[i]));
      assert After(runs)[i].dirty;
    }
  }

  lemma YoungIsHolding(runs: seq<seq<Op>>, now: nat)
    ensures NoYoungBlock(runs, now) ==> forall i :: 0 <= i < |runs| ==> !Holding(After(runs)[i], now)
    ensures !NoYoungBlock(runs, now) ==> exists i :: 0 <= i < |runs| && Holding(After(runs)[i], now)
  {
    hide Steps, HasYoungBlock;
    forall i | 0 <= i < |runs| ensures Holding(After(runs)[i], now) <==> HasYoungBlock(runs[i], now) {
      OnePane(runs[i], now);
    }
    if !NoYoungBlock(runs, now) {
      var i :| 0 <= i < |runs| && HasYoungBlock(runs[i], now);
      assert Holding(After(runs)[i], now);
    }
  }

  lemma OnePane(run: seq<Op>, now: nat)
    ensures var p := Steps(START, run).p;
            (p.dirty <==> Unshown(History(run))) && (Holding(p, now) <==> HasYoungBlock(run, now))
  {
    hide Steps, Holding, Unshown, History, YoungBlock;
    RunIsItsHistory(run);
    DirtyIs(History(run), Steps(START, run));
    HoldsWhileBlockIsYoung(run, now);
  }

  lemma DirtyIs(h: seq<Atom>, r: Run)
    requires Tells(h, r)
    ensures r.p.dirty <==> Unshown(h)
  {
  }

  /** Whatever the state: bytes that end inside a block they began hold the frame at
      once, for 150 ms, and its timeout is yet to be counted. */
  lemma {:induction false} NewBlockHolds(p: Pacer, bytes: seq<byte>, now: nat)
    requires p.matched <= SYNC_PREFIX_MAX && !p.sync.inSync && Absorb(p, bytes, now).sync.inSync
    ensures var q := Absorb(p, bytes, now);
            Holding(q, now) && Deadline(q) == now + 150 && !q.sync.counted
    decreases |bytes|
  {
    if bytes != [] && Absorb(p, bytes[..|bytes| - 1], now).sync.inSync {
      NewBlockHolds(p, bytes[..|bytes| - 1], now);
    }
  }
}
