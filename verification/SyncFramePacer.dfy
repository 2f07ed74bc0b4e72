/** `SyncFramePacer`: holds frames back between the two DEC private mode 2026
    markers, whatever way the transport cuts the byte stream. */
module SyncPacer {
  import opened Bytes

  const ESC: byte := 0x1b
  /** The seven bytes both markers share: ESC [ ? 2 0 2 6. */
  const PREFIX: seq<byte> := [0x1b, 0x5b, 0x3f, 0x32, 0x30, 0x32, 0x36]
  const LETTER_H: byte := 0x68
  const LETTER_L: byte := 0x6c
  const BSU: seq<byte> := PREFIX + [LETTER_H]
  const ESU: seq<byte> := PREFIX + [LETTER_L]
  const SYNC_PREFIX_MAX: nat := 7
  const SYNC_TIMEOUT_MS: nat := 150

  /** The scanner's part of the state: everything a marker can change. */
  datatype Sync = Sync(inSync: bool, sinceMs: nat, blocks: nat, counted: bool)

  /** The whole state of one pacer. `matched` is the length of the marker prefix
      that ends the stream so far; the program keeps those bytes in `tail`. */
  datatype Pacer = Pacer(sync: Sync, dirty: bool, matched: nat, timeouts: nat)

  const FRESH: Pacer := Pacer(Sync(false, 0, 0, false), false, 0, 0)

  function Enter(s: Sync, now: nat): Sync {
    if s.inSync then s else Sync(true, now, s.blocks + 1, false)
  }

  function Leave(s: Sync): Sync {
    s.(inSync := false)
  }

  // ---------------------------------------------------------------------------
  // Reference: a byte-at-a-time automaton with eight states.

  /** How much of the shared prefix the stream ends with after one more byte. */
  function NextMatched(k: nat, b: byte): (k': nat)
    requires k <= SYNC_PREFIX_MAX
    ensures k' <= SYNC_PREFIX_MAX
  {
    if k < SYNC_PREFIX_MAX && b == PREFIX[k] then k + 1
    else if b == ESC then 1
    else 0
  }

  function NextSync(s: Sync, k: nat, b: byte, now: nat): Sync {
    if k == SYNC_PREFIX_MAX && b == LETTER_H then Enter(s, now)
    else if k == SYNC_PREFIX_MAX && b == LETTER_L then Leave(s)
    else s
  }

  /** The automaton run over `bytes`, all of them arriving at `now`. */
  function Absorb(p: Pacer, bytes: seq<byte>, now: nat): (p': Pacer)
    requires p.matched <= SYNC_PREFIX_MAX
    ensures p'.matched <= SYNC_PREFIX_MAX
    decreases |bytes|
  {
    if bytes == [] then p
    else
      var q := Absorb(p, bytes[..|bytes| - 1], now);
      var b := bytes[|bytes| - 1];
      Pacer(NextSync(q.sync, q.matched, b, now), true, NextMatched(q.matched, b), q.timeouts)
  }

  /** Two deliveries at the same instant are one delivery: TCP may cut the stream
      anywhere. */
  lemma {:induction false} ChunkInvariance(p: Pacer, a: seq<byte>, b: seq<byte>, now: nat)
    requires p.matched <= SYNC_PREFIX_MAX
    ensures Absorb(Absorb(p, a, now), b, now) == Absorb(p, a + b, now)
    decreases |b|
  {
    if b == [] {
      assert a + b == a;
    } else {
      var n := |b| - 1;
      ChunkInvariance(p, a, b[..n], now);
      assert (a + b)[..|a + b| - 1] == a + b[..n];
      assert (a + b)[|a + b| - 1] == b[n];
    }
  }

  /** ESC occurs only at the head of a marker, so it restarts the match from any
      state, and following prefix bytes only extend it. */
  lemma {:induction false} PrefixRestarts(p: Pacer, k: nat, now: nat)
    requires p.matched <= SYNC_PREFIX_MAX && 1 <= k <= SYNC_PREFIX_MAX
    ensures Absorb(p, PREFIX[..k], now).matched == k
    ensures Absorb(p, PREFIX[..k], now).sync == p.sync
    decreases k
  {
    assert PREFIX[..k] == PREFIX[..k - 1] + [PREFIX[k - 1]];
    if k > 1 {
      PrefixRestarts(p, k - 1, now);
    } else {
      assert PREFIX[..0] == [];
    }
  }

  /** The match count is exactly the longest marker prefix the bytes end with. */
  lemma {:induction false} MatchedIsSuffix(p: Pacer, s: seq<byte>, now: nat)
    requires p.matched == 0
    ensures var k := Absorb(p, s, now).matched;
            k <= |s| && s[|s| - k..] == PREFIX[..k]
    decreases |s|
  {
    if s != [] {
      var n := |s| - 1;
      MatchedIsSuffix(p, s[..n], now);
      var k := Absorb(p, s[..n], now).matched;
      assert s[..n][n - k..] == s[n - k..n];
      if k < SYNC_PREFIX_MAX && s[n] == PREFIX[k] {
        assert s[n - k..] == s[n - k..n] + [s[n]];
        assert PREFIX[..k + 1] == PREFIX[..k] + [PREFIX[k]];
      }
    }
  }

  lemma SuffixIsMatched(p: Pacer, s: seq<byte>, k: nat, now: nat)
    requires p.matched <= SYNC_PREFIX_MAX
    requires 1 <= k <= SYNC_PREFIX_MAX && k <= |s| && s[|s| - k..] == PREFIX[..k]
    ensures Absorb(p, s, now).matched == k
    ensures Absorb(p, s, now).sync == Absorb(p, s[..|s| - k], now).sync
  {
    var head := s[..|s| - k];
    assert s == head + PREFIX[..k];
    ChunkInvariance(p, head, PREFIX[..k], now);
    PrefixRestarts(Absorb(p, head, now), k, now);
  }

  // ---------------------------------------------------------------------------
  // What the whole stream says: the last complete marker decides.

  predicate MarkerEndsAt(s: seq<byte>, m: seq<byte>, e: int) {
    |m| <= e <= |s| && s[e - |m|..e] == m
  }

  /** The last place where `m` or `n` ends is an end of `m`. */
  ghost predicate LastIs(s: seq<byte>, m: seq<byte>, n: seq<byte>) {
    exists e :: MarkerEndsAt(s, m, e) && forall f :: e < f <= |s| ==> !MarkerEndsAt(s, n, f)
  }

  ghost predicate LastMarkerIsBsu(s: seq<byte>) {
    LastIs(s, BSU, ESU)
  }

  lemma LastIsStep(s: seq<byte>, b: byte, m: seq<byte>, n: seq<byte>)
    requires !(MarkerEndsAt(s + [b], m, |s| + 1) && MarkerEndsAt(s + [b], n, |s| + 1))
    ensures LastIs(s + [b], m, n) <==>
              MarkerEndsAt(s + [b], m, |s| + 1)
              || (LastIs(s, m, n) && !MarkerEndsAt(s + [b], n, |s| + 1))
  {
    var t := s + [b];
    forall e | e <= |s|
      ensures MarkerEndsAt(t, m, e) <==> MarkerEndsAt(s, m, e)
      ensures MarkerEndsAt(t, n, e) <==> MarkerEndsAt(s, n, e)
    {
    }
  }

  /** A marker ends at the last byte exactly when the automaton sees one. */
  lemma MarkerAtEnd(p: Pacer, s: seq<byte>, b: byte, m: seq<byte>, now: nat)
    requires p.matched == 0
    requires m == PREFIX + [b]
    ensures MarkerEndsAt(s + [b], m, |s| + 1) <==> Absorb(p, s, now).matched == SYNC_PREFIX_MAX
  {
    var t := s + [b];
    if MarkerEndsAt(t, m, |s| + 1) {
      var i := |s| - 7;
      assert t[i..|s| + 1] == m;
      forall j | 0 <= j < 7 ensures s[i..][j] == PREFIX[j] {
        assert t[i..|s| + 1][j] == m[j];
      }
      assert s[i..] == PREFIX == PREFIX[..7];
      SuffixIsMatched(p, s, 7, now);
    }
    if Absorb(p, s, now).matched == SYNC_PREFIX_MAX {
      MatchedIsSuffix(p, s, now);
      assert PREFIX[..7] == PREFIX;
      assert t[|s| - 7..|s| + 1] == s[|s| - 7..] + [b];
    }
  }

  /** Over a whole stream, a pacer is in a synchronized block exactly when the
      last complete marker of the stream is the opening one. */
  lemma {:induction false} InSyncIffLastMarkerIsBsu(s: seq<byte>, now: nat)
    ensures Absorb(FRESH, s, now).sync.inSync <==> LastMarkerIsBsu(s)
    decreases |s|
  {
    if s != [] {
      var n := |s| - 1;
      var t, b := s[..n], s[n];
      assert s == t + [b];
      InSyncIffLastMarkerIsBsu(t, now);
      MarkerAtEnd(FRESH, t, LETTER_H, BSU, now);
      MarkerAtEnd(FRESH, t, LETTER_L, ESU, now);
      LastIsStep(t, b, BSU, ESU);
    }
  }

  // ---------------------------------------------------------------------------
  // Runs: any interleaving of deliveries, presents and counter drains.

  datatype Op =
    | Feed(bytes: seq<byte>, now: nat)
    | Present(now: nat)
    | Take

  /** What was reported so far plus the pacer itself. */
  datatype Run = Run(p: Pacer, blocksOut: nat, timeoutsOut: nat)

  predicate TimedOut(p: Pacer, now: nat) {
    p.sync.inSync && !p.sync.counted && Elapsed(p.sync.sinceMs, now) >= SYNC_TIMEOUT_MS
  }

  function MarkPresented(p: Pacer, now: nat): Pacer {
    if TimedOut(p, now)
    then p.(timeouts := p.timeouts + 1, sync := p.sync.(counted := true), dirty := false)
    else p.(dirty := false)
  }

  function TakeCounts(p: Pacer): Pacer {
    p.(timeouts := 0, sync := p.sync.(blocks := 0))
  }

  function Step(r: Run, op: Op): (r': Run)
    requires r.p.matched <= SYNC_PREFIX_MAX
    ensures r'.p.matched <= SYNC_PREFIX_MAX
  {
    match op
    case Feed(bytes, now) => r.(p := Absorb(r.p, bytes, now))
    case Present(now) => r.(p := MarkPresented(r.p, now))
    case Take => Run(TakeCounts(r.p), r.blocksOut + r.p.sync.blocks, r.timeoutsOut + r.p.timeouts)
  }

  function Steps(r: Run, ops: seq<Op>): (r': Run)
    requires r.p.matched <= SYNC_PREFIX_MAX
    ensures r'.p.matched <= SYNC_PREFIX_MAX
    decreases |ops|
  {
    if ops == [] then r else Step(Steps(r, ops[..|ops| - 1]), ops[|ops| - 1])
  }

  const START: Run := Run(FRESH, 0, 0)

  /** Every byte delivered during a run, in order. */
  function Stream(ops: seq<Op>): seq<byte> {
    if ops == [] then []
    else
      var last := ops[|ops| - 1];
      Stream(ops[..|ops| - 1]) + (if last.Feed? then last.bytes else [])
  }

  /** Only markers move `inSync` and the match count: clocks, presents, counters
      and the dirty flag do not. */
  lemma {:induction false} ScanIgnoresTheRest(p: Pacer, q: Pacer, s: seq<byte>, now: nat, then_: nat)
    requires p.matched == q.matched <= SYNC_PREFIX_MAX && p.sync.inSync == q.sync.inSync
    ensures Absorb(p, s, now).matched == Absorb(q, s, then_).matched
    ensures Absorb(p, s, now).sync.inSync == Absorb(q, s, then_).sync.inSync
    decreases |s|
  {
    if s != [] {
      ScanIgnoresTheRest(p, q, s[..|s| - 1], now, then_);
    }
  }

  lemma {:induction false} RunScansTheStream(ops: seq<Op>)
    ensures var p := Steps(START, ops).p;
            var q := Absorb(FRESH, Stream(ops), 0);
            p.matched == q.matched && p.sync.inSync == q.sync.inSync
    decreases |ops|
  {
    if ops != [] {
      var n := |ops| - 1;
      RunScansTheStream(ops[..n]);
      var p, s := Steps(START, ops[..n]).p, Stream(ops[..n]);
      match ops[n]
      case Feed(bytes, now) =>
        ScanIgnoresTheRest(p, Absorb(FRESH, s, 0), bytes, now, 0);
        ChunkInvariance(FRESH, s, bytes, 0);
      case _ =>
        assert Stream(ops) == s + [] == s;
    }
  }

  /** However the stream was cut and whatever happened in between, a pacer is in a
      synchronized block exactly when the last complete marker delivered over its
      whole life is the opening one. */
  lemma RunInSyncIffLastMarkerIsBsu(ops: seq<Op>)
    ensures Steps(START, ops).p.sync.inSync <==> LastMarkerIsBsu(Stream(ops))
  {
    RunScansTheStream(ops);
    InSyncIffLastMarkerIsBsu(Stream(ops), 0);
  }

  /** A block whose timeout has not been counted yet. */
  function Uncounted(s: Sync): nat {
    if s.inSync && !s.counted then 1 else 0
  }

  lemma {:induction false} AbsorbAccounts(p: Pacer, s: seq<byte>, now: nat)
    requires p.matched <= SYNC_PREFIX_MAX
    ensures var q := Absorb(p, s, now);
            q.timeouts == p.timeouts
            && q.sync.blocks - Uncounted(q.sync) >= p.sync.blocks - Uncounted(p.sync)
    decreases |s|
  {
    if s != [] {
      AbsorbAccounts(p, s[..|s| - 1], now);
    }
  }

  /** Over any run with any drains, every counted timeout belongs to its own
      block: reported timeouts never exceed reported blocks plus the blocks still
      in the counter. */
  lemma {:induction false} TimeoutsNeverExceedBlocks(ops: seq<Op>)
    ensures var r := Steps(START, ops);
            r.timeoutsOut + r.p.timeouts + Uncounted(r.p.sync) <= r.blocksOut + r.p.sync.blocks
    decreases |ops|
  {
    if ops != [] {
      var n := |ops| - 1;
      TimeoutsNeverExceedBlocks(ops[..n]);
      var r := Steps(START, ops[..n]);
      if ops[n].Feed? {
        AbsorbAccounts(r.p, ops[n].bytes, ops[n].now);
      }
    }
  }

  /** So what was reported never shows more timeouts than blocks. */
  lemma {:induction false} ReportedTimeoutsNeverExceedBlocks(ops: seq<Op>)
    ensures Steps(START, ops).timeoutsOut <= Steps(START, ops).blocksOut
    decreases |ops|
  {
    if ops != [] {
      var n := |ops| - 1;
      ReportedTimeoutsNeverExceedBlocks(ops[..n]);
      TimeoutsNeverExceedBlocks(ops[..n]);
    }
  }

  // ---------------------------------------------------------------------------
  // The scanner as the program runs it: an index loop over the kept tail plus the
  // new bytes, looking for whole markers.

  predicate StartsAt(buf: seq<byte>, i: nat, m: seq<byte>)
    requires i <= |buf|
  {
    i + |m| <= |buf| && buf[i..i + |m|] == m
  }

  predicate EndsWith(s: seq<byte>, w: seq<byte>) {
    |w| <= |s| && s[|s| - |w|..] == w
  }

  /** What the loop knows on reaching index `i`: the automaton over `buf[..i]` has
      the same flags, and a pending prefix never hides a whole marker. */
  ghost predicate ScanInvariant(p: Pacer, buf: seq<byte>, i: nat, s: Sync, now: nat)
    requires p.matched == 0
  {
    i <= |buf| &&
    var q := Absorb(p, buf[..i], now);
    q.sync == s && q.matched <= i && EndsWith(buf[..i], PREFIX[..q.matched]) &&
    (q.matched > 0 ==> !StartsAt(buf, i - q.matched, BSU) && !StartsAt(buf, i - q.matched, ESU))
  }

  lemma ScanSkipsOne(p: Pacer, buf: seq<byte>, i: nat, s: Sync, now: nat)
    requires p.matched == 0 && i < |buf| && ScanInvariant(p, buf, i, s, now)
    requires !StartsAt(buf, i, BSU) && !StartsAt(buf, i, ESU)
    ensures ScanInvariant(p, buf, i + 1, s, now)
  {
    var k := Absorb(p, buf[..i], now).matched;
    assert buf[..i + 1] == buf[..i] + [buf[i]];
    MatchedIsSuffix(p, buf[..i + 1], now);
  }

  lemma ScanTakesMarker(p: Pacer, buf: seq<byte>, i: nat, s: Sync, m: seq<byte>, letter: byte, now: nat)
    requires p.matched == 0 && i <= |buf| && ScanInvariant(p, buf, i, s, now)
    requires m == PREFIX + [letter] && letter in [LETTER_H, LETTER_L] && StartsAt(buf, i, m)
    ensures ScanInvariant(p, buf, i + 8, NextSync(s, 7, letter, now), now)
  {
    var q := Absorb(p, buf[..i], now);
    assert buf[..i + 8] == buf[..i] + m == (buf[..i] + PREFIX) + [letter];
    ChunkInvariance(p, buf[..i], PREFIX, now);
    assert PREFIX[..7] == PREFIX;
    PrefixRestarts(q, 7, now);
  }

  lemma ScanTakesBsu(p: Pacer, buf: seq<byte>, i: nat, s: Sync, now: nat)
    requires p.matched == 0 && i <= |buf| && ScanInvariant(p, buf, i, s, now) && StartsAt(buf, i, BSU)
    ensures i + 8 <= |buf| && ScanInvariant(p, buf, i + 8, Enter(s, now), now)
  {
    ScanTakesMarker(p, buf, i, s, BSU, LETTER_H, now);
  }

  lemma ScanTakesEsu(p: Pacer, buf: seq<byte>, i: nat, s: Sync, now: nat)
    requires p.matched == 0 && i <= |buf| && ScanInvariant(p, buf, i, s, now) && StartsAt(buf, i, ESU)
    ensures i + 8 <= |buf| && ScanInvariant(p, buf, i + 8, Leave(s), now)
  {
    ScanTakesMarker(p, buf, i, s, ESU, LETTER_L, now);
  }

  lemma ScanStarts(p: Pacer, buf: seq<byte>, now: nat)
    requires p.matched == 0
    ensures ScanInvariant(p, buf, 0, p.sync, now)
  {
    assert buf[..0] == [];
  }

  /** Rescanning the kept tail replays nothing: it only restores the match count. */
  lemma TailReplays(p: Pacer, tail: seq<byte>, bytes: seq<byte>, now: nat)
    requires p.matched <= SYNC_PREFIX_MAX && tail == PREFIX[..p.matched] && bytes != []
    ensures Absorb(p.(matched := 0), tail + bytes, now) == Absorb(p, bytes, now)
  {
    var z := p.(matched := 0);
    ChunkInvariance(z, tail, bytes, now);
    if p.matched > 0 {
      PrefixRestarts(z, p.matched, now);
      TimeoutsKept(z, tail, now);
    }
    DirtyForgotten(Absorb(z, tail, now), p, bytes, now);
  }

  lemma {:induction false} TimeoutsKept(p: Pacer, s: seq<byte>, now: nat)
    requires p.matched <= SYNC_PREFIX_MAX
    ensures Absorb(p, s, now).timeouts == p.timeouts
    decreases |s|
  {
    if s != [] { TimeoutsKept(p, s[..|s| - 1], now); }
  }

  lemma {:induction false} DirtyForgotten(p: Pacer, q: Pacer, s: seq<byte>, now: nat)
    requires p.matched <= SYNC_PREFIX_MAX && q == p.(dirty := q.dirty) && s != []
    ensures Absorb(p, s, now) == Absorb(q, s, now)
    decreases |s|
  {
    if |s| > 1 { DirtyForgotten(p, q, s[..|s| - 1], now); }
  }

  /** The loop's last state, with the kept tail, is the automaton's. */
  lemma FeedEnds(p: Pacer, bytes: seq<byte>, buf: seq<byte>, keep: nat, s: Sync, now: nat)
    requires p.matched <= SYNC_PREFIX_MAX && buf == PREFIX[..p.matched] + bytes
    requires ScanInvariant(p.(matched := 0), buf, |buf|, s, now)
    requires IsKept(buf, keep)
    ensures Absorb(p, bytes, now) == Pacer(s, p.dirty || bytes != [], keep, p.timeouts)
  {
    var z := p.(matched := 0);
    assert buf[..|buf|] == buf;
    KeptIsMatched(z, buf, keep, now);
    TimeoutsKept(z, buf, now);
    if bytes != [] {
      TailReplays(p, PREFIX[..p.matched], bytes, now);
    } else {
      assert buf == PREFIX[..p.matched];
      if p.matched > 0 {
        PrefixRestarts(z, p.matched, now);
      }
    }
  }

  /** `keep` is the longest proper marker prefix the buffer ends with. */
  predicate IsKept(buf: seq<byte>, keep: nat) {
    keep <= SYNC_PREFIX_MAX && EndsWith(buf, PREFIX[..keep]) &&
    forall k :: keep < k <= SYNC_PREFIX_MAX ==> !EndsWith(buf, PREFIX[..k])
  }

  class SyncFramePacer {
    var inSync: bool
    var dirty: bool
    var syncSinceMs: nat
    var tail: seq<byte>
    var blocks: nat
    var timeouts: nat
    var timeoutCounted: bool

    ghost predicate Valid()
      reads this
    {
      |tail| <= SYNC_PREFIX_MAX && tail == PREFIX[..|tail|]
    }

    ghost function View(): Pacer
      reads this
    {
      Pacer(Sync(inSync, syncSinceMs, blocks, timeoutCounted), dirty, |tail|, timeouts)
    }

    constructor ()
      ensures Valid() && View() == FRESH
    {
      inSync, dirty, syncSinceMs, tail := false, false, 0, [];
      blocks, timeouts, timeoutCounted := 0, 0, false;
    }

    method Feed(bytes: seq<byte>, nowMs: nat)
      requires Valid()
      modifies this
      ensures Valid() && View() == Absorb(old(View()), bytes, nowMs)
    {
      ghost var start := View();
      if bytes != [] {
        dirty := true;
      }
      var buf := tail + bytes;
      tail := [];
      Scan(buf, nowMs, start.(matched := 0));
      var keep := KeptPrefix(buf);
      FeedEnds(start, bytes, buf, keep, View().sync, nowMs);
      tail := buf[|buf| - keep..];
    }

    /** The index loop of `Feed`. */
    method Scan(buf: seq<byte>, nowMs: nat, ghost z: Pacer)
      requires z.matched == 0 && z.sync == View().sync
      modifies this`inSync, this`syncSinceMs, this`blocks, this`timeoutCounted
      ensures ScanInvariant(z, buf, |buf|, View().sync, nowMs)
    {
      hide ScanInvariant;
      ScanStarts(z, buf, nowMs);
      var i := 0;
      while i < |buf|
        invariant 0 <= i <= |buf|
        invariant ScanInvariant(z, buf, i, View().sync, nowMs)
      {
        if StartsAt(buf, i, BSU) {
          ScanTakesBsu(z, buf, i, View().sync, nowMs);
          if !inSync {
            inSync := true;
            syncSinceMs := nowMs;
            blocks := blocks + 1;
            timeoutCounted := false;
          }
          i := i + 8;
        } else if StartsAt(buf, i, ESU) {
          ScanTakesEsu(z, buf, i, View().sync, nowMs);
          inSync := false;
          i := i + 8;
        } else {
          ScanSkipsOne(z, buf, i, View().sync, nowMs);
          i := i + 1;
        }
      }
    }

    method MarkPresentedAt(nowMs: nat)
      requires Valid()
      modifies this
      ensures Valid() && View() == MarkPresented(old(View()), nowMs)
    {
      if inSync && !timeoutCounted && Elapsed(syncSinceMs, nowMs) >= SYNC_TIMEOUT_MS {
        timeouts := timeouts + 1;
        timeoutCounted := true;
      }
      dirty := false;
    }

    method TakeWindow() returns (b: nat, t: nat)
      requires Valid()
      modifies this
      ensures Valid() && View() == TakeCounts(old(View()))
      ensures b == old(blocks) && t == old(timeouts)
    {
      b, t := blocks, timeouts;
      blocks, timeouts := 0, 0;
    }
  }

  method KeptPrefix(buf: seq<byte>) returns (keep: nat)
    ensures IsKept(buf, keep)
  {
    keep := if |buf| < SYNC_PREFIX_MAX then |buf| else SYNC_PREFIX_MAX;
    while keep > 0 && buf[|buf| - keep..] != PREFIX[..keep]
      invariant keep <= SYNC_PREFIX_MAX && keep <= |buf|
      invariant forall k :: keep < k <= SYNC_PREFIX_MAX ==> !EndsWith(buf, PREFIX[..k])
    {
      keep := keep - 1;
    }
  }

  lemma KeptIsMatched(p: Pacer, buf: seq<byte>, keep: nat, now: nat)
    requires p.matched == 0 && IsKept(buf, keep)
    ensures Absorb(p, buf, now).matched == keep
  {
    MatchedIsSuffix(p, buf, now);
    assert EndsWith(buf, PREFIX[..Absorb(p, buf, now).matched]);
    if keep > 0 {
      SuffixIsMatched(p, buf, keep, now);
    }
  }
}
