/** `FrameLimiter` and the cursor blink phase: decisions over an injected clock. */
module FrameLimit {
  import opened Bytes

  datatype RedrawAction = Present | Throttle(waitMs: nat) | Idle

  class FrameLimiter {
    const minIntervalMs: nat
    var lastPresentMs: Option<nat>

    constructor (interval: nat)
      ensures minIntervalMs == interval && lastPresentMs == None
    {
      minIntervalMs := interval;
      lastPresentMs := None;
    }

    predicate ShouldPresent(nowMs: nat)
      reads this
    {
      Allowed(minIntervalMs, lastPresentMs, nowMs)
    }

    method RecordPresent(nowMs: nat)
      modifies this
      ensures lastPresentMs == Some(nowMs)
    {
      lastPresentMs := Some(nowMs);
    }

    method Plan(isDirty: bool, nowMs: nat) returns (a: RedrawAction)
      ensures a == Decide(minIntervalMs, lastPresentMs, isDirty, nowMs)
    {
      if !isDirty {
        return Idle;
      }
      if ShouldPresent(nowMs) {
        return Present;
      }
      a := Throttle(minIntervalMs - Elapsed(lastPresentMs.value, nowMs));
    }

    /** The event loop over one run of redraw requests: present when told to, and
        record it. The times presented at are at least the interval apart. */
    method Drive(requests: seq<(bool, nat)>) returns (presents: seq<nat>)
      requires forall i, j :: 0 <= i < j < |requests| ==> requests[i].1 <= requests[j].1
      requires lastPresentMs.Some? && requests != [] ==> lastPresentMs.value <= requests[0].1
      modifies this
      ensures forall i :: 0 < i < |presents| ==> presents[i] - presents[i - 1] >= minIntervalMs
      ensures presents != [] && old(lastPresentMs).Some? ==> presents[0] - old(lastPresentMs).value >= minIntervalMs
      ensures lastPresentMs == if presents == [] then old(lastPresentMs) else Some(presents[|presents| - 1])
      ensures old(lastPresentMs).None? ==> (presents == [] <==> forall i :: 0 <= i < |requests| ==> !requests[i].0)
    {
      presents := [];
      for i := 0 to |requests|
        invariant lastPresentMs == if presents == [] then old(lastPresentMs) else Some(presents[|presents| - 1])
        invariant old(lastPresentMs).None? ==> (presents == [] <==> forall j :: 0 <= j < i ==> !requests[j].0)
        invariant presents != [] && old(lastPresentMs).Some? ==> presents[0] - old(lastPresentMs).value >= minIntervalMs
        invariant forall j :: 0 < j < |presents| ==> presents[j] - presents[j - 1] >= minIntervalMs
        invariant presents != [] ==> i > 0 && presents[|presents| - 1] <= requests[i - 1].1
      {
        var a := Plan(requests[i].0, requests[i].1);
        if a == Present {
          RecordPresent(requests[i].1);
          presents := presents + [requests[i].1];
        }
      }
    }
  }

  predicate Allowed(interval: nat, last: Option<nat>, now: nat) {
    last.None? || Elapsed(last.value, now) >= interval
  }

  ghost function Decide(interval: nat, last: Option<nat>, isDirty: bool, now: nat): RedrawAction {
    if !isDirty then Idle
    else if Allowed(interval, last, now) then Present
    else Throttle(interval - Elapsed(last.value, now))
  }

  /** Idle exactly when there is nothing to show; shown exactly when nothing was before, or
      the interval is over; and throttled until it is. */
  lemma DecidesByTheClock(interval: nat, last: Option<nat>, isDirty: bool, now: nat)
    ensures Decide(interval, last, isDirty, now).Idle? <==> !isDirty
    ensures Decide(interval, last, isDirty, now).Present? <==>
            isDirty && (last.None? || interval == 0 || now >= last.value + interval)
  {
  }

  /** Waiting exactly `waitMs` after a throttled request yields a present, and
      waiting less does not, as long as the clock has not run backwards past the
      last present. When it has, the promised wait is too short. */
  lemma WaitIsExact(interval: nat, last: nat, now: nat, t: nat)
    requires Decide(interval, Some(last), true, now).Throttle?
    ensures var wait := Decide(interval, Some(last), true, now).waitMs;
            wait > 0 &&
            (Decide(interval, Some(last), true, now + wait) == Present <==> now >= last) &&
            (now >= last && now <= t < now + wait ==> Decide(interval, Some(last), true, t) == Throttle(now + wait - t))
  {
  }

  // ---------------------------------------------------------------------------

  const BLINK_HALF_MS: nat := 530

  function BlinkVisible(now: nat, lastInput: nat): bool {
    Elapsed(lastInput, now) / BLINK_HALF_MS % 2 == 0
  }

  /** On for 530 ms from the last input, off for as long, and so on. */
  lemma BlinkPhases(now: nat, lastInput: nat)
    ensures BlinkVisible(now, lastInput) <==> now < lastInput || (now - lastInput) % 1060 < 530
  {
    var e := Elapsed(lastInput, now);
    var q := e / 1060;
    assert e == 1060 * q + e % 1060;
    if e % 1060 < 530 {
      assert e / 530 == 2 * q;
    } else {
      assert e / 530 == 2 * q + 1;
    }
  }

  function BlinkNextFlipMs(now: nat, lastInput: nat): nat {
    BLINK_HALF_MS - Elapsed(lastInput, now) % BLINK_HALF_MS
  }

  /** Nothing flips before the wake-up asked for, and the phase flips exactly then if and
      only if the clock has not run back behind the last input. */
  lemma NextFlipIsExact(now: nat, lastInput: nat, t: nat)
    requires now <= t
    ensures BlinkNextFlipMs(now, lastInput) > 0
    ensures t < now + BlinkNextFlipMs(now, lastInput) ==> BlinkVisible(t, lastInput) == BlinkVisible(now, lastInput)
    ensures t == now + BlinkNextFlipMs(now, lastInput) ==>
              (BlinkVisible(t, lastInput) != BlinkVisible(now, lastInput) <==> now >= lastInput)
  {
    var e := Elapsed(lastInput, now);
    var q := e / 530;
    assert e == 530 * q + e % 530;
    var f := Elapsed(lastInput, t);
    if t < now + BlinkNextFlipMs(now, lastInput) || now < lastInput {
      assert t <= now + BlinkNextFlipMs(now, lastInput) ==> 530 * q <= f < 530 * (q + 1);
      assert t <= now + BlinkNextFlipMs(now, lastInput) ==> f / 530 == q;
    } else if t == now + BlinkNextFlipMs(now, lastInput) {
      assert f == 530 * (q + 1);
      assert f / 530 == q + 1;
    }
  }
}
