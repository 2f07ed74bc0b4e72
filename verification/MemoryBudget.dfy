/** The memory-budget watch: when the log mentions that the working set is over budget,
    and when that it has come back. Readings arrive forever, so what matters is how
    many lines they can cause. */
module MemoryBudget {
  import opened Bytes

  const BUDGET_MB: nat := 300
  const STEP_MB: nat := 64
  const HYSTERESIS_MB: nat := 16

  datatype Line = Quiet | Cross(mb: u64) | Recover(mb: u64)

  function SaturatingAdd(a: u64, b: nat): u64 {
    if a + b < TWO_64 then a + b else TWO_64 - 1
  }

  function Verdict(reading: Option<u64>, reported: Option<u64>): Line {
    match reading
    case None => Quiet
    case Some(ws) =>
      match reported
      case None => if ws > BUDGET_MB then Cross(ws) else Quiet
      case Some(prev) =>
        if ws <= BUDGET_MB - HYSTERESIS_MB then Recover(ws)
        else if ws >= SaturatingAdd(prev, STEP_MB) then Cross(ws)
        else Quiet
  }

  /** What the caller remembers from one reading to the next. */
  function Remember(line: Line, reported: Option<u64>): Option<u64> {
    match line
    case Quiet => reported
    case Cross(mb) => Some(mb)
    case Recover(_) => None
  }

  datatype Watch = Watch(reported: Option<u64>, lines: seq<Line>)

  /** The state after a run of readings, and the lines written. */
  function Run(readings: seq<Option<u64>>): Watch {
    if readings == [] then Watch(None, [])
    else
      var w := Run(readings[..|readings| - 1]);
      var line := Verdict(readings[|readings| - 1], w.reported);
      Watch(Remember(line, w.reported), if line.Quiet? then w.lines else w.lines + [line])
  }

  /** Consecutive lines: a recovery only after a crossing; a crossing after a recovery is
      over budget again; a crossing after a crossing is a full step higher, or at the
      very top of the range. */
  predicate Follows(earlier: Line, later: Line) {
    match later
    case Quiet => false
    case Recover(mb) => earlier.Cross? && mb <= BUDGET_MB - HYSTERESIS_MB
    case Cross(mb) =>
      mb > BUDGET_MB &&
      (earlier.Recover? || (earlier.Cross? && (mb >= earlier.mb + STEP_MB || mb == TWO_64 - 1)))
  }

  ghost predicate Orderly(w: Watch) {
    var n := |w.lines|;
    (forall i :: 0 < i < n ==> Follows(w.lines[i - 1], w.lines[i])) &&
    (n > 0 ==> w.lines[0].Cross? && w.lines[0].mb > BUDGET_MB) &&
    (w.reported == if n == 0 || !w.lines[n - 1].Cross? then None else Some(w.lines[n - 1].mb)) &&
    (w.reported.Some? ==> w.reported.value > BUDGET_MB) &&
    (forall i :: 0 <= i < n ==> !w.lines[i].Quiet?)
  }

  /** Whatever is read, the log alternates sensibly: the first line is a crossing, a
      recovery only follows a crossing, and, short of the very top of the range, a
      crossing after a crossing is a full step higher. */
  lemma {:induction false} LinesAreOrderly(readings: seq<Option<u64>>)
    ensures Orderly(Run(readings))
    decreases |readings|
  {
    if readings != [] {
      var rest := readings[..|readings| - 1];
      LinesAreOrderly(rest);
    }
  }

  /** What a reading has to write after the lines so far: over budget at first and after a
      recovery; after a crossing, back to 16 below the budget or a further 64 up. */
  function Due(lines: seq<Line>, reading: Option<u64>): seq<Line> {
    if reading.None? then []
    else
      var mb := reading.value;
      if lines == [] || !lines[|lines| - 1].Cross? then if mb > 300 then [Cross(mb)] else []
      else
        var last := lines[|lines| - 1].mb;
        if mb <= 284 then [Recover(mb)]
        else if mb >= last + 64 || mb == TWO_64 - 1 then [Cross(mb)]
        else []
  }

  /** Every reading writes exactly the line that is due after those before, or none. */
  lemma NextLine(readings: seq<Option<u64>>, reading: Option<u64>)
    ensures Run(readings + [reading]).lines == Run(readings).lines + Due(Run(readings).lines, reading)
  {
    LinesAreOrderly(readings);
    assert (readings + [reading])[..|readings|] == readings;
  }

  predicate Between(reading: Option<u64>, low: int, high: int) {
    reading.None? || low < reading.value < high
  }

  /** Jitter does not wake the disk: readings that stay above the recovery mark and below
      the next step after the first crossing, however often they pass the budget, write
      one line at most. */
  lemma {:induction false} JitterIsOneLine(readings: seq<Option<u64>>)
    requires forall i :: 0 <= i < |readings| ==>
               Between(readings[i], BUDGET_MB - HYSTERESIS_MB, BUDGET_MB + 1 + STEP_MB)
    ensures |Run(readings).lines| <= 1
    ensures |Run(readings).lines| == 1 <==> exists i :: 0 <= i < |readings| && readings[i].Some? && readings[i].value > BUDGET_MB
    decreases |readings|
  {
    if readings != [] {
      var n := |readings| - 1;
      var rest := readings[..n];
      JitterIsOneLine(rest);
      LinesAreOrderly(rest);
      assert forall i :: 0 <= i < n ==> rest[i] == readings[i];
      if |Run(rest).lines| == 0 {
        assert forall i :: 0 <= i < n ==> readings[i].None? || readings[i].value <= BUDGET_MB;
      }
    }
  }

  /** Without a recovery in between, every further line costs a full step: `n` crossings
      in a row mean the working set has climbed `n - 1` steps above the budget. */
  lemma {:induction false} CrossingsClimb(readings: seq<Option<u64>>, first: nat, last: nat)
    requires first <= last < |Run(readings).lines|
    requires forall i :: first <= i <= last ==> Run(readings).lines[i].Cross? && Run(readings).lines[i].mb < TWO_64 - 1
    ensures Run(readings).lines[last].mb > BUDGET_MB + STEP_MB * (last - first)
    decreases last - first
  {
    LinesAreOrderly(readings);
    var lines := Run(readings).lines;
    if first < last {
      CrossingsClimb(readings, first, last - 1);
      assert Follows(lines[last - 1], lines[last]);
    } else if first > 0 {
      assert Follows(lines[first - 1], lines[first]);
    }
  }

  /** At the top of the range the saturated step is reached by standing still, and the
      crossing is reported again at every reading. */
  lemma TopReadingRepeats()
    ensures var top: Option<u64> := Some(TWO_64 - 1);
            Run([top, top]).lines == [Cross(TWO_64 - 1), Cross(TWO_64 - 1)]
  {
    var top: Option<u64> := Some(TWO_64 - 1);
    assert [top, top][..1] == [top];
    assert [top][..0] == [];
    assert Run([top]) == Watch(top, [Cross(TWO_64 - 1)]);
  }
}
