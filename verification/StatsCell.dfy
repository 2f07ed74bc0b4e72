/** `StatsCell`: one connection's periodic probes. The event loop plans them, tasks
    report back whenever the network lets them, and a reconnect in between makes
    everything still outstanding stale. Each method is one locked step. */
module StatsCells {
  import opened Arithmetic
  import opened Bytes

  const SAMPLE_EVERY: nat := 10_000
  const COUNTRY_EVERY: nat := 300_000

  datatype Reading<T> = Unknown | Ok(value: T) | Failed(why: nat) | Absent

  datatype CpuTimes = CpuTimes(idle: u64, total: u64)

  /** Memory, disk and country readings are only carried. */
  type Usage = Reading<(nat, nat)>
  type Country = Reading<nat>

  datatype Snapshot = Snapshot(cpu: Reading<nat>, mem: Usage, disk: Usage, country: Country)

  datatype Inner = Inner(snap: Snapshot, sampleAt: Option<nat>, sampleBusy: bool, countryAt: Option<nat>,
                         countryBusy: bool, cpuBase: Option<CpuTimes>, generation: nat)

  datatype Plan = Plan(sample: bool, country: bool, generation: nat)

  const FRESH: Inner := Inner(Snapshot(Unknown, Unknown, Unknown, Unknown), None, false, None, false, None, 0)

  // ---------------------------------------------------------------------------

  /** Whole-machine CPU use between two counters, in percent, rounded to nearest. */
  function CpuPct(prev: CpuTimes, now: CpuTimes): Option<nat> {
    if now.total < prev.total || now.idle < prev.idle || now.total == prev.total then None
    else
      var dt, di := now.total - prev.total, now.idle - prev.idle;
      var busy := if dt < di then 0 else dt - di;
      var p := (200 * busy + dt) / (2 * dt);
      Some(if p < 100 then p else 100)
  }

  /** A percentage exists exactly when the counters advanced; it never exceeds 100 and
      the cap never bites: it is within half a percent of the true ratio. */
  lemma CpuPctIsNearest(prev: CpuTimes, now: CpuTimes)
    ensures CpuPct(prev, now).Some? <==> now.total > prev.total && now.idle >= prev.idle
    ensures CpuPct(prev, now).Some? ==>
              var dt: int, di: int, p: int := now.total - prev.total, now.idle - prev.idle, CpuPct(prev, now).value;
              var busy := if dt < di then 0 else dt - di;
              0 <= p <= 100 && -dt < 2 * (dt * p) - 200 * busy <= dt
  {
    if CpuPct(prev, now).Some? {
      var dt: int, di: int := now.total - prev.total, now.idle - prev.idle;
      var busy := if dt < di then 0 else dt - di;
      Nearest(busy, dt);
    }
  }

  lemma Nearest(busy: nat, dt: nat)
    requires 0 < dt && busy <= dt
    ensures var p := (200 * busy + dt) / (2 * dt);
            p <= 100 && 200 * busy < 2 * (dt * p) + dt && 2 * (dt * p) <= 200 * busy + dt
  {
    var n := 200 * busy + dt;
    var p := n / (2 * dt);
    DivBelow(n, 2 * dt);
    DivLess(n, 2 * dt, 101);
    assert (2 * dt) * p == 2 * (dt * p);
    assert (2 * dt) * (p + 1) == 2 * (dt * p) + 2 * dt;
  }

  function Due(last: Option<nat>, busy: bool, every: nat, now: nat): bool {
    !busy && (last.None? || Elapsed(last.value, now) >= every)
  }

  function NextDue(last: Option<nat>, busy: bool, every: nat, now: nat): Option<nat> {
    if busy then None else if last.None? then Some(now) else Some(last.value + every)
  }

  function PlanAt(g: Inner, now: nat): Plan {
    Plan(Due(g.sampleAt, g.sampleBusy, SAMPLE_EVERY, now), Due(g.countryAt, g.countryBusy, COUNTRY_EVERY, now),
         g.generation)
  }

  function AfterPlan(g: Inner, now: nat): Inner {
    var p := PlanAt(g, now);
    var h := if p.sample then g.(sampleBusy := true, sampleAt := Some(now)) else g;
    if p.country then h.(countryBusy := true, countryAt := Some(now)) else h
  }

  function Earlier(a: Option<nat>, b: Option<nat>): Option<nat> {
    if a.None? then b else if b.None? || a.value <= b.value then a else b
  }

  function NextWake(g: Inner, now: nat): Option<nat> {
    Earlier(NextDue(g.sampleAt, g.sampleBusy, SAMPLE_EVERY, now), NextDue(g.countryAt, g.countryBusy, COUNTRY_EVERY, now))
  }

  function FinishSample(g: Inner, generation: nat, mem: Usage, disk: Usage): Inner {
    if generation != g.generation then g
    else g.(snap := g.snap.(mem := mem, disk := disk), sampleBusy := false)
  }

  function FinishCpu(g: Inner, generation: nat, r: Reading<CpuTimes>): Inner {
    if generation != g.generation then g
    else
      match r
      case Ok(now) =>
        var pct := if g.cpuBase.Some? then CpuPct(g.cpuBase.value, now) else None;
        g.(snap := if pct.Some? then g.snap.(cpu := Ok(pct.value)) else g.snap, cpuBase := Some(now))
      case Failed(why) => g.(snap := g.snap.(cpu := Failed(why)), cpuBase := None)
      case Absent => g.(snap := g.snap.(cpu := Absent), cpuBase := None)
      case Unknown => g
  }

  function FinishCountry(g: Inner, generation: nat, c: Country): Inner {
    if generation != g.generation then g
    else g.(snap := g.snap.(country := c), countryBusy := false)
  }

  function Refresh(g: Inner): Inner { g.(countryAt := None) }

  function Reset(g: Inner): Inner {
    g.(sampleAt := None, countryAt := None, sampleBusy := false, countryBusy := false, cpuBase := None,
       generation := g.generation + 1)
  }

  // ---------------------------------------------------------------------------
  // Waking up.

  /** From now on, as long as nothing else happens, planning dispatches something exactly
      when the wake-up time reported now has come: the loop neither sleeps through work nor
      wakes for nothing. */
  lemma WakeIffWork(g: Inner, now: nat, t: nat)
    requires now <= t
    ensures var w, p := NextWake(g, now), PlanAt(g, t);
            (w.Some? && w.value <= t) <==> (p.sample || p.country)
  {
  }

  /** Having planned, the loop has nothing to do now, and the next wake-up it asks for
      is absent or strictly later; until then planning dispatches nothing. */
  lemma NoBusyWait(g: Inner, now: nat, t: nat)
    requires now <= t
    ensures var h := AfterPlan(g, now);
            var w := NextWake(h, now);
            (w.Some? ==> w.value > now) &&
            ((w.Some? ==> t < w.value) ==> PlanAt(h, t) == Plan(false, false, g.generation))
  {
  }

  // ---------------------------------------------------------------------------
  // The protocol: the cell, its outstanding tasks, and what happened.

  /** A sample task reports its CPU counters first, then the sample. */
  datatype Sample = Sample(generation: nat, cpuDone: bool)

  datatype Mark = Accepted(generation: nat, r: Reading<CpuTimes>) | ResetMark

  datatype World = World(g: Inner, samples: multiset<Sample>, countries: multiset<nat>,
                         marks: seq<Mark>, starts: seq<(nat, nat)>)

  datatype Event =
    | Tick(now: nat)
    | CpuBack(generation: nat, cpu: Reading<CpuTimes>)
    | SampleBack(generation: nat, mem: Usage, disk: Usage)
    | CountryBack(generation: nat, country: Country)
    | RefreshCountry
    | Reconnect

  /** A report comes only from a task that is outstanding. */
  predicate Enabled(w: World, e: Event) {
    match e
    case CpuBack(gen, _) => Sample(gen, false) in w.samples
    case SampleBack(gen, _, _) => Sample(gen, true) in w.samples
    case CountryBack(gen, _) => gen in w.countries
    case _ => true
  }

  function Step(w: World, e: Event): World {
    match e
    case Tick(now) =>
      var p := PlanAt(w.g, now);
      w.(g := AfterPlan(w.g, now),
         samples := if p.sample then w.samples + multiset{Sample(p.generation, false)} else w.samples,
         countries := if p.country then w.countries + multiset{p.generation} else w.countries,
         starts := if p.sample then w.starts + [(p.generation, now)] else w.starts)
    case CpuBack(gen, r) =>
      w.(g := FinishCpu(w.g, gen, r),
         samples := w.samples - multiset{Sample(gen, false)} + multiset{Sample(gen, true)},
         marks := if gen == w.g.generation && r != Unknown then w.marks + [Accepted(gen, r)] else w.marks)
    case SampleBack(gen, mem, disk) =>
      w.(g := FinishSample(w.g, gen, mem, disk), samples := w.samples - multiset{Sample(gen, true)})
    case CountryBack(gen, c) =>
      w.(g := FinishCountry(w.g, gen, c), countries := w.countries - multiset{gen})
    case RefreshCountry => w.(g := Refresh(w.g))
    case Reconnect => w.(g := Reset(w.g), marks := w.marks + [ResetMark])
  }

  const START: World := World(FRESH, multiset{}, multiset{}, [], [])

  function Run(w: World, es: seq<Event>): World {
    if es == [] then w else Step(Run(w, es[..|es| - 1]), es[|es| - 1])
  }

  predicate Possible(w: World, es: seq<Event>) {
    es == [] || (Possible(w, es[..|es| - 1]) && Enabled(Run(w, es[..|es| - 1]), es[|es| - 1]))
  }

  /** Outstanding sample tasks of a generation. */
  function Outstanding(w: World, gen: nat): nat {
    w.samples[Sample(gen, false)] + w.samples[Sample(gen, true)]
  }

  /** Busy means exactly one task of the present generation is out; not busy, none.
      No task belongs to a generation yet to come. */
  ghost predicate Tracked(w: World) {
    Outstanding(w, w.g.generation) == (if w.g.sampleBusy then 1 else 0) &&
    w.countries[w.g.generation] == (if w.g.countryBusy then 1 else 0) &&
    (forall s :: s in w.samples ==> s.generation <= w.g.generation) &&
    (forall c :: c in w.countries ==> c <= w.g.generation)
  }

  /** The percentage mark `j` gives: it and the mark before it are two accepted samples of
      one generation, and their counters advanced. */
  function PctAt(marks: seq<Mark>, j: nat): Option<nat>
    requires j < |marks|
  {
    if j > 0 && marks[j - 1].Accepted? && marks[j].Accepted? && marks[j - 1].r.Ok? && marks[j].r.Ok? &&
       marks[j - 1].generation == marks[j].generation
    then CpuPct(marks[j - 1].r.value, marks[j].r.value)
    else None
  }

  /** Mark `j` says nothing new: a reconnect, or an accepted sample without a percentage. */
  predicate Silent(marks: seq<Mark>, j: nat)
    requires j < |marks|
  {
    marks[j].ResetMark? || (marks[j].r.Ok? && PctAt(marks, j) == None)
  }

  /** Mark `j` gives `p` percent, and no later mark says anything. */
  ghost predicate LastPct(marks: seq<Mark>, j: nat, p: nat) {
    j < |marks| && PctAt(marks, j) == Some(p) && forall k :: j < k < |marks| ==> Silent(marks, k)
  }

  ghost predicate Witnessed(marks: seq<Mark>, cpu: Reading<nat>) {
    forall p: nat :: cpu == Ok(p) <==> exists j: nat :: LastPct(marks, j, p)
  }

  /** The baseline is the last accepted sample, if nothing came in between. */
  ghost predicate Based(w: World) {
    var n := |w.marks|;
    (n > 0 && w.marks[n - 1].Accepted? ==> w.marks[n - 1].generation == w.g.generation) &&
    w.g.cpuBase == (if n > 0 && w.marks[n - 1].Accepted? && w.marks[n - 1].r.Ok? then Some(w.marks[n - 1].r.value) else None) &&
    Witnessed(w.marks, w.g.snap.cpu)
  }

  /** Samples of one generation start at least `SAMPLE_EVERY` apart. */
  ghost predicate Spaced(w: World) {
    var n := |w.starts|;
    (forall i :: 0 <= i < n ==> w.starts[i].0 <= w.g.generation) &&
    (n > 0 && w.starts[n - 1].0 == w.g.generation ==> w.g.sampleAt == Some(w.starts[n - 1].1)) &&
    (forall i :: 0 < i < n && w.starts[i].0 == w.starts[i - 1].0 ==> w.starts[i].1 >= w.starts[i - 1].1 + SAMPLE_EVERY)
  }

  /** A CPU report leaves schedule and generation alone. */
  lemma CpuKeepsSchedule(g: Inner, gen: nat, r: Reading<CpuTimes>)
    ensures var h := FinishCpu(g, gen, r);
            h.generation == g.generation && h.sampleAt == g.sampleAt && h.sampleBusy == g.sampleBusy &&
            h.countryAt == g.countryAt && h.countryBusy == g.countryBusy
  {
    hide CpuPct;
  }

  lemma TrackedTick(w: World, now: nat)
    requires Tracked(w)
    ensures Tracked(Step(w, Tick(now)))
  {
    var v, p := Step(w, Tick(now)), PlanAt(w.g, now);
    assert v.g.generation == w.g.generation == p.generation;
    forall s | s in v.samples ensures s.generation <= w.g.generation {
      assert s in w.samples || s == Sample(p.generation, false);
    }
    forall c | c in v.countries ensures c <= w.g.generation {
      assert c in w.countries || c == p.generation;
    }
  }

  lemma TrackedCpu(w: World, gen: nat, r: Reading<CpuTimes>)
    requires Tracked(w) && Enabled(w, CpuBack(gen, r))
    ensures Tracked(Step(w, CpuBack(gen, r)))
  {
    hide FinishCpu;
    CpuKeepsSchedule(w.g, gen, r);
    var v := Step(w, CpuBack(gen, r));
    assert v.g.generation == w.g.generation && v.g.sampleBusy == w.g.sampleBusy && v.g.countryBusy == w.g.countryBusy;
    forall s | s in v.samples ensures s.generation <= w.g.generation {
      assert s in w.samples || s == Sample(gen, true);
    }
  }

  lemma TrackedReconnect(w: World)
    requires Tracked(w)
    ensures Tracked(Step(w, Reconnect))
  {
    var next := w.g.generation + 1;
    assert Sample(next, false) !in w.samples && Sample(next, true) !in w.samples && next !in w.countries;
  }

  lemma TrackedStep(w: World, e: Event)
    requires Tracked(w) && Enabled(w, e)
    ensures Tracked(Step(w, e))
  {
    match e
    case Tick(now) => TrackedTick(w, now);
    case CpuBack(gen, r) => TrackedCpu(w, gen, r);
    case SampleBack(gen, mem, disk) =>
    case CountryBack(gen, c) =>
    case RefreshCountry =>
    case Reconnect => TrackedReconnect(w);
  }

  /** After one more mark: either it gives the percentage, or it says nothing and an
      earlier one does. */
  lemma LastPctGrows(marks: seq<Mark>, m: Mark, j: nat, p: nat)
    ensures LastPct(marks + [m], j, p) <==>
            if j == |marks| then PctAt(marks + [m], j) == Some(p) else LastPct(marks, j, p) && Silent(marks + [m], |marks|)
  {
    hide CpuPct;
    var all := marks + [m];
    assert forall k: nat :: k < |marks| ==> PctAt(all, k) == PctAt(marks, k);
    assert forall k: nat :: k < |marks| ==> (Silent(all, k) <==> Silent(marks, k));
    if j < |marks| && LastPct(all, j, p) {
      assert Silent(all, |marks|);
    }
  }

  /** A mark that says nothing changes nothing. */
  lemma WitnessKept(marks: seq<Mark>, m: Mark, cpu: Reading<nat>)
    requires Witnessed(marks, cpu) && Silent(marks + [m], |marks|)
    ensures Witnessed(marks + [m], cpu)
  {
    assert PctAt(marks + [m], |marks|) == None;
    hide LastPct, Silent, PctAt;
    forall p: nat, j: nat ensures LastPct(marks + [m], j, p) <==> LastPct(marks, j, p) {
      LastPctGrows(marks, m, j, p);
      LastPctFits(marks, j, p);
    }
  }

  lemma LastPctFits(marks: seq<Mark>, j: nat, p: nat)
    ensures LastPct(marks, j, p) ==> j < |marks|
  {
  }

  /** A mark that says something decides. */
  lemma WitnessNew(marks: seq<Mark>, m: Mark, cpu: Reading<nat>)
    requires !Silent(marks + [m], |marks|) && forall p: nat :: cpu == Ok(p) <==> PctAt(marks + [m], |marks|) == Some(p)
    ensures Witnessed(marks + [m], cpu)
  {
    hide LastPct, Silent, PctAt;
    var all, n := marks + [m], |marks|;
    forall p: nat ensures cpu == Ok(p) <==> exists j: nat :: LastPct(all, j, p) {
      forall j: nat ensures LastPct(all, j, p) <==> j == n && PctAt(all, n) == Some(p) {
        LastPctGrows(marks, m, j, p);
      }
      assert LastPct(all, n, p) <==> PctAt(all, n) == Some(p);
    }
  }

  lemma BasedCpu(w: World, gen: nat, r: Reading<CpuTimes>)
    requires Based(w)
    ensures Based(Step(w, CpuBack(gen, r)))
  {
    hide CpuPct, Witnessed;
    var v, n, m := Step(w, CpuBack(gen, r)), |w.marks|, Accepted(gen, r);
    if gen == w.g.generation && r != Unknown {
      assert v.marks == w.marks + [m];
      if Silent(v.marks, n) {
        WitnessKept(w.marks, m, w.g.snap.cpu);
      } else {
        WitnessNew(w.marks, m, v.g.snap.cpu);
      }
    }
  }

  lemma BasedStep(w: World, e: Event)
    requires Based(w)
    ensures Based(Step(w, e))
  {
    hide CpuPct, Witnessed;
    match e
    case CpuBack(gen, r) => BasedCpu(w, gen, r);
    case Reconnect => WitnessKept(w.marks, ResetMark, w.g.snap.cpu);
    case Tick(_) =>
    case SampleBack(_, _, _) =>
    case CountryBack(_, _) =>
    case RefreshCountry =>
  }

  lemma SpacedTick(w: World, now: nat)
    requires Spaced(w)
    ensures Spaced(Step(w, Tick(now)))
  {
    var v, n := Step(w, Tick(now)), |w.starts|;
    if PlanAt(w.g, now).sample {
      assert v.starts == w.starts + [(w.g.generation, now)] && v.g.sampleAt == Some(now);
      if n > 0 && w.starts[n - 1].0 == w.g.generation {
        assert now >= w.starts[n - 1].1 + SAMPLE_EVERY;
      }
      forall i | 0 < i < n + 1 && v.starts[i].0 == v.starts[i - 1].0
        ensures v.starts[i].1 >= v.starts[i - 1].1 + SAMPLE_EVERY
      {
        if i < n {
          assert v.starts[i] == w.starts[i] && v.starts[i - 1] == w.starts[i - 1];
        }
      }
    }
  }

  lemma SpacedStep(w: World, e: Event)
    requires Spaced(w)
    ensures Spaced(Step(w, e))
  {
    hide FinishCpu;
    match e
    case Tick(now) => SpacedTick(w, now);
    case CpuBack(gen, r) => CpuKeepsSchedule(w.g, gen, r);
    case SampleBack(_, _, _) =>
    case CountryBack(_, _) =>
    case RefreshCountry =>
    case Reconnect =>
  }

  lemma {:induction false} Always(es: seq<Event>)
    requires Possible(START, es)
    ensures Tracked(Run(START, es)) && Based(Run(START, es)) && Spaced(Run(START, es))
    decreases |es|
  {
    if es != [] {
      var n := |es| - 1;
      Always(es[..n]);
      var w := Run(START, es[..n]);
      TrackedStep(w, es[n]);
      BasedStep(w, es[n]);
      SpacedStep(w, es[n]);
    }
  }

  /** Over every interleaving of ticks, late reports, refreshes and reconnects: the
      busy flags say exactly whether a probe of this connection is out, so probes
      never pile up and none is waited for in vain. */
  lemma BusyIsOneOutstanding(es: seq<Event>)
    requires Possible(START, es)
    ensures var w := Run(START, es);
            (w.g.sampleBusy <==> Outstanding(w, w.g.generation) == 1) &&
            (!w.g.sampleBusy <==> Outstanding(w, w.g.generation) == 0) &&
            (w.g.countryBusy <==> w.countries[w.g.generation] == 1) &&
            (!w.g.countryBusy <==> w.countries[w.g.generation] == 0)
  {
    Always(es);
  }

  /** A report whose generation is no longer the cell's. */
  predicate Stale(g: Inner, e: Event) {
    (e.CpuBack? || e.SampleBack? || e.CountryBack?) && e.generation != g.generation
  }

  /** What an event does to the cell alone. */
  function CellStep(g: Inner, e: Event): Inner {
    match e
    case Tick(now) => AfterPlan(g, now)
    case CpuBack(gen, r) => FinishCpu(g, gen, r)
    case SampleBack(gen, mem, disk) => FinishSample(g, gen, mem, disk)
    case CountryBack(gen, c) => FinishCountry(g, gen, c)
    case RefreshCountry => Refresh(g)
    case Reconnect => Reset(g)
  }

  function CellRun(g: Inner, es: seq<Event>): Inner {
    if es == [] then g else CellStep(CellRun(g, es[..|es| - 1]), es[|es| - 1])
  }

  /** A run without its stale reports. */
  function Live(es: seq<Event>): seq<Event> {
    if es == [] then []
    else
      var n := |es| - 1;
      Live(es[..n]) + (if Stale(Run(START, es[..n]).g, es[n]) then [] else [es[n]])
  }

  /** Reports from before a reconnect might as well never have arrived: striking them
      all from a run leaves the cell exactly as it was. */
  lemma {:induction false} StaleReportsChangeNothing(es: seq<Event>)
    ensures CellRun(FRESH, Live(es)) == Run(START, es).g
    decreases |es|
  {
    if es != [] {
      hide Step, CellStep, Stale;
      var n := |es| - 1;
      StaleReportsChangeNothing(es[..n]);
      var w, l, e := Run(START, es[..n]), Live(es[..n]), es[n];
      CellIsStep(w, e);
      StaleIsNoStep(w.g, e);
      assert (l + [e])[..|l|] == l && l + [] == l;
    }
  }

  lemma CellIsStep(w: World, e: Event)
    ensures Step(w, e).g == CellStep(w.g, e)
  {
  }

  lemma StaleIsNoStep(g: Inner, e: Event)
    ensures Stale(g, e) ==> CellStep(g, e) == g
  {
  }

  /** A CPU percentage is shown exactly when it is that of two successive accepted samples
      of one connection, with no failed sample and no reconnect between them, and since
      then no sample has failed and none has given another percentage. */
  lemma CpuValueIsFromOnePair(es: seq<Event>, p: nat)
    requires Possible(START, es)
    ensures var w := Run(START, es);
            w.g.snap.cpu == Ok(p) <==> exists j: nat :: LastPct(w.marks, j, p)
  {
    Always(es);
  }

  /** Whatever the order of events, one connection is sampled at most once per period. */
  lemma SamplesAreSpaced(es: seq<Event>, i: nat)
    requires Possible(START, es) && 0 < i < |Run(START, es).starts|
    ensures var s := Run(START, es).starts;
            s[i].0 == s[i - 1].0 ==> s[i].1 >= s[i - 1].1 + SAMPLE_EVERY
  {
    Always(es);
  }

  // ---------------------------------------------------------------------------

  class StatsCell {
    var g: Inner

    constructor ()
      ensures g == FRESH
    {
      g := FRESH;
    }

    method PlanNow(now: nat) returns (p: Plan)
      modifies this
      ensures p == PlanAt(old(g), now) && g == AfterPlan(old(g), now)
    {
      p := Plan(Due(g.sampleAt, g.sampleBusy, SAMPLE_EVERY, now), Due(g.countryAt, g.countryBusy, COUNTRY_EVERY, now),
                g.generation);
      if p.sample {
        g := g.(sampleBusy := true, sampleAt := Some(now));
      }
      if p.country {
        g := g.(countryBusy := true, countryAt := Some(now));
      }
    }

    method Wake(now: nat) returns (t: Option<nat>)
      ensures t == NextWake(g, now)
    {
      var a := NextDue(g.sampleAt, g.sampleBusy, SAMPLE_EVERY, now);
      var b := NextDue(g.countryAt, g.countryBusy, COUNTRY_EVERY, now);
      t := a;
      if t.None? || (b.Some? && b.value < t.value) {
        t := b;
      }
    }

    method SampleDone(generation: nat, mem: Usage, disk: Usage)
      modifies this
      ensures g == FinishSample(old(g), generation, mem, disk)
    {
      if generation != g.generation {
        return;
      }
      g := g.(snap := g.snap.(mem := mem, disk := disk));
      g := g.(sampleBusy := false);
    }

    method CpuDone(generation: nat, r: Reading<CpuTimes>)
      modifies this
      ensures g == FinishCpu(old(g), generation, r)
    {
      if generation != g.generation {
        return;
      }
      match r
      case Ok(now) =>
        if g.cpuBase.Some? {
          var p := CpuPct(g.cpuBase.value, now);
          if p.Some? {
            g := g.(snap := g.snap.(cpu := Ok(p.value)));
          }
        }
        g := g.(cpuBase := Some(now));
      case Failed(why) =>
        g := g.(snap := g.snap.(cpu := Failed(why)));
        g := g.(cpuBase := None);
      case Absent =>
        g := g.(snap := g.snap.(cpu := Absent));
        g := g.(cpuBase := None);
      case Unknown =>
    }

    method CountryDone(generation: nat, c: Country)
      modifies this
      ensures g == FinishCountry(old(g), generation, c)
    {
      if generation != g.generation {
        return;
      }
      g := g.(snap := g.snap.(country := c));
      g := g.(countryBusy := false);
    }

    method RefreshCountryNow()
      modifies this
      ensures g == Refresh(old(g))
    {
      g := g.(countryAt := None);
    }

    method ResetSchedule()
      modifies this
      ensures g == Reset(old(g))
    {
      g := g.(sampleAt := None, countryAt := None);
      g := g.(sampleBusy := false, countryBusy := false);
      g := g.(cpuBase := None);
      g := g.(generation := g.generation + 1);
    }
  }
}
