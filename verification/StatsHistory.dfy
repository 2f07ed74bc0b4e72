/** What a cell shows and when it probes, read off the events it has been through. */
module StatsHistories {
  import opened Bytes
  import opened StatsCells

  /** How often the connection was replaced. */
  function Reconnects(es: seq<Event>): nat {
    if es == [] then 0
    else Reconnects(es[..|es| - 1]) + (if es[|es| - 1].Reconnect? then 1 else 0)
  }

  /** The last report of memory and disk that came in over the connection of its time. */
  function LastSample(es: seq<Event>): (Usage, Usage) {
    if es == [] then (Unknown, Unknown)
    else
      var before, e := es[..|es| - 1], es[|es| - 1];
      if e.SampleBack? && e.generation == Reconnects(before) then (e.mem, e.disk) else LastSample(before)
  }

  function LastCountry(es: seq<Event>): Country {
    if es == [] then Unknown
    else
      var before, e := es[..|es| - 1], es[|es| - 1];
      if e.CountryBack? && e.generation == Reconnects(before) then e.country else LastCountry(before)
  }

  /** What the last CPU report that says anything says: a failure or an absence as such, a
      sample if it gives a percentage. */
  function LastCpu(marks: seq<Mark>): Reading<nat> {
    if marks == [] then Unknown
    else
      var n := |marks| - 1;
      match marks[n]
      case ResetMark => LastCpu(marks[..n])
      case Accepted(_, Failed(why)) => Failed(why)
      case Accepted(_, Absent) => Absent
      case Accepted(_, _) => if PctAt(marks, n).Some? then Ok(PctAt(marks, n).value) else LastCpu(marks[..n])
  }

  /** What one event does to the generation, the readings shown, and the times kept. */
  lemma OneStep(w: World, e: Event)
    ensures var g, h := w.g, Step(w, e).g;
            h.generation == g.generation + (if e.Reconnect? then 1 else 0) &&
            (h.snap.mem, h.snap.disk) ==
              (if e.SampleBack? && e.generation == g.generation then (e.mem, e.disk) else (g.snap.mem, g.snap.disk)) &&
            h.snap.country == (if e.CountryBack? && e.generation == g.generation then e.country else g.snap.country)
    ensures var g, h := w.g, Step(w, e).g;
            h.sampleAt == (if e.Reconnect? then None
                           else if e.Tick? && PlanAt(g, e.now).sample then Some(e.now) else g.sampleAt) &&
            h.countryAt == (if e.Reconnect? || e.RefreshCountry? then None
                            else if e.Tick? && PlanAt(g, e.now).country then Some(e.now) else g.countryAt)
  {
    hide CpuPct, Due;
    match e
    case CpuBack(gen, r) => CpuKeepsSchedule(w.g, gen, r);
    case _ =>
  }

  lemma {:induction false} GenerationIsReconnects(es: seq<Event>)
    ensures Run(START, es).g.generation == Reconnects(es)
    decreases |es|
  {
    hide Step;
    if es != [] {
      GenerationIsReconnects(es[..|es| - 1]);
      OneStep(Run(START, es[..|es| - 1]), es[|es| - 1]);
    }
  }

  /** Over any run, memory, disk and country shown are those of the last report that came
      in over its own connection; a reconnect leaves them standing. */
  lemma {:induction false} ShowsLastReports(es: seq<Event>)
    ensures var snap := Run(START, es).g.snap;
            (snap.mem, snap.disk) == LastSample(es) && snap.country == LastCountry(es)
    decreases |es|
  {
    hide Step;
    if es != [] {
      ShowsLastReports(es[..|es| - 1]);
      GenerationIsReconnects(es[..|es| - 1]);
      OneStep(Run(START, es[..|es| - 1]), es[|es| - 1]);
    }
  }

  lemma LastCpuGrows(marks: seq<Mark>, m: Mark)
    ensures LastCpu(marks + [m]) ==
            match m
            case ResetMark => LastCpu(marks)
            case Accepted(_, Failed(why)) => Failed(why)
            case Accepted(_, Absent) => Absent
            case Accepted(_, _) =>
              if PctAt(marks + [m], |marks|).Some? then Ok(PctAt(marks + [m], |marks|).value) else LastCpu(marks)
  {
    hide PctAt;
    assert (marks + [m])[..|marks|] == marks;
  }

  /** And so is the CPU reading, failures with their reasons included. */
  lemma {:induction false} ShowsLastCpu(es: seq<Event>)
    requires Possible(START, es)
    ensures Run(START, es).g.snap.cpu == LastCpu(Run(START, es).marks)
    decreases |es|
  {
    if es != [] {
      var n := |es| - 1;
      ShowsLastCpu(es[..n]);
      Always(es[..n]);
      CpuStep(Run(START, es[..n]), es[n]);
    }
  }

  lemma CpuStep(w: World, e: Event)
    requires Based(w) && w.g.snap.cpu == LastCpu(w.marks)
    ensures Step(w, e).g.snap.cpu == LastCpu(Step(w, e).marks)
  {
    hide CpuPct, LastCpu, Witnessed;
    match e
    case CpuBack(gen, r) => LastCpuGrows(w.marks, Accepted(gen, r));
    case Reconnect => LastCpuGrows(w.marks, ResetMark);
    case Tick(_) =>
    case SampleBack(_, _, _) =>
    case CountryBack(_, _) =>
    case RefreshCountry =>
  }

  // ---------------------------------------------------------------------------
  // When probes are sent.

  /** When this connection was last sampled. */
  function SampledAt(es: seq<Event>): Option<nat> {
    if es == [] then None
    else
      var before, e := es[..|es| - 1], es[|es| - 1];
      if e.Reconnect? then None
      else if e.Tick? && PlanAt(Run(START, before).g, e.now).sample then Some(e.now)
      else SampledAt(before)
  }

  /** When this connection was last asked for its country, since the user last asked to
      have it fetched again. */
  function AskedAt(es: seq<Event>): Option<nat> {
    if es == [] then None
    else
      var before, e := es[..|es| - 1], es[|es| - 1];
      if e.Reconnect? || e.RefreshCountry? then None
      else if e.Tick? && PlanAt(Run(START, before).g, e.now).country then Some(e.now)
      else AskedAt(before)
  }

  lemma {:induction false} RemembersWhen(es: seq<Event>)
    ensures var g := Run(START, es).g;
            g.sampleAt == SampledAt(es) && g.countryAt == AskedAt(es)
    decreases |es|
  {
    hide Step, PlanAt;
    if es != [] {
      RemembersWhen(es[..|es| - 1]);
      OneStep(Run(START, es[..|es| - 1]), es[|es| - 1]);
    }
  }

  predicate Rested(last: Option<nat>, every: nat, now: nat) {
    last.None? || now >= last.value + every
  }

  /** Exactly when the event loop sends a probe, over any run: when none is out over this
      connection and the last one was sent ten seconds ago, or five minutes ago for the
      country; at once after a reconnect, and for the country when the user asks. */
  lemma PlansExactly(es: seq<Event>, now: nat)
    requires Possible(START, es)
    ensures var w := Run(START, es);
            var p, gen := PlanAt(w.g, now), Reconnects(es);
            p.generation == gen &&
            (p.sample <==> Outstanding(w, gen) == 0 && Rested(SampledAt(es), 10_000, now)) &&
            (p.country <==> w.countries[gen] == 0 && Rested(AskedAt(es), 300_000, now))
  {
    GenerationIsReconnects(es);
    RemembersWhen(es);
    Always(es);
    hide Run, Possible, Based, Spaced;
  }
}
