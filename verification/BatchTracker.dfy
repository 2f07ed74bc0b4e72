/** `BatchTracker`: pasted files are uploaded as one batch of transfer jobs, and the
    remote paths are typed into the terminal only once the whole batch has landed. Two
    maps track this; here they are related to the plain history of what was reported. */
module BatchTrackers {
  import opened Bytes
  import opened FiniteSets

  datatype Job = Job(id: nat, path: string)

  datatype Batch = Batch(generation: nat, pane: nat, jobs: seq<Job>, finished: set<nat>, failed: nat)

  datatype Verdict = Fill(generation: nat, pane: nat, paths: seq<string>) | Abandoned(failed: nat)

  datatype Tracker = Tracker(batches: map<nat, Batch>, byJob: map<nat, nat>)

  const EMPTY: Tracker := Tracker(map[], map[])

  function Ids(jobs: seq<Job>): set<nat> { set j | j in jobs :: j.id }

  function Paths(jobs: seq<Job>): seq<string> {
    if jobs == [] then [] else Paths(jobs[..|jobs| - 1]) + [jobs[|jobs| - 1].path]
  }

  /** One path for each job, in order. */
  lemma {:induction false} PathsInOrder(jobs: seq<Job>)
    ensures |Paths(jobs)| == |jobs| && forall k :: 0 <= k < |jobs| ==> Paths(jobs)[k] == jobs[k].path
    decreases |jobs|
  {
    if jobs != [] {
      PathsInOrder(jobs[..|jobs| - 1]);
    }
  }

  function Registered(byJob: map<nat, nat>, jobs: seq<Job>, batch: nat): map<nat, nat> {
    byJob + map j | j in Ids(jobs) :: batch
  }

  function Open(t: Tracker, batch: nat, generation: nat, pane: nat, jobs: seq<Job>): Tracker {
    Tracker(t.batches[batch := Batch(generation, pane, jobs, {}, 0)], Registered(t.byJob, jobs, batch))
  }

  function Judge(b: Batch): Verdict {
    if b.failed == 0 then Fill(b.generation, b.pane, Paths(b.jobs)) else Abandoned(b.failed)
  }

  function Counted(b: Batch, job: nat, ok: bool): Batch {
    b.(finished := b.finished + {job}, failed := if ok then b.failed else b.failed + 1)
  }

  function Finish(t: Tracker, job: nat, ok: bool): (Tracker, Option<Verdict>) {
    if job !in t.byJob || t.byJob[job] !in t.batches then (t, None)
    else
      var bid := t.byJob[job];
      var b := t.batches[bid];
      if job in b.finished then (t, None)
      else
        var c := Counted(b, job, ok);
        if |c.finished| < |c.jobs| then (t.(batches := t.batches[bid := c]), None)
        else (Tracker(t.batches - {bid}, t.byJob - Ids(c.jobs)), Some(Judge(c)))
  }

  function Dead(t: Tracker, generation: nat): set<nat> {
    set b | b in t.batches && t.batches[b].generation == generation
  }

  function JobsOf(batches: map<nat, Batch>, some: set<nat>): set<nat> {
    set b, j | b in batches && b in some && j in batches[b].jobs :: j.id
  }

  function DropGeneration(t: Tracker, generation: nat): Tracker {
    Tracker(t.batches - Dead(t, generation), t.byJob - JobsOf(t.batches, Dead(t, generation)))
  }

  // ---------------------------------------------------------------------------
  // Histories, and what they mean without any bookkeeping.

  datatype Event =
    | Opened(batch: nat, generation: nat, pane: nat, jobs: seq<Job>)
    | Reported(job: nat, ok: bool)
    | Closed(generation: nat)

  function Step(t: Tracker, e: Event): (Tracker, Option<Verdict>) {
    match e
    case Opened(b, g, p, jobs) => (Open(t, b, g, p, jobs), None)
    case Reported(job, ok) => Finish(t, job, ok)
    case Closed(g) => (DropGeneration(t, g), None)
  }

  function Run(h: seq<Event>): Tracker {
    if h == [] then EMPTY else Step(Run(h[..|h| - 1]), h[|h| - 1]).0
  }

  /** Batch and job numbers come from counters: no two openings share any. */
  ghost predicate Fresh(h: seq<Event>) {
    forall i, j :: 0 <= i < j < |h| && h[i].Opened? && h[j].Opened? ==>
      h[i].batch != h[j].batch && Ids(h[i].jobs) !! Ids(h[j].jobs)
  }

  /** The first report on each job of the batch opened at `i`. */
  function Firsts(h: seq<Event>, i: nat): map<nat, bool>
    requires i < |h| && h[i].Opened?
  {
    if |h| == i + 1 then map[]
    else
      var m, e := Firsts(h[..|h| - 1], i), h[|h| - 1];
      if e.Reported? && e.job in Ids(h[i].jobs) && e.job !in m then m[e.job := e.ok] else m
  }

  function Failures(m: map<nat, bool>): set<nat> { set j | j in m && !m[j] }

  ghost predicate TabClosed(h: seq<Event>, i: nat)
    requires i < |h| && h[i].Opened?
  {
    exists k :: i < k < |h| && h[k] == Closed(h[i].generation)
  }

  /** Every job of a batch with at least one job, all with different numbers, has
      reported. */
  predicate AllIn(h: seq<Event>, i: nat)
    requires i < |h| && h[i].Opened?
  {
    h[i].jobs != [] && |Ids(h[i].jobs)| == |h[i].jobs| && Firsts(h, i).Keys == Ids(h[i].jobs)
  }

  ghost predicate StillOpen(h: seq<Event>, i: nat)
    requires i < |h| && h[i].Opened?
  {
    !TabClosed(h, i) && !AllIn(h, i)
  }

  ghost predicate Agree(t: Tracker) {
    (forall b, j :: b in t.batches && j in Ids(t.batches[b].jobs) ==> j in t.byJob && t.byJob[j] == b) &&
    (forall j :: j in t.byJob ==> t.byJob[j] in t.batches && j in Ids(t.batches[t.byJob[j]].jobs))
  }

  ghost predicate EntryIs(h: seq<Event>, t: Tracker, i: nat)
    requires i < |h| && h[i].Opened?
  {
    (h[i].batch in t.batches <==> StillOpen(h, i)) &&
    (StillOpen(h, i) ==>
       t.batches[h[i].batch] == Batch(h[i].generation, h[i].pane, h[i].jobs, Firsts(h, i).Keys, |Failures(Firsts(h, i))|))
  }

  ghost predicate OpenedIn(h: seq<Event>, b: nat) {
    exists i :: 0 <= i < |h| && h[i].Opened? && h[i].batch == b
  }

  ghost predicate Reflects(h: seq<Event>, t: Tracker) {
    (forall i :: 0 <= i < |h| && h[i].Opened? ==> EntryIs(h, t, i)) &&
    (forall b :: b in t.batches ==> OpenedIn(h, b))
  }

  lemma {:induction false} FirstsWithin(h: seq<Event>, i: nat)
    requires i < |h| && h[i].Opened?
    ensures Firsts(h, i).Keys <= Ids(h[i].jobs)
    decreases |h|
  {
    if |h| > i + 1 {
      FirstsWithin(h[..|h| - 1], i);
    }
  }

  lemma FirstsStep(h: seq<Event>, e: Event, i: nat)
    requires i < |h| && h[i].Opened?
    ensures Firsts(h + [e], i) ==
            if e.Reported? && e.job in Ids(h[i].jobs) && e.job !in Firsts(h, i) then Firsts(h, i)[e.job := e.ok]
            else Firsts(h, i)
  {
    assert (h + [e])[..|h|] == h;
  }

  lemma TabClosedStep(h: seq<Event>, e: Event, i: nat)
    requires i < |h| && h[i].Opened?
    ensures TabClosed(h + [e], i) <==> TabClosed(h, i) || e == Closed(h[i].generation)
  {
    var g := h + [e];
    if TabClosed(h, i) {
      var k :| i < k < |h| && h[k] == Closed(h[i].generation);
      assert g[k] == Closed(h[i].generation);
    }
    if e == Closed(h[i].generation) {
      assert g[|h|] == e;
    }
  }

  /** Once closed or complete, a batch stays so. */
  lemma StaysShut(h: seq<Event>, e: Event, i: nat)
    requires i < |h| && h[i].Opened? && !StillOpen(h, i)
    ensures !StillOpen(h + [e], i)
  {
    TabClosedStep(h, e, i);
    FirstsStep(h, e, i);
  }

  lemma IdsAtMost(jobs: seq<Job>)
    ensures |Ids(jobs)| <= |jobs|
  {
    if jobs != [] {
      var rest := jobs[..|jobs| - 1];
      IdsAtMost(rest);
      assert jobs == rest + [jobs[|jobs| - 1]];
      assert Ids(jobs) == Ids(rest) + {jobs[|jobs| - 1].id};
    }
  }

  /** Comparing two counts, as the tracker does, tells exactly whether every job of a
      well-formed batch has reported. */
  lemma CountTells(jobs: seq<Job>, done: set<nat>)
    requires done <= Ids(jobs) && done != {}
    ensures |done| >= |jobs| <==> jobs != [] && |Ids(jobs)| == |jobs| && done == Ids(jobs)
  {
    IdsAtMost(jobs);
    SubsetSize(done, Ids(jobs));
  }

  lemma FailedAreReported(m: map<nat, bool>, job: nat)
    ensures job in Failures(m) ==> job in m
  {
  }

  lemma OneMoreFailure(m: map<nat, bool>, job: nat, ok: bool)
    requires job !in m
    ensures |Failures(m[job := ok])| == |Failures(m)| + (if ok then 0 else 1)
  {
    var n := m[job := ok];
    forall j ensures j in Failures(n) <==> j in Failures(m) || (!ok && j == job) {
    }
    hide Failures;
    if ok {
      assert Failures(n) == Failures(m);
    } else {
      assert job !in Failures(m) by { FailedAreReported(m, job); }
      assert Failures(n) == Failures(m) + {job};
    }
  }

  lemma ReflectsOpened(h: seq<Event>, e: Event)
    requires e.Opened? && Fresh(h + [e]) && Reflects(h, Run(h))
    ensures Reflects(h + [e], Step(Run(h), e).0)
  {
    hide Run, Firsts, Ids, EntryIs, StillOpen, Registered;
    var g, t := h + [e], Run(h);
    var u := Step(t, e).0;
    forall i: nat | i < |g| && g[i].Opened? ensures EntryIs(g, u, i) {
      if i < |h| {
        assert g[i] == h[i] && g[|h|] == e && EntryIs(h, t, i);
        assert g[i].batch != g[|h|].batch;
        OlderEntry(h, e, t, i);
      } else {
        NewEntry(h, e, t);
      }
    }
    forall b | b in u.batches ensures OpenedIn(g, b) {
      if b in t.batches {
        StillKnown(h, e, b);
      } else {
        assert g[|h|].batch == b;
      }
    }
  }

  lemma OlderEntry(h: seq<Event>, e: Event, t: Tracker, i: nat)
    requires e.Opened? && i < |h| && h[i].Opened? && EntryIs(h, t, i) && h[i].batch != e.batch
    ensures EntryIs(h + [e], Step(t, e).0, i)
  {
    hide Firsts, Ids, TabClosed, Registered;
    FirstsStep(h, e, i);
    TabClosedStep(h, e, i);
  }

  lemma NewEntry(h: seq<Event>, e: Event, t: Tracker)
    requires e.Opened?
    ensures EntryIs(h + [e], Step(t, e).0, |h|)
  {
    hide Firsts, Ids, TabClosed, Registered, StillOpen;
    NewlyOpened(h, e);
    assert (h + [e])[|h|] == e;
  }

  lemma NewlyOpened(h: seq<Event>, e: Event)
    requires e.Opened?
    ensures var g := h + [e]; Firsts(g, |h|) == map[] && Failures(Firsts(g, |h|)) == {} && StillOpen(g, |h|)
  {
    if e.jobs != [] {
      assert e.jobs[0].id in Ids(e.jobs);
    }
  }

  lemma StillKnown(h: seq<Event>, e: Event, b: nat)
    requires OpenedIn(h, b)
    ensures OpenedIn(h + [e], b)
  {
    var i :| 0 <= i < |h| && h[i].Opened? && h[i].batch == b;
    assert (h + [e])[i] == h[i];
  }

  lemma ReflectsClosed(h: seq<Event>, e: Event)
    requires e.Closed? && Fresh(h) && Reflects(h, Run(h))
    ensures Reflects(h + [e], Step(Run(h), e).0)
  {
    hide Run, Firsts, Ids, JobsOf;
    var g, t := h + [e], Run(h);
    var u := Step(t, e).0;
    forall i: nat | i < |g| && g[i].Opened? ensures EntryIs(g, u, i) {
      assert g[i] == h[i] && EntryIs(h, t, i);
      FirstsStep(h, e, i);
      TabClosedStep(h, e, i);
    }
    forall b | b in u.batches ensures OpenedIn(g, b) {
      StillKnown(h, e, b);
    }
  }

  /** A job the tracker looks up belongs to the batch opened at `i`, and to no other. */
  lemma Owner(h: seq<Event>, job: nat) returns (i: nat)
    requires Fresh(h) && Reflects(h, Run(h)) && Agree(Run(h)) && job in Run(h).byJob
    ensures i < |h| && h[i].Opened? && h[i].batch == Run(h).byJob[job] && job in Ids(h[i].jobs) && StillOpen(h, i)
    ensures forall k :: 0 <= k < |h| && h[k].Opened? && k != i ==> job !in Ids(h[k].jobs)
  {
    hide Run, Ids, Firsts, AllIn, TabClosed;
    var t := Run(h);
    var b := t.byJob[job];
    assert OpenedIn(h, b);
    i :| 0 <= i < |h| && h[i].Opened? && h[i].batch == b;
    assert EntryIs(h, t, i);
    assert t.batches[b].jobs == h[i].jobs;
    forall k | 0 <= k < |h| && h[k].Opened? && k != i ensures job !in Ids(h[k].jobs) {
      if k < i {
        assert Ids(h[k].jobs) !! Ids(h[i].jobs);
      } else {
        assert Ids(h[i].jobs) !! Ids(h[k].jobs);
      }
    }
  }

  lemma Untouched(h: seq<Event>, e: Event, t: Tracker, u: Tracker, i: nat)
    requires i < |h| && h[i].Opened? && EntryIs(h, t, i) && e.Reported?
    requires e.job in Ids(h[i].jobs) && StillOpen(h, i) ==> e.job in Firsts(h, i)
    requires h[i].batch in u.batches <==> h[i].batch in t.batches
    requires h[i].batch in t.batches ==> u.batches[h[i].batch] == t.batches[h[i].batch]
    ensures EntryIs(h + [e], u, i)
  {
    hide Ids, Firsts, TabClosed;
    FirstsStep(h, e, i);
    TabClosedStep(h, e, i);
    if !StillOpen(h, i) {
      StaysShut(h, e, i);
    }
  }

  lemma OwnersEntry(h: seq<Event>, e: Event, i: nat)
    requires Reflects(h, Run(h)) && e.Reported?
    requires e.job in Run(h).byJob
    requires i < |h| && h[i].Opened? && h[i].batch == Run(h).byJob[e.job] && e.job in Ids(h[i].jobs) && StillOpen(h, i)
    ensures EntryIs(h + [e], Step(Run(h), e).0, i)
    ensures var v := Step(Run(h), e).1;
            (v.Some? <==> e.job !in Firsts(h, i) && AllIn(h + [e], i)) &&
            (v.Some? ==> v.value == Judge(Batch(h[i].generation, h[i].pane, h[i].jobs, Ids(h[i].jobs),
                                                |Failures(Firsts(h + [e], i))|)))
  {
    hide Run, Ids, Firsts, TabClosed, Failures, Judge;
    var t, m := Run(h), Firsts(h, i);
    assert EntryIs(h, t, i);
    FirstsStep(h, e, i);
    TabClosedStep(h, e, i);
    if e.job !in m {
      FirstsWithin(h, i);
      CountTells(h[i].jobs, m.Keys + {e.job});
      OneMoreFailure(m, e.job, e.ok);
      assert m[e.job := e.ok].Keys == m.Keys + {e.job};
    }
  }

  lemma ReflectsReported(h: seq<Event>, e: Event)
    requires e.Reported? && Fresh(h) && Reflects(h, Run(h)) && Agree(Run(h))
    ensures Reflects(h + [e], Step(Run(h), e).0)
  {
    hide Run, EntryIs, Agree, Fresh, Judge;
    var g, t := h + [e], Run(h);
    var u := Step(t, e).0;
    forall i: nat | i < |g| && g[i].Opened? ensures EntryIs(g, u, i) {
      assert g[i] == h[i];
      ReportedEntry(h, e, i);
    }
    forall b | b in u.batches ensures OpenedIn(g, b) {
      StillKnown(h, e, b);
    }
  }

  lemma ReportedEntry(h: seq<Event>, e: Event, i: nat)
    requires e.Reported? && Fresh(h) && Reflects(h, Run(h)) && Agree(Run(h)) && i < |h| && h[i].Opened?
    ensures EntryIs(h + [e], Step(Run(h), e).0, i)
  {
    hide Run, Ids, Firsts, Failures, Judge, StillOpen, Agree;
    var t := Run(h);
    var u := Step(t, e).0;
    assert EntryIs(h, t, i);
    if e.job in t.byJob {
      var o := Owner(h, e.job);
      if i == o {
        OwnersEntry(h, e, o);
      } else {
        assert h[i].batch != h[o].batch;
        Untouched(h, e, t, u, i);
      }
    } else {
      if StillOpen(h, i) && e.job in Ids(h[i].jobs) {
        HeldJobsAreKnown(h, i, e.job);
      }
      Untouched(h, e, t, u, i);
    }
  }

  lemma AgreeFinish(t: Tracker, job: nat, ok: bool)
    requires Agree(t)
    ensures Agree(Finish(t, job, ok).0)
  {
    hide Ids, Judge;
    var u := Finish(t, job, ok).0;
    if u != t {
      var bid := t.byJob[job];
      var b := t.batches[bid];
      forall k | k in t.batches && k != bid ensures Ids(t.batches[k].jobs) !! Ids(b.jobs) {
        Apart(t, k, bid);
      }
      if bid in u.batches {
        assert u.batches[bid].jobs == b.jobs && u.byJob == t.byJob;
        assert forall k :: k in t.batches ==> k in u.batches && u.batches[k].jobs == t.batches[k].jobs;
      } else {
        assert forall k :: k in u.batches ==> k != bid && u.batches[k] == t.batches[k];
        assert forall j :: j in u.byJob <==> j in t.byJob && t.byJob[j] != bid;
      }
    }
  }

  lemma Apart(t: Tracker, a: nat, b: nat)
    requires Agree(t) && a in t.batches && b in t.batches && a != b
    ensures Ids(t.batches[a].jobs) !! Ids(t.batches[b].jobs)
  {
    forall j | j in Ids(t.batches[a].jobs) ensures j !in Ids(t.batches[b].jobs) {
      assert t.byJob[j] == a;
    }
  }

  /** Jobs are filed under the batch they belong to. */
  lemma JobsOfThem(t: Tracker, some: set<nat>, j: nat)
    requires Agree(t) && j in t.byJob
    ensures j in JobsOf(t.batches, some) <==> t.byJob[j] in some
  {
    if t.byJob[j] in some {
      IdIsOfThem(t, some, t.byJob[j], j);
    } else {
      forall b, k | b in t.batches && b in some && k in t.batches[b].jobs ensures k.id != j {
        assert k.id in Ids(t.batches[b].jobs);
      }
    }
  }

  lemma IdIsOfThem(t: Tracker, some: set<nat>, b: nat, job: nat)
    requires b in t.batches && b in some && job in Ids(t.batches[b].jobs)
    ensures job in JobsOf(t.batches, some)
  {
  }

  lemma AgreeDrop(t: Tracker, generation: nat)
    requires Agree(t)
    ensures Agree(DropGeneration(t, generation))
  {
    hide Ids, JobsOf;
    var dead, u := Dead(t, generation), DropGeneration(t, generation);
    forall j | j in t.byJob ensures j in u.byJob <==> t.byJob[j] !in dead {
      JobsOfThem(t, dead, j);
    }
  }

  lemma AgreeOpen(h: seq<Event>, e: Event)
    requires e.Opened? && Fresh(h + [e]) && Reflects(h, Run(h)) && Agree(Run(h))
    ensures Agree(Step(Run(h), e).0)
  {
    hide Run, Ids, Firsts, AllIn, TabClosed, Failures, StillOpen;
    var g, t := h + [e], Run(h);
    assert Fresh(h) by { NoLaterOpening(h, e); }
    forall j | j in t.byJob ensures j !in Ids(e.jobs) && t.byJob[j] != e.batch {
      var o := Owner(h, j);
      assert g[o] == h[o] && g[|h|] == e;
    }
  }

  lemma NoLaterOpening(h: seq<Event>, e: Event)
    requires Fresh(h + [e])
    ensures Fresh(h)
  {
    var g := h + [e];
    forall i, j | 0 <= i < j < |h| && h[i].Opened? && h[j].Opened?
      ensures h[i].batch != h[j].batch && Ids(h[i].jobs) !! Ids(h[j].jobs)
    {
      assert g[i] == h[i] && g[j] == h[j];
    }
  }

  /** After any run the two maps agree with each other and with the history: a batch is
      held exactly while its tab is open and some job has yet to report. */
  lemma {:induction false} MapsAgree(h: seq<Event>)
    requires Fresh(h)
    ensures Agree(Run(h)) && Reflects(h, Run(h))
    decreases |h|
  {
    if h != [] {
      hide Step, Agree, Reflects, Fresh;
      var n := |h| - 1;
      var p, e := h[..n], h[n];
      assert h == p + [e];
      NoLaterOpening(p, e);
      MapsAgree(p);
      AgreeStep(p, e);
      match e
      case Opened(_, _, _, _) => ReflectsOpened(p, e);
      case Reported(_, _) => ReflectsReported(p, e);
      case Closed(_) => ReflectsClosed(p, e);
    }
  }

  lemma AgreeStep(h: seq<Event>, e: Event)
    requires Fresh(h + [e]) && Reflects(h, Run(h)) && Agree(Run(h))
    ensures Agree(Step(Run(h), e).0)
  {
    hide Agree, Reflects, Fresh, Finish, DropGeneration;
    match e
    case Opened(_, _, _, _) => AgreeOpen(h, e);
    case Reported(job, ok) => AgreeFinish(Run(h), job, ok);
    case Closed(generation) => AgreeDrop(Run(h), generation);
  }

  // ---------------------------------------------------------------------------
  // Verdicts.

  /** Event `k` makes the tracker give its verdict on the batch opened at `i`. */
  ghost predicate Judged(h: seq<Event>, i: nat, k: nat) {
    i < k < |h| && h[i].Opened? && h[k].Reported? && h[k].job in Ids(h[i].jobs) && Step(Run(h[..k]), h[k]).1.Some?
  }

  /** What the verdict on the batch opened at `i` has to be: if every job succeeded, all its
      paths in their order, for the pane it was opened for; otherwise how many did not. */
  ghost predicate Right(h: seq<Event>, i: nat, v: Verdict)
    requires i < |h| && h[i].Opened?
  {
    var failed, jobs := Failures(Firsts(h, i)), h[i].jobs;
    match v
    case Fill(generation, pane, paths) =>
      failed == {} && generation == h[i].generation && pane == h[i].pane &&
      |paths| == |jobs| && forall k :: 0 <= k < |jobs| ==> paths[k] == jobs[k].path
    case Abandoned(n) => failed != {} && n == |failed|
  }

  lemma FreshPrefix(h: seq<Event>, k: nat)
    requires Fresh(h) && k <= |h|
    ensures Fresh(h[..k])
  {
    var g := h[..k];
    forall i, j | 0 <= i < j < |g| && g[i].Opened? && g[j].Opened?
      ensures g[i].batch != g[j].batch && Ids(g[i].jobs) !! Ids(g[j].jobs)
    {
      assert h[i] == g[i] && h[j] == g[j];
    }
  }

  /** The verdict on a batch falls at the very report that completes it: its tab is still
      open, the job had not reported before, and with it every job has. The paths are
      filled in, in their original order, if and only if every first report was a
      success; otherwise the number of failed jobs is announced. */
  lemma VerdictExactly(h: seq<Event>, i: nat, k: nat)
    requires Fresh(h) && i < k < |h| && h[i].Opened? && h[k].Reported? && h[k].job in Ids(h[i].jobs)
    ensures Judged(h, i, k) <==> StillOpen(h[..k], i) && h[k].job !in Firsts(h[..k], i) && AllIn(h[..k + 1], i)
    ensures Judged(h, i, k) ==> Right(h[..k + 1], i, Step(Run(h[..k]), h[k]).1.value)
  {
    hide Run, Ids, Firsts, AllIn, TabClosed, Failures, StillOpen, Fresh, Agree;
    var p, e := h[..k], h[k];
    assert h[..k + 1] == p + [e] && p[i] == h[i];
    PathsInOrder(h[i].jobs);
    FreshPrefix(h, k);
    MapsAgree(p);
    assert EntryIs(p, Run(p), i);
    if e.job in Run(p).byJob {
      var o := Owner(p, e.job);
      assert o == i;
      OwnersEntry(p, e, i);
      if Judged(h, i, k) {
        assert |Failures(Firsts(p + [e], i))| == 0 <==> Failures(Firsts(p + [e], i)) == {};
      }
    } else if StillOpen(p, i) {
      HeldJobsAreKnown(p, i, e.job);
    }
  }

  lemma HeldJobsAreKnown(h: seq<Event>, i: nat, job: nat)
    requires i < |h| && h[i].Opened? && EntryIs(h, Run(h), i) && Agree(Run(h)) && StillOpen(h, i) && job in Ids(h[i].jobs)
    ensures job in Run(h).byJob
  {
    hide Run, Ids, Firsts, StillOpen;
    assert job in Ids(Run(h).batches[h[i].batch].jobs);
  }

  lemma {:induction false} ReportsAccumulate(h: seq<Event>, i: nat, j: nat)
    requires i < j <= |h| && h[i].Opened?
    ensures Firsts(h[..j], i).Keys <= Firsts(h, i).Keys
    ensures TabClosed(h[..j], i) ==> TabClosed(h, i)
    decreases |h|
  {
    if j < |h| {
      var n := |h| - 1;
      ReportsAccumulate(h[..n], i, j);
      assert h[..n][..j] == h[..j] && h[..n] + [h[n]] == h;
      TabClosedStep(h[..n], h[n], i);
    } else {
      assert h[..j] == h;
    }
  }

  /** One verdict per batch; none for an empty list of jobs, for one in which a job
      number occurs twice, or once the tab has been closed. */
  lemma OneVerdictPerBatch(h: seq<Event>, i: nat, k: nat, l: nat)
    requires Fresh(h) && Judged(h, i, k)
    ensures Judged(h, i, l) ==> k == l
    ensures h[i].jobs != [] && |Ids(h[i].jobs)| == |h[i].jobs|
    ensures !(exists c :: i < c < k && h[c] == Closed(h[i].generation))
  {
    hide Run, Ids, Firsts, Failures, Fresh, TabClosed;
    TabClosedBefore(h, i, k);
    VerdictExactly(h, i, k);
    if Judged(h, i, l) {
      VerdictExactly(h, i, l);
      if k < l {
        NotAfterAll(h, i, k, l);
      } else if l < k {
        NotAfterAll(h, i, l, k);
      }
    }
  }

  lemma TabClosedBefore(h: seq<Event>, i: nat, k: nat)
    requires i < k <= |h| && h[i].Opened?
    ensures TabClosed(h[..k], i) <==> exists c :: i < c < k && h[c] == Closed(h[i].generation)
  {
    var p := h[..k];
    if c :| i < c < k && h[c] == Closed(h[i].generation) {
      assert p[c] == h[c];
    }
  }

  lemma NotAfterAll(h: seq<Event>, i: nat, k: nat, l: nat)
    requires i < k < l < |h| && h[i].Opened? && AllIn(h[..k + 1], i)
    ensures h[l].Reported? && h[l].job in Ids(h[i].jobs) ==> h[l].job in Firsts(h[..l], i)
  {
    assert h[..l][..k + 1] == h[..k + 1];
    ReportsAccumulate(h[..l], i, k + 1);
  }

  /** And the verdict does come: a batch all of whose jobs have reported while its tab
      was open has been judged. */
  lemma {:induction false} CompleteMeansJudged(h: seq<Event>, i: nat) returns (k: nat)
    requires Fresh(h) && i < |h| && h[i].Opened? && AllIn(h, i) && !TabClosed(h, i)
    ensures Judged(h, i, k)
    decreases |h|
  {
    hide *;
    NothingInYet(h, i);
    var n := |h| - 1;
    var p := h[..n];
    FreshPrefix(h, n);
    ReportsAccumulate(h, i, n);
    assert p[i] == h[i];
    if AllIn(p, i) {
      k := CompleteMeansJudged(p, i);
      JudgedBefore(h, i, k);
    } else {
      k := n;
      assert h[..n + 1] == h;
      LastCompletes(h, i);
      VerdictExactly(h, i, n);
    }
  }

  lemma JudgedBefore(h: seq<Event>, i: nat, k: nat)
    requires i < |h| - 1 && Judged(h[..|h| - 1], i, k)
    ensures Judged(h, i, k)
  {
    hide Step, Run, Ids;
    var p := h[..|h| - 1];
    assert k < |p| by { assert Judged(p, i, k); }
    assert p[..k] == h[..k] && p[k] == h[k] && p[i] == h[i];
  }

  lemma LastCompletes(h: seq<Event>, i: nat)
    requires i < |h| - 1 && h[i].Opened? && AllIn(h, i) && !AllIn(h[..|h| - 1], i)
    requires !TabClosed(h, i)
    ensures var e, p := h[|h| - 1], h[..|h| - 1];
            e.Reported? && e.job in Ids(h[i].jobs) && e.job !in Firsts(p, i) && StillOpen(p, i)
  {
    hide Firsts, TabClosed, Ids;
    var e, p := h[|h| - 1], h[..|h| - 1];
    assert p + [e] == h;
    FirstsStep(p, e, i);
    TabClosedStep(p, e, i);
  }

  lemma NothingInYet(h: seq<Event>, i: nat)
    requires i < |h| && h[i].Opened?
    ensures |h| == i + 1 ==> !AllIn(h, i)
  {
    if |h| == i + 1 {
      NewlyOpened(h[..i], h[i]);
      assert h[..i] + [h[i]] == h;
    }
  }

  // ---------------------------------------------------------------------------
  // Sweeping: jobs that ended without ever reporting are counted as failures.

  /** Reporting failure for each job of a list in turn. */
  function FailAll(t: Tracker, order: seq<nat>): (Tracker, seq<Verdict>) {
    if order == [] then (t, [])
    else
      var r := FailAll(t, order[..|order| - 1]);
      var s := Finish(r.0, order[|order| - 1], false);
      (s.0, if s.1.Some? then r.1 + [s.1.value] else r.1)
  }

  function SetOf(s: seq<nat>): set<nat> { set j | j in s }

  function Waiting(b: Batch): set<nat> { Ids(b.jobs) - b.finished }

  /** Jobs to be swept: still awaited, and given up. */
  function Gone(t: Tracker, failed: nat -> bool): set<nat> {
    set b, j | b in t.batches && j in Waiting(t.batches[b]) && failed(j) :: j
  }

  /** A batch after the jobs in `gone` have failed, and whether that ends it. */
  function Worn(b: Batch, gone: set<nat>): Batch {
    var lost := Waiting(b) * gone;
    b.(finished := b.finished + lost, failed := b.failed + |lost|)
  }

  predicate Ended(b: Batch, gone: set<nat>) {
    Waiting(b) * gone != {} && |Worn(b, gone).finished| >= |b.jobs|
  }

  function EndedIn(t: Tracker, gone: set<nat>): set<nat> {
    set b | b in t.batches && Ended(t.batches[b], gone)
  }

  /** The tracker after the jobs in `gone` have failed, in no particular order. */
  function Swept(t: Tracker, gone: set<nat>): Tracker {
    var over := EndedIn(t, gone);
    Tracker(map b | b in t.batches && b !in over :: Worn(t.batches[b], gone), t.byJob - JobsOf(t.batches, over))
  }

  /** Batches that end with exactly `n` failures. */
  function EndedWith(t: Tracker, gone: set<nat>, n: nat): set<nat> {
    set b | b in t.batches && Ended(t.batches[b], gone) && Worn(t.batches[b], gone).failed == n
  }

  /** As `Agree`, and no batch is already complete. */
  ghost predicate Settled(t: Tracker) {
    Agree(t) && forall b :: b in t.batches ==> t.batches[b].finished <= Ids(t.batches[b].jobs)
  }

  /** A sweep ends a batch exactly when no two of its jobs share a number, some have not
      reported, and all of those are given up. */
  lemma SweepEndsIff(t: Tracker, b: nat, failed: nat -> bool)
    requires Settled(t) && b in t.batches
    ensures var jobs, finished := t.batches[b].jobs, t.batches[b].finished;
            Ended(t.batches[b], Gone(t, failed)) <==>
            |Ids(jobs)| == |jobs| &&
            (exists j :: j in jobs && j.id !in finished) && (forall j :: j in jobs && j.id !in finished ==> failed(j.id))
  {
    hide Agree;
    var batch, gone := t.batches[b], Gone(t, failed);
    var waiting, lost := Waiting(batch), Waiting(batch) * gone;
    forall j ensures j in lost <==> j in waiting && failed(j) {
    }
    IdsAtMost(batch.jobs);
    SubsetSize(batch.finished + lost, Ids(batch.jobs));
    if forall j :: j in waiting ==> failed(j) {
      assert batch.finished + lost == Ids(batch.jobs);
    }
    forall j | j in waiting ensures exists x :: x in batch.jobs && x.id == j {
    }
  }

  lemma WornByNothing(b: Batch)
    ensures Worn(b, {}) == b && !Ended(b, {})
  {
    assert Waiting(b) * {} == {};
    assert b.finished + {} == b.finished;
  }

  lemma SweptNothing(t: Tracker)
    ensures Swept(t, {}) == t
  {
    hide Worn, Ended, Waiting;
    forall b | b in t.batches ensures Worn(t.batches[b], {}) == t.batches[b] && !Ended(t.batches[b], {}) {
      WornByNothing(t.batches[b]);
    }
    assert EndedIn(t, {}) == {};
    assert JobsOf(t.batches, {}) == {};
    assert Swept(t, {}).batches == t.batches;
  }

  lemma WornByOneMore(b: Batch, gone: set<nat>, job: nat)
    requires job in Waiting(b) && job !in gone && b.finished <= Ids(b.jobs)
    ensures !Ended(b, gone) && job !in Worn(b, gone).finished
    ensures Worn(b, gone + {job}) == Counted(Worn(b, gone), job, false)
    ensures Ended(b, gone + {job}) <==> |Counted(Worn(b, gone), job, false).finished| >= |b.jobs|
  {
    hide Ids;
    var lost := Waiting(b) * gone;
    assert Waiting(b) * (gone + {job}) == lost + {job};
    assert b.finished + (lost + {job}) == b.finished + lost + {job};
    SubsetSize(b.finished + lost, Ids(b.jobs));
    IdsAtMost(b.jobs);
  }

  lemma WornElsewhere(b: Batch, gone: set<nat>, job: nat)
    requires job !in Waiting(b) || job in gone
    ensures Worn(b, gone + {job}) == Worn(b, gone)
    ensures Ended(b, gone + {job}) == Ended(b, gone)
  {
    assert Waiting(b) * (gone + {job}) == Waiting(b) * gone;
  }

  ghost predicate Awaited(t: Tracker, job: nat) {
    job in t.byJob && t.byJob[job] in t.batches && job in Waiting(t.batches[t.byJob[job]])
  }

  lemma OthersUnworn(t: Tracker, gone: set<nat>, job: nat)
    requires Settled(t) && Awaited(t, job)
    ensures forall b :: b in t.batches && b != t.byJob[job] ==>
              Worn(t.batches[b], gone + {job}) == Worn(t.batches[b], gone) &&
              Ended(t.batches[b], gone + {job}) == Ended(t.batches[b], gone)
  {
    hide Worn, Ended, Ids;
    forall b | b in t.batches && b != t.byJob[job]
      ensures Worn(t.batches[b], gone + {job}) == Worn(t.batches[b], gone) &&
              Ended(t.batches[b], gone + {job}) == Ended(t.batches[b], gone)
    {
      WornElsewhere(t.batches[b], gone, job);
    }
  }

  lemma JobsOfOneMore(t: Tracker, over: set<nat>, b: nat)
    requires b in t.batches
    ensures JobsOf(t.batches, over + {b}) == JobsOf(t.batches, over) + Ids(t.batches[b].jobs)
  {
    var more := JobsOf(t.batches, over + {b});
    forall j | j in Ids(t.batches[b].jobs) ensures j in more {
      assert b in over + {b};
    }
  }

  /** Failing one more job moves the swept tracker to the next swept tracker. */
  lemma SweptStep(t: Tracker, gone: set<nat>, job: nat)
    requires Settled(t) && Awaited(t, job) && job !in gone
    ensures var b := t.batches[t.byJob[job]];
            var r := Finish(Swept(t, gone), job, false);
            r.0 == Swept(t, gone + {job}) &&
            r.1 == (if Ended(b, gone + {job}) then Some(Abandoned(Worn(b, gone + {job}).failed)) else None)
  {
    hide Worn, Ended, Ids, JobsOf, Waiting, Agree;
    var bid, over, more := t.byJob[job], EndedIn(t, gone), gone + {job};
    var b := t.batches[bid];
    WornByOneMore(b, gone, job);
    OthersUnworn(t, gone, job);
    JobsOfThem(t, over, job);
    var s, u := Swept(t, gone), Swept(t, more);
    var r := Finish(s, job, false);
    WornKeeps(b, gone);
    assert s.batches[bid] == Worn(b, gone);
    if Ended(b, more) {
      assert EndedIn(t, more) == over + {bid};
      JobsOfOneMore(t, over, bid);
      assert r.0.batches == u.batches;
      assert r.0.byJob == u.byJob;
    } else {
      assert EndedIn(t, more) == over;
      assert r.0.batches == u.batches;
    }
  }

  lemma WornKeeps(b: Batch, gone: set<nat>)
    ensures Worn(b, gone).jobs == b.jobs
  {
  }

  /** Failing a job a second time changes nothing. */
  lemma SweptAgain(t: Tracker, gone: set<nat>, job: nat)
    requires Settled(t) && Awaited(t, job) && job in gone
    ensures Finish(Swept(t, gone), job, false) == (Swept(t, gone), None)
  {
    hide Ended, JobsOf;
    var bid := t.byJob[job];
    if bid in EndedIn(t, gone) {
      assert job in Ids(t.batches[bid].jobs);
      IdIsOfThem(t, EndedIn(t, gone), bid, job);
    } else {
      JobsOfThem(t, EndedIn(t, gone), job);
      assert job in Worn(t.batches[bid], gone).finished;
    }
  }

  ghost predicate Tallies(t: Tracker, gone: set<nat>, done: seq<Verdict>) {
    (forall v :: v in done ==> v.Abandoned?) &&
    (forall n: nat :: multiset(done)[Abandoned(n)] == |EndedWith(t, gone, n)|)
  }

  lemma TallyStep(t: Tracker, gone: set<nat>, job: nat, done: seq<Verdict>)
    requires Settled(t) && Awaited(t, job) && job !in gone && Tallies(t, gone, done)
    ensures var b := t.batches[t.byJob[job]];
            Tallies(t, gone + {job},
                    if Ended(b, gone + {job}) then done + [Abandoned(Worn(b, gone + {job}).failed)] else done)
  {
    hide Worn, Ended, Waiting, Agree, Ids;
    var bid, more := t.byJob[job], gone + {job};
    var b := t.batches[bid];
    WornByOneMore(b, gone, job);
    OthersUnworn(t, gone, job);
    var next := if Ended(b, more) then done + [Abandoned(Worn(b, more).failed)] else done;
    forall n: nat ensures multiset(next)[Abandoned(n)] == |EndedWith(t, more, n)| {
      if Ended(b, more) && Worn(b, more).failed == n {
        assert EndedWith(t, more, n) == EndedWith(t, gone, n) + {bid};
      } else {
        assert EndedWith(t, more, n) == EndedWith(t, gone, n);
      }
    }
  }

  lemma TallyAgain(t: Tracker, gone: set<nat>, job: nat, done: seq<Verdict>)
    requires job in gone && Tallies(t, gone, done)
    ensures Tallies(t, gone + {job}, done)
  {
    assert gone + {job} == gone;
  }

  /** Whatever order the hash table yields the jobs in, even with repetitions, a sweep
      leaves the same tracker and gives the same verdicts: every batch that lost its last
      awaited job is abandoned with its full count of failures, and nothing is filled. */
  lemma {:induction false} SweepIgnoresOrder(t: Tracker, order: seq<nat>)
    requires Settled(t) && forall j :: j in order ==> Awaited(t, j)
    ensures var gone := SetOf(order);
            FailAll(t, order).0 == Swept(t, gone) && Tallies(t, gone, FailAll(t, order).1)
    decreases |order|
  {
    hide Swept, Tallies, Settled, Awaited, Finish;
    if order == [] {
      SweptNothing(t);
      assert SetOf(order) == {};
      TallyNothing(t);
    } else {
      var n := |order| - 1;
      var rest, job := order[..n], order[n];
      SweepIgnoresOrder(t, rest);
      var gone := SetOf(rest);
      assert SetOf(order) == gone + {job} by {
        assert order == rest + [job];
      }
      if job in gone {
        SweptAgain(t, gone, job);
        TallyAgain(t, gone, job, FailAll(t, rest).1);
        assert gone + {job} == gone;
      } else {
        SweptStep(t, gone, job);
        TallyStep(t, gone, job, FailAll(t, rest).1);
      }
    }
  }

  lemma TallyNothing(t: Tracker)
    ensures Tallies(t, {}, [])
  {
    hide Worn, Ended, Waiting;
    forall b | b in t.batches ensures !Ended(t.batches[b], {}) {
      WornByNothing(t.batches[b]);
    }
    forall n: nat ensures EndedWith(t, {}, n) == {} {
    }
  }

  lemma GoneAreAwaited(t: Tracker, failed: nat -> bool)
    requires Settled(t)
    ensures forall j :: j in Gone(t, failed) ==> Awaited(t, j)
  {
    forall b, j | b in t.batches && j in Waiting(t.batches[b]) ensures Awaited(t, j) {
    }
  }

  lemma RegisteredOneMore(byJob: map<nat, nat>, jobs: seq<Job>, i: nat, batch: nat)
    requires i < |jobs|
    ensures Registered(byJob, jobs[..i + 1], batch) == Registered(byJob, jobs[..i], batch)[jobs[i].id := batch]
  {
    assert jobs[..i + 1] == jobs[..i] + [jobs[i]];
    assert Ids(jobs[..i + 1]) == Ids(jobs[..i]) + {jobs[i].id};
  }

  lemma RegisteredNone(byJob: map<nat, nat>, batch: nat)
    ensures Registered(byJob, [], batch) == byJob
  {
    assert Ids([]) == {};
  }

  lemma RunsAreSettled(h: seq<Event>)
    requires Fresh(h)
    ensures Settled(Run(h))
  {
    hide Run, Ids, Firsts, Failures, StillOpen, Fresh, Agree;
    MapsAgree(h);
    var t := Run(h);
    forall b | b in t.batches ensures t.batches[b].finished <= Ids(t.batches[b].jobs) {
      assert OpenedIn(h, b);
      var i :| 0 <= i < |h| && h[i].Opened? && h[i].batch == b;
      assert EntryIs(h, t, i);
      FirstsWithin(h, i);
    }
  }

  // ---------------------------------------------------------------------------

  class BatchTracker {
    var batches: map<nat, Batch>
    var byJob: map<nat, nat>

    ghost function View(): Tracker
      reads this
    {
      Tracker(batches, byJob)
    }

    constructor ()
      ensures View() == EMPTY
    {
      batches, byJob := map[], map[];
    }

    method OpenBatch(batch: nat, generation: nat, pane: nat, jobs: seq<Job>)
      modifies this
      ensures View() == Open(old(View()), batch, generation, pane, jobs)
    {
      hide Registered;
      assert Registered(byJob, jobs[..0], batch) == byJob by { RegisteredNone(byJob, batch); }
      for i := 0 to |jobs|
        invariant batches == old(batches)
        invariant byJob == Registered(old(byJob), jobs[..i], batch)
      {
        RegisteredOneMore(old(byJob), jobs, i, batch);
        byJob := byJob[jobs[i].id := batch];
      }
      assert jobs[..|jobs|] == jobs;
      batches := batches[batch := Batch(generation, pane, jobs, {}, 0)];
    }

    /** Forgets the jobs of a batch. */
    method Forget(jobs: seq<Job>)
      modifies this
      ensures batches == old(batches) && byJob == old(byJob) - Ids(jobs)
    {
      for i := 0 to |jobs|
        invariant batches == old(batches)
        invariant byJob == old(byJob) - Ids(jobs[..i])
      {
        assert jobs[..i + 1] == jobs[..i] + [jobs[i]];
        assert Ids(jobs[..i + 1]) == Ids(jobs[..i]) + {jobs[i].id};
        byJob := byJob - {jobs[i].id};
      }
      assert jobs[..|jobs|] == jobs;
    }

    method JobFinished(job: nat, ok: bool) returns (done: Option<Verdict>)
      modifies this
      ensures (View(), done) == Finish(old(View()), job, ok)
    {
      if job !in byJob {
        return None;
      }
      var bid := byJob[job];
      if bid !in batches {
        return None;
      }
      var b := batches[bid];
      if job in b.finished {
        return None;
      }
      b := b.(finished := b.finished + {job});
      if !ok {
        b := b.(failed := b.failed + 1);
      }
      batches := batches[bid := b];
      if |b.finished| < |b.jobs| {
        return None;
      }
      batches := batches - {bid};
      assert batches == old(batches) - {bid};
      Forget(b.jobs);
      if b.failed == 0 {
        var paths: seq<string> := [];
        for i := 0 to |b.jobs|
          invariant paths == Paths(b.jobs[..i])
        {
          assert b.jobs[..i + 1][..i] == b.jobs[..i];
          paths := paths + [b.jobs[i].path];
        }
        assert b.jobs[..|b.jobs|] == b.jobs;
        done := Some(Fill(b.generation, b.pane, paths));
      } else {
        done := Some(Abandoned(b.failed));
      }
    }

    /** The awaited jobs that were given up, in the order the hash table yields them. */
    method Abandonable(failed: nat -> bool) returns (gone: seq<nat>)
      ensures SetOf(gone) == Gone(View(), failed)
    {
      gone := [];
      var rest := batches.Keys;
      while rest != {}
        invariant rest <= batches.Keys
        invariant forall j :: j in gone <==> exists b :: b in batches.Keys - rest && j in Waiting(batches[b]) && failed(j)
        decreases rest
      {
        var bid :| bid in rest;
        var b := batches[bid];
        ghost var before := gone;
        for i := 0 to |b.jobs|
          invariant forall j :: j in gone <==>
                      j in before || (j in Ids(b.jobs[..i]) && j !in b.finished && failed(j))
        {
          assert b.jobs[..i + 1] == b.jobs[..i] + [b.jobs[i]];
          assert Ids(b.jobs[..i + 1]) == Ids(b.jobs[..i]) + {b.jobs[i].id};
          if b.jobs[i].id !in b.finished && failed(b.jobs[i].id) {
            gone := gone + [b.jobs[i].id];
          }
        }
        assert b.jobs[..|b.jobs|] == b.jobs;
        rest := rest - {bid};
      }
    }

    /** On every tracker a run can reach, the order makes no difference. */
    method Sweep(failed: nat -> bool) returns (done: seq<Verdict>, ghost order: seq<nat>)
      modifies this
      ensures SetOf(order) == Gone(old(View()), failed) && (View(), done) == FailAll(old(View()), order)
      ensures Settled(old(View())) ==>
                View() == Swept(old(View()), SetOf(order)) && Tallies(old(View()), SetOf(order), done)
    {
      ghost var t := View();
      var gone := Abandonable(failed);
      order := gone;
      done := [];
      for i := 0 to |gone|
        invariant (View(), done) == FailAll(t, gone[..i])
      {
        assert gone[..i + 1][..i] == gone[..i];
        var one := JobFinished(gone[i], false);
        if one.Some? {
          done := done + [one.value];
        }
      }
      assert gone[..|gone|] == gone;
      if Settled(t) {
        GoneAreAwaited(t, failed);
        SweepIgnoresOrder(t, gone);
      }
    }

    method DropTab(generation: nat)
      modifies this
      ensures View() == DropGeneration(old(View()), generation)
    {
      var dead := set b | b in batches && batches[b].generation == generation;
      ghost var gone: set<nat> := {};
      while dead != {}
        invariant dead <= Dead(old(View()), generation) && gone == Dead(old(View()), generation) - dead
        invariant batches == old(batches) - gone
        invariant byJob == old(byJob) - JobsOf(old(batches), gone)
        decreases dead
      {
        var k :| k in dead;
        var b := batches[k];
        batches := batches - {k};
        assert batches == old(batches) - (gone + {k});
        JobsOfOneMore(old(View()), gone, k);
        Forget(b.jobs);
        dead, gone := dead - {k}, gone + {k};
      }
      assert gone == Dead(old(View()), generation);
    }
  }
}
