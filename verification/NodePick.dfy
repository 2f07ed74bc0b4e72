/** Which machine a project is opened on: the order in which its nodes are tried, the
    probing of all but the last of them, and the cache that lets several projects
    share a probe while their panes are being restored. */
module NodePicks {
  import opened Bytes

  // ---------------------------------------------------------------------------
  // The order of the candidates.

  function Filter(s: seq<nat>, p: nat -> bool): seq<nat> {
    if s == [] then [] else Filter(s[..|s| - 1], p) + (if p(s[|s| - 1]) then [s[|s| - 1]] else [])
  }

  function Other(p: nat): nat -> bool { (x: nat) => x != p }

  function Direct(routed: nat -> bool): nat -> bool { (x: nat) => !routed(x) }

  /** The preferred node counts only while it is among the project's nodes. */
  function Effective(nodes: seq<nat>, preferred: Option<nat>): Option<nat> {
    if preferred.Some? && preferred.value in nodes then preferred else None
  }

  /** Inserts an element behind all that do not rank after it. */
  function Insert(s: seq<nat>, x: nat, routed: nat -> bool): seq<nat> {
    if s != [] && routed(s[|s| - 1]) && !routed(x) then Insert(s[..|s| - 1], x, routed) + [s[|s| - 1]]
    else s + [x]
  }

  /** Stable sort by "is reached through a jump host or proxy". */
  function SortByRoute(s: seq<nat>, routed: nat -> bool): seq<nat> {
    if s == [] then [] else Insert(SortByRoute(s[..|s| - 1], routed), s[|s| - 1], routed)
  }

  function PreferredFirst(nodes: seq<nat>, preferred: Option<nat>): seq<nat> {
    match Effective(nodes, preferred)
    case None => nodes
    case Some(p) => [p] + Filter(nodes, Other(p))
  }

  function Candidates(nodes: seq<nat>, preferred: Option<nat>, routed: nat -> bool): seq<nat> {
    SortByRoute(PreferredFirst(nodes, preferred), routed)
  }

  lemma {:induction false} FilterAppend(s: seq<nat>, t: seq<nat>, p: nat -> bool)
    ensures Filter(s + t, p) == Filter(s, p) + Filter(t, p)
    decreases |t|
  {
    if t == [] {
      assert s + t == s;
    } else {
      FilterAppend(s, t[..|t| - 1], p);
      assert (s + t)[..|s + t| - 1] == s + t[..|t| - 1];
    }
  }

  lemma {:induction false} FilterMembers(s: seq<nat>, p: nat -> bool)
    ensures forall x :: x in Filter(s, p) <==> x in s && p(x)
    decreases |s|
  {
    if s != [] {
      var n := |s| - 1;
      FilterMembers(s[..n], p);
      assert s == s[..n] + [s[n]];
    }
  }

  lemma {:induction false} InsertSplits(s: seq<nat>, t: seq<nat>, x: nat, routed: nat -> bool)
    requires forall y :: y in s ==> !routed(y)
    requires forall y :: y in t ==> routed(y)
    ensures Insert(s + t, x, routed) == if routed(x) then s + t + [x] else s + [x] + t
    decreases |t|
  {
    if t == [] {
      assert s + t == s;
      assert s != [] ==> s[|s| - 1] in s;
    } else {
      assert t[|t| - 1] in t;
      if !routed(x) {
        InsertSplits(s, t[..|t| - 1], x, routed);
        assert (s + t)[..|s + t| - 1] == s + t[..|t| - 1];
      }
    }
  }

  /** Sorting puts the direct nodes first and keeps the order within both classes. */
  lemma {:induction false} SortIsTwoFilters(s: seq<nat>, routed: nat -> bool)
    ensures SortByRoute(s, routed) == Filter(s, Direct(routed)) + Filter(s, routed)
    decreases |s|
  {
    if s != [] {
      hide Insert, Filter;
      var n := |s| - 1;
      var d, r := Filter(s[..n], Direct(routed)), Filter(s[..n], routed);
      SortIsTwoFilters(s[..n], routed);
      FilterMembers(s[..n], routed);
      FilterMembers(s[..n], Direct(routed));
      InsertSplits(d, r, s[n], routed);
      FilterLast(s, routed);
      FilterLast(s, Direct(routed));
      if routed(s[n]) {
        assert d + r + [s[n]] == d + (r + [s[n]]);
        assert d + [] == d;
      } else {
        assert r + [] == r;
      }
    }
  }

  lemma FilterLast(s: seq<nat>, p: nat -> bool)
    requires s != []
    ensures Filter(s, p) == Filter(s[..|s| - 1], p) + (if p(s[|s| - 1]) then [s[|s| - 1]] else [])
  {
  }

  /** The candidates are the direct nodes, then the rest; within its class the preferred
      node comes first and the others keep the order of the project's list. */
  lemma CandidatesOrder(nodes: seq<nat>, preferred: Option<nat>, routed: nat -> bool)
    ensures var e := Effective(nodes, preferred);
            var direct, rest := Filter(nodes, Direct(routed)), Filter(nodes, routed);
            Candidates(nodes, preferred, routed) ==
              if e.None? then direct + rest
              else if routed(e.value) then direct + [e.value] + Filter(rest, Other(e.value))
              else [e.value] + Filter(direct, Other(e.value)) + rest
  {
    SortIsTwoFilters(PreferredFirst(nodes, preferred), routed);
    if Effective(nodes, preferred).Some? {
      OneClass(nodes, preferred.value, routed);
      OneClass(nodes, preferred.value, Direct(routed));
    }
  }

  lemma OneClass(nodes: seq<nat>, p: nat, kind: nat -> bool)
    ensures Filter([p] + Filter(nodes, Other(p)), kind) ==
            if kind(p) then [p] + Filter(Filter(nodes, kind), Other(p)) else Filter(nodes, kind)
  {
    FilterAppend([p], Filter(nodes, Other(p)), kind);
    FiltersCommute(nodes, Other(p), kind);
    assert Filter([p], kind) == if kind(p) then [p] else [] by {
      assert [p][..0] == [];
    }
    if !kind(p) {
      FilterMembers(nodes, kind);
      FilterAll(Filter(nodes, kind), p);
    }
  }

  lemma {:induction false} FiltersCommute(s: seq<nat>, p: nat -> bool, q: nat -> bool)
    ensures Filter(Filter(s, p), q) == Filter(Filter(s, q), p)
    decreases |s|
  {
    if s != [] {
      var n := |s| - 1;
      FiltersCommute(s[..n], p, q);
      FilterAppend(Filter(s[..n], p), if p(s[n]) then [s[n]] else [], q);
      FilterAppend(Filter(s[..n], q), if q(s[n]) then [s[n]] else [], p);
    }
  }

  lemma {:induction false} FilterAll(s: seq<nat>, p: nat)
    requires p !in s
    ensures Filter(s, Other(p)) == s
    decreases |s|
  {
    if s != [] {
      var n := |s| - 1;
      assert s == s[..n] + [s[n]];
      FilterAll(s[..n], p);
    }
  }

  lemma {:induction false} FilterCounts(s: seq<nat>, p: nat -> bool, x: nat)
    ensures multiset(Filter(s, p))[x] == if p(x) then multiset(s)[x] else 0
    decreases |s|
  {
    if s != [] {
      var n := |s| - 1;
      assert s == s[..n] + [s[n]];
      FilterCounts(s[..n], p, x);
    }
  }

  /** No node is lost and none is added: the candidates are a permutation of the nodes if
      and only if the preferred node is not listed twice; further mentions are dropped. */
  lemma CandidatesPermute(nodes: seq<nat>, preferred: Option<nat>, routed: nat -> bool)
    ensures var e := Effective(nodes, preferred);
            multiset(Candidates(nodes, preferred, routed)) ==
              if e.None? then multiset(nodes) else multiset(nodes)[e.value := 1]
    ensures multiset(Candidates(nodes, preferred, routed)) == multiset(nodes) <==>
              preferred.None? || multiset(nodes)[preferred.value] <= 1
  {
    var e := Effective(nodes, preferred);
    var want: multiset<nat> := if e.None? then multiset(nodes) else multiset(nodes)[e.value := 1];
    var got: multiset<nat> := multiset(Candidates(nodes, preferred, routed));
    forall x: nat ensures got[x] == want[x] {
      CandidateCount(nodes, preferred, routed, x);
    }
    assert got == want;
    if e.Some? && multiset(nodes)[e.value] > 1 {
      assert want[e.value] == 1;
    }
  }

  lemma CandidateCount(nodes: seq<nat>, preferred: Option<nat>, routed: nat -> bool, x: nat)
    ensures multiset(Candidates(nodes, preferred, routed))[x] ==
            if Effective(nodes, preferred) == Some(x) then 1 else multiset(nodes)[x]
  {
    hide Filter, SortByRoute;
    var s := PreferredFirst(nodes, preferred);
    SortIsTwoFilters(s, routed);
    FilterCounts(s, routed, x);
    FilterCounts(s, Direct(routed), x);
    if Effective(nodes, preferred).Some? {
      FilterCounts(nodes, Other(preferred.value), x);
    }
  }

  // ---------------------------------------------------------------------------
  // Probing.

  datatype Reply = Reachable | Refused(why: string)

  /** How to dial a candidate's first hop, under the key that hop goes by. */
  datatype Plan<Q> = Dial(key: string, q: Q) | Broken(why: string)

  datatype Cand<Q> = Cand(id: nat, name: string, plan: Plan<Q>)

  datatype Picked = Picked(node: nat, skipped: seq<string>)

  function Note(name: string, why: string): string { name + "(" + why + ")" }

  /** What the plain loop learns about a candidate. */
  function Answer<Q>(c: Cand<Q>, probe: Q -> Reply): Reply {
    match c.plan
    case Dial(_, q) => probe(q)
    case Broken(why) => Refused(why)
  }

  /** The plain loop, from candidate `i` on; the last candidate is only fallen back on. */
  function PickFrom<Q>(cands: seq<Cand<Q>>, probe: Q -> Reply, i: nat, skipped: seq<string>): Picked
    requires i < |cands|
    decreases |cands| - i
  {
    if i == |cands| - 1 then Picked(cands[i].id, skipped)
    else
      match Answer(cands[i], probe)
      case Reachable => Picked(cands[i].id, skipped)
      case Refused(why) => PickFrom(cands, probe, i + 1, skipped + [Note(cands[i].name, why)])
  }

  function Pick<Q>(cands: seq<Cand<Q>>, probe: Q -> Reply): Picked
    requires cands != []
  {
    PickFrom(cands, probe, 0, [])
  }

  lemma {:induction false} PickFromFinds<Q>(cands: seq<Cand<Q>>, probe: Q -> Reply, i: nat, skipped: seq<string>) returns (j: nat)
    requires i < |cands|
    ensures i <= j < |cands| && PickFrom(cands, probe, i, skipped).node == cands[j].id
    ensures j < |cands| - 1 ==> Answer(cands[j], probe) == Reachable
    ensures forall k :: i <= k < j ==> Answer(cands[k], probe).Refused?
    ensures |PickFrom(cands, probe, i, skipped).skipped| == |skipped| + (j - i)
    ensures forall k :: 0 <= k < |skipped| ==> PickFrom(cands, probe, i, skipped).skipped[k] == skipped[k]
    ensures forall k :: i <= k < j ==>
              PickFrom(cands, probe, i, skipped).skipped[|skipped| + (k - i)] == Note(cands[k].name, Answer(cands[k], probe).why)
    decreases |cands| - i
  {
    if i == |cands| - 1 || Answer(cands[i], probe).Reachable? {
      j := i;
    } else {
      j := PickFromFinds(cands, probe, i + 1, skipped + [Note(cands[i].name, Answer(cands[i], probe).why)]);
    }
  }

  /** The candidate is passed over, with its name and the reason: its first hop refused, or
      it cannot be dialled. */
  ghost predicate PassedOver<Q>(c: Cand<Q>, probe: Q -> Reply, note: string) {
    match c.plan
    case Dial(_, q) => probe(q).Refused? && note == c.name + "(" + probe(q).why + ")"
    case Broken(why) => note == c.name + "(" + why + ")"
  }

  /** The node picked is the first one reachable, or the last candidate when none of the
      others is; every candidate before it is listed, in order, with its reason. */
  lemma PickIsFirstReachable<Q>(cands: seq<Cand<Q>>, probe: Q -> Reply) returns (j: nat)
    requires cands != []
    ensures j < |cands| && Pick(cands, probe).node == cands[j].id
    ensures j < |cands| - 1 ==> cands[j].plan.Dial? && probe(cands[j].plan.q) == Reachable
    ensures |Pick(cands, probe).skipped| == j
    ensures forall k :: 0 <= k < j ==> PassedOver(cands[k], probe, Pick(cands, probe).skipped[k])
  {
    j := PickFromFinds(cands, probe, 0, []);
  }

  method PickNode<Q>(cands: seq<Cand<Q>>, last: nat, probe: Q -> Reply) returns (p: Picked)
    ensures p == Pick(cands + [Cand(last, "", Broken(""))], probe)
  {
    ghost var all := cands + [Cand(last, "", Broken(""))];
    var skipped := [];
    for i := 0 to |cands|
      invariant Pick(all, probe) == PickFrom(all, probe, i, skipped)
    {
      var r: Reply;
      match cands[i].plan {
        case Dial(_, q) => r := probe(q);
        case Broken(why) => r := Refused(why);
      }
      match r {
        case Reachable => return Picked(cands[i].id, skipped);
        case Refused(why) => skipped := skipped + [Note(cands[i].name, why)];
      }
    }
    p := Picked(last, skipped);
  }

  // ---------------------------------------------------------------------------
  // Restoring: one probe per first hop for all projects together.

  datatype Group<Q> = Group(project: nat, cands: seq<Cand<Q>>)

  datatype Restored = Restored(project: nat, pick: Picked)

  /** Candidate `cand` of group `group` was probed. */
  datatype Probed = Probed(group: nat, cand: nat)

  datatype Memo = Memo(cache: map<string, Reply>, log: seq<Probed>)

  function Ask<Q>(c: Cand<Q>, at: Probed, m: Memo, probe: Q -> Reply): (Memo, Reply) {
    match c.plan
    case Broken(why) => (m, Refused(why))
    case Dial(key, q) =>
      if key in m.cache then (m, m.cache[key])
      else (Memo(m.cache[key := probe(q)], m.log + [at]), probe(q))
  }

  function MemoFrom<Q>(cands: seq<Cand<Q>>, g: nat, probe: Q -> Reply, i: nat, skipped: seq<string>, m: Memo): (Memo, Picked)
    requires i < |cands|
    decreases |cands| - i
  {
    if i == |cands| - 1 then (m, Picked(cands[i].id, skipped))
    else
      var r := Ask(cands[i], Probed(g, i), m, probe);
      match r.1
      case Reachable => (r.0, Picked(cands[i].id, skipped))
      case Refused(why) => MemoFrom(cands, g, probe, i + 1, skipped + [Note(cands[i].name, why)], r.0)
  }

  /** The groups from `g` on; a group without candidates has no result. */
  function RestoreFrom<Q>(groups: seq<Group<Q>>, probe: Q -> Reply, g: nat, out: seq<Restored>, m: Memo): (Memo, seq<Restored>)
    requires g <= |groups|
    decreases |groups| - g
  {
    if g == |groups| then (m, out)
    else if groups[g].cands == [] then RestoreFrom(groups, probe, g + 1, out, m)
    else
      var r := MemoFrom(groups[g].cands, g, probe, 0, [], m);
      RestoreFrom(groups, probe, g + 1, out + [Restored(groups[g].project, r.1)], r.0)
  }

  const BLANK: Memo := Memo(map[], [])

  function Restore<Q>(groups: seq<Group<Q>>, probe: Q -> Reply): (Memo, seq<Restored>) {
    RestoreFrom(groups, probe, 0, [], BLANK)
  }

  /** The same without any sharing. */
  function Plain<Q>(groups: seq<Group<Q>>, probe: Q -> Reply): seq<Restored> {
    if groups == [] then []
    else
      var g := groups[|groups| - 1];
      Plain(groups[..|groups| - 1], probe) + (if g.cands == [] then [] else [Restored(g.project, Pick(g.cands, probe))])
  }

  /** Every dialling plan goes by the key of its first hop. */
  ghost predicate Keyed<Q>(groups: seq<Group<Q>>, keyOf: Q -> string) {
    forall g, i :: 0 <= g < |groups| && 0 <= i < |groups[g].cands| && groups[g].cands[i].plan.Dial? ==>
      groups[g].cands[i].plan.key == keyOf(groups[g].cands[i].plan.q)
  }

  ghost predicate KeyDecides<Q(!new)>(keyOf: Q -> string, probe: Q -> Reply) {
    forall p, q :: keyOf(p) == keyOf(q) ==> probe(p) == probe(q)
  }

  ghost predicate CacheRight<Q(!new)>(m: Memo, keyOf: Q -> string, probe: Q -> Reply) {
    forall q :: keyOf(q) in m.cache ==> m.cache[keyOf(q)] == probe(q)
  }

  predicate CandKeyed<Q>(c: Cand<Q>, keyOf: Q -> string) {
    c.plan.Dial? ==> c.plan.key == keyOf(c.plan.q)
  }

  lemma AskIsAnswer<Q(!new)>(c: Cand<Q>, at: Probed, m: Memo, keyOf: Q -> string, probe: Q -> Reply)
    requires CandKeyed(c, keyOf) && KeyDecides(keyOf, probe) && CacheRight(m, keyOf, probe)
    ensures Ask(c, at, m, probe).1 == Answer(c, probe) && CacheRight(Ask(c, at, m, probe).0, keyOf, probe)
  {
  }

  lemma {:induction false} MemoPickIsPlain<Q(!new)>(cands: seq<Cand<Q>>, g: nat, keyOf: Q -> string, probe: Q -> Reply, i: nat,
                                              skipped: seq<string>, m: Memo)
    requires i < |cands| && KeyDecides(keyOf, probe) && CacheRight(m, keyOf, probe)
    requires forall k :: 0 <= k < |cands| ==> CandKeyed(cands[k], keyOf)
    ensures MemoFrom(cands, g, probe, i, skipped, m).1 == PickFrom(cands, probe, i, skipped)
    ensures CacheRight(MemoFrom(cands, g, probe, i, skipped, m).0, keyOf, probe)
    decreases |cands| - i
  {
    hide CacheRight, KeyDecides, Ask, Answer, CandKeyed;
    if i < |cands| - 1 {
      AskIsAnswer(cands[i], Probed(g, i), m, keyOf, probe);
      var r := Ask(cands[i], Probed(g, i), m, probe);
      if r.1.Refused? {
        MemoPickIsPlain(cands, g, keyOf, probe, i + 1, skipped + [Note(cands[i].name, r.1.why)], r.0);
      }
    }
  }

  lemma {:induction false} RestoreFromIsPlain<Q(!new)>(groups: seq<Group<Q>>, keyOf: Q -> string, probe: Q -> Reply, g: nat, m: Memo)
    requires g <= |groups| && Keyed(groups, keyOf) && KeyDecides(keyOf, probe) && CacheRight(m, keyOf, probe)
    ensures RestoreFrom(groups, probe, g, Plain(groups[..g], probe), m).1 == Plain(groups, probe)
    decreases |groups| - g
  {
    hide CacheRight, KeyDecides, MemoFrom, PickFrom;
    if g == |groups| {
      assert groups[..g] == groups;
    } else {
      assert groups[..g + 1][..g] == groups[..g];
      if groups[g].cands == [] {
        RestoreFromIsPlain(groups, keyOf, probe, g + 1, m);
        assert Plain(groups[..g + 1], probe) == Plain(groups[..g], probe);
      } else {
        MemoPickIsPlain(groups[g].cands, g, keyOf, probe, 0, [], m);
        RestoreFromIsPlain(groups, keyOf, probe, g + 1, MemoFrom(groups[g].cands, g, probe, 0, [], m).0);
      }
    }
  }

  /** When two first hops of the same key answer differently, sharing shows. */
  lemma DifferentAnswersShow<Q(!new)>(keyOf: Q -> string, probe: Q -> Reply, p: Q, q: Q) returns (groups: seq<Group<Q>>)
    requires keyOf(p) == keyOf(q) && probe(p) != probe(q)
    ensures Keyed(groups, keyOf) && Restore(groups, probe).1 != Plain(groups, probe)
  {
    var a := Group(0, [Cand(0, "", Dial(keyOf(p), p)), Cand(1, "", Broken(""))]);
    var b := Group(1, [Cand(0, "", Dial(keyOf(q), q)), Cand(1, "", Broken(""))]);
    groups := [a, b];
    TwoCandidates(0, keyOf(p), p, probe, BLANK);
    var m := MemoFrom(a.cands, 0, probe, 0, [], BLANK);
    var n := MemoFrom(b.cands, 1, probe, 0, [], m.0);
    assert keyOf(p) in m.0.cache && m.0.cache[keyOf(p)] == probe(p);
    SecondPick(keyOf(q), q, probe, m.0);
    TwoGroups(a, b, probe);
  }

  lemma TwoGroups<Q>(a: Group<Q>, b: Group<Q>, probe: Q -> Reply)
    requires a.cands != [] && b.cands != []
    ensures var m := MemoFrom(a.cands, 0, probe, 0, [], BLANK);
            Restore([a, b], probe).1 ==
              [Restored(a.project, m.1), Restored(b.project, MemoFrom(b.cands, 1, probe, 0, [], m.0).1)]
    ensures Plain([a, b], probe) == [Restored(a.project, Pick(a.cands, probe)), Restored(b.project, Pick(b.cands, probe))]
  {
    hide MemoFrom, Pick;
    var groups := [a, b];
    var m := MemoFrom(a.cands, 0, probe, 0, [], BLANK);
    var n := MemoFrom(b.cands, 1, probe, 0, [], m.0);
    assert RestoreFrom(groups, probe, 2, [Restored(a.project, m.1), Restored(b.project, n.1)], n.0).1 ==
           [Restored(a.project, m.1), Restored(b.project, n.1)];
    assert RestoreFrom(groups, probe, 1, [Restored(a.project, m.1)], m.0).1 ==
           [Restored(a.project, m.1), Restored(b.project, n.1)];
    assert [] + [Restored(a.project, m.1)] == [Restored(a.project, m.1)];
    assert groups[..1] == [a] && [a][..0] == [];
    assert Plain([a], probe) == [Restored(a.project, Pick(a.cands, probe))];
  }

  /** The cached loop on one candidate to probe and one to fall back on. */
  lemma TwoCandidates<Q>(g: nat, key: string, q: Q, probe: Q -> Reply, m: Memo)
    ensures var cands := [Cand(0, "", Dial(key, q)), Cand(1, "", Broken(""))];
            var r := Ask(cands[0], Probed(g, 0), m, probe);
            MemoFrom(cands, g, probe, 0, [], m) ==
              (r.0, if r.1.Reachable? then Picked(0, []) else Picked(1, [Note("", r.1.why)])) &&
            Pick(cands, probe) == if probe(q).Reachable? then Picked(0, []) else Picked(1, [Note("", probe(q).why)])
  {
    hide Ask, Note;
    var cands := [Cand(0, "", Dial(key, q)), Cand(1, "", Broken(""))];
    var r := Ask(cands[0], Probed(g, 0), m, probe);
    assert forall w: string :: [] + [w] == [w];
    if r.1.Refused? {
      assert MemoFrom(cands, g, probe, 1, [Note("", r.1.why)], r.0) == (r.0, Picked(1, [Note("", r.1.why)]));
    }
    if probe(q).Refused? {
      assert PickFrom(cands, probe, 1, [Note("", probe(q).why)]) == Picked(1, [Note("", probe(q).why)]);
    }
  }

  lemma SecondPick<Q>(key: string, q: Q, probe: Q -> Reply, m: Memo)
    requires key in m.cache && m.cache[key] != probe(q)
    ensures var cands := [Cand(0, "", Dial(key, q)), Cand(1, "", Broken(""))];
            MemoFrom(cands, 1, probe, 0, [], m).1 != Pick(cands, probe)
  {
    hide MemoFrom, Pick, Note;
    TwoCandidates(1, key, q, probe, m);
    var r, s := m.cache[key], probe(q);
    if r.Refused? && s.Refused? {
      NotesDiffer("", r.why, s.why);
      assert [Note("", r.why)][0] != [Note("", s.why)][0];
    }
  }

  lemma NotesDiffer(name: string, a: string, b: string)
    requires a != b
    ensures Note(name, a) != Note(name, b)
  {
    var x, y, n := Note(name, a), Note(name, b), |name| + 1;
    assert x[n..|x| - 1] == a;
    assert y[n..|y| - 1] == b;
  }

  /** Sharing probes between projects is invisible, whatever the projects, if and only if
      a first hop's key decides whether and how it answers. */
  lemma SharingIsInvisibleIff<Q(!new)>(keyOf: Q -> string, probe: Q -> Reply)
    ensures KeyDecides(keyOf, probe) <==>
            forall groups: seq<Group<Q>> :: Keyed(groups, keyOf) ==> Restore(groups, probe).1 == Plain(groups, probe)
  {
    if KeyDecides(keyOf, probe) {
      forall groups: seq<Group<Q>> | Keyed(groups, keyOf) ensures Restore(groups, probe).1 == Plain(groups, probe) {
        assert groups[..0] == [];
        RestoreFromIsPlain(groups, keyOf, probe, 0, BLANK);
      }
    } else {
      var p, q :| keyOf(p) == keyOf(q) && probe(p) != probe(q);
      var groups := DifferentAnswersShow(keyOf, probe, p, q);
    }
  }

  // ---------------------------------------------------------------------------
  // How much is probed.

  ghost predicate Candidate<Q>(groups: seq<Group<Q>>, e: Probed) {
    e.group < |groups| && e.cand < |groups[e.group].cands| - 1 && groups[e.group].cands[e.cand].plan.Dial?
  }

  function KeyAt<Q>(groups: seq<Group<Q>>, e: Probed): string
    requires Candidate(groups, e)
  {
    groups[e.group].cands[e.cand].plan.key
  }

  /** The log names candidates that are not their group's last, no two under one key,
      and the cache holds exactly the keys asked for. */
  ghost predicate Thrifty<Q>(groups: seq<Group<Q>>, m: Memo) {
    (forall e :: e in m.log ==> Candidate(groups, e) && KeyAt(groups, e) in m.cache) &&
    (forall a, b :: 0 <= a < b < |m.log| ==> KeyAt(groups, m.log[a]) != KeyAt(groups, m.log[b]))
  }

  lemma AskIsThrifty<Q>(groups: seq<Group<Q>>, g: nat, i: nat, m: Memo, probe: Q -> Reply)
    requires Thrifty(groups, m) && g < |groups| && i < |groups[g].cands| - 1
    ensures Thrifty(groups, Ask(groups[g].cands[i], Probed(g, i), m, probe).0)
  {
    var e := Probed(g, i);
    var n := Ask(groups[g].cands[i], e, m, probe).0;
    if n != m {
      assert Candidate(groups, e);
      forall x | x in n.log ensures Candidate(groups, x) && KeyAt(groups, x) in n.cache {
        assert x in m.log || x == e;
      }
      forall a, b | 0 <= a < b < |n.log| ensures KeyAt(groups, n.log[a]) != KeyAt(groups, n.log[b]) {
        assert n.log[a] == m.log[a] && m.log[a] in m.log;
        if b < |m.log| {
          assert n.log[b] == m.log[b];
        }
      }
    }
  }

  lemma {:induction false} PickIsThrifty<Q>(groups: seq<Group<Q>>, g: nat, probe: Q -> Reply, i: nat, skipped: seq<string>, m: Memo)
    requires Thrifty(groups, m) && g < |groups| && i < |groups[g].cands|
    ensures Thrifty(groups, MemoFrom(groups[g].cands, g, probe, i, skipped, m).0)
    decreases |groups[g].cands| - i
  {
    hide Thrifty, Ask;
    var cands := groups[g].cands;
    if i < |cands| - 1 {
      AskIsThrifty(groups, g, i, m, probe);
      var r := Ask(cands[i], Probed(g, i), m, probe);
      if r.1.Refused? {
        PickIsThrifty(groups, g, probe, i + 1, skipped + [Note(cands[i].name, r.1.why)], r.0);
      }
    }
  }

  lemma {:induction false} RestoreFromIsThrifty<Q>(groups: seq<Group<Q>>, probe: Q -> Reply, g: nat, out: seq<Restored>, m: Memo)
    requires g <= |groups| && Thrifty(groups, m)
    ensures Thrifty(groups, RestoreFrom(groups, probe, g, out, m).0)
    decreases |groups| - g
  {
    hide Thrifty, MemoFrom;
    if g < |groups| {
      if groups[g].cands == [] {
        RestoreFromIsThrifty(groups, probe, g + 1, out, m);
      } else {
        PickIsThrifty(groups, g, probe, 0, [], m);
        var r := MemoFrom(groups[g].cands, g, probe, 0, [], m);
        RestoreFromIsThrifty(groups, probe, g + 1, out + [Restored(groups[g].project, r.1)], r.0);
      }
    }
  }

  /** A restore probes each first hop at most once, and none on behalf of a group's last
      candidate or of one whose plan is broken. */
  lemma EachHopProbedOnce<Q>(groups: seq<Group<Q>>, probe: Q -> Reply)
    ensures var log := Restore(groups, probe).0.log;
            (forall e :: e in log ==> Candidate(groups, e)) &&
            (forall a, b :: 0 <= a < b < |log| ==> KeyAt(groups, log[a]) != KeyAt(groups, log[b]))
  {
    RestoreFromIsThrifty(groups, probe, 0, [], BLANK);
  }

  method PickForRestore<Q>(groups: seq<Group<Q>>, probe: Q -> Reply) returns (out: seq<Restored>, ghost log: seq<Probed>)
    ensures out == Restore(groups, probe).1 && log == Restore(groups, probe).0.log
  {
    var cache: map<string, Reply> := map[];
    out, log := [], [];
    for g := 0 to |groups|
      invariant Restore(groups, probe) == RestoreFrom(groups, probe, g, out, Memo(cache, log))
    {
      var cands := groups[g].cands;
      if cands == [] {
        continue;
      }
      var pick := Picked(cands[|cands| - 1].id, []);
      var found := false;
      var i := 0;
      ghost var start := Memo(cache, log);
      while !found && i < |cands| - 1
        invariant 0 <= i <= |cands| - 1
        invariant !found ==> pick.node == cands[|cands| - 1].id
        invariant MemoFrom(cands, g, probe, 0, [], start) ==
                  if found then (Memo(cache, log), pick) else MemoFrom(cands, g, probe, i, pick.skipped, Memo(cache, log))
        decreases |cands| - i, !found
      {
        var r: Reply;
        match cands[i].plan {
          case Broken(why) => r := Refused(why);
          case Dial(key, q) =>
            if key in cache {
              r := cache[key];
            } else {
              r := probe(q);
              cache := cache[key := r];
              log := log + [Probed(g, i)];
            }
        }
        match r {
          case Reachable =>
            pick := Picked(cands[i].id, pick.skipped);
            found := true;
          case Refused(why) =>
            pick := pick.(skipped := pick.skipped + [Note(cands[i].name, why)]);
            i := i + 1;
        }
      }
      out := out + [Restored(groups[g].project, pick)];
    }
  }
}
