/** Which log files of instances that no longer run may be deleted. The decision is made
    group by group, an instance's file and its rotated predecessor together. */
module LogRetention {
  import opened Text

  const FRESH_SECS: int := 60

  const MIN_SECS: int := -0x8000_0000_0000_0000
  const MAX_SECS: int := 0x7fff_ffff_ffff_ffff

  type Seconds = x: int | -0x8000_0000_0000_0000 <= x <= 0x7fff_ffff_ffff_ffff

  datatype LogFile = LogFile(path: string, id: string, mtime: Seconds)

  function SaturatingSub(a: Seconds, b: Seconds): Seconds {
    var d := a - b;
    if d < MIN_SECS then MIN_SECS else if d > MAX_SECS then MAX_SECS else d
  }

  /** When a group was last written to. */
  function Newest(files: seq<LogFile>, id: string): Seconds {
    if files == [] then MIN_SECS
    else
      var m, f := Newest(files[..|files| - 1], id), files[|files| - 1];
      if f.id == id && f.mtime > m then f.mtime else m
  }

  /** The paths of some groups, in the order of the scan. */
  function PathsOf(files: seq<LogFile>, ids: set<string>): seq<string> {
    if files == [] then []
    else
      var f := files[|files| - 1];
      PathsOf(files[..|files| - 1], ids) + (if f.id in ids then [f.path] else [])
  }

  function Ids(files: seq<LogFile>): set<string> { set f | f in files :: f.id }

  predicate Protected(id: string, alive: seq<string>, me: string) { id == me || id in alive }

  /** Groups of instances that are gone and were not touched lately. */
  function Stale(files: seq<LogFile>, alive: seq<string>, me: string, now: Seconds): set<string> {
    set id | id in Ids(files) && !Protected(id, alive, me) && SaturatingSub(now, Newest(files, id)) > FRESH_SECS
  }

  predicate Precedes(files: seq<LogFile>, a: string, b: string) {
    Newest(files, a) > Newest(files, b) || (Newest(files, a) == Newest(files, b) && Less(a, b))
  }

  /** How many stale groups are more recent. */
  function Rank(files: seq<LogFile>, stale: set<string>, id: string): nat {
    |set x | x in stale && Precedes(files, x, id)|
  }

  function Doomed(files: seq<LogFile>, stale: set<string>, keep: nat): set<string> {
    set id | id in stale && Rank(files, stale, id) >= keep
  }

  // ---------------------------------------------------------------------------

  lemma PrecedesIsTotal(files: seq<LogFile>, a: string, b: string)
    ensures a == b || Precedes(files, a, b) || Precedes(files, b, a)
    ensures !(Precedes(files, a, b) && Precedes(files, b, a)) && !Precedes(files, a, a)
  {
    LessIsTotal(a, b);
    LessIsTotal(a, a);
  }

  lemma PrecedesIsTransitive(files: seq<LogFile>, a: string, b: string, c: string)
    requires Precedes(files, a, b) && Precedes(files, b, c)
    ensures Precedes(files, a, c)
  {
    if Less(a, b) && Less(b, c) {
      LessIsTransitive(a, b, c);
    }
  }

  /** A touched group, or one of this or another running instance, is out of danger. */
  lemma WhoIsStale(files: seq<LogFile>, alive: seq<string>, me: string, now: Seconds, id: string)
    ensures id in Stale(files, alive, me, now) <==>
            id in Ids(files) && id != me && id !in alive &&
            forall f :: f in files && f.id == id ==> now - f.mtime > 60
  {
    if id in Ids(files) {
      NewestIsMax(files, id);
    }
  }

  lemma StaleAreIds(files: seq<LogFile>, alive: seq<string>, me: string, now: Seconds)
    ensures Stale(files, alive, me, now) <= Ids(files)
  {
  }

  lemma {:induction false} NewestIsMax(files: seq<LogFile>, id: string)
    ensures forall f :: f in files && f.id == id ==> f.mtime <= Newest(files, id)
    ensures id in Ids(files) ==> exists f :: f in files && f.id == id && f.mtime == Newest(files, id)
    decreases |files|
  {
    if files != [] {
      var n := |files| - 1;
      var rest, last := files[..n], files[n];
      assert files == rest + [last];
      NewestIsMax(rest, id);
      if id in Ids(files) {
        if id in Ids(rest) {
          var f :| f in rest && f.id == id && f.mtime == Newest(rest, id);
          assert f in files && last in files;
        } else {
          NewestOfNone(rest, id);
          assert last.id == id;
          assert last.mtime == Newest(files, id);
        }
      }
    }
  }

  lemma {:induction false} NewestOfNone(files: seq<LogFile>, id: string)
    requires id !in Ids(files)
    ensures Newest(files, id) == MIN_SECS
    decreases |files|
  {
    if files != [] {
      var n := |files| - 1;
      assert files == files[..n] + [files[n]];
      assert files[n].id in Ids(files);
      NewestOfNone(files[..n], id);
    }
  }

  /** Every file of `b` is older than some file of `a`. */
  ghost predicate Newer(files: seq<LogFile>, a: string, b: string) {
    exists f :: f in files && f.id == a && OlderAll(files, b, f)
  }

  ghost predicate OlderAll(files: seq<LogFile>, b: string, f: LogFile) {
    forall g :: g in files && g.id == b ==> g.mtime < f.mtime
  }

  /** `a` was written to after `b`, or at the same time and comes first by name. */
  ghost predicate Later(files: seq<LogFile>, a: string, b: string) {
    Newer(files, a, b) || (!Newer(files, b, a) && exists k: nat :: DecidedAt(a, b, k))
  }

  lemma PrecedesIsLater(files: seq<LogFile>, a: string, b: string)
    requires a in Ids(files) && b in Ids(files)
    ensures Precedes(files, a, b) <==> Later(files, a, b)
  {
    hide Newest;
    NewerIs(files, a, b);
    NewerIs(files, b, a);
    LessIff(a, b);
  }

  lemma NewerIs(files: seq<LogFile>, a: string, b: string)
    requires a in Ids(files) && b in Ids(files)
    ensures Newer(files, a, b) <==> Newest(files, a) > Newest(files, b)
  {
    hide Newest;
    NewestIsMax(files, a);
    NewestIsMax(files, b);
    var f :| f in files && f.id == a && f.mtime == Newest(files, a);
    if Newest(files, a) > Newest(files, b) {
      assert OlderAll(files, b, f);
    }
  }

  ghost predicate Ranked(files: seq<LogFile>, order: seq<string>) {
    forall i, j :: 0 <= i < j < |order| ==> Precedes(files, order[i], order[j])
  }

  function SetOf(s: seq<string>): set<string> { set x | x in s }

  lemma {:induction false} RankedSize(files: seq<LogFile>, order: seq<string>)
    requires Ranked(files, order)
    ensures |SetOf(order)| == |order|
    decreases |order|
  {
    hide Precedes;
    if order != [] {
      var n := |order| - 1;
      var rest := order[..n];
      assert Ranked(files, rest);
      RankedSize(files, rest);
      assert order == rest + [order[n]];
      if order[n] in rest {
        PrecedesIsTotal(files, order[n], order[n]);
        assert false;
      }
      assert SetOf(order) == SetOf(rest) + {order[n]};
    } else {
      assert SetOf(order) == {};
    }
  }

  /** In ranked order a group's place is its rank. */
  lemma RankIsPlace(files: seq<LogFile>, order: seq<string>, k: nat)
    requires Ranked(files, order) && k < |order|
    ensures Rank(files, SetOf(order), order[k]) == k
  {
    hide Precedes;
    var front := order[..k];
    assert Ranked(files, front);
    RankedSize(files, front);
    var before := set x | x in SetOf(order) && Precedes(files, x, order[k]);
    forall x ensures x in before <==> x in SetOf(front) {
      if x in before {
        var i :| 0 <= i < |order| && order[i] == x;
        if i == k {
          PrecedesIsTotal(files, x, x);
        } else if i > k {
          PrecedesIsTotal(files, x, order[k]);
        } else {
          assert front[i] == x;
        }
      }
    }
    assert before == SetOf(front);
  }

  /** The doomed groups are those behind the first `keep` in ranked order. */
  lemma DoomedAreLast(files: seq<LogFile>, order: seq<string>, keep: nat)
    requires Ranked(files, order) && keep <= |order|
    ensures Doomed(files, SetOf(order), keep) == SetOf(order[keep..])
  {
    hide Precedes, Rank;
    var stale := SetOf(order);
    forall id | id in stale ensures id in Doomed(files, stale, keep) <==> id in SetOf(order[keep..]) {
      var k :| 0 <= k < |order| && order[k] == id;
      RankIsPlace(files, order, k);
      if k >= keep {
        assert order[keep..][k - keep] == id;
      } else if id in order[keep..] {
        var j :| keep <= j < |order| && order[j] == id;
        RankIsPlace(files, order, j);
      }
    }
  }

  lemma NoneDoomed(files: seq<LogFile>, order: seq<string>, keep: nat)
    requires Ranked(files, order) && keep >= |order|
    ensures Doomed(files, SetOf(order), keep) == {}
  {
    hide Rank;
    forall id | id in SetOf(order) ensures Rank(files, SetOf(order), id) < keep {
      var k :| 0 <= k < |order| && order[k] == id;
      RankIsPlace(files, order, k);
    }
  }

  /** Every finite set of groups has a ranked order. */
  lemma {:induction false} RankedOrder(files: seq<LogFile>, ids: set<string>) returns (order: seq<string>)
    ensures Ranked(files, order) && SetOf(order) == ids
    decreases ids
  {
    hide Precedes;
    if ids == {} {
      order := [];
    } else {
      var x :| x in ids;
      var rest := RankedOrder(files, ids - {x});
      var p := Place(files, rest, x);
      order := Inserted(rest, x, p);
      InsertRanked(files, rest, x, p);
    }
  }

  /** The position of a new element in a ranked list. */
  function Place(files: seq<LogFile>, order: seq<string>, x: string): (p: nat)
    ensures p <= |order|
    ensures forall i :: 0 <= i < p ==> Precedes(files, order[i], x)
    ensures p < |order| ==> !Precedes(files, order[p], x)
  {
    if order == [] then 0
    else
      var n := |order| - 1;
      var p := Place(files, order[..n], x);
      if p == n && Precedes(files, order[n], x) then n + 1 else p
  }

  function Inserted(order: seq<string>, x: string, p: nat): seq<string>
    requires p <= |order|
  {
    order[..p] + [x] + order[p..]
  }

  lemma InsertRanked(files: seq<LogFile>, order: seq<string>, x: string, p: nat)
    requires Ranked(files, order) && x !in order && p <= |order|
    requires forall i :: 0 <= i < p ==> Precedes(files, order[i], x)
    requires p < |order| ==> !Precedes(files, order[p], x)
    ensures Ranked(files, Inserted(order, x, p)) && SetOf(Inserted(order, x, p)) == SetOf(order) + {x}
  {
    hide Precedes;
    var more := Inserted(order, x, p);
    InsertedSet(order, x, p);
    forall j | p <= j < |order| ensures Precedes(files, x, order[j]) {
      PrecedesIsTotal(files, x, order[p]);
      if j > p {
        PrecedesIsTransitive(files, x, order[p], order[j]);
      }
    }
    forall i, j | 0 <= i < j < |more| ensures Precedes(files, more[i], more[j]) {
      assert more[i] == if i < p then order[i] else if i == p then x else order[i - 1];
      assert more[j] == if j < p then order[j] else if j == p then x else order[j - 1];
    }
  }

  lemma InsertedSet(order: seq<string>, x: string, p: nat)
    requires p <= |order|
    ensures SetOf(Inserted(order, x, p)) == SetOf(order) + {x}
  {
    assert order == order[..p] + order[p..];
  }

  /** Of the stale groups, as many as asked for survive, and they are the most recent:
      each of them precedes each doomed one. */
  lemma NewestSurvive(files: seq<LogFile>, stale: set<string>, keep: nat)
    ensures |stale - Doomed(files, stale, keep)| == if |stale| < keep then |stale| else keep
    ensures stale <= Ids(files) ==>
              forall a, b :: a in stale - Doomed(files, stale, keep) && b in Doomed(files, stale, keep) ==> Later(files, a, b)
  {
    hide Precedes, Rank, Doomed, SetOf, Ranked, Later, Ids;
    assert Doomed(files, stale, keep) <= stale by { DoomedAreStale(files, stale, keep); }
    if stale <= Ids(files) {
      forall a, b | a in stale && b in stale ensures Precedes(files, a, b) <==> Later(files, a, b) {
        PrecedesIsLater(files, a, b);
      }
    }
    var order := RankedOrder(files, stale);
    RankedSize(files, order);
    if keep >= |order| {
      NoneDoomed(files, order, keep);
      assert stale - {} == stale;
    } else {
      DoomedAreLast(files, order, keep);
      CutInTwo(files, order, keep);
      CutIsRanked(files, order, keep);
    }
  }

  lemma DoomedAreStale(files: seq<LogFile>, stale: set<string>, keep: nat)
    ensures Doomed(files, stale, keep) <= stale
  {
  }

  lemma CutInTwo(files: seq<LogFile>, order: seq<string>, k: nat)
    requires Ranked(files, order) && k <= |order|
    ensures SetOf(order) - SetOf(order[k..]) == SetOf(order[..k]) && |SetOf(order[..k])| == k
  {
    hide Precedes;
    var front := order[..k];
    assert order == front + order[k..];
    assert Ranked(files, front);
    RankedSize(files, front);
    forall i | 0 <= i < k ensures front[i] !in order[k..] {
      PrecedesIsTotal(files, order[i], order[i]);
      forall j | k <= j < |order| ensures order[i] != order[j] {
        assert Precedes(files, order[i], order[j]);
      }
    }
  }

  lemma CutIsRanked(files: seq<LogFile>, order: seq<string>, k: nat)
    requires Ranked(files, order) && k <= |order|
    ensures forall a, b :: a in SetOf(order[..k]) && b in SetOf(order[k..]) ==> Precedes(files, a, b)
  {
    hide Precedes;
    forall a, b | a in SetOf(order[..k]) && b in SetOf(order[k..]) ensures Precedes(files, a, b) {
      var i :| 0 <= i < k && order[i] == a;
      var j :| k <= j < |order| && order[j] == b;
    }
  }

  // ---------------------------------------------------------------------------

  datatype Group = Group(newest: Seconds, paths: seq<string>)

  /** The groups built from a scan. */
  function Grouped(files: seq<LogFile>, alive: seq<string>, me: string): map<string, Group> {
    map id | id in Ids(files) && !Protected(id, alive, me) :: Group(Newest(files, id), PathsOf(files, {id}))
  }

  lemma GroupedStep(files: seq<LogFile>, f: LogFile, alive: seq<string>, me: string)
    ensures var g := Grouped(files, alive, me);
            Grouped(files + [f], alive, me) ==
              if Protected(f.id, alive, me) then g
              else
                var e := if f.id in g then g[f.id] else Group(MIN_SECS, []);
                g[f.id := Group(if f.mtime > e.newest then f.mtime else e.newest, e.paths + [f.path])]
  {
    hide Protected, Newest, PathsOf;
    assert Ids(files + [f]) == Ids(files) + {f.id};
    if f.id !in Ids(files) {
      NewestOfNone(files, f.id);
      NoPaths(files, f.id);
    }
    forall id ensures
      Newest(files + [f], id) == (if f.id == id && f.mtime > Newest(files, id) then f.mtime else Newest(files, id)) &&
      PathsOf(files + [f], {id}) == (if f.id == id then PathsOf(files, {id}) + [f.path] else PathsOf(files, {id}))
    {
      OneMoreFile(files, f, id);
    }
  }

  lemma OneMoreFile(files: seq<LogFile>, f: LogFile, id: string)
    ensures Newest(files + [f], id) == if f.id == id && f.mtime > Newest(files, id) then f.mtime else Newest(files, id)
    ensures PathsOf(files + [f], {id}) == if f.id == id then PathsOf(files, {id}) + [f.path] else PathsOf(files, {id})
  {
    assert (files + [f])[..|files|] == files;
    assert PathsOf(files, {id}) + [] == PathsOf(files, {id});
  }

  lemma {:induction false} NoPaths(files: seq<LogFile>, id: string)
    requires id !in Ids(files)
    ensures PathsOf(files, {id}) == []
    decreases |files|
  {
    if files != [] {
      var n := |files| - 1;
      assert files == files[..n] + [files[n]];
      assert files[n].id in Ids(files);
      NoPaths(files[..n], id);
    }
  }

  /** Deleting group by group deletes the files of all the groups. */
  lemma {:induction false} PathsAddUp(files: seq<LogFile>, ids: set<string>, id: string)
    requires id !in ids
    ensures multiset(PathsOf(files, ids + {id})) == multiset(PathsOf(files, ids)) + multiset(PathsOf(files, {id}))
    decreases |files|
  {
    if files != [] {
      PathsAddUp(files[..|files| - 1], ids, id);
    }
  }

  lemma {:induction false} PathsOfNobody(files: seq<LogFile>)
    ensures PathsOf(files, {}) == []
    decreases |files|
  {
    if files != [] {
      PathsOfNobody(files[..|files| - 1]);
    }
  }

  method Rearrange(groups: map<string, Group>, ghost files: seq<LogFile>) returns (order: seq<string>)
    requires forall id :: id in groups ==> groups[id].newest == Newest(files, id)
    ensures Ranked(files, order) && SetOf(order) == groups.Keys
  {
    hide Ranked, Inserted;
    order := [];
    assert Ranked(files, order) && SetOf(order) == {} by {
      NothingRanked(files);
    }
    var rest := groups.Keys;
    while rest != {}
      invariant rest <= groups.Keys
      invariant Ranked(files, order) && SetOf(order) == groups.Keys - rest
      decreases rest
    {
      var id :| id in rest;
      var g := groups[id];
      assert forall i :: 0 <= i < |order| ==> order[i] in SetOf(order);
      var p := 0;
      while p < |order| && (groups[order[p]].newest > g.newest || (groups[order[p]].newest == g.newest && Less(order[p], id)))
        invariant p <= |order|
        invariant forall i :: 0 <= i < p ==> Precedes(files, order[i], id)
      {
        p := p + 1;
      }
      InsertRanked(files, order, id, p);
      order := Inserted(order, id, p);
      rest := rest - {id};
    }
  }

  lemma NothingRanked(files: seq<LogFile>)
    ensures Ranked(files, []) && SetOf([]) == {}
  {
  }

  /** The plan names every file of every doomed group, each as often as it was scanned,
      and no other file. */
  method PrunePlan(files: seq<LogFile>, alive: seq<string>, me: string, now: Seconds, keep: nat)
    returns (plan: seq<string>)
    ensures multiset(plan) == multiset(PathsOf(files, Doomed(files, Stale(files, alive, me, now), keep)))
  {
    hide Protected, Doomed, Ranked, Newest;
    var groups: map<string, Group> := map[];
    for i := 0 to |files|
      invariant groups == Grouped(files[..i], alive, me)
    {
      var f := files[i];
      assert files[..i + 1] == files[..i] + [f];
      GroupedStep(files[..i], f, alive, me);
      if Protected(f.id, alive, me) {
        continue;
      }
      var e := if f.id in groups then groups[f.id] else Group(MIN_SECS, []);
      groups := groups[f.id := Group(if f.mtime > e.newest then f.mtime else e.newest, e.paths + [f.path])];
    }
    assert files[..|files|] == files;
    groups := map id | id in groups && SaturatingSub(now, groups[id].newest) > FRESH_SECS :: groups[id];
    assert groups.Keys == Stale(files, alive, me, now);
    var ordered := Rearrange(groups, files);
    plan := Flatten(files, groups, ordered, keep);
  }

  method Flatten(files: seq<LogFile>, groups: map<string, Group>, ordered: seq<string>, keep: nat) returns (plan: seq<string>)
    requires Ranked(files, ordered) && SetOf(ordered) == groups.Keys
    requires forall id :: id in groups ==> groups[id].paths == PathsOf(files, {id})
    ensures multiset(plan) == multiset(PathsOf(files, Doomed(files, groups.Keys, keep)))
  {
    hide Doomed, Precedes, PathsOf;
    plan := [];
    PathsOfNobody(files);
    if keep >= |ordered| {
      NoneDoomed(files, ordered, keep);
      return;
    }
    DoomedAreLast(files, ordered, keep);
    assert SetOf(ordered[keep..keep]) == {};
    for k := keep to |ordered|
      invariant multiset(plan) == multiset(PathsOf(files, SetOf(ordered[keep..k])))
    {
      var id := ordered[k];
      assert id in SetOf(ordered);
      NotYet(files, ordered, keep, k);
      assert ordered[keep..k + 1] == ordered[keep..k] + [id];
      assert SetOf(ordered[keep..k + 1]) == SetOf(ordered[keep..k]) + {id};
      PathsAddUp(files, SetOf(ordered[keep..k]), id);
      plan := plan + groups[id].paths;
    }
    assert ordered[keep..|ordered|] == ordered[keep..];
  }

  lemma NotYet(files: seq<LogFile>, order: seq<string>, from: nat, k: nat)
    requires Ranked(files, order) && from <= k < |order|
    ensures order[k] !in SetOf(order[from..k])
  {
    hide Precedes;
    PrecedesIsTotal(files, order[k], order[k]);
    forall i | from <= i < k ensures order[i] != order[k] {
      assert Precedes(files, order[i], order[k]);
    }
  }

  /** The files of some groups under a path. */
  function FilesAt(files: seq<LogFile>, ids: set<string>, path: string): set<nat> {
    set i: nat | i < |files| && files[i].id in ids && files[i].path == path
  }

  /** Each of them is named, and no other. */
  lemma {:induction false} PathsOfCounts(files: seq<LogFile>, ids: set<string>, path: string)
    ensures multiset(PathsOf(files, ids))[path] == |FilesAt(files, ids, path)|
    decreases |files|
  {
    if files == [] {
      assert FilesAt(files, ids, path) == {};
    } else {
      hide FilesAt;
      PathsOfCounts(files[..|files| - 1], ids, path);
      OneMoreAt(files, ids, path);
    }
  }

  lemma OneMoreAt(files: seq<LogFile>, ids: set<string>, path: string)
    requires files != []
    ensures var n := |files| - 1;
            |FilesAt(files, ids, path)| ==
            |FilesAt(files[..n], ids, path)| + (if files[n].id in ids && files[n].path == path then 1 else 0)
  {
    var n := |files| - 1;
    assert FilesAt(files, ids, path) ==
           FilesAt(files[..n], ids, path) + (if files[n].id in ids && files[n].path == path then {n} else {});
  }

  lemma PathsOfMembers(files: seq<LogFile>, ids: set<string>, path: string)
    ensures path in PathsOf(files, ids) <==> exists f :: f in files && f.id in ids && f.path == path
  {
    PathsOfCounts(files, ids, path);
    if f :| f in files && f.id in ids && f.path == path {
      var i: nat :| i < |files| && files[i] == f;
      assert i in FilesAt(files, ids, path);
    }
    if FilesAt(files, ids, path) != {} {
      var i :| i in FilesAt(files, ids, path);
      assert files[i] in files;
    }
  }

  /** How many stale groups were written to later. */
  ghost function LaterOnes(files: seq<LogFile>, stale: set<string>, id: string): set<string> {
    set x | x in stale && Later(files, x, id)
  }

  lemma RankCountsLater(files: seq<LogFile>, stale: set<string>, id: string)
    requires stale <= Ids(files) && id in Ids(files)
    ensures Rank(files, stale, id) == |LaterOnes(files, stale, id)|
  {
    hide Precedes, Later, Ids;
    forall x | x in stale ensures Precedes(files, x, id) <==> Later(files, x, id) {
      PrecedesIsLater(files, x, id);
    }
    assert (set x | x in stale && Precedes(files, x, id)) == LaterOnes(files, stale, id);
  }

  /** A path is deleted exactly when a file there belongs to an instance that is not this
      one, is not alive, has touched none of its files within the last minute, and has at
      least `keep` such instances more recent than itself. */
  lemma WhatIsDeleted(files: seq<LogFile>, alive: seq<string>, me: string, now: Seconds, keep: nat, path: string)
    ensures var stale := Stale(files, alive, me, now);
            path in PathsOf(files, Doomed(files, stale, keep)) <==>
            exists f :: f in files && f.path == path && f.id != me && f.id !in alive &&
                        (forall g :: g in files && g.id == f.id ==> now - g.mtime > 60) &&
                        |LaterOnes(files, stale, f.id)| >= keep
  {
    hide Rank, Stale, PathsOf, Later;
    var stale := Stale(files, alive, me, now);
    PathsOfMembers(files, Doomed(files, stale, keep), path);
    forall f | f in files
      ensures f.id in Doomed(files, stale, keep) <==>
              f.id != me && f.id !in alive &&
              (forall g :: g in files && g.id == f.id ==> now - g.mtime > 60) && |LaterOnes(files, stale, f.id)| >= keep
    {
      WhoIsStale(files, alive, me, now, f.id);
      StaleAreIds(files, alive, me, now);
      assert f.id in Ids(files);
      RankCountsLater(files, stale, f.id);
    }
  }
}
