/** The clients' index over a task list, and their depth-first walks with one
    shared visited set. The walks are exact on any graph: cycles, children with
    several parents, ids of tasks that do not exist. */
module Walks {
  import opened Tasks
  import opened Graph
  import opened StoreSpec
  import opened Scoring

  /** The list as a map; a later task wins. */
  function MapOf(tasks: seq<Task>): (ts: TaskMap)
    ensures KeysMatch(ts)
  {
    if tasks == [] then map[]
    else MapOf(tasks[..|tasks| - 1])[tasks[|tasks| - 1].id := tasks[|tasks| - 1]]
  }

  lemma {:induction false} MapOfHolds(tasks: seq<Task>)
    requires DistinctTaskIds(tasks)
    ensures forall t :: t in tasks ==> t.id in MapOf(tasks) && MapOf(tasks)[t.id] == t
    ensures forall x :: x in MapOf(tasks) ==> MapOf(tasks)[x] in tasks
  {
    if tasks != [] {
      var rest := tasks[..|tasks| - 1];
      MapOfHolds(rest);
      assert tasks == rest + [tasks[|tasks| - 1]];
    }
  }

  /** Lookup by id, and the ids that some task lists. */
  class Index {
    var byId: TaskMap
    var referenced: set<Id>

    constructor (tasks: seq<Task>)
      ensures Valid(tasks)
    {
      byId, referenced := map[], {};
      new;
      for i := 0 to |tasks|
        invariant byId == MapOf(tasks[..i])
        invariant forall c :: c in referenced <==> exists k :: 0 <= k < i && c in tasks[k].content.childIds
      {
        assert tasks[..i + 1][..i] == tasks[..i];
        byId := byId[tasks[i].id := tasks[i]];
        for j := 0 to |tasks[i].content.childIds|
          invariant byId == MapOf(tasks[..i + 1])
          invariant forall c :: c in referenced <==>
            (exists k :: 0 <= k < i && c in tasks[k].content.childIds) || c in tasks[i].content.childIds[..j]
        {
          referenced := referenced + {tasks[i].content.childIds[j]};
        }
        assert tasks[i].content.childIds[..|tasks[i].content.childIds|] == tasks[i].content.childIds;
      }
      assert tasks[..|tasks|] == tasks;
    }

    ghost predicate Valid(tasks: seq<Task>)
      reads this
    {
      && byId == MapOf(tasks)
      && forall c :: c in referenced <==> exists k :: 0 <= k < |tasks| && c in tasks[k].content.childIds
    }

    predicate IsRoot(id: Id)
      reads this
    {
      id !in referenced
    }

    /** "Not listed by any task" is the graph's notion of a root. */
    lemma RootIsRoot(tasks: seq<Task>, id: Id)
      requires Valid(tasks) && DistinctTaskIds(tasks) && id in byId
      ensures IsRoot(id) <==> Graph.IsRoot(byId, id)
    {
      MapOfHolds(tasks);
      if k :| 0 <= k < |tasks| && id in tasks[k].content.childIds {
        assert byId[tasks[k].id] == tasks[k];
      }
      if a :| a in byId && id in byId[a].content.childIds {
        var k :| 0 <= k < |tasks| && tasks[k] == byId[a];
      }
    }
  }

  /** The visited set, shared by all the calls of one walk. */
  class Seen {
    var ids: set<Id>

    constructor ()
      ensures ids == {}
    {
      ids := {};
    }
  }

  /** Every edge out of `part` stays inside `all`. */
  ghost predicate ClosedInto(ts: TaskMap, part: set<Id>, all: set<Id>) {
    forall a, b {:trigger Edge(ts, a, b)} :: a in part && Edge(ts, a, b) ==> b in all
  }

  ghost predicate SomeBelow(ts: TaskMap, a: Id, p: Task -> bool) {
    exists x :: x in Below(ts, a) && p(ts[x])
  }

  ghost predicate NoneIn(ts: TaskMap, s: set<Id>, p: Task -> bool) {
    s <= ts.Keys && forall x :: x in s ==> !p(ts[x])
  }

  /** The walk behind "has an open task below" and "has a match below". It stops
      at the first hit, and answers no on a revisit. */
  method SubtreeSome(ts: TaskMap, t: Task, p: Task -> bool, seen: Seen) returns (found: bool)
    requires KeysMatch(ts) && t.id in ts && ts[t.id] == t
    modifies seen
    ensures found ==> SomeBelow(ts, t.id, p)
    ensures !found ==>
      && old(seen.ids) + {t.id} <= seen.ids
      && NoneIn(ts, seen.ids - old(seen.ids), p)
      && ClosedInto(ts, seen.ids - old(seen.ids), seen.ids)
    decreases ts.Keys - seen.ids
  {
    if t.id in seen.ids { return false; }
    ghost var before := seen.ids;
    seen.ids := seen.ids + {t.id};
    ReachesSelf(ts, t.id);
    if p(t) { return true; }
    var kids := t.content.childIds;
    for k := 0 to |kids|
      invariant before + {t.id} <= seen.ids
      invariant NoneIn(ts, seen.ids - before, p)
      invariant ClosedInto(ts, seen.ids - before - {t.id}, seen.ids)
      invariant KidsIn(ts, kids, k, seen.ids)
    {
      ghost var already := seen.ids;
      if kids[k] in ts {
        found := SubtreeSome(ts, ts[kids[k]], p, seen);
        if found {
          assert Edge(ts, t.id, kids[k]);
          EdgeReaches(ts, t.id, kids[k]);
          SomeBelowLifts(ts, t.id, kids[k], p);
          return true;
        }
        JoinWalks(ts, before, t.id, already, seen.ids, p);
      }
      KidsInGrows(ts, kids, k, already, seen.ids);
    }
    KidsInCloses(ts, t, before, seen.ids);
    return false;
  }

  /** The existing ones among the first `k` children are in `s`. */
  ghost predicate KidsIn(ts: TaskMap, kids: seq<Id>, k: nat, s: set<Id>) {
    k <= |kids| && forall c :: c in kids[..k] && c in ts ==> c in s
  }

  lemma KidsInGrows(ts: TaskMap, kids: seq<Id>, k: nat, s: set<Id>, s': set<Id>)
    requires KidsIn(ts, kids, k, s) && s <= s' && k < |kids| && (kids[k] in ts ==> kids[k] in s')
    ensures KidsIn(ts, kids, k + 1, s')
  {
    assert kids[..k + 1] == kids[..k] + [kids[k]];
  }

  lemma KidsInCloses(ts: TaskMap, t: Task, before: set<Id>, all: set<Id>)
    requires t.id in ts && ts[t.id] == t && t.id in all
    requires ClosedInto(ts, all - before - {t.id}, all)
    requires KidsIn(ts, t.content.childIds, |t.content.childIds|, all)
    ensures ClosedInto(ts, all - before, all)
  {
    assert t.content.childIds[..|t.content.childIds|] == t.content.childIds;
  }

  lemma SomeBelowLifts(ts: TaskMap, a: Id, c: Id, p: Task -> bool)
    requires Reaches(ts, a, c) && SomeBelow(ts, c, p)
    ensures SomeBelow(ts, a, p)
  {
    var x :| x in Below(ts, c) && p(ts[x]);
    ReachesTrans(ts, a, c, x);
  }

  lemma JoinWalks(ts: TaskMap, before: set<Id>, top: Id, mid: set<Id>, all: set<Id>, p: Task -> bool)
    requires before + {top} <= mid <= all
    requires NoneIn(ts, mid - before, p) && NoneIn(ts, all - mid, p)
    requires ClosedInto(ts, mid - before - {top}, mid) && ClosedInto(ts, all - mid, all)
    ensures NoneIn(ts, all - before, p) && ClosedInto(ts, all - before - {top}, all)
  {
    assert all - before == (mid - before) + (all - mid);
  }

  /** From an empty visited set the answer is about everything below the task. */
  method HasSomeBelow(ts: TaskMap, t: Task, p: Task -> bool) returns (found: bool)
    requires KeysMatch(ts) && t.id in ts && ts[t.id] == t
    ensures found <==> SomeBelow(ts, t.id, p)
  {
    var seen := new Seen();
    found := SubtreeSome(ts, t, p, seen);
    if !found {
      assert seen.ids - {} == seen.ids;
      ClosedHoldsBelow(ts, seen.ids, t.id);
    }
  }

  // ----- the most urgent task of a subtree -------------------------------------

  ghost predicate IsMaxOver(ts: TaskMap, s: set<Id>, now: int, u: int) {
    && s <= ts.Keys
    && (forall x :: x in s ==> Urgency(ts[x], now) <= u)
    && (exists x :: x in s && Urgency(ts[x], now) == u)
  }

  method MaxWalk(ts: TaskMap, t: Task, now: int, seen: Seen) returns (best: int)
    requires KeysMatch(ts) && t.id in ts && ts[t.id] == t
    modifies seen
    ensures old(seen.ids) + {t.id} <= seen.ids
    ensures ClosedInto(ts, seen.ids - old(seen.ids), seen.ids)
    ensures AllReached(ts, t.id, seen.ids - old(seen.ids))
    ensures if t.id in old(seen.ids) then best == 0 && seen.ids == old(seen.ids)
            else IsMaxOver(ts, seen.ids - old(seen.ids), now, best)
    decreases ts.Keys - seen.ids
  {
    if t.id in seen.ids { return 0; }
    ghost var before := seen.ids;
    seen.ids := seen.ids + {t.id};
    ReachesSelf(ts, t.id);
    assert seen.ids - before == {t.id};
    best := Urgency(t, now);
    var kids := t.content.childIds;
    for k := 0 to |kids|
      invariant before + {t.id} <= seen.ids
      invariant AllReached(ts, t.id, seen.ids - before)
      invariant IsMaxOver(ts, seen.ids - before, now, best)
      invariant ClosedInto(ts, seen.ids - before - {t.id}, seen.ids)
      invariant KidsIn(ts, kids, k, seen.ids)
    {
      ghost var already := seen.ids;
      if kids[k] in ts {
        ghost var sofar := best;
        var u := MaxWalk(ts, ts[kids[k]], now, seen);
        if u > best {
          best := u;
        }
        assert Edge(ts, t.id, kids[k]);
        JoinMax(ts, t.id, kids[k], before, already, seen.ids, now, sofar, u);
      }
      KidsInGrows(ts, kids, k, already, seen.ids);
    }
    KidsInCloses(ts, t, before, seen.ids);
  }

  ghost predicate AllReached(ts: TaskMap, a: Id, s: set<Id>) {
    forall x :: x in s ==> x in ts && Reaches(ts, a, x)
  }

  lemma JoinMax(ts: TaskMap, a: Id, c: Id, before: set<Id>, mid: set<Id>, all: set<Id>, now: int, u: int, v: int)
    requires before + {a} <= mid <= all && Edge(ts, a, c)
    requires AllReached(ts, a, mid - before) && AllReached(ts, c, all - mid)
    requires IsMaxOver(ts, mid - before, now, u)
    requires if c in mid then v == 0 && all == mid else IsMaxOver(ts, all - mid, now, v)
    requires ClosedInto(ts, mid - before - {a}, mid) && ClosedInto(ts, all - mid, all)
    ensures AllReached(ts, a, all - before)
    ensures IsMaxOver(ts, all - before, now, if v > u then v else u)
    ensures ClosedInto(ts, all - before - {a}, all)
  {
    EdgeReaches(ts, a, c);
    forall x | x in all - mid ensures Reaches(ts, a, x) {
      ReachesTrans(ts, a, c, x);
    }
    assert all - before == (mid - before) + (all - mid);
  }

  /** The maximum urgency over everything reachable from the task. */
  method SubtreeMaxUrgency(ts: TaskMap, t: Task, now: int) returns (best: int)
    requires KeysMatch(ts) && t.id in ts && ts[t.id] == t
    ensures IsMaxOver(ts, Below(ts, t.id), now, best)
  {
    var seen := new Seen();
    best := MaxWalk(ts, t, now, seen);
    assert seen.ids - {} == seen.ids;
    ClosedHoldsBelow(ts, seen.ids, t.id);
    assert seen.ids == Below(ts, t.id);
  }

  lemma MaxIsUnique(ts: TaskMap, s: set<Id>, now: int, u: int, v: int)
    requires IsMaxOver(ts, s, now, u) && IsMaxOver(ts, s, now, v)
    ensures u == v
  {
  }

  // ----- choosing the roots worth showing --------------------------------------

  /** The roots with a hit at or below them, in the order they arrived. */
  ghost function Selected(tasks: seq<Task>, ts: TaskMap, p: Task -> bool): seq<Task> {
    if tasks == [] then []
    else
      var t := tasks[|tasks| - 1];
      var rest := Selected(tasks[..|tasks| - 1], ts, p);
      if Graph.IsRoot(ts, t.id) && SomeBelow(ts, t.id, p) then rest + [t] else rest
  }

  /** The tasks that pass by themselves, in the order they arrived. */
  function Passing(tasks: seq<Task>, p: Task -> bool): (r: seq<Task>)
    ensures forall t :: t in r <==> t in tasks && p(t)
  {
    if tasks == [] then []
    else
      var t := tasks[|tasks| - 1];
      var rest := Passing(tasks[..|tasks| - 1], p);
      assert tasks == tasks[..|tasks| - 1] + [t];
      if p(t) then rest + [t] else rest
  }

  /** The tree view keeps a root for anything below it; the flat view judges each
      task alone. */
  method Select(tasks: seq<Task>, ix: Index, p: Task -> bool, rootsOnly: bool) returns (roots: seq<Task>)
    requires DistinctTaskIds(tasks) && ix.Valid(tasks)
    ensures roots == if rootsOnly then Selected(tasks, MapOf(tasks), p) else Passing(tasks, p)
  {
    roots := [];
    if rootsOnly {
      roots := SelectRoots(tasks, ix, p);
    } else {
      for i := 0 to |tasks|
        invariant roots == Passing(tasks[..i], p)
      {
        assert tasks[..i + 1][..i] == tasks[..i];
        if p(tasks[i]) {
          roots := roots + [tasks[i]];
        }
      }
      assert tasks[..|tasks|] == tasks;
    }
  }

  method SelectRoots(tasks: seq<Task>, ix: Index, p: Task -> bool) returns (roots: seq<Task>)
    requires DistinctTaskIds(tasks) && ix.Valid(tasks)
    ensures roots == Selected(tasks, MapOf(tasks), p)
  {
    MapOfHolds(tasks);
    roots := [];
    for i := 0 to |tasks|
      invariant roots == Selected(tasks[..i], MapOf(tasks), p)
    {
      assert tasks[..i + 1][..i] == tasks[..i];
      var t := tasks[i];
      assert t in tasks;
      ix.RootIsRoot(tasks, t.id);
      if ix.IsRoot(t.id) {
        var found := HasSomeBelow(ix.byId, t, p);
        if found {
          roots := roots + [t];
        }
      }
    }
    assert tasks[..|tasks|] == tasks;
  }

  lemma {:induction false} SelectedHolds(tasks: seq<Task>, ts: TaskMap, p: Task -> bool, t: Task)
    ensures t in Selected(tasks, ts, p) <==> t in tasks && Graph.IsRoot(ts, t.id) && SomeBelow(ts, t.id, p)
  {
    if tasks != [] {
      SelectedHolds(tasks[..|tasks| - 1], ts, p, t);
      assert tasks == tasks[..|tasks| - 1] + [tasks[|tasks| - 1]];
    }
  }

  lemma {:induction false} SelectedDistinct(tasks: seq<Task>, ts: TaskMap, p: Task -> bool)
    requires DistinctTaskIds(tasks)
    ensures DistinctTaskIds(Selected(tasks, ts, p))
  {
    if tasks != [] {
      var rest := tasks[..|tasks| - 1];
      SelectedDistinct(rest, ts, p);
      forall t | t in Selected(rest, ts, p) ensures t.id != tasks[|tasks| - 1].id {
        SelectedHolds(rest, ts, p, t);
      }
    }
  }

  // ----- the order of arrival ----------------------------------------------------------

  lemma {:induction false} SelectedByMultiset(tasks: seq<Task>, ts: TaskMap, p: Task -> bool, t: Task)
    ensures multiset(Selected(tasks, ts, p))[t]
         == if Graph.IsRoot(ts, t.id) && SomeBelow(ts, t.id, p) then multiset(tasks)[t] else 0
  {
    if tasks != [] {
      var n := |tasks| - 1;
      SelectedByMultiset(tasks[..n], ts, p, t);
      assert tasks == tasks[..n] + [tasks[n]];
    }
  }

  lemma SameMap(tasks: seq<Task>, us: seq<Task>)
    requires multiset(tasks) == multiset(us) && DistinctTaskIds(tasks) && DistinctTaskIds(us)
    ensures MapOf(tasks) == MapOf(us)
  {
    MapOfHolds(tasks);
    MapOfHolds(us);
    forall t ensures t in tasks <==> t in us {
      assert t in tasks <==> t in multiset(tasks);
      assert t in us <==> t in multiset(us);
    }
    forall x | x in MapOf(tasks) ensures x in MapOf(us) && MapOf(us)[x] == MapOf(tasks)[x] {
      assert MapOf(tasks)[x] in us;
    }
    forall x | x in MapOf(us) ensures x in MapOf(tasks) {
      assert MapOf(us)[x] in tasks;
    }
  }
}
