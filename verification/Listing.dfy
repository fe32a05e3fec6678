/** The bot's listing: choose the roots with something open at or below them,
    rank them, and expand each into a group of indented rows. */
module Listing {
  import opened Tasks
  import opened Graph
  import opened StoreSpec
  import opened Scoring
  import opened Walks
  import opened Orders
  import opened Outline
  import opened Ranking

  datatype Row = Row(task: Task, depth: nat)

  // ----- preorder ---------------------------------------------------------------

  /** The rows of `a`'s subtree: the task, then its children in listed order. */
  ghost function Preorder(ts: TaskMap, a: Id, depth: nat): seq<Row>
    requires Acyclic(ts) && a in ts
    decreases |Below(ts, a)|, |Kids(ts, a)| + 1
  {
    [Row(ts[a], depth)] + PreorderOfKids(ts, a, |Kids(ts, a)|, depth + 1)
  }

  /** The rows of the first `n` children's subtrees. */
  ghost function PreorderOfKids(ts: TaskMap, a: Id, n: nat, depth: nat): seq<Row>
    requires Acyclic(ts) && a in ts && n <= |Kids(ts, a)|
    decreases |Below(ts, a)|, n
  {
    if n == 0 then []
    else
      var c := Kids(ts, a)[n - 1];
      PreorderOfKids(ts, a, n - 1, depth)
      + (if c in ts then assert Edge(ts, a, c); BelowShrinks(ts, a, c); Preorder(ts, c, depth) else [])
  }

  lemma PreorderUnfold(ts: TaskMap, a: Id, n: nat, depth: nat)
    requires Acyclic(ts) && a in ts && n < |Kids(ts, a)| && Kids(ts, a)[n] in ts
    ensures PreorderOfKids(ts, a, n + 1, depth)
         == PreorderOfKids(ts, a, n, depth) + Preorder(ts, Kids(ts, a)[n], depth)
  {
  }

  ghost function IdsOf(rows: seq<Row>): set<Id> {
    set r | r in rows :: r.task.id
  }

  ghost predicate DistinctRows(rows: seq<Row>) {
    forall i, j :: 0 <= i < j < |rows| ==> rows[i].task.id != rows[j].task.id
  }

  /** Every row shows a stored task at its distance from `a`. */
  ghost predicate TrueDepths(ts: TaskMap, a: Id, depth: nat, rows: seq<Row>) {
    forall r :: r in rows ==>
      r.task.id in ts && r.task == ts[r.task.id]
      && exists p :: PathFromTo(ts, p, a, r.task.id) && r.depth == depth + |p| - 1
  }

  /** In a forest the preorder shows exactly the subtree, each task once and at
      its true depth. */
  lemma {:induction false} PreorderIsExact(ts: TaskMap, a: Id, depth: nat)
    requires IsForest(ts) && KeysMatch(ts) && a in ts
    ensures IdsOf(Preorder(ts, a, depth)) == Below(ts, a)
    ensures DistinctRows(Preorder(ts, a, depth))
    ensures TrueDepths(ts, a, depth, Preorder(ts, a, depth))
    decreases |Below(ts, a)|, |Kids(ts, a)| + 1
  {
    var n := |Kids(ts, a)|;
    var rest := PreorderOfKidsIsExact(ts, a, n, depth);
    BelowIsKids(ts, a);
    var top := Row(ts[a], depth);
    AppendRows([top], rest);
    assert IdsOf([top]) == {a} by { assert top in [top]; }
    NotBelowKids(ts, a, n);
    assert PathFromTo(ts, [a], a, a);
  }

  lemma AppendRows(xs: seq<Row>, ys: seq<Row>)
    ensures IdsOf(xs + ys) == IdsOf(xs) + IdsOf(ys)
    ensures DistinctRows(xs) && DistinctRows(ys) && IdsOf(xs) !! IdsOf(ys) ==> DistinctRows(xs + ys)
  {
    forall r | r in xs ensures r in xs + ys {}
    forall r | r in ys ensures r in xs + ys {}
    if DistinctRows(xs) && DistinctRows(ys) && IdsOf(xs) !! IdsOf(ys) {
      var zs := xs + ys;
      forall i, j | 0 <= i < j < |zs| ensures zs[i].task.id != zs[j].task.id {
        if i < |xs| <= j {
          assert zs[i] in xs && zs[j] in ys;
          assert zs[i].task.id in IdsOf(xs) && zs[j].task.id in IdsOf(ys);
        }
      }
    }
  }

  lemma {:induction false} PreorderOfKidsIsExact(ts: TaskMap, a: Id, n: nat, depth: nat) returns (rows: seq<Row>)
    requires IsForest(ts) && KeysMatch(ts) && a in ts && n <= |Kids(ts, a)|
    ensures rows == PreorderOfKids(ts, a, n, depth + 1)
    ensures IdsOf(rows) == BelowKids(ts, a, n)
    ensures DistinctRows(rows)
    ensures TrueDepths(ts, a, depth, rows)
    decreases |Below(ts, a)|, n
  {
    if n == 0 {
      NoKidsYet(ts, a, depth + 1);
      rows := [];
    } else {
      hide TrueDepths, DistinctRows, IdsOf, Reaches, Acyclic, SingleContainer, NoDangling, Preorder, PreorderOfKids,
        BelowKids;
      var c := Kids(ts, a)[n - 1];
      StoredKid(ts, a, n - 1);
      BelowShrinks(ts, a, c);
      var xs := PreorderOfKidsIsExact(ts, a, n - 1, depth);
      PreorderIsExact(ts, c, depth + 1);
      rows := NextKidJoins(ts, a, n - 1, depth, xs);
    }
  }

  /** One more child: its preorder follows, and shares nothing with what is there. */
  lemma NextKidJoins(ts: TaskMap, a: Id, k: nat, depth: nat, xs: seq<Row>) returns (rows: seq<Row>)
    requires IsForest(ts) && KeysMatch(ts) && a in ts && k < |Kids(ts, a)| && Kids(ts, a)[k] in ts
    requires xs == PreorderOfKids(ts, a, k, depth + 1) && IdsOf(xs) == BelowKids(ts, a, k)
    requires DistinctRows(xs) && TrueDepths(ts, a, depth, xs)
    requires var ys := Preorder(ts, Kids(ts, a)[k], depth + 1);
      IdsOf(ys) == Below(ts, Kids(ts, a)[k]) && DistinctRows(ys) && TrueDepths(ts, Kids(ts, a)[k], depth + 1, ys)
    ensures rows == PreorderOfKids(ts, a, k + 1, depth + 1) && IdsOf(rows) == BelowKids(ts, a, k + 1)
    ensures DistinctRows(rows) && TrueDepths(ts, a, depth, rows)
  {
    hide TrueDepths, DistinctRows, IdsOf, Reaches, Acyclic, SingleContainer, NoDangling, Preorder, PreorderOfKids,
      BelowKids, Below;
    var c := Kids(ts, a)[k];
    StoredKid(ts, a, k);
    KidsApart(ts, a, k);
    PreorderUnfold(ts, a, k, depth + 1);
    BelowKidsGrows(ts, a, k);
    var ys := Preorder(ts, c, depth + 1);
    DepthsFromParent(ts, a, c, depth, ys);
    rows := JoinRows(ts, a, depth, xs, ys);
  }

  lemma JoinRows(ts: TaskMap, a: Id, depth: nat, xs: seq<Row>, ys: seq<Row>) returns (rows: seq<Row>)
    requires DistinctRows(xs) && DistinctRows(ys) && IdsOf(xs) !! IdsOf(ys)
    requires TrueDepths(ts, a, depth, xs) && TrueDepths(ts, a, depth, ys)
    ensures rows == xs + ys && IdsOf(rows) == IdsOf(xs) + IdsOf(ys)
    ensures DistinctRows(rows) && TrueDepths(ts, a, depth, rows)
  {
    AppendRows(xs, ys);
    rows := xs + ys;
    forall r | r in rows ensures r in xs || r in ys {}
  }

  lemma NoKidsYet(ts: TaskMap, a: Id, depth: nat)
    requires Acyclic(ts) && a in ts
    ensures PreorderOfKids(ts, a, 0, depth) == [] && IdsOf([]) == {} == BelowKids(ts, a, 0)
  {
  }

  lemma DepthsFromParent(ts: TaskMap, a: Id, c: Id, depth: nat, rows: seq<Row>)
    requires Edge(ts, a, c) && TrueDepths(ts, c, depth + 1, rows)
    ensures TrueDepths(ts, a, depth, rows)
  {
    forall r | r in rows
      ensures exists p :: PathFromTo(ts, p, a, r.task.id) && r.depth == depth + |p| - 1
    {
      var q :| PathFromTo(ts, q, c, r.task.id) && r.depth == depth + 1 + |q| - 1;
      assert PathFromTo(ts, [a, c], a, c);
      PathConcat(ts, [a, c], q, a, c, r.task.id);
      assert |[a, c] + q[1..]| == |q| + 1;
    }
  }

  // ----- the shape of a preorder ----------------------------------------------------

  function LinesOf(rows: seq<Row>): (lines: seq<Line>)
    ensures |lines| == |rows|
    ensures forall i :: 0 <= i < |rows| ==> lines[i] == Line(rows[i].task.id, rows[i].depth, true)
  {
    seq(|rows|, i requires 0 <= i < |rows| => Line(rows[i].task.id, rows[i].depth, true))
  }

  lemma LinesJoin(a: seq<Row>, b: seq<Row>)
    ensures LinesOf(a + b) == LinesOf(a) + LinesOf(b)
  {
  }

  /** Below every row stand its children, in listed order, each with its own below it. */
  lemma {:induction false} PreorderShaped(ts: TaskMap, a: Id, depth: nat)
    requires IsForest(ts) && KeysMatch(ts) && a in ts
    ensures Shaped(ts, LinesOf(Preorder(ts, a, depth)), depth)
    ensures AtDepth(LinesOf(Preorder(ts, a, depth)), depth) == [a]
    decreases |Below(ts, a)|, |Kids(ts, a)| + 1
  {
    hide Shaped, AtDepth, LinesOf, Reaches, Acyclic, SingleContainer, PreorderOfKids;
    var rest := PreorderOfKids(ts, a, |Kids(ts, a)|, depth + 1);
    PreorderOfKidsShaped(ts, a, |Kids(ts, a)|, depth + 1);
    assert Kids(ts, a)[..|Kids(ts, a)|] == Kids(ts, a);
    TopShaped(ts, LinesOf([Row(ts[a], depth)])[0], LinesOf(rest));
    LinesJoin([Row(ts[a], depth)], rest);
    assert LinesOf([Row(ts[a], depth)]) == [LinesOf([Row(ts[a], depth)])[0]];
  }

  lemma {:induction false} PreorderOfKidsShaped(ts: TaskMap, a: Id, n: nat, depth: nat)
    requires IsForest(ts) && KeysMatch(ts) && a in ts && n <= |Kids(ts, a)|
    ensures Shaped(ts, LinesOf(PreorderOfKids(ts, a, n, depth)), depth)
    ensures AtDepth(LinesOf(PreorderOfKids(ts, a, n, depth)), depth) == Kids(ts, a)[..n]
    decreases |Below(ts, a)|, n
  {
    hide Shaped, AtDepth, LinesOf, Reaches, Acyclic, SingleContainer, NoDangling, Preorder;
    if n == 0 {
      NothingShaped(ts, depth);
      assert LinesOf(PreorderOfKids(ts, a, 0, depth)) == [];
    } else {
      var c := Kids(ts, a)[n - 1];
      StoredKid(ts, a, n - 1);
      BelowShrinks(ts, a, c);
      PreorderOfKidsShaped(ts, a, n - 1, depth);
      PreorderShaped(ts, c, depth);
      PreorderUnfold(ts, a, n - 1, depth);
      var before, next := PreorderOfKids(ts, a, n - 1, depth), Preorder(ts, c, depth);
      LinesJoin(before, next);
      ShapedJoin(ts, LinesOf(before), LinesOf(next), depth);
      AtDepthJoin(LinesOf(before), LinesOf(next), depth);
      assert Kids(ts, a)[..n] == Kids(ts, a)[..n - 1] + [c];
    }
  }

  // ----- the expansion as the bot runs it -----------------------------------------

  /** The group being built and the visited set, both shared by the recursion. */
  class Expansion {
    var seen: set<Id>
    var out: seq<Row>

    constructor ()
      ensures seen == {} && out == [] && fresh(this)
    {
      seen, out := {}, [];
    }

    ghost predicate Valid()
      reads this
    {
      IdsOf(out) == seen && DistinctRows(out)
    }

    /** On any graph: no task twice, nothing existing left out, and every row
        reachable, at the length of a path. On a forest: the preorder, exactly. */
    method Expand(ts: TaskMap, t: Task, depth: nat)
      requires KeysMatch(ts) && t.id in ts && ts[t.id] == t && Valid()
      modifies this
      ensures Valid() && old(seen) + {t.id} <= seen
      ensures ClosedInto(ts, seen - old(seen), seen)
      ensures Added(ts, t.id, depth, old(out), out)
      ensures IsForest(ts) && old(seen) !! Below(ts, t.id) ==>
        out == old(out) + Preorder(ts, t.id, depth) && seen == old(seen) + Below(ts, t.id)
      decreases ts.Keys - seen
    {
      hide Added, TrueDepths, Reaches, DistinctRows, IdsOf, Acyclic, SingleContainer, NoDangling;
      if t.id in seen {
        ReachesSelf(ts, t.id);
        NothingAdded(ts, t.id, depth, out);
        return;
      }
      ghost var before, had := seen, out;
      Push(Row(t, depth));
      TopAdded(ts, t, depth, had);
      var kids := t.content.childIds;
      ghost var exact := IsForest(ts) && before !! Below(ts, t.id);
      for k := 0 to |kids|
        invariant Valid() && before + {t.id} <= seen
        invariant Added(ts, t.id, depth, had, out)
        invariant ClosedInto(ts, seen - before - {t.id}, seen)
        invariant KidsIn(ts, kids, k, seen)
        invariant exact ==> FirstKidsDone(ts, t.id, k, depth, had, before, out, seen)
      {
        ghost var already, rows := seen, out;
        if kids[k] in ts {
          if exact { NextKidIsNew(ts, t.id, k, before); }
          Expand(ts, ts[kids[k]], depth + 1);
          assert Edge(ts, t.id, kids[k]) by { assert kids[k] in kids; }
          KidAdded(ts, t.id, kids[k], depth, had, rows, out);
          assert seen - before - {t.id} == (already - before - {t.id}) + (seen - already);
        }
        KidsInGrows(ts, kids, k, already, seen);
        if exact { NextKidDone(ts, t.id, k, depth, had, before, rows, already, out, seen); }
      }
      KidsInCloses(ts, t, before, seen);
      if exact { BelowIsKids(ts, t.id); }
    }

    method Push(r: Row)
      requires Valid() && r.task.id !in seen
      modifies this
      ensures Valid() && seen == old(seen) + {r.task.id} && out == old(out) + [r]
    {
      AppendRows(out, [r]);
      assert IdsOf([r]) == {r.task.id} by { assert r in [r]; }
      seen := seen + {r.task.id};
      out := out + [r];
    }
  }

  /** Rows have been added, each reachable from `a` and at the length of a path. */
  ghost predicate Added(ts: TaskMap, a: Id, depth: nat, had: seq<Row>, out: seq<Row>) {
    had <= out && TrueDepths(ts, a, depth, out[|had|..])
  }

  lemma NothingAdded(ts: TaskMap, a: Id, depth: nat, had: seq<Row>)
    ensures Added(ts, a, depth, had, had)
  {
  }

  lemma TopAdded(ts: TaskMap, t: Task, depth: nat, had: seq<Row>)
    requires t.id in ts && ts[t.id] == t
    ensures Added(ts, t.id, depth, had, had + [Row(t, depth)])
  {
    assert PathFromTo(ts, [t.id], t.id, t.id);
    assert (had + [Row(t, depth)])[|had|..] == [Row(t, depth)];
  }

  lemma KidAdded(ts: TaskMap, a: Id, c: Id, depth: nat, had: seq<Row>, rows: seq<Row>, out: seq<Row>)
    requires Edge(ts, a, c) && Added(ts, a, depth, had, rows) && Added(ts, c, depth + 1, rows, out)
    ensures Added(ts, a, depth, had, out)
  {
    hide TrueDepths;
    DepthsFromParent(ts, a, c, depth, out[|rows|..]);
    TrueDepthsJoin(ts, a, depth, rows[|had|..], out[|rows|..]);
    assert out[|had|..] == rows[|had|..] + out[|rows|..];
  }

  lemma TrueDepthsJoin(ts: TaskMap, a: Id, depth: nat, xs: seq<Row>, ys: seq<Row>)
    requires TrueDepths(ts, a, depth, xs) && TrueDepths(ts, a, depth, ys)
    ensures TrueDepths(ts, a, depth, xs + ys)
  {
    forall r | r in xs + ys ensures r in xs || r in ys {}
  }

  lemma TrueDepthsAreBelow(ts: TaskMap, a: Id, depth: nat, rows: seq<Row>)
    requires TrueDepths(ts, a, depth, rows)
    ensures IdsOf(rows) <= Below(ts, a)
  {
    forall r | r in rows ensures r.task.id in Below(ts, a) {
      var p :| PathFromTo(ts, p, a, r.task.id);
      assert Reaches(ts, a, r.task.id);
    }
  }

  /** The task and its first `k` children's subtrees have been written out. */
  ghost predicate FirstKidsDone(ts: TaskMap, a: Id, k: nat, depth: nat, had: seq<Row>, before: set<Id>, out: seq<Row>,
        seen: set<Id>)
    requires Acyclic(ts) && a in ts && k <= |Kids(ts, a)|
  {
    && out == had + ([Row(ts[a], depth)] + PreorderOfKids(ts, a, k, depth + 1))
    && seen == before + ({a} + BelowKids(ts, a, k))
  }

  lemma {:induction false} NextKidDone(ts: TaskMap, a: Id, k: nat, depth: nat, had: seq<Row>, before: set<Id>,
                                       rows: seq<Row>, already: set<Id>, out: seq<Row>, seen: set<Id>)
    requires IsForest(ts) && a in ts && k < |Kids(ts, a)|
    requires FirstKidsDone(ts, a, k, depth, had, before, rows, already)
    requires Kids(ts, a)[k] in ts ==>
      out == rows + Preorder(ts, Kids(ts, a)[k], depth + 1) && seen == already + Below(ts, Kids(ts, a)[k])
    ensures FirstKidsDone(ts, a, k + 1, depth, had, before, out, seen)
  {
    hide Preorder, PreorderOfKids, BelowKids, Below, IsForest, Acyclic, SingleContainer, NoDangling;
    ForestIsAcyclic(ts);
    StoredKid(ts, a, k);
    PreorderUnfold(ts, a, k, depth + 1);
    BelowKidsGrows(ts, a, k);
    var xs, ys := PreorderOfKids(ts, a, k, depth + 1), Preorder(ts, Kids(ts, a)[k], depth + 1);
    TopStays(had, Row(ts[a], depth), xs, ys);
  }

  lemma ForestIsAcyclic(ts: TaskMap)
    requires IsForest(ts)
    ensures Acyclic(ts)
  {
  }

  lemma TopStays(had: seq<Row>, top: Row, xs: seq<Row>, ys: seq<Row>)
    ensures had + ([top] + xs) + ys == had + ([top] + (xs + ys))
  {
  }

  lemma NextKidIsNew(ts: TaskMap, a: Id, k: nat, before: set<Id>)
    requires IsForest(ts) && a in ts && k < |Kids(ts, a)| && before !! Below(ts, a)
    ensures (before + ({a} + BelowKids(ts, a, k))) !! Below(ts, Kids(ts, a)[k])
  {
    StoredKid(ts, a, k);
    KidsApart(ts, a, k);
    BelowShrinks(ts, a, Kids(ts, a)[k]);
  }

  // ----- ranking the roots ------------------------------------------------------------

  predicate IsOpen(t: Task) { !t.content.status.Terminal() }

  lemma {:induction false} MaxExists(ts: TaskMap, s: set<Id>, now: int)
    requires s != {} && s <= ts.Keys
    ensures exists u :: IsMaxOver(ts, s, now, u)
    decreases |s|
  {
    var x :| x in s;
    var rest := s - {x};
    if rest == {} {
      assert s == {x};
      assert IsMaxOver(ts, s, now, Urgency(ts[x], now));
    } else {
      MaxExists(ts, rest, now);
      var u :| IsMaxOver(ts, rest, now, u);
      var v := if Urgency(ts[x], now) > u then Urgency(ts[x], now) else u;
      var y :| y in rest && Urgency(ts[y], now) == u;
      assert s == rest + {x};
      assert (if Urgency(ts[x], now) > u then x else y) in s;
      assert IsMaxOver(ts, s, now, v);
    }
  }

  /** The urgency a root is ranked by. */
  ghost function SubUrgency(ts: TaskMap, a: Id, now: int): (u: int)
    requires a in ts
    ensures IsMaxOver(ts, Below(ts, a), now, u)
  {
    ReachesSelf(ts, a);
    assert a in Below(ts, a);
    MaxExists(ts, Below(ts, a), now);
    var u :| IsMaxOver(ts, Below(ts, a), now, u);
    u
  }

  /** A root with its score, so the comparison need not walk again. */
  datatype Scored = Scored(t: Task, u: int)

  function KeyOf(s: Scored): seq<int> { RootKey(s.t, s.u) }

  ghost function ScoredRoots(roots: seq<Task>, ts: TaskMap, now: int): seq<Scored>
    requires forall t :: t in roots ==> t.id in ts
  {
    seq(|roots|, i requires 0 <= i < |roots| => Scored(roots[i], SubUrgency(ts, roots[i].id, now)))
  }

  method RankRoots(roots: seq<Task>, ts: TaskMap, now: int) returns (ranked: seq<Scored>)
    requires KeysMatch(ts) && DistinctTaskIds(roots)
    requires forall t :: t in roots ==> t.id in ts && ts[t.id] == t
    ensures multiset(ranked) == multiset(ScoredRoots(roots, ts, now))
    ensures forall i, j :: 0 <= i < j < |ranked| ==> LessRoots(ranked[i].t, ranked[i].u, ranked[j].t, ranked[j].u)
    ensures SortedByKey(KeyOf, ranked)
  {
    hide Below, SubUrgency, RootKey, LessRoots;
    var scored: seq<Scored> := [];
    for i := 0 to |roots|
      invariant |scored| == i
      invariant forall k :: 0 <= k < i ==> scored[k] == Scored(roots[k], SubUrgency(ts, roots[k].id, now))
    {
      assert roots[i] in roots;
      var u := SubtreeMaxUrgency(ts, roots[i], now);
      MaxIsUnique(ts, Below(ts, roots[i].id), now, u, SubUrgency(ts, roots[i].id, now));
      scored := scored + [Scored(roots[i], u)];
    }
    assert scored == ScoredRoots(roots, ts, now);
    forall i, j | 0 <= i < j < |scored| ensures KeyOf(scored[i]) != KeyOf(scored[j]) {
      RootsDiffer(scored[i], scored[j]);
    }
    SortSorts(KeyOf, scored);
    ranked := Sort(KeyOf, scored);
    forall i, j | 0 <= i < j < |ranked| ensures LessRoots(ranked[i].t, ranked[i].u, ranked[j].t, ranked[j].u) {
      RootsByKey(ranked[i].t, ranked[i].u, ranked[j].t, ranked[j].u);
    }
  }

  lemma RootsDiffer(a: Scored, b: Scored)
    requires a.t.id != b.t.id
    ensures KeyOf(a) != KeyOf(b)
  {
    StrTotal(a.t.id, b.t.id);
    RootsByKey(a.t, a.u, b.t, b.u);
    RootsByKey(b.t, b.u, a.t, a.u);
    LexIrreflexive(KeyOf(a));
  }

  // ----- the listing -----------------------------------------------------------------------

  type Group = seq<Row>

  /** One group per root, in ranked order: on any graph what the root reaches, once
      each and at the length of a path; on a forest the preorder. */
  ghost predicate GroupsOf(ts: TaskMap, ranked: seq<Scored>, groups: seq<Group>) {
    && |groups| == |ranked|
    && forall i :: 0 <= i < |ranked| ==>
         && ranked[i].t.id in ts && DistinctRows(groups[i]) && IdsOf(groups[i]) == Below(ts, ranked[i].t.id)
         && TrueDepths(ts, ranked[i].t.id, 0, groups[i])
         && (IsForest(ts) ==> groups[i] == Preorder(ts, ranked[i].t.id, 0))
  }

  method ExpandRoot(ts: TaskMap, t: Task) returns (g: Group)
    requires KeysMatch(ts) && t.id in ts && ts[t.id] == t
    ensures DistinctRows(g) && IdsOf(g) == Below(ts, t.id) && TrueDepths(ts, t.id, 0, g)
    ensures IsForest(ts) ==> g == Preorder(ts, t.id, 0)
  {
    var x := new Expansion();
    assert IdsOf([]) == {};
    x.Expand(ts, t, 0);
    assert x.seen - {} == x.seen;
    ClosedHoldsBelow(ts, x.seen, t.id);
    assert x.out[0..] == x.out;
    TrueDepthsAreBelow(ts, t.id, 0, x.out);
    return x.out;
  }

  /** What a listing is: the ranked open roots, each with its group. */
  ghost predicate IsListing(tasks: seq<Task>, now: int, groups: seq<Group>) {
    exists ranked {:trigger GroupsOf(MapOf(tasks), ranked, groups)} ::
      RootsOf(tasks, MapOf(tasks), now, ranked) && GroupsOf(MapOf(tasks), ranked, groups)
  }

  method ListGroups(tasks: seq<Task>, ix: Index, now: int) returns (groups: seq<Group>)
    requires DistinctTaskIds(tasks) && ix.Valid(tasks)
    ensures IsListing(tasks, now, groups)
  {
    hide GroupsOf, RootsOf, Selected, IsForest, Below, DistinctRows, IdsOf, TrueDepths;
    MapOfHolds(tasks);
    var ts := ix.byId;
    var roots := SelectRoots(tasks, ix, IsOpen);
    SelectedDistinct(tasks, ts, IsOpen);
    forall t | t in roots ensures t.id in ts && ts[t.id] == t {
      SelectedHolds(tasks, ts, IsOpen, t);
    }
    var ranked := RankRoots(roots, ts, now);
    RankedAreRoots(tasks, roots, ts, now, ranked);
    groups := [];
    NoGroups(ts);
    for i := 0 to |ranked|
      invariant GroupsOf(ts, ranked[..i], groups)
    {
      RankedIsStored(tasks, ts, now, ranked, i);
      var g := ExpandRoot(ts, ranked[i].t);
      OneMoreGroup(ts, ranked, i, groups, g);
      groups := groups + [g];
    }
    assert ranked[..|ranked|] == ranked;
  }

  lemma NoGroups(ts: TaskMap)
    ensures GroupsOf(ts, [], [])
  {
  }

  lemma OneMoreGroup(ts: TaskMap, ranked: seq<Scored>, i: nat, groups: seq<Group>, g: Group)
    requires i < |ranked| && GroupsOf(ts, ranked[..i], groups)
    requires ranked[i].t.id in ts && DistinctRows(g) && IdsOf(g) == Below(ts, ranked[i].t.id)
    requires TrueDepths(ts, ranked[i].t.id, 0, g)
    requires IsForest(ts) ==> g == Preorder(ts, ranked[i].t.id, 0)
    ensures GroupsOf(ts, ranked[..i + 1], groups + [g])
  {
    hide IsForest, Below, DistinctRows, IdsOf, Preorder, TrueDepths;
    assert ranked[..i + 1] == ranked[..i] + [ranked[i]];
  }

  lemma RankedIsStored(tasks: seq<Task>, ts: TaskMap, now: int, ranked: seq<Scored>, i: nat)
    requires RootsOf(tasks, ts, now, ranked) && i < |ranked|
    ensures ranked[i].t.id in ts && ts[ranked[i].t.id] == ranked[i].t && Graph.IsRoot(ts, ranked[i].t.id)
    ensures SomeBelow(ts, ranked[i].t.id, IsOpen)
  {
    assert ranked[i] in ranked;
  }

  /** `ranked` lists, in strict order, the roots with something open below. */
  ghost predicate RootsOf(tasks: seq<Task>, ts: TaskMap, now: int, ranked: seq<Scored>) {
    && SortedByKey(KeyOf, ranked)
    && (forall t :: t in Selected(tasks, ts, IsOpen) ==> t.id in ts && ts[t.id] == t)
    && multiset(ranked) == multiset(ScoredRoots(Selected(tasks, ts, IsOpen), ts, now))
    && (forall s :: s in ranked <==>
          s.t in tasks && Graph.IsRoot(ts, s.t.id) && SomeBelow(ts, s.t.id, IsOpen)
          && s.t.id in ts && s.u == SubUrgency(ts, s.t.id, now))
    && forall s :: s in ranked ==> ts[s.t.id] == s.t
  }

  lemma RankedAreRoots(tasks: seq<Task>, roots: seq<Task>, ts: TaskMap, now: int, ranked: seq<Scored>)
    requires DistinctTaskIds(tasks) && ts == MapOf(tasks) && roots == Selected(tasks, ts, IsOpen)
    requires forall t :: t in roots ==> t.id in ts && ts[t.id] == t
    requires SortedByKey(KeyOf, ranked) && multiset(ranked) == multiset(ScoredRoots(roots, ts, now))
    ensures RootsOf(tasks, ts, now, ranked)
  {
    var scored := ScoredRoots(roots, ts, now);
    forall s ensures s in ranked <==>
          s.t in tasks && Graph.IsRoot(ts, s.t.id) && SomeBelow(ts, s.t.id, IsOpen)
          && s.t.id in ts && s.u == SubUrgency(ts, s.t.id, now)
    {
      assert s in ranked <==> s in multiset(ranked);
      assert s in scored <==> s in multiset(scored);
      SelectedHolds(tasks, ts, IsOpen, s.t);
      if s in scored {
        var i :| 0 <= i < |scored| && scored[i] == s;
        assert roots[i] == s.t;
      }
      if s.t in roots && s.t.id in ts && s.u == SubUrgency(ts, s.t.id, now) {
        var i :| 0 <= i < |roots| && roots[i] == s.t;
        assert scored[i] == s;
      }
    }
    forall s | s in ranked ensures ts[s.t.id] == s.t {
      SelectedHolds(tasks, ts, IsOpen, s.t);
    }
  }

  // ----- what the listing shows -----------------------------------------------------------

  /** All of one tree: every task of it once, in preorder, at its true depth. */
  ghost predicate WholeTree(ts: TaskMap, r: Id, g: Group) {
    && IsForest(ts) && Graph.IsRoot(ts, r) && g == Preorder(ts, r, 0)
    && IdsOf(g) == Below(ts, r) && DistinctRows(g) && TrueDepths(ts, r, 0, g)
  }

  lemma GroupIsTree(tasks: seq<Task>, now: int, ranked: seq<Scored>, groups: seq<Group>, i: nat)
    requires DistinctTaskIds(tasks) && IsForest(MapOf(tasks)) && i < |groups|
    requires RootsOf(tasks, MapOf(tasks), now, ranked) && GroupsOf(MapOf(tasks), ranked, groups)
    ensures |ranked| == |groups| && WholeTree(MapOf(tasks), ranked[i].t.id, groups[i])
    ensures SomeBelow(MapOf(tasks), ranked[i].t.id, IsOpen)
  {
    hide RootsOf, IsForest, Below, DistinctRows, IdsOf, TrueDepths, Preorder;
    MapOfHolds(tasks);
    RankedIsStored(tasks, MapOf(tasks), now, ranked, i);
    PreorderIsExact(MapOf(tasks), ranked[i].t.id, 0);
  }

  /** On a state the server's check accepts every row of the listing has its children
      below it, in the order the task lists them, one level deeper. */
  lemma RowsUnfold(tasks: seq<Task>, now: int, groups: seq<Group>, i: nat, k: nat)
    requires DistinctTaskIds(tasks) && IsForest(MapOf(tasks)) && IsListing(tasks, now, groups)
    requires i < |groups| && k < |groups[i]|
    ensures Unfolded(MapOf(tasks), LinesOf(groups[i]), k) && groups[i][0].depth == 0
  {
    hide RootsOf, IsForest, Unfolded, Preorder;
    MapOfHolds(tasks);
    var ranked: seq<Scored> :| RootsOf(tasks, MapOf(tasks), now, ranked) && GroupsOf(MapOf(tasks), ranked, groups);
    PreorderShaped(MapOf(tasks), ranked[i].t.id, 0);
    assert LinesOf(groups[i])[0].depth == 0;
  }

  /** On a state the server's check accepts every open task has a row, and stands
      in it among its whole tree. */
  lemma OpenTreesAreShown(tasks: seq<Task>, now: int, groups: seq<Group>, x: Id)
    requires DistinctTaskIds(tasks) && IsForest(MapOf(tasks)) && IsListing(tasks, now, groups)
    requires x in MapOf(tasks) && MapOf(tasks)[x].content.status !in {Done, Cancelled}
    ensures exists i, r {:trigger WholeTree(MapOf(tasks), r, groups[i])} ::
      0 <= i < |groups| && x in IdsOf(groups[i]) && WholeTree(MapOf(tasks), r, groups[i])
  {
    var ts := MapOf(tasks);
    var ranked: seq<Scored> :| RootsOf(tasks, ts, now, ranked) && GroupsOf(ts, ranked, groups);
    var r := RootAbove(ts, x);
    var i := OpenRootIsRanked(tasks, now, ranked, r, x);
    GroupIsTree(tasks, now, ranked, groups, i);
  }

  lemma OpenRootIsRanked(tasks: seq<Task>, now: int, ranked: seq<Scored>, r: Id, x: Id) returns (i: nat)
    requires DistinctTaskIds(tasks) && RootsOf(tasks, MapOf(tasks), now, ranked)
    requires Graph.IsRoot(MapOf(tasks), r) && Reaches(MapOf(tasks), r, x) && IsOpen(MapOf(tasks)[x])
    ensures i < |ranked| && ranked[i].t.id == r
  {
    var ts := MapOf(tasks);
    MapOfHolds(tasks);
    assert x in Below(ts, r) && IsOpen(ts[x]);
    var s := Scored(ts[r], SubUrgency(ts, r, now));
    assert s in ranked;
    i :| 0 <= i < |ranked| && ranked[i] == s;
  }

  /** ... and no task has two rows anywhere in the listing. */
  lemma NoTaskListedTwice(tasks: seq<Task>, now: int, groups: seq<Group>, y: Id, i: nat, j: nat)
    requires DistinctTaskIds(tasks) && IsForest(MapOf(tasks)) && IsListing(tasks, now, groups)
    requires i < |groups| && j < |groups| && y in IdsOf(groups[i]) && y in IdsOf(groups[j])
    ensures i == j && DistinctRows(groups[i])
  {
    var ranked: seq<Scored> :| RootsOf(tasks, MapOf(tasks), now, ranked) && GroupsOf(MapOf(tasks), ranked, groups);
    GroupIsTree(tasks, now, ranked, groups, i);
    GroupIsTree(tasks, now, ranked, groups, j);
    GroupsApart(tasks, now, ranked, i, j, y);
  }

  lemma GroupsApart(tasks: seq<Task>, now: int, ranked: seq<Scored>, i: nat, j: nat, y: Id)
    requires DistinctTaskIds(tasks) && IsForest(MapOf(tasks)) && RootsOf(tasks, MapOf(tasks), now, ranked)
    requires i < |ranked| && j < |ranked|
    requires y in Below(MapOf(tasks), ranked[i].t.id) && y in Below(MapOf(tasks), ranked[j].t.id)
    ensures i == j
  {
    var ts := MapOf(tasks);
    assert ranked[i] in ranked && ranked[j] in ranked;
    RootIsUnique(ts, ranked[i].t.id, ranked[j].t.id, y);
    assert ranked[i] == ranked[j];
    LexIrreflexive(KeyOf(ranked[i]));
  }

  lemma TreeHolds(ts: TaskMap, r: Id, g: Group)
    requires WholeTree(ts, r, g)
    ensures IdsOf(g) == Below(ts, r) && Graph.IsRoot(ts, r) && Treelike(ts)
  {
  }

  /** A tree with nothing open in it has no row at all. */
  lemma ClosedTreesAreHidden(tasks: seq<Task>, now: int, groups: seq<Group>, r: Id, x: Id, i: nat)
    requires DistinctTaskIds(tasks) && IsForest(MapOf(tasks)) && IsListing(tasks, now, groups)
    requires Graph.IsRoot(MapOf(tasks), r) && Reaches(MapOf(tasks), r, x) && i < |groups|
    requires forall y :: y in Below(MapOf(tasks), r) ==> MapOf(tasks)[y].content.status in {Done, Cancelled}
    ensures x !in IdsOf(groups[i])
  {
    hide RootsOf, GroupsOf, IsForest, IdsOf, Reaches, WholeTree;
    var ts := MapOf(tasks);
    var ranked: seq<Scored> :| RootsOf(tasks, ts, now, ranked) && GroupsOf(ts, ranked, groups);
    GroupIsTree(tasks, now, ranked, groups, i);
    TreeHolds(ts, ranked[i].t.id, groups[i]);
    if x in Below(ts, ranked[i].t.id) {
      RootIsUnique(ts, r, ranked[i].t.id, x);
    }
  }

  // ----- the order of the listing -----------------------------------------------------------

  /** The group of a root: everything the root reaches. */
  ghost predicate Heads(ts: TaskMap, r: Id, g: Group) {
    Graph.IsRoot(ts, r) && IdsOf(g) == Below(ts, r)
  }

  /** Open roots come before closed ones. Among roots alike the tree with the more
      urgent task comes first, whichever task of it that is; and among equals the
      older root, or of two created at once the one with the smaller id. */
  lemma ListingOrder(tasks: seq<Task>, now: int, groups: seq<Group>, i: nat, j: nat, r: Id, s: Id, u: int, v: int)
    requires DistinctTaskIds(tasks) && IsListing(tasks, now, groups) && i < j < |groups|
    requires Heads(MapOf(tasks), r, groups[i]) && Heads(MapOf(tasks), s, groups[j])
    requires IsMaxOver(MapOf(tasks), IdsOf(groups[i]), now, u) && IsMaxOver(MapOf(tasks), IdsOf(groups[j]), now, v)
    ensures var a, b := MapOf(tasks)[r], MapOf(tasks)[s];
      var ca, cb := a.content.status in {Done, Cancelled}, b.content.status in {Done, Cancelled};
      && (ca ==> cb)
      && (ca == cb ==> u >= v && (u == v ==> Elder(a, b)))
  {
    hide RootsOf, IdsOf, Below, TrueDepths, DistinctRows, IsForest, Preorder, Elder, LessRoots, KeyOf, IsMaxOver,
      SubUrgency, Graph.IsRoot;
    var ts := MapOf(tasks);
    var ranked: seq<Scored> :| RootsOf(tasks, ts, now, ranked) && GroupsOf(ts, ranked, groups);
    HeadIsRanked(tasks, ts, now, ranked, i, r, groups[i], u);
    HeadIsRanked(tasks, ts, now, ranked, j, s, groups[j], v);
    RankedInOrder(tasks, ts, now, ranked, i, j);
    RootsAre(ranked[i].t, u, ranked[j].t, v);
  }

  lemma RankedInOrder(tasks: seq<Task>, ts: TaskMap, now: int, ranked: seq<Scored>, i: nat, j: nat)
    requires RootsOf(tasks, ts, now, ranked) && i < j < |ranked|
    ensures LessRoots(ranked[i].t, ranked[i].u, ranked[j].t, ranked[j].u)
  {
    hide LessRoots, RootKey;
    assert LexLess(KeyOf(ranked[i]), KeyOf(ranked[j]));
    RootsByKey(ranked[i].t, ranked[i].u, ranked[j].t, ranked[j].u);
  }

  /** Every group has one head, the root it was made for. */
  lemma GroupHasHead(tasks: seq<Task>, now: int, groups: seq<Group>, i: nat)
    requires DistinctTaskIds(tasks) && IsListing(tasks, now, groups) && i < |groups|
    ensures exists r :: Heads(MapOf(tasks), r, groups[i])
    ensures forall r, s :: Heads(MapOf(tasks), r, groups[i]) && Heads(MapOf(tasks), s, groups[i]) ==> r == s
  {
    hide RootsOf, IdsOf, TrueDepths, DistinctRows, IsForest, Preorder, Reaches;
    var ts := MapOf(tasks);
    var ranked: seq<Scored> :| RootsOf(tasks, ts, now, ranked) && GroupsOf(ts, ranked, groups);
    RankedIsStored(tasks, ts, now, ranked, i);
    assert Heads(ts, ranked[i].t.id, groups[i]);
    forall r, s | Heads(ts, r, groups[i]) && Heads(ts, s, groups[i]) ensures r == s {
      OnlyRootOf(ts, r, s);
    }
  }

  /** A root is reached by nothing but itself. */
  lemma OnlyRootOf(ts: TaskMap, r: Id, s: Id)
    requires Graph.IsRoot(ts, r) && Graph.IsRoot(ts, s) && Below(ts, r) == Below(ts, s)
    ensures r == s
  {
    ReachesSelf(ts, s);
    assert s in Below(ts, r);
    var p :| PathFromTo(ts, p, r, s);
    if |p| > 1 { HasParent(ts, p); }
  }

  lemma HeadIsRanked(tasks: seq<Task>, ts: TaskMap, now: int, ranked: seq<Scored>, i: nat, r: Id, g: Group, u: int)
    requires RootsOf(tasks, ts, now, ranked) && i < |ranked| && ranked[i].t.id in ts
    requires Heads(ts, r, g) && IdsOf(g) == Below(ts, ranked[i].t.id) && IsMaxOver(ts, IdsOf(g), now, u)
    ensures ranked[i].t == ts[r] && ranked[i].u == u
  {
    hide IdsOf, Below, IsMaxOver;
    RankedIsStored(tasks, ts, now, ranked, i);
    OnlyRootOf(ts, r, ranked[i].t.id);
    assert ranked[i] in ranked;
    MaxIsUnique(ts, IdsOf(g), now, u, SubUrgency(ts, ranked[i].t.id, now));
  }

  // ----- the order of arrival does not matter ------------------------------------------------

  /** Whatever order the server's map iteration delivered the tasks in, the
      listing is the same, group by group and row by row. */
  lemma ArrivalOrderIrrelevant(tasks: seq<Task>, us: seq<Task>, now: int, groups: seq<Group>, groups': seq<Group>)
    requires multiset(tasks) == multiset(us) && DistinctTaskIds(tasks) && DistinctTaskIds(us) && IsForest(MapOf(tasks))
    requires IsListing(tasks, now, groups) && IsListing(us, now, groups')
    ensures groups == groups'
  {
    hide RootsOf, Below, DistinctRows, IdsOf, Preorder, MapOf, DistinctTaskIds;
    SameMap(tasks, us);
    var ts := MapOf(tasks);
    var ranked: seq<Scored> :| RootsOf(tasks, ts, now, ranked) && GroupsOf(ts, ranked, groups);
    var ranked': seq<Scored> :| RootsOf(us, ts, now, ranked') && GroupsOf(ts, ranked', groups');
    SameRanking(tasks, us, ts, now, ranked, ranked');
    assert forall i :: 0 <= i < |groups| ==> groups[i] == Preorder(ts, ranked[i].t.id, 0);
  }

  lemma SameRanking(tasks: seq<Task>, us: seq<Task>, ts: TaskMap, now: int, ranked: seq<Scored>, ranked': seq<Scored>)
    requires multiset(tasks) == multiset(us)
    requires RootsOf(tasks, ts, now, ranked) && RootsOf(us, ts, now, ranked')
    ensures ranked == ranked'
  {
    SameScored(tasks, us, ts, now);
    SortedIsUnique(KeyOf, ranked, ranked');
  }

  lemma SameScored(tasks: seq<Task>, us: seq<Task>, ts: TaskMap, now: int)
    requires multiset(tasks) == multiset(us)
    requires forall t :: t in Selected(tasks, ts, IsOpen) ==> t.id in ts
    requires forall t :: t in Selected(us, ts, IsOpen) ==> t.id in ts
    ensures multiset(ScoredRoots(Selected(tasks, ts, IsOpen), ts, now))
         == multiset(ScoredRoots(Selected(us, ts, IsOpen), ts, now))
  {
    var xs, ys := Selected(tasks, ts, IsOpen), Selected(us, ts, IsOpen);
    forall t ensures multiset(xs)[t] == multiset(ys)[t] {
      SelectedByMultiset(tasks, ts, IsOpen, t);
      SelectedByMultiset(us, ts, IsOpen, t);
    }
    forall s: Scored ensures multiset(ScoredRoots(xs, ts, now))[s] == multiset(ScoredRoots(ys, ts, now))[s] {
      ScoredCount(xs, ts, now, s);
      ScoredCount(ys, ts, now, s);
    }
  }

  lemma {:induction false} ScoredCount(roots: seq<Task>, ts: TaskMap, now: int, s: Scored)
    requires forall t :: t in roots ==> t.id in ts
    ensures multiset(ScoredRoots(roots, ts, now))[s]
         == if s.t.id in ts && s.u == SubUrgency(ts, s.t.id, now) then multiset(roots)[s.t] else 0
  {
    var scored := ScoredRoots(roots, ts, now);
    if roots != [] {
      var n := |roots| - 1;
      assert roots == roots[..n] + [roots[n]];
      assert scored == ScoredRoots(roots[..n], ts, now) + [scored[n]];
      ScoredCount(roots[..n], ts, now, s);
    }
  }
}
