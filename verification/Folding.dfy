/** What a fold does, among trees: which rows are open, what stands below an open
    row and below a closed one, and which tasks have a row at all. */
module Folding {
  import opened Tasks
  import opened Graph
  import opened Scoring
  import opened Walks
  import opened Scores
  import opened Ledger
  import opened Outline

  // ----- what a row says ------------------------------------------------------------

  /** Something strictly below the task needs attention. */
  ghost predicate NeedsAttentionBelow(ts: TaskMap, a: Id, now: int) {
    exists x :: x in ts && x != a && Reaches(ts, a, x) && NeedsAttention(ts[x], now)
  }

  /** A task's row is open as the user left it, or, where the user never chose, just
      when something strictly below needs attention. Its numbers count the subtree. */
  lemma RowTells(v: View, q: Query, rows: seq<Row>, r: Row)
    requires Treelike(v.ts) && v.scores.Keys == v.ts.Keys && AllExact(v.ts, v.scores, q)
    requires TrueRows(v, rows) && r in rows && r.kind.TaskRow?
    ensures r.id in v.ts
    ensures r.expanded <==>
      if r.id in v.folds then v.folds[r.id] else NeedsAttentionBelow(v.ts, r.id, q.now)
    ensures r.descendants == |Below(v.ts, r.id) - {r.id}|
    ensures r.attention == |set x | x in Below(v.ts, r.id) && x != r.id && NeedsAttention(v.ts[x], q.now)|
    ensures r.dimmed <==> v.filtering && !MatchesSelf(v.ts[r.id], q.f, q.now)
  {
    hide Reaches, Acyclic, SingleContainer, NeedsAttention, MatchesSelf, ScoreOf, NeedingAttention;
    assert v.scores[r.id] == ScoreOf(v.ts, r.id, q);
    CountsAreTrue(v.ts, r.id, q);
    SelfMatchesIsHit(v.ts, r.id, |Kids(v.ts, r.id)|, q);
    ScoreIsOfKids(v.ts, r.id, q);
    AttentionIsBelow(v.ts, r.id, q.now);
  }

  lemma ScoreIsOfKids(ts: TaskMap, a: Id, q: Query)
    requires Acyclic(ts) && a in ts
    ensures ScoreOf(ts, a, q) == ScoreOfKids(ts, a, |Kids(ts, a)|, q)
  {
    hide Acyclic;
  }

  lemma AttentionIsBelow(ts: TaskMap, a: Id, now: int)
    ensures NeedingAttention(ts, Below(ts, a) - {a}, now) ==
      set x | x in Below(ts, a) && x != a && NeedsAttention(ts[x], now)
    ensures |NeedingAttention(ts, Below(ts, a) - {a}, now)| > 0 <==> NeedsAttentionBelow(ts, a, now)
  {
    hide Reaches, NeedsAttention;
    var needing := NeedingAttention(ts, Below(ts, a) - {a}, now);
    if needing != {} {
      var x :| x in needing;
      assert |needing| > 0;
    }
    if x :| x in ts && x != a && Reaches(ts, a, x) && NeedsAttention(ts[x], now) {
      assert x in needing;
    }
  }

  lemma {:induction false} SelfMatchesIsHit(ts: TaskMap, a: Id, n: nat, q: Query)
    requires Acyclic(ts) && a in ts && n <= |Kids(ts, a)|
    ensures ScoreOfKids(ts, a, n, q).selfMatches == Hit(q, ts[a])
  {
    hide Acyclic, Hit;
    if n > 0 {
      SelfMatchesIsHit(ts, a, n - 1, q);
      ScoreUnfold(ts, a, n - 1, q);
    }
  }

  // ----- what stands below a row ------------------------------------------------------

  function LinesOf(rows: seq<Row>): (lines: seq<Line>)
    ensures |lines| == |rows|
    ensures forall i :: 0 <= i < |rows| ==> lines[i] == Line(rows[i].id, rows[i].depth, rows[i].expanded)
  {
    seq(|rows|, i requires 0 <= i < |rows| => Line(rows[i].id, rows[i].depth, rows[i].expanded))
  }

  lemma LinesJoin(a: seq<Row>, b: seq<Row>)
    ensures LinesOf(a + b) == LinesOf(a) + LinesOf(b)
  {
  }

  /** Among trees every row of the ledger unfolds to its listed children, or to
      nothing. */
  lemma {:induction false} RowsUnfold(v: View, roots: seq<Task>, rows: seq<Row>, i: nat)
    requires Treelike(v.ts) && AreRoots(v, roots) && rows == Trees(v, roots, |roots|) && i < |rows|
    ensures Unfolded(v.ts, LinesOf(rows), i)
  {
    hide Unfolded;
    TreesShaped(v, roots, |roots|);
  }

  lemma {:induction false} TreeShaped(v: View, a: Id, depth: nat, last: bool)
    requires Treelike(v.ts) && a in v.ts
    ensures Shaped(v.ts, LinesOf(Tree(v, a, depth, last)), depth)
    ensures AtDepth(LinesOf(Tree(v, a, depth, last)), depth) == [a]
    decreases |Below(v.ts, a)|, |Kids(v.ts, a)| + 1
  {
    hide Shaped, AtDepth, LinesOf, Reaches, Acyclic, SingleContainer, Open, KidRows;
    var top := RowFor(v, a, depth, last);
    var rest := if Open(v, a) then KidRows(v, a, |Kids(v.ts, a)|, depth + 1) else [];
    if Open(v, a) {
      KidRowsShaped(v, a, |Kids(v.ts, a)|, depth + 1);
      assert Kids(v.ts, a)[..|Kids(v.ts, a)|] == Kids(v.ts, a);
    } else {
      NothingShaped(v.ts, depth + 1);
      assert LinesOf(rest) == [];
    }
    TopShaped(v.ts, LinesOf([top])[0], LinesOf(rest));
    LinesJoin([top], rest);
    assert LinesOf([top]) == [LinesOf([top])[0]];
  }

  lemma {:induction false} KidRowsShaped(v: View, a: Id, n: nat, depth: nat)
    requires Treelike(v.ts) && a in v.ts && n <= |Kids(v.ts, a)|
    ensures Shaped(v.ts, LinesOf(KidRows(v, a, n, depth)), depth)
    ensures AtDepth(LinesOf(KidRows(v, a, n, depth)), depth) == Kids(v.ts, a)[..n]
    decreases |Below(v.ts, a)|, n
  {
    hide Shaped, AtDepth, LinesOf, Reaches, Acyclic, SingleContainer, Tree;
    if n == 0 {
      NothingShaped(v.ts, depth);
      assert LinesOf(KidRows(v, a, 0, depth)) == [];
    } else {
      var c := Kids(v.ts, a)[n - 1];
      KidsApart(v.ts, a, n - 1);
      KidRowsShaped(v, a, n - 1, depth);
      var before := KidRows(v, a, n - 1, depth);
      var last := n == |Kids(v.ts, a)|;
      var next := if c in v.ts then Tree(v, c, depth, last) else [Missing(c, depth, last)];
      if c in v.ts {
        KidRowsUnfold(v, a, n - 1, depth);
        BelowShrinks(v.ts, a, c);
        TreeShaped(v, c, depth, last);
      } else {
        KidRowsMissing(v, a, n - 1, depth);
        LeafShaped(v.ts, LinesOf(next)[0]);
        assert LinesOf(next) == [LinesOf(next)[0]];
      }
      LinesJoin(before, next);
      ShapedJoin(v.ts, LinesOf(before), LinesOf(next), depth);
      AtDepthJoin(LinesOf(before), LinesOf(next), depth);
      assert Kids(v.ts, a)[..n] == Kids(v.ts, a)[..n - 1] + [c];
    }
  }

  lemma {:induction false} TreesShaped(v: View, roots: seq<Task>, n: nat)
    requires Treelike(v.ts) && AreRoots(v, roots) && n <= |roots|
    ensures Shaped(v.ts, LinesOf(Trees(v, roots, n)), 0)
  {
    hide Shaped, LinesOf, Acyclic, SingleContainer, Tree;
    if n == 0 {
      NothingShaped(v.ts, 0);
      assert LinesOf(Trees(v, roots, 0)) == [];
    } else {
      TreesShaped(v, roots, n - 1);
      TreeShaped(v, roots[n - 1].id, 0, true);
      var before, next := Trees(v, roots, n - 1), Tree(v, roots[n - 1].id, 0, true);
      LinesJoin(before, next);
      ShapedJoin(v.ts, LinesOf(before), LinesOf(next), 0);
    }
  }

  /** The rows at the top are those of the roots, in the order of the list. */
  lemma {:induction false} TopRowIs(v: View, roots: seq<Task>, n: nat, i: nat) returns (k: nat)
    requires Treelike(v.ts) && AreRoots(v, roots) && n <= |roots|
    requires i < |Trees(v, roots, n)| && Trees(v, roots, n)[i].depth == 0
    ensures k < n && |Trees(v, roots, k)| == i && Trees(v, roots, n)[i] == RowFor(v, roots[k].id, 0, true)
  {
    hide Acyclic, SingleContainer, Tree, RowFor;
    var before := |Trees(v, roots, n - 1)|;
    if i < before {
      k := TopRowIs(v, roots, n - 1, i);
    } else {
      k := n - 1;
      OneTop(v, roots[k].id, i - before);
    }
  }

  lemma OneTop(v: View, a: Id, i: nat)
    requires Treelike(v.ts) && a in v.ts && i < |Tree(v, a, 0, true)| && Tree(v, a, 0, true)[i].depth == 0
    ensures i == 0 && Tree(v, a, 0, true)[0] == RowFor(v, a, 0, true)
  {
    hide Acyclic, SingleContainer, KidRows, Open;
    if i > 0 {
      KidRowsShaped(v, a, |Kids(v.ts, a)|, 1);
      assert false;
    }
  }

  lemma TreesGrow(v: View, roots: seq<Task>, m: nat, n: nat)
    requires Acyclic(v.ts) && AreRoots(v, roots) && m <= n <= |roots|
    ensures |Trees(v, roots, m)| <= |Trees(v, roots, n)|
    decreases n
  {
    hide Acyclic, Tree;
    if m < n { TreesGrow(v, roots, m, n - 1); }
  }

  /** So of two rows at the top the upper one is of the earlier root. */
  lemma {:induction false} TopRowsAre(v: View, roots: seq<Task>, rows: seq<Row>, i: nat, j: nat)
    requires Treelike(v.ts) && AreRoots(v, roots) && rows == Trees(v, roots, |roots|)
    requires i < j < |rows| && rows[i].depth == 0 == rows[j].depth
    ensures exists k, l :: 0 <= k < l < |roots| && rows[i].id == roots[k].id && rows[j].id == roots[l].id
  {
    hide Acyclic, SingleContainer, Trees;
    var k := TopRowIs(v, roots, |roots|, i);
    var l := TopRowIs(v, roots, |roots|, j);
    if l <= k { TreesGrow(v, roots, l, k); }
  }

  // ----- which tasks have a row -------------------------------------------------------

  /** A way down from one of the roots through open tasks only. */
  ghost predicate OpenWay(v: View, roots: seq<Task>, p: seq<Id>) {
    && |p| > 0 && IsPath(v.ts, p) && (exists t :: t in roots && t.id == p[0])
    && forall k :: 0 <= k < |p| - 1 ==> Open(v, p[k])
  }

  ghost predicate OpenTo(v: View, roots: seq<Task>, x: Id) {
    exists p :: OpenWay(v, roots, p) && p[|p| - 1] == x
  }

  /** Among trees a task has a row just when a way through open tasks leads to it
      from a root of the list. */
  lemma ShownIff(v: View, roots: seq<Task>, rows: seq<Row>, cut: nat, x: Id)
    requires Treelike(v.ts) && AreRoots(v, roots) && Built(v, roots, rows, cut) && rows == Trees(v, roots, |roots|)
    ensures Shows(rows, x) <==> OpenTo(v, roots, x)
  {
    hide Open, IsPath, Acyclic, SingleContainer, Trees, AreRoots, Built, OpenWay;
    if i :| 0 <= i < |rows| && rows[i].kind.TaskRow? && rows[i].id == x {
      var p := TreesWay(v, roots, |roots|, i);
    }
    if OpenTo(v, roots, x) {
      LastOfWayIsShown(v, roots, rows, cut, x);
    }
  }

  lemma LastOfWayIsShown(v: View, roots: seq<Task>, rows: seq<Row>, cut: nat, x: Id)
    requires Built(v, roots, rows, cut) && OpenTo(v, roots, x)
    ensures Shows(rows, x)
  {
    hide Open, Built, Shows;
    var p :| OpenWay(v, roots, p) && p[|p| - 1] == x;
    OpenWayIsShown(v, roots, rows, cut, p, |p| - 1);
  }

  lemma {:induction false} OpenWayIsShown(v: View, roots: seq<Task>, rows: seq<Row>, cut: nat, p: seq<Id>, k: nat)
    requires Built(v, roots, rows, cut) && OpenWay(v, roots, p) && k < |p|
    ensures Shows(rows, p[k])
  {
    hide Open, NoTaskTwice, TrueRows, Nested, OrphanPart;
    if k > 0 {
      OpenWayIsShown(v, roots, rows, cut, p, k - 1);
      assert Edge(v.ts, p[k - 1], p[k]);
    }
  }

  /** ... from `a`, when `i` is a task's row. */
  ghost predicate WayFrom(v: View, a: Id, p: seq<Id>, r: Row) {
    && |p| > 0 && IsPath(v.ts, p) && p[0] == a && p[|p| - 1] == r.id && forall k :: 0 <= k < |p| - 1 ==> Open(v, p[k])
  }

  lemma {:induction false} TreesWay(v: View, roots: seq<Task>, n: nat, i: nat) returns (p: seq<Id>)
    requires Treelike(v.ts) && AreRoots(v, roots) && n <= |roots|
    requires i < |Trees(v, roots, n)| && Trees(v, roots, n)[i].kind.TaskRow?
    ensures OpenWay(v, roots, p) && p[|p| - 1] == Trees(v, roots, n)[i].id
  {
    hide Open, Acyclic, SingleContainer, Tree;
    var before := |Trees(v, roots, n - 1)|;
    if i < before {
      p := TreesWay(v, roots, n - 1, i);
    } else {
      p := TreeWay(v, roots[n - 1].id, 0, true, i - before);
    }
  }

  lemma {:induction false} TreeWay(v: View, a: Id, depth: nat, last: bool, i: nat) returns (p: seq<Id>)
    requires Treelike(v.ts) && a in v.ts
    requires i < |Tree(v, a, depth, last)| && Tree(v, a, depth, last)[i].kind.TaskRow?
    ensures WayFrom(v, a, p, Tree(v, a, depth, last)[i])
    decreases |Below(v.ts, a)|, |Kids(v.ts, a)| + 1
  {
    hide Open, Acyclic, SingleContainer, KidRows;
    if i == 0 {
      p := [a];
    } else {
      p := KidRowsWay(v, a, |Kids(v.ts, a)|, depth + 1, i - 1);
    }
  }

  lemma {:induction false} KidRowsWay(v: View, a: Id, n: nat, depth: nat, i: nat) returns (p: seq<Id>)
    requires Treelike(v.ts) && a in v.ts && n <= |Kids(v.ts, a)| && Open(v, a)
    requires i < |KidRows(v, a, n, depth)| && KidRows(v, a, n, depth)[i].kind.TaskRow?
    ensures WayFrom(v, a, p, KidRows(v, a, n, depth)[i])
    decreases |Below(v.ts, a)|, n
  {
    hide Open, Acyclic, SingleContainer, Tree, IsPath, WayFrom;
    var c := Kids(v.ts, a)[n - 1];
    KidsApart(v.ts, a, n - 1);
    var before := |KidRows(v, a, n - 1, depth)|;
    if i < before {
      p := KidRowsWay(v, a, n - 1, depth, i);
    } else {
      BelowShrinks(v.ts, a, c);
      var q := TreeWay(v, c, depth, n == |Kids(v.ts, a)|, i - before);
      p := WayDown(v, a, c, q, Tree(v, c, depth, n == |Kids(v.ts, a)|)[i - before]);
    }
  }

  lemma WayDown(v: View, a: Id, c: Id, q: seq<Id>, r: Row) returns (p: seq<Id>)
    requires Edge(v.ts, a, c) && Open(v, a) && WayFrom(v, c, q, r)
    ensures WayFrom(v, a, p, r)
  {
    hide Open;
    p := [a] + q;
    forall i, j | 0 <= i && j == i + 1 && j < |p| ensures Edge(v.ts, p[i], p[j]) {
      if i > 0 { assert p[i] == q[i - 1] && p[j] == q[j - 1]; }
    }
  }

  /** Folding a task leaves its own row where it is: the way down to it does not
      pass through it. */
  lemma FoldKeepsWay(v: View, roots: seq<Task>, x: Id, open: bool)
    requires Acyclic(v.ts) && OpenTo(v, roots, x)
    ensures OpenTo(v.(folds := v.folds[x := open]), roots, x)
  {
    var p :| OpenWay(v, roots, p) && p[|p| - 1] == x;
    var w := v.(folds := v.folds[x := open]);
    forall k | 0 <= k < |p| - 1 ensures Open(w, p[k]) {
      PathSlice(v.ts, p, k, |p|);
      assert p[k..|p|][0] != p[k..|p|][|p| - k - 1];
    }
    assert OpenWay(w, roots, p);
  }
}
