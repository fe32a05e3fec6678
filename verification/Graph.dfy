/** Containment as a directed graph: paths, reachability, cycles, forests.
    Nothing here follows how any program walks the graph. */
module Graph {
  import opened Tasks

  ghost predicate Edge(ts: TaskMap, a: Id, b: Id) {
    a in ts && b in ts && b in ts[a].content.childIds
  }

  ghost predicate IsPath(ts: TaskMap, p: seq<Id>) {
    && |p| > 0
    && (forall i | 0 <= i < |p| :: p[i] in ts)
    && (forall i, j | 0 <= i && j == i + 1 && j < |p| :: Edge(ts, p[i], p[j]))
  }

  ghost predicate PathFromTo(ts: TaskMap, p: seq<Id>, a: Id, b: Id) {
    IsPath(ts, p) && p[0] == a && p[|p| - 1] == b
  }

  ghost predicate Reaches(ts: TaskMap, a: Id, b: Id) {
    exists p :: PathFromTo(ts, p, a, b)
  }

  /** Everything at or below `a`. */
  ghost function Below(ts: TaskMap, a: Id): set<Id> {
    set x | x in ts && Reaches(ts, a, x)
  }

  ghost predicate Acyclic(ts: TaskMap) {
    forall p {:trigger IsPath(ts, p)} :: IsPath(ts, p) && |p| >= 2 ==> p[0] != p[|p| - 1]
  }

  ghost predicate NoDangling(ts: TaskMap) {
    forall a, c {:trigger c in ts[a].content.childIds} :: a in ts && c in ts[a].content.childIds ==> c in ts
  }

  /** Position `i` of `a`'s list holds `c`. */
  ghost predicate Lists(ts: TaskMap, a: Id, i: int, c: Id) {
    a in ts && 0 <= i < |ts[a].content.childIds| && ts[a].content.childIds[i] == c
  }

  /** Every id is listed at most once over all the lists together. */
  ghost predicate SingleContainer(ts: TaskMap) {
    forall a, i, b, j, c :: Lists(ts, a, i, c) && Lists(ts, b, j, c) ==> a == b && i == j
  }

  ghost predicate IsForest(ts: TaskMap) {
    NoDangling(ts) && SingleContainer(ts) && Acyclic(ts)
  }

  /** A forest but for ids listed that no task has. */
  ghost predicate Treelike(ts: TaskMap) {
    SingleContainer(ts) && Acyclic(ts)
  }

  ghost predicate Closed(ts: TaskMap, s: set<Id>) {
    forall a, b :: a in s && Edge(ts, a, b) ==> b in s
  }

  ghost predicate IsRoot(ts: TaskMap, id: Id) {
    id in ts && forall a {:trigger id in ts[a].content.childIds} :: a in ts ==> id !in ts[a].content.childIds
  }

  // ----- paths ----------------------------------------------------------------

  lemma PathPush(ts: TaskMap, p: seq<Id>, c: Id)
    requires c in ts && (|p| > 0 ==> IsPath(ts, p) && Edge(ts, p[|p| - 1], c))
    ensures IsPath(ts, p + [c])
  {
    var q := p + [c];
    forall i, j | 0 <= i && j == i + 1 && j < |q| ensures Edge(ts, q[i], q[j]) {
      if j < |p| {
        assert q[i] == p[i] && q[j] == p[j];
      }
    }
  }

  lemma EdgesMakePath(ts: TaskMap, p: seq<Id>)
    requires |p| >= 2 && forall i, j | 0 <= i && j == i + 1 && j < |p| :: Edge(ts, p[i], p[j])
    ensures IsPath(ts, p)
  {
    forall i | 0 <= i < |p| ensures p[i] in ts {
      if i > 0 {
        assert Edge(ts, p[i - 1], p[i]);
      } else {
        assert Edge(ts, p[0], p[1]);
      }
    }
  }

  lemma PathSlice(ts: TaskMap, p: seq<Id>, i: int, j: int)
    requires IsPath(ts, p) && 0 <= i < j <= |p|
    ensures IsPath(ts, p[i..j])
  {
    var q := p[i..j];
    forall k, l | 0 <= k && l == k + 1 && l < |q| ensures Edge(ts, q[k], q[l]) {
      assert q[k] == p[i + k] && q[l] == p[i + l];
    }
  }

  lemma PathAppend(ts: TaskMap, p: seq<Id>, a: Id, b: Id, c: Id)
    requires PathFromTo(ts, p, a, b) && Edge(ts, b, c)
    ensures PathFromTo(ts, p + [c], a, c)
    ensures Reaches(ts, a, c)
  {
    PathPush(ts, p, c);
    assert PathFromTo(ts, p + [c], a, c);
  }

  lemma PathConcat(ts: TaskMap, p: seq<Id>, q: seq<Id>, a: Id, b: Id, c: Id)
    requires PathFromTo(ts, p, a, b) && PathFromTo(ts, q, b, c)
    ensures PathFromTo(ts, p + q[1..], a, c)
  {
    var r := p + q[1..];
    forall i | 0 <= i < |r| - 1
      ensures Edge(ts, r[i], r[i + 1])
    {
      if i < |p| - 1 {
        assert r[i] == p[i] && r[i + 1] == p[i + 1];
      } else {
        assert r[i] == q[i - |p| + 1] && r[i + 1] == q[i - |p| + 2];
      }
    }
  }

  lemma ReachesSelf(ts: TaskMap, a: Id)
    requires a in ts
    ensures Reaches(ts, a, a)
  {
    assert PathFromTo(ts, [a], a, a);
  }

  lemma ReachesTrans(ts: TaskMap, a: Id, b: Id, c: Id)
    requires Reaches(ts, a, b) && Reaches(ts, b, c)
    ensures Reaches(ts, a, c)
  {
    var p :| PathFromTo(ts, p, a, b);
    var q :| PathFromTo(ts, q, b, c);
    PathConcat(ts, p, q, a, b, c);
  }

  lemma ReachesStep(ts: TaskMap, a: Id, b: Id, c: Id)
    requires Reaches(ts, a, b) && Edge(ts, b, c)
    ensures Reaches(ts, a, c)
  {
    var p :| PathFromTo(ts, p, a, b);
    PathAppend(ts, p, a, b, c);
  }

  lemma EdgeReaches(ts: TaskMap, a: Id, b: Id)
    requires Edge(ts, a, b)
    ensures Reaches(ts, a, b)
  {
    ReachesSelf(ts, a);
    ReachesStep(ts, a, a, b);
  }

  /** A path that is not a single point leaves through a child. */
  lemma ReachesFirstStep(ts: TaskMap, a: Id, b: Id) returns (c: Id)
    requires Reaches(ts, a, b) && a != b
    ensures Edge(ts, a, c) && Reaches(ts, c, b)
  {
    var p :| PathFromTo(ts, p, a, b);
    c := p[1];
    assert PathFromTo(ts, p[1..], c, b);
  }

  /** A set closed under children that holds `a` holds everything below `a`. */
  lemma {:induction false} ClosedHoldsPath(ts: TaskMap, s: set<Id>, p: seq<Id>)
    requires Closed(ts, s) && IsPath(ts, p) && p[0] in s
    ensures p[|p| - 1] in s
    decreases |p|
  {
    if |p| > 1 {
      assert Edge(ts, p[0], p[1]);
      var q := p[1..];
      PathSlice(ts, p, 1, |p|);
      ClosedHoldsPath(ts, s, q);
    }
  }

  lemma ClosedHoldsBelow(ts: TaskMap, s: set<Id>, a: Id)
    requires Closed(ts, s) && a in s
    ensures Below(ts, a) <= s
  {
    forall x | x in Below(ts, a) ensures x in s {
      var p :| PathFromTo(ts, p, a, x);
      ClosedHoldsPath(ts, s, p);
    }
  }

  lemma BelowIsClosed(ts: TaskMap, a: Id)
    ensures Closed(ts, Below(ts, a))
  {
    forall x, y | x in Below(ts, a) && Edge(ts, x, y) ensures y in Below(ts, a) {
      ReachesStep(ts, a, x, y);
    }
  }

  lemma NoWayBack(ts: TaskMap, a: Id, c: Id)
    requires Acyclic(ts) && Edge(ts, a, c)
    ensures !Reaches(ts, c, a)
  {
    if Reaches(ts, c, a) {
      var p :| PathFromTo(ts, p, c, a);
      PathAppend(ts, p, c, a, c);
      assert false;
    }
  }

  /** Without cycles, a child reaches strictly less than its parent. */
  lemma BelowShrinks(ts: TaskMap, a: Id, c: Id)
    requires Acyclic(ts) && Edge(ts, a, c)
    ensures Below(ts, c) < Below(ts, a)
    ensures |Below(ts, c)| < |Below(ts, a)|
  {
    ReachesSelf(ts, a);
    EdgeReaches(ts, a, c);
    forall x | x in Below(ts, c) ensures x in Below(ts, a) {
      ReachesTrans(ts, a, c, x);
    }
    NoWayBack(ts, a, c);
    assert a in Below(ts, a) - Below(ts, c);
    SubsetIsSmaller(Below(ts, c), Below(ts, a));
  }

  lemma SubsetIsSmaller<T>(a: set<T>, b: set<T>)
    requires a < b
    ensures |a| < |b|
  {
    assert b == a + (b - a);
    assert b - a != {};
  }

  /** What lies below a node is the node and what lies below its children. */
  lemma BelowUnfold(ts: TaskMap, a: Id)
    requires a in ts
    ensures a in Below(ts, a)
    ensures forall x :: x in Below(ts, a) <==>
      x == a || exists c :: Edge(ts, a, c) && x in Below(ts, c)
  {
    ReachesSelf(ts, a);
    forall x
      ensures x in Below(ts, a) <==> x == a || exists c :: Edge(ts, a, c) && x in Below(ts, c)
    {
      if x in Below(ts, a) && x != a {
        var c := ReachesFirstStep(ts, a, x);
        assert Edge(ts, a, c) && x in Below(ts, c);
      }
      if exists c :: Edge(ts, a, c) && x in Below(ts, c) {
        var c :| Edge(ts, a, c) && x in Below(ts, c);
        EdgeReaches(ts, a, c);
        ReachesTrans(ts, a, c, x);
      }
    }
  }

  // ----- forests --------------------------------------------------------------

  /** A numbering that falls along every edge rules out cycles. */
  lemma {:induction false} RankFalls(ts: TaskMap, rank: map<Id, int>, p: seq<Id>)
    requires IsPath(ts, p)
    requires forall a, b :: Edge(ts, a, b) ==> a in rank && b in rank && rank[b] < rank[a]
    requires |p| >= 2
    ensures p[0] in rank && p[|p| - 1] in rank && rank[p[|p| - 1]] < rank[p[0]]
    decreases |p|
  {
    assert Edge(ts, p[0], p[1]);
    if |p| > 2 {
      var q := p[1..];
      PathSlice(ts, p, 1, |p|);
      RankFalls(ts, rank, q);
    }
  }

  lemma RankedIsAcyclic(ts: TaskMap, rank: map<Id, int>)
    requires forall a, b :: Edge(ts, a, b) ==> a in rank && b in rank && rank[b] < rank[a]
    ensures Acyclic(ts)
  {
    forall p | IsPath(ts, p) && |p| >= 2 ensures p[0] != p[|p| - 1] {
      RankFalls(ts, rank, p);
    }
  }

  /** Fewer edges, no new cycles. */
  lemma FewerEdgesStayAcyclic(ts: TaskMap, us: TaskMap)
    requires Acyclic(ts)
    requires forall a, b :: Edge(us, a, b) ==> Edge(ts, a, b)
    ensures Acyclic(us)
  {
    forall p | IsPath(us, p) && |p| >= 2 ensures p[0] != p[|p| - 1] {
      forall i | 0 <= i < |p| ensures p[i] in ts {
        if i < |p| - 1 {
          assert Edge(us, p[i], p[i + 1]);
          assert Edge(ts, p[i], p[i + 1]);
        } else {
          assert Edge(us, p[i - 1], p[i]);
          assert Edge(ts, p[i - 1], p[i]);
        }
      }
      forall i | 0 <= i < |p| - 1 ensures Edge(ts, p[i], p[i + 1]) {
        assert Edge(us, p[i], p[i + 1]);
      }
      assert IsPath(ts, p);
    }
  }

  lemma ListedAt(ts: TaskMap, a: Id, c: Id) returns (i: nat)
    requires a in ts && c in ts[a].content.childIds
    ensures Lists(ts, a, i, c)
  {
    i :| 0 <= i < |ts[a].content.childIds| && ts[a].content.childIds[i] == c;
  }

  lemma OneParent(ts: TaskMap, a: Id, b: Id, c: Id)
    requires SingleContainer(ts) && Edge(ts, a, c) && Edge(ts, b, c)
    ensures a == b
  {
    var i := ListedAt(ts, a, c);
    var j := ListedAt(ts, b, c);
  }

  /** Among trees the subtrees of two different children share nothing. */
  lemma SubtreesDisjoint(ts: TaskMap, a: Id, c: Id, d: Id, x: Id)
    requires Treelike(ts) && Edge(ts, a, c) && Edge(ts, a, d)
    requires Reaches(ts, c, x) && Reaches(ts, d, x)
    ensures c == d
  {
    var p :| PathFromTo(ts, p, c, x);
    var q :| PathFromTo(ts, q, d, x);
    PathsMeetAtOneChild(ts, a, p, q);
  }

  lemma {:induction false} PathsMeetAtOneChild(ts: TaskMap, a: Id, p: seq<Id>, q: seq<Id>)
    requires Treelike(ts)
    requires IsPath(ts, p) && Edge(ts, a, p[0]) && IsPath(ts, q) && Edge(ts, a, q[0])
    requires p[|p| - 1] == q[|q| - 1]
    ensures p[0] == q[0]
    decreases |p| + |q|
  {
    if |p| == 1 {
      ChildNotBelowSibling(ts, a, p[0], q);
    } else if |q| == 1 {
      ChildNotBelowSibling(ts, a, q[0], p);
    } else {
      var x := p[|p| - 1];
      assert Edge(ts, p[|p| - 2], x) && Edge(ts, q[|q| - 2], x);
      OneParent(ts, p[|p| - 2], q[|q| - 2], x);
      PathsMeetAtOneChild(ts, a, p[..|p| - 1], q[..|q| - 1]);
    }
  }

  /** A path that starts at a child of `a` ends at a child of `a` only at once. */
  lemma ChildNotBelowSibling(ts: TaskMap, a: Id, c: Id, q: seq<Id>)
    requires Treelike(ts) && Edge(ts, a, c) && IsPath(ts, q) && Edge(ts, a, q[0])
    requires q[|q| - 1] == c
    ensures q[0] == c
  {
    if |q| > 1 {
      var y := q[|q| - 2];
      assert Edge(ts, y, c);
      OneParent(ts, a, y, c);
      assert PathFromTo(ts, q[..|q| - 1], q[0], a);
      NoWayBack(ts, a, q[0]);
    }
  }

  // ----- children one by one ---------------------------------------------------

  /** What lies below the first `n` children. */
  ghost function BelowKids(ts: TaskMap, a: Id, n: nat): set<Id>
    requires a in ts && n <= |Kids(ts, a)|
  {
    set x, i | 0 <= i < n && x in Below(ts, Kids(ts, a)[i]) :: x
  }

  lemma BelowKidsGrows(ts: TaskMap, a: Id, n: nat)
    requires a in ts && n < |Kids(ts, a)|
    ensures BelowKids(ts, a, n + 1) == BelowKids(ts, a, n) + Below(ts, Kids(ts, a)[n])
  {
  }

  lemma BelowIsKids(ts: TaskMap, a: Id)
    requires a in ts
    ensures Below(ts, a) == {a} + BelowKids(ts, a, |Kids(ts, a)|)
  {
    BelowUnfold(ts, a);
    forall x | x in BelowKids(ts, a, |Kids(ts, a)|) ensures x in Below(ts, a) {
      var i :| 0 <= i < |Kids(ts, a)| && x in Below(ts, Kids(ts, a)[i]);
      var p :| PathFromTo(ts, p, Kids(ts, a)[i], x);
      assert Edge(ts, a, Kids(ts, a)[i]);
    }
  }

  /** Among trees, no earlier sibling's subtree holds `a` or anything of the next. */
  lemma KidsApart(ts: TaskMap, a: Id, n: nat)
    requires Treelike(ts) && a in ts && n < |Kids(ts, a)|
    ensures Kids(ts, a)[n] in ts ==> Edge(ts, a, Kids(ts, a)[n])
    ensures a !in Below(ts, Kids(ts, a)[n])
    ensures BelowKids(ts, a, n) !! Below(ts, Kids(ts, a)[n])
  {
    var c := Kids(ts, a)[n];
    assert c in ts[a].content.childIds;
    if c in ts {
      NoWayBack(ts, a, c);
    } else {
      NothingBelow(ts, c);
    }
    forall x | x in BelowKids(ts, a, n) ensures x !in Below(ts, c) {
      var i :| 0 <= i < n && x in Below(ts, Kids(ts, a)[i]);
      var d := Kids(ts, a)[i];
      assert d in ts[a].content.childIds;
      assert Lists(ts, a, i, d) && Lists(ts, a, n, c);
      if x in Below(ts, c) {
        StartsInside(ts, c, x);
        StartsInside(ts, d, x);
        SubtreesDisjoint(ts, a, d, c, x);
      }
    }
  }

  lemma StartsInside(ts: TaskMap, a: Id, x: Id)
    requires Reaches(ts, a, x)
    ensures a in ts && x in ts
  {
  }

  lemma NothingBelow(ts: TaskMap, c: Id)
    requires c !in ts
    ensures Below(ts, c) == {}
  {
  }

  lemma NotBelowKids(ts: TaskMap, a: Id, n: nat)
    requires Treelike(ts) && a in ts && n <= |Kids(ts, a)|
    ensures a !in BelowKids(ts, a, n)
  {
    forall i | 0 <= i < n ensures a !in Below(ts, Kids(ts, a)[i]) {
      KidsApart(ts, a, i);
    }
  }

  lemma StoredKid(ts: TaskMap, a: Id, k: nat)
    requires IsForest(ts) && a in ts && k < |Kids(ts, a)|
    ensures Kids(ts, a)[k] in ts && Edge(ts, a, Kids(ts, a)[k])
  {
    assert Kids(ts, a)[k] in Kids(ts, a);
  }

  // ----- roots -----------------------------------------------------------------

  /** Among trees every task hangs below exactly one root. */
  lemma {:induction false} RootAbove(ts: TaskMap, x: Id) returns (r: Id)
    requires Treelike(ts) && x in ts
    ensures IsRoot(ts, r) && Reaches(ts, r, x)
    decreases |ts| - |Below(ts, x)|
  {
    ReachesSelf(ts, x);
    if IsRoot(ts, x) {
      r := x;
    } else {
      var a :| a in ts && x in ts[a].content.childIds;
      assert Edge(ts, a, x);
      BelowShrinks(ts, a, x);
      assert Below(ts, a) <= ts.Keys;
      NoMoreThan(Below(ts, a), ts.Keys);
      r := RootAbove(ts, a);
      ReachesStep(ts, r, a, x);
    }
  }

  lemma NoMoreThan<T>(a: set<T>, b: set<T>)
    requires a <= b
    ensures |a| <= |b|
  {
    if a != b { SubsetIsSmaller(a, b); }
  }

  lemma RootIsUnique(ts: TaskMap, r: Id, s: Id, x: Id)
    requires Treelike(ts) && IsRoot(ts, r) && IsRoot(ts, s)
    requires Reaches(ts, r, x) && Reaches(ts, s, x)
    ensures r == s
  {
    var p :| PathFromTo(ts, p, r, x);
    var q :| PathFromTo(ts, q, s, x);
    PathsFromRootsMeet(ts, p, q);
  }

  lemma {:induction false} PathsFromRootsMeet(ts: TaskMap, p: seq<Id>, q: seq<Id>)
    requires Treelike(ts) && IsPath(ts, p) && IsPath(ts, q)
    requires IsRoot(ts, p[0]) && IsRoot(ts, q[0]) && p[|p| - 1] == q[|q| - 1]
    ensures p[0] == q[0]
    decreases |p|
  {
    if |p| > 1 { HasParent(ts, p); }
    if |q| > 1 { HasParent(ts, q); }
    if |p| > 1 && |q| > 1 {
      var x := p[|p| - 1];
      assert Edge(ts, p[|p| - 2], x) && Edge(ts, q[|q| - 2], x);
      OneParent(ts, p[|p| - 2], q[|q| - 2], x);
      PathSlice(ts, p, 0, |p| - 1);
      PathSlice(ts, q, 0, |q| - 1);
      PathsFromRootsMeet(ts, p[0..|p| - 1], q[0..|q| - 1]);
    }
  }

  lemma HasParent(ts: TaskMap, p: seq<Id>)
    requires IsPath(ts, p) && |p| > 1
    ensures !IsRoot(ts, p[|p| - 1])
  {
    assert Edge(ts, p[|p| - 2], p[|p| - 1]);
  }
}
