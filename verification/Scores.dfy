/** The ledger's memoised scores. On any graph the walk terminates and scores
    every task; without cycles the memo holds the recursive definition; on a
    forest the counts are true subtree counts. */
module Scores {
  import opened Tasks
  import opened Graph
  import opened StoreSpec
  import opened Scoring
  import opened Walks

  datatype Score = Score(
    own: int,
    sub: int,
    attention: nat,
    descendants: nat,
    allComplete: bool,
    matches: bool,
    selfMatches: bool
  )

  /** What the scores depend on besides the tasks. */
  datatype Query = Query(f: Filters, now: int)

  predicate Hit(q: Query, t: Task) { MatchesSelf(t, q.f, q.now) }

  /** The filter as the selection takes it. */
  function HitOf(q: Query): (p: Task -> bool)
    ensures forall t :: p(t) == Hit(q, t)
  {
    (t: Task) => Hit(q, t)
  }

  function OwnScore(t: Task, q: Query): Score {
    var u, m := Urgency(t, q.now), Hit(q, t);
    Score(u, u, 0, 0, t.content.status.Terminal(), m, m)
  }

  function AddChild(s: Score, c: Task, cs: Score, q: Query): Score {
    Score(s.own,
          if cs.sub > s.sub then cs.sub else s.sub,
          s.attention + cs.attention + (if NeedsAttention(c, q.now) then 1 else 0),
          s.descendants + cs.descendants + 1,
          s.allComplete && cs.allComplete,
          s.matches || cs.matches,
          s.selfMatches)
  }

  /** The recursive definition, on acyclic data. */
  ghost function ScoreOf(ts: TaskMap, a: Id, q: Query): Score
    requires Acyclic(ts) && a in ts
    decreases |Below(ts, a)|, |Kids(ts, a)| + 1
  {
    ScoreOfKids(ts, a, |Kids(ts, a)|, q)
  }

  /** ... after the first `n` children. */
  ghost function ScoreOfKids(ts: TaskMap, a: Id, n: nat, q: Query): Score
    requires Acyclic(ts) && a in ts && n <= |Kids(ts, a)|
    decreases |Below(ts, a)|, n
  {
    if n == 0 then OwnScore(ts[a], q)
    else
      var c := Kids(ts, a)[n - 1];
      var s := ScoreOfKids(ts, a, n - 1, q);
      if c in ts then assert Edge(ts, a, c); BelowShrinks(ts, a, c); AddChild(s, ts[c], ScoreOf(ts, c, q), q) else s
  }

  lemma ScoreUnfold(ts: TaskMap, a: Id, n: nat, q: Query)
    requires Acyclic(ts) && a in ts && n < |Kids(ts, a)|
    ensures ScoreOfKids(ts, a, n + 1, q)
         == if Kids(ts, a)[n] in ts
            then AddChild(ScoreOfKids(ts, a, n, q), ts[Kids(ts, a)[n]], ScoreOf(ts, Kids(ts, a)[n], q), q)
            else ScoreOfKids(ts, a, n, q)
  {
  }

  // ----- the memoised walk ---------------------------------------------------------

  /** True on any graph: a score may leave things out on a cycle, but everything
      it claims is there. */
  ghost predicate Honest(ts: TaskMap, a: Id, s: Score, q: Query) {
    && a in ts
    && s.own == Urgency(ts[a], q.now) <= s.sub
    && s.selfMatches == Hit(q, ts[a])
    && (s.selfMatches ==> s.matches)
    && (!ts[a].content.status.Terminal() ==> !s.allComplete)
    && (exists x :: x in Below(ts, a) && Urgency(ts[x], q.now) == s.sub)
    && (s.matches ==> exists x :: x in Below(ts, a) && Hit(q, ts[x]))
    && (!s.allComplete ==> exists x :: x in Below(ts, a) && !ts[x].content.status.Terminal())
  }

  ghost predicate AllHonest(ts: TaskMap, scores: map<Id, Score>, q: Query) {
    forall x {:trigger scores[x]} :: x in scores ==> Honest(ts, x, scores[x], q)
  }

  ghost predicate AllExact(ts: TaskMap, scores: map<Id, Score>, q: Query) {
    Acyclic(ts) ==> forall x {:trigger scores[x]} :: x in scores ==> x in ts && scores[x] == ScoreOf(ts, x, q)
  }

  /** The nodes on the path are proper ancestors of `a`. */
  ghost predicate AllAbove(ts: TaskMap, path: set<Id>, a: Id) {
    forall x :: x in path ==> x != a && Reaches(ts, x, a)
  }

  /** What a child's walk hands back: its memo, or the neutral score on a back edge. */
  ghost predicate Handed(ts: TaskMap, a: Id, s: Score, q: Query) {
    Honest(ts, a, s, q) || (a in ts && s == Score(0, 0, 0, 0, true, false, Hit(q, ts[a])))
  }

  /** The memo only grows. */
  ghost predicate Grown(before: map<Id, Score>, after: map<Id, Score>) {
    forall x {:trigger before[x]} :: x in before ==> x in after && after[x] == before[x]
  }

  class Scorer {
    const ts: TaskMap
    const q: Query
    var scores: map<Id, Score>
    var onPath: set<Id>

    constructor (ts: TaskMap, q: Query)
      ensures this.ts == ts && this.q == q && scores == map[] && onPath == {}
    {
      this.ts, this.q, scores, onPath := ts, q, map[], {};
    }

    ghost predicate Valid()
      reads this
    {
      AllHonest(ts, scores, q) && AllExact(ts, scores, q)
    }

    method Walk(t: Task) returns (s: Score)
      requires KeysMatch(ts) && t.id in ts && ts[t.id] == t && Valid()
      requires Acyclic(ts) ==> AllAbove(ts, onPath, t.id)
      modifies this
      ensures Valid() && onPath == old(onPath) && Grown(old(scores), scores)
      ensures t.id !in old(onPath) ==> t.id in scores && scores[t.id] == s
      ensures Handed(ts, t.id, s, q)
      ensures Acyclic(ts) ==> s == ScoreOf(ts, t.id, q)
      decreases ts.Keys - onPath, 0
    {
      if t.id in scores { return scores[t.id]; }
      var selfM := MatchesSelf(t, q.f, q.now);
      if t.id in onPath {
        return Score(0, 0, 0, 0, true, false, selfM);
      }
      onPath := onPath + {t.id};
      var own := Urgency(t, q.now);
      s := Score(own, own, 0, 0, t.content.status.Terminal(), selfM, selfM);
      OwnIsHonest(ts, t, q);
      var kids := t.content.childIds;
      ghost var exact := Acyclic(ts);
      for k := 0 to |kids|
        invariant Valid() && onPath == old(onPath) + {t.id} && Grown(old(scores), scores)
        invariant Honest(ts, t.id, s, q)
        invariant exact ==> s == ScoreOfKids(ts, t.id, k, q)
      {
        if exact { ScoreUnfold(ts, t.id, k, q); }
        if kids[k] in ts {
          assert kids[k] in kids;
          if exact { PathStaysAbove(ts, old(onPath), t.id, kids[k]); }
          ghost var memo := scores;
          s := Child(t, s, kids[k]);
          Grows(old(scores), memo, scores);
        }
      }
      ghost var memo := scores;
      scores := scores[t.id := s];
      onPath := onPath - {t.id};
      Remembered(ts, memo, t.id, s, q);
    }

    /** One child's contribution. */
    method Child(t: Task, before: Score, c: Id) returns (s: Score)
      requires KeysMatch(ts) && t.id in ts && Edge(ts, t.id, c) && Valid()
      requires t.id in onPath && Honest(ts, t.id, before, q)
      requires Acyclic(ts) ==> AllAbove(ts, onPath, c)
      modifies this
      ensures Valid() && onPath == old(onPath) && Grown(old(scores), scores)
      ensures Honest(ts, t.id, s, q)
      ensures Acyclic(ts) ==> s == AddChild(before, ts[c], ScoreOf(ts, c, q), q)
      decreases ts.Keys - onPath, 1
    {
      var child := ts[c];
      var cs := Walk(child);
      s := Absorb(before, child, cs, q);
      AddChildIsHonest(ts, t.id, before, c, cs, q);
    }
  }

  /** The field updates that fold one child in. */
  method Absorb(before: Score, child: Task, cs: Score, q: Query) returns (s: Score)
    ensures s == AddChild(before, child, cs, q)
  {
    s := before;
    if cs.sub > s.sub { s := s.(sub := cs.sub); }
    s := s.(attention := s.attention + cs.attention + (if NeedsAttention(child, q.now) then 1 else 0));
    s := s.(descendants := s.descendants + cs.descendants + 1);
    if !cs.allComplete { s := s.(allComplete := false); }
    if cs.matches { s := s.(matches := true); }
  }

  lemma Grows(a: map<Id, Score>, b: map<Id, Score>, c: map<Id, Score>)
    requires Grown(a, b) && Grown(b, c)
    ensures Grown(a, c)
  {
  }

  lemma Remembered(ts: TaskMap, memo: map<Id, Score>, a: Id, s: Score, q: Query)
    requires AllHonest(ts, memo, q) && AllExact(ts, memo, q) && Honest(ts, a, s, q)
    requires Acyclic(ts) ==> s == ScoreOf(ts, a, q)
    ensures AllHonest(ts, memo[a := s], q) && AllExact(ts, memo[a := s], q)
  {
  }

  lemma OwnIsHonest(ts: TaskMap, t: Task, q: Query)
    requires t.id in ts && ts[t.id] == t
    ensures Honest(ts, t.id, OwnScore(t, q), q)
  {
    ReachesSelf(ts, t.id);
    assert t.id in Below(ts, t.id);
  }

  lemma AddChildIsHonest(ts: TaskMap, a: Id, s: Score, c: Id, cs: Score, q: Query)
    requires Honest(ts, a, s, q) && Handed(ts, c, cs, q) && Edge(ts, a, c)
    ensures Honest(ts, a, AddChild(s, ts[c], cs, q), q)
  {
    EdgeReaches(ts, a, c);
    forall x | x in Below(ts, c) ensures x in Below(ts, a) {
      ReachesTrans(ts, a, c, x);
    }
  }

  lemma PathStaysAbove(ts: TaskMap, path: set<Id>, a: Id, c: Id)
    requires Acyclic(ts) && AllAbove(ts, path, a) && Edge(ts, a, c)
    ensures AllAbove(ts, path + {a}, c)
  {
    NoWayBack(ts, a, c);
    ReachesSelf(ts, a);
    forall x | x in path + {a} ensures x != c && Reaches(ts, x, c) {
      ReachesStep(ts, x, a, c);
    }
  }

  ghost predicate ScoredUpTo(tasks: seq<Task>, n: nat, scores: map<Id, Score>) {
    n <= |tasks| && forall k :: 0 <= k < n ==> tasks[k].id in scores
  }

  lemma ScoredOneMore(tasks: seq<Task>, n: nat, before: map<Id, Score>, after: map<Id, Score>)
    requires ScoredUpTo(tasks, n, before) && Grown(before, after) && n < |tasks| && tasks[n].id in after
    ensures ScoredUpTo(tasks, n + 1, after)
  {
    forall k | 0 <= k < n ensures tasks[k].id in after {
      assert before[tasks[k].id] == after[tasks[k].id];
    }
  }

  method ComputeScores(tasks: seq<Task>, ts: TaskMap, q: Query) returns (scores: map<Id, Score>)
    requires DistinctTaskIds(tasks) && ts == MapOf(tasks)
    ensures scores.Keys == ts.Keys
    ensures AllHonest(ts, scores, q) && AllExact(ts, scores, q)
  {
    hide AllHonest, AllExact, AllAbove, IsPath;
    MapOfHolds(tasks);
    var scorer := new Scorer(ts, q);
    NothingScored(ts, q);
    for i := 0 to |tasks|
      invariant scorer.ts == ts && scorer.q == q && scorer.Valid() && scorer.onPath == {}
      invariant ScoredUpTo(tasks, i, scorer.scores)
    {
      assert tasks[i] in tasks;
      ghost var memo := scorer.scores;
      NothingAbove(ts, tasks[i].id);
      var s := scorer.Walk(tasks[i]);
      ScoredOneMore(tasks, i, memo, scorer.scores);
    }
    scores := scorer.scores;
    AllScored(tasks, ts, scores, q);
  }

  lemma NothingScored(ts: TaskMap, q: Query)
    ensures AllHonest(ts, map[], q) && AllExact(ts, map[], q)
  {
  }

  lemma NothingAbove(ts: TaskMap, a: Id)
    ensures AllAbove(ts, {}, a)
  {
  }

  lemma AllScored(tasks: seq<Task>, ts: TaskMap, scores: map<Id, Score>, q: Query)
    requires DistinctTaskIds(tasks) && ts == MapOf(tasks)
    requires ScoredUpTo(tasks, |tasks|, scores) && AllHonest(ts, scores, q)
    ensures scores.Keys == ts.Keys
  {
    hide AllHonest;
    MapOfHolds(tasks);
    forall x | x in ts ensures x in scores {
      var k :| 0 <= k < |tasks| && tasks[k] == ts[x];
    }
    HonestAreStored(ts, scores, q);
  }

  lemma HonestAreStored(ts: TaskMap, scores: map<Id, Score>, q: Query)
    requires AllHonest(ts, scores, q)
    ensures forall x :: x in scores ==> x in ts
  {
    forall x | x in scores ensures x in ts {
      assert Honest(ts, x, scores[x], q);
    }
  }

  // ----- what the definition means -----------------------------------------------------

  ghost predicate SumsUp(ts: TaskMap, s: set<Id>, score: Score, q: Query) {
    && IsMaxOver(ts, s, q.now, score.sub)
    && (score.allComplete <==> forall x :: x in s ==> ts[x].content.status.Terminal())
    && (score.matches <==> exists x :: x in s && Hit(q, ts[x]))
  }

  /** Without cycles: `sub` is the maximum urgency at or below the task (the
      number the bot ranks by), `allComplete` and `matches` speak of all of it. */
  lemma {:induction false} ScoreMeansSubtree(ts: TaskMap, a: Id, q: Query)
    requires Acyclic(ts) && a in ts
    ensures SumsUp(ts, Below(ts, a), ScoreOf(ts, a, q), q)
    ensures ScoreOf(ts, a, q).own == Urgency(ts[a], q.now)
    ensures ScoreOf(ts, a, q).matches <==> SomeBelow(ts, a, HitOf(q))
    decreases |Below(ts, a)|, |Kids(ts, a)| + 1
  {
    var s := ScoreOfKidsMeans(ts, a, |Kids(ts, a)|, q);
    BelowIsKids(ts, a);
  }

  /** So three walks agree: a root's `matches` is the selection's verdict on it,
      and `sub` is the number the bot computes for the same tree. */
  lemma ScoreAgrees(tasks: seq<Task>, t: Task, q: Query, u: int)
    requires DistinctTaskIds(tasks) && t in tasks && Acyclic(MapOf(tasks)) && t.id in MapOf(tasks)
    ensures Graph.IsRoot(MapOf(tasks), t.id) ==>
      (ScoreOf(MapOf(tasks), t.id, q).matches <==> t in Selected(tasks, MapOf(tasks), HitOf(q)))
    ensures ScoreOf(MapOf(tasks), t.id, q).sub == u <==> IsMaxOver(MapOf(tasks), Below(MapOf(tasks), t.id), q.now, u)
  {
    var ts := MapOf(tasks);
    ScoreMeansSubtree(ts, t.id, q);
    SelectedHolds(tasks, ts, HitOf(q), t);
    if IsMaxOver(ts, Below(ts, t.id), q.now, u) {
      MaxIsUnique(ts, Below(ts, t.id), q.now, u, ScoreOf(ts, t.id, q).sub);
    }
  }

  lemma {:induction false} ScoreOfKidsMeans(ts: TaskMap, a: Id, n: nat, q: Query) returns (s: Score)
    requires Acyclic(ts) && a in ts && n <= |Kids(ts, a)|
    ensures s == ScoreOfKids(ts, a, n, q)
    ensures SumsUp(ts, {a} + BelowKids(ts, a, n), s, q)
    ensures s.own == Urgency(ts[a], q.now)
    decreases |Below(ts, a)|, n
  {
    hide Reaches, Acyclic;
    if n == 0 {
      s := OwnScore(ts[a], q);
      OwnSumsUp(ts, a, q);
    } else {
      var c := Kids(ts, a)[n - 1];
      var before := ScoreOfKidsMeans(ts, a, n - 1, q);
      ScoreUnfold(ts, a, n - 1, q);
      BelowKidsGrows(ts, a, n - 1);
      if c in ts {
        assert Edge(ts, a, c) by { assert c in Kids(ts, a); }
        BelowShrinks(ts, a, c);
        ScoreMeansSubtree(ts, c, q);
        s := SumsJoin(ts, a, n - 1, before, c, ScoreOf(ts, c, q), q);
      } else {
        s := before;
        NothingBelow(ts, c);
        assert BelowKids(ts, a, n) == BelowKids(ts, a, n - 1);
      }
    }
  }

  lemma OwnSumsUp(ts: TaskMap, a: Id, q: Query)
    requires a in ts
    ensures SumsUp(ts, {a} + BelowKids(ts, a, 0), OwnScore(ts[a], q), q)
  {
    assert {a} + BelowKids(ts, a, 0) == {a};
    assert a in {a};
  }

  lemma SumsJoin(ts: TaskMap, a: Id, n: nat, score: Score, c: Id, cs: Score, q: Query) returns (s: Score)
    requires a in ts && n < |Kids(ts, a)| && c == Kids(ts, a)[n] && c in ts
    requires SumsUp(ts, {a} + BelowKids(ts, a, n), score, q) && SumsUp(ts, Below(ts, c), cs, q)
    ensures s == AddChild(score, ts[c], cs, q) && SumsUp(ts, {a} + BelowKids(ts, a, n + 1), s, q)
  {
    hide Reaches;
    BelowKidsGrows(ts, a, n);
    s := AddChild(score, ts[c], cs, q);
    var x, y := {a} + BelowKids(ts, a, n), Below(ts, c);
    assert {a} + BelowKids(ts, a, n + 1) == x + y;
  }

  ghost function NeedingAttention(ts: TaskMap, s: set<Id>, now: int): set<Id> {
    set x | x in s && x in ts && NeedsAttention(ts[x], now)
  }

  /** Among trees the badge counts the subtree: every descendant once, and every
      descendant that needs attention once. */
  lemma {:induction false} CountsAreTrue(ts: TaskMap, a: Id, q: Query)
    requires Treelike(ts) && a in ts
    ensures ScoreOf(ts, a, q).descendants == |Below(ts, a) - {a}|
    ensures ScoreOf(ts, a, q).attention == |NeedingAttention(ts, Below(ts, a) - {a}, q.now)|
    decreases |Below(ts, a)|, |Kids(ts, a)| + 1
  {
    var s := KidCountsAreTrue(ts, a, |Kids(ts, a)|, q);
    BelowIsKids(ts, a);
    NotBelowKids(ts, a, |Kids(ts, a)|);
    assert Below(ts, a) - {a} == BelowKids(ts, a, |Kids(ts, a)|);
  }

  lemma {:induction false} KidCountsAreTrue(ts: TaskMap, a: Id, n: nat, q: Query) returns (s: Score)
    requires Treelike(ts) && a in ts && n <= |Kids(ts, a)|
    ensures s == ScoreOfKids(ts, a, n, q)
    ensures s.descendants == |BelowKids(ts, a, n)|
    ensures s.attention == |NeedingAttention(ts, BelowKids(ts, a, n), q.now)|
    decreases |Below(ts, a)|, n
  {
    hide Reaches, Acyclic, SingleContainer, BelowKids, NeedingAttention, Hit, NeedsAttention, ScoreOf;
    if n == 0 {
      NoKidsCounted(ts, a, q);
      s := OwnScore(ts[a], q);
    } else {
      var c := Kids(ts, a)[n - 1];
      s := KidCountsAreTrue(ts, a, n - 1, q);
      KidsApart(ts, a, n - 1);
      ScoreUnfold(ts, a, n - 1, q);
      BelowKidsGrows(ts, a, n - 1);
      if c in ts {
        BelowShrinks(ts, a, c);
        CountsAreTrue(ts, c, q);
        ReachesSelf(ts, c);
        s := AddChild(s, ts[c], ScoreOf(ts, c, q), q);
        CountsJoin(ts, BelowKids(ts, a, n - 1), Below(ts, c), c, q.now);
      } else {
        NothingBelow(ts, c);
        assert BelowKids(ts, a, n) == BelowKids(ts, a, n - 1);
      }
    }
  }

  lemma NoKidsCounted(ts: TaskMap, a: Id, q: Query)
    requires Acyclic(ts) && a in ts
    ensures ScoreOfKids(ts, a, 0, q) == OwnScore(ts[a], q)
    ensures BelowKids(ts, a, 0) == {} == NeedingAttention(ts, {}, q.now)
  {
  }

  lemma CountsJoin(ts: TaskMap, s: set<Id>, r: set<Id>, c: Id, now: int)
    requires s !! r && c in r && c in ts
    ensures |s + r| == |s| + |r - {c}| + 1
    ensures |NeedingAttention(ts, s + r, now)|
         == |NeedingAttention(ts, s, now)| + |NeedingAttention(ts, r - {c}, now)|
            + (if NeedsAttention(ts[c], now) then 1 else 0)
  {
    assert r == (r - {c}) + {c};
    AttentionJoins(ts, s, r, now);
    AttentionJoins(ts, r - {c}, {c}, now);
    AttentionOfOne(ts, c, now);
  }

  lemma AttentionJoins(ts: TaskMap, s: set<Id>, r: set<Id>, now: int)
    requires s !! r
    ensures |NeedingAttention(ts, s + r, now)| == |NeedingAttention(ts, s, now)| + |NeedingAttention(ts, r, now)|
  {
    assert NeedingAttention(ts, s + r, now) == NeedingAttention(ts, s, now) + NeedingAttention(ts, r, now);
  }

  lemma AttentionOfOne(ts: TaskMap, c: Id, now: int)
    requires c in ts
    ensures |NeedingAttention(ts, {c}, now)| == if NeedsAttention(ts[c], now) then 1 else 0
  {
    assert NeedingAttention(ts, {c}, now) == if NeedsAttention(ts[c], now) then {c} else {};
  }
}
