/** What the rankings mean, in terms of the tasks alone. */
module Orders {
  import opened Tasks
  import opened Scoring
  import opened Ranking

  // ----- text -------------------------------------------------------------------------

  /** Dictionary order: a proper prefix comes first, else the smaller character where
      the two first differ. */
  ghost predicate Alphabetical(s: string, t: string) {
    exists n {:trigger s[..n]} :: 0 <= n <= |s| && n < |t| && s[..n] == t[..n] && (n < |s| ==> s[n] < t[n])
  }

  lemma {:induction false} StrLessIs(s: string, t: string)
    ensures StrLess(s, t) <==> Alphabetical(s, t)
  {
    if s == [] && t != [] {
      assert s[..0] == t[..0];
    } else if s != [] && t != [] {
      StrLessIs(s[1..], t[1..]);
      if s[0] < t[0] { assert s[..0] == t[..0]; }
      if s[0] == t[0] && Alphabetical(s[1..], t[1..]) {
        var n :| 0 <= n <= |s[1..]| && n < |t[1..]| && s[1..][..n] == t[1..][..n]
          && (n < |s[1..]| ==> s[1..][n] < t[1..][n]);
        assert s[..n + 1] == [s[0]] + s[1..][..n] && t[..n + 1] == [t[0]] + t[1..][..n];
      }
      if n :| 0 <= n <= |s| && n < |t| && s[..n] == t[..n] && (n < |s| ==> s[n] < t[n]) {
        if n > 0 {
          assert s[0] == s[..n][0] && t[0] == t[..n][0];
          assert s[1..][..n - 1] == s[..n][1..] && t[1..][..n - 1] == t[..n][1..];
        }
      }
    }
  }

  /** A to Z become a to z and nothing else changes. */
  lemma LoweredIs(s: string, i: nat)
    requires i < |s|
    ensures |Lowered(s)| == |s|
    ensures Lowered(s)[i] as int == if 65 <= s[i] as int <= 90 then s[i] as int + 32 else s[i] as int
  {
  }

  // ----- tasks ------------------------------------------------------------------------

  /** Created earlier, or at once and with the smaller id. */
  ghost predicate Elder(a: Task, b: Task) {
    a.meta.createdAt < b.meta.createdAt || (a.meta.createdAt == b.meta.createdAt && Alphabetical(a.id, b.id))
  }

  function Level(p: Priority): int {
    match p
    case High => 3
    case Medium => 2
    case Low => 1
    case _ => 0
  }

  /** Which of two open tasks, or of two closed ones, a strategy puts first. */
  ghost predicate Precedes(s: Strategy, now: int, a: Task, b: Task) {
    match s
    case ByPriority =>
      Level(a.content.priority) > Level(b.content.priority)
      || (Level(a.content.priority) == Level(b.content.priority) && Elder(a, b))
    case ByDue =>
      var x, y := a.content.dueAt, b.content.dueAt;
      (x.Some? && (y.None? || x.value < y.value)) || (x == y && Elder(a, b))
    case ByTitle =>
      var x, y := Lowered(a.content.title), Lowered(b.content.title);
      Alphabetical(x, y) || (x == y && Elder(a, b))
    case ByCreated =>
      a.meta.createdAt > b.meta.createdAt || (a.meta.createdAt == b.meta.createdAt && Alphabetical(a.id, b.id))
    case ByUrgency =>
      Urgency(a, now) > Urgency(b, now) || (Urgency(a, now) == Urgency(b, now) && Elder(a, b))
  }

  lemma TieIs(a: Task, b: Task)
    ensures TieBreak(a, b) <==> Elder(a, b)
  {
    StrLessIs(a.id, b.id);
  }

  /** A ranked list has the open tasks before the closed, by the strategy among each. */
  lemma RankIs(s: Strategy, now: int, a: Task, b: Task)
    ensures LessThan(s, now, a, b) <==>
      var ca, cb := a.content.status in {Done, Cancelled}, b.content.status in {Done, Cancelled};
      (!ca && cb) || (ca == cb && Precedes(s, now, a, b))
  {
    hide Alphabetical, StrLess, Urgency, TieBreak;
    TieIs(a, b);
    StrLessIs(a.id, b.id);
    StrLessIs(Lowered(a.content.title), Lowered(b.content.title));
    SelfNotAlphabetical(Lowered(a.content.title));
  }

  lemma SelfNotAlphabetical(s: string)
    ensures !Alphabetical(s, s)
  {
  }

  /** By score the finished subtrees come last, the rest by subtree urgency, greatest
      first, or by the strategy. */
  lemma RankByScoreIs(s: Strategy, now: int, a: Ranked, b: Ranked)
    ensures RankedLessThan(s, now, a, b) <==>
      (!a.complete && b.complete)
      || (a.complete == b.complete
          && if s == ByUrgency then a.score > b.score || (a.score == b.score && Elder(a.t, b.t))
             else Precedes(s, now, a.t, b.t))
  {
    hide Alphabetical, StrLess, Urgency, TieBreak;
    TieIs(a.t, b.t);
    StrLessIs(a.t.id, b.t.id);
    StrLessIs(Lowered(a.t.content.title), Lowered(b.t.content.title));
    SelfNotAlphabetical(Lowered(a.t.content.title));
  }

  /** The bot lists open roots first, the greatest subtree urgency first among them. */
  lemma RootsAre(a: Task, ua: int, b: Task, ub: int)
    ensures LessRoots(a, ua, b, ub) <==>
      var ca, cb := a.content.status in {Done, Cancelled}, b.content.status in {Done, Cancelled};
      (!ca && cb) || (ca == cb && (ua > ub || (ua == ub && Elder(a, b))))
  {
    hide Alphabetical, StrLess, TieBreak;
    TieIs(a, b);
  }
}
