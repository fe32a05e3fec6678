/** The comparisons that rank tasks, and why the ranked list is one fixed
    sequence whatever order the tasks arrive in. Every comparison is shown to be
    the lexicographic order of a key, so it is a strict total order. */
module Ranking {
  import opened Tasks
  import opened Scoring

  // ----- lexicographic order on integer keys ----------------------------------

  predicate LexLess(a: seq<int>, b: seq<int>) {
    if b == [] then false
    else if a == [] then true
    else a[0] < b[0] || (a[0] == b[0] && LexLess(a[1..], b[1..]))
  }

  lemma {:induction false} LexIrreflexive(a: seq<int>)
    ensures !LexLess(a, a)
  {
    if a != [] { LexIrreflexive(a[1..]); }
  }

  lemma {:induction false} LexTransitive(a: seq<int>, b: seq<int>, c: seq<int>)
    requires LexLess(a, b) && LexLess(b, c)
    ensures LexLess(a, c)
  {
    if a != [] && b != [] && c != [] && a[0] == b[0] && b[0] == c[0] {
      LexTransitive(a[1..], b[1..], c[1..]);
    }
  }

  lemma {:induction false} LexTotal(a: seq<int>, b: seq<int>)
    ensures LexLess(a, b) || LexLess(b, a) || a == b
  {
    if a != [] && b != [] && a[0] == b[0] {
      LexTotal(a[1..], b[1..]);
      assert a == [a[0]] + a[1..] && b == [b[0]] + b[1..];
    }
  }

  lemma {:induction false} LexSamePrefix(p: seq<int>, a: seq<int>, b: seq<int>)
    ensures LexLess(p + a, p + b) <==> LexLess(a, b)
  {
    if p == [] {
      assert p + a == a && p + b == b;
    } else {
      assert (p + a)[1..] == p[1..] + a && (p + b)[1..] == p[1..] + b;
      LexSamePrefix(p[1..], a, b);
    }
  }

  // ----- strings inside keys ---------------------------------------------------

  /** Bytewise order; a proper prefix comes first. */
  predicate StrLess(s: string, t: string) {
    if t == [] then false
    else if s == [] then true
    else s[0] < t[0] || (s[0] == t[0] && StrLess(s[1..], t[1..]))
  }

  /** A string as key entries: positive codes and a closing 0. */
  function Encode(s: string): seq<int> {
    if s == [] then [0] else [s[0] as int + 1] + Encode(s[1..])
  }

  lemma {:induction false} EncodeOrders(s: string, t: string, a: seq<int>, b: seq<int>)
    ensures LexLess(Encode(s) + a, Encode(t) + b) <==> StrLess(s, t) || (s == t && LexLess(a, b))
  {
    if s == [] {
      if t == [] {
        LexSamePrefix([0], a, b);
      } else {
        assert (Encode(t) + b)[0] == t[0] as int + 1;
      }
    } else if t == [] {
      assert (Encode(s) + a)[0] == s[0] as int + 1;
    } else {
      assert (Encode(s) + a)[0] == s[0] as int + 1 && (Encode(t) + b)[0] == t[0] as int + 1;
      assert (Encode(s) + a)[1..] == Encode(s[1..]) + a && (Encode(t) + b)[1..] == Encode(t[1..]) + b;
      EncodeOrders(s[1..], t[1..], a, b);
      assert s == [s[0]] + s[1..] && t == [t[0]] + t[1..];
    }
  }

  /** ASCII case folding, as the Zig and the handle code do it. */
  function ToLower(c: char): char {
    if 'A' <= c <= 'Z' then c + 32 as char else c
  }

  function Lowered(s: string): (r: string)
    ensures |r| == |s| && forall i :: 0 <= i < |s| ==> r[i] == ToLower(s[i])
  {
    seq(|s|, i requires 0 <= i < |s| => ToLower(s[i]))
  }

  // ----- the comparisons ---------------------------------------------------------

  datatype Strategy = ByPriority | ByDue | ByTitle | ByCreated | ByUrgency

  /** None when the two are equal on the strategy's key. */
  function StrategyDiffers(s: Strategy, now: int, a: Task, b: Task): Option<bool> {
    match s
    case ByPriority =>
      var pa, pb := PriorityWeight(a.content.priority), PriorityWeight(b.content.priority);
      if pa != pb then Some(pa > pb) else None
    case ByUrgency =>
      var ua, ub := Urgency(a, now), Urgency(b, now);
      if ua != ub then Some(ua > ub) else None
    case ByDue =>
      var da, db := a.content.dueAt, b.content.dueAt;
      if da.None? && db.None? then None
      else if da.None? then Some(false)
      else if db.None? then Some(true)
      else if da.value != db.value then Some(da.value < db.value)
      else None
    case ByTitle =>
      var ta, tb := Lowered(a.content.title), Lowered(b.content.title);
      if ta != tb then Some(StrLess(ta, tb)) else None
    case ByCreated =>
      if a.meta.createdAt != b.meta.createdAt then Some(a.meta.createdAt > b.meta.createdAt) else None
  }

  /** Oldest first, then by id. */
  predicate TieBreak(a: Task, b: Task) {
    if a.meta.createdAt != b.meta.createdAt then a.meta.createdAt < b.meta.createdAt
    else StrLess(a.id, b.id)
  }

  predicate LessThan(s: Strategy, now: int, a: Task, b: Task) {
    var ca, cb := a.content.status.Terminal(), b.content.status.Terminal();
    if ca != cb then !ca
    else
      var d := StrategyDiffers(s, now, a, b);
      if d.Some? then d.value else TieBreak(a, b)
  }

  datatype Ranked = Ranked(t: Task, score: int, complete: bool)

  predicate RankedLessThan(s: Strategy, now: int, a: Ranked, b: Ranked) {
    if a.complete != b.complete then !a.complete
    else if s.ByUrgency? then
      if a.score != b.score then a.score > b.score else TieBreak(a.t, b.t)
    else
      var d := StrategyDiffers(s, now, a.t, b.t);
      if d.Some? then d.value else TieBreak(a.t, b.t)
  }

  /** The bot's comparison; `u` is the subtree urgency. */
  predicate LessRoots(a: Task, ua: int, b: Task, ub: int) {
    var ca, cb := a.content.status.Terminal(), b.content.status.Terminal();
    if ca != cb then !ca
    else if ua != ub then ua > ub
    else TieBreak(a, b)
  }

  // ----- their keys ----------------------------------------------------------------

  function Flag(b: bool): int { if b then 1 else 0 }

  function TieKey(t: Task): seq<int> { [t.meta.createdAt] + Encode(t.id) }

  function StrategyKey(s: Strategy, now: int, t: Task): seq<int> {
    match s
    case ByPriority => [-PriorityWeight(t.content.priority)]
    case ByUrgency => [-Urgency(t, now)]
    case ByDue => if t.content.dueAt.None? then [1, 0] else [0, t.content.dueAt.value]
    case ByTitle => Encode(Lowered(t.content.title))
    case ByCreated => [-t.meta.createdAt]
  }

  function TaskKey(s: Strategy, now: int, t: Task): seq<int> {
    [Flag(t.content.status.Terminal())] + (StrategyKey(s, now, t) + TieKey(t))
  }

  function RankedKey(s: Strategy, now: int, r: Ranked): seq<int> {
    [Flag(r.complete)] + ((if s.ByUrgency? then [-r.score] else StrategyKey(s, now, r.t)) + TieKey(r.t))
  }

  function RootKey(t: Task, u: int): seq<int> {
    [Flag(t.content.status.Terminal())] + ([-u] + TieKey(t))
  }

  lemma LexHead(x: int, y: int, a: seq<int>, b: seq<int>)
    ensures LexLess([x] + a, [y] + b) <==> x < y || (x == y && LexLess(a, b))
  {
    assert ([x] + a)[1..] == a && ([y] + b)[1..] == b;
  }

  lemma TieByKey(a: Task, b: Task)
    ensures TieBreak(a, b) <==> LexLess(TieKey(a), TieKey(b))
  {
    LexHead(a.meta.createdAt, b.meta.createdAt, Encode(a.id), Encode(b.id));
    EncodeOrders(a.id, b.id, [], []);
    assert Encode(a.id) + [] == Encode(a.id) && Encode(b.id) + [] == Encode(b.id);
  }

  lemma StrategyByKey(s: Strategy, now: int, a: Task, b: Task, x: seq<int>, y: seq<int>)
    ensures LexLess(StrategyKey(s, now, a) + x, StrategyKey(s, now, b) + y) <==>
      match StrategyDiffers(s, now, a, b) case Some(d) => d case None => LexLess(x, y)
  {
    if s.ByTitle? {
      EncodeOrders(Lowered(a.content.title), Lowered(b.content.title), x, y);
      StrIrreflexive(Lowered(a.content.title));
    } else if s.ByDue? {
      var ka, kb := StrategyKey(s, now, a), StrategyKey(s, now, b);
      assert ka + x == [ka[0]] + ([ka[1]] + x) && kb + y == [kb[0]] + ([kb[1]] + y);
      LexHead(ka[0], kb[0], [ka[1]] + x, [kb[1]] + y);
      LexHead(ka[1], kb[1], x, y);
    } else {
      var ka, kb := StrategyKey(s, now, a), StrategyKey(s, now, b);
      assert |ka| == 1 && |kb| == 1;
      assert ka == [ka[0]] && kb == [kb[0]];
      LexHead(ka[0], kb[0], x, y);
      match s
      case ByPriority => assert ka[0] == -PriorityWeight(a.content.priority)
        && kb[0] == -PriorityWeight(b.content.priority);
      case ByUrgency => assert ka[0] == -Urgency(a, now) && kb[0] == -Urgency(b, now);
      case ByCreated => assert ka[0] == -a.meta.createdAt && kb[0] == -b.meta.createdAt;
    }
  }

  lemma LessThanByKey(s: Strategy, now: int, a: Task, b: Task)
    ensures LessThan(s, now, a, b) <==> LexLess(TaskKey(s, now, a), TaskKey(s, now, b))
  {
    LexHead(Flag(a.content.status.Terminal()), Flag(b.content.status.Terminal()),
            StrategyKey(s, now, a) + TieKey(a), StrategyKey(s, now, b) + TieKey(b));
    StrategyByKey(s, now, a, b, TieKey(a), TieKey(b));
    TieByKey(a, b);
  }

  lemma RankedByKey(s: Strategy, now: int, a: Ranked, b: Ranked)
    ensures RankedLessThan(s, now, a, b) <==> LexLess(RankedKey(s, now, a), RankedKey(s, now, b))
  {
    var ka := if s.ByUrgency? then [-a.score] else StrategyKey(s, now, a.t);
    var kb := if s.ByUrgency? then [-b.score] else StrategyKey(s, now, b.t);
    LexHead(Flag(a.complete), Flag(b.complete), ka + TieKey(a.t), kb + TieKey(b.t));
    if s.ByUrgency? {
      LexHead(-a.score, -b.score, TieKey(a.t), TieKey(b.t));
    } else {
      StrategyByKey(s, now, a.t, b.t, TieKey(a.t), TieKey(b.t));
    }
    TieByKey(a.t, b.t);
  }

  lemma RootsByKey(a: Task, ua: int, b: Task, ub: int)
    ensures LessRoots(a, ua, b, ub) <==> LexLess(RootKey(a, ua), RootKey(b, ub))
  {
    LexHead(Flag(a.content.status.Terminal()), Flag(b.content.status.Terminal()), [-ua] + TieKey(a), [-ub] + TieKey(b));
    LexHead(-ua, -ub, TieKey(a), TieKey(b));
    TieByKey(a, b);
  }

  lemma {:induction false} StrIrreflexive(s: string)
    ensures !StrLess(s, s)
  {
    if s != [] { StrIrreflexive(s[1..]); }
  }

  lemma {:induction false} StrTotal(s: string, t: string)
    ensures StrLess(s, t) || StrLess(t, s) || s == t
  {
    if s != [] && t != [] && s[0] == t[0] {
      StrTotal(s[1..], t[1..]);
      assert s == [s[0]] + s[1..] && t == [t[0]] + t[1..];
    }
  }

  /** Two tasks with different ids are always ordered one way or the other. */
  lemma OrderedIfDistinct(s: Strategy, now: int, a: Ranked, b: Ranked, ua: int, ub: int)
    requires a.t.id != b.t.id
    ensures LessThan(s, now, a.t, b.t) || LessThan(s, now, b.t, a.t)
    ensures RankedLessThan(s, now, a, b) || RankedLessThan(s, now, b, a)
    ensures LessRoots(a.t, ua, b.t, ub) || LessRoots(b.t, ub, a.t, ua)
  {
    StrTotal(a.t.id, b.t.id);
    StrTotal(Lowered(a.t.content.title), Lowered(b.t.content.title));
  }

  /** All five strategies, plain and by score, and the bot's root order are
      strict orders, and total on tasks with different ids. */
  lemma ComparisonsAreStrictTotal(s: Strategy, now: int, a: Ranked, b: Ranked, c: Ranked, ua: int, ub: int, uc: int)
    ensures !LessThan(s, now, a.t, a.t) && !RankedLessThan(s, now, a, a) && !LessRoots(a.t, ua, a.t, ua)
    ensures LessThan(s, now, a.t, b.t) && LessThan(s, now, b.t, c.t) ==> LessThan(s, now, a.t, c.t)
    ensures RankedLessThan(s, now, a, b) && RankedLessThan(s, now, b, c) ==> RankedLessThan(s, now, a, c)
    ensures LessRoots(a.t, ua, b.t, ub) && LessRoots(b.t, ub, c.t, uc) ==> LessRoots(a.t, ua, c.t, uc)
    ensures a.t.id != b.t.id ==> (LessThan(s, now, a.t, b.t) <==> !LessThan(s, now, b.t, a.t))
    ensures a.t.id != b.t.id ==> (RankedLessThan(s, now, a, b) <==> !RankedLessThan(s, now, b, a))
    ensures a.t.id != b.t.id ==> (LessRoots(a.t, ua, b.t, ub) <==> !LessRoots(b.t, ub, a.t, ua))
  {
    LessThanByKey(s, now, a.t, a.t);
    LessThanByKey(s, now, a.t, b.t);
    LessThanByKey(s, now, b.t, a.t);
    LessThanByKey(s, now, b.t, c.t);
    LessThanByKey(s, now, a.t, c.t);
    KeyOrder(TaskKey(s, now, a.t), TaskKey(s, now, b.t), TaskKey(s, now, c.t));
    RankedByKey(s, now, a, a);
    RankedByKey(s, now, a, b);
    RankedByKey(s, now, b, a);
    RankedByKey(s, now, b, c);
    RankedByKey(s, now, a, c);
    KeyOrder(RankedKey(s, now, a), RankedKey(s, now, b), RankedKey(s, now, c));
    RootsByKey(a.t, ua, a.t, ua);
    RootsByKey(a.t, ua, b.t, ub);
    RootsByKey(b.t, ub, a.t, ua);
    RootsByKey(b.t, ub, c.t, uc);
    RootsByKey(a.t, ua, c.t, uc);
    KeyOrder(RootKey(a.t, ua), RootKey(b.t, ub), RootKey(c.t, uc));
    if a.t.id != b.t.id {
      OrderedIfDistinct(s, now, a, b, ua, ub);
    }
  }

  lemma KeyOrder(a: seq<int>, b: seq<int>, c: seq<int>)
    ensures !LexLess(a, a) && !(LexLess(a, b) && LexLess(b, a))
    ensures LexLess(a, b) && LexLess(b, c) ==> LexLess(a, c)
  {
    LexIrreflexive(a);
    if LexLess(a, b) && LexLess(b, a) {
      LexTransitive(a, b, a);
    }
    if LexLess(a, b) && LexLess(b, c) {
      LexTransitive(a, b, c);
    }
  }

  // ----- sorting ---------------------------------------------------------------------

  predicate SortedByKey<T(!new)>(key: T -> seq<int>, xs: seq<T>) {
    forall i, j :: 0 <= i < j < |xs| ==> LexLess(key(xs[i]), key(xs[j]))
  }

  /** The library sort, as any correct sort: insertion by key. */
  function Insert<T(!new)>(key: T -> seq<int>, x: T, xs: seq<T>): seq<T> {
    if xs == [] then [x]
    else if LexLess(key(xs[|xs| - 1]), key(x)) then xs + [x]
    else Insert(key, x, xs[..|xs| - 1]) + [xs[|xs| - 1]]
  }

  function Sort<T(!new)>(key: T -> seq<int>, xs: seq<T>): seq<T> {
    if xs == [] then [] else Insert(key, xs[|xs| - 1], Sort(key, xs[..|xs| - 1]))
  }

  predicate KeysDiffer<T(!new)>(key: T -> seq<int>, xs: seq<T>) {
    forall i, j :: 0 <= i < j < |xs| ==> key(xs[i]) != key(xs[j])
  }

  lemma {:induction false} InsertKeeps<T(!new)>(key: T -> seq<int>, x: T, xs: seq<T>)
    ensures multiset(Insert(key, x, xs)) == multiset(xs) + multiset{x}
    ensures forall y :: y in Insert(key, x, xs) <==> y in xs || y == x
  {
    if xs != [] {
      var n := |xs| - 1;
      assert xs == xs[..n] + [xs[n]];
      if !LexLess(key(xs[n]), key(x)) {
        InsertKeeps(key, x, xs[..n]);
      }
    }
  }

  lemma SortedAppend<T(!new)>(key: T -> seq<int>, xs: seq<T>, last: T)
    requires SortedByKey(key, xs) && forall y :: y in xs ==> LexLess(key(y), key(last))
    ensures SortedByKey(key, xs + [last])
  {
  }

  lemma {:induction false} InsertSorts<T(!new)>(key: T -> seq<int>, x: T, xs: seq<T>)
    requires SortedByKey(key, xs) && forall y :: y in xs ==> key(y) != key(x)
    ensures SortedByKey(key, Insert(key, x, xs))
    ensures multiset(Insert(key, x, xs)) == multiset(xs) + multiset{x}
  {
    InsertKeeps(key, x, xs);
    if xs != [] {
      hide LexLess;
      var n := |xs| - 1;
      var last := xs[n];
      if LexLess(key(last), key(x)) {
        forall y | y in xs ensures LexLess(key(y), key(x)) {
          if y != last { LexTransitive(key(y), key(last), key(x)); }
        }
        SortedAppend(key, xs, x);
      } else {
        LexTotal(key(last), key(x));
        InsertSorts(key, x, xs[..n]);
        InsertKeeps(key, x, xs[..n]);
        SortedAppend(key, Insert(key, x, xs[..n]), last);
      }
    }
  }

  lemma {:induction false} SortSorts<T(!new)>(key: T -> seq<int>, xs: seq<T>)
    requires KeysDiffer(key, xs)
    ensures SortedByKey(key, Sort(key, xs)) && multiset(Sort(key, xs)) == multiset(xs)
  {
    if xs != [] {
      var n := |xs| - 1;
      SortSorts(key, xs[..n]);
      assert xs == xs[..n] + [xs[n]];
      forall y | y in Sort(key, xs[..n]) ensures key(y) != key(xs[n]) {
        assert y in multiset(xs[..n]);
      }
      InsertSorts(key, xs[n], Sort(key, xs[..n]));
    }
  }

  /** There is only one way to sort: two sorted lists of the same elements are
      the same list. */
  lemma {:induction false} SortedIsUnique<T(!new)>(key: T -> seq<int>, xs: seq<T>, ys: seq<T>)
    requires SortedByKey(key, xs) && SortedByKey(key, ys) && multiset(xs) == multiset(ys)
    ensures xs == ys
  {
    if xs == [] {
      assert |multiset(ys)| == 0;
    } else {
      assert xs[0] in multiset(ys);
      LastIsGreatest(key, xs, ys);
      DropLast(key, xs);
      DropLast(key, ys);
      SortedIsUnique(key, xs[..|xs| - 1], ys[..|ys| - 1]);
    }
  }

  lemma DropLast<T(!new)>(key: T -> seq<int>, xs: seq<T>)
    requires xs != [] && SortedByKey(key, xs)
    ensures SortedByKey(key, xs[..|xs| - 1])
    ensures xs == xs[..|xs| - 1] + [xs[|xs| - 1]]
    ensures multiset(xs[..|xs| - 1]) == multiset(xs) - multiset{xs[|xs| - 1]}
  {
    assert xs == xs[..|xs| - 1] + [xs[|xs| - 1]];
  }

  lemma LastIsGreatest<T(!new)>(key: T -> seq<int>, xs: seq<T>, ys: seq<T>)
    requires SortedByKey(key, xs) && SortedByKey(key, ys) && multiset(xs) == multiset(ys) && |xs| > 0 && |ys| > 0
    ensures xs[|xs| - 1] == ys[|ys| - 1]
  {
    var x, y := xs[|xs| - 1], ys[|ys| - 1];
    assert x in multiset(ys) && y in multiset(xs);
    var i :| 0 <= i < |ys| && ys[i] == x;
    var j :| 0 <= j < |xs| && xs[j] == y;
    if i < |ys| - 1 && j < |xs| - 1 {
      LexTransitive(key(x), key(y), key(x));
      LexIrreflexive(key(x));
      assert false;
    }
  }

  // ----- the two sorts of the terminal client ----------------------------------------

  function RankedKeyOf(s: Strategy, now: int): (Ranked -> seq<int>) {
    (r: Ranked) => RankedKey(s, now, r)
  }

  function TaskKeyOf(s: Strategy, now: int): (Task -> seq<int>) {
    (t: Task) => TaskKey(s, now, t)
  }

  function Paired(tasks: seq<Task>, scores: seq<int>, complete: seq<bool>): (r: seq<Ranked>)
    requires |tasks| == |scores| == |complete|
    ensures |r| == |tasks| && forall i :: 0 <= i < |r| ==> r[i] == Ranked(tasks[i], scores[i], complete[i])
  {
    if tasks == [] then []
    else [Ranked(tasks[0], scores[0], complete[0])] + Paired(tasks[1..], scores[1..], complete[1..])
  }

  ghost predicate InRank(s: Strategy, now: int, r: seq<Ranked>) {
    forall i, j :: 0 <= i < j < |r| ==> RankedLessThan(s, now, r[i], r[j])
  }

  ghost predicate InOrder(s: Strategy, now: int, r: seq<Task>) {
    forall i, j :: 0 <= i < j < |r| ==> LessThan(s, now, r[i], r[j])
  }

  lemma PairsDiffer(s: Strategy, now: int, r: seq<Ranked>)
    requires forall i, j :: 0 <= i < j < |r| ==> r[i].t.id != r[j].t.id
    ensures KeysDiffer(RankedKeyOf(s, now), r)
  {
    forall i, j | 0 <= i < j < |r| ensures RankedKeyOf(s, now)(r[i]) != RankedKeyOf(s, now)(r[j]) {
      hide RankedKey, RankedLessThan, LessThan, LessRoots;
      OrderedIfDistinct(s, now, r[i], r[j], 0, 0);
      RankedByKey(s, now, r[i], r[j]);
      RankedByKey(s, now, r[j], r[i]);
      LexIrreflexive(RankedKey(s, now, r[i]));
    }
  }

  lemma TasksDiffer(s: Strategy, now: int, r: seq<Task>)
    requires DistinctTaskIds(r)
    ensures KeysDiffer(TaskKeyOf(s, now), r)
  {
    forall i, j | 0 <= i < j < |r| ensures TaskKeyOf(s, now)(r[i]) != TaskKeyOf(s, now)(r[j]) {
      hide TaskKey, RankedLessThan, LessThan, LessRoots;
      OrderedIfDistinct(s, now, Ranked(r[i], 0, false), Ranked(r[j], 0, false), 0, 0);
      LessThanByKey(s, now, r[i], r[j]);
      LessThanByKey(s, now, r[j], r[i]);
      LexIrreflexive(TaskKey(s, now, r[i]));
    }
  }

  /** By score, finished subtrees last. The scores travel with the tasks. */
  method RankByScore(tasks: seq<Task>, scores: seq<int>, complete: seq<bool>, s: Strategy, now: int)
        returns (r: seq<Ranked>)
    requires |tasks| == |scores| == |complete| && DistinctTaskIds(tasks)
    ensures multiset(r) == multiset(Paired(tasks, scores, complete)) && InRank(s, now, r)
  {
    hide RankedKey, RankedLessThan;
    var pairs := Paired(tasks, scores, complete);
    PairsDiffer(s, now, pairs);
    SortSorts(RankedKeyOf(s, now), pairs);
    r := Sort(RankedKeyOf(s, now), pairs);
    forall i, j | 0 <= i < j < |r| ensures RankedLessThan(s, now, r[i], r[j]) {
      RankedByKey(s, now, r[i], r[j]);
      assert LexLess(RankedKeyOf(s, now)(r[i]), RankedKeyOf(s, now)(r[j]));
    }
  }

  method Rank(tasks: seq<Task>, s: Strategy, now: int) returns (r: seq<Task>)
    requires DistinctTaskIds(tasks)
    ensures multiset(r) == multiset(tasks) && InOrder(s, now, r)
  {
    hide TaskKey, LessThan;
    TasksDiffer(s, now, tasks);
    SortSorts(TaskKeyOf(s, now), tasks);
    r := Sort(TaskKeyOf(s, now), tasks);
    forall i, j | 0 <= i < j < |r| ensures LessThan(s, now, r[i], r[j]) {
      LessThanByKey(s, now, r[i], r[j]);
      assert LexLess(TaskKeyOf(s, now)(r[i]), TaskKeyOf(s, now)(r[j]));
    }
  }
}
