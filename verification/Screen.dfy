/** What the terminal client shows: rows, order, cursor and viewport against the
    fetched tasks, and where one event sends the cursor. */
module Screen {
  import opened Tasks
  import opened Scoring
  import opened Walks
  import opened Scores
  import opened Ledger
  import opened Folding
  import opened Cursor
  import opened Orders
  import opened Outline
  import opened Ranking
  import opened LineEditor
  import opened Edits
  import opened TuiCore
  import Graph
  import Handles

  // ----- what is on the screen ----------------------------------------------------------

  datatype Picture = Picture(
    tasks: seq<Task>,
    v: View,
    q: Query,
    strategy: Strategy,
    rows: seq<Row>,
    cursor: Option<Id>,
    anchor: nat,
    scrollTop: nat,
    height: nat,
    handleLen: nat
  )

  /** The first task row of an id. */
  function IndexOf(rows: seq<Row>, cursor: Option<Id>): (i: Option<nat>)
    ensures i.Some? ==>
      i.value < |rows| && Selectable(rows, i.value) && cursor == Some(rows[i.value].id) && Shows(rows, cursor.value)
    ensures i.None? ==> cursor.None? || !Shows(rows, cursor.value)
  {
    if rows == [] then None
    else if rows[0].kind.TaskRow? && Some(rows[0].id) == cursor then Some(0)
    else
      var rest := IndexOf(rows[1..], cursor);
      if rest.Some? then
        assert rows[1..][rest.value] == rows[rest.value + 1];
        Some(rest.value + 1)
      else
        assert forall k :: 1 <= k < |rows| ==> rows[k] == rows[1..][k - 1];
        None
  }

  function Ranks(v: View, roots: seq<Task>): (r: seq<Ranked>)
    ensures |r| == |roots| && forall i :: 0 <= i < |r| ==>
      r[i] == Ranked(roots[i], ScoreAt(v, roots[i].id).sub, ScoreAt(v, roots[i].id).allComplete)
  {
    if roots == [] then []
    else [Ranked(roots[0], ScoreAt(v, roots[0].id).sub, ScoreAt(v, roots[0].id).allComplete)] + Ranks(v, roots[1..])
  }

  ghost predicate Ordered(v: View, s: Strategy, now: int, roots: seq<Task>) {
    if s.ByUrgency? then InRank(s, now, Ranks(v, roots)) else InOrder(s, now, roots)
  }

  /** The rows are those of the selected roots, scored and in order. */
  ghost predicate Fits(tasks: seq<Task>, v: View, q: Query, s: Strategy, rows: seq<Row>) {
    && DistinctTaskIds(tasks) && v.ts == MapOf(tasks)
    && v.scores.Keys == v.ts.Keys && AllHonest(v.ts, v.scores, q) && AllExact(v.ts, v.scores, q)
    && exists roots, cut {:trigger Built(v, roots, rows, cut)} ::
         && multiset(roots) == multiset(Selected(tasks, v.ts, HitOf(q))) && Ordered(v, s, q.now, roots)
            && Built(v, roots, rows, cut)
         && AreRoots(v, roots) && (Graph.Treelike(v.ts) ==> rows == Trees(v, roots, |roots|))
  }

  /** The cursor stands on a row that is shown, which the anchor remembers, and
      inside the viewport; there is none only when no row can be selected. */
  ghost predicate CursorFits(p: Picture) {
    if p.cursor.None? then forall k :: !Selectable(p.rows, k)
    else
      var i := IndexOf(p.rows, p.cursor);
      i.Some? && p.anchor == i.value && (p.height > 0 ==> p.scrollTop <= i.value < p.scrollTop + p.height)
  }

  ghost predicate HandlesFit(tasks: seq<Task>, len: nat) {
    4 <= len <= 26 && (Handles.DistinctTails(Handles.Ids(tasks), len) || len == 26)
  }

  ghost predicate True(p: Picture) {
    Fits(p.tasks, p.v, p.q, p.strategy, p.rows) && CursorFits(p) && HandlesFit(p.tasks, p.handleLen)
  }

  /** Whatever the graph, the filter and the folds: a task that matched the
      filter when the rows were built is on a row, or below a row shown collapsed. */
  lemma NothingIsHidden(p: Picture, x: Id)
    requires True(p) && x in p.v.ts && Hit(p.q, p.v.ts[x])
    ensures Accounted(p.v, p.rows, x)
  {
    hide Built, AllHonest, AllExact, Accounted, Selected, CursorFits, HandlesFit;
    var roots, cut :| multiset(roots) == multiset(Selected(p.tasks, p.v.ts, HitOf(p.q)))
      && Built(p.v, roots, p.rows, cut);
    SameMembers(roots, Selected(p.tasks, p.v.ts, HitOf(p.q)));
    NothingHidden(p.tasks, p.v, p.q, roots, p.rows, cut, x);
  }

  lemma SameMembers(a: seq<Task>, b: seq<Task>)
    requires multiset(a) == multiset(b)
    ensures forall t :: t in a <==> t in b
  {
    forall t ensures t in a <==> t in b {
      assert t in multiset(a) <==> t in multiset(b);
    }
  }

  // ----- where an event sends the cursor ------------------------------------------------

  /** The list as the cursor sees it; `anchor` is the row it stands on, or last
      stood on. */
  datatype Spot = Spot(rows: seq<Row>, cursor: Option<Id>, anchor: nat, height: nat)

  /** The task aimed at if it is shown, else the row nearest to `from`. Without a
      row to stand on the cursor forgets its task but not its place. */
  ghost predicate Arrives(anchor: nat, aim: Option<Id>, from: nat, q: Spot) {
    && (if aim.Some? && Shows(q.rows, aim.value) then q.cursor == aim
        else q.cursor.Some? ==>
          exists i :: IsNearest(q.rows, Clamped(from, |q.rows|), i) && q.rows[i].id == q.cursor.value)
    && (q.cursor.None? ==> q.anchor == anchor)
  }

  /** The cursor keeps its task, or its place. */
  ghost predicate Kept(p: Spot, q: Spot) { Arrives(p.anchor, p.cursor, p.anchor, q) }

  datatype Travel = Step(forward: bool) | Edge(first: bool) | Page(forward: bool)

  function TravelOf(k: Key): Option<Travel> {
    if IsChar(k, 'j') || k.Down? then Some(Step(true))
    else if IsChar(k, 'k') || k.Up? then Some(Step(false))
    else if IsChar(k, 'g') then Some(Edge(true))
    else if IsChar(k, 'G') then Some(Edge(false))
    else if k.CtrlD? then Some(Page(true))
    else if k.CtrlU? then Some(Page(false))
    else None
  }

  /** The first row that can be selected, or the last. */
  ghost predicate IsEdge(rows: seq<Row>, first: bool, i: int) {
    Selectable(rows, i) && forall k :: Selectable(rows, k) ==> if first then i <= k else k <= i
  }

  /** The row a key leads to: the next one that can be selected, the first or the
      last of them, or the one half a page on. */
  ghost predicate Leads(p: Spot, go: Travel, i: int) {
    0 <= i < |p.rows| && (p.cursor.Some? || go.Edge?) &&
    match go
    case Step(forward) => IsAdjacent(p.rows, p.anchor, forward, i)
    case Edge(first) => IsEdge(p.rows, first, i)
    case Page(forward) => Paged(p.rows, p.anchor, p.height, forward, i)
  }

  ghost predicate Travelled(p: Spot, go: Travel, q: Spot) {
    if exists i :: Leads(p, go, i)
    then exists i :: Leads(p, go, i) && Arrives(p.anchor, Some(p.rows[i].id), i, q)
    else Kept(p, q)
  }

  /** What one event does to the cursor. A movement key takes it to the row it
      leads to, a new task gets it, and nothing else moves it by itself. */
  ghost predicate Follows(p: Spot, m: Mode, ev: Event, q: Spot) {
    if ev.CreateOk? then Arrives(p.anchor, Some(ev.task.id), p.anchor, q)
    else if m.List? && ev.Press? && TravelOf(ev.key).Some? then Travelled(p, TravelOf(ev.key).value, q)
    else Kept(p, q)
  }

  /** A key leads to one row at most. */
  lemma LeadsIsUnique(p: Spot, go: Travel, i: int, j: int)
    requires Leads(p, go, i) && Leads(p, go, j)
    ensures i == j
  {
  }

  lemma LeadsThere(p: Spot, go: Travel, i: int, q: Spot)
    requires Leads(p, go, i) && Arrives(p.anchor, Some(p.rows[i].id), i, q)
    ensures Travelled(p, go, q)
  {
    hide Leads, Arrives;
  }

  lemma LeadsNowhere(p: Spot, go: Travel, q: Spot)
    requires Kept(p, q) && forall i :: !Leads(p, go, i)
    ensures Travelled(p, go, q)
  {
    hide Leads, Kept;
  }

  /** A row is where its own task is found. */
  lemma {:induction false} FoundThere(rows: seq<Row>, i: nat)
    requires NoTaskTwice(rows) && Selectable(rows, i)
    ensures IndexOf(rows, Some(rows[i].id)) == Some(i)
  {
    var at := IndexOf(rows, Some(rows[i].id));
    assert Shows(rows, rows[i].id);
    assert at.Some? && rows[at.value].id == rows[i].id;
  }

  // ----- the order of the trees -----------------------------------------------------------

  /** Everything at or below the task is done or cancelled. */
  ghost predicate AllClosed(ts: TaskMap, a: Id) {
    forall x :: x in Graph.Below(ts, a) ==> ts[x].content.status in {Done, Cancelled}
  }

  /** Of two trees on the screen, why the one is above the other: by urgency those
      with something open first, and then the one that holds the more urgent task;
      by another strategy the open roots first, and then as the strategy says. */
  ghost predicate Above(ts: TaskMap, s: Strategy, now: int, a: Id, b: Id)
    requires a in ts && b in ts
  {
    if s == ByUrgency then
      && (AllClosed(ts, a) ==> AllClosed(ts, b))
      && (AllClosed(ts, a) == AllClosed(ts, b) ==>
            forall u, v :: IsMaxOver(ts, Graph.Below(ts, a), now, u) && IsMaxOver(ts, Graph.Below(ts, b), now, v) ==>
              u >= v && (u == v ==> Elder(ts[a], ts[b])))
    else
      var ca, cb := ts[a].content.status in {Done, Cancelled}, ts[b].content.status in {Done, Cancelled};
      (!ca && cb) || (ca == cb && Precedes(s, now, ts[a], ts[b]))
  }

  /** Of two trees on the screen the upper one is the one the strategy puts first. */
  lemma TopRowsInOrder(p: Picture, i: nat, j: nat)
    requires True(p) && Graph.Treelike(p.v.ts) && i < j < |p.rows| && p.rows[i].depth == 0 == p.rows[j].depth
    ensures p.rows[i].id in p.v.ts && p.rows[j].id in p.v.ts
    ensures Above(p.v.ts, p.strategy, p.q.now, p.rows[i].id, p.rows[j].id)
  {
    hide Built, AllHonest, AllExact, Selected, Ordered, Trees, Graph.Acyclic, Graph.SingleContainer, CursorFits,
      HandlesFit, Above;
    var roots: seq<Task>, cut: nat :|
      && multiset(roots) == multiset(Selected(p.tasks, p.v.ts, HitOf(p.q)))
      && Ordered(p.v, p.strategy, p.q.now, roots) && Built(p.v, roots, p.rows, cut)
      && AreRoots(p.v, roots) && p.rows == Trees(p.v, roots, |roots|);
    TopRowsAre(p.v, roots, p.rows, i, j);
    var k: nat, l: nat :| 0 <= k < l < |roots| && p.rows[i].id == roots[k].id && p.rows[j].id == roots[l].id;
    RootsInOrder(p.v, p.q, p.strategy, roots, k, l);
  }

  lemma RootsInOrder(v: View, q: Query, s: Strategy, roots: seq<Task>, k: nat, l: nat)
    requires Graph.Acyclic(v.ts) && v.scores.Keys == v.ts.Keys && AllExact(v.ts, v.scores, q) && AreRoots(v, roots)
    requires Ordered(v, s, q.now, roots) && k < l < |roots|
    ensures Above(v.ts, s, q.now, roots[k].id, roots[l].id)
  {
    hide Graph.Acyclic, IsMaxOver, Elder, RankedLessThan, LessThan, Graph.Below, Precedes, ScoreOf;
    if s == ByUrgency {
      ScoreSays(v, q, roots[k].id);
      ScoreSays(v, q, roots[l].id);
      var r := Ranks(v, roots);
      assert RankedLessThan(s, q.now, r[k], r[l]);
      RankByScoreIs(s, q.now, r[k], r[l]);
    } else {
      RankIs(s, q.now, roots[k], roots[l]);
    }
  }

  lemma ScoreSays(v: View, q: Query, a: Id)
    requires Graph.Acyclic(v.ts) && a in v.ts && a in v.scores && AllExact(v.ts, v.scores, q)
    ensures ScoreAt(v, a).allComplete <==> AllClosed(v.ts, a)
    ensures forall u :: IsMaxOver(v.ts, Graph.Below(v.ts, a), q.now, u) ==> ScoreAt(v, a).sub == u
  {
    hide Graph.Acyclic, ScoreOf, Graph.Below;
    ScoreMeansSubtree(v.ts, a, q);
  }

  // ----- what folding does to the screen --------------------------------------------------

  /** The cursor stands on the row of `x`, expanded or not, and below it there is a
      row for each child listed, or nothing deeper. */
  ghost predicate Folded(ts: TaskMap, q: Spot, x: Id, open: bool) {
    && q.cursor == Some(x) && q.anchor < |q.rows| && q.rows[q.anchor].kind.TaskRow? && q.rows[q.anchor].id == x
    && q.rows[q.anchor].expanded == open && Unfolded(ts, LinesOf(q.rows), q.anchor)
  }

  /** Right opens the task under the cursor and Left closes it. */
  ghost predicate Refolds(ts: TaskMap, p: Spot, k: Key, q: Spot) {
    p.cursor.Some? ==>
      && (k == Right || k == Char('l' as nat) ==> Folded(ts, q, p.cursor.value, true))
      && (k == Left || k == Char('h' as nat) ==> Folded(ts, q, p.cursor.value, false))
  }

  lemma RefoldsTo(ts: TaskMap, p: Spot, k: Key, open: bool, q: Spot)
    requires k in if open then {Right, Char('l' as nat)} else {Left, Char('h' as nat)}
    ensures (p.cursor.Some? ==> Folded(ts, q, p.cursor.value, open)) ==> Refolds(ts, p, k, q)
  {
    hide Folded;
  }

  lemma RefoldsNot(ts: TaskMap, p: Spot, k: Key, q: Spot)
    ensures k !in {Right, Left, Char('l' as nat), Char('h' as nat)} ==> Refolds(ts, p, k, q)
  {
    hide Folded;
  }

  /** The row under the cursor cannot have left the list: no time has passed, or it
      is still there. */
  ghost predicate Stays(p: Spot, sameClock: bool, q: Spot) {
    sameClock || (p.cursor.Some? && Shows(q.rows, p.cursor.value))
  }

  /** Every row of a true screen says what it should, and unfolds as it should. */
  lemma RowsTell(p: Picture, i: nat)
    requires True(p) && Graph.Treelike(p.v.ts) && i < |p.rows|
    ensures Unfolded(p.v.ts, LinesOf(p.rows), i)
    ensures var r := p.rows[i]; r.kind.TaskRow? ==>
      (r.expanded <==>
        if r.id in p.v.folds then p.v.folds[r.id] else NeedsAttentionBelow(p.v.ts, r.id, p.q.now))
  {
    hide Built, AllHonest, AllExact, Selected, Ordered, Trees, Graph.Acyclic, Graph.SingleContainer, Unfolded,
      NeedsAttentionBelow, CursorFits, HandlesFit;
    var roots, cut :| Built(p.v, roots, p.rows, cut) && AreRoots(p.v, roots) && p.rows == Trees(p.v, roots, |roots|);
    RowsUnfold(p.v, roots, p.rows, i);
    if p.rows[i].kind.TaskRow? {
      BuiltIsTrue(p.v, roots, p.rows, cut);
      RowTells(p.v, p.q, p.rows, p.rows[i]);
    }
  }

  lemma BuiltIsTrue(v: View, roots: seq<Task>, rows: seq<Row>, cut: nat)
    requires Built(v, roots, rows, cut)
    ensures TrueRows(v, rows)
  {
  }

  lemma FoldIsShown(p: Picture, x: Id)
    requires True(p) && Graph.Treelike(p.v.ts) && p.cursor == Some(x) && x in p.v.folds
    ensures Folded(p.v.ts, Spot(p.rows, p.cursor, p.anchor, p.height), x, p.v.folds[x])
  {
    hide Fits, HandlesFit, Unfolded;
    RowsTell(p, p.anchor);
  }

  /** A new fold, and nothing else, leaves the folded task's own row. */
  lemma FoldedIsStillShown(p: Picture, q: Picture, x: Id)
    requires True(p) && True(q) && Graph.Treelike(p.v.ts) && Shows(p.rows, x)
    requires q.tasks == p.tasks && q.q == p.q && q.strategy == p.strategy && q.v.filtering == p.v.filtering
    requires x in q.v.folds && q.v.folds == p.v.folds[x := q.v.folds[x]]
    ensures Shows(q.rows, x)
  {
    hide Built, AllHonest, AllExact, Selected, Ordered, Trees, Graph.Acyclic, Graph.SingleContainer, CursorFits,
      HandlesFit, OpenTo, Shows, MapOf, DistinctTaskIds;
    assert Graph.Acyclic(p.v.ts);
    ScoresAreDetermined(p.v.ts, p.v.scores, q.v.scores, p.q);
    assert q.v == p.v.(folds := p.v.folds[x := q.v.folds[x]]);
    var roots, cut :| && multiset(roots) == multiset(Selected(p.tasks, p.v.ts, HitOf(p.q)))
                      && Built(p.v, roots, p.rows, cut) && AreRoots(p.v, roots)
                      && p.rows == Trees(p.v, roots, |roots|);
    var roots', cut' :| && multiset(roots') == multiset(Selected(q.tasks, q.v.ts, HitOf(q.q)))
                        && Built(q.v, roots', q.rows, cut') && AreRoots(q.v, roots')
                        && q.rows == Trees(q.v, roots', |roots'|);
    SameMembers(roots, roots');
    ShownIff(p.v, roots, p.rows, cut, x);
    FoldKeepsWay(p.v, roots, x, q.v.folds[x]);
    SameWay(q.v, roots, roots', x);
    ShownIff(q.v, roots', q.rows, cut', x);
  }

  lemma SameWay(v: View, roots: seq<Task>, roots': seq<Task>, x: Id)
    requires OpenTo(v, roots, x) && forall t :: t in roots <==> t in roots'
    ensures OpenTo(v, roots', x)
  {
    hide Open;
    var p :| OpenWay(v, roots, p) && p[|p| - 1] == x;
    assert OpenWay(v, roots', p);
  }

  // ----- the rest of the view -------------------------------------------------------------

  datatype Settings = Settings(
    folds: map<Id, bool>,
    paneOpen: bool,
    filters: Filters,
    filtering: bool,
    strategy: Strategy,
    viewport: nat,
    loadFailed: bool
  )

  function Unfiltered(s: Settings): Settings {
    if s.filtering then s.(filters := Filters([], [], false), filtering := false) else s
  }

  /** Enter in the filter prompt. */
  function Filtered(s: Settings, text: Text, parsed: Option<Filters>): Settings {
    if Trim(text.chars, true) == [] then Unfiltered(s)
    else if parsed.Some? then s.(filters := parsed.value, filtering := true)
    else s
  }

  /** What a key of the list does to the view. */
  function ListAdjusted(s: Settings, cursor: Option<Id>, k: Key): Settings {
    if IsChar(k, 'l') || k.Right? then if cursor.Some? then s.(folds := s.folds[cursor.value := true]) else s
    else if IsChar(k, 'h') || k.Left? then if cursor.Some? then s.(folds := s.folds[cursor.value := false]) else s
    else if k.Tab? then s.(paneOpen := !s.paneOpen)
    else if k.Enter? then if cursor.Some? then s.(paneOpen := true) else s
    else if k.Escape? then Unfiltered(s)
    else s
  }

  /** A key that is not for moving leaves the cursor and, Enter aside, the view. */
  lemma OtherKeys(s: Settings, cursor: Option<Id>, k: Key)
    requires !Moves(k)
    ensures TravelOf(k).None?
    ensures ListAdjusted(s, cursor, k) == if k.Enter? && cursor.Some? then s.(paneOpen := true) else s
  {
  }

  /** What one event does to the view, the rows and the cursor aside. */
  function Adjusted(s: Settings, c: Core, ev: Event, parsed: Option<Filters>): Settings {
    match ev
    case Resize(height) => s.(viewport := height)
    case TasksLoaded(_) => s.(loadFailed := false)
    case CreateOk(_) => s.(paneOpen := true)
    case RequestFailed =>
      if (c.inFlight.Idle? || c.inFlight.Refreshing?) && c.tasks == [] then s.(loadFailed := true) else s
    case Press(k) => (
      match c.mode
      case List => ListAdjusted(s, c.cursor, k)
      case Field(_) => if k.Escape? then s.(paneOpen := false) else s
      case FilterPrompt(text) => if k.Enter? then Filtered(s, text, parsed) else s
      case _ => s
    )
    case _ => s
  }

  // ----- the order of arrival does not matter -----------------------------------------------

  /** The key a root is ranked by. */
  function RootKeyOf(v: View, s: Strategy, now: int): (key: Task -> seq<int>) {
    if s.ByUrgency? then
      (t: Task) => RankedKey(s, now, Ranked(t, ScoreAt(v, t.id).sub, ScoreAt(v, t.id).allComplete))
    else TaskKeyOf(s, now)
  }

  lemma OrderedByKey(v: View, s: Strategy, now: int, roots: seq<Task>)
    requires Ordered(v, s, now, roots)
    ensures SortedByKey(RootKeyOf(v, s, now), roots)
  {
    hide RankedKey, TaskKey, RankedLessThan, LessThan, ScoreAt;
    var key := RootKeyOf(v, s, now);
    forall i, j | 0 <= i < j < |roots| ensures LexLess(key(roots[i]), key(roots[j])) {
      if s.ByUrgency? {
        var r := Ranks(v, roots);
        assert RankedLessThan(s, now, r[i], r[j]);
        RankedByKey(s, now, r[i], r[j]);
      } else {
        LessThanByKey(s, now, roots[i], roots[j]);
      }
    }
  }

  lemma ScoresAreDetermined(ts: TaskMap, a: map<Id, Score>, b: map<Id, Score>, q: Query)
    requires Graph.Acyclic(ts) && a.Keys == ts.Keys && b.Keys == ts.Keys && AllExact(ts, a, q) && AllExact(ts, b, q)
    ensures a == b
  {
    assert forall x :: x in a ==> a[x] == b[x];
  }

  lemma SameSelected(tasks: seq<Task>, us: seq<Task>, ts: TaskMap, p: Task -> bool)
    requires multiset(tasks) == multiset(us)
    ensures multiset(Selected(tasks, ts, p)) == multiset(Selected(us, ts, p))
  {
    forall t ensures multiset(Selected(tasks, ts, p))[t] == multiset(Selected(us, ts, p))[t] {
      SelectedByMultiset(tasks, ts, p, t);
      SelectedByMultiset(us, ts, p, t);
    }
  }

  /** Whatever order the server's map iteration delivered the tasks in, the ledger
      shows the same rows in the same order. */
  lemma {:induction false} ArrivalOrderIrrelevant(tasks: seq<Task>, us: seq<Task>, v: View, w: View, q: Query,
        s: Strategy, rows: seq<Row>, rows': seq<Row>)
    requires Fits(tasks, v, q, s, rows) && Fits(us, w, q, s, rows') && v.folds == w.folds && v.filtering == w.filtering
    requires multiset(tasks) == multiset(us) && Graph.Treelike(v.ts)
    ensures rows == rows'
  {
    hide Built, AllHonest, AllExact, Selected, Ordered, MapOf, Trees, DistinctTaskIds, Graph.Acyclic,
      Graph.SingleContainer;
    SameMap(tasks, us);
    assert Graph.Acyclic(v.ts);
    ScoresAreDetermined(v.ts, v.scores, w.scores, q);
    assert v == w;
    var roots, cut :| && multiset(roots) == multiset(Selected(tasks, v.ts, HitOf(q))) && Ordered(v, s, q.now, roots)
                      && Built(v, roots, rows, cut) && AreRoots(v, roots) && rows == Trees(v, roots, |roots|);
    var roots', cut' :| && multiset(roots') == multiset(Selected(us, w.ts, HitOf(q))) && Ordered(w, s, q.now, roots')
                      && Built(w, roots', rows', cut') && AreRoots(w, roots') && rows' == Trees(w, roots', |roots'|);
    SameSelected(tasks, us, v.ts, HitOf(q));
    OrderedByKey(v, s, q.now, roots);
    OrderedByKey(v, s, q.now, roots');
    SortedIsUnique(RootKeyOf(v, s, q.now), roots, roots');
  }

  lemma NothingFetched(p: Picture)
    requires p.tasks == [] && p.rows == [] && p.v.ts == map[] && p.v.scores == map[] && p.cursor.None?
      && p.handleLen == 4
    ensures True(p)
  {
    NothingScored(map[], p.q);
    NothingNested(p.v);
    assert Built(p.v, [], p.rows, 0);
    assert Ranks(p.v, []) == [];
  }

  /** No tasks, no rows to stand on. */
  lemma NoTaskNoCursor(p: Picture)
    requires True(p) && p.v.ts == map[]
    ensures p.cursor.None?
  {
    hide AllHonest, AllExact, Selected, Nested, Ordered, Trees, IndexOf;
    var roots, cut :| multiset(roots) == multiset(Selected(p.tasks, p.v.ts, HitOf(p.q)))
      && Built(p.v, roots, p.rows, cut);
  }

  /** The selected roots by the chosen strategy. */
  method OrderRoots(selected: seq<Task>, v: View, s: Strategy, now: int) returns (roots: seq<Task>)
    requires DistinctTaskIds(selected)
    ensures multiset(roots) == multiset(selected) && Ordered(v, s, now, roots)
  {
    if s.ByUrgency? {
      var sub: seq<int>, complete: seq<bool> := [], [];
      for i := 0 to |selected|
        invariant |sub| == |complete| == i
        invariant forall k :: 0 <= k < i ==> sub[k] == ScoreAt(v, selected[k].id).sub
        invariant forall k :: 0 <= k < i ==> complete[k] == ScoreAt(v, selected[k].id).allComplete
      {
        var sc := ScoreAt(v, selected[i].id);
        sub, complete := sub + [sc.sub], complete + [sc.allComplete];
      }
      assert Paired(selected, sub, complete) == Ranks(v, selected);
      var ranked := RankByScore(selected, sub, complete, s, now);
      roots := Unpaired(v, ranked, selected);
    } else {
      roots := Rank(selected, s, now);
    }
  }

  function TaskOf(r: seq<Ranked>): (ts: seq<Task>)
    ensures |ts| == |r| && forall i :: 0 <= i < |r| ==> ts[i] == r[i].t
  {
    if r == [] then [] else [r[0].t] + TaskOf(r[1..])
  }

  method Unpaired(v: View, ranked: seq<Ranked>, selected: seq<Task>) returns (roots: seq<Task>)
    requires multiset(ranked) == multiset(Ranks(v, selected))
    ensures multiset(roots) == multiset(selected) && Ranks(v, roots) == ranked
  {
    roots := TaskOf(ranked);
    RanksMembers(v, ranked, selected);
    SameTasks(ranked, Ranks(v, selected));
    assert TaskOf(Ranks(v, selected)) == selected;
    assert Ranks(v, roots) == ranked;
  }

  lemma RanksMembers(v: View, ranked: seq<Ranked>, selected: seq<Task>)
    requires multiset(ranked) == multiset(Ranks(v, selected))
    ensures forall r :: r in ranked ==> r == Ranked(r.t, ScoreAt(v, r.t.id).sub, ScoreAt(v, r.t.id).allComplete)
  {
    forall r | r in ranked ensures r == Ranked(r.t, ScoreAt(v, r.t.id).sub, ScoreAt(v, r.t.id).allComplete) {
      assert r in multiset(Ranks(v, selected));
    }
  }

  lemma Extracted<T>(b: seq<T>, j: nat)
    requires j < |b|
    ensures multiset(b) == multiset{b[j]} + multiset(b[..j] + b[j + 1..])
    ensures multiset(b[..j] + b[j + 1..]) == multiset(b) - multiset{b[j]}
  {
    var x, y := b[..j], b[j + 1..];
    assert b == (x + [b[j]]) + y;
  }

  lemma TaskOfRest(b: seq<Ranked>, j: nat)
    requires j < |b|
    ensures TaskOf(b[..j] + b[j + 1..]) == TaskOf(b)[..j] + TaskOf(b)[j + 1..]
  {
    hide TaskOf;
    var ts, rest := TaskOf(b), b[..j] + b[j + 1..];
    forall k | 0 <= k < |rest| ensures TaskOf(rest)[k] == (ts[..j] + ts[j + 1..])[k] {
      assert TaskOf(rest)[k] == rest[k].t;
      if k < j {
        assert rest[k] == b[k];
      } else {
        assert rest[k] == b[k + 1];
      }
    }
  }

  lemma Peeled(b: seq<Ranked>, j: nat) returns (rest: seq<Ranked>)
    requires j < |b|
    ensures |rest| < |b| && multiset(rest) == multiset(b) - multiset{b[j]}
    ensures multiset(TaskOf(b)) == multiset{b[j].t} + multiset(TaskOf(rest))
  {
    hide TaskOf;
    rest := b[..j] + b[j + 1..];
    Extracted(b, j);
    TaskOfRest(b, j);
    Extracted(TaskOf(b), j);
  }

  lemma {:induction false} SameTasks(a: seq<Ranked>, b: seq<Ranked>)
    requires multiset(a) == multiset(b)
    ensures multiset(TaskOf(a)) == multiset(TaskOf(b))
    decreases |a|
  {
    hide TaskOf;
    if a == [] {
      assert |multiset(b)| == 0;
      assert b == a;
    } else {
      var j := Somewhere(a[0], a, b);
      var restA := Peeled(a, 0);
      var restB := Peeled(b, j);
      SameTasks(restA, restB);
    }
  }

  lemma Somewhere(r: Ranked, a: seq<Ranked>, b: seq<Ranked>) returns (j: nat)
    requires multiset(a) == multiset(b) && r in a
    ensures j < |b| && b[j] == r
  {
    assert r in multiset(b);
    j :| 0 <= j < |b| && b[j] == r;
  }

  lemma DistinctRoots(v: View, s: Strategy, now: int, selected: seq<Task>, roots: seq<Task>)
    requires DistinctTaskIds(selected) && multiset(roots) == multiset(selected) && Ordered(v, s, now, roots)
    ensures DistinctTaskIds(roots)
  {
    hide Ordered, RootKeyOf;
    OrderedByKey(v, s, now, roots);
    SameMembers(roots, selected);
    var key := RootKeyOf(v, s, now);
    forall i, j | 0 <= i < j < |roots| ensures roots[i].id != roots[j].id {
      assert roots[i] in selected && roots[j] in selected;
      LexIrreflexive(key(roots[i]));
    }
  }

  lemma RootsAreRoots(tasks: seq<Task>, v: View, q: Query, selected: seq<Task>, roots: seq<Task>)
    requires DistinctTaskIds(tasks) && v.ts == MapOf(tasks)
    requires selected == Selected(tasks, v.ts, HitOf(q)) && multiset(roots) == multiset(selected)
    ensures AreRoots(v, roots)
  {
    hide Selected;
    MapOfHolds(tasks);
    SameMembers(roots, selected);
    forall k | 0 <= k < |roots| ensures roots[k].id in v.ts && v.ts[roots[k].id] == roots[k] {
      assert roots[k] in selected;
      SelectedHolds(tasks, v.ts, HitOf(q), roots[k]);
    }
    forall k | 0 <= k < |roots| ensures roots[k] in selected {
    }
    forall t | t in selected ensures Graph.IsRoot(v.ts, t.id) {
      SelectedHolds(tasks, v.ts, HitOf(q), t);
    }
  }
}
