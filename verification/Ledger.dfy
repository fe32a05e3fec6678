/** The ledger's rows: the selected roots with their unfolded subtrees, then,
    under one header, what no root leads to. On any graph nothing that matches is
    silently hidden, every row hangs where it should and a child that does not
    exist has a row that says so; among trees the rows are exactly the folded trees. */
module Ledger {
  import opened Tasks
  import opened Graph
  import opened StoreSpec
  import opened Walks
  import opened Scores

  datatype Kind = TaskRow | MissingRow | UnreachableHeader

  datatype Row = Row(
    id: Id,
    kind: Kind,
    depth: nat,
    last: bool,
    descendants: nat,
    attention: nat,
    expanded: bool,
    dimmed: bool
  )

  /** What the rows are built from. `folds` holds the user's explicit choices. */
  datatype View = View(ts: TaskMap, scores: map<Id, Score>, folds: map<Id, bool>, filtering: bool)

  const NO_SCORE: Score := Score(0, 0, 0, 0, false, true, true)

  function ScoreAt(v: View, id: Id): Score {
    if id in v.scores then v.scores[id] else NO_SCORE
  }

  /** An explicit fold wins; otherwise a task opens when something below needs
      attention. */
  predicate Open(v: View, id: Id) {
    if id in v.folds then v.folds[id] else ScoreAt(v, id).attention > 0
  }

  function RowFor(v: View, id: Id, depth: nat, last: bool): Row {
    var s := ScoreAt(v, id);
    Row(id, TaskRow, depth, last, s.descendants, s.attention, Open(v, id), v.filtering && !s.selfMatches)
  }

  function Missing(id: Id, depth: nat, last: bool): Row {
    Row(id, MissingRow, depth, last, 0, 0, false, false)
  }

  const HEADER: Row := Row("", UnreachableHeader, 0, true, 0, 0, true, false)

  // ----- the folded tree, on acyclic data ------------------------------------------

  ghost function Tree(v: View, a: Id, depth: nat, last: bool): seq<Row>
    requires Acyclic(v.ts) && a in v.ts
    decreases |Below(v.ts, a)|, |Kids(v.ts, a)| + 1
  {
    [RowFor(v, a, depth, last)] + (if Open(v, a) then KidRows(v, a, |Kids(v.ts, a)|, depth + 1) else [])
  }

  ghost function KidRows(v: View, a: Id, n: nat, depth: nat): seq<Row>
    requires Acyclic(v.ts) && a in v.ts && n <= |Kids(v.ts, a)|
    decreases |Below(v.ts, a)|, n
  {
    if n == 0 then []
    else
      var c := Kids(v.ts, a)[n - 1];
      var last := n == |Kids(v.ts, a)|;
      KidRows(v, a, n - 1, depth)
      + (if c in v.ts then assert Edge(v.ts, a, c); BelowShrinks(v.ts, a, c); Tree(v, c, depth, last)
         else [Missing(c, depth, last)])
  }

  /** The trees of the first `n` roots. */
  ghost function Trees(v: View, roots: seq<Task>, n: nat): seq<Row>
    requires Acyclic(v.ts) && n <= |roots| && forall k :: 0 <= k < |roots| ==> roots[k].id in v.ts
  {
    if n == 0 then [] else Trees(v, roots, n - 1) + Tree(v, roots[n - 1].id, 0, true)
  }

  lemma KidRowsUnfold(v: View, a: Id, n: nat, depth: nat)
    requires Acyclic(v.ts) && a in v.ts && n < |Kids(v.ts, a)| && Kids(v.ts, a)[n] in v.ts
    ensures KidRows(v, a, n + 1, depth)
         == KidRows(v, a, n, depth) + Tree(v, Kids(v.ts, a)[n], depth, n + 1 == |Kids(v.ts, a)|)
  {
  }

  lemma KidRowsMissing(v: View, a: Id, n: nat, depth: nat)
    requires Acyclic(v.ts) && a in v.ts && n < |Kids(v.ts, a)| && Kids(v.ts, a)[n] !in v.ts
    ensures KidRows(v, a, n + 1, depth)
         == KidRows(v, a, n, depth) + [Missing(Kids(v.ts, a)[n], depth, n + 1 == |Kids(v.ts, a)|)]
  {
  }

  // ----- how rows hang together, on any graph -----------------------------------------

  /** `r` is the row of `p`'s child number `k`, missing or not. */
  ghost predicate KidRow(v: View, p: Row, k: int, r: Row) {
    && 0 <= k < |Kids(v.ts, p.id)|
    && r.id == Kids(v.ts, p.id)[k] && r.depth == p.depth + 1 && r.last == (k == |Kids(v.ts, p.id)| - 1)
    && if r.id in v.ts then r.kind.TaskRow? else r == Row(r.id, MissingRow, r.depth, r.last, 0, 0, false, false)
  }

  /** Row `i` hangs from row `j`: a child of that open task, with nothing as shallow
      in between. */
  ghost predicate Hangs(v: View, rows: seq<Row>, j: int, i: int) {
    && 0 <= j < i < |rows| && rows[j].kind.TaskRow? && Open(v, rows[j].id)
    && (exists k :: KidRow(v, rows[j], k, rows[i]))
    && forall m :: j < m <= i ==> rows[m].depth > rows[j].depth
  }

  ghost predicate HangsInside(v: View, rows: seq<Row>, lo: int, i: int) {
    exists j :: lo <= j && Hangs(v, rows, j, i)
  }

  ghost predicate MissingShown(v: View, rows: seq<Row>, i: int, k: int) {
    exists m :: Hangs(v, rows, i, m) && KidRow(v, rows[i], k, rows[m])
  }

  /** Each of the first `n` children of row `i` that does not exist has its row. */
  ghost predicate DanglingDone(v: View, rows: seq<Row>, i: int, n: int)
    requires 0 <= i < |rows|
  {
    forall k :: 0 <= k < n && k < |Kids(v.ts, rows[i].id)| && Kids(v.ts, rows[i].id)[k] !in v.ts ==>
      MissingShown(v, rows, i, k)
  }

  /** From row `lo` on there is one tree, its top's children done up to `n`. */
  ghost predicate Hung(v: View, rows: seq<Row>, lo: int, n: int) {
    && 0 <= lo < |rows| && rows[lo].kind.TaskRow?
    && (forall i :: lo < i < |rows| ==> rows[i].depth > rows[lo].depth && HangsInside(v, rows, lo, i))
    && (forall i :: lo < i < |rows| && rows[i].kind.TaskRow? && Open(v, rows[i].id) ==>
          DanglingDone(v, rows, i, |Kids(v.ts, rows[i].id)|))
    && DanglingDone(v, rows, lo, n)
  }

  /** What emitting `a` adds: nothing, or one tree with `a` on top. */
  ghost predicate Segment(v: View, a: Id, depth: nat, last: bool, had: seq<Row>, out: seq<Row>) {
    out == had || (had < out && out[|had|] == RowFor(v, a, depth, last)
                   && Hung(v, out, |had|, if Open(v, a) then |Kids(v.ts, a)| else 0))
  }

  /** ... while the first `k` children of the open `a` are done. */
  ghost predicate Sprouting(v: View, a: Id, k: nat, depth: nat, last: bool, had: seq<Row>, out: seq<Row>) {
    Open(v, a) && had < out && out[|had|] == RowFor(v, a, depth, last) && Hung(v, out, |had|, k)
  }

  lemma SproutStart(v: View, a: Id, depth: nat, last: bool, had: seq<Row>)
    requires Open(v, a)
    ensures Sprouting(v, a, 0, depth, last, had, had + [RowFor(v, a, depth, last)])
  {
    hide Open, HangsInside;
  }

  lemma SproutedIsSegment(v: View, a: Id, depth: nat, last: bool, had: seq<Row>, out: seq<Row>)
    requires Sprouting(v, a, |Kids(v.ts, a)|, depth, last, had, out)
    ensures Segment(v, a, depth, last, had, out)
  {
    hide Open, Hung;
  }

  lemma OneIsSegment(v: View, a: Id, depth: nat, last: bool, had: seq<Row>)
    requires !Open(v, a)
    ensures Segment(v, a, depth, last, had, had + [RowFor(v, a, depth, last)])
  {
    hide Open, HangsInside;
  }

  lemma SproutByKid(v: View, a: Id, k: nat, depth: nat, last: bool, had: seq<Row>, rows: seq<Row>, out: seq<Row>)
    requires Sprouting(v, a, k, depth, last, had, rows) && k < |Kids(v.ts, a)| && Kids(v.ts, a)[k] in v.ts
    requires Segment(v, Kids(v.ts, a)[k], depth + 1, k == |Kids(v.ts, a)| - 1, rows, out)
    ensures Sprouting(v, a, k + 1, depth, last, had, out)
  {
    hide Hung, Kids, ScoreAt;
    HungByKid(v, |had|, k, rows, out);
  }

  lemma SproutByMissing(v: View, a: Id, k: nat, depth: nat, last: bool, had: seq<Row>, rows: seq<Row>)
    requires Sprouting(v, a, k, depth, last, had, rows) && k < |Kids(v.ts, a)| && Kids(v.ts, a)[k] !in v.ts
    ensures Sprouting(v, a, k + 1, depth, last, had,
      rows + [Missing(Kids(v.ts, a)[k], depth + 1, k == |Kids(v.ts, a)| - 1)])
  {
    hide Hung, Kids, ScoreAt;
    HungByMissing(v, |had|, k, rows, rows + [Missing(Kids(v.ts, a)[k], depth + 1, k == |Kids(v.ts, a)| - 1)]);
  }

  lemma HangsStays(v: View, rows: seq<Row>, out: seq<Row>, j: int, i: int)
    requires rows <= out && Hangs(v, rows, j, i)
    ensures Hangs(v, out, j, i)
  {
  }

  lemma DanglingStays(v: View, rows: seq<Row>, out: seq<Row>, i: int, n: int)
    requires rows <= out && 0 <= i < |rows| && DanglingDone(v, rows, i, n)
    ensures DanglingDone(v, out, i, n)
  {
    forall k | 0 <= k < n && k < |Kids(v.ts, rows[i].id)| && Kids(v.ts, rows[i].id)[k] !in v.ts
      ensures MissingShown(v, out, i, k)
    {
      var m :| Hangs(v, rows, i, m) && KidRow(v, rows[i], k, rows[m]);
      HangsStays(v, rows, out, i, m);
    }
  }

  lemma InsideStays(v: View, rows: seq<Row>, out: seq<Row>, lo: int, i: int)
    requires rows <= out && HangsInside(v, rows, lo, i)
    ensures HangsInside(v, out, lo, i)
  {
    var j :| lo <= j && Hangs(v, rows, j, i);
    HangsStays(v, rows, out, j, i);
  }

  /** A child's row right after a tree that is shallower at its top hangs from there. */
  lemma NextHangs(v: View, rows: seq<Row>, out: seq<Row>, lo: int, n: int, k: int)
    requires Hung(v, rows, lo, n) && rows < out && Open(v, rows[lo].id) && KidRow(v, rows[lo], k, out[|rows|])
    ensures Hangs(v, out, lo, |rows|)
  {
    hide HangsInside, DanglingDone;
  }

  /** One more child, with the tree emitted for it. */
  lemma HungByKid(v: View, lo: int, k: int, rows: seq<Row>, out: seq<Row>)
    requires Hung(v, rows, lo, k) && Open(v, rows[lo].id) && 0 <= k < |Kids(v.ts, rows[lo].id)|
    requires var c := Kids(v.ts, rows[lo].id)[k];
      c in v.ts && Segment(v, c, rows[lo].depth + 1, k == |Kids(v.ts, rows[lo].id)| - 1, rows, out)
    ensures Hung(v, out, lo, k + 1)
  {
    hide Hangs, HangsInside, MissingShown;
    if out != rows {
      NextHangs(v, rows, out, lo, k, k);
      forall i | lo < i < |out| ensures out[i].depth > out[lo].depth && HangsInside(v, out, lo, i) {
        if i < |rows| {
          InsideStays(v, rows, out, lo, i);
        } else if i == |rows| {
          TopInside(v, out, lo, i);
        } else {
          DeeperInside(v, out, lo, |rows|, i);
        }
      }
      forall i | lo < i < |out| && out[i].kind.TaskRow? && Open(v, out[i].id)
        ensures DanglingDone(v, out, i, |Kids(v.ts, out[i].id)|)
      {
        if i < |rows| {
          DanglingStays(v, rows, out, i, |Kids(v.ts, out[i].id)|);
        }
      }
      DanglingStays(v, rows, out, lo, k);
    }
  }

  lemma TopInside(v: View, out: seq<Row>, lo: int, i: int)
    requires Hangs(v, out, lo, i)
    ensures HangsInside(v, out, lo, i)
  {
  }

  lemma DeeperInside(v: View, out: seq<Row>, lo: int, mid: int, i: int)
    requires lo <= mid && HangsInside(v, out, mid, i)
    ensures HangsInside(v, out, lo, i)
  {
  }

  /** One more child, which does not exist. */
  lemma HungByMissing(v: View, lo: int, k: int, rows: seq<Row>, out: seq<Row>)
    requires Hung(v, rows, lo, k) && Open(v, rows[lo].id) && 0 <= k < |Kids(v.ts, rows[lo].id)|
    requires var c := Kids(v.ts, rows[lo].id)[k];
      c !in v.ts && out == rows + [Missing(c, rows[lo].depth + 1, k == |Kids(v.ts, rows[lo].id)| - 1)]
    ensures Hung(v, out, lo, k + 1)
  {
    hide Hangs, HangsInside;
    var last := |rows|;
    assert KidRow(v, rows[lo], k, out[last]);
    NextHangs(v, rows, out, lo, k, k);
    forall i | lo < i < |out| ensures out[i].depth > out[lo].depth && HangsInside(v, out, lo, i) {
      if i < |rows| {
        InsideStays(v, rows, out, lo, i);
      } else {
        TopInside(v, out, lo, i);
      }
    }
    forall i | lo < i < |out| && out[i].kind.TaskRow? && Open(v, out[i].id)
      ensures DanglingDone(v, out, i, |Kids(v.ts, out[i].id)|)
    {
      DanglingStays(v, rows, out, i, |Kids(v.ts, out[i].id)|);
    }
    DanglingStays(v, rows, out, lo, k);
  }

  /** Every row but the header stands at the top, a root or below the header an
      orphan, or hangs from a row; every open row's missing children are
      there. */
  ghost predicate Nested(v: View, rows: seq<Row>, cut: nat) {
    && (forall i :: 0 <= i < |rows| && i != cut ==> IsTop(v, rows, cut, i) || HangsInside(v, rows, 0, i))
    && (forall i :: 0 <= i < |rows| && rows[i].kind.TaskRow? && Open(v, rows[i].id) ==>
          DanglingDone(v, rows, i, |Kids(v.ts, rows[i].id)|))
  }

  /** A root above the header, an orphan below it. */
  ghost predicate IsTop(v: View, rows: seq<Row>, cut: nat, i: int) {
    && 0 <= i < |rows| && rows[i].kind.TaskRow? && rows[i].last
    && if i < cut then rows[i].depth == 0 && Graph.IsRoot(v.ts, rows[i].id)
       else rows[i].depth == 1 && Orphan(v, rows[i].id)
  }

  ghost predicate FromRoot(ts: TaskMap, x: Id) {
    exists r :: Graph.IsRoot(ts, r) && Reaches(ts, r, x)
  }

  /** Whether the unreachable pass skips a task. */
  predicate Skipped(v: View, x: Id) { v.filtering && !ScoreAt(v, x).matches }

  /** An unskipped task that no root leads to. */
  ghost predicate Orphan(v: View, o: Id) {
    o in v.ts && !FromRoot(v.ts, o) && !Skipped(v, o)
  }

  lemma NothingNested(v: View)
    ensures Nested(v, [], 0)
  {
  }

  lemma NestedByTree(v: View, out: seq<Row>, cut: nat, a: Id, depth: nat, out': seq<Row>)
    requires Nested(v, out, cut) && cut <= |out| && Segment(v, a, depth, true, out, out')
    requires if cut < |out| then depth == 1 && Orphan(v, a) else depth == 0 && Graph.IsRoot(v.ts, a)
    ensures Nested(v, out', if cut < |out| then cut else |out'|)
  {
    hide HangsInside, DanglingDone, Open, Orphan, Graph.IsRoot;
    var cut' := if cut < |out| then cut else |out'|;
    if out != out' {
      forall i | 0 <= i < |out'| && i != cut' ensures IsTop(v, out', cut', i) || HangsInside(v, out', 0, i) {
        if i < |out| {
          if !IsTop(v, out, cut, i) { InsideStays(v, out, out', 0, i); }
        } else if i > |out| {
          DeeperInside(v, out', 0, |out|, i);
        }
      }
      forall i | 0 <= i < |out'| && out'[i].kind.TaskRow? && Open(v, out'[i].id)
        ensures DanglingDone(v, out', i, |Kids(v.ts, out'[i].id)|)
      {
        if i < |out| { DanglingStays(v, out, out', i, |Kids(v.ts, out'[i].id)|); }
      }
    }
  }

  lemma NestedByHeader(v: View, out: seq<Row>)
    requires Nested(v, out, |out|)
    ensures Nested(v, out + [HEADER], |out|)
  {
    hide HangsInside, DanglingDone, Open, Orphan, Graph.IsRoot;
    var out' := out + [HEADER];
    forall i | 0 <= i < |out| ensures IsTop(v, out', |out|, i) || HangsInside(v, out', 0, i) {
      if !IsTop(v, out, |out|, i) { InsideStays(v, out, out', 0, i); }
    }
    forall i | 0 <= i < |out| && out'[i].kind.TaskRow? && Open(v, out'[i].id)
      ensures DanglingDone(v, out', i, |Kids(v.ts, out'[i].id)|)
    {
      DanglingStays(v, out, out', i, |Kids(v.ts, out'[i].id)|);
    }
  }

  // ----- what the rows under construction satisfy -------------------------------------

  predicate Shows(rows: seq<Row>, x: Id) {
    exists i :: 0 <= i < |rows| && rows[i].kind.TaskRow? && rows[i].id == x
  }

  ghost predicate NoTaskTwice(rows: seq<Row>) {
    forall i, j :: 0 <= i < j < |rows| && rows[i].kind.TaskRow? && rows[j].kind.TaskRow? ==> rows[i].id != rows[j].id
  }

  /** A task's row carries that task's numbers and fold state. */
  ghost predicate TrueRows(v: View, rows: seq<Row>) {
    forall r :: r in rows && r.kind.TaskRow? ==> r.id in v.ts && r == RowFor(v, r.id, r.depth, r.last)
  }

  /** Every existing child of an open task of `s` is in `all`. */
  ghost predicate OpenKidsIn(v: View, s: set<Id>, all: set<Id>) {
    forall a, b {:trigger Edge(v.ts, a, b)} :: a in s && Edge(v.ts, a, b) && Open(v, a) ==> b in all
  }

  ghost predicate NoHeader(rows: seq<Row>) {
    forall r :: r in rows ==> !r.kind.UnreachableHeader?
  }

  class Builder {
    const v: View
    var out: seq<Row>
    var path: set<Id>
    var rendered: set<Id>

    constructor (v: View)
      ensures this.v == v && out == [] && path == {} && rendered == {} && Valid()
    {
      this.v, out, path, rendered := v, [], {}, {};
    }

    ghost predicate Valid()
      reads this
    {
      && path <= rendered && rendered <= v.ts.Keys
      && (forall x :: x in rendered <==> Shows(out, x))
      && NoTaskTwice(out)
      && TrueRows(v, out)
    }

    method Append(r: Row)
      requires Valid() && !r.kind.TaskRow?
      modifies this`out
      ensures Valid() && out == old(out) + [r]
    {
      ShowsAppend(v, out, r);
      out := out + [r];
    }

    method AppendTask(id: Id, depth: nat, last: bool)
      requires Valid() && id in v.ts && id !in rendered
      modifies this
      ensures Valid() && out == old(out) + [RowFor(v, id, depth, last)]
      ensures rendered == old(rendered) + {id} && path == old(path) + {id}
    {
      ShowsAppend(v, out, RowFor(v, id, depth, last));
      path := path + {id};
      rendered := rendered + {id};
      out := out + [RowFor(v, id, depth, last)];
    }

    /** The task, and if it is open its children; nothing twice. */
    method Emit(t: Task, depth: nat, last: bool)
      requires KeysMatch(v.ts) && t.id in v.ts && v.ts[t.id] == t && Valid()
      modifies this
      ensures Valid() && path == old(path) && old(rendered) + {t.id} <= rendered
      ensures Emitted(v, t.id, depth, last, old(out), old(rendered), out, rendered)
      decreases v.ts.Keys - rendered
    {
      hide Emitted, Growing, Open, Shows, NoTaskTwice, TrueRows, Acyclic, SingleContainer;
      if t.id in path || t.id in rendered {
        NothingEmitted(v, t.id, depth, last, out, rendered);
        return;
      }
      ghost var had, before, up := out, rendered, path;
      AppendTask(t.id, depth, last);
      if !Open(v, t.id) {
        OneEmitted(v, t.id, depth, last, had, before);
        path := path - {t.id};
        assert path == up;
        return;
      }
      StartGrowing(v, t.id, depth, last, had, before);
      var kids := t.content.childIds;
      for k := 0 to |kids|
        invariant Valid() && path == up + {t.id} && before + {t.id} <= rendered
        invariant Growing(v, t.id, k, depth, last, had, before, out, rendered)
      {
        ghost var rows, mid := out, rendered;
        var isLast := k == |kids| - 1;
        if kids[k] in v.ts {
          Emit(v.ts[kids[k]], depth + 1, isLast);
          GrowByKid(v, t.id, k, depth, last, had, before, rows, mid, out, rendered);
        } else {
          Append(Missing(kids[k], depth + 1, isLast));
          GrowByMissing(v, t.id, k, depth, last, had, before, rows, rendered);
        }
      }
      GrownIsEmitted(v, t.id, depth, last, had, before, out, rendered);
      path := path - {t.id};
      assert path == up;
    }
  }

  /** Every task that joined is reachable from `a`. */
  ghost predicate JoinedBelow(v: View, a: Id, before: set<Id>, rendered: set<Id>) {
    forall x :: x in rendered && x !in before ==> x in v.ts && Reaches(v.ts, a, x)
  }

  /** From (`had`, `before`) to (`out`, `rendered`) by emitting `a`. */
  ghost predicate Emitted(v: View, a: Id, depth: nat, last: bool, had: seq<Row>, before: set<Id>, out: seq<Row>,
        rendered: set<Id>)
    requires a in v.ts
  {
    && had <= out && NoHeader(out[|had|..])
    && JoinedBelow(v, a, before, rendered)
    && OpenKidsIn(v, rendered - before, rendered)
    && Segment(v, a, depth, last, had, out)
    && (Treelike(v.ts) && before !! Below(v.ts, a) ==> out == had + Tree(v, a, depth, last))
  }

  /** ... while the first `k` children of the open task `a` are done. */
  ghost predicate Growing(v: View, a: Id, k: nat, depth: nat, last: bool, had: seq<Row>, before: set<Id>,
        out: seq<Row>, rendered: set<Id>)
    requires a in v.ts
  {
    && k <= |Kids(v.ts, a)|
    && had <= out && NoHeader(out[|had|..])
    && JoinedBelow(v, a, before, rendered)
    && OpenKidsIn(v, rendered - before - {a}, rendered)
    && KidsIn(v.ts, Kids(v.ts, a), k, rendered)
    && Sprouting(v, a, k, depth, last, had, out)
    && (Treelike(v.ts) && before !! Below(v.ts, a) ==>
          && rendered <= before + ({a} + BelowKids(v.ts, a, k))
          && out == had + ([RowFor(v, a, depth, last)] + KidRows(v, a, k, depth + 1)))
  }

  lemma NothingEmitted(v: View, a: Id, depth: nat, last: bool, had: seq<Row>, before: set<Id>)
    requires a in v.ts && a in before
    ensures Emitted(v, a, depth, last, had, before, had, before)
  {
    ReachesSelf(v.ts, a);
    assert a in Below(v.ts, a);
  }

  lemma OneEmitted(v: View, a: Id, depth: nat, last: bool, had: seq<Row>, before: set<Id>)
    requires a in v.ts && a !in before && !Open(v, a)
    ensures Emitted(v, a, depth, last, had, before, had + [RowFor(v, a, depth, last)], before + {a})
  {
    hide Segment;
    ReachesSelf(v.ts, a);
    OneIsSegment(v, a, depth, last, had);
    assert (had + [RowFor(v, a, depth, last)])[|had|..] == [RowFor(v, a, depth, last)];
    assert before + {a} - before == {a};
    if Treelike(v.ts) {
      assert Tree(v, a, depth, last) == [RowFor(v, a, depth, last)];
    }
  }

  lemma StartGrowing(v: View, a: Id, depth: nat, last: bool, had: seq<Row>, before: set<Id>)
    requires a in v.ts && a !in before && Open(v, a)
    ensures Growing(v, a, 0, depth, last, had, before, had + [RowFor(v, a, depth, last)], before + {a})
  {
    hide Sprouting;
    ReachesSelf(v.ts, a);
    SproutStart(v, a, depth, last, had);
    assert (had + [RowFor(v, a, depth, last)])[|had|..] == [RowFor(v, a, depth, last)];
    if Treelike(v.ts) {
      assert [RowFor(v, a, depth, last)] + KidRows(v, a, 0, depth + 1) == [RowFor(v, a, depth, last)];
    }
  }

  lemma NextKidIsNew(v: View, a: Id, k: nat, before: set<Id>, rendered: set<Id>)
    requires Treelike(v.ts) && a in v.ts && k < |Kids(v.ts, a)| && Kids(v.ts, a)[k] in v.ts && before !! Below(v.ts, a)
    requires rendered <= before + ({a} + BelowKids(v.ts, a, k))
    ensures rendered !! Below(v.ts, Kids(v.ts, a)[k])
  {
    KidsApart(v.ts, a, k);
    BelowShrinks(v.ts, a, Kids(v.ts, a)[k]);
  }

  lemma GrowByKid(v: View, a: Id, k: nat, depth: nat, last: bool, had: seq<Row>, before: set<Id>,
                  rows: seq<Row>, mid: set<Id>, out: seq<Row>, rendered: set<Id>)
    requires a in v.ts && k < |Kids(v.ts, a)| && Kids(v.ts, a)[k] in v.ts
    requires Growing(v, a, k, depth, last, had, before, rows, mid) && before + {a} <= mid
    requires mid + {Kids(v.ts, a)[k]} <= rendered
    requires Emitted(v, Kids(v.ts, a)[k], depth + 1, k == |Kids(v.ts, a)| - 1, rows, mid, out, rendered)
    ensures Growing(v, a, k + 1, depth, last, had, before, out, rendered)
  {
    hide Segment, Sprouting, Open, Reaches, Acyclic, SingleContainer;
    var c := Kids(v.ts, a)[k];
    assert Edge(v.ts, a, c) by { assert c in Kids(v.ts, a); }
    SproutByKid(v, a, k, depth, last, had, rows, out);
    JoinBelowKid(v, a, c, before, mid, rendered);
    KidsInGrows(v.ts, Kids(v.ts, a), k, mid, rendered);
    HeaderlessJoin(had, rows, out);
    OpenKidsJoin(v, a, before, mid, rendered);
    if Treelike(v.ts) && before !! Below(v.ts, a) {
      GrowExactly(v, a, k, depth, last, had, before, rows, mid, out, rendered);
    }
  }

  lemma GrowExactly(v: View, a: Id, k: nat, depth: nat, last: bool, had: seq<Row>, before: set<Id>,
                    rows: seq<Row>, mid: set<Id>, out: seq<Row>, rendered: set<Id>)
    requires Treelike(v.ts) && a in v.ts && k < |Kids(v.ts, a)| && Kids(v.ts, a)[k] in v.ts && before !! Below(v.ts, a)
    requires mid <= before + ({a} + BelowKids(v.ts, a, k))
    requires rows == had + ([RowFor(v, a, depth, last)] + KidRows(v, a, k, depth + 1))
    requires Emitted(v, Kids(v.ts, a)[k], depth + 1, k == |Kids(v.ts, a)| - 1, rows, mid, out, rendered)
    ensures rendered <= before + ({a} + BelowKids(v.ts, a, k + 1))
    ensures out == had + ([RowFor(v, a, depth, last)] + KidRows(v, a, k + 1, depth + 1))
  {
    var c := Kids(v.ts, a)[k];
    hide Segment, Open;
    var isLast := k == |Kids(v.ts, a)| - 1;
    NextKidIsNew(v, a, k, before, mid);
    assert out == rows + Tree(v, c, depth + 1, isLast);
    JoinKidRows(v, a, k, depth, had, RowFor(v, a, depth, last), rows, out);
    BelowKidsGrows(v.ts, a, k);
    forall x | x in rendered ensures x in before + ({a} + BelowKids(v.ts, a, k + 1)) {
      if x !in mid {
        assert x in Below(v.ts, c);
      }
    }
  }

  lemma JoinKidRows(v: View, a: Id, k: nat, depth: nat, had: seq<Row>, top: Row, rows: seq<Row>, out: seq<Row>)
    requires Acyclic(v.ts) && a in v.ts && k < |Kids(v.ts, a)| && Kids(v.ts, a)[k] in v.ts
    requires rows == had + ([top] + KidRows(v, a, k, depth + 1))
    requires out == rows + Tree(v, Kids(v.ts, a)[k], depth + 1, k == |Kids(v.ts, a)| - 1)
    ensures out == had + ([top] + KidRows(v, a, k + 1, depth + 1))
  {
    hide Reaches, Acyclic;
    KidRowsUnfold(v, a, k, depth + 1);
  }

  lemma JoinBelowKid(v: View, a: Id, c: Id, before: set<Id>, mid: set<Id>, rendered: set<Id>)
    requires Edge(v.ts, a, c) && JoinedBelow(v, a, before, mid) && JoinedBelow(v, c, mid, rendered)
    ensures JoinedBelow(v, a, before, rendered)
  {
    EdgeReaches(v.ts, a, c);
    forall x | x in rendered && x !in before ensures x in v.ts && Reaches(v.ts, a, x) {
      if x !in mid { ReachesTrans(v.ts, a, c, x); }
    }
  }

  lemma HeaderlessJoin(had: seq<Row>, rows: seq<Row>, out: seq<Row>)
    requires had <= rows <= out && NoHeader(rows[|had|..]) && NoHeader(out[|rows|..])
    ensures had <= out && NoHeader(out[|had|..])
  {
    assert out[|had|..] == rows[|had|..] + out[|rows|..];
  }

  lemma OpenKidsJoin(v: View, a: Id, before: set<Id>, mid: set<Id>, rendered: set<Id>)
    requires before + {a} <= mid <= rendered
    requires OpenKidsIn(v, mid - before - {a}, mid) && OpenKidsIn(v, rendered - mid, rendered)
    ensures OpenKidsIn(v, rendered - before - {a}, rendered)
  {
    assert rendered - before - {a} == (mid - before - {a}) + (rendered - mid);
  }

  lemma GrowByMissing(v: View, a: Id, k: nat, depth: nat, last: bool, had: seq<Row>, before: set<Id>,
                      rows: seq<Row>, rendered: set<Id>)
    requires a in v.ts && k < |Kids(v.ts, a)| && Kids(v.ts, a)[k] !in v.ts
    requires Growing(v, a, k, depth, last, had, before, rows, rendered)
    ensures Growing(v, a, k + 1, depth, last, had, before,
                    rows + [Missing(Kids(v.ts, a)[k], depth + 1, k == |Kids(v.ts, a)| - 1)], rendered)
  {
    hide Sprouting, Open, Reaches, Acyclic, SingleContainer, Tree;
    var r := Missing(Kids(v.ts, a)[k], depth + 1, k == |Kids(v.ts, a)| - 1);
    SproutByMissing(v, a, k, depth, last, had, rows);
    assert (rows + [r])[|rows|..] == [r];
    HeaderlessJoin(had, rows, rows + [r]);
    KidsInGrows(v.ts, Kids(v.ts, a), k, rendered, rendered);
    if Treelike(v.ts) && before !! Below(v.ts, a) {
      KidRowsMissing(v, a, k, depth + 1);
      BelowKidsGrows(v.ts, a, k);
      NothingBelow(v.ts, Kids(v.ts, a)[k]);
    }
  }

  lemma GrownIsEmitted(v: View, a: Id, depth: nat, last: bool, had: seq<Row>, before: set<Id>, out: seq<Row>,
        rendered: set<Id>)
    requires a in v.ts && Open(v, a) && a in rendered && KeysMatch(v.ts)
    requires Growing(v, a, |Kids(v.ts, a)|, depth, last, had, before, out, rendered)
    ensures Emitted(v, a, depth, last, had, before, out, rendered)
  {
    hide Sprouting, Segment, Open, Reaches, Acyclic, SingleContainer, KidRows;
    SproutedIsSegment(v, a, depth, last, had, out);
    assert Kids(v.ts, a)[..|Kids(v.ts, a)|] == Kids(v.ts, a);
  }

  lemma ShowsAppend(v: View, rows: seq<Row>, r: Row)
    requires NoTaskTwice(rows) && TrueRows(v, rows)
    requires r.kind.TaskRow? ==> !Shows(rows, r.id) && r.id in v.ts && r == RowFor(v, r.id, r.depth, r.last)
    ensures NoTaskTwice(rows + [r]) && TrueRows(v, rows + [r])
    ensures forall x :: Shows(rows + [r], x) <==> Shows(rows, x) || (r.kind.TaskRow? && x == r.id)
  {
    var all := rows + [r];
    forall x ensures Shows(all, x) <==> Shows(rows, x) || (r.kind.TaskRow? && x == r.id) {
      if i :| 0 <= i < |rows| && rows[i].kind.TaskRow? && rows[i].id == x {
        assert all[i] == rows[i];
      }
      if r.kind.TaskRow? && x == r.id {
        assert all[|rows|] == r;
      }
      if i :| 0 <= i < |all| && all[i].kind.TaskRow? && all[i].id == x {
        assert i < |rows| ==> rows[i] == all[i];
      }
    }
    forall i, j | 0 <= i < j < |all| && all[i].kind.TaskRow? && all[j].kind.TaskRow? ensures all[i].id != all[j].id {
      if j == |rows| {
        assert rows[i].id == all[i].id;
      }
    }
  }

  // ----- what some root leads to -------------------------------------------------------

  /** Everything structurally below the task, whatever is folded. */
  method MarkReachable(ts: TaskMap, t: Task, reachable: Seen)
    requires KeysMatch(ts) && t.id in ts && ts[t.id] == t
    modifies reachable
    ensures old(reachable.ids) + {t.id} <= reachable.ids
    ensures ClosedInto(ts, reachable.ids - old(reachable.ids), reachable.ids)
    ensures AllReached(ts, t.id, reachable.ids - old(reachable.ids))
    decreases ts.Keys - reachable.ids
  {
    if t.id in reachable.ids { return; }
    ghost var before := reachable.ids;
    reachable.ids := reachable.ids + {t.id};
    ReachesSelf(ts, t.id);
    var kids := t.content.childIds;
    for k := 0 to |kids|
      invariant before + {t.id} <= reachable.ids
      invariant AllReached(ts, t.id, reachable.ids - before)
      invariant ClosedInto(ts, reachable.ids - before - {t.id}, reachable.ids)
      invariant KidsIn(ts, kids, k, reachable.ids)
    {
      ghost var mid := reachable.ids;
      if kids[k] in ts {
        MarkReachable(ts, ts[kids[k]], reachable);
        assert Edge(ts, t.id, kids[k]) by { assert kids[k] in kids; }
        JoinReached(ts, t.id, kids[k], before, mid, reachable.ids);
      }
      KidsInGrows(ts, kids, k, mid, reachable.ids);
    }
    KidsInCloses(ts, t, before, reachable.ids);
  }

  lemma JoinReached(ts: TaskMap, a: Id, c: Id, before: set<Id>, mid: set<Id>, all: set<Id>)
    requires before + {a} <= mid <= all && Edge(ts, a, c)
    requires AllReached(ts, a, mid - before) && AllReached(ts, c, all - mid)
    requires ClosedInto(ts, mid - before - {a}, mid) && ClosedInto(ts, all - mid, all)
    ensures AllReached(ts, a, all - before) && ClosedInto(ts, all - before - {a}, all)
  {
    EdgeReaches(ts, a, c);
    forall x | x in all - before ensures x in ts && Reaches(ts, a, x) {
      if x !in mid { ReachesTrans(ts, a, c, x); }
    }
  }

  lemma MarkedFromRoot(ts: TaskMap, r: Id, before: set<Id>, after: set<Id>)
    requires Graph.IsRoot(ts, r) && before <= after && Closed(ts, before)
    requires AllReached(ts, r, after - before) && ClosedInto(ts, after - before, after)
    ensures Closed(ts, after)
    ensures forall x :: x in after && x !in before ==> x in ts && FromRoot(ts, x)
  {
    assert after == before + (after - before);
  }

  method MarkFromRoots(tasks: seq<Task>, ix: Index) returns (reachable: Seen)
    requires DistinctTaskIds(tasks) && ix.Valid(tasks)
    ensures fresh(reachable)
    ensures forall x :: x in reachable.ids <==> x in MapOf(tasks) && FromRoot(MapOf(tasks), x)
  {
    hide Closed, Reaches, ClosedInto;
    MapOfHolds(tasks);
    var ts := ix.byId;
    reachable := new Seen();
    NothingIsClosed(ts);
    for i := 0 to |tasks|
      invariant forall x :: x in reachable.ids ==> x in ts && FromRoot(ts, x)
      invariant Closed(ts, reachable.ids)
      invariant forall k :: 0 <= k < i && Graph.IsRoot(ts, tasks[k].id) ==> tasks[k].id in reachable.ids
    {
      assert tasks[i] in tasks;
      ix.RootIsRoot(tasks, tasks[i].id);
      if ix.IsRoot(tasks[i].id) {
        ghost var before := reachable.ids;
        MarkReachable(ts, tasks[i], reachable);
        MarkedFromRoot(ts, tasks[i].id, before, reachable.ids);
      }
    }
    forall x | x in ts && FromRoot(ts, x) ensures x in reachable.ids {
      var r := RootLeads(ts, x);
      var k :| 0 <= k < |tasks| && tasks[k] == ts[r];
      ClosedHoldsBelow(ts, reachable.ids, r);
    }
  }

  lemma NothingIsClosed(ts: TaskMap)
    ensures Closed(ts, {})
  {
  }

  lemma RootLeads(ts: TaskMap, x: Id) returns (r: Id)
    requires FromRoot(ts, x) && x in ts
    ensures Graph.IsRoot(ts, r) && x in Below(ts, r)
  {
    r :| Graph.IsRoot(ts, r) && Reaches(ts, r, x);
  }

  // ----- the whole list -----------------------------------------------------------------

  ghost predicate BelowOrphan(v: View, x: Id) {
    exists o :: Orphan(v, o) && Reaches(v.ts, o, x)
  }

  /** The rows below the header are of orphans and what they lead to. */
  ghost predicate OrphanPart(v: View, rows: seq<Row>, cut: nat) {
    forall i :: cut < i < |rows| && rows[i].kind.TaskRow? ==> BelowOrphan(v, rows[i].id)
  }

  lemma OrphanJoins(v: View, o: Id, out: seq<Row>, rendered: set<Id>, cut: nat, out': seq<Row>, rendered': set<Id>)
    requires Orphan(v, o) && OrphanPart(v, out, cut) && out <= out' && NoTaskTwice(out')
    requires JoinedBelow(v, o, rendered, rendered')
    requires (forall x :: x in rendered <==> Shows(out, x)) && (forall x :: x in rendered' <==> Shows(out', x))
    ensures OrphanPart(v, out', cut)
  {
    hide Orphan, FromRoot, Reaches;
    forall i | cut < i < |out'| && out'[i].kind.TaskRow? ensures BelowOrphan(v, out'[i].id) {
      if i < |out| {
        assert out'[i] == out[i];
      } else {
        assert Shows(out', out'[i].id);
      }
    }
  }

  /** A row list as the ledger builds it: `cut` is where the header stands, or
      the length when there is none. */
  ghost predicate Built(v: View, roots: seq<Task>, rows: seq<Row>, cut: nat) {
    && NoTaskTwice(rows) && TrueRows(v, rows)
    && cut <= |rows|
    && (forall i :: 0 <= i < |rows| && rows[i].kind.UnreachableHeader? ==> i == cut && rows[i] == HEADER)
    && (cut < |rows| ==> rows[cut] == HEADER && cut + 1 < |rows|)
    && (forall i :: 0 <= i < cut && rows[i].kind.TaskRow? ==> FromRoot(v.ts, rows[i].id))
    && (forall r :: r in roots ==> Shows(rows, r.id))
    && (forall x :: x in v.ts && !FromRoot(v.ts, x) && !Skipped(v, x) ==> Shows(rows, x))
    && (forall a, b {:trigger Edge(v.ts, a, b)} :: Shows(rows, a) && Edge(v.ts, a, b) && Open(v, a) ==> Shows(rows, b))
    && Nested(v, rows, cut) && OrphanPart(v, rows, cut)
  }

  /** The state between two emissions at the top level. */
  ghost predicate Building(v: View, out: seq<Row>, rendered: set<Id>, cut: nat) {
    && cut <= |out|
    && (forall i :: 0 <= i < |out| && out[i].kind.UnreachableHeader? ==> i == cut && out[i] == HEADER)
    && (cut < |out| ==> out[cut] == HEADER)
    && (forall i :: 0 <= i < cut && out[i].kind.TaskRow? ==> FromRoot(v.ts, out[i].id))
    && OpenKidsIn(v, rendered, rendered)
    && Nested(v, out, cut) && OrphanPart(v, out, cut)
  }

  lemma BuildingEmit(v: View, a: Id, depth: nat, out: seq<Row>, rendered: set<Id>, cut: nat, out': seq<Row>,
        rendered': set<Id>)
    requires a in v.ts && Building(v, out, rendered, cut) && rendered <= rendered'
    requires if cut < |out| then depth == 1 && Orphan(v, a) else depth == 0 && Graph.IsRoot(v.ts, a)
    requires Emitted(v, a, depth, true, out, rendered, out', rendered')
    ensures OpenKidsIn(v, rendered', rendered')
    ensures cut < |out| && OrphanPart(v, out', cut) ==> Building(v, out', rendered', cut)
    ensures Nested(v, out', if cut < |out| then cut else |out'|)
  {
    hide Nested, Segment, Open, Orphan, Graph.IsRoot;
    NestedByTree(v, out, cut, a, depth, out');
    assert rendered' == rendered + (rendered' - rendered);
    forall i | 0 <= i < |out'|
      ensures if i < |out| then out'[i] == out[i] else !out'[i].kind.UnreachableHeader?
    {
      if i >= |out| { assert out'[i] == out'[|out|..][i - |out|]; }
    }
  }

  /** Emitting a root before there is a header. */
  lemma BuildingRoot(v: View, a: Id, out: seq<Row>, rendered: set<Id>, out': seq<Row>, rendered': set<Id>)
    requires Graph.IsRoot(v.ts, a) && Building(v, out, rendered, |out|) && rendered <= rendered'
    requires Emitted(v, a, 0, true, out, rendered, out', rendered')
    requires (forall x :: x in rendered <==> Shows(out, x)) && (forall x :: x in rendered' <==> Shows(out', x))
    requires forall x :: x in rendered ==> FromRoot(v.ts, x)
    ensures Building(v, out', rendered', |out'|)
    ensures forall x :: x in rendered' ==> FromRoot(v.ts, x)
  {
    hide Nested, Segment, Open;
    BuildingEmit(v, a, 0, out, rendered, |out|, out', rendered');
    forall x | x in rendered' ensures FromRoot(v.ts, x) {}
    forall i | 0 <= i < |out'|
      ensures !out'[i].kind.UnreachableHeader? && (out'[i].kind.TaskRow? ==> FromRoot(v.ts, out'[i].id))
    {
      if i < |out| {
        assert out'[i] == out[i];
      } else {
        assert out'[i] == out'[|out|..][i - |out|];
      }
      assert out'[i].kind.TaskRow? ==> Shows(out', out'[i].id);
    }
  }

  ghost predicate AreRoots(v: View, roots: seq<Task>) {
    forall k :: 0 <= k < |roots| ==> Graph.IsRoot(v.ts, roots[k].id) && v.ts[roots[k].id] == roots[k]
  }

  lemma StartBuilding(v: View, roots: seq<Task>)
    ensures Building(v, [], {}, 0) && OnlyBelow(v, roots, 0, {})
    ensures Treelike(v.ts) && AreRoots(v, roots) ==> Trees(v, roots, 0) == []
  {
    hide Nested;
    NothingNested(v);
  }

  /** The selected roots first. */
  method EmitRoots(v: View, roots: seq<Task>) returns (b: Builder)
    requires KeysMatch(v.ts) && AreRoots(v, roots)
    ensures fresh(b) && b.v == v && b.Valid() && b.path == {}
    ensures Building(v, b.out, b.rendered, |b.out|)
    ensures forall x :: x in b.rendered ==> FromRoot(v.ts, x)
    ensures forall t :: t in roots ==> t.id in b.rendered
    ensures Treelike(v.ts) && DistinctTaskIds(roots) ==> b.out == Trees(v, roots, |roots|)
  {
    hide Building, Emitted, OnlyBelow, FromRoot, Reaches, IsPath, Below, Tree, Trees, NoTaskTwice, TrueRows,
      JoinedBelow, Acyclic, SingleContainer, NoDangling, DistinctTaskIds, Shows;
    b := new Builder(v);
    ghost var exact := Treelike(v.ts) && DistinctTaskIds(roots);
    StartBuilding(v, roots);
    for i := 0 to |roots|
      invariant b.v == v && b.Valid() && b.path == {} && fresh(b)
      invariant Building(v, b.out, b.rendered, |b.out|)
      invariant forall x :: x in b.rendered ==> FromRoot(v.ts, x)
      invariant forall k :: 0 <= k < i ==> roots[k].id in b.rendered
      invariant exact ==> b.out == Trees(v, roots, i) && OnlyBelow(v, roots, i, b.rendered)
    {
      ghost var out, rendered := b.out, b.rendered;
      b.Emit(roots[i], 0, true);
      BuildingRoot(v, roots[i].id, out, rendered, b.out, b.rendered);
      if exact {
        RootExactly(v, roots, i, out, rendered, b.out, b.rendered);
      }
    }
  }

  lemma RootExactly(v: View, roots: seq<Task>, n: nat, out: seq<Row>, rendered: set<Id>, out': seq<Row>,
        rendered': set<Id>)
    requires Treelike(v.ts) && DistinctTaskIds(roots) && n < |roots| && AreRoots(v, roots)
    requires out == Trees(v, roots, n) && OnlyBelow(v, roots, n, rendered)
    requires Emitted(v, roots[n].id, 0, true, out, rendered, out', rendered')
    ensures out' == Trees(v, roots, n + 1) && OnlyBelow(v, roots, n + 1, rendered')
  {
    NextRootIsNew(v, roots, n, rendered);
    OneMoreRoot(v, roots, n, rendered, rendered');
  }

  ghost predicate OnlyBelow(v: View, roots: seq<Task>, n: nat, rendered: set<Id>) {
    n <= |roots| && forall x :: x in rendered ==> exists k :: 0 <= k < n && Reaches(v.ts, roots[k].id, x)
  }

  lemma NextRootIsNew(v: View, roots: seq<Task>, n: nat, rendered: set<Id>)
    requires Treelike(v.ts) && DistinctTaskIds(roots) && n < |roots| && AreRoots(v, roots)
    requires OnlyBelow(v, roots, n, rendered)
    ensures rendered !! Below(v.ts, roots[n].id)
  {
    forall x | x in rendered ensures x !in Below(v.ts, roots[n].id) {
      var k :| 0 <= k < n && Reaches(v.ts, roots[k].id, x);
      if x in Below(v.ts, roots[n].id) {
        RootIsUnique(v.ts, roots[k].id, roots[n].id, x);
      }
    }
  }

  lemma OneMoreRoot(v: View, roots: seq<Task>, n: nat, rendered: set<Id>, rendered': set<Id>)
    requires OnlyBelow(v, roots, n, rendered) && n < |roots| && JoinedBelow(v, roots[n].id, rendered, rendered')
    ensures OnlyBelow(v, roots, n + 1, rendered')
  {
    forall x | x in rendered' ensures exists k :: 0 <= k < n + 1 && Reaches(v.ts, roots[k].id, x) {
      if x in rendered {
        var k :| 0 <= k < n && Reaches(v.ts, roots[k].id, x);
        assert 0 <= k < n + 1;
      }
    }
  }

  /** The header, once, and then a task that no root leads to. */
  method EmitOrphan(b: Builder, t: Task, first: bool, ghost cut: nat)
    requires b.Valid() && b.path == {} && KeysMatch(b.v.ts) && t.id in b.v.ts && b.v.ts[t.id] == t
      && t.id !in b.rendered && Orphan(b.v, t.id)
    requires Building(b.v, b.out, b.rendered, cut) && (if first then cut == |b.out| else cut < |b.out|)
    modifies b
    ensures b.Valid() && b.path == {} && old(b.rendered) + {t.id} <= b.rendered
    ensures Building(b.v, b.out, b.rendered, cut) && cut + 1 < |b.out|
  {
    hide Nested, Segment, Shows, NoTaskTwice, TrueRows, Open, Orphan, FromRoot;
    if first {
      NestedByHeader(b.v, b.out);
      b.Append(HEADER);
    }
    ghost var out, rendered := b.out, b.rendered;
    b.Emit(t, 1, true);
    OrphanJoins(b.v, t.id, out, rendered, cut, b.out, b.rendered);
    BuildingEmit(b.v, t.id, 1, out, rendered, cut, b.out, b.rendered);
    EmittedSomething(b.v, out, rendered, b.out, b.rendered, t.id);
  }

  method BuildRows(roots: seq<Task>, tasks: seq<Task>, ix: Index, v: View) returns (rows: seq<Row>)
    requires DistinctTaskIds(tasks) && ix.Valid(tasks) && v.ts == MapOf(tasks)
    requires AreRoots(v, roots)
    ensures exists cut :: Built(v, roots, rows, cut)
    ensures Treelike(v.ts) && DistinctTaskIds(roots) ==> rows == Trees(v, roots, |roots|)
  {
    hide Building, Built, Reaches, Acyclic, SingleContainer, Trees, Shows, NoTaskTwice, TrueRows, SweptUpTo, FromRoot;
    MapOfHolds(tasks);
    var reachable := MarkFromRoots(tasks, ix);
    var b := EmitRoots(v, roots);
    ghost var rooted := b.out;
    ghost var cut := |b.out|;
    var first := true;
    NothingSwept(v, tasks, b.rendered);
    for i := 0 to |tasks|
      invariant b.v == v && b.Valid() && b.path == {} && fresh(b)
      invariant Building(v, b.out, b.rendered, cut)
      invariant forall x :: x in reachable.ids <==> x in v.ts && FromRoot(v.ts, x)
      invariant first ==> b.out == rooted && cut == |b.out|
      invariant !first ==> cut + 1 < |b.out| && !Treelike(v.ts)
      invariant forall t :: t in roots ==> t.id in b.rendered
      invariant SweptUpTo(v, tasks, i, b.rendered)
    {
      var t := tasks[i];
      assert t in tasks;
      ghost var mid := b.rendered;
      if !(t.id in reachable.ids || t.id in b.rendered) {
        var skip := false;
        if v.filtering {
          var s := if t.id in v.scores then v.scores[t.id] else NO_SCORE;
          skip := !s.matches;
        }
        if !skip {
          AlwaysFromRoot(v.ts, t.id);
          EmitOrphan(b, t, first, cut);
          first := false;
        }
      }
      SweptOneMore(v, tasks, i, mid, b.rendered);
    }
    rows := b.out;
    BuildingIsBuilt(v, roots, tasks, rows, b.rendered, cut);
  }

  ghost predicate SweptUpTo(v: View, tasks: seq<Task>, n: nat, rendered: set<Id>) {
    n <= |tasks| && forall k :: 0 <= k < n && !FromRoot(v.ts, tasks[k].id) && !Skipped(v, tasks[k].id) ==>
      tasks[k].id in rendered
  }

  lemma NothingSwept(v: View, tasks: seq<Task>, rendered: set<Id>)
    ensures SweptUpTo(v, tasks, 0, rendered)
  {
  }

  lemma SweptOneMore(v: View, tasks: seq<Task>, n: nat, before: set<Id>, after: set<Id>)
    requires SweptUpTo(v, tasks, n, before) && before <= after && n < |tasks|
    requires FromRoot(v.ts, tasks[n].id) || Skipped(v, tasks[n].id) || tasks[n].id in after
    ensures SweptUpTo(v, tasks, n + 1, after)
  {
  }

  lemma AlwaysFromRoot(ts: TaskMap, x: Id)
    requires x in ts
    ensures Treelike(ts) ==> FromRoot(ts, x)
  {
    if Treelike(ts) {
      var r := RootAbove(ts, x);
    }
  }

  lemma EmittedSomething(v: View, out: seq<Row>, rendered: set<Id>, out': seq<Row>, rendered': set<Id>, a: Id)
    requires out <= out' && a !in rendered && a in rendered'
    requires (forall x :: x in rendered <==> Shows(out, x)) && (forall x :: x in rendered' <==> Shows(out', x))
    ensures |out| < |out'|
  {
    assert forall k :: 0 <= k < |out| ==> out[k] == out'[k];
    var i :| 0 <= i < |out'| && out'[i].kind.TaskRow? && out'[i].id == a;
  }

  lemma {:induction false} BuildingIsBuilt(v: View, roots: seq<Task>, tasks: seq<Task>, rows: seq<Row>,
        rendered: set<Id>, cut: nat)
    requires DistinctTaskIds(tasks) && v.ts == MapOf(tasks)
    requires Building(v, rows, rendered, cut) && (cut < |rows| ==> cut + 1 < |rows|)
    requires NoTaskTwice(rows) && TrueRows(v, rows) && forall x :: x in rendered <==> Shows(rows, x)
    requires forall t :: t in roots ==> t.id in rendered
    requires SweptUpTo(v, tasks, |tasks|, rendered)
    ensures Built(v, roots, rows, cut)
  {
    MapOfHolds(tasks);
    forall x | x in v.ts && !FromRoot(v.ts, x) && !Skipped(v, x) ensures Shows(rows, x) {
      var k :| 0 <= k < |tasks| && tasks[k] == v.ts[x];
    }
  }

  // ----- nothing is silently hidden ------------------------------------------------------

  /** The task has a row, or lies below one that is shown collapsed. */
  ghost predicate Accounted(v: View, rows: seq<Row>, x: Id) {
    Shows(rows, x)
    || exists r :: r in rows && r.kind.TaskRow? && !r.expanded && Reaches(v.ts, r.id, x)
  }

  lemma {:induction false} WalkDown(v: View, rows: seq<Row>, p: seq<Id>)
    requires TrueRows(v, rows) && IsPath(v.ts, p) && Shows(rows, p[0])
    requires forall a, b {:trigger Edge(v.ts, a, b)} :: Shows(rows, a) && Edge(v.ts, a, b) && Open(v, a) ==>
      Shows(rows, b)
    ensures Accounted(v, rows, p[|p| - 1])
    decreases |p|
  {
    if |p| > 1 {
      assert Edge(v.ts, p[0], p[1]);
      if Open(v, p[0]) {
        PathSlice(v.ts, p, 1, |p|);
        WalkDown(v, rows, p[1..|p|]);
      } else {
        var i :| 0 <= i < |rows| && rows[i].kind.TaskRow? && rows[i].id == p[0];
        assert rows[i] in rows && PathFromTo(v.ts, p, p[0], p[|p| - 1]);
      }
    }
  }

  lemma ReachedIsAccounted(v: View, roots: seq<Task>, rows: seq<Row>, cut: nat, a: Id, x: Id)
    requires Built(v, roots, rows, cut) && Shows(rows, a) && Reaches(v.ts, a, x)
    ensures Accounted(v, rows, x)
  {
    var p :| PathFromTo(v.ts, p, a, x);
    WalkDown(v, rows, p);
  }

  /** Select, score and build, on any graph whatever: every task that itself
      passes the filter is a row or lies below a row shown collapsed. */
  lemma NothingHidden(tasks: seq<Task>, v: View, q: Query, roots: seq<Task>, rows: seq<Row>, cut: nat, x: Id)
    requires DistinctTaskIds(tasks) && v.ts == MapOf(tasks)
    requires forall t :: t in roots <==> t in Selected(tasks, v.ts, HitOf(q))
    requires v.scores.Keys == v.ts.Keys && AllHonest(v.ts, v.scores, q)
    requires Built(v, roots, rows, cut)
    requires x in v.ts && Hit(q, v.ts[x])
    ensures Accounted(v, rows, x)
  {
    hide Reaches, Selected, Honest, NoTaskTwice, TrueRows;
    if FromRoot(v.ts, x) {
      var r := RootIsSelected(tasks, v.ts, q, x);
      assert v.ts[r] in roots;
      ReachedIsAccounted(v, roots, rows, cut, r, x);
    } else {
      MatchIsNotSkipped(v, q, x);
      assert Shows(rows, x);
    }
  }

  lemma MatchIsNotSkipped(v: View, q: Query, x: Id)
    requires x in v.ts && x in v.scores && AllHonest(v.ts, v.scores, q) && Hit(q, v.ts[x])
    ensures !Skipped(v, x)
  {
    assert Honest(v.ts, x, v.scores[x], q);
  }

  /** What stands below the header: a task that no root leads to, always without a
      filter, and with one only if something it leads to passes; if it passes itself
      it is there. */
  lemma OrphanIs(v: View, q: Query, o: Id)
    requires o in v.ts && v.scores.Keys == v.ts.Keys && AllHonest(v.ts, v.scores, q)
    ensures Orphan(v, o) ==> !FromRoot(v.ts, o) && (v.filtering ==> SomeBelow(v.ts, o, HitOf(q)))
    ensures !FromRoot(v.ts, o) && (v.filtering ==> Hit(q, v.ts[o])) ==> Orphan(v, o)
  {
    hide Below, FromRoot, Hit;
    assert Honest(v.ts, o, v.scores[o], q);
  }

  lemma RootIsSelected(tasks: seq<Task>, ts: TaskMap, q: Query, x: Id) returns (r: Id)
    requires DistinctTaskIds(tasks) && ts == MapOf(tasks) && x in ts && Hit(q, ts[x]) && FromRoot(ts, x)
    ensures Reaches(ts, r, x) && r in ts && ts[r].id == r && ts[r] in Selected(tasks, ts, HitOf(q))
  {
    r :| Graph.IsRoot(ts, r) && Reaches(ts, r, x);
    MapOfHolds(tasks);
    assert x in Below(ts, r) && HitOf(q)(ts[x]);
    SelectedHolds(tasks, ts, HitOf(q), ts[r]);
  }

  /** The header is there just when some unskipped task has no root above it. */
  lemma HeaderIff(v: View, roots: seq<Task>, rows: seq<Row>, cut: nat)
    requires Built(v, roots, rows, cut)
    ensures (exists i :: 0 <= i < |rows| && rows[i].kind.UnreachableHeader?) <==> exists o :: Orphan(v, o)
  {
    hide FromRoot, Skipped, Reaches;
    if cut < |rows| {
      FirstBelowHeader(v, rows, cut);
      assert BelowOrphan(v, rows[cut + 1].id);
      var o :| Orphan(v, o) && Reaches(v.ts, o, rows[cut + 1].id);
      assert rows[cut].kind.UnreachableHeader?;
    }
    if o :| Orphan(v, o) {
      assert Shows(rows, o);
      var i :| 0 <= i < |rows| && rows[i].kind.TaskRow? && rows[i].id == o;
    }
  }

  lemma FirstBelowHeader(v: View, rows: seq<Row>, cut: nat)
    requires Nested(v, rows, cut) && cut + 1 < |rows| && rows[cut] == HEADER
    ensures rows[cut + 1].kind.TaskRow?
  {
    hide DanglingDone, KidRow, Open;
    if !IsTop(v, rows, cut, cut + 1) {
      var j :| 0 <= j && Hangs(v, rows, j, cut + 1);
      assert false;
    }
  }

  /** What no root leads to stands below the one header; and while no task is
      listed twice, nothing else does. */
  lemma OrphansBelowHeader(v: View, roots: seq<Task>, rows: seq<Row>, cut: nat, i: nat)
    requires Built(v, roots, rows, cut) && i < |rows| && rows[i].kind.TaskRow?
    ensures !FromRoot(v.ts, rows[i].id) ==> cut < i && rows[cut] == HEADER
    ensures SingleContainer(v.ts) ==> (cut < i <==> !FromRoot(v.ts, rows[i].id))
    ensures forall j :: 0 <= j < |rows| && rows[j].kind.UnreachableHeader? ==> j == cut
  {
    hide Nested, FromRoot, Reaches, SingleContainer;
    if cut < i && SingleContainer(v.ts) {
      assert BelowOrphan(v, rows[i].id);
      var o :| Orphan(v, o) && Reaches(v.ts, o, rows[i].id);
      if FromRoot(v.ts, rows[i].id) {
        RootCoversAbove(v.ts, o, rows[i].id);
      }
    }
  }

  /** One list at most: a root that leads to `x` leads to all that leads to `x`. */
  lemma RootCoversAbove(ts: TaskMap, o: Id, x: Id)
    requires SingleContainer(ts) && Reaches(ts, o, x) && FromRoot(ts, x)
    ensures FromRoot(ts, o)
  {
    var r :| Graph.IsRoot(ts, r) && Reaches(ts, r, x);
    var p :| PathFromTo(ts, p, o, x);
    var q :| PathFromTo(ts, q, r, x);
    PathsShareTheirEnd(ts, p, q);
  }

  lemma {:induction false} PathsShareTheirEnd(ts: TaskMap, p: seq<Id>, q: seq<Id>)
    requires SingleContainer(ts) && IsPath(ts, p) && IsPath(ts, q) && p[|p| - 1] == q[|q| - 1] && Graph.IsRoot(ts, q[0])
    ensures FromRoot(ts, p[0])
    decreases |p|
  {
    if |p| == 1 {
      assert PathFromTo(ts, q, q[0], p[0]);
    } else {
      var x := p[|p| - 1];
      assert Edge(ts, p[|p| - 2], x);
      if |q| > 1 {
        assert Edge(ts, q[|q| - 2], x);
        OneParent(ts, p[|p| - 2], q[|q| - 2], x);
        PathSlice(ts, p, 0, |p| - 1);
        PathSlice(ts, q, 0, |q| - 1);
        PathsShareTheirEnd(ts, p[0..|p| - 1], q[0..|q| - 1]);
      }
    }
  }
}
