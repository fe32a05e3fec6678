/** An indented list of trees: what stands below a line, and how such lists are put
    together. */
module Outline {
  import opened Tasks

  datatype Line = Line(id: Id, depth: nat, open: bool)

  /** The ids of the lines of one depth, in order. */
  function AtDepth(lines: seq<Line>, depth: int): seq<Id> {
    if lines == [] then [] else (if lines[0].depth == depth then [lines[0].id] else []) + AtDepth(lines[1..], depth)
  }

  /** The lines deeper than line `i` end at `n`. If it is open, one level down there
      is one line per listed child, in order; if not, there is nothing. */
  ghost predicate Unfolds(ts: TaskMap, lines: seq<Line>, i: int, n: int) {
    && 0 <= i < n <= |lines|
    && (forall m :: i < m < n ==> lines[m].depth > lines[i].depth)
    && (n < |lines| ==> lines[n].depth <= lines[i].depth)
    && (i + 1 < n ==> lines[i + 1].depth == lines[i].depth + 1)
    && if lines[i].open then AtDepth(lines[i + 1..n], lines[i].depth + 1) == Kids(ts, lines[i].id) else n == i + 1
  }

  ghost predicate Unfolded(ts: TaskMap, lines: seq<Line>, i: int) {
    exists n :: Unfolds(ts, lines, i, n)
  }

  /** Every line unfolds, and the shallowest are those at `depth`, the first among
      them. */
  ghost predicate Shaped(ts: TaskMap, lines: seq<Line>, depth: nat) {
    && (lines != [] ==> lines[0].depth == depth)
    && (forall i :: 0 <= i < |lines| ==> lines[i].depth >= depth)
    && (forall i :: 0 <= i < |lines| ==> Unfolded(ts, lines, i))
  }

  lemma {:induction false} AtDepthJoin(a: seq<Line>, b: seq<Line>, depth: int)
    ensures AtDepth(a + b, depth) == AtDepth(a, depth) + AtDepth(b, depth)
  {
    hide AtDepth;
    if a == [] {
      NothingAtDepth(depth);
      assert a + b == b && [] + AtDepth(b, depth) == AtDepth(b, depth);
    } else {
      var first, rest := a[0], a[1..];
      AtDepthJoin(rest, b, depth);
      FirstAtDepth(first, rest + b, depth);
      FirstAtDepth(first, rest, depth);
      assert a == [first] + rest && a + b == [first] + (rest + b);
    }
  }

  lemma NothingAtDepth(depth: int)
    ensures AtDepth([], depth) == []
  {
  }

  lemma FirstAtDepth(r: Line, rest: seq<Line>, depth: int)
    ensures AtDepth([r] + rest, depth) == (if r.depth == depth then [r.id] else []) + AtDepth(rest, depth)
  {
    assert ([r] + rest)[1..] == rest;
  }

  lemma {:induction false} NoneAtDepth(lines: seq<Line>, depth: int)
    requires forall i :: 0 <= i < |lines| ==> lines[i].depth > depth
    ensures AtDepth(lines, depth) == []
  {
    if lines != [] { NoneAtDepth(lines[1..], depth); }
  }

  lemma UnfoldsBefore(ts: TaskMap, a: seq<Line>, b: seq<Line>, i: int, n: int)
    requires Unfolds(ts, a, i, n) && (b != [] ==> b[0].depth <= a[i].depth)
    ensures Unfolds(ts, a + b, i, n)
  {
    hide AtDepth, Kids;
    assert (a + b)[i + 1..n] == a[i + 1..n];
  }

  lemma UnfoldsAfter(ts: TaskMap, a: seq<Line>, b: seq<Line>, i: int, n: int)
    requires Unfolds(ts, b, i, n)
    ensures Unfolds(ts, a + b, |a| + i, |a| + n)
  {
    hide AtDepth, Kids;
    var lines, m := a + b, |a|;
    assert lines[m + i + 1..m + n] == b[i + 1..n];
    forall k | m + i < k < m + n ensures lines[k].depth > lines[m + i].depth {
      assert lines[k] == b[k - m];
    }
  }

  lemma ShapedJoin(ts: TaskMap, a: seq<Line>, b: seq<Line>, depth: nat)
    requires Shaped(ts, a, depth) && Shaped(ts, b, depth)
    ensures Shaped(ts, a + b, depth)
  {
    hide Unfolds;
    var lines := a + b;
    forall i | 0 <= i < |lines| ensures Unfolded(ts, lines, i) {
      if i < |a| {
        assert Unfolded(ts, a, i);
        var n :| Unfolds(ts, a, i, n);
        UnfoldsBefore(ts, a, b, i, n);
      } else {
        assert Unfolded(ts, b, i - |a|);
        var n :| Unfolds(ts, b, i - |a|, n);
        UnfoldsAfter(ts, a, b, i - |a|, n);
      }
    }
  }

  lemma TopShaped(ts: TaskMap, top: Line, rest: seq<Line>)
    requires Shaped(ts, rest, top.depth + 1)
    requires if top.open then AtDepth(rest, top.depth + 1) == Kids(ts, top.id) else rest == []
    ensures Shaped(ts, [top] + rest, top.depth) && AtDepth([top] + rest, top.depth) == [top.id]
  {
    hide Kids, Unfolds, AtDepth;
    var lines := [top] + rest;
    NoneAtDepth(rest, top.depth);
    AtDepthJoin([top], rest, top.depth);
    OneAtDepth(top);
    forall i | 0 <= i < |lines| ensures Unfolded(ts, lines, i) {
      if i == 0 {
        TopUnfolds(ts, top, rest);
      } else {
        assert Unfolded(ts, rest, i - 1);
        var n :| Unfolds(ts, rest, i - 1, n);
        UnfoldsAfter(ts, [top], rest, i - 1, n);
      }
    }
  }

  lemma TopUnfolds(ts: TaskMap, top: Line, rest: seq<Line>)
    requires Shaped(ts, rest, top.depth + 1)
    requires if top.open then AtDepth(rest, top.depth + 1) == Kids(ts, top.id) else rest == []
    ensures Unfolded(ts, [top] + rest, 0)
  {
    hide Kids, AtDepth, Unfolded;
    var lines := [top] + rest;
    assert lines[1..|lines|] == rest;
    UnfoldsAll(ts, lines);
  }

  lemma UnfoldsAll(ts: TaskMap, lines: seq<Line>)
    requires Unfolds(ts, lines, 0, |lines|)
    ensures Unfolded(ts, lines, 0)
  {
    hide Unfolds;
  }

  lemma NothingShaped(ts: TaskMap, depth: nat)
    ensures Shaped(ts, [], depth) && AtDepth([], depth) == []
  {
  }

  lemma OneAtDepth(r: Line)
    ensures AtDepth([r], r.depth) == [r.id]
  {
    assert [r][1..] == [];
  }

  /** A line with nothing below it. */
  lemma LeafShaped(ts: TaskMap, r: Line)
    requires !r.open
    ensures Shaped(ts, [r], r.depth) && AtDepth([r], r.depth) == [r.id]
  {
    NothingShaped(ts, r.depth + 1);
    TopShaped(ts, r, []);
    assert [r] + [] == [r];
  }
}
