/** Pagination: at most 5 groups and 25 rows a page, no group split unless it
    alone is larger than a page. Groups are known here by their rows only. */
module Pages {

  const MAX_ROOTS: nat := 5
  const MAX_ROWS: nat := 25

  datatype Page<T> = Page(rows: seq<T>, index: nat, count: nat, overflow: nat)

  function Flatten<T>(groups: seq<seq<T>>): seq<T> {
    if groups == [] then [] else Flatten(groups[..|groups| - 1]) + groups[|groups| - 1]
  }

  /** The row total of groups `lo..hi`. */
  function Rows<T>(groups: seq<seq<T>>, lo: int, hi: int): nat
    requires 0 <= lo <= hi <= |groups|
    decreases hi - lo
  {
    if lo == hi then 0 else Rows(groups, lo, hi - 1) + |groups[hi - 1]|
  }

  /** A legal page: within both limits, or one oversized group by itself. */
  predicate Fits<T>(groups: seq<seq<T>>, lo: int, hi: int)
    requires 0 <= lo <= hi <= |groups|
  {
    (hi - lo <= 5 && Rows(groups, lo, hi) <= 25) || hi - lo == 1
  }

  /** Page starts: from 0, strictly rising, before the end, every page legal. */
  ghost predicate Split<T>(groups: seq<seq<T>>, breaks: seq<nat>) {
    && |breaks| > 0 && breaks[0] == 0
    && (forall i, j :: 0 <= i < j < |breaks| ==> breaks[i] < breaks[j])
    && (forall i :: 0 <= i < |breaks| ==> breaks[i] < |groups|)
    && (forall i :: 0 <= i < |breaks| ==> Fits(groups, breaks[i], End(groups, breaks, i)))
  }

  /** Where page `i` ends. */
  function End<T>(groups: seq<seq<T>>, breaks: seq<nat>, i: int): (e: int)
    requires 0 <= i < |breaks| && forall j :: 0 <= j < |breaks| ==> breaks[j] < |groups|
    requires forall i, j :: 0 <= i < j < |breaks| ==> breaks[i] < breaks[j]
    ensures breaks[i] < e <= |groups|
  {
    if i + 1 < |breaks| then breaks[i + 1] else |groups|
  }

  /** Page `i` could not have taken the group after it. */
  ghost predicate Greedy<T>(groups: seq<seq<T>>, breaks: seq<nat>) {
    forall i, j :: 0 <= i && j == i + 1 && j < |breaks| ==>
      breaks[i] < breaks[j] < |groups| && !Fits(groups, breaks[i], breaks[j] + 1)
  }

  lemma {:induction false} RowsGrow<T>(groups: seq<seq<T>>, lo: int, mid: int, hi: int)
    requires 0 <= lo <= mid <= hi <= |groups|
    ensures Rows(groups, lo, hi) == Rows(groups, lo, mid) + Rows(groups, mid, hi)
    decreases hi - mid
  {
    if mid < hi { RowsGrow(groups, lo, mid, hi - 1); }
  }

  /** The page-break loop of the bot, with its two counters. */
  method PageBreaks<T>(groups: seq<seq<T>>) returns (breaks: seq<nat>)
    ensures groups == [] ==> breaks == []
    ensures groups != [] ==> Split(groups, breaks) && Greedy(groups, breaks)
  {
    hide PartialSplit, Counters, Split, Greedy, Rows;
    if |groups| == 0 { return []; }
    breaks := [0];
    var roots, rows := 0, 0;
    FirstPage(groups);
    for i := 0 to |groups|
      invariant |breaks| > 0
      invariant PartialSplit(groups, breaks, i)
      invariant Counters(groups, breaks[|breaks| - 1], i, roots, rows)
    {
      var oversized := |groups[i]| > MAX_ROWS;
      var fits := roots + 1 <= MAX_ROOTS && rows + |groups[i]| <= MAX_ROWS;
      if i > 0 && (!fits || oversized) {
        TurnPage(groups, breaks, i, roots, rows);
        breaks := breaks + [i];
        roots, rows := 0, 0;
      } else {
        JoinPage(groups, breaks, i, roots, rows);
      }
      roots := roots + 1;
      rows := rows + |groups[i]|;
      if oversized {
        roots, rows := MAX_ROOTS, MAX_ROWS;
      }
    }
    WholeSplit(groups, breaks);
  }

  lemma FirstPage<T>(groups: seq<seq<T>>)
    ensures PartialSplit(groups, [0], 0) <==> groups != []
    ensures Counters(groups, 0, 0, 0, 0)
  {
    assert Rows(groups, 0, 0) == 0;
  }

  lemma WholeSplit<T>(groups: seq<seq<T>>, breaks: seq<nat>)
    requires groups != [] && PartialSplit(groups, breaks, |groups|)
    ensures Split(groups, breaks) && Greedy(groups, breaks)
  {
  }

  lemma TurnPage<T>(groups: seq<seq<T>>, breaks: seq<nat>, i: nat, roots: int, rows: int)
    requires 0 < i < |groups| && PartialSplit(groups, breaks, i)
    requires Counters(groups, breaks[|breaks| - 1], i, roots, rows)
    requires roots + 1 > MAX_ROOTS || rows + |groups[i]| > MAX_ROWS || |groups[i]| > MAX_ROWS
    ensures PartialSplit(groups, breaks + [i], i + 1)
    ensures Counters(groups, i, i + 1, if |groups[i]| > MAX_ROWS then MAX_ROOTS else 1,
                     if |groups[i]| > MAX_ROWS then MAX_ROWS else |groups[i]|)
  {
    var start := breaks[|breaks| - 1];
    PageIsFull(groups, start, i, roots, rows);
    assert Rows(groups, i, i + 1) == Rows(groups, i, i) + |groups[i]|;
    BreakAdded(groups, breaks, i);
  }

  lemma PageIsFull<T>(groups: seq<seq<T>>, start: nat, i: nat, roots: int, rows: int)
    requires 0 < i < |groups| && Counters(groups, start, i, roots, rows)
    requires roots + 1 > MAX_ROOTS || rows + |groups[i]| > MAX_ROWS || |groups[i]| > MAX_ROWS
    ensures start < i && !Fits(groups, start, i + 1)
  {
    assert Rows(groups, start, i + 1) == Rows(groups, start, i) + |groups[i]|;
    assert Rows(groups, start, start) == 0;
  }

  lemma BreakAdded<T>(groups: seq<seq<T>>, breaks: seq<nat>, i: nat)
    requires 0 < i < |groups| && PartialSplit(groups, breaks, i)
    requires breaks[|breaks| - 1] < i && !Fits(groups, breaks[|breaks| - 1], i + 1)
    ensures PartialSplit(groups, breaks + [i], i + 1)
  {
  }

  lemma JoinPage<T>(groups: seq<seq<T>>, breaks: seq<nat>, i: nat, roots: int, rows: int)
    requires i < |groups| && PartialSplit(groups, breaks, i)
    requires Counters(groups, breaks[|breaks| - 1], i, roots, rows)
    requires i == 0 || (roots + 1 <= MAX_ROOTS && rows + |groups[i]| <= MAX_ROWS && |groups[i]| <= MAX_ROWS)
    ensures PartialSplit(groups, breaks, i + 1)
    ensures Counters(groups, breaks[|breaks| - 1], i + 1, if |groups[i]| > MAX_ROWS then MAX_ROOTS else roots + 1,
                     if |groups[i]| > MAX_ROWS then MAX_ROWS else rows + |groups[i]|)
  {
    var start := breaks[|breaks| - 1];
    assert Rows(groups, start, i + 1) == Rows(groups, start, i) + |groups[i]|;
    assert Rows(groups, start, start) == 0;
  }

  /** The breaks found in the first `n` groups; the last page is still open. */
  ghost predicate PartialSplit<T>(groups: seq<seq<T>>, breaks: seq<nat>, n: nat) {
    && |breaks| > 0 && breaks[0] == 0 && n <= |groups|
    && (forall i, j :: 0 <= i < j < |breaks| ==> breaks[i] < breaks[j])
    && (forall i :: 0 <= i < |breaks| ==> breaks[i] < |groups| && (breaks[i] < n || i == 0))
    && (forall i, j :: 0 <= i && j == i + 1 && j < |breaks| ==> Fits(groups, breaks[i], breaks[j]))
    && (n > 0 ==> Fits(groups, breaks[|breaks| - 1], n))
    && Greedy(groups, breaks)
  }

  /** The counters describe the open page, or say that nothing more may join it. */
  ghost predicate Counters<T>(groups: seq<seq<T>>, start: nat, n: nat, roots: int, rows: int) {
    && start <= n <= |groups| && (start == n ==> n == 0)
    && if n == start + 1 && |groups[start]| > MAX_ROWS then roots == MAX_ROOTS && rows == MAX_ROWS
       else roots == n - start && rows == Rows(groups, start, n) && roots <= MAX_ROOTS && rows <= MAX_ROWS
  }

  /** What a requested page is: the index clamped into range, and what that page of
      the greedy split shows. */
  ghost predicate IsPage<T>(groups: seq<seq<T>>, page: int, p: Page<T>) {
    if groups == [] then p == Page([], 0, 0, 0)
    else exists breaks {:trigger Greedy(groups, breaks)} ::
      && Split(groups, breaks) && Greedy(groups, breaks)
      && p.count == |breaks|
      && p.index == (if page < 0 then 0 else if page >= |breaks| then |breaks| - 1 else page)
      && ShowsPage(groups, breaks[p.index], End(groups, breaks, p.index), p.rows, p.overflow)
  }

  method Paginate<T>(groups: seq<seq<T>>, page: int) returns (p: Page<T>)
    ensures IsPage(groups, page, p)
  {
    var found := PageBreaks(groups);
    if |found| == 0 { return Page([], 0, 0, 0); }
    var at := page;
    if at < 0 { at := 0; }
    if at >= |found| { at := |found| - 1; }
    var start := found[at];
    var end := |groups|;
    if at + 1 < |found| { end := found[at + 1]; }
    var rows, overflow := FillPage(groups, start, end);
    p := Page(rows, at, |found|, overflow);
    assert Greedy(groups, found) && end == End(groups, found, at);
  }

  /** A page shows its groups whole, or the first 25 rows of an oversized one
      with the rest counted. */
  predicate ShowsPage<T(==)>(groups: seq<seq<T>>, lo: int, hi: int, rows: seq<T>, overflow: nat)
    requires 0 <= lo <= hi <= |groups|
  {
    && |rows| <= 25
    && |rows| + overflow == Rows(groups, lo, hi)
    && (Rows(groups, lo, hi) <= 25 ==> rows == Flatten(groups[lo..hi]) && overflow == 0)
    && (Rows(groups, lo, hi) > 25 ==> hi == lo + 1 && |groups[lo]| > 25 && rows == groups[lo][..25])
  }

  method FillPage<T>(groups: seq<seq<T>>, start: nat, end: nat) returns (rows: seq<T>, overflow: nat)
    requires start < end <= |groups| && Fits(groups, start, end)
    ensures ShowsPage(groups, start, end, rows, overflow)
  {
    rows, overflow := [], 0;
    assert groups[start..start] == [];
    for i := start to end
      invariant ShowsPage(groups, start, i, rows, overflow)
    {
      var g := groups[i];
      RowsGrow(groups, start, i + 1, end);
      assert groups[start..i + 1] == groups[start..i] + [g];
      if |rows| + |g| > MAX_ROWS {
        var room := MAX_ROWS - |rows|;
        rows := rows + g[..room];
        overflow := overflow + (|g| - room);
      } else {
        rows := rows + g;
      }
    }
  }

  // ----- nothing lost, nothing wasted --------------------------------------------

  lemma {:induction false} FlattenJoins<T>(a: seq<seq<T>>, b: seq<seq<T>>)
    ensures Flatten(a + b) == Flatten(a) + Flatten(b)
  {
    if b == [] {
      assert a + b == a;
    } else {
      var n := |b| - 1;
      assert (a + b)[..|a + b| - 1] == a + b[..n];
      FlattenJoins(a, b[..n]);
      assert Flatten(a + b) == Flatten(a + b[..n]) + b[n];
    }
  }

  /** The groups of the first `n` pages, in order. */
  ghost function Pages<T>(groups: seq<seq<T>>, breaks: seq<nat>, n: nat): seq<seq<T>>
    requires Split(groups, breaks) && n <= |breaks|
  {
    if n == 0 then []
    else Pages(groups, breaks, n - 1) + groups[breaks[n - 1]..End(groups, breaks, n - 1)]
  }

  /** Put end to end, the pages are all the groups in order: none lost, none
      twice, none moved. */
  lemma {:induction false} PagesPartition<T>(groups: seq<seq<T>>, breaks: seq<nat>, n: nat)
    requires Split(groups, breaks) && 0 < n <= |breaks|
    ensures Pages(groups, breaks, n) == groups[..End(groups, breaks, n - 1)]
    ensures n == |breaks| ==> Flatten(Pages(groups, breaks, n)) == Flatten(groups)
  {
    hide Flatten, Fits, Rows;
    if n == 1 {
      assert Pages(groups, breaks, 0) == [];
    } else {
      PagesPartition(groups, breaks, n - 1);
    }
    if n == |breaks| {
      assert groups[..|groups|] == groups;
    }
  }

  /** A legal page stays legal without its first groups. */
  lemma FitsSuffix<T>(groups: seq<seq<T>>, lo: int, mid: int, hi: int)
    requires 0 <= lo <= mid <= hi <= |groups| && Fits(groups, lo, hi)
    ensures Fits(groups, mid, hi)
  {
    RowsGrow(groups, lo, mid, hi);
  }

  lemma FitsPrefix<T>(groups: seq<seq<T>>, lo: int, mid: int, hi: int)
    requires 0 <= lo <= mid <= hi <= |groups| && Fits(groups, lo, hi)
    ensures Fits(groups, lo, mid)
  {
    RowsGrow(groups, lo, mid, hi);
  }

  lemma NoLongerPage<T>(groups: seq<seq<T>>, lo: int, hi: int, lo': int, hi': int)
    requires 0 <= lo' <= lo < hi < |groups| && lo' <= hi' <= |groups|
    requires !Fits(groups, lo, hi + 1) && Fits(groups, lo', hi')
    ensures hi' <= hi
  {
    if hi' > hi {
      FitsPrefix(groups, lo', hi + 1, hi');
      FitsSuffix(groups, lo', lo, hi + 1);
    }
  }

  /** Greedy stays ahead: its page `k` starts no earlier than anyone's. */
  lemma {:induction false} GreedyStaysAhead<T>(groups: seq<seq<T>>, greedy: seq<nat>, other: seq<nat>, k: nat)
    requires Split(groups, greedy) && Greedy(groups, greedy) && Split(groups, other)
    requires k < |greedy| && k < |other|
    ensures other[k] <= greedy[k]
  {
    if k > 0 {
      GreedyStaysAhead(groups, greedy, other, k - 1);
      assert other[k] == End(groups, other, k - 1);
      // A longer page k-1 would hold greedy's page k-1 and one group more.
      NoLongerPage(groups, greedy[k - 1], greedy[k], other[k - 1], other[k]);
    }
  }

  /** No legal split has fewer pages than the one the loop finds. */
  lemma GreedyIsOptimal<T>(groups: seq<seq<T>>, greedy: seq<nat>, other: seq<nat>)
    requires Split(groups, greedy) && Greedy(groups, greedy) && Split(groups, other)
    ensures |greedy| <= |other|
  {
    if |other| < |greedy| {
      var k := |other| - 1;
      GreedyStaysAhead(groups, greedy, other, k);
      assert |groups| == End(groups, other, k);
      NoLongerPage(groups, greedy[k], greedy[k + 1], other[k], |groups|);
    }
  }

  /** There is only one greedy split, so every request sees the same pages. */
  lemma GreedyIsUnique<T>(groups: seq<seq<T>>, a: seq<nat>, b: seq<nat>)
    requires Split(groups, a) && Greedy(groups, a) && Split(groups, b) && Greedy(groups, b)
    ensures a == b
  {
    GreedyIsOptimal(groups, a, b);
    GreedyIsOptimal(groups, b, a);
    forall k | 0 <= k < |a| ensures a[k] == b[k] {
      GreedyStaysAhead(groups, a, b, k);
      GreedyStaysAhead(groups, b, a, k);
    }
  }

  function Cut<T>(g: seq<T>): seq<T> { if |g| > MAX_ROWS then g[..MAX_ROWS] else g }

  /** Every group, an oversized one down to what fits. */
  function CutAll<T>(groups: seq<seq<T>>): (r: seq<seq<T>>)
    ensures |r| == |groups| && forall i :: 0 <= i < |r| ==> r[i] == Cut(groups[i])
  {
    if groups == [] then [] else CutAll(groups[..|groups| - 1]) + [Cut(groups[|groups| - 1])]
  }

  function AllRows<T>(pages: seq<Page<T>>): seq<T> {
    if pages == [] then [] else AllRows(pages[..|pages| - 1]) + pages[|pages| - 1].rows
  }

  function AllOverflow<T>(pages: seq<Page<T>>): nat {
    if pages == [] then 0 else AllOverflow(pages[..|pages| - 1]) + pages[|pages| - 1].overflow
  }

  lemma {:induction false} SmallGroups<T>(groups: seq<seq<T>>, lo: int, hi: int)
    requires 0 <= lo <= hi <= |groups| && Rows(groups, lo, hi) <= MAX_ROWS
    ensures CutAll(groups[lo..hi]) == groups[lo..hi]
    decreases hi - lo
  {
    hide Flatten;
    if lo < hi {
      SmallGroups(groups, lo, hi - 1);
      var gs := groups[lo..hi];
      assert gs[..|gs| - 1] == groups[lo..hi - 1] && gs[|gs| - 1] == groups[hi - 1];
      assert gs == gs[..|gs| - 1] + [gs[|gs| - 1]];
    } else {
      assert groups[lo..hi] == [];
    }
  }

  lemma PageIsCut<T>(groups: seq<seq<T>>, lo: int, hi: int, rows: seq<T>, overflow: nat)
    requires 0 <= lo < hi <= |groups| && ShowsPage(groups, lo, hi, rows, overflow)
    ensures rows == Flatten(CutAll(groups[lo..hi]))
  {
    if Rows(groups, lo, hi) <= MAX_ROWS {
      SmallGroups(groups, lo, hi);
    } else {
      assert groups[lo..hi] == [groups[lo]];
      assert CutAll([groups[lo]]) == [groups[lo][..MAX_ROWS]];
      assert Flatten([groups[lo][..MAX_ROWS]]) == [] + groups[lo][..MAX_ROWS];
    }
  }

  lemma CutAllJoins<T>(a: seq<seq<T>>, b: seq<seq<T>>)
    ensures CutAll(a + b) == CutAll(a) + CutAll(b)
  {
  }

  lemma {:induction false} OneMorePage<T>(groups: seq<seq<T>>, lo: int, hi: int, shown: seq<T>, hidden: nat,
        rows: seq<T>, overflow: nat)
    requires 0 <= lo < hi <= |groups| && ShowsPage(groups, lo, hi, rows, overflow)
    requires shown == Flatten(CutAll(groups[..lo])) && |shown| + hidden == Rows(groups, 0, lo)
    ensures shown + rows == Flatten(CutAll(groups[..hi])) && |shown + rows| + (hidden + overflow) == Rows(groups, 0, hi)
  {
    hide Flatten, CutAll, Fits, ShowsPage, Rows;
    PageIsCut(groups, lo, hi, rows, overflow);
    PageCounts(groups, lo, hi, rows, overflow);
    assert groups[..hi] == groups[..lo] + groups[lo..hi];
    CutAllJoins(groups[..lo], groups[lo..hi]);
    FlattenJoins(CutAll(groups[..lo]), CutAll(groups[lo..hi]));
    RowsGrow(groups, 0, lo, hi);
  }

  lemma {:induction false} PagesUnfold<T>(pages: seq<Page<T>>, n: nat)
    requires 0 < n <= |pages|
    ensures AllRows(pages[..n]) == AllRows(pages[..n - 1]) + pages[n - 1].rows
    ensures AllOverflow(pages[..n]) == AllOverflow(pages[..n - 1]) + pages[n - 1].overflow
  {
    assert pages[..n][..n - 1] == pages[..n - 1];
  }

  lemma {:induction false} PagesUpTo<T>(groups: seq<seq<T>>, breaks: seq<nat>, pages: seq<Page<T>>, n: nat)
    requires Split(groups, breaks) && 0 < n <= |breaks| && |pages| == |breaks|
    requires forall i :: 0 <= i < |pages| ==>
      ShowsPage(groups, breaks[i], End(groups, breaks, i), pages[i].rows, pages[i].overflow)
    ensures AllRows(pages[..n]) == Flatten(CutAll(groups[..End(groups, breaks, n - 1)]))
    ensures |AllRows(pages[..n])| + AllOverflow(pages[..n]) == Rows(groups, 0, End(groups, breaks, n - 1))
  {
    hide Flatten, CutAll, Fits, ShowsPage, Rows, AllRows, AllOverflow;
    var lo, hi := breaks[n - 1] as int, End(groups, breaks, n - 1);
    if n == 1 {
      NothingShown(groups, pages);
    } else {
      PagesUpTo(groups, breaks, pages, n - 1);
    }
    var p := pages[n - 1];
    PagesUnfold(pages, n);
    OneMorePage(groups, lo, hi, AllRows(pages[..n - 1]), AllOverflow(pages[..n - 1]), p.rows, p.overflow);
  }

  lemma NothingShown<T>(groups: seq<seq<T>>, pages: seq<Page<T>>)
    ensures AllRows(pages[..0]) == [] == Flatten(CutAll(groups[..0])) && AllOverflow(pages[..0]) == 0
      && Rows(groups, 0, 0) == 0
  {
  }

  lemma PageCounts<T>(groups: seq<seq<T>>, lo: int, hi: int, rows: seq<T>, overflow: nat)
    requires 0 <= lo <= hi <= |groups| && ShowsPage(groups, lo, hi, rows, overflow)
    ensures |rows| + overflow == Rows(groups, lo, hi)
  {
  }

  /** Asked for in turn, the pages put end to end are all the groups in order, an
      oversized one cut to 25 rows, and the overflows count exactly the rows cut. */
  lemma PagesEndToEnd<T>(groups: seq<seq<T>>, pages: seq<Page<T>>)
    requires groups != [] && pages != [] && pages[0].count == |pages|
    requires forall i :: 0 <= i < |pages| ==> IsPage(groups, i, pages[i])
    ensures AllRows(pages) == Flatten(CutAll(groups))
    ensures |AllRows(pages)| + AllOverflow(pages) == Rows(groups, 0, |groups|)
  {
    hide Flatten, CutAll, Fits, ShowsPage, AllRows, AllOverflow, Rows;
    var breaks :| Split(groups, breaks) && Greedy(groups, breaks) && pages[0].count == |breaks|;
    forall i | 0 <= i < |pages|
      ensures ShowsPage(groups, breaks[i], End(groups, breaks, i), pages[i].rows, pages[i].overflow)
    {
      SamePage(groups, breaks, i, pages[i]);
    }
    PagesUpTo(groups, breaks, pages, |pages|);
    assert pages[..|pages|] == pages && groups[..|groups|] == groups;
  }

  lemma SamePage<T>(groups: seq<seq<T>>, breaks: seq<nat>, i: nat, p: Page<T>)
    requires groups != [] && Split(groups, breaks) && Greedy(groups, breaks) && i < |breaks| && IsPage(groups, i, p)
    ensures ShowsPage(groups, breaks[i], End(groups, breaks, i), p.rows, p.overflow)
  {
    hide Fits, ShowsPage;
    var own :| Split(groups, own) && Greedy(groups, own) && p.count == |own|
      && p.index == (if i >= |own| then |own| - 1 else i)
      && ShowsPage(groups, own[p.index], End(groups, own, p.index), p.rows, p.overflow);
    GreedyIsUnique(groups, own, breaks);
  }
}
