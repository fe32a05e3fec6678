/** Where the cursor and the viewport go: the nearest row, the next row, half a
    page, and the scroll that keeps the cursor on the screen. */
module Cursor {
  import opened Tasks
  import opened Ledger

  const CHROME_ROWS: nat := 3
  const PANE_MIN_ROWS: nat := 7

  predicate Selectable(rows: seq<Row>, i: int) { 0 <= i < |rows| && rows[i].kind.TaskRow? }

  function Distance(i: int, j: int): nat { if i < j then j - i else i - j }

  /** The selectable row closest to `start`; of two at one distance, the earlier. */
  ghost predicate IsNearest(rows: seq<Row>, start: int, i: int) {
    Selectable(rows, i) && forall k :: Selectable(rows, k) ==>
      Distance(start, i) < Distance(start, k) || (Distance(start, i) == Distance(start, k) && i <= k)
  }

  function Clamped(anchor: nat, n: nat): nat { if anchor < n then anchor else if n == 0 then 0 else n - 1 }

  method NearestTaskRow(rows: seq<Row>, anchor: nat) returns (r: Option<nat>)
    ensures r.None? <==> forall k :: !Selectable(rows, k)
    ensures r.Some? ==> IsNearest(rows, Clamped(anchor, |rows|), r.value)
  {
    if |rows| == 0 {
      return None;
    }
    var start := Clamped(anchor, |rows|);
    var d := 0;
    while d < |rows|
      invariant d <= |rows|
      invariant forall k :: Selectable(rows, k) ==> Distance(start, k) >= d
    {
      if d <= start && rows[start - d].kind.TaskRow? {
        assert Selectable(rows, start - d);
        return Some(start - d);
      }
      var fwd := start + d;
      if d > 0 && fwd < |rows| && rows[fwd].kind.TaskRow? {
        assert Selectable(rows, fwd);
        return Some(fwd);
      }
      d := d + 1;
    }
    return None;
  }

  /** The row at or beyond `start` in the direction of travel; when there is none,
      the last one that way round. */
  ghost predicate IsScanned(rows: seq<Row>, start: int, forward: bool, i: int) {
    Selectable(rows, i) &&
    if forward then
      if exists k :: Selectable(rows, k) && k >= start
      then i >= start && forall k :: Selectable(rows, k) && k >= start ==> i <= k
      else forall k :: Selectable(rows, k) ==> k <= i
    else
      if exists k :: Selectable(rows, k) && k <= start
      then i <= start && forall k :: Selectable(rows, k) && k <= start ==> k <= i
      else forall k :: Selectable(rows, k) ==> i <= k
  }

  method ScanTaskRow(rows: seq<Row>, start: nat, forward: bool) returns (r: Option<nat>)
    ensures r.None? <==> forall k :: !Selectable(rows, k)
    ensures r.Some? ==> IsScanned(rows, start, forward, r.value)
  {
    if forward {
      var i := start;
      while i < |rows|
        invariant start <= i
        invariant forall k :: Selectable(rows, k) && start <= k ==> i <= k
      {
        if rows[i].kind.TaskRow? {
          assert Selectable(rows, i);
          return Some(i);
        }
        i := i + 1;
      }
      r := NearestTaskRow(rows, if |rows| == 0 then 0 else |rows| - 1);
    } else {
      if |rows| == 0 {
        return None;
      }
      var i := Clamped(start, |rows|);
      while true
        invariant 0 <= i < |rows| && i <= start
        invariant forall k :: Selectable(rows, k) && k <= start ==> k <= i
        decreases i
      {
        if rows[i].kind.TaskRow? {
          assert Selectable(rows, i);
          return Some(i);
        }
        if i == 0 { break; }
        i := i - 1;
      }
      r := NearestTaskRow(rows, 0);
    }
  }

  /** Half the height rounded down, and never nothing. */
  function HalfPage(height: nat): (h: nat)
    ensures h >= 1 && (2 * h == height || 2 * h + 1 == height || (h == 1 && height < 2))
  {
    if height / 2 > 1 then height / 2 else 1
  }

  /** Half a page away, held inside the list. */
  function HalfAway(n: nat, cur: int, height: nat, forward: bool): int {
    var half := HalfPage(height);
    if forward then (if cur + half < n then cur + half else n - 1) else if half < cur then cur - half else 0
  }

  /** A page key leads half a page on and then to the first row that can be selected;
      past the last of them, to the last. It never leads back, and it stalls only
      where no selectable row lies ahead. */
  ghost predicate Paged(rows: seq<Row>, cur: int, height: nat, forward: bool, i: int) {
    && IsScanned(rows, HalfAway(|rows|, cur, height, forward), forward, i)
    && if forward then cur <= i && (i == cur <==> forall k :: Selectable(rows, k) ==> k <= cur)
       else i <= cur && (i == cur <==> forall k :: Selectable(rows, k) ==> cur <= k)
  }

  method PageTarget(rows: seq<Row>, cur: nat, height: nat, forward: bool) returns (i: nat)
    requires Selectable(rows, cur)
    ensures Paged(rows, cur, height, forward, i)
  {
    var half := HalfPage(height);
    var target := if forward then (if cur + half < |rows| then cur + half else |rows| - 1)
      else if half < cur then cur - half else 0;
    var r := ScanTaskRow(rows, target, forward);
    i := r.value;
  }

  /** The next selectable row that way, if there is one. */
  ghost predicate IsAdjacent(rows: seq<Row>, from: int, forward: bool, i: int) {
    Selectable(rows, i) &&
    if forward then from < i && forall k :: Selectable(rows, k) && from < k ==> i <= k
    else i < from && forall k :: Selectable(rows, k) && k < from ==> k <= i
  }

  method StepTarget(rows: seq<Row>, from: nat, forward: bool) returns (r: Option<nat>)
    requires from < |rows|
    ensures r.Some? ==> IsAdjacent(rows, from, forward, r.value)
    ensures r.None? ==> forall k :: Selectable(rows, k) ==> if forward then k <= from else from <= k
  {
    var i := from;
    while true
      invariant 0 <= i < |rows|
      invariant forward ==> from <= i && forall k :: Selectable(rows, k) && from < k ==> i < k
      invariant !forward ==> i <= from && forall k :: Selectable(rows, k) && k < from ==> k < i
      decreases if forward then |rows| - i else i
    {
      if forward {
        if i + 1 >= |rows| { return None; }
        i := i + 1;
      } else {
        if i == 0 { return None; }
        i := i - 1;
      }
      if rows[i].kind.TaskRow? { return Some(i); }
    }
  }

  datatype Layout = Layout(ledgerRows: nat, paneRows: nat)

  /** The two share the height; an open pane is tall enough for every field and
      leaves the list a row, or does not open at all. */
  function LayoutFor(total: nat, paneOpen: bool): (l: Layout)
    ensures l.ledgerRows + l.paneRows == total
    ensures l.paneRows != 0 <==> paneOpen && total > 7
    ensures l.paneRows != 0 ==> l.ledgerRows >= 1 && l.paneRows == if total >= 24 then total / 3 else 7
  {
    if !paneOpen || total < PANE_MIN_ROWS + 1 then Layout(total, 0)
    else
      var pane := if total / 3 > PANE_MIN_ROWS then total / 3 else PANE_MIN_ROWS;
      Layout(total - pane, pane)
  }

  /** The cursor ends up on the screen, the list does not scroll past its end, and
      a view that was good already does not move. */
  method EnsureVisible(cursor: nat, rowCount: nat, height: nat, scrollTop: nat) returns (top: nat)
    requires rowCount == 0 || cursor < rowCount
    ensures height == 0 ==> top == scrollTop
    ensures height > 0 && cursor < rowCount ==> top <= cursor < top + height
    ensures height > 0 && cursor < rowCount ==> top == 0 || top + height <= rowCount
    ensures height > 0 && scrollTop <= cursor < scrollTop + height && (scrollTop == 0 || scrollTop + height <= rowCount)
      ==> top == scrollTop
  {
    if height == 0 {
      return scrollTop;
    }
    var maxTop := if rowCount > height then rowCount - height else 0;
    top := if scrollTop < maxTop then scrollTop else maxTop;
    if cursor < top {
      top := cursor;
    }
    if cursor >= top + height {
      top := cursor + 1 - height;
    }
  }
}
