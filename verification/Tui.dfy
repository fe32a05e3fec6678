/** The terminal client's model: the fetched tasks, everything derived from them,
    and the handlers that change both. */
module Tui {
  import opened Tasks
  import opened Scoring
  import opened Walks
  import opened Scores
  import opened Folding
  import opened Ledger
  import opened Cursor
  import opened Ranking
  import opened LineEditor
  import opened Edits
  import opened TuiCore
  import opened Screen
  import Graph
  import Handles
  import TuiRuns

  class Model {
    var tasks: seq<Task>
    var ix: Index
    var scores: map<Id, Score>
    var rows: seq<Row>
    var folds: map<Id, bool>
    var cursorId: Option<Id>
    var cursorAnchor: nat
    var filters: Filters
    var filtering: bool
    var strategy: Strategy
    var handleLen: nat
    var now: int
    const offset: int
    var mode: Mode
    var inFlight: InFlight
    var loadFailed: bool
    var paneOpen: bool
    var scrollTop: nat
    var viewport: nat
    /** The clock when the rows were last built. */
    ghost var drawnAt: int

    constructor (now: int, offset: int, filters: Filters, filtering: bool, strategy: Strategy)
      ensures Ready() && Abs() == Core([], None, List, Idle)
      ensures Setup() == Settings(map[], false, filters, filtering, strategy, 24, false)
      ensures this.now == now && this.offset == offset
    {
      var nothing := new Index([]);
      tasks, ix, scores, rows, folds := [], nothing, map[], [], map[];
      cursorId, cursorAnchor, this.filters, this.filtering := None, 0, filters, filtering;
      this.strategy, handleLen, this.now, this.offset := strategy, 4, now, offset;
      mode, inFlight, loadFailed, paneOpen, scrollTop, viewport := List, Idle, false, false, 0, 24;
      drawnAt := now;
      new;
      NothingFetched(Pic());
    }

    /** What the shell does before its loop: the size of the screen, and the first
        request, which the model must know of. */
    method Start(height: nat) returns (cmd: Command)
      requires Ready() && Abs() == Core([], None, List, Idle)
      modifies this
      ensures Ready() && now == old(now) && Setup() == old(Setup()).(viewport := height)
      ensures Abs() == TuiRuns.START.core && cmd == Fetch
    {
      hide Model.Drawn, Model.Loaded, Model.Height, Model.Where, LayoutFor, Follows, Refolds, Stays, Merge, MapOf,
        TuiCore.Update, Adjusted;
      Resized(Setup(), height, now, offset);
      cmd := Update(Resize(height), None);
      NoTaskNoCursorHere();
      inFlight := Refreshing;
      return Fetch;
    }

    static lemma Resized(s: Settings, height: nat, now: int, offset: int)
      ensures Adjusted(s, Core([], None, List, Idle), Resize(height), None) == s.(viewport := height)
      ensures forall cursor ::
        var c, env := Core([], None, List, Idle), Env(now, offset, cursor, false);
        TuiCore.Update(c, Resize(height), env) == Outcome(c.(cursor := cursor), Nothing)
    {
    }

    lemma NoTaskNoCursorHere()
      requires Drawn() && tasks == []
      ensures cursorId.None?
    {
      hide Fits, CursorFits, HandlesFit;
      NoTaskNoCursor(Pic());
    }

    function Setup(): Settings
      reads `folds, `paneOpen, `filters, `filtering, `strategy, `viewport, `loadFailed
    {
      Settings(folds, paneOpen, filters, filtering, strategy, viewport, loadFailed)
    }

    function Where(): Spot
      reads `rows, `cursorId, `cursorAnchor, `viewport, `paneOpen
    {
      Spot(rows, cursorId, cursorAnchor, Height())
    }

    function Abs(): Core
      reads this
    {
      Core(tasks, cursorId, mode, inFlight)
    }

    function Height(): (h: nat)
      reads `viewport, `paneOpen
      ensures !paneOpen ==> h == if viewport < 3 then 0 else viewport - 3
      ensures paneOpen && viewport > 10 ==> h == viewport - 3 - if viewport >= 27 then (viewport - 3) / 3 else 7
    {
      LayoutFor(if viewport < CHROME_ROWS then 0 else viewport - CHROME_ROWS, paneOpen).ledgerRows
    }

    ghost function Pic(): Picture
      reads `tasks, `ix, ix, `scores, `rows, `folds, `cursorId, `cursorAnchor, `filters, `filtering, `strategy,
        `handleLen, `paneOpen, `scrollTop, `viewport, `drawnAt
    {
      Picture(tasks, View(ix.byId, scores, folds, filtering), Query(filters, drawnAt), strategy, rows, cursorId,
        cursorAnchor, scrollTop, Height(), handleLen)
    }

    ghost predicate Loaded()
      reads `tasks, `ix, ix
    {
      ix.Valid(tasks) && DistinctTaskIds(tasks)
    }

    /** The tasks are indexed and the anchor is where the cursor stands. */
    ghost predicate Anchored()
      reads `tasks, `ix, ix, `rows, `cursorId, `cursorAnchor
    {
      Loaded() && (cursorId.Some? ==> IndexOf(rows, cursorId) == Some(cursorAnchor))
    }

    /** The tasks are indexed and the screen is true to them. */
    ghost predicate Drawn()
      reads `tasks, `ix, ix, `scores, `rows, `folds, `cursorId, `cursorAnchor, `filters, `filtering, `strategy,
        `handleLen, `paneOpen, `scrollTop, `viewport, `drawnAt
    {
      Loaded() && True(Pic())
    }

    ghost predicate Ready()
      reads this, ix
    {
      Drawn() && TextsValid(Abs())
    }

    lemma DrawnIsLoaded()
      requires Drawn()
      ensures Loaded()
    {
    }

    lemma DrawnIsAnchored()
      requires Drawn()
      ensures Anchored()
    {
      hide Fits, HandlesFit, IndexOf;
    }

    /** Nothing happened to the list, so the cursor kept its place. */
    lemma StandsStill(height: nat)
      requires Drawn()
      ensures Kept(Where().(height := height), Where())
    {
      hide Fits, HandlesFit;
    }

    lemma RowsOnce()
      requires Drawn()
      ensures NoTaskTwice(rows)
    {
      hide CursorFits, HandlesFit, AllHonest, AllExact, NoTaskTwice, Trees, Ordered, Selected;
    }

    lemma StoredIsStored(id: Id)
      requires Drawn()
      ensures Stored(id) == TuiCore.Stored(Abs(), id)
    {
    }

    method CursorIndex() returns (r: Option<nat>)
      ensures r == IndexOf(rows, cursorId)
    {
      for i := 0 to |rows|
        invariant IndexOf(rows, cursorId) ==
          var rest := IndexOf(rows[i..], cursorId); if rest.Some? then Some(rest.value + i) else None
      {
        assert rows[i..][1..] == rows[i + 1..];
        if rows[i].kind.TaskRow? && Some(rows[i].id) == cursorId {
          return Some(i);
        }
      }
      return None;
    }

    // ----- the tasks ----------------------------------------------------------------------

    method ReplaceTasks(incoming: seq<Task>)
      requires DistinctTaskIds(incoming)
      modifies this`tasks, this`ix, this`rows, this`scores, this`cursorAnchor
      ensures Loaded() && tasks == incoming && fresh(ix)
      ensures cursorAnchor == (if IndexOf(old(rows), cursorId).Some? then IndexOf(old(rows), cursorId).value
        else old(cursorAnchor))
      ensures rows == []
    {
      var next := new Index(incoming);
      var at := CursorIndex();
      cursorAnchor := if at.Some? then at.value else cursorAnchor;
      rows, scores, ix, tasks := [], map[], next, incoming;
    }

    method MergeTasks(incoming: seq<Task>)
      requires Loaded()
      modifies this`tasks, this`ix, this`rows, this`scores, this`cursorAnchor
      ensures Loaded() && tasks == Merge(old(tasks), incoming) && fresh(ix)
      ensures cursorAnchor == (if IndexOf(old(rows), cursorId).Some? then IndexOf(old(rows), cursorId).value
        else old(cursorAnchor))
      ensures rows == []
    {
      var scratch := tasks;
      for i := 0 to |incoming|
        invariant scratch == Merge(tasks, incoming[..i])
      {
        assert incoming[..i + 1][..i] == incoming[..i];
        var src := incoming[i];
        var j := 0;
        while j < |scratch| && scratch[j].id != src.id
          invariant 0 <= j <= |scratch|
          invariant forall k :: 0 <= k < j ==> scratch[k].id != src.id
        {
          j := j + 1;
        }
        assert j == PositionOf(scratch, src.id);
        scratch := if j < |scratch| then scratch[j := src] else scratch + [src];
      }
      assert incoming[..|incoming|] == incoming;
      MergeIsOverlay(tasks, incoming);
      ReplaceTasks(scratch);
    }

    // ----- the funnel ---------------------------------------------------------------------

    /** Rebuild whatever is derived, and let the cursor settle: on its own task if
        that is still shown, else on the row nearest to where it stood. */
    method Recompute()
      requires Loaded()
      modifies this`rows, this`scores, this`handleLen, this`cursorId, this`cursorAnchor, this`scrollTop, this`drawnAt
      ensures Drawn() && drawnAt == now
      ensures var was := IndexOf(old(rows), old(cursorId));
        Arrives(old(cursorAnchor), old(cursorId), if was.Some? then was.value else old(cursorAnchor), Where())
    {
      hide Model.Height, Model.Drawn, Model.Loaded, Fits, HandlesFit, IsNearest, IndexOf, Shows;
      var was := CursorIndex();
      var oldIndex := if was.Some? then was.value else cursorAnchor;
      Redraw();
      Resettle(oldIndex);
      Follow();
      SettledIsDrawn();
    }

    lemma SettledIsDrawn()
      requires Loaded() && HandlesFit(tasks, handleLen)
      requires Fits(tasks, View(ix.byId, scores, folds, filtering), Query(filters, drawnAt), strategy, rows)
      requires CursorFits(Pic())
      ensures Drawn()
    {
      hide Model.Height, Fits, HandlesFit, CursorFits;
    }

    /** Remember where the cursor stands and scroll it into view. */
    method Follow()
      requires cursorId.Some? ==> IndexOf(rows, cursorId).Some?
      modifies this`cursorAnchor, this`scrollTop
      ensures if cursorId.Some? then IndexOf(rows, cursorId) == Some(cursorAnchor)
        else cursorAnchor == old(cursorAnchor)
      ensures cursorId.Some? && Height() > 0 ==> scrollTop <= IndexOf(rows, cursorId).value < scrollTop + Height()
    {
      hide IndexOf, Shows;
      var at := CursorIndex();
      cursorAnchor := if at.Some? then at.value else cursorAnchor;
      var focus := Clamped(cursorAnchor, |rows|);
      scrollTop := EnsureVisible(focus, |rows|, Height(), scrollTop);
    }

    /** The cursor by id, or the row nearest to the old place. */
    method Resettle(oldIndex: nat)
      modifies this`cursorId
      ensures if IndexOf(rows, old(cursorId)).Some? then cursorId == old(cursorId)
        else if cursorId.None? then forall k :: !Selectable(rows, k)
        else exists i :: IsNearest(rows, Clamped(oldIndex, |rows|), i) && rows[i].id == cursorId.value
      ensures cursorId.Some? ==> IndexOf(rows, cursorId).Some?
    {
      var at := CursorIndex();
      if at.None? {
        cursorId := None;
        var near := NearestTaskRow(rows, oldIndex);
        if near.Some? {
          cursorId := Some(rows[near.value].id);
          assert Shows(rows, rows[near.value].id);
        }
      }
    }

    /** Put the cursor on a task; it stays there if the rebuilt rows show it. */
    method SendTo(id: Id)
      requires Loaded()
      modifies this`rows, this`scores, this`handleLen, this`cursorId, this`cursorAnchor, this`scrollTop, this`drawnAt
      ensures Drawn()
      ensures var to := IndexOf(old(rows), Some(id));
        Arrives(old(cursorAnchor), Some(id), if to.Some? then to.value else old(cursorAnchor), Where())
    {
      hide True, Arrives, MapOf, Merge, DistinctTaskIds, LayoutFor, Index.Valid;
      cursorId := Some(id);
      Recompute();
    }

    /** New tasks, and everything derived from them anew. */
    method Install(incoming: seq<Task>)
      requires Anchored() && DistinctTaskIds(incoming)
      modifies this`tasks, this`ix, this`rows, this`scores, this`handleLen, this`cursorId, this`cursorAnchor,
        this`scrollTop, this`drawnAt
      ensures Drawn() && tasks == incoming && Kept(old(Where()), Where())
    {
      hide True, Arrives, MapOf, IndexOf, LayoutFor, Index.Valid, DistinctTaskIds;
      ReplaceTasks(incoming);
      Recompute();
    }

    method FoldIn(incoming: seq<Task>)
      requires Anchored()
      modifies this`tasks, this`ix, this`rows, this`scores, this`handleLen, this`cursorId, this`cursorAnchor,
        this`scrollTop, this`drawnAt
      ensures Drawn() && tasks == Merge(old(tasks), incoming) && Kept(old(Where()), Where())
    {
      hide True, Arrives, MapOf, IndexOf, Merge, LayoutFor, Index.Valid, DistinctTaskIds;
      MergeTasks(incoming);
      Recompute();
    }

    /** ... and the cursor sent to the new task. */
    method FoldInAt(t: Task)
      requires Anchored()
      modifies this`tasks, this`ix, this`rows, this`scores, this`handleLen, this`cursorId, this`cursorAnchor,
        this`scrollTop, this`drawnAt
      ensures Drawn() && tasks == Merge(old(tasks), [t])
        && Arrives(old(cursorAnchor), Some(t.id), old(cursorAnchor), Where())
    {
      hide True, Arrives, MapOf, IndexOf, Merge, LayoutFor, Index.Valid, DistinctTaskIds;
      MergeTasks([t]);
      NoRowThere(t.id);
      SendTo(t.id);
    }

    lemma NoRowThere(id: Id)
      requires rows == []
      ensures IndexOf(rows, Some(id)).None?
    {
    }

    /** Rebuild with the tasks as they are. */
    method Refit()
      requires Anchored()
      modifies this`rows, this`scores, this`handleLen, this`cursorId, this`cursorAnchor, this`scrollTop, this`drawnAt
      ensures Drawn() && drawnAt == now && Kept(old(Where()), Where())
    {
      hide True, Arrives, MapOf, IndexOf, LayoutFor, Index.Valid, DistinctTaskIds;
      Recompute();
    }

    /** Handles, selection, scores, order and rows. */
    method Redraw()
      requires Loaded()
      modifies this`rows, this`scores, this`handleLen, this`drawnAt
      ensures Loaded() && HandlesFit(tasks, handleLen) && drawnAt == now
      ensures Fits(tasks, View(ix.byId, scores, folds, filtering), Query(filters, drawnAt), strategy, rows)
    {
      hide AllHonest, AllExact, Built, Selected, MapOf, Trees, Graph.Acyclic, Graph.SingleContainer;
      handleLen := Handles.MinUniqueSuffixLen(Handles.Ids(tasks));
      drawnAt := now;
      var q := Query(filters, now);
      var selected := Select(tasks, ix, HitOf(q), true);
      scores := ComputeScores(tasks, ix.byId, q);
      var v := View(ix.byId, scores, folds, filtering);
      SelectedDistinct(tasks, ix.byId, HitOf(q));
      var roots := OrderRoots(selected, v, strategy, now);
      RootsAreRoots(tasks, v, q, selected, roots);
      DistinctRoots(v, strategy, now, selected, roots);
      rows := BuildRows(roots, tasks, ix, v);
    }

    // ----- the mode and the request -------------------------------------------------------

    /** The editor of a commit moves back to the screen. */
    method RestoreEditor()
      modifies this`mode, this`inFlight
      ensures Abs() == if old(inFlight).Committing? then Restored(old(Abs())) else old(Abs())
    {
      if inFlight.Committing? {
        var c := inFlight;
        inFlight := Idle;
        if c.editor != External(None) {
          mode := Editing(c.id, c.field, c.editor);
        }
      }
    }

    predicate EventFits(ev: Event)
    {
      ev.TasksLoaded? ==> DistinctTaskIds(ev.tasks)
    }

    method OnResize(height: nat)
      requires Ready()
      modifies this
      ensures Ready() && now == old(now) && Abs() == old(Abs()).(cursor := cursorId)
      ensures Kept(old(Where()), Where()) && Setup() == old(Setup()).(viewport := height)
    {
      hide Model.Drawn, Model.Loaded, Model.Anchored, Model.Height, LayoutFor, Arrives, MapOf, Merge, IndexOf;
      DrawnIsAnchored();
      viewport := height;
      Refit();
    }

    method OnTasksLoaded(incoming: seq<Task>)
      requires Ready() && DistinctTaskIds(incoming)
      modifies this
      ensures Ready() && now == old(now)
      ensures Abs() == AfterLoad(old(Abs()), incoming, cursorId)
      ensures Kept(old(Where()), Where()) && Setup() == old(Setup()).(loadFailed := false)
    {
      hide TextsValid, Model.Where, Fits, True, Index.Valid, DistinctTaskIds, Kept, Model.Drawn, Model.Loaded,
        Model.Anchored, Model.Height, LayoutFor, Arrives, Merge, MapOf, Anchor, TypeInto, IndexOf;
      DrawnIsAnchored();
      var anchored := Anchor(Abs());
      Answered();
      Install(incoming);
      DrawnIsLoaded();
      CloseIfGone(anchored);
    }

    /** The fetch this answers is no longer waited for. */
    method Answered()
      requires TextsValid(Abs())
      modifies this`inFlight, this`loadFailed
      ensures Abs() == old(Abs()).(inFlight := if old(inFlight).Refreshing? then Idle else old(inFlight))
        && TextsValid(Abs())
      ensures Setup() == old(Setup()).(loadFailed := false)
    {
      if inFlight.Refreshing? {
        inFlight := Idle;
      }
      loadFailed := false;
    }

    /** Only the loss of its task closes a mode. */
    method CloseIfGone(anchored: Option<Id>)
      requires Loaded() && TextsValid(Abs())
      modifies this`mode
      ensures TextsValid(Abs())
      ensures mode == if anchored.Some? && anchored.value !in MapOf(tasks) then List else old(mode)
    {
      if anchored.Some? && anchored.value !in ix.byId {
        mode := List;
      }
    }

    /** The new task is put under the cursor, its priority the next thing to set. */
    method OnCreateOk(created: Task)
      requires Ready()
      modifies this
      ensures Ready() && now == old(now)
      ensures Abs() == AfterCreate(old(Abs()), created, cursorId)
      ensures Arrives(old(cursorAnchor), Some(created.id), old(cursorAnchor), Where())
      ensures Setup() == old(Setup()).(paneOpen := true)
    {
      hide Model.Drawn, Model.Loaded, Model.Anchored, Model.Height, LayoutFor, Arrives, Merge, IndexOf;
      DrawnIsAnchored();
      if inFlight.Creating? {
        inFlight := Idle;
      }
      paneOpen := true;
      mode := Field(PriorityField);
      FoldInAt(created);
    }

    method OnDeleteOk()
      requires Ready()
      modifies this`inFlight
      ensures Ready() && Abs() == if old(inFlight).Deleting? then old(Abs()).(inFlight := Refreshing) else old(Abs())
    {
      hide Model.Drawn, Model.Loaded, Model.Height, LayoutFor, Merge, MapOf;
      if inFlight.Deleting? {
        inFlight := Refreshing;
      }
    }

    method OnCommitOk(saved: seq<Task>)
      requires Ready()
      modifies this
      ensures Ready() && now == old(now)
      ensures Abs() == AfterCommit(old(Abs()), saved, cursorId)
      ensures Kept(old(Where()), Where()) && Setup() == old(Setup())
    {
      hide Kept, Model.Drawn, Model.Loaded, Model.Anchored, Model.Height, LayoutFor, Arrives, Merge, MapOf, IndexOf;
      DrawnIsAnchored();
      if inFlight.Committing? {
        inFlight := Idle;
      }
      FoldIn(saved);
    }

    method OnConflict(current: seq<Task>)
      requires Ready()
      modifies this
      ensures Ready() && now == old(now)
      ensures Abs() == AfterConflict(old(Abs()), current, cursorId)
      ensures Kept(old(Where()), Where()) && Setup() == old(Setup())
    {
      hide Kept, Model.Drawn, Model.Loaded, Model.Anchored, Model.Height, LayoutFor, Arrives, Merge, MapOf, IndexOf;
      DrawnIsAnchored();
      RestoreEditor();
      inFlight := Idle;
      FoldIn(current);
    }

    method OnRequestFailed()
      requires Ready()
      modifies this`mode, this`inFlight, this`loadFailed
      ensures Ready() && Abs() == Restored(old(Abs()))
      ensures Setup() == Adjusted(old(Setup()), old(Abs()), RequestFailed, None)
    {
      hide Model.Drawn, Model.Loaded, Model.Height, LayoutFor, Merge, MapOf;
      match inFlight {
        case Committing(_, _, _) => RestoreEditor();
        case Creating(_) =>
        case Deleting(_) =>
        case _ => if |tasks| == 0 { loadFailed := true; }
      }
      inFlight := Idle;
    }

    /** `parsed` is what the filter parser makes of the prompt's text; only the
        filter prompt asks for it. */
    method SharedEvent(ev: Event, ghost parsed: Option<Filters>) returns (cmd: Command)
      requires Ready() && EventFits(ev) && !ev.Press?
      modifies this
      ensures Ready() && now == old(now)
      ensures Outcome(Abs(), cmd) == TuiCore.SharedEvent(old(Abs()), ev, Env(now, offset, cursorId, parsed.Some?))
      ensures Follows(old(Where()), old(mode), ev, Where())
      ensures Setup() == Adjusted(old(Setup()), old(Abs()), ev, parsed)
    {
      hide Model.Drawn, Model.Loaded, Model.Height, LayoutFor, Arrives, Merge, MapOf, Restored, TextsValid, AfterLoad,
        AfterCreate, AfterCommit, AfterConflict;
      cmd := Nothing;
      StandsStill(Height());
      match ev
      case Resize(height) => OnResize(height);
      case TasksLoaded(incoming) => OnTasksLoaded(incoming);
      case CreateOk(created) => OnCreateOk(created);
      case DeleteOk =>
        OnDeleteOk();
        cmd := Fetch;
      case CommitOk(saved) => OnCommitOk(saved);
      case Conflicted(current) => OnConflict(current);
      case RequestFailed => OnRequestFailed();
      case _ =>
    }

    function Stored(id: Id): Option<Task>
      reads this, ix
    {
      if id in ix.byId then Some(ix.byId[id]) else None
    }

    // ----- the list -----------------------------------------------------------------------

    method MoveCursor(forward: bool)
      requires Ready()
      modifies this
      ensures Ready() && now == old(now) && Abs() == old(Abs()).(cursor := cursorId) && Setup() == old(Setup())
      ensures Travelled(old(Where()), Step(forward), Where())
    {
      hide Model.Drawn, Model.Loaded, Model.Height, LayoutFor, Arrives, Travelled, MapOf, Merge, IndexOf;
      DrawnIsAnchored();
      StandsStill(Height());
      ghost var p := Where();
      var at := CursorIndex();
      if at.None? {
        LeadsNowhere(p, Step(forward), p);
        return;
      }
      var next := StepTarget(rows, at.value, forward);
      if next.None? {
        LeadsNowhere(p, Step(forward), p);
        return;
      }
      Visit(next.value, Step(forward));
    }

    /** A movement key ends here: the cursor goes to the row the key leads to. */
    method Visit(i: nat, ghost go: Travel)
      requires Ready() && Leads(Where(), go, i) && rows[i].kind.TaskRow?
      modifies this`rows, this`scores, this`handleLen, this`cursorId, this`cursorAnchor, this`scrollTop, this`drawnAt
      ensures Ready() && Travelled(old(Where()), go, Where())
    {
      hide Model.Drawn, Model.Loaded, Model.Height, LayoutFor, Arrives, Travelled, MapOf, Merge, IndexOf, NoTaskTwice,
        IsAdjacent, Paged, IsEdge;
      DrawnIsLoaded();
      RowsOnce();
      FoundThere(rows, i);
      ghost var p := Where();
      SendTo(rows[i].id);
      LeadsThere(p, go, i, Where());
    }

    method SetFold(expanded: bool)
      requires Ready()
      modifies this
      ensures Ready() && now == old(now) && Abs() == old(Abs()).(cursor := cursorId) && Kept(old(Where()), Where())
      ensures Setup() == if old(cursorId).Some?
                         then old(Setup()).(folds := old(folds)[old(cursorId).value := expanded]) else old(Setup())
      ensures Graph.Treelike(MapOf(tasks)) && Stays(old(Where()), old(drawnAt) == now, Where()) ==>
        old(cursorId).Some? ==> Folded(MapOf(tasks), Where(), old(cursorId).value, expanded)
    {
      hide Folded, True, Shows, Kept, Model.Drawn, Model.Loaded, Model.Anchored, Model.Height, LayoutFor, Arrives,
        MapOf, Merge, IndexOf;
      DrawnIsAnchored();
      StandsStill(Height());
      if cursorId.None? { return; }
      PicIsTrue();
      ghost var was, at, x := Pic(), Where(), cursorId.value;
      folds := folds[cursorId.value := expanded];
      Refit();
      if Graph.Treelike(MapOf(tasks)) && Stays(at, was.q.now == now, Where()) {
        FoldShows(was, at, x);
      }
    }

    lemma PicIsTrue()
      requires Drawn()
      ensures True(Pic())
    {
    }

    lemma FoldShows(was: Picture, at: Spot, x: Id)
      requires True(was) && Drawn() && drawnAt == now && Graph.Treelike(MapOf(tasks))
      requires was.tasks == tasks && was.strategy == strategy && was.v.filtering == filtering && was.q.f == filters
      requires was.cursor == Some(x) == at.cursor && x in folds && folds == was.v.folds[x := folds[x]]
      requires Kept(at, Where()) && Stays(at, was.q.now == now, Where())
      ensures Folded(MapOf(tasks), Where(), x, folds[x])
    {
      hide AllHonest, AllExact, Built, Selected, Trees, Ordered, Graph.Acyclic, Graph.SingleContainer, HandlesFit,
        IsNearest, MapOf, LayoutFor;
      if was.q.now == now {
        FoldedIsStillShown(was, Pic(), x);
      }
      FoldIsShown(Pic(), x);
    }

    method JumpToEdge(first: bool)
      requires Ready()
      modifies this
      ensures Ready() && now == old(now) && Abs() == old(Abs()).(cursor := cursorId) && Setup() == old(Setup())
      ensures Travelled(old(Where()), Edge(first), Where())
    {
      hide Model.Drawn, Model.Loaded, Model.Height, LayoutFor, Arrives, Travelled, MapOf, Merge, IndexOf;
      StandsStill(Height());
      ghost var p := Where();
      if |rows| == 0 {
        LeadsNowhere(p, Edge(first), p);
        return;
      }
      var i := NearestTaskRow(rows, if first then 0 else |rows| - 1);
      if i.None? {
        LeadsNowhere(p, Edge(first), p);
        return;
      }
      Visit(i.value, Edge(first));
    }

    /** Half a page; the row it leads to is never behind the cursor, and is the
        cursor's own only when nothing selectable lies ahead. */
    method PageBy(forward: bool)
      requires Ready()
      modifies this
      ensures Ready() && now == old(now) && Abs() == old(Abs()).(cursor := cursorId) && Setup() == old(Setup())
      ensures Travelled(old(Where()), Page(forward), Where())
    {
      hide Model.Drawn, Model.Loaded, Model.Height, LayoutFor, Arrives, Travelled, MapOf, Merge, IndexOf, HalfAway;
      DrawnIsAnchored();
      StandsStill(Height());
      ghost var p := Where();
      var at := CursorIndex();
      if at.None? {
        LeadsNowhere(p, Page(forward), p);
        return;
      }
      var i := PageTarget(rows, at.value, Height(), forward);
      Visit(i, Page(forward));
    }

    method ClearFilter()
      requires Ready()
      modifies this
      ensures Ready() && now == old(now) && Abs() == old(Abs()).(cursor := cursorId) && Kept(old(Where()), Where())
      ensures Setup() == Unfiltered(old(Setup()))
    {
      hide Kept, Model.Drawn, Model.Loaded, Model.Anchored, Model.Height, LayoutFor, Arrives, MapOf, Merge, IndexOf;
      DrawnIsAnchored();
      StandsStill(Height());
      if !filtering { return; }
      filters := Filters([], [], false);
      filtering := false;
      Refit();
    }

    method CycleStatus() returns (cmd: Command)
      requires Ready()
      modifies this`inFlight
      ensures Ready() && Outcome(Abs(), cmd) == TuiCore.CycleStatus(old(Abs()))
    {
      hide Model.Drawn, Model.Loaded, Model.Height, LayoutFor, Merge;
      if !inFlight.Idle? || cursorId.None? { return Nothing; }
      StoredIsStored(cursorId.value);
      var target := Stored(cursorId.value);
      if target.None? { return Nothing; }
      var t := target.value;
      var next := NextStatus(t.content.status);
      var content := ApplyPatch(t.content, NO_PATCH.(status := Set(next)));
      inFlight := Committing(cursorId.value, StatusField, External(None));
      return Commit(cursorId.value, t.meta.version, content);
    }

    /** No prompt opens while a request is out. */
    method OpenPrompt(prompt: Mode)
      requires prompt.AddPrompt? || prompt.FilterPrompt? ==> prompt.text.Valid()
      requires TextsValid(Abs()) && !prompt.Editing?
      modifies this`mode
      ensures TextsValid(Abs()) && mode == if old(inFlight).Idle? then prompt else old(mode)
    {
      if inFlight.Idle? { mode := prompt; }
    }

    method ListMode(ev: Event, ghost parsed: Option<Filters>) returns (cmd: Command)
      requires Ready() && EventFits(ev) && mode.List?
      modifies this
      ensures Ready() && now == old(now)
      ensures Outcome(Abs(), cmd) == TuiCore.ListMode(old(Abs()), ev, Env(now, offset, cursorId, parsed.Some?))
      ensures Follows(old(Where()), old(mode), ev, Where())
      ensures Setup() == Adjusted(old(Setup()), old(Abs()), ev, parsed)
      ensures Graph.Treelike(MapOf(tasks)) && ev.Press? && Stays(old(Where()), old(drawnAt) == now, Where()) ==>
        Refolds(MapOf(tasks), old(Where()), ev.key, Where())
    {
      hide Folded, Stays, TravelOf, ListAdjusted, True, Kept, TuiCore.SharedEvent, TuiCore.CycleStatus, Model.Drawn,
        Model.Loaded, Model.Height, LayoutFor, Arrives, Travelled, Merge, MapOf, Unfiltered;
      if !ev.Press? {
        cmd := SharedEvent(ev, parsed);
      } else if Moves(ev.key) {
        Navigate(ev.key);
        cmd := Nothing;
      } else {
        OtherKeys(Setup(), cursorId, ev.key);
        cmd := Act(ev.key, parsed);
      }
    }

    /** The keys of the list that are not for moving. */
    method Act(k: Key, ghost parsed: Option<Filters>) returns (cmd: Command)
      requires Ready() && mode.List? && !Moves(k)
      modifies this
      ensures Ready() && now == old(now) && Kept(old(Where()), Where())
      ensures Outcome(Abs(), cmd) == TuiCore.ListMode(old(Abs()), Press(k), Env(now, offset, cursorId, parsed.Some?))
      ensures Setup() == if k.Enter? && old(cursorId).Some? then old(Setup()).(paneOpen := true) else old(Setup())
    {
      hide True, Kept, TuiCore.SharedEvent, TuiCore.CycleStatus, Model.Drawn, Model.Loaded, Model.Height, LayoutFor,
        Arrives, Merge, MapOf;
      StandsStill(Height());
      if IsChar(k, 'q') {
        return Quit;
      } else if IsChar(k, ' ') {
        cmd := CycleStatus();
        return;
      } else if IsChar(k, 'a') {
        OpenPrompt(AddPrompt(Opened("")));
      } else if IsChar(k, '/') {
        OpenPrompt(FilterPrompt(Opened("")));
      } else if IsChar(k, 'x') {
        if cursorId.Some? { OpenPrompt(ConfirmDelete(cursorId.value)); }
      } else if IsChar(k, 'R') {
        if inFlight.Idle? {
          inFlight := Refreshing;
          return Fetch;
        }
      } else if k.Enter? {
        if cursorId.Some? {
          SetPane(true, Field(Title));
        }
      }
      return Nothing;
    }

    /** The pane takes rows from the list or gives them back. */
    method SetPane(open: bool, next: Mode)
      requires Ready() && !next.Editing? && !next.FilterPrompt? && !next.AddPrompt?
      modifies this
      ensures Ready() && now == old(now) && Abs() == old(Abs()).(cursor := cursorId, mode := next)
      ensures Kept(old(Where()), Where()) && Setup() == old(Setup()).(paneOpen := open)
    {
      hide Model.Drawn, Model.Loaded, Model.Anchored, Model.Height, LayoutFor, Arrives, Merge, MapOf, IndexOf;
      DrawnIsAnchored();
      paneOpen := open;
      mode := next;
      Refit();
    }

    /** Right and l open the task under the cursor, left and h close it. */
    method Turn(k: Key)
      requires Ready() && mode.List? && (IsChar(k, 'l') || k.Right? || IsChar(k, 'h') || k.Left?)
      modifies this
      ensures Ready() && now == old(now) && Abs() == old(Abs()).(cursor := cursorId) && Kept(old(Where()), Where())
      ensures Setup() == ListAdjusted(old(Setup()), old(cursorId), k)
      ensures Graph.Treelike(MapOf(tasks)) && Stays(old(Where()), old(drawnAt) == now, Where()) ==>
        Refolds(MapOf(tasks), old(Where()), k, Where())
    {
      hide Refolds, Folded, Stays, Kept, Model.Drawn, Model.Loaded, Model.Height, LayoutFor, MapOf, Unfiltered;
      ghost var p := Where();
      var open := IsChar(k, 'l') || k.Right?;
      SetFold(open);
      RefoldsTo(MapOf(tasks), p, k, open, Where());
    }

    method Navigate(k: Key)
      requires Ready() && Moves(k) && mode.List?
      modifies this
      ensures Ready() && now == old(now) && Abs() == old(Abs()).(cursor := cursorId)
      ensures Follows(old(Where()), List, Press(k), Where())
      ensures Setup() == ListAdjusted(old(Setup()), old(cursorId), k)
      ensures Graph.Treelike(MapOf(tasks)) && Stays(old(Where()), old(drawnAt) == now, Where()) ==>
        Refolds(MapOf(tasks), old(Where()), k, Where())
    {
      hide Refolds, Folded, Stays, Kept, Model.Drawn, Model.Loaded, Model.Height, LayoutFor, Arrives, Travelled, Merge,
        MapOf, Unfiltered;
      ghost var p := Where();
      if IsChar(k, 'j') || k.Down? {
        MoveCursor(true);
      } else if IsChar(k, 'k') || k.Up? {
        MoveCursor(false);
      } else if IsChar(k, 'l') || k.Right? || IsChar(k, 'h') || k.Left? {
        Turn(k);
      } else if IsChar(k, 'g') {
        JumpToEdge(true);
      } else if IsChar(k, 'G') {
        JumpToEdge(false);
      } else if k.CtrlD? {
        PageBy(true);
      } else if k.CtrlU? {
        PageBy(false);
      } else if k.Tab? {
        SetPane(!paneOpen, List);
      } else {
        ClearFilter();
      }
      RefoldsNot(MapOf(tasks), p, k, Where());
    }

    // ----- fields and editors -------------------------------------------------------------

    method OpenOnCursor(f: FieldId, ghost parsed: Option<Filters>) returns (cmd: Command)
      requires Ready()
      modifies this`mode
      ensures Ready() && Outcome(Abs(), cmd) == TuiCore.OpenOnCursor(old(Abs()), f,
        Env(now, offset, cursorId, parsed.Some?))
    {
      hide Model.Drawn, Model.Loaded, Model.Height, LayoutFor, Merge;
      if cursorId.None? { return Nothing; }
      var id := cursorId.value;
      StoredIsStored(id);
      var target := Stored(id);
      var content := if target.Some? then target.value.content else NO_CONTENT;
      mode := Editing(id, f, OpenOn(content, f, offset));
      return if f.Description? then OpenEditor(id, content.description) else Nothing;
    }

    method FieldMode(f: FieldId, ev: Event, ghost parsed: Option<Filters>) returns (cmd: Command)
      requires Ready() && EventFits(ev) && mode == Field(f)
      modifies this
      ensures Ready() && now == old(now)
      ensures Outcome(Abs(), cmd) == TuiCore.FieldMode(old(Abs()), f, ev, Env(now, offset, cursorId, parsed.Some?))
      ensures Follows(old(Where()), old(mode), ev, Where())
      ensures Setup() == Adjusted(old(Setup()), old(Abs()), ev, parsed)
    {
      hide TuiCore.OpenOnCursor, StepField, TuiCore.SharedEvent, Model.Drawn, Model.Loaded, Model.Height, LayoutFor,
        Arrives, Travelled, Merge, MapOf;
      StandsStill(Height());
      if !ev.Press? {
        cmd := SharedEvent(ev, parsed);
        return;
      }
      cmd := Nothing;
      match ev.key
      case Up => mode := Field(StepField(f, -1));
      case Down => mode := Field(StepField(f, 1));
      case Enter => if inFlight.Idle? { cmd := OpenOnCursor(f, parsed); }
      case Escape => SetPane(false, List);
      case _ =>
    }

    /** The editor moves from the screen into the request. */
    method FinishCommit(id: Id, f: FieldId, ed: Editor, patch: Patch, target: Task) returns (cmd: Command)
      requires Ready() && ed.Valid()
      modifies this`mode, this`inFlight
      ensures Ready() && Outcome(Abs(), cmd) == TuiCore.FinishCommit(old(Abs()), id, f, ed, patch, target)
    {
      hide Model.Drawn, Model.Loaded, Model.Height, LayoutFor, Merge, MapOf;
      var content := ApplyPatch(target.content, patch);
      if |content.title| == 0 { return Nothing; }
      mode := Field(f);
      inFlight := Committing(id, f, ed);
      return Commit(id, target.meta.version, content);
    }

    method CommitEdit(id: Id, f: FieldId, ed: Editor, ghost parsed: Option<Filters>) returns (cmd: Command)
      requires Ready() && ed.Valid()
      modifies this`mode, this`inFlight
      ensures Ready() && Outcome(Abs(), cmd) == TuiCore.CommitEdit(old(Abs()), id, f, ed,
        Env(now, offset, cursorId, parsed.Some?))
    {
      hide Model.Drawn, Model.Loaded, Model.Height, LayoutFor, Merge;
      if !inFlight.Idle? || ed == External(None) { return Nothing; }
      StoredIsStored(id);
      var target, patch := Stored(id), PatchOf(f, ed, now, offset);
      if target.None? || patch.None? { return Nothing; }
      cmd := FinishCommit(id, f, ed, patch.value, target.value);
    }

    method TakeBack(id: Id, f: FieldId, text: Option<string>, ghost parsed: Option<Filters>) returns (cmd: Command)
      requires Ready()
      modifies this`mode, this`inFlight
      ensures Ready() && Outcome(Abs(), cmd) == TuiCore.TakeBack(old(Abs()), id, f, text,
        Env(now, offset, cursorId, parsed.Some?))
    {
      hide TuiCore.CommitEdit, Model.Drawn, Model.Loaded, Model.Height, LayoutFor, Merge, MapOf;
      if text.None? {
        mode := Field(f);
        return Nothing;
      }
      if !inFlight.Idle? { return Nothing; }
      var ed := External(text);
      mode := Editing(id, f, ed);
      cmd := CommitEdit(id, f, ed, parsed);
    }

    method EditingMode(id: Id, f: FieldId, ed: Editor, ev: Event, ghost parsed: Option<Filters>) returns (cmd: Command)
      requires Ready() && EventFits(ev) && mode == Editing(id, f, ed)
      modifies this
      ensures Ready() && now == old(now)
      ensures Outcome(Abs(), cmd) == TuiCore.EditingMode(old(Abs()), id, f, ed, ev,
        Env(now, offset, cursorId, parsed.Some?))
      ensures Follows(old(Where()), old(mode), ev, Where())
      ensures Setup() == Adjusted(old(Setup()), old(Abs()), ev, parsed)
    {
      hide TuiCore.SharedEvent, TuiCore.TakeBack, TuiCore.CommitEdit, Model.Drawn, Model.Loaded, Model.Height,
        LayoutFor, Arrives, Travelled, Merge, MapOf;
      StandsStill(Height());
      match ev
      case EditorReturned(text) => cmd := TakeBack(id, f, text, parsed);
      case Press(k) =>
        if k.Escape? {
          mode := Field(f);
          cmd := Nothing;
        } else if k.Enter? {
          cmd := CommitEdit(id, f, ed, parsed);
        } else {
          mode := Editing(id, f, TypeInto(ed, k));
          cmd := Nothing;
        }
      case _ => cmd := SharedEvent(ev, parsed);
    }

    // ----- prompts ------------------------------------------------------------------------

    /** Enter in the filter prompt. What the parser rejects keeps the prompt open. */
    method ApplyFilter(text: Text, parsed: Option<Filters>)
      requires Ready() && mode == FilterPrompt(text)
      modifies this
      ensures Ready() && now == old(now)
      ensures Abs() == if Trim(text.chars, true) == [] || parsed.Some?
                       then old(Abs()).(mode := List, cursor := cursorId) else old(Abs())
      ensures Kept(old(Where()), Where()) && Setup() == Filtered(old(Setup()), text, parsed)
    {
      hide TuiCore.SharedEvent, True, Kept, Model.Drawn, Model.Loaded, Model.Anchored, Model.Height, LayoutFor,
        Arrives, MapOf, Trim, Typed, Merge, IndexOf;
      DrawnIsAnchored();
      StandsStill(Height());
      if |Trim(text.chars, true)| == 0 {
        mode := List;
        ClearFilter();
      } else if parsed.Some? {
        filters := parsed.value;
        filtering := true;
        mode := List;
        Refit();
      }
    }

    method FilterMode(text: Text, ev: Event, parsed: Option<Filters>) returns (cmd: Command)
      requires Ready() && EventFits(ev) && mode == FilterPrompt(text)
      modifies this
      ensures Ready() && now == old(now)
      ensures Outcome(Abs(), cmd) == TuiCore.FilterMode(old(Abs()), text, ev, Env(now, offset, cursorId, parsed.Some?))
      ensures Follows(old(Where()), old(mode), ev, Where())
      ensures Setup() == Adjusted(old(Setup()), old(Abs()), ev, parsed)
    {
      hide TuiCore.SharedEvent, Model.Drawn, Model.Loaded, Model.Height, LayoutFor, Arrives, Travelled, Unfiltered,
        Merge, MapOf, Trim, Typed;
      StandsStill(Height());
      if !ev.Press? {
        cmd := SharedEvent(ev, parsed);
        return;
      }
      cmd := Nothing;
      match ev.key
      case Escape => mode := List;
      case Enter => ApplyFilter(text, parsed);
      case k => mode := FilterPrompt(Typed(text, k));
    }

    method AddMode(text: Text, ev: Event, ghost parsed: Option<Filters>) returns (cmd: Command)
      requires Ready() && EventFits(ev) && mode == AddPrompt(text)
      modifies this
      ensures Ready() && now == old(now)
      ensures Outcome(Abs(), cmd) == TuiCore.AddMode(old(Abs()), text, ev, Env(now, offset, cursorId, parsed.Some?))
      ensures Follows(old(Where()), old(mode), ev, Where())
      ensures Setup() == Adjusted(old(Setup()), old(Abs()), ev, parsed)
    {
      hide TuiCore.SharedEvent, Model.Drawn, Model.Loaded, Model.Height, LayoutFor, Arrives, Travelled, Merge, MapOf,
        Trim, Typed;
      StandsStill(Height());
      if !ev.Press? {
        cmd := SharedEvent(ev, parsed);
        return;
      }
      cmd := Nothing;
      match ev.key
      case Escape => mode := List;
      case Enter =>
        var title := Trim(text.chars, true);
        if inFlight.Idle? && |title| > 0 {
          inFlight := Creating(title);
          cmd := Create(NO_CONTENT.(title := title));
        }
      case k => mode := AddPrompt(Typed(text, k));
    }

    method ConfirmMode(id: Id, ev: Event, ghost parsed: Option<Filters>) returns (cmd: Command)
      requires Ready() && EventFits(ev) && mode == ConfirmDelete(id)
      modifies this
      ensures Ready() && now == old(now)
      ensures Outcome(Abs(), cmd) == TuiCore.ConfirmMode(old(Abs()), id, ev, Env(now, offset, cursorId, parsed.Some?))
      ensures Follows(old(Where()), old(mode), ev, Where())
      ensures Setup() == Adjusted(old(Setup()), old(Abs()), ev, parsed)
    {
      hide TuiCore.SharedEvent, Model.Drawn, Model.Loaded, Model.Height, LayoutFor, Arrives, Travelled, Merge, MapOf;
      StandsStill(Height());
      if !ev.Press? {
        cmd := SharedEvent(ev, parsed);
        return;
      }
      cmd := Nothing;
      if IsChar(ev.key, 'y') {
        if inFlight.Idle? {
          mode := List;
          inFlight := Deleting(id);
          cmd := Remove(id);
        }
      } else if IsChar(ev.key, 'n') || ev.key.Escape? {
        mode := List;
      }
    }

    // ----- one event ----------------------------------------------------------------------

    /** The handler does what the function says, the cursor goes where the rules of
        movement put it, and whatever happened the screen is true afterwards. */
    method Update(ev: Event, parsed: Option<Filters>) returns (cmd: Command)
      requires Ready() && EventFits(ev)
      modifies this
      ensures Ready() && now == old(now)
      ensures Outcome(Abs(), cmd) == TuiCore.Update(old(Abs()), ev, Env(now, offset, cursorId, parsed.Some?))
      ensures Follows(old(Where()), old(mode), ev, Where())
      ensures Setup() == Adjusted(old(Setup()), old(Abs()), ev, parsed)
      ensures old(mode).List? && ev.Press? && Graph.Treelike(MapOf(tasks)) ==>
        Stays(old(Where()), old(drawnAt) == now, Where()) ==> Refolds(MapOf(tasks), old(Where()), ev.key, Where())
    {
      hide Refolds, Stays, Model.Drawn, Model.Loaded, Model.Height, LayoutFor, Follows, Adjusted, TuiCore.ListMode,
        TuiCore.FieldMode, TuiCore.EditingMode, TuiCore.FilterMode, TuiCore.AddMode, TuiCore.ConfirmMode;
      match mode
      case List => cmd := ListMode(ev, parsed);
      case Field(f) => cmd := FieldMode(f, ev, parsed);
      case Editing(id, f, ed) => cmd := EditingMode(id, f, ed, ev, parsed);
      case FilterPrompt(text) => cmd := FilterMode(text, ev, parsed);
      case AddPrompt(text) => cmd := AddMode(text, ev, parsed);
      case ConfirmDelete(id) => cmd := ConfirmMode(id, ev, parsed);
    }
  }
}
