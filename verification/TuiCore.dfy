/** The terminal client's event handler as a function: what the user is doing,
    what the client is waiting for, and how one event changes both. Where the
    cursor lands after the rows are rebuilt, and what the filter parser says, are
    parameters; the class in module Tui computes the first. */
module TuiCore {
  import opened Tasks
  import opened StoreSpec
  import opened Walks
  import opened LineEditor
  import opened Edits

  datatype Mode =
    | List
    | Field(field: FieldId)
    | Editing(id: Id, field: FieldId, editor: Editor)
    | FilterPrompt(text: Text)
    | AddPrompt(text: Text)
    | ConfirmDelete(id: Id)

  datatype InFlight =
    | Idle
    | Committing(id: Id, field: FieldId, editor: Editor)
    | Creating(title: string)
    | Deleting(id: Id)
    | Refreshing

  datatype Command =
    | Nothing
    | Fetch
    | Quit
    | Commit(id: Id, expectedVersion: nat, content: Content)
    | Create(content: Content)
    | Remove(id: Id)
    | OpenEditor(id: Id, initial: string)

  datatype Event =
    | Press(key: Key)
    | Resize(rows: nat)
    | TasksLoaded(tasks: seq<Task>)
    | CommitOk(tasks: seq<Task>)
    | CreateOk(task: Task)
    | DeleteOk
    | Conflicted(tasks: seq<Task>)
    | RequestFailed
    | EditorReturned(text: Option<string>)

  datatype Core = Core(tasks: seq<Task>, cursor: Option<Id>, mode: Mode, inFlight: InFlight)
  {
    predicate Busy() { !inFlight.Idle? }
  }

  datatype Env = Env(now: int, offset: int, cursor: Option<Id>, filterOk: bool)

  datatype Outcome = Outcome(core: Core, cmd: Command)

  // ----- the stored tasks ---------------------------------------------------------------

  function PositionOf(tasks: seq<Task>, id: Id): (i: nat)
    ensures i <= |tasks|
    ensures i < |tasks| ==> tasks[i].id == id
    ensures forall k :: 0 <= k < i ==> tasks[k].id != id
  {
    if tasks == [] || tasks[0].id == id then 0 else 1 + PositionOf(tasks[1..], id)
  }

  function MergeOne(tasks: seq<Task>, t: Task): seq<Task> {
    var i := PositionOf(tasks, t.id);
    if i < |tasks| then tasks[i := t] else tasks + [t]
  }

  /** The answered tasks folded in by id; unknown ones are kept at the end. */
  function Merge(tasks: seq<Task>, incoming: seq<Task>): seq<Task> {
    if incoming == [] then tasks
    else MergeOne(Merge(tasks, incoming[..|incoming| - 1]), incoming[|incoming| - 1])
  }

  function Stored(c: Core, id: Id): Option<Task> {
    var ts := MapOf(c.tasks);
    if id in ts then Some(ts[id]) else None
  }

  // ----- pieces of the handler ----------------------------------------------------------

  /** The rows are rebuilt and the cursor settles. */
  function Settled(c: Core, env: Env): Core { c.(cursor := env.cursor) }

  function Stay(c: Core): Outcome { Outcome(c, Nothing) }

  /** The task a mode is about. */
  function Anchor(c: Core): Option<Id> {
    match c.mode
    case Editing(id, _, _) => Some(id)
    case Field(_) => c.cursor
    case ConfirmDelete(id) => Some(id)
    case _ => None
  }

  /** The editor moves back from the request to the screen. A status cycled from
      the list had none. */
  function Restored(c: Core): Core {
    var back := match c.inFlight
      case Committing(id, f, ed) => if ed == External(None) then c else c.(mode := Editing(id, f, ed))
      case _ => c;
    back.(inFlight := Idle)
  }

  /** Fresh tasks. They close a mode only when its task is gone. */
  function AfterLoad(c: Core, tasks: seq<Task>, cursor: Option<Id>): Core {
    var a := Anchor(c);
    Core(tasks, cursor,
         if a.Some? && a.value !in MapOf(tasks) then List else c.mode,
         if c.inFlight.Refreshing? then Idle else c.inFlight)
  }

  function AfterCreate(c: Core, t: Task, cursor: Option<Id>): Core {
    Core(Merge(c.tasks, [t]), cursor, Field(PriorityField), if c.inFlight.Creating? then Idle else c.inFlight)
  }

  function AfterCommit(c: Core, saved: seq<Task>, cursor: Option<Id>): Core {
    Core(Merge(c.tasks, saved), cursor, c.mode, if c.inFlight.Committing? then Idle else c.inFlight)
  }

  function AfterConflict(c: Core, current: seq<Task>, cursor: Option<Id>): Core {
    Restored(c).(tasks := Merge(c.tasks, current), cursor := cursor)
  }

  function SharedEvent(c: Core, ev: Event, env: Env): Outcome {
    match ev
    case Resize(_) => Stay(Settled(c, env))
    case TasksLoaded(tasks) => Stay(AfterLoad(c, tasks, env.cursor))
    case CreateOk(t) => Stay(AfterCreate(c, t, env.cursor))
    case DeleteOk => Outcome(if c.inFlight.Deleting? then c.(inFlight := Refreshing) else c, Fetch)
    case CommitOk(saved) => Stay(AfterCommit(c, saved, env.cursor))
    case Conflicted(current) => Stay(AfterConflict(c, current, env.cursor))
    case RequestFailed => Stay(Restored(c))
    case _ => Stay(c)
  }

  // ----- the list -----------------------------------------------------------------------

  function IsChar(k: Key, ch: char): bool { k == Char(ch as nat) }

  /** Closing is what the key is for; pressed on a closed task it reopens it. */
  function NextStatus(s: Status): (r: Status)
    ensures r.Terminal() <==> !s.Terminal()
    ensures r.Valid()
  {
    if s.Terminal() then Todo else Done
  }

  function CycleStatus(c: Core): Outcome {
    if c.Busy() || c.cursor.None? then Stay(c)
    else
      var target := Stored(c, c.cursor.value);
      if target.None? then Stay(c)
      else
        var t := target.value;
        var content := ApplyPatch(t.content, NO_PATCH.(status := Set(NextStatus(t.content.status))));
        Outcome(c.(inFlight := Committing(c.cursor.value, StatusField, External(None))),
                Commit(c.cursor.value, t.meta.version, content))
  }

  function ListMode(c: Core, ev: Event, env: Env): Outcome {
    if !ev.Press? then SharedEvent(c, ev, env)
    else
      var k := ev.key;
      if IsChar(k, 'q') then Outcome(c, Quit)
      else if IsChar(k, ' ') then CycleStatus(c)
      else if IsChar(k, 'a') then Stay(if c.Busy() then c else c.(mode := AddPrompt(Opened(""))))
      else if IsChar(k, '/') then Stay(if c.Busy() then c else c.(mode := FilterPrompt(Opened(""))))
      else if IsChar(k, 'x') then
        Stay(if c.Busy() || c.cursor.None? then c else c.(mode := ConfirmDelete(c.cursor.value)))
      else if IsChar(k, 'R') then
        if c.Busy() then Stay(c) else Outcome(c.(inFlight := Refreshing), Fetch)
      else if k.Enter? then
        Stay(if c.cursor.None? then c else Settled(c.(mode := Field(Title)), env))
      else if Moves(k) then Stay(Settled(c, env))
      else Stay(c)
  }

  /** Keys that only move the cursor, fold, page, toggle the pane or clear the filter. */
  predicate Moves(k: Key) {
    || IsChar(k, 'j') || IsChar(k, 'k') || IsChar(k, 'l') || IsChar(k, 'h') || IsChar(k, 'g') || IsChar(k, 'G')
    || k.Down? || k.Up? || k.Right? || k.Left? || k.CtrlD? || k.CtrlU? || k.Tab? || k.Escape?
  }

  // ----- fields and editors -------------------------------------------------------------

  function FieldIndex(f: FieldId): (i: int)
    ensures 0 <= i < 7
  {
    match f case Title => 0 case Description => 1 case StatusField => 2 case PriorityField => 3
            case DueField => 4 case ScheduledField => 5 case TagsField => 6
  }

  function FieldAt(i: int): (f: FieldId)
    ensures FieldIndex(f) == Clamp(i, 0, 6)
  {
    if i <= 0 then Title else if i == 1 then Description else if i == 2 then StatusField
    else if i == 3 then PriorityField else if i == 4 then DueField else if i == 5 then ScheduledField else TagsField
  }

  function StepField(f: FieldId, delta: int): (g: FieldId)
    ensures FieldIndex(g) == Clamp(FieldIndex(f) + delta, 0, 6)
  {
    FieldAt(FieldIndex(f) + delta)
  }

  function OpenOnCursor(c: Core, f: FieldId, env: Env): Outcome {
    if c.cursor.None? then Stay(c)
    else
      var id := c.cursor.value;
      var target := Stored(c, id);
      var content := if target.Some? then target.value.content else NO_CONTENT;
      Outcome(c.(mode := Editing(id, f, OpenOn(content, f, env.offset))),
              if f.Description? then OpenEditor(id, content.description) else Nothing)
  }

  function FieldMode(c: Core, f: FieldId, ev: Event, env: Env): Outcome {
    if !ev.Press? then SharedEvent(c, ev, env)
    else match ev.key
      case Up => Stay(c.(mode := Field(StepField(f, -1))))
      case Down => Stay(c.(mode := Field(StepField(f, 1))))
      case Enter => if c.Busy() then Stay(c) else OpenOnCursor(c, f, env)
      case Escape => Stay(Settled(c.(mode := List), env))
      case _ => Stay(c)
  }

  /** The tail of every commit: the editor moves from the screen to the request. */
  function FinishCommit(c: Core, id: Id, f: FieldId, ed: Editor, patch: Patch, target: Task): Outcome {
    var content := ApplyPatch(target.content, patch);
    if content.title == "" then Stay(c)
    else
      Outcome(c.(mode := Field(f), inFlight := Committing(id, f, ed)),
              Commit(id, target.meta.version, content))
  }

  /** Enter: the open editor's change against the stored copy of its own task. */
  function CommitEdit(c: Core, id: Id, f: FieldId, ed: Editor, env: Env): Outcome {
    if c.Busy() || ed == External(None) then Stay(c)
    else
      var target, patch := Stored(c, id), PatchOf(f, ed, env.now, env.offset);
      if target.None? || patch.None? then Stay(c)
      else FinishCommit(c, id, f, ed, patch.value, target.value)
  }

  /** $EDITOR came back; its text is kept in the editor and committed at once. */
  function TakeBack(c: Core, id: Id, f: FieldId, text: Option<string>, env: Env): Outcome {
    if text.None? then Stay(c.(mode := Field(f)))
    else if c.Busy() then Stay(c)
    else
      var ed := External(text);
      CommitEdit(c.(mode := Editing(id, f, ed)), id, f, ed, env)
  }

  function TypeInto(ed: Editor, k: Key): (r: Editor)
    requires ed.Valid()
    ensures r.Valid()
  {
    match ed
    case Line(t) => Line(Typed(t, k))
    case PickOne(p) => PickOne(Rotated(p, k))
    case External(_) => ed
  }

  function EditingMode(c: Core, id: Id, f: FieldId, ed: Editor, ev: Event, env: Env): Outcome
    requires ed.Valid()
  {
    match ev
    case EditorReturned(text) => TakeBack(c, id, f, text, env)
    case Press(k) =>
      if k.Escape? then Stay(c.(mode := Field(f)))
      else if k.Enter? then CommitEdit(c, id, f, ed, env)
      else Stay(c.(mode := Editing(id, f, TypeInto(ed, k))))
    case _ => SharedEvent(c, ev, env)
  }

  // ----- prompts ------------------------------------------------------------------------

  function FilterMode(c: Core, text: Text, ev: Event, env: Env): Outcome
    requires text.Valid()
  {
    if !ev.Press? then SharedEvent(c, ev, env)
    else match ev.key
      case Escape => Stay(c.(mode := List))
      case Enter =>
        if Trim(text.chars, true) != [] && !env.filterOk then Stay(c)
        else Stay(Settled(c.(mode := List), env))
      case k => Stay(c.(mode := FilterPrompt(Typed(text, k))))
  }

  /** The prompt stays open until the server answers, holding what was typed. */
  function AddMode(c: Core, text: Text, ev: Event, env: Env): Outcome
    requires text.Valid()
  {
    if !ev.Press? then SharedEvent(c, ev, env)
    else match ev.key
      case Escape => Stay(c.(mode := List))
      case Enter =>
        var title := Trim(text.chars, true);
        if c.Busy() || title == [] then Stay(c)
        else Outcome(c.(inFlight := Creating(title)), Create(NO_CONTENT.(title := title)))
      case k => Stay(c.(mode := AddPrompt(Typed(text, k))))
  }

  function ConfirmMode(c: Core, id: Id, ev: Event, env: Env): Outcome {
    if !ev.Press? then SharedEvent(c, ev, env)
    else if IsChar(ev.key, 'y') then
      if c.Busy() then Stay(c) else Outcome(c.(mode := List, inFlight := Deleting(id)), Remove(id))
    else if IsChar(ev.key, 'n') || ev.key.Escape? then Stay(c.(mode := List))
    else Stay(c)
  }

  predicate TextsValid(c: Core) {
    && (c.mode.Editing? ==> c.mode.editor.Valid())
    && (c.mode.FilterPrompt? || c.mode.AddPrompt? ==> c.mode.text.Valid())
    && (c.inFlight.Committing? ==> c.inFlight.editor.Valid())
  }

  /** One event. */
  function Update(c: Core, ev: Event, env: Env): (o: Outcome)
    requires TextsValid(c)
  {
    match c.mode
    case List => ListMode(c, ev, env)
    case Field(f) => FieldMode(c, f, ev, env)
    case Editing(id, f, ed) => EditingMode(c, id, f, ed, ev, env)
    case FilterPrompt(text) => FilterMode(c, text, ev, env)
    case AddPrompt(text) => AddMode(c, text, ev, env)
    case ConfirmDelete(id) => ConfirmMode(c, id, ev, env)
  }

  lemma UpdateKeepsTexts(c: Core, ev: Event, env: Env)
    requires TextsValid(c)
    ensures TextsValid(Update(c, ev, env).core)
  {
    hide MapOf, Merge, PatchOf, ApplyPatch, OpenOn, Typed, Rotated, Trim, NextStatus;
  }

  // ----- merging ------------------------------------------------------------------------

  lemma {:induction false} MapOfUpdate(tasks: seq<Task>, i: nat, t: Task)
    requires DistinctTaskIds(tasks) && i < |tasks| && tasks[i].id == t.id
    ensures MapOf(tasks[i := t]) == MapOf(tasks)[t.id := t]
  {
    hide MapOf;
    var n := |tasks| - 1;
    var us := tasks[i := t];
    LastOfMap(tasks);
    LastOfMap(us);
    if i == n {
      assert us[..n] == tasks[..n];
    } else {
      assert us[..n] == tasks[..n][i := t] && us[n] == tasks[n];
      MapOfUpdate(tasks[..n], i, t);
      OverlaysCommute(MapOf(tasks[..n]), tasks[n], t);
    }
  }

  lemma {:induction false} LastOfMap(tasks: seq<Task>)
    requires tasks != []
    ensures MapOf(tasks) == MapOf(tasks[..|tasks| - 1])[tasks[|tasks| - 1].id := tasks[|tasks| - 1]]
  {
  }

  lemma OverlaysCommute(ts: TaskMap, a: Task, b: Task)
    requires a.id != b.id
    ensures ts[b.id := b][a.id := a] == ts[a.id := a][b.id := b]
  {
  }

  lemma MapOfGrows(tasks: seq<Task>, t: Task)
    ensures MapOf(tasks + [t]) == MapOf(tasks)[t.id := t]
  {
    assert (tasks + [t])[..|tasks|] == tasks;
  }

  /** The ids of `longer` begin with those of `tasks`. */
  predicate Extends(tasks: seq<Task>, longer: seq<Task>) {
    |tasks| <= |longer| && forall k :: 0 <= k < |tasks| ==> longer[k].id == tasks[k].id
  }

  lemma MergeOneMaps(tasks: seq<Task>, t: Task)
    requires DistinctTaskIds(tasks)
    ensures DistinctTaskIds(MergeOne(tasks, t)) && Extends(tasks, MergeOne(tasks, t))
    ensures MapOf(MergeOne(tasks, t)) == MapOf(tasks)[t.id := t]
  {
    hide MapOf;
    var i := PositionOf(tasks, t.id);
    if i < |tasks| {
      MapOfUpdate(tasks, i, t);
    } else {
      MapOfGrows(tasks, t);
    }
  }

  /** Merging overwrites exactly the answered ids, adds the unknown ones, and
      moves nothing that was there. */
  lemma {:induction false} MergeIsOverlay(tasks: seq<Task>, incoming: seq<Task>)
    requires DistinctTaskIds(tasks)
    ensures DistinctTaskIds(Merge(tasks, incoming)) && Extends(tasks, Merge(tasks, incoming))
    ensures MapOf(Merge(tasks, incoming)) == MapOf(tasks) + MapOf(incoming)
  {
    hide MapOf, DistinctTaskIds, MergeOne;
    if incoming == [] {
      NoTasks();
    } else {
      var n := |incoming| - 1;
      var t := incoming[n];
      assert incoming == incoming[..n] + [t];
      MapOfGrows(incoming[..n], t);
      MergeIsOverlay(tasks, incoming[..n]);
      MergeOneMaps(Merge(tasks, incoming[..n]), t);
      assert (MapOf(tasks) + MapOf(incoming[..n]))[t.id := t] == MapOf(tasks) + MapOf(incoming[..n])[t.id := t];
    }
  }

  lemma NoTasks()
    ensures MapOf([]) == map[]
  {
  }
}
