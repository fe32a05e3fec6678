/** The keys of the terminal client, mode by mode, and the replies, each by what a
    user sees happen. */
module Keys {
  import opened Tasks
  import opened Walks
  import opened LineEditor
  import opened Pieces
  import opened Edits
  import opened TuiCore
  import opened Cursor
  import opened Screen
  import Ledger
  import Scoring

  function Letter(ch: char): Key { Char(ch as nat) }

  const MOVEMENT: set<Key> := {Down, Up, Left, Right, CtrlD, CtrlU, Tab, Escape, Letter('j'), Letter('k'), Letter('h'),
    Letter('l'), Letter('g'), Letter('G')}

  /** In the list. While a request is out nothing is asked for and no prompt opens. */
  lemma ListKeys(c: Core, k: Key, env: Env)
    requires TextsValid(c) && c.mode == List
    ensures var o := TuiCore.Update(c, Press(k), env);
      var idle := c.inFlight == Idle;
      && (k == Letter('q') ==> o == Outcome(c, Quit))
      && (k == Letter('R') ==> o == if idle then Outcome(c.(inFlight := Refreshing), Fetch) else Outcome(c, Nothing))
      && (k == Letter('a') ==> o == Outcome(if idle then c.(mode := AddPrompt(Text("", 0))) else c, Nothing))
      && (k == Letter('/') ==> o == Outcome(if idle then c.(mode := FilterPrompt(Text("", 0))) else c, Nothing))
      && (k == Letter('x') ==>
            o == Outcome(if idle && c.cursor.Some? then c.(mode := ConfirmDelete(c.cursor.value)) else c, Nothing))
      && (k == Enter ==>
            o == Outcome(if c.cursor.Some? then c.(mode := Field(Title), cursor := env.cursor) else c, Nothing))
      && (k in MOVEMENT ==> o == Outcome(c.(cursor := env.cursor), Nothing))
      && (k !in MOVEMENT + {Enter, Letter('q'), Letter('R'), Letter('a'), Letter('/'), Letter('x'), Letter(' ')} ==>
            o == Outcome(c, Nothing))
  {
    hide TuiCore.CycleStatus, TuiCore.SharedEvent, TextsValid, FieldMode, EditingMode, FilterMode, AddMode, ConfirmMode;
  }

  const FIELDS: seq<FieldId> :=
    [Title, Description, StatusField, PriorityField, DueField, ScheduledField, TagsField]

  lemma StepsAre(i: nat)
    requires i < 7
    ensures StepField(FIELDS[i], 1) == FIELDS[if i < 6 then i + 1 else 6]
    ensures StepField(FIELDS[i], -1) == FIELDS[if i > 0 then i - 1 else 0]
  {
  }

  /** On the fields of the pane, which stand in this order from the top. */
  lemma FieldKeys(c: Core, i: nat, k: Key, env: Env)
    requires TextsValid(c) && i < 7 && c.mode == Field(FIELDS[i])
    ensures var o := TuiCore.Update(c, Press(k), env);
      && (k == Down ==> o == Outcome(c.(mode := Field(FIELDS[if i < 6 then i + 1 else 6])), Nothing))
      && (k == Up ==> o == Outcome(c.(mode := Field(FIELDS[if i > 0 then i - 1 else 0])), Nothing))
      && (k == Escape ==> o == Outcome(c.(mode := List, cursor := env.cursor), Nothing))
      && (k == Enter ==> o == if c.inFlight == Idle then OpenOnCursor(c, FIELDS[i], env) else Outcome(c, Nothing))
      && (k !in {Down, Up, Escape, Enter} ==> o == Outcome(c, Nothing))
  {
    hide OpenOnCursor, TuiCore.SharedEvent, TextsValid, TuiCore.ListMode, EditingMode, FilterMode, AddMode, ConfirmMode,
      StepField;
    StepsAre(i);
  }

  /** What opens on the task under the cursor: the text of the field with the cursor
      at its end, the entry of the picker that says the status or the priority, or
      $EDITOR with the description. */
  lemma EditorsOpen(c: Core, f: FieldId, env: Env)
    requires c.cursor.Some? && Stored(c, c.cursor.value).Some?
    ensures var o, t := OpenOnCursor(c, f, env), Stored(c, c.cursor.value).value.content;
      var ed := match f
        case Title => Line(Text(t.title, |t.title|))
        case Description => External(None)
        case StatusField =>
          PickOne(Picker(4, if t.status == InProgress then 1 else if t.status == Done then 2
                            else if t.status == Cancelled then 3 else 0))
        case PriorityField =>
          PickOne(Picker(4, if t.priority == Low then 1 else if t.priority == Medium then 2
                            else if t.priority == High then 3 else 0))
        case DueField => Line(Opened(DateText(t.dueAt, env.offset)))
        case ScheduledField => Line(Opened(DateText(t.scheduledAt, env.offset)))
        case TagsField => Line(Opened(JoinedBy(t.tags, ",")));
      && o.core == c.(mode := Editing(c.cursor.value, f, ed))
      && o.cmd == if f == Description then OpenEditor(c.cursor.value, t.description) else Nothing
  {
    hide Stored, DateText, JoinedBy;
  }

  /** ... and what the entry of a picker stands for when it is committed. */
  lemma PickersSay(p: Picker, now: int, offset: int)
    requires p.index < 4
    ensures PatchOf(StatusField, PickOne(p), now, offset)
      == Some(NO_PATCH.(status := Set([Todo, InProgress, Done, Cancelled][p.index])))
    ensures PatchOf(PriorityField, PickOne(p), now, offset)
      == Some(NO_PATCH.(priority := Set([NoPriority, Low, Medium, High][p.index])))
  {
  }

  /** Deleting is confirmed with y and called off with n or Escape. */
  lemma ConfirmKeys(c: Core, id: Id, k: Key, env: Env)
    requires TextsValid(c) && c.mode == ConfirmDelete(id)
    ensures TuiCore.Update(c, Press(k), env) ==
      if k == Letter('y') && c.inFlight == Idle then Outcome(c.(mode := List, inFlight := Deleting(id)), Remove(id))
      else if k in {Letter('n'), Escape} then Outcome(c.(mode := List), Nothing)
      else Outcome(c, Nothing)
  {
  }

  /** The prompt for a new task: what is typed, without the blanks around it, becomes
      the title of a task that has nothing else yet. */
  lemma AddKeys(c: Core, text: Text, k: Key, env: Env)
    requires TextsValid(c) && c.mode == AddPrompt(text)
    ensures var o := TuiCore.Update(c, Press(k), env);
      && (k == Escape ==> o == Outcome(c.(mode := List), Nothing))
      && (k == Enter && (c.inFlight != Idle || AllBlank(Blank(true), text.chars)) ==> o == Outcome(c, Nothing))
      && (k == Enter && c.inFlight == Idle && !AllBlank(Blank(true), text.chars) ==>
            && o.core.inFlight.Creating? && Strips(Blank(true), text.chars, o.core.inFlight.title)
            && o.core == c.(inFlight := o.core.inFlight)
            && o.cmd == Create(Content(o.core.inFlight.title, "", Todo, NoPriority, [], [], None, None)))
      && (k !in {Escape, Enter} ==> o == Outcome(c.(mode := AddPrompt(Typed(text, k))), Nothing))
  {
    hide Trim, Typed, Strips, AllBlank, Blank;
    TrimStrips(text.chars, true);
  }

  /** Every other key goes to the editor, and to nothing but the editor. */
  lemma EditorKeys(c: Core, id: Id, f: FieldId, ed: Editor, k: Key, env: Env)
    requires TextsValid(c) && c.mode == Editing(id, f, ed) && k != Enter
    ensures TuiCore.Update(c, Press(k), env) == Outcome(c.(mode :=
      if k == Escape then Field(f)
      else match ed
        case Line(text) => Editing(id, f, Line(Typed(text, k)))
        case PickOne(p) => Editing(id, f, PickOne(Rotated(p, k)))
        case External(_) => c.mode), Nothing)
  {
    hide Typed, Rotated;
  }

  /** The replies, while a mode is open that is not waiting for $EDITOR. */
  lemma RepliesDo(c: Core, ev: Event, env: Env)
    requires TextsValid(c) && !ev.Press? && !ev.EditorReturned?
    ensures var o := TuiCore.Update(c, ev, env);
      match ev
      case CommitOk(saved) => o == Outcome(Core(Merge(c.tasks, saved), env.cursor, c.mode,
        if c.inFlight.Committing? then Idle else c.inFlight), Nothing)
      case CreateOk(t) => o == Outcome(Core(Merge(c.tasks, [t]), env.cursor, Field(PriorityField),
        if c.inFlight.Creating? then Idle else c.inFlight), Nothing)
      case DeleteOk => o == Outcome(c.(inFlight := if c.inFlight.Deleting? then Refreshing else c.inFlight), Fetch)
      case RequestFailed => o == Outcome(c.(mode := Reopened(c), inFlight := Idle), Nothing)
      case Conflicted(current) => o == Outcome(Core(Merge(c.tasks, current), env.cursor, Reopened(c), Idle), Nothing)
      case TasksLoaded(tasks) =>
        && o.core.tasks == tasks && o.core.cursor == env.cursor && o.cmd == Nothing
        && o.core.inFlight == (if c.inFlight == Refreshing then Idle else c.inFlight)
        && o.core.mode ==
          if || ((c.mode.Editing? || c.mode.ConfirmDelete?) && c.mode.id !in MapOf(tasks))
             || (c.mode.Field? && c.cursor.Some? && c.cursor.value !in MapOf(tasks)) then List else c.mode
      case _ => o == Outcome(c.(cursor := env.cursor), Nothing)
  {
    hide Merge, MapOf;
  }

  /** The editor whose commit is out, if it was one. */
  function Reopened(c: Core): Mode {
    if c.inFlight.Committing? && c.inFlight.editor != External(None)
    then Editing(c.inFlight.id, c.inFlight.field, c.inFlight.editor) else c.mode
  }

  // ----- moving ---------------------------------------------------------------------------

  /** Nothing between the two rows can be selected. */
  predicate Between(rows: seq<Ledger.Row>, i: int, j: int) {
    forall m :: i < m < j ==> !Selectable(rows, m)
  }

  /** Down and j lead to the nearest row below that can be selected, up and k to the
      one above, g to the first and G to the last. */
  lemma MovementKeys(p: Spot, k: Key, q: Spot, i: nat)
    requires Follows(p, List, Press(k), q) && Selectable(p.rows, i) && Ledger.Shows(q.rows, p.rows[i].id)
    requires
      || (k in {Down, Letter('j')} && p.cursor.Some? && p.anchor < i && Between(p.rows, p.anchor, i))
      || (k in {Up, Letter('k')} && p.cursor.Some? && i < p.anchor && Between(p.rows, i, p.anchor))
      || (k == Letter('g') && Between(p.rows, -1, i))
      || (k == Letter('G') && Between(p.rows, i, |p.rows|))
    ensures q.cursor == Some(p.rows[i].id)
  {
    var go := TravelOf(k).value;
    assert Leads(p, go, i);
    Landed(p, go, i, q);
  }

  lemma Landed(p: Spot, go: Travel, i: nat, q: Spot)
    requires Travelled(p, go, q) && Leads(p, go, i) && Ledger.Shows(q.rows, p.rows[i].id)
    ensures q.cursor == Some(p.rows[i].id)
  {
    var j :| Leads(p, go, j) && Arrives(p.anchor, Some(p.rows[j].id), j, q);
    LeadsIsUnique(p, go, i, j);
  }

  /** A page key leads to the row half the height of the list away, when that row is
      there and can be selected. */
  lemma PageKeys(p: Spot, k: Key, q: Spot, i: nat)
    requires Follows(p, List, Press(k), q) && p.cursor.Some? && p.height >= 2
    requires Selectable(p.rows, i) && Selectable(p.rows, p.anchor) && Ledger.Shows(q.rows, p.rows[i].id)
    requires (k == CtrlD && i == p.anchor + p.height / 2) || (k == CtrlU && i == p.anchor - p.height / 2)
    ensures q.cursor == Some(p.rows[i].id)
  {
    var go := TravelOf(k).value;
    assert Leads(p, go, i);
    Landed(p, go, i, q);
  }

  // ----- the view ---------------------------------------------------------------------------

  const NO_FILTERS: Scoring.Filters := Scoring.Filters([], [], false)

  /** Right and Left set the fold of the task under the cursor, a new size is the
      size of the viewport, and nothing else changes either. */
  lemma FoldsChange(s: Settings, c: Core, ev: Event, parsed: Option<Scoring.Filters>)
    ensures var t := Adjusted(s, c, ev, parsed);
      && t.strategy == s.strategy
      && t.viewport == (if ev.Resize? then ev.rows else s.viewport)
      && t.folds ==
        if c.mode == List && c.cursor.Some? && ev in {Press(Right), Press(Letter('l'))} then
          s.folds[c.cursor.value := true]
        else if c.mode == List && c.cursor.Some? && ev in {Press(Left), Press(Letter('h'))} then
          s.folds[c.cursor.value := false]
        else s.folds
  {
    hide Filtered;
    if c.mode.FilterPrompt? && ev == Press(Enter) { FilteredKeeps(s, c.mode.text, parsed); }
  }

  /** Tab toggles the pane, Enter on a task and a new task open it, Escape on its
      fields closes it. In the list Escape takes the filter off; only the filter's
      own prompt can put one on. */
  lemma PaneChanges(s: Settings, c: Core, ev: Event, parsed: Option<Scoring.Filters>)
    ensures var t := Adjusted(s, c, ev, parsed);
      && t.paneOpen ==
        (if c.mode == List && ev == Press(Tab) then !s.paneOpen
         else if ev.CreateOk? || (c.mode == List && c.cursor.Some? && ev == Press(Enter)) then true
         else if c.mode.Field? && ev == Press(Escape) then false
         else s.paneOpen)
      && (c.mode == List && ev == Press(Escape) ==> !t.filtering && (s.filtering ==> t.filters == NO_FILTERS))
      && ((t.filters == s.filters && t.filtering == s.filtering)
          || (c.mode == List && ev == Press(Escape)) || (c.mode.FilterPrompt? && ev == Press(Enter)))
  {
    hide Filtered;
    if c.mode.FilterPrompt? && ev == Press(Enter) { FilteredKeeps(s, c.mode.text, parsed); }
  }

  lemma FilteredKeeps(s: Settings, text: Text, parsed: Option<Scoring.Filters>)
    ensures Filtered(s, text, parsed) ==
      s.(filters := Filtered(s, text, parsed).filters, filtering := Filtered(s, text, parsed).filtering)
  {
    hide Trim;
  }

  /** Enter in the filter prompt: blanks take the filter off, what the parser accepts
      becomes the filter, and anything else changes nothing. */
  lemma FilterKeys(s: Settings, c: Core, text: Text, parsed: Option<Scoring.Filters>, env: Env)
    requires TextsValid(c) && c.mode == FilterPrompt(text) && env.filterOk == parsed.Some?
    ensures var t, o := Adjusted(s, c, Press(Enter), parsed), TuiCore.Update(c, Press(Enter), env);
      if AllBlank(Blank(true), text.chars) then
        !t.filtering && (s.filtering ==> t.filters == NO_FILTERS) && o.core == c.(mode := List, cursor := env.cursor)
      else if parsed.Some? then
        t.filtering && t.filters == parsed.value && o.core == c.(mode := List, cursor := env.cursor)
      else t == s && o == Outcome(c, Nothing)
    ensures TuiCore.Update(c, Press(Escape), env) == Outcome(c.(mode := List), Nothing)
    ensures forall k :: k !in {Enter, Escape} ==>
      TuiCore.Update(c, Press(k), env) == Outcome(c.(mode := FilterPrompt(Typed(text, k))), Nothing)
  {
    hide Trim, Typed, Strips, AllBlank, Blank;
    TrimStrips(text.chars, true);
  }
}
