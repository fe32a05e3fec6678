/** Runs of the terminal client: keys, resizes and returned editor texts at any
    time, and one reply for every request that is out. */
module TuiRuns {
  import opened Tasks
  import opened Walks
  import opened LineEditor
  import opened Edits
  import opened TuiCore
  import StoreSpec
  import StoreRuns

  datatype Request =
    | FetchReq
    | CommitReq(id: Id, expectedVersion: nat, content: Content)
    | CreateReq(content: Content)
    | DeleteReq(id: Id)

  /** A run of $EDITOR whose result has not reached the handler: its text, or, when
      it would not start and that has been reported as a cancel, the complaint. */
  datatype Session = Running(id: Id) | Complaint

  /** The sessions in the order their results are queued. */
  datatype Sys = Sys(core: Core, outstanding: seq<Request>, sessions: seq<Session>)

  /** A key or a resize; what the oldest $EDITOR gave back, or that it would not
      start, and then the shell's complaint, which reaches the handler as a failed
      request though no request failed; a reply. */
  datatype Action =
    | User(ev: Event)
    | Returned(text: Option<string>)
    | EditorBroke
    | Complained
    | Reply(i: nat, ev: Event)

  datatype Step = Step(action: Action, env: Env)

  predicate Answers(r: Request, ev: Event) {
    || ev.RequestFailed?
    || match r
       case FetchReq => ev.TasksLoaded?
       case CommitReq(_, _, _) => ev.CommitOk? || ev.Conflicted?
       case CreateReq(_) => ev.CreateOk?
       case DeleteReq(_) => ev.DeleteOk?
  }

  predicate Possible(s: Sys, a: Action) {
    match a
    case User(ev) => ev.Press? || ev.Resize?
    case Returned(_) => s.sessions != [] && s.sessions[0].Running?
    case EditorBroke => s.sessions != [] && s.sessions[0].Running?
    case Complained => s.sessions != [] && s.sessions[0].Complaint?
    case Reply(i, ev) => i < |s.outstanding| && Answers(s.outstanding[i], ev)
  }

  function Asked(cmd: Command): seq<Request> {
    match cmd
    case Fetch => [FetchReq]
    case Commit(id, v, content) => [CommitReq(id, v, content)]
    case Create(content) => [CreateReq(content)]
    case Remove(id) => [DeleteReq(id)]
    case _ => []
  }

  function EventOf(a: Action): Event {
    match a
    case User(ev) => ev
    case Returned(text) => EditorReturned(text)
    case EditorBroke => EditorReturned(None)
    case Complained => RequestFailed
    case Reply(_, ev) => ev
  }

  function Handled(s: Sys, st: Step): Outcome {
    if TextsValid(s.core) then Update(s.core, EventOf(st.action), st.env) else Stay(s.core)
  }

  /** The sessions left once an action has taken its part of the queue. */
  function Remaining(sessions: seq<Session>, a: Action): seq<Session> {
    if sessions == [] then []
    else match a
      case Returned(_) => sessions[1..]
      case EditorBroke => [Complaint] + sessions[1..]
      case Complained => sessions[1..]
      case _ => sessions
  }

  function Started(cmd: Command): seq<Session> {
    if cmd.OpenEditor? then [Running(cmd.id)] else []
  }

  /** The handler runs; a reply leaves the requests that are out, a command joins
      them. */
  function Next(s: Sys, st: Step): Sys {
    var o := Handled(s, st);
    var rest := if st.action.Reply? && st.action.i < |s.outstanding|
      then s.outstanding[..st.action.i] + s.outstanding[st.action.i + 1..] else s.outstanding;
    Sys(o.core, rest + Asked(o.cmd), Remaining(s.sessions, st.action) + Started(o.cmd))
  }

  // ----- one request at a time ------------------------------------------------------------

  predicate Matches(f: InFlight, out: seq<Request>) {
    match f
    case Idle => out == []
    case Committing(id, _, _) => |out| == 1 && out[0].CommitReq? && out[0].id == id
    case Creating(title) => out == [CreateReq(NO_CONTENT.(title := title))]
    case Deleting(id) => out == [DeleteReq(id)]
    case Refreshing => out == [FetchReq]
  }

  /** While a request is out nothing is being typed, except into the prompt of
      the very task being created. */
  predicate Quiet(c: Core) {
    c.Busy() ==> c.mode.List? || c.mode.Field? || (c.mode.AddPrompt? && c.inFlight.Creating?)
  }

  predicate Inv(s: Sys) {
    TextsValid(s.core) && Matches(s.core.inFlight, s.outstanding) && Quiet(s.core)
  }

  /** The start: the shell has asked for the tasks. */
  const START: Sys := Sys(Core([], None, List, Refreshing), [FetchReq], [])

  lemma CommandsMatch(c: Core, ev: Event, env: Env)
    requires TextsValid(c) && Quiet(c)
    requires c.Busy() ==> ev.Press? || ev.Resize? || ev.EditorReturned?
    requires !c.Busy() ==> ev.Press? || ev.Resize? || ev.EditorReturned? || ev.RequestFailed?
    ensures var o := Update(c, ev, env);
      && Quiet(o.core)
      && (c.Busy() ==> o.core.inFlight == c.inFlight && Asked(o.cmd) == [])
      && (!c.Busy() ==> Matches(o.core.inFlight, Asked(o.cmd)))
  {
    hide MapOf, Merge, PatchOf, OpenOn, Trim, Rotated, Typed, ApplyPatch;
  }

  lemma RepliesMatch(c: Core, out: seq<Request>, ev: Event, env: Env)
    requires TextsValid(c) && Quiet(c) && Matches(c.inFlight, out) && |out| == 1 && Answers(out[0], ev)
    ensures var o := Update(c, ev, env); Quiet(o.core) && Matches(o.core.inFlight, Asked(o.cmd))
  {
    hide MapOf, Merge, PatchOf, OpenOn, Trim, Rotated, Typed, ApplyPatch;
  }

  /** Every step keeps the rule of one request at a time, save exactly one: the
      complaint about a broken $EDITOR arriving while a request is out. */
  lemma StepKeepsInvIff(s: Sys, st: Step)
    requires Inv(s) && Possible(s, st.action)
    ensures Inv(Next(s, st)) <==> !(st.action.Complained? && s.core.Busy())
  {
    hide Update, TextsValid, Quiet;
    UpdateKeepsTexts(s.core, EventOf(st.action), st.env);
    if st.action.Complained? {
      ComplaintKeepsInvIff(s, st);
    } else if st.action.Reply? {
      var i := st.action.i;
      assert s.outstanding[..i] + s.outstanding[i + 1..] == [];
      RepliesMatch(s.core, s.outstanding, st.action.ev, st.env);
    } else {
      CommandsMatch(s.core, EventOf(st.action), st.env);
    }
  }

  lemma ComplaintKeepsInvIff(s: Sys, st: Step)
    requires Inv(s) && Possible(s, st.action) && st.action.Complained?
    ensures Inv(Next(s, st)) <==> !s.core.Busy()
  {
    hide Update, Quiet, Restored, TextsValid;
    UpdateKeepsTexts(s.core, RequestFailed, st.env);
    if s.core.Busy() {
      FailureFrees(s.core, st.env);
    } else {
      CommandsMatch(s.core, RequestFailed, st.env);
    }
  }

  lemma FailureFrees(c: Core, env: Env)
    requires TextsValid(c)
    ensures Update(c, RequestFailed, env) == Stay(Restored(c))
    ensures Restored(c).inFlight == Idle
  {
    hide MapOf, Merge, PatchOf, ApplyPatch, OpenOn, Typed, Rotated, Trim, TextsValid;
  }

  /** And then the next key can put a second request beside the first. */
  lemma ComplaintAllowsTwo(s: Sys, env: Env)
    requires Inv(s) && s.core.Busy() && s.core.mode.List? && !s.core.inFlight.Committing? && Possible(s, Complained)
    requires s.core.cursor.Some? && Stored(s.core, s.core.cursor.value).Some?
    ensures |Next(Next(s, Step(Complained, env)), Step(User(Press(Char(' ' as nat))), env)).outstanding| == 2
  {
    hide Update, MapOf, TextsValid;
    var mid := Next(s, Step(Complained, env));
    TextsAfterFailure(s.core);
    FailureFrees(s.core, env);
    assert mid.core == s.core.(inFlight := Idle) && |mid.outstanding| == 1;
    SpaceCycles(mid.core, env);
  }

  lemma TextsAfterFailure(c: Core)
    requires TextsValid(c) && !c.inFlight.Committing?
    ensures Restored(c) == c.(inFlight := Idle) && TextsValid(c.(inFlight := Idle))
  {
  }

  lemma SpaceCycles(c: Core, env: Env)
    requires TextsValid(c) && c.mode.List?
    ensures Update(c, Press(Char(' ' as nat)), env) == CycleStatus(c)
  {
    hide MapOf, Merge, PatchOf, ApplyPatch, OpenOn, Typed, Rotated, Trim, TextsValid, SharedEvent, CycleStatus;
  }

  // ----- runs -----------------------------------------------------------------------------

  ghost function Run(s: Sys, trace: seq<Step>): Sys {
    if trace == [] then s else Next(Run(s, trace[..|trace| - 1]), trace[|trace| - 1])
  }

  ghost predicate CanHappen(s: Sys, trace: seq<Step>) {
    trace == [] ||
    (CanHappen(s, trace[..|trace| - 1]) && Possible(Run(s, trace[..|trace| - 1]), trace[|trace| - 1].action))
  }

  /** What can happen, and no complaint meets a request that is out. */
  ghost predicate Fair(s: Sys, trace: seq<Step>) {
    trace == [] ||
    (var before, last := Run(s, trace[..|trace| - 1]), trace[|trace| - 1];
     Fair(s, trace[..|trace| - 1]) && Possible(before, last.action) && !(last.action.Complained? && before.core.Busy()))
  }

  lemma {:induction false} RunKeepsInv(s: Sys, trace: seq<Step>)
    requires Inv(s) && Fair(s, trace)
    ensures Inv(Run(s, trace))
  {
    if trace != [] {
      var n := |trace| - 1;
      RunKeepsInv(s, trace[..n]);
      StepKeepsInvIff(Run(s, trace[..n]), trace[n]);
    }
  }

  lemma QuietStep(c: Core, ev: Event, env: Env)
    requires TextsValid(c) && Quiet(c)
    ensures Quiet(Update(c, ev, env).core)
  {
    hide MapOf, Merge, PatchOf, OpenOn, Trim, Rotated, Typed, ApplyPatch, Anchor;
  }

  lemma StartIsValid()
    ensures TextsValid(START.core) && Quiet(START.core)
  {
  }

  lemma OnlyUsersPress(s: Sys, a: Action)
    requires Possible(s, a) && EventOf(a).Press?
    ensures a == User(EventOf(a))
  {
  }

  lemma {:induction false} RunKeepsTexts(s: Sys, trace: seq<Step>)
    requires TextsValid(s.core)
    ensures TextsValid(Run(s, trace).core)
  {
    hide Update, TextsValid;
    if trace != [] {
      var n := |trace| - 1;
      RunKeepsTexts(s, trace[..n]);
      UpdateKeepsTexts(Run(s, trace[..n]).core, EventOf(trace[n].action), trace[n].env);
    }
  }

  /** In every run, whatever has gone wrong: while the client waits for something no
      editor, filter or confirmation is open, and nothing is being typed but the
      title of the task it is creating. */
  lemma {:induction false} RunStaysQuiet(s: Sys, trace: seq<Step>)
    requires TextsValid(s.core) && Quiet(s.core)
    ensures TextsValid(Run(s, trace).core) && Quiet(Run(s, trace).core)
  {
    hide Update, TextsValid, Quiet;
    RunKeepsTexts(s, trace);
    if trace != [] {
      var n := |trace| - 1;
      RunStaysQuiet(s, trace[..n]);
      QuietStep(Run(s, trace[..n]).core, EventOf(trace[n].action), trace[n].env);
    }
  }

  /** From the start on, however the keys and replies fall, as long as no complaint
      meets a request that is out: at most one request is out, and the client knows
      which. */
  lemma OneRequestAtATime(trace: seq<Step>)
    requires Fair(START, trace)
    ensures var s := Run(START, trace);
      |s.outstanding| <= 1 && Matches(s.core.inFlight, s.outstanding)
  {
    RunKeepsInv(START, trace);
  }

  lemma Extend(s: Sys, trace: seq<Step>, st: Step) returns (t: Sys)
    requires CanHappen(s, trace) && Possible(Run(s, trace), st.action)
    ensures t == Next(Run(s, trace), st) == Run(s, trace + [st]) && CanHappen(s, trace + [st])
  {
    assert (trace + [st])[..|trace|] == trace;
    t := Next(Run(s, trace), st);
  }

  /** The keys of the runs below, one by one. */
  lemma KeyEffects(c: Core, env: Env)
    requires TextsValid(c)
    ensures c.mode.List? && c.cursor.Some? ==>
      Update(c, Press(Enter), env) == Stay(c.(mode := Field(Title), cursor := env.cursor))
    ensures c.mode.List? ==> Update(c, Press(Char('j' as nat)), env) == Stay(c.(cursor := env.cursor))
    ensures c.mode.List? && !c.Busy() ==>
      Update(c, Press(Char('R' as nat)), env) == Outcome(c.(inFlight := Refreshing), Fetch)
    ensures c.mode == Field(Title) ==> Update(c, Press(Down), env) == Stay(c.(mode := Field(Description)))
    ensures c.mode.Field? ==> Update(c, Press(Escape), env) == Stay(c.(mode := List, cursor := env.cursor))
    ensures c.mode.Field? && !c.Busy() ==> Update(c, Press(Enter), env) == OpenOnCursor(c, c.mode.field, env)
    ensures c.mode.Editing? ==> Update(c, Press(Escape), env) == Stay(c.(mode := Field(c.mode.field)))
    ensures c.mode.List? ==> Update(c, EditorReturned(None), env) == Stay(c)
  {
    hide MapOf, Merge, PatchOf, OpenOn, Trim, Rotated, Typed, ApplyPatch;
  }

  lemma DescriptionOpens(c: Core, env: Env)
    requires c.cursor.Some? && !c.Busy()
    ensures var o := OpenOnCursor(c, Description, env);
      && o.core == c.(mode := Editing(c.cursor.value, Description, External(None)))
      && o.cmd.OpenEditor? && o.cmd.id == c.cursor.value
      && (Stored(c, c.cursor.value).Some? ==> o.cmd.initial == Stored(c, c.cursor.value).value.content.description)
  {
    hide MapOf;
  }

  /** That is within reach of a user: with `t` loaded, Enter, Down and Enter start
      $EDITOR on its description; Escape, Escape and 'R' are waiting in the queue;
      $EDITOR turns out not to start; and space then commits beside the refresh. */
  lemma TwoRequestsCanBeOut(t: Task, env: Env) returns (trace: seq<Step>)
    ensures CanHappen(START, trace) && |Run(START, trace).outstanding| == 2
  {
    hide Run, CanHappen, Update, Next, Possible, MapOf, Stored, TextsValid, Quiet;
    var on := env.(cursor := Some(t.id));
    trace := Loaded(t, on);
    trace := EditorLeftOpen(trace, t, on);
    trace := RefreshThenComplaint(trace, t, on);
    var s := Run(START, trace);
    ComplaintDue(s, t, on);
    var mid := Extend(START, trace, Step(Complained, on));
    trace := trace + [Step(Complained, on)];
    KeysAndResizes(mid, Press(Char(' ' as nat)));
    var end := Extend(START, trace, Step(User(Press(Char(' ' as nat))), on));
    trace := trace + [Step(User(Press(Char(' ' as nat))), on)];
  }

  lemma KeysAndResizes(s: Sys, ev: Event)
    requires ev.Press? || ev.Resize?
    ensures Possible(s, User(ev))
  {
  }

  lemma ComplaintDue(s: Sys, t: Task, env: Env)
    requires s == Sys(Core([t], Some(t.id), List, Refreshing), [FetchReq], [Complaint])
    ensures Possible(s, Complained)
    ensures |Next(Next(s, Step(Complained, env)), Step(User(Press(Char(' ' as nat))), env)).outstanding| == 2
  {
    hide Next;
    MapOfOne(t);
    ComplaintAllowsTwo(s, env);
  }

  /** A key in a run, by what the handler does with it. */
  lemma Pressed(before: seq<Step>, s: Sys, k: Key, env: Env, o: Outcome) returns (trace: seq<Step>)
    requires CanHappen(START, before) && Run(START, before) == s
    requires TextsValid(s.core) && Update(s.core, Press(k), env) == o
    ensures CanHappen(START, trace)
    ensures Run(START, trace) == Sys(o.core, s.outstanding + Asked(o.cmd), s.sessions + Started(o.cmd))
  {
    hide Run, CanHappen, Update, TextsValid;
    var v := Extend(START, before, Step(User(Press(k)), env));
    trace := before + [Step(User(Press(k)), env)];
  }

  lemma Loaded(t: Task, env: Env) returns (trace: seq<Step>)
    requires env.cursor == Some(t.id)
    ensures CanHappen(START, trace) && Run(START, trace) == Sys(Core([t], Some(t.id), List, Idle), [], [])
  {
    hide Run, CanHappen, Update;
    NothingYet(START);
    FirstLoad(t, env);
    var s := Extend(START, [], Step(Reply(0, TasksLoaded([t])), env));
    trace := [] + [Step(Reply(0, TasksLoaded([t])), env)];
  }

  lemma RefreshThenComplaint(before: seq<Step>, t: Task, env: Env) returns (trace: seq<Step>)
    requires CanHappen(START, before)
    requires Run(START, before) == Sys(Core([t], Some(t.id), List, Idle), [], [Running(t.id)])
    ensures CanHappen(START, trace)
    ensures Run(START, trace) == Sys(Core([t], Some(t.id), List, Refreshing), [FetchReq], [Complaint])
  {
    hide Run, CanHappen, Update;
    var s := Run(START, before);
    KeyEffects(s.core, env);
    trace := Pressed(before, s, Char('R' as nat), env, Outcome(s.core.(inFlight := Refreshing), Fetch));
    s := Run(START, trace);
    KeyEffects(s.core, env);
    var v := Extend(START, trace, Step(EditorBroke, env));
    trace := trace + [Step(EditorBroke, env)];
  }

  lemma FirstLoad(t: Task, env: Env)
    ensures Update(START.core, TasksLoaded([t]), env) == Stay(Core([t], env.cursor, List, Idle))
  {
  }

  lemma NothingYet(s: Sys)
    ensures CanHappen(s, []) && Run(s, []) == s
  {
  }

  lemma MapOfOne(t: Task)
    ensures MapOf([t]) == map[t.id := t]
  {
    MapOfGrows([], t);
    assert [] + [t] == [t];
  }

  /** The keys up to the second Escape. */
  lemma EditorLeftOpen(before: seq<Step>, t: Task, env: Env) returns (trace: seq<Step>)
    requires CanHappen(START, before) && Run(START, before) == Sys(Core([t], Some(t.id), List, Idle), [], [])
    requires env.cursor == Some(t.id)
    ensures CanHappen(START, trace)
    ensures Run(START, trace) == Sys(Core([t], Some(t.id), List, Idle), [], [Running(t.id)])
  {
    hide Run, CanHappen, Update, OpenOnCursor, Stored, MapOf;
    trace := DescriptionOpened(before, t, env);
    var s := Run(START, trace);
    KeyEffects(s.core, env);
    trace := Pressed(trace, s, Escape, env, Stay(s.core.(mode := Field(Description))));
    s := Run(START, trace);
    KeyEffects(s.core, env);
    trace := Pressed(trace, s, Escape, env, Stay(s.core.(mode := List)));
  }

  lemma DescriptionOpened(before: seq<Step>, t: Task, env: Env) returns (trace: seq<Step>)
    requires CanHappen(START, before) && Run(START, before) == Sys(Core([t], Some(t.id), List, Idle), [], [])
    requires env.cursor == Some(t.id)
    ensures CanHappen(START, trace)
    ensures Run(START, trace)
      == Sys(Core([t], Some(t.id), Editing(t.id, Description, External(None)), Idle), [], [Running(t.id)])
  {
    hide Run, CanHappen, Update, OpenOnCursor, Stored, MapOf;
    var c := Core([t], Some(t.id), List, Idle);
    KeyEffects(c, env);
    trace := Pressed(before, Sys(c, [], []), Enter, env, Stay(c.(mode := Field(Title))));
    KeyEffects(c.(mode := Field(Title)), env);
    trace := Pressed(trace, Sys(c.(mode := Field(Title)), [], []), Down, env, Stay(c.(mode := Field(Description))));
    KeyEffects(c.(mode := Field(Description)), env);
    DescriptionOpens(c.(mode := Field(Description)), env);
    trace := Pressed(trace, Sys(c.(mode := Field(Description)), [], []), Enter, env,
      OpenOnCursor(c.(mode := Field(Description)), Description, env));
  }

  /** How many replies until the client is free again. */
  function Owed(f: InFlight): nat {
    match f case Idle => 0 case Deleting(_) => 2 case _ => 1
  }

  /** Every reply brings the client nearer to being free; nobody waits for ever. */
  lemma RepliesDrain(s: Sys, st: Step)
    requires Inv(s) && Possible(s, st.action) && st.action.Reply?
    ensures Owed(Next(s, st).core.inFlight) < Owed(s.core.inFlight)
  {
    hide MapOf, Merge, PatchOf, OpenOn, Trim, Rotated, Typed, ApplyPatch;
  }

  // ----- the committed editor comes back ----------------------------------------------------

  predicate NoReply(trace: seq<Step>) {
    forall k :: 0 <= k < |trace| ==> !trace[k].action.Reply?
  }

  lemma {:induction false} WaitingChangesNothing(s: Sys, trace: seq<Step>)
    requires Inv(s) && s.core.Busy() && Fair(s, trace) && NoReply(trace)
    ensures Run(s, trace).core.inFlight == s.core.inFlight && Run(s, trace).outstanding == s.outstanding
  {
    if trace != [] {
      hide Inv, Update;
      var n := |trace| - 1;
      var before := Run(s, trace[..n]);
      WaitingChangesNothing(s, trace[..n]);
      RunKeepsInv(s, trace[..n]);
      WaitingStep(before, trace[n]);
    }
  }

  lemma WaitingStep(s: Sys, st: Step)
    requires Inv(s) && s.core.Busy() && Possible(s, st.action) && !st.action.Reply? && !st.action.Complained?
    ensures Next(s, st).core.inFlight == s.core.inFlight && Next(s, st).outstanding == s.outstanding
  {
    hide Update;
    CommandsMatch(s.core, EventOf(st.action), st.env);
  }

  /** Whatever was pressed while a commit was out, if it fails or meets a
      conflict the editor is open again, on the same task and field, holding
      exactly what was committed. */
  lemma EditorComesBack(s: Sys, trace: seq<Step>, st: Step)
    requires Inv(s) && Fair(s, trace) && NoReply(trace)
    requires s.core.inFlight.Committing? && s.core.inFlight.editor != External(None)
    requires st.action.Reply? && Possible(Run(s, trace), st.action)
    requires st.action.ev.RequestFailed? || st.action.ev.Conflicted?
    ensures var after := Next(Run(s, trace), st);
      && after.core.mode == Editing(s.core.inFlight.id, s.core.inFlight.field, s.core.inFlight.editor)
      && after.core.inFlight == Idle && after.outstanding == []
  {
    hide MapOf, Merge, PatchOf, OpenOn, Trim, Rotated, Typed, ApplyPatch, Run, Fair;
    WaitingChangesNothing(s, trace);
    RunKeepsInv(s, trace);
  }

  /** After a conflict one Enter commits the same change again, against the
      server's copy and under its version. */
  lemma ReapplyIsOneKey(c: Core, fresh': seq<Task>, env: Env, again: Env, t: Task)
    requires TextsValid(c) && Quiet(c) && c.inFlight.Committing? && c.inFlight.editor != External(None)
    requires Stored(Update(c, Conflicted(fresh'), env).core, c.inFlight.id) == Some(t)
    ensures TextsValid(Update(c, Conflicted(fresh'), env).core)
    ensures
      var f := c.inFlight;
      var p := PatchOf(f.field, f.editor, again.now, again.offset);
      var o := Update(Update(c, Conflicted(fresh'), env).core, Press(Enter), again);
      if p.Some? && ApplyPatch(t.content, p.value).title != ""
      then o.cmd == Commit(f.id, t.meta.version, ApplyPatch(t.content, p.value)) && o.core.inFlight == f
      else o.cmd == Nothing && o.core.mode == Editing(f.id, f.field, f.editor)
  {
    hide MapOf, Merge, PatchOf, OpenOn, Trim, Rotated, Typed, ApplyPatch;
    UpdateKeepsTexts(c, Conflicted(fresh'), env);
    var d := Update(c, Conflicted(fresh'), env).core;
    assert d.mode == Editing(c.inFlight.id, c.inFlight.field, c.inFlight.editor) && !d.Busy();
    assert Update(d, Press(Enter), again) == CommitEdit(d, c.inFlight.id, c.inFlight.field, c.inFlight.editor, again);
  }

  // ----- what a commit says -----------------------------------------------------------------

  /** The editor whose contents an event commits. */
  function Committed(c: Core, ev: Event): Editor
    requires c.mode.Editing?
  {
    if ev.EditorReturned? then External(ev.text) else c.mode.editor
  }

  lemma OtherModesCommitNothing(c: Core, ev: Event, env: Env)
    requires TextsValid(c) && !c.mode.List? && !c.mode.Editing?
    ensures !Update(c, ev, env).cmd.Commit?
  {
    hide MapOf, Merge, OpenOn, Trim, Typed, Anchor, Restored, AfterLoad, AfterCreate, AfterCommit, AfterConflict,
      StepField, ListMode, EditingMode, Stored, TextsValid;
  }

  /** The commit's version and children are those of the stored copy of its task, and
      nothing was out. */
  ghost predicate FromStored(c: Core, o: Outcome) {
    && o.cmd.Commit? && Stored(c, o.cmd.id).Some? && !c.Busy()
    && o.core.inFlight.Committing? && o.core.inFlight.id == o.cmd.id
    && o.cmd.expectedVersion == Stored(c, o.cmd.id).value.meta.version
    && o.cmd.content.childIds == Stored(c, o.cmd.id).value.content.childIds
  }

  predicate Finished(s: Status) { s == Done || s == Cancelled }

  lemma ListCommit(c: Core, ev: Event, env: Env)
    requires TextsValid(c) && c.mode.List? && Update(c, ev, env).cmd.Commit?
    ensures var o := Update(c, ev, env);
      && FromStored(c, o) && ev == Press(Char(' ' as nat)) && c.cursor == Some(o.cmd.id)
      && o.core.inFlight == Committing(o.cmd.id, StatusField, External(None))
      && (var t := Stored(c, o.cmd.id).value.content;
          o.cmd.content == t.(status := if Finished(t.status) then Todo else Done))
  {
    hide MapOf, Merge, PatchOf, OpenOn, Trim, Rotated, Typed, FilterMode, AddMode, ConfirmMode, FieldMode,
      EditingMode, Anchor;
  }

  lemma EditingCommit(c: Core, ev: Event, env: Env)
    requires TextsValid(c) && c.mode.Editing? && Update(c, ev, env).cmd.Commit?
    ensures var o := Update(c, ev, env);
      && o.cmd.id == c.mode.id && !c.Busy() && Stored(c, o.cmd.id).Some?
      && o.core.inFlight == Committing(c.mode.id, c.mode.field, Committed(c, ev)) && Committed(c, ev) != External(None)
      && o.cmd.expectedVersion == Stored(c, o.cmd.id).value.meta.version
      && (var p := PatchOf(c.mode.field, Committed(c, ev), env.now, env.offset);
          p.Some? && o.cmd.content == ApplyPatch(Stored(c, o.cmd.id).value.content, p.value))
  {
    hide MapOf, Merge, PatchOf, OpenOn, Trim, Rotated, Typed, FilterMode, AddMode, ConfirmMode, FieldMode, ListMode,
      ApplyPatch, AfterLoad, AfterCreate, AfterCommit, AfterConflict, TypeInto, Anchor;
  }

  /** Version and content of a commit come from one stored copy of the task it
      names: the editor's own task, or the cursor's for the status key. The
      children are never touched, and the editor waits with the request. */
  lemma CommitIsFaithful(c: Core, ev: Event, env: Env)
    requires TextsValid(c) && Update(c, ev, env).cmd.Commit?
    ensures
      var o := Update(c, ev, env);
      FromStored(c, o) &&
      var t := Stored(c, o.cmd.id).value;
      if c.mode.List? then
        && ev == Press(Char(' ' as nat)) && c.cursor == Some(o.cmd.id)
        && o.core.inFlight == Committing(o.cmd.id, StatusField, External(None))
        && o.cmd.content == t.content.(status := if Finished(t.content.status) then Todo else Done)
      else
        && c.mode.Editing? && c.mode.id == o.cmd.id
        && o.core.inFlight == Committing(c.mode.id, c.mode.field, Committed(c, ev))
           && Committed(c, ev) != External(None)
        && (var p := PatchOf(c.mode.field, Committed(c, ev), env.now, env.offset);
            p.Some? && o.cmd.content == ApplyPatch(t.content, p.value))
        && OnlyDiffers(t.content, o.cmd.content, if Committed(c, ev).External? then Description else c.mode.field)
        && Says(o.cmd.content, c.mode.field, Committed(c, ev), env.now, env.offset)
  {
    hide Update, TextsValid, PatchOf, ApplyPatch, OnlyDiffers, Says, Stored, Finished;
    if c.mode.List? {
      ListCommit(c, ev, env);
    } else if c.mode.Editing? {
      EditingCommit(c, ev, env);
      PatchSetsOneField(Stored(c, c.mode.id).value.content, c.mode.field, Committed(c, ev), env.now, env.offset);
    } else {
      OtherModesCommitNothing(c, ev, env);
    }
  }

  /** The status key undoes itself: once the server has answered the first press,
      the second asks for the content the task had. */
  lemma SpaceTwice(c: Core, t: Task, saved: Task, env: Env, env': Env, env'': Env)
    requires TextsValid(c) && DistinctTaskIds(c.tasks)
    requires c.mode.List? && !c.Busy() && c.cursor == Some(t.id) && Stored(c, t.id) == Some(t)
    requires var o := Update(c, Press(Char(' ' as nat)), env);
      o.cmd.Commit? ==> saved.id == t.id && saved.content == o.cmd.content
    requires env'.cursor == Some(t.id)
    ensures
      var o := Update(c, Press(Char(' ' as nat)), env);
      var answered := Update(o.core, CommitOk([saved]), env').core;
      var again := Update(answered, Press(Char(' ' as nat)), env'');
      && o.cmd == Commit(t.id, t.meta.version, t.content.(status := if Finished(t.content.status) then Todo else Done))
      && again.cmd.Commit? && again.cmd.id == t.id && again.cmd.expectedVersion == saved.meta.version
      && (t.content.status == Todo ==> again.cmd.content == t.content)
  {
    hide MapOf, Merge, PatchOf, OpenOn, Trim, Rotated, Typed;
    var o := Update(c, Press(Char(' ' as nat)), env);
    SpaceCommits(c, t, env);
    var answered := Update(o.core, CommitOk([saved]), env').core;
    MergedIsStored(o.core, saved);
    assert answered == AfterCommit(o.core, [saved], env'.cursor);
    SpaceCommits(answered, saved, env'');
  }

  lemma SpaceCommits(c: Core, t: Task, env: Env)
    requires TextsValid(c) && c.mode.List? && !c.Busy() && c.cursor == Some(t.id) && Stored(c, t.id) == Some(t)
    ensures var o := Update(c, Press(Char(' ' as nat)), env);
      && o.cmd == Commit(t.id, t.meta.version, t.content.(status := if Finished(t.content.status) then Todo else Done))
      && o.core == c.(inFlight := Committing(t.id, StatusField, External(None)))
  {
    hide MapOf, Merge, PatchOf, OpenOn, Trim, Rotated, Typed;
  }

  /** What the server answers is what is stored. */
  lemma MergedIsStored(c: Core, t: Task)
    requires DistinctTaskIds(c.tasks)
    ensures Stored(c.(tasks := Merge(c.tasks, [t])), t.id) == Some(t)
  {
    MergeIsOverlay(c.tasks, [t]);
    MapOfGrows([], t);
    assert [] + [t] == [t];
  }

  /** The change is to the field the editor is open on, unless it is a text from
      $EDITOR that arrived at another field's editor and differs from the
      description it replaces. */
  lemma CommitChangesItsFieldIff(c: Core, ev: Event, env: Env)
    requires TextsValid(c) && c.mode.Editing? && Update(c, ev, env).cmd.Commit?
    ensures
      var o := Update(c, ev, env);
      Stored(c, c.mode.id).Some? &&
      var before := Stored(c, c.mode.id).value.content;
      OnlyDiffers(before, o.cmd.content, c.mode.field) <==>
        (Committed(c, ev).External? && !c.mode.field.Description? ==>
          Committed(c, ev).retained == Some(before.description))
  {
    hide MapOf, Merge, OpenOn, Trim, Rotated, Typed, DateOf, TagsOf, Update, Stored, Says;
    CommitIsFaithful(c, ev, env);
  }

  // ----- where a returned text goes ---------------------------------------------------------

  /** The text the oldest $EDITOR gives back is committed to the task it was opened
      for exactly when the mode at its return is an editor of that very task, which
      is still stored and titled; to another task exactly when the mode is an editor
      of that other one. */
  lemma ReturnedTextGoesHomeIff(s: Sys, st: Step)
    requires TextsValid(s.core) && Quiet(s.core)
    requires st.action.Returned? && Possible(s, st.action) && st.action.text.Some?
    ensures
      var home, m, o := s.sessions[0].id, s.core.mode, Handled(s, st);
      var ready := m.Editing? && Stored(s.core, m.id).Some? && Stored(s.core, m.id).value.content.title != "";
      && (o.cmd.Commit? <==> ready)
      && (o.cmd.Commit? && o.cmd.id == home <==> ready && m.id == home)
      && (o.cmd.Commit? && o.cmd.id != home <==> ready && m.id != home)
      && (ready ==> o.cmd == Commit(m.id, Stored(s.core, m.id).value.meta.version,
                                    Stored(s.core, m.id).value.content.(description := st.action.text.value)))
  {
    hide MapOf, Merge, OpenOn, Trim, Rotated, Typed, DateOf, TagsOf;
  }

  /** A returned text is lost exactly when no editor is open to take it; otherwise it
      is committed or stays in the editor. */
  lemma ReturnedTextIsLostIff(s: Sys, st: Step)
    requires TextsValid(s.core) && Quiet(s.core)
    requires st.action.Returned? && Possible(s, st.action) && st.action.text.Some?
    ensures
      var m, o := s.core.mode, Handled(s, st);
      if !m.Editing? then o == Stay(s.core)
      else
        || (o.cmd.Commit? && o.core.inFlight == Committing(m.id, m.field, External(st.action.text)))
        || (o.cmd.Nothing? && o.core.mode == Editing(m.id, m.field, External(st.action.text)))
  {
    hide MapOf, Merge, OpenOn, Trim, Rotated, Typed, DateOf, TagsOf;
  }

  /** Nothing comes back and no Escape is handled: only these lead away from an
      editor that waits for $EDITOR. */
  predicate Undisturbed(trace: seq<Step>) {
    forall k :: 0 <= k < |trace| ==>
      trace[k].action != User(Press(Escape)) && !trace[k].action.Returned? && !trace[k].action.EditorBroke?
  }

  /** The task of the first $EDITOR whose result is still to come, after `sessions`
      one of `last`. */
  function FirstRunning(sessions: seq<Session>, last: Id): Id {
    if sessions == [] then last
    else match sessions[0]
      case Running(id) => id
      case Complaint => FirstRunning(sessions[1..], last)
  }

  predicate NoneRunning(sessions: seq<Session>) { forall k :: 0 <= k < |sessions| ==> sessions[k].Complaint? }

  lemma {:induction false} NoneRunningFirst(sessions: seq<Session>, last: Id)
    ensures NoneRunning(sessions) ==> FirstRunning(sessions, last) == last
  {
    if sessions != [] && NoneRunning(sessions) {
      NoneRunningFirst(sessions[1..], last);
    }
  }

  /** The editor waits: nothing is out, and what is left of `pending` comes before
      its own session. */
  predicate Awaits(s: Sys, c: Core, pending: seq<Session>) {
    && s.core == c.(cursor := s.core.cursor) && s.outstanding == []
    && |s.sessions| <= |pending| && s.sessions == pending[|pending| - |s.sessions|..]
    && NoneRunning(pending[..|pending| - |s.sessions|])
  }

  lemma {:induction false} EditorWaits(s: Sys, trace: seq<Step>, id: Id)
    requires TextsValid(s.core) && !s.core.Busy() && s.outstanding == [] && CanHappen(s, trace) && Undisturbed(trace)
    requires s.core.mode == Editing(id, Description, External(None))
    ensures Awaits(Run(s, trace), s.core, s.sessions)
  {
    if trace != [] {
      hide Awaits;
      var n := |trace| - 1;
      EditorWaits(s, trace[..n], id);
      WaitsOn(Run(s, trace[..n]), trace[n], s.core, s.sessions, id);
    } else {
      assert s.sessions[0..] == s.sessions;
    }
  }

  lemma WaitsOn(s: Sys, st: Step, c: Core, pending: seq<Session>, id: Id)
    requires TextsValid(c) && !c.Busy() && Awaits(s, c, pending) && Possible(s, st.action) && Undisturbed([st])
    requires c.mode == Editing(id, Description, External(None))
    ensures Awaits(Next(s, st), c, pending)
  {
    hide MapOf, Merge, PatchOf, OpenOn, Trim, Rotated, Typed, ApplyPatch;
    assert [st][0] == st;
    WaitingIgnores(s.core, st, id);
    var m := |pending| - |s.sessions|;
    if st.action.Complained? {
      assert pending[..m + 1] == pending[..m] + [s.sessions[0]];
      assert s.sessions[1..] == pending[m + 1..];
    }
  }

  lemma WaitingIgnores(c: Core, st: Step, id: Id)
    requires TextsValid(c) && !c.Busy() && c.mode == Editing(id, Description, External(None)) && Undisturbed([st])
    requires !st.action.Reply? && (st.action.User? ==> st.action.ev.Press? || st.action.ev.Resize?)
    ensures var o := Update(c, EventOf(st.action), st.env);
      o.cmd.Nothing? && o.core == c.(cursor := o.core.cursor)
  {
    hide MapOf, Merge, PatchOf, OpenOn, Trim, Rotated, Typed, ApplyPatch;
    assert [st][0] == st;
  }

  /** As long as no Escape is handled, the first text to come back is committed to the
      task whose description was opened, against the stored copy it was opened on. It
      is that $EDITOR's own text exactly when no other was still running; the next
      text to come back finds no editor and is lost. */
  lemma FirstTextIsCommitted(s: Sys, open: Step, trace: seq<Step>, st: Step)
    requires TextsValid(s.core) && Quiet(s.core) && s.outstanding == []
    requires Possible(s, open.action) && Handled(s, open).cmd.OpenEditor?
    requires CanHappen(Next(s, open), trace) && Undisturbed(trace)
    requires st.action.Returned? && st.action.text.Some? && Possible(Run(Next(s, open), trace), st.action)
    requires var t := Stored(s.core, Handled(s, open).cmd.id); t.Some? && t.value.content.title != ""
    ensures
      var id, end := Handled(s, open).cmd.id, Run(Next(s, open), trace);
      var t := Stored(s.core, id).value;
      && Handled(end, st).cmd == Commit(id, t.meta.version, t.content.(description := st.action.text.value))
      && end.sessions[0] == Running(FirstRunning(s.sessions, id))
      && (NoneRunning(s.sessions) <==> |end.sessions| == 1)
      && forall next: Step :: next.action.Returned? && next.action.text.Some? ==>
         Handled(Next(end, st), next) == Stay(Next(end, st).core)
  {
    hide Run, CanHappen, Stored, Awaits;
    var id, begun := Handled(s, open).cmd.id, Next(s, open);
    var end := Run(begun, trace);
    OpeningStarts(s, open);
    EditorWaits(begun, trace, id);
    WaitedFor(end, begun.core, s.sessions, id);
    SameTasksStored(s.core, end.core, id);
    ReturnedTextGoesHomeIff(end, st);
    CommittedLeavesField(end, st, id);
    forall next: Step | next.action.Returned? && next.action.text.Some?
      ensures Handled(Next(end, st), next) == Stay(Next(end, st).core)
    {
      DroppedInField(Next(end, st), next);
    }
  }

  lemma WaitedFor(s: Sys, c: Core, sessions: seq<Session>, id: Id)
    requires Awaits(s, c, sessions + [Running(id)]) && s.sessions != [] && s.sessions[0].Running?
    ensures s.core == c.(cursor := s.core.cursor)
    ensures s.sessions[0] == Running(FirstRunning(sessions, id))
    ensures NoneRunning(sessions) <==> |s.sessions| == 1
  {
    var pending := sessions + [Running(id)];
    var m := |pending| - |s.sessions|;
    assert s.sessions[0] == pending[m];
    assert forall k :: 0 <= k < m ==> pending[..m][k] == pending[k];
    FirstIs(sessions, id, m);
  }

  lemma {:induction false} FirstIs(sessions: seq<Session>, id: Id, m: nat)
    requires m <= |sessions| && (sessions + [Running(id)])[m].Running?
    requires forall k :: 0 <= k < m ==> (sessions + [Running(id)])[k].Complaint?
    ensures (sessions + [Running(id)])[m] == Running(FirstRunning(sessions, id))
    ensures NoneRunning(sessions) <==> m == |sessions|
    decreases m
  {
    var all := sessions + [Running(id)];
    if m == 0 {
      assert sessions != [] ==> sessions[0] == all[0];
    } else {
      var rest := sessions[1..];
      assert all[1..] == rest + [Running(id)];
      FirstIs(rest, id, m - 1);
      assert all[m] == all[1..][m - 1] && sessions[0] == all[0];
      assert forall k :: 1 <= k < |sessions| ==> sessions[k] == rest[k - 1];
      assert forall k :: 0 <= k < |rest| ==> rest[k] == sessions[k + 1];
    }
  }

  lemma CommittedLeavesField(s: Sys, st: Step, id: Id)
    requires TextsValid(s.core) && st.action.Returned? && s.core.mode == Editing(id, Description, External(None))
    requires Handled(s, st).cmd.Commit?
    ensures Next(s, st).core.mode == Field(Description)
  {
    hide MapOf, Merge, OpenOn, Trim, Rotated, Typed, DateOf, TagsOf;
  }

  lemma DroppedInField(s: Sys, st: Step)
    requires s.core.mode.Field? && st.action.Returned?
    ensures Handled(s, st) == Stay(s.core)
  {
    hide MapOf, Merge, OpenOn, Trim, Rotated, Typed, DateOf, TagsOf, TextsValid;
  }

  lemma SameTasksStored(c: Core, d: Core, id: Id)
    requires c.tasks == d.tasks
    ensures Stored(c, id) == Stored(d, id)
  {
  }

  lemma OpeningStarts(s: Sys, open: Step)
    requires TextsValid(s.core) && Quiet(s.core) && Possible(s, open.action) && Handled(s, open).cmd.OpenEditor?
    requires s.outstanding == []
    ensures var id := Handled(s, open).cmd.id;
      && Next(s, open).core == s.core.(mode := Editing(id, Description, External(None)))
      && Next(s, open).sessions == s.sessions + [Running(id)] && Next(s, open).outstanding == [] && !s.core.Busy()
  {
    hide MapOf, Merge, PatchOf, Trim, Rotated, Typed, ApplyPatch, Joined, DateText;
  }

  /** It does go astray: the keys below wait in the queue while $EDITOR holds the
      description of `a`, are handled first, and its text then lands on `b`, whether
      they opened the title of `b` or its description. */
  lemma StrayTextLandsElsewhere(tasks: seq<Task>, a: Task, b: Task, text: string, env: Env, down: bool)
    requires MapOf(tasks)[a.id := a] == MapOf(tasks) && MapOf(tasks)[b.id := b] == MapOf(tasks) && b.content.title != ""
    ensures
      var onA, onB := env.(cursor := Some(a.id)), env.(cursor := Some(b.id));
      var s0 := Sys(Core(tasks, Some(a.id), Field(Description), Idle), [], []);
      var s2 := Next(Next(s0, Step(User(Press(Enter)), onA)), Step(User(Press(Escape)), onA));
      var s4 := Next(Next(s2, Step(User(Press(Escape)), onA)), Step(User(Press(Char('j' as nat))), onB));
      var s6 := OpenedOnCursor(s4, onB, down);
      && Handled(s0, Step(User(Press(Enter)), onA)).cmd == OpenEditor(a.id, a.content.description)
      && Possible(s6, Returned(Some(text))) && s6.sessions[0] == Running(a.id)
      && Handled(s6, Step(Returned(Some(text)), onB)).cmd
         == Commit(b.id, b.meta.version, b.content.(description := text))
  {
    hide Next, Handled, MapOf, OpenedOnCursor;
    var onA, onB := env.(cursor := Some(a.id)), env.(cursor := Some(b.id));
    TypedAhead(tasks, a, env, b.id);
    EditorOfB(tasks, a.id, b, text, onB, down);
  }

  /** From the list, Enter into the task and Enter into its title, or one down into
      its description. */
  function OpenedOnCursor(s: Sys, env: Env, down: bool): Sys {
    var t := Next(s, Step(User(Press(Enter)), env));
    Next(if down then Next(t, Step(User(Press(Down)), env)) else t, Step(User(Press(Enter)), env))
  }

  lemma TypedAhead(tasks: seq<Task>, a: Task, env: Env, b: Id)
    requires MapOf(tasks)[a.id := a] == MapOf(tasks)
    ensures
      var onA, onB := env.(cursor := Some(a.id)), env.(cursor := Some(b));
      var s0 := Sys(Core(tasks, Some(a.id), Field(Description), Idle), [], []);
      var s2 := Next(Next(s0, Step(User(Press(Enter)), onA)), Step(User(Press(Escape)), onA));
      var s4 := Next(Next(s2, Step(User(Press(Escape)), onA)), Step(User(Press(Char('j' as nat))), onB));
      Handled(s0, Step(User(Press(Enter)), onA)).cmd == OpenEditor(a.id, a.content.description)
      && s4 == Sys(Core(tasks, Some(b), List, Idle), [], [Running(a.id)])
  {
    hide Update, OpenOnCursor, MapOf;
    var onA, onB := env.(cursor := Some(a.id)), env.(cursor := Some(b));
    var c := Core(tasks, Some(a.id), Field(Description), Idle);
    KeyEffects(c, onA);
    DescriptionOpens(c, onA);
    KeyEffects(c.(mode := Editing(a.id, Description, External(None))), onA);
    KeyEffects(c.(mode := List), onB);
  }

  lemma EditorOfB(tasks: seq<Task>, a: Id, b: Task, text: string, env: Env, down: bool)
    requires MapOf(tasks)[b.id := b] == MapOf(tasks) && b.content.title != "" && env.cursor == Some(b.id)
    ensures
      var s6 := OpenedOnCursor(Sys(Core(tasks, Some(b.id), List, Idle), [], [Running(a)]), env, down);
      && Possible(s6, Returned(Some(text))) && s6.sessions[0] == Running(a)
      && Handled(s6, Step(Returned(Some(text)), env)).cmd
         == Commit(b.id, b.meta.version, b.content.(description := text))
  {
    hide Update, OpenOnCursor, MapOf, Handled;
    var c := Core(tasks, Some(b.id), List, Idle);
    KeysToEditor(c, [Running(a)], env, down);
    var s6 := OpenedOnCursor(Sys(c, [], [Running(a)]), env, down);
    SameTasksStored(c, s6.core, b.id);
    ReturnedTextGoesHomeIff(s6, Step(Returned(Some(text)), env));
  }

  lemma KeysToEditor(c: Core, sessions: seq<Session>, env: Env, down: bool)
    requires c.mode.List? && !c.Busy() && c.cursor.Some? && env.cursor == c.cursor
    ensures var s6 := OpenedOnCursor(Sys(c, [], sessions), env, down);
      && s6.core.mode.Editing? && s6.core.mode.id == c.cursor.value && s6.core.tasks == c.tasks
      && Inv(s6) && sessions <= s6.sessions
  {
    hide Update;
    var titled := c.(mode := Field(Title));
    KeyEffects(c, env);
    KeyEffects(titled, env);
    KeyEffects(c.(mode := Field(Description)), env);
  }

  // ----- where an editor was opened ---------------------------------------------------------

  ghost predicate OpenedAt(s: Sys, trace: seq<Step>, j: nat, id: Id, f: FieldId)
    requires j < |trace|
  {
    var c := Run(s, trace[..j]).core;
    trace[j].action == User(Press(Enter)) && c.mode == Field(f) && c.cursor == Some(id) && !c.Busy()
  }

  ghost predicate OpenedBefore(s: Sys, trace: seq<Step>, id: Id, f: FieldId) {
    exists j {:trigger OpenedAt(s, trace, j, id, f)} :: 0 <= j < |trace| && OpenedAt(s, trace, j, id, f)
  }

  /** A step keeps an open editor on its task and field, opens one at the cursor,
      or gives back the one that was being committed. */
  lemma EditorSteps(c: Core, ev: Event, env: Env)
    requires TextsValid(c)
    ensures
      var d := Update(c, ev, env).core;
      && (d.mode.Editing? ==>
          || (c.mode.Editing? && c.mode.id == d.mode.id && c.mode.field == d.mode.field)
          || (c.mode == Field(d.mode.field) && ev == Press(Enter) && c.cursor == Some(d.mode.id) && !c.Busy())
          || (c.inFlight == Committing(d.mode.id, d.mode.field, d.mode.editor) && d.mode.editor != External(None)))
      && (d.inFlight.Committing? && d.inFlight.editor != External(None) ==>
          || c.inFlight == d.inFlight
          || (c.mode.Editing? && c.mode.id == d.inFlight.id && c.mode.field == d.inFlight.field))
  {
    hide MapOf, Merge, PatchOf, OpenOn, Trim, Rotated, Typed, ApplyPatch;
  }

  lemma StillOpened(s: Sys, trace: seq<Step>, id: Id, f: FieldId)
    requires trace != [] && OpenedBefore(s, trace[..|trace| - 1], id, f)
    ensures OpenedBefore(s, trace, id, f)
  {
    var rest := trace[..|trace| - 1];
    var j :| 0 <= j < |rest| && OpenedAt(s, rest, j, id, f);
    assert rest[..j] == trace[..j];
    assert OpenedAt(s, trace, j, id, f);
  }

  /** Every editor that is open, or waits with its commit, was opened on that very
      task and field by an Enter at the cursor, however far the cursor, the
      filter and the tasks have moved since. */
  lemma {:induction false} EveryEditorWasOpened(trace: seq<Step>)
    requires CanHappen(START, trace)
    ensures
      var c := Run(START, trace).core;
      && (c.mode.Editing? ==> OpenedBefore(START, trace, c.mode.id, c.mode.field))
      && (c.inFlight.Committing? && c.inFlight.editor != External(None) ==>
            OpenedBefore(START, trace, c.inFlight.id, c.inFlight.field))
  {
    hide Update, OpenedBefore, TextsValid, Possible, Remaining, Started, Asked;
    if trace != [] {
      var n := |trace| - 1;
      var rest := trace[..n];
      EveryEditorWasOpened(rest);
      StartIsValid();
      RunKeepsTexts(START, rest);
      var c, d := Run(START, rest).core, Run(START, trace).core;
      EditorSteps(c, EventOf(trace[n].action), trace[n].env);
      if c.mode.Editing? { StillOpened(START, trace, c.mode.id, c.mode.field); }
      if c.inFlight.Committing? && c.inFlight.editor != External(None) {
        StillOpened(START, trace, c.inFlight.id, c.inFlight.field);
      }
      if EventOf(trace[n].action).Press? { OnlyUsersPress(Run(START, rest), trace[n].action); }
      if d.mode.Editing? && c.mode == Field(d.mode.field) && c.cursor == Some(d.mode.id) && !c.Busy() {
        OpenedNow(trace, d.mode.id, d.mode.field);
      }
    }
  }

  lemma OpenedNow(trace: seq<Step>, id: Id, f: FieldId)
    requires trace != []
    requires var c := Run(START, trace[..|trace| - 1]).core;
      c.mode == Field(f) && c.cursor == Some(id) && !c.Busy()
    ensures EventOf(trace[|trace| - 1].action) == Press(Enter) && trace[|trace| - 1].action.User?
      ==> OpenedBefore(START, trace, id, f)
  {
    if trace[|trace| - 1].action == User(Press(Enter)) {
      assert OpenedAt(START, trace, |trace| - 1, id, f);
    }
  }

  /** At step `j` the $EDITOR of `home` gave back `x` to an open editor. */
  ghost predicate TookBackAt(s: Sys, trace: seq<Step>, j: nat, home: Id, id: Id, f: FieldId, x: string)
    requires j < |trace|
  {
    var before := Run(s, trace[..j]);
    trace[j].action == Returned(Some(x)) && before.sessions != [] && before.sessions[0] == Running(home)
    && before.core.mode.Editing? && before.core.mode.id == id && before.core.mode.field == f
  }

  ghost predicate TookBack(s: Sys, trace: seq<Step>, home: Id, id: Id, f: FieldId, x: string) {
    exists j {:trigger TookBackAt(s, trace, j, home, id, f, x)} :: 0 <= j < |trace|
      && TookBackAt(s, trace, j, home, id, f, x)
  }

  ghost predicate CameBack(s: Sys, trace: seq<Step>, id: Id, f: FieldId, x: string) {
    exists home :: TookBack(s, trace, home, id, f, x)
  }

  lemma StillTookBack(s: Sys, trace: seq<Step>, id: Id, f: FieldId, x: string)
    requires trace != [] && CameBack(s, trace[..|trace| - 1], id, f, x)
    ensures CameBack(s, trace, id, f, x)
  {
    var rest := trace[..|trace| - 1];
    var home :| TookBack(s, rest, home, id, f, x);
    var j :| 0 <= j < |rest| && TookBackAt(s, rest, j, home, id, f, x);
    assert rest[..j] == trace[..j];
    assert TookBackAt(s, trace, j, home, id, f, x);
    assert TookBack(s, trace, home, id, f, x);
  }

  lemma TookBackNow(s: Sys, trace: seq<Step>, id: Id, f: FieldId, x: string)
    requires CanHappen(s, trace) && trace != [] && trace[|trace| - 1].action == Returned(Some(x))
    requires var m := Run(s, trace[..|trace| - 1]).core.mode; m.Editing? && m.id == id && m.field == f
    ensures CameBack(s, trace, id, f, x)
  {
    var home := Run(s, trace[..|trace| - 1]).sessions[0].id;
    assert TookBackAt(s, trace, |trace| - 1, home, id, f, x);
    assert TookBack(s, trace, home, id, f, x);
  }

  predicate Retains(e: Editor, x: string) { e == External(Some(x)) }

  /** One event keeps a returned text where it is, moves it between the editor and
      the request, or has just taken it back. */
  lemma RetainedSteps(c: Core, ev: Event, env: Env, x: string)
    requires TextsValid(c)
    ensures
      var d := Update(c, ev, env).core;
      && (d.mode.Editing? && Retains(d.mode.editor, x) ==>
          || (c.mode.Editing? && c.mode.id == d.mode.id && c.mode.field == d.mode.field
              && (Retains(c.mode.editor, x) || ev == EditorReturned(Some(x))))
          || c.inFlight == Committing(d.mode.id, d.mode.field, External(Some(x))))
      && (d.inFlight.Committing? && Retains(d.inFlight.editor, x) ==>
          || c.inFlight == d.inFlight
          || (c.mode.Editing? && c.mode.id == d.inFlight.id && c.mode.field == d.inFlight.field
              && (Retains(c.mode.editor, x) || ev == EditorReturned(Some(x)))))
  {
    hide MapOf, Merge, PatchOf, Joined, DateText, StatusIndex, PriorityIndex, Trim, Rotated, Typed, ApplyPatch;
  }

  /** In every run a text that an editor holds, or that waits with its commit, was
      given back by some task's $EDITOR to the editor of that very task and field. */
  lemma {:induction false} EveryRetainedTextCameBack(trace: seq<Step>, x: string)
    requires CanHappen(START, trace)
    ensures
      var c := Run(START, trace).core;
      && (c.mode.Editing? && Retains(c.mode.editor, x) ==> CameBack(START, trace, c.mode.id, c.mode.field, x))
      && (c.inFlight.Committing? && Retains(c.inFlight.editor, x) ==>
            CameBack(START, trace, c.inFlight.id, c.inFlight.field, x))
  {
    hide Update, CameBack, TextsValid, Possible, Remaining, Started, Asked;
    if trace != [] {
      var n := |trace| - 1;
      var rest := trace[..n];
      EveryRetainedTextCameBack(rest, x);
      StartIsValid();
      RunKeepsTexts(START, rest);
      var c := Run(START, rest).core;
      RetainedSteps(c, EventOf(trace[n].action), trace[n].env, x);
      if c.mode.Editing? {
        if CameBack(START, rest, c.mode.id, c.mode.field, x) {
          StillTookBack(START, trace, c.mode.id, c.mode.field, x);
        }
        TookBackIfReturned(START, trace, x);
      }
      if c.inFlight.Committing? && CameBack(START, rest, c.inFlight.id, c.inFlight.field, x) {
        StillTookBack(START, trace, c.inFlight.id, c.inFlight.field, x);
      }
    }
  }

  lemma TookBackIfReturned(s: Sys, trace: seq<Step>, x: string)
    requires CanHappen(s, trace) && trace != [] && Run(s, trace[..|trace| - 1]).core.mode.Editing?
    ensures var m := Run(s, trace[..|trace| - 1]).core.mode;
      EventOf(trace[|trace| - 1].action) == EditorReturned(Some(x)) ==> CameBack(s, trace, m.id, m.field, x)
  {
    var st, m := trace[|trace| - 1], Run(s, trace[..|trace| - 1]).core.mode;
    if EventOf(st.action) == EditorReturned(Some(x)) {
      TookBackNow(s, trace, m.id, m.field, x);
    }
  }

  /** Hence every commit of a run goes to the task, and changes only the field, that
      the user chose with Enter, unless it is a returned text: then it does so when
      it is its own task's text, given back to that task's description editor. */
  lemma EveryCommitWasChosen(trace: seq<Step>, st: Step)
    requires CanHappen(START, trace) && Possible(Run(START, trace), st.action)
    requires Handled(Run(START, trace), st).cmd.Commit? && !Run(START, trace).core.mode.List?
    requires var c := Run(START, trace).core;
      c.mode.Editing? && Committed(c, EventOf(st.action)).External?
        && Committed(c, EventOf(st.action)).retained.Some? ==>
        TookBack(START, trace + [st], c.mode.id, c.mode.id, Description,
          Committed(c, EventOf(st.action)).retained.value)
        && c.mode.field.Description?
    ensures
      var c := Run(START, trace).core;
      var o := Handled(Run(START, trace), st);
      c.mode.Editing? && o.cmd.id == c.mode.id && OpenedBefore(START, trace, o.cmd.id, c.mode.field)
      && Stored(c, o.cmd.id).Some? && o.cmd.expectedVersion == Stored(c, o.cmd.id).value.meta.version
      && OnlyDiffers(Stored(c, o.cmd.id).value.content, o.cmd.content, c.mode.field)
  {
    hide Update, OpenedBefore, TookBack, PatchOf, ApplyPatch, OnlyDiffers, Stored, Run, CanHappen, Says;
    RunKeepsTexts(START, trace);
    EveryEditorWasOpened(trace);
    CommitIsFaithful(Run(START, trace).core, EventOf(st.action), st.env);
  }

  // ----- deletes and creates ----------------------------------------------------------------

  /** A delete is asked for only by 'y' at the prompt for that very task, and that
      prompt opens only on the cursor's task; a create carries the trimmed prompt
      and nothing else, and leaves the prompt open. */
  lemma OtherCommandsAreAskedFor(c: Core, ev: Event, env: Env)
    requires TextsValid(c)
    ensures
      var o := Update(c, ev, env);
      && (o.cmd.Remove? ==>
          && !c.Busy() && c.mode == ConfirmDelete(o.cmd.id) && ev == Press(Char('y' as nat))
          && o.core == c.(mode := List, inFlight := Deleting(o.cmd.id)))
      && (o.core.mode.ConfirmDelete? ==>
          || c.mode == o.core.mode
          || (c.mode.List? && ev == Press(Char('x' as nat)) && c.cursor == Some(o.core.mode.id) && !c.Busy()))
      && (o.cmd.Create? ==>
          && !c.Busy() && c.mode.AddPrompt? && ev == Press(Enter)
          && (var title := Trim(c.mode.text.chars, true);
              title != "" && o.cmd.content == NO_CONTENT.(title := title) && o.core == c.(inFlight := Creating(title))))
  {
    hide MapOf, Merge, PatchOf, OpenOn, Trim, Rotated, Typed, ApplyPatch;
  }

  ghost predicate AskedAt(s: Sys, trace: seq<Step>, j: nat, id: Id)
    requires j < |trace|
  {
    var c := Run(s, trace[..j]).core;
    trace[j].action == User(Press(Char('x' as nat))) && c.mode == List && c.cursor == Some(id) && !c.Busy()
  }

  ghost predicate AskedBefore(s: Sys, trace: seq<Step>, id: Id) {
    exists j {:trigger AskedAt(s, trace, j, id)} :: 0 <= j < |trace| && AskedAt(s, trace, j, id)
  }

  lemma StillAsked(s: Sys, trace: seq<Step>, id: Id)
    requires trace != [] && AskedBefore(s, trace[..|trace| - 1], id)
    ensures AskedBefore(s, trace, id)
  {
    var rest := trace[..|trace| - 1];
    var j :| 0 <= j < |rest| && AskedAt(s, rest, j, id);
    assert rest[..j] == trace[..j];
    assert AskedAt(s, trace, j, id);
  }

  lemma AskedNow(s: Sys, trace: seq<Step>, id: Id)
    requires trace != []
    requires var c := Run(s, trace[..|trace| - 1]).core; c.mode == List && c.cursor == Some(id) && !c.Busy()
    requires trace[|trace| - 1].action == User(Press(Char('x' as nat)))
    ensures AskedBefore(s, trace, id)
  {
    assert AskedAt(s, trace, |trace| - 1, id);
  }

  lemma ConfirmationStep(s: Sys, st: Step)
    requires TextsValid(s.core) && Possible(s, st.action) && Next(s, st).core.mode.ConfirmDelete?
    ensures var id := Next(s, st).core.mode.id;
      || s.core.mode == Next(s, st).core.mode
      || (s.core.mode.List? && st.action == User(Press(Char('x' as nat))) && s.core.cursor == Some(id)
         && !s.core.Busy())
  {
    hide Update, TextsValid;
    OtherCommandsAreAskedFor(s.core, EventOf(st.action), st.env);
  }

  /** In every run a confirmation prompt is about the task that stood under the
      cursor when 'x' was pressed, whatever has moved since. */
  lemma {:induction false} EveryDeleteWasAskedFor(trace: seq<Step>)
    requires CanHappen(START, trace) && Run(START, trace).core.mode.ConfirmDelete?
    ensures AskedBefore(START, trace, Run(START, trace).core.mode.id)
  {
    hide Update, TextsValid, Possible, Remaining, Started, Asked, AskedBefore;
    if trace != [] {
      var n := |trace| - 1;
      var rest := trace[..n];
      StartIsValid();
      RunKeepsTexts(START, rest);
      ConfirmationStep(Run(START, rest), trace[n]);
      if Run(START, rest).core.mode == Run(START, trace).core.mode {
        EveryDeleteWasAskedFor(rest);
        StillAsked(START, trace, Run(START, trace).core.mode.id);
      } else {
        AskedNow(START, trace, Run(START, trace).core.mode.id);
      }
    }
  }

  /** A failed create gives the title back: the prompt still holds what was typed,
      and Enter asks again. */
  lemma FailedCreateKeepsTitle(c: Core, env: Env, again: Env)
    requires TextsValid(c) && c.inFlight.Creating? && c.mode.AddPrompt?
    ensures var d := Update(c, RequestFailed, env).core;
      && d == c.(inFlight := Idle) && TextsValid(d)
      && var title := Trim(c.mode.text.chars, true);
         Update(d, Press(Enter), again).cmd == if title == "" then Nothing else Create(NO_CONTENT.(title := title))
  {
    hide MapOf, Merge, PatchOf, OpenOn, Trim, Rotated, Typed, ApplyPatch;
  }

  // ----- on the server ----------------------------------------------------------------------

  /** A commit the server accepts changes, of all its tasks, that one task, and of
      its content that one field. The client's copy may be as old as you like. */
  lemma AcceptedCommitChangesOneField(
      s: StoreSpec.State, steps: seq<StoreRuns.Step>, seen: nat, t: Task, content: Content, f: FieldId, now: int,
        saved: bool)
    requires seen <= |steps| && StoreRuns.FreshIds(s, steps) && StoreSpec.KeysMatch(s.tasks)
    requires t.id in StoreRuns.At(s, steps, seen).tasks && StoreRuns.At(s, steps, seen).tasks[t.id] == t
    requires OnlyDiffers(t.content, content, f)
    requires var r := StoreSpec.Update([StoreSpec.UpdateOp(t.id, content, t.meta.version)], now);
      StoreSpec.Answer(StoreRuns.Run(s, steps).tasks, r, saved) == 200
    ensures
      var before := StoreRuns.Run(s, steps);
      var after := StoreSpec.Next(before, StoreSpec.Update([StoreSpec.UpdateOp(t.id, content, t.meta.version)], now),
        saved);
      && t.id in before.tasks && after.tasks.Keys == before.tasks.Keys
      && after.tasks[t.id].content == content && OnlyDiffers(before.tasks[t.id].content, content, f)
      && forall x :: x in before.tasks && x != t.id ==> after.tasks[x] == before.tasks[x]
  {
    var ops := [StoreSpec.UpdateOp(t.id, content, t.meta.version)];
    var before := StoreRuns.Run(s, steps).tasks;
    assert ops[0].id in before && before[t.id].meta.version == t.meta.version;
    assert steps[..|steps|] == steps;
    StoreRuns.VersionPinsTask(s, steps, seen, |steps|, t.id);
    assert StoreSpec.Targets(ops, t.id) && StoreSpec.OpFor(ops, t.id) == ops[0];
  }
}
