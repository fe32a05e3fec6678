/** The bot's read-modify-write cycle against the store, interleaved with any
    requests of other clients, on a network that may lose a request or a reply
    and may deliver a request after its sender has given up. */
module Protocol {
  import opened Tasks
  import opened StoreSpec
  import opened StoreRuns
  import Graph
  import opened Pieces
  import opened Replies

  /** How an edit can end for its caller. */
  datatype Ending =
    | Committed(task: Task)
    | Refused(status: int)
    | Gone
    | NoAnswer
    | KeptTheirs
    | ConflictUnshown

  datatype Phase =
    | Idle
    | Prompted                  // a free-text prompt is out, its version pinned
    | Fetching                  // an attempt is about to read the tasks
    | Ready(basis: Task)        // the attempt has read the task
    | Waiting                   // the attempt's update has been sent
    | Comparing                 // a pinned attempt met a 409; theirs is to be fetched
    | Conflicted(theirs: Task)  // both values are on the conflict card; the user chooses
    | Finished(ending: Ending)

  /** The update request on the wire, with the task it was computed from. */
  datatype Request = Request(op: UpdateOp, basis: Task)

  datatype Reply = Reply(status: int, task: Option<Task>)

  /** What a commit of this edit replaced, and by what; `guard` is the version it
      was sent under. */
  datatype Commit = Commit(before: Task, after: Task, pinned: nat, guard: nat)

  datatype World = World(
    server: State,
    known: set<Id>,             // ids that exist or ever existed
    phase: Phase,
    attempt: nat,
    pinned: nat,                // 0: no pin
    card: Option<Task>,         // what the card showed when the user chose to edit
    prompt: Option<Task>,       // what was stored when the prompt went out
    wire: Option<Request>,
    reply: Option<Reply>,
    commits: seq<Commit>,
    overwrote: Option<Task>     // the newer value on the conflict card, if overwritten
  )

  datatype Action =
    | Other(request: StoreSpec.Request, saved: bool)
    | OpenCard(ok: bool)            // fetch and show the task's card
    | Pick                          // a picker choice starts an unpinned edit
    | Prompt(ok: bool)              // fetch, send the prompt, pin the version
    | Answered                      // the user's text arrives
    | Fetch(ok: bool)
    | Send
    | LoseRequest
    | Serve(now: int, saved: bool)  // the server executes the request
    | Receive
    | GiveUp                        // the reply never came
    | ShowConflict(ok: bool)        // fetch theirs for the conflict card
    | Overwrite
    | KeepTheirs

  /** The edit: one task, and what it does to the content it finds. */
  datatype Edit = Edit(id: Id, patch: Content -> Content)

  function Guard(w: World, basis: Task): nat {
    if w.pinned != 0 then w.pinned else basis.meta.version
  }

  ghost function Served(e: Edit, w: World, now: int, saved: bool): World
    requires w.wire.Some?
  {
    var r := StoreSpec.Update([w.wire.value.op], now);
    var status := Answer(w.server.tasks, r, saved);
    var server := Next(w.server, r, saved);
    var id := w.wire.value.op.id;
    var task := if status == 200 && id in server.tasks then Some(server.tasks[id]) else None;
    var commits := if status == 200 && id in w.server.tasks && task.Some?
                   then w.commits + [Commit(w.server.tasks[id], task.value, w.pinned, w.wire.value.op.expectedVersion)]
                   else w.commits;
    w.(server := server, wire := None, commits := commits,
       reply := if w.phase.Waiting? then Some(Reply(status, task)) else None)
  }

  function Received(w: World): World
    requires w.reply.Some?
  {
    var r := w.reply.value;
    var v := w.(reply := None);
    if r.status == 200 then
      v.(phase := Finished(if r.task.Some? then Committed(r.task.value) else Gone))
    else if r.status == 409 && w.pinned != 0 then v.(phase := Comparing)
    else if r.status == 409 && w.attempt == 1 then v.(phase := Fetching, attempt := 2)
    else v.(phase := Finished(Refused(r.status)))
  }

  /** An action that does not apply leaves the world as it is. */
  ghost function Step(e: Edit, w: World, a: Action): World {
    match a
    case Other(r, saved) =>
      var server := Next(w.server, r, saved);
      w.(server := server, known := w.known + server.tasks.Keys + (if r.Add? then {r.id} else {}))
    case OpenCard(ok) =>
      if w.phase.Idle? && ok && e.id in w.server.tasks then w.(card := Some(w.server.tasks[e.id])) else w
    case Pick =>
      if w.phase.Idle? then w.(phase := Fetching, attempt := 1, pinned := 0) else w
    case Prompt(ok) =>
      if !w.phase.Idle? then w
      else if !ok then w.(phase := Finished(NoAnswer))
      else if e.id !in w.server.tasks then w.(phase := Finished(Gone))
      else w.(phase := Prompted, prompt := Some(w.server.tasks[e.id]), pinned := w.server.tasks[e.id].meta.version)
    case Answered =>
      if w.phase.Prompted? then w.(phase := Fetching, attempt := 1) else w
    case Fetch(ok) =>
      if !w.phase.Fetching? then w
      else if !ok then w.(phase := Finished(NoAnswer))
      else if e.id !in w.server.tasks then w.(phase := Finished(Gone))
      else w.(phase := Ready(w.server.tasks[e.id]))
    case Send =>
      if !w.phase.Ready? then w
      else
        var t := w.phase.basis;
        w.(phase := Waiting, wire := Some(Request(UpdateOp(e.id, e.patch(t.content), Guard(w, t)), t)))
    case LoseRequest => w.(wire := None)
    case Serve(now, saved) => if w.wire.Some? then Served(e, w, now, saved) else w
    case Receive => if w.phase.Waiting? && w.reply.Some? then Received(w) else w
    case GiveUp => if w.phase.Waiting? then w.(phase := Finished(NoAnswer), reply := None) else w
    case ShowConflict(ok) =>
      if !w.phase.Comparing? then w
      else if !ok then w.(phase := Finished(ConflictUnshown))
      else if e.id !in w.server.tasks then w.(phase := Finished(Gone))
      else w.(phase := Conflicted(w.server.tasks[e.id]))
    case Overwrite =>
      if w.phase.Conflicted? then w.(phase := Fetching, attempt := 1, pinned := 0, overwrote := Some(w.phase.theirs))
        else w
    case KeepTheirs =>
      if w.phase.Conflicted? then w.(phase := Finished(KeptTheirs)) else w
  }

  /** Ids are never handed out twice. */
  predicate Fair(w: World, a: Action) {
    a.Other? && a.request.Add? ==> a.request.id !in w.known
  }

  /** Nothing has happened yet, over any state a server can hold. */
  ghost predicate Start(w: World) {
    && Graph.IsForest(w.server.tasks) && KeysMatch(w.server.tasks)
    && w.phase.Idle? && w.wire.None? && w.reply.None? && w.commits == [] && w.prompt.None? && w.card.None?
       && w.pinned == 0
    && w.overwrote.None? && w.attempt == 0
    && w.server.tasks.Keys <= w.known
  }

  ghost predicate Fairly(e: Edit, w: World, actions: seq<Action>)
    decreases |actions|
  {
    actions == [] || (Fairly(e, w, actions[..|actions| - 1])
                      && Fair(After(e, w, actions[..|actions| - 1]), actions[|actions| - 1]))
  }

  ghost function After(e: Edit, w: World, actions: seq<Action>): World
    decreases |actions|
  {
    if actions == [] then w
    else Step(e, After(e, w, actions[..|actions| - 1]), actions[|actions| - 1])
  }

  // ----- what every step keeps ------------------------------------------------

  /** `t` was once the task's stored value: the version has not fallen since, and
      while it stands still the task is still `t`. */
  ghost predicate Dated(ts: TaskMap, known: set<Id>, x: Id, t: Task) {
    && x in known
    && (x in ts ==> Earlier(t, ts[x]))
  }

  /** Of two readings of the task, `a` is not the later one. */
  predicate Earlier(a: Task, b: Task) {
    a.meta.version <= b.meta.version && (a.meta.version == b.meta.version ==> a == b)
  }

  ghost predicate DatedIn(e: Edit, w: World, t: Option<Task>) {
    t.Some? ==> Dated(w.server.tasks, w.known, e.id, t.value)
  }

  ghost predicate BasisOk(e: Edit, w: World, basis: Task) {
    && Dated(w.server.tasks, w.known, e.id, basis)
    && (w.pinned != 0 ==> w.pinned <= basis.meta.version)
  }

  ghost predicate CommitOk(e: Edit, prompt: Option<Task>, overwrote: Option<Task>, c: Commit) {
    && c.after.content == e.patch(c.before.content)
    && c.after.meta.version == c.before.meta.version + 1
    && c.guard == c.before.meta.version
    && ValidContent(c.after.content)
    && (c.pinned != 0 ==> prompt == Some(c.before) && c.pinned == c.guard)
    && (prompt.Some? && prompt.value.meta.version != 0 && overwrote.None? ==> c.pinned != 0)
    && (overwrote.Some? ==> Earlier(overwrote.value, c.before))
  }

  /** What was read is no newer than what is stored. */
  ghost predicate ReadingsOk(e: Edit, w: World) {
    && w.server.tasks.Keys <= w.known
    && DatedIn(e, w, w.card) && DatedIn(e, w, w.prompt) && DatedIn(e, w, w.overwrote)
    && (w.phase.Conflicted? ==> Dated(w.server.tasks, w.known, e.id, w.phase.theirs))
    && (w.card.Some? && w.prompt.Some? ==> Earlier(w.card.value, w.prompt.value))
  }

  /** Where the edit stands, and what it has pinned. */
  ghost predicate PhaseOk(e: Edit, w: World) {
    && (w.pinned != 0 ==> w.prompt.Some? && w.pinned == w.prompt.value.meta.version && w.attempt <= 1)
    && (w.prompt.Some? && w.prompt.value.meta.version != 0 && w.overwrote.None? ==> w.pinned != 0)
    && w.attempt <= 2
    && (w.phase.Idle? || w.phase.Prompted? ==> w.attempt == 0)
    && (w.phase.Idle? ==> w.prompt.None?)
    && (w.phase.Fetching? || w.phase.Ready? || w.phase.Waiting? ==> w.attempt >= 1)
    && (w.phase == Finished(Refused(409)) ==> w.attempt == 2)
    && (w.phase.Ready? ==> BasisOk(e, w, w.phase.basis))
  }

  /** The request and the reply on the wire. */
  ghost predicate WireOk(e: Edit, w: World) {
    && (w.wire.Some? ==>
          && (w.phase.Waiting? || w.phase == Finished(NoAnswer))
          && w.reply.None?
          && BasisOk(e, w, w.wire.value.basis)
          && w.wire.value.op == UpdateOp(e.id, e.patch(w.wire.value.basis.content), Guard(w, w.wire.value.basis)))
    && (w.reply.Some? ==>
          && w.phase.Waiting?
          && (w.reply.value.status == 200 <==> |w.commits| == 1)
          && (|w.commits| == 1 ==> w.reply.value.task == Some(w.commits[0].after)))
  }

  /** At most one commit, and nothing follows it. */
  ghost predicate CommitsOk(e: Edit, w: World) {
    && (forall c :: c in w.commits ==> CommitOk(e, w.prompt, w.overwrote, c))
    && |w.commits| <= 1
    && (|w.commits| == 1 ==>
          && w.wire.None? && (w.phase.Waiting? ==> w.reply.Some?)
          && (w.phase.Waiting? || w.phase == Finished(Committed(w.commits[0].after)) || w.phase == Finished(NoAnswer)))
    && (w.phase.Finished? && w.phase.ending.Committed? ==> |w.commits| == 1)
  }

  ghost predicate Inv(e: Edit, w: World) {
    ReadingsOk(e, w) && PhaseOk(e, w) && WireOk(e, w) && CommitsOk(e, w)
  }

  lemma DatedStays(s: State, known: set<Id>, r: StoreSpec.Request, saved: bool, known': set<Id>, x: Id, t: Task)
    requires s.tasks.Keys <= known <= known' && Dated(s.tasks, known, x, t)
    requires r.Add? ==> r.id !in known
    ensures Dated(Next(s, r, saved).tasks, known', x, t)
  {
    var s' := Next(s, r, saved);
    if x in s'.tasks {
      if x !in s.tasks {
        NewTasksAreDrawn(s, r, saved, x);
      }
      SurvivorsStepByOne(s, r, saved, x);
    }
  }

  lemma ReadingIsDated(ts: TaskMap, known: set<Id>, x: Id)
    requires x in ts && ts.Keys <= known
    ensures Dated(ts, known, x, ts[x])
  {
  }

  /** Another client's request. */
  lemma OtherKeepsInv(e: Edit, w: World, r: StoreSpec.Request, saved: bool)
    requires Inv(e, w) && Fair(w, Other(r, saved))
    ensures Inv(e, Step(e, w, Other(r, saved)))
  {
    hide Next, Dated, Earlier, CommitOk;
    var w' := Step(e, w, Other(r, saved));
    forall t | Dated(w.server.tasks, w.known, e.id, t) ensures Dated(w'.server.tasks, w'.known, e.id, t) {
      DatedStays(w.server, w.known, r, saved, w'.known, e.id, t);
    }
  }

  /** The server executes the edit's own request. */
  lemma ServeKeepsInv(e: Edit, w: World, now: int, saved: bool)
    requires Inv(e, w) && w.wire.Some?
    ensures Inv(e, Served(e, w, now, saved))
  {
    hide Next, Answer, Dated, CommitOk, Earlier;
    var op := w.wire.value.op;
    var r := StoreSpec.Update([op], now);
    var w' := Served(e, w, now, saved);
    forall t | Dated(w.server.tasks, w.known, e.id, t) ensures Dated(w'.server.tasks, w.known, e.id, t) {
      DatedStays(w.server, w.known, r, saved, w.known, e.id, t);
    }
    if Answer(w.server.tasks, r, saved) == 200 {
      SingleUpdate(w.server, op, now, saved);
      var c := Commit(w.server.tasks[e.id], w'.server.tasks[e.id], w.pinned, op.expectedVersion);
      ServedCommitIsOk(e, w, op, now, c);
      assert w'.commits == w.commits + [c] == [c];
    } else {
      Unserved(w.server, r, saved);
    }
  }

  /** Matching the guard means finding the very task the edit was computed from. */
  lemma ServedCommitIsOk(e: Edit, w: World, op: UpdateOp, now: int, c: Commit)
    requires Inv(e, w) && w.wire.Some? && op == w.wire.value.op && e.id in w.server.tasks
    requires w.server.tasks[e.id].meta.version == op.expectedVersion && ValidContent(op.content)
    requires c == Commit(w.server.tasks[e.id], ApplyOp(w.server.tasks[e.id], op, now), w.pinned, op.expectedVersion)
    ensures CommitOk(e, w.prompt, w.overwrote, c) && c.before == w.wire.value.basis && w.commits == []
  {
  }

  lemma Unserved(s: State, r: StoreSpec.Request, saved: bool)
    requires Answer(s.tasks, r, saved) != 200
    ensures Next(s, r, saved) == s
  {
  }

  lemma SingleUpdate(s: State, op: UpdateOp, now: int, saved: bool)
    requires Answer(s.tasks, StoreSpec.Update([op], now), saved) == 200
    ensures op.id in s.tasks && s.tasks[op.id].meta.version == op.expectedVersion && ValidContent(op.content)
    ensures Next(s, StoreSpec.Update([op], now), saved).tasks == s.tasks[op.id := ApplyOp(s.tasks[op.id], op, now)]
  {
    assert [op][0] == op;
    assert Targets([op], op.id) && OpFor([op], op.id) == op;
  }

  lemma StartingKeepsInv(e: Edit, w: World, a: Action)
    requires Inv(e, w) && (a.OpenCard? || a.Pick? || a.Prompt? || a.Answered?)
    ensures Inv(e, Step(e, w, a))
  {
    hide CommitOk, BasisOk, Next, Answer;
  }

  lemma FetchKeepsInv(e: Edit, w: World, a: Action)
    requires Inv(e, w) && a.Fetch?
    ensures Inv(e, Step(e, w, a))
  {
    hide CommitOk, Next, Answer;
  }

  lemma ChoosingKeepsInv(e: Edit, w: World, a: Action)
    requires Inv(e, w) && (a.ShowConflict? || a.Overwrite? || a.KeepTheirs?)
    ensures Inv(e, Step(e, w, a))
  {
    hide CommitOk, Next, Answer, Earlier, Dated, BasisOk;
    if a.ShowConflict? && e.id in w.server.tasks {
      ReadingIsDated(w.server.tasks, w.known, e.id);
    }
  }

  lemma SendingKeepsInv(e: Edit, w: World, a: Action)
    requires Inv(e, w) && (a.Send? || a.LoseRequest? || a.GiveUp?)
    ensures Inv(e, Step(e, w, a))
  {
    hide CommitOk, Next, Answer, Earlier, Dated;
  }

  lemma ReceiveKeepsInv(e: Edit, w: World)
    requires Inv(e, w)
    ensures Inv(e, Step(e, w, Receive))
  {
    hide CommitOk, Next, Answer, Earlier, Dated, BasisOk;
  }

  lemma StepKeepsInv(e: Edit, w: World, a: Action)
    requires Inv(e, w) && Fair(w, a)
    ensures Inv(e, Step(e, w, a))
  {
    match a
    case Other(r, saved) => OtherKeepsInv(e, w, r, saved);
    case Serve(now, saved) => if w.wire.Some? { ServeKeepsInv(e, w, now, saved); }
    case Receive => ReceiveKeepsInv(e, w);
    case Send => SendingKeepsInv(e, w, a);
    case LoseRequest => SendingKeepsInv(e, w, a);
    case GiveUp => SendingKeepsInv(e, w, a);
    case Fetch(_) => FetchKeepsInv(e, w, a);
    case ShowConflict(_) => ChoosingKeepsInv(e, w, a);
    case Overwrite => ChoosingKeepsInv(e, w, a);
    case KeepTheirs => ChoosingKeepsInv(e, w, a);
    case _ => StartingKeepsInv(e, w, a);
  }

  lemma {:induction false} RunKeepsInv(e: Edit, w: World, actions: seq<Action>)
    requires Start(w) && Fairly(e, w, actions)
    ensures Inv(e, After(e, w, actions))
    decreases |actions|
  {
    if actions != [] {
      var n := |actions| - 1;
      RunKeepsInv(e, w, actions[..n]);
      StepKeepsInv(e, After(e, w, actions[..n]), actions[n]);
    }
  }

  // ----- what the caller may rely on ------------------------------------------

  /** No lost update: whatever the others did in between, a commit replaces the
      content it finds by the patch of exactly that content, and there is at most
      one, even when replies are lost. */
  lemma NoLostUpdate(e: Edit, w: World, actions: seq<Action>)
    requires Start(w) && Fairly(e, w, actions)
    ensures var end := After(e, w, actions);
      && |end.commits| <= 1
      && (forall c :: c in end.commits ==> c.after.content == e.patch(c.before.content))
  {
    RunKeepsInv(e, w, actions);
  }

  /** The ending tells the truth: success means committed, and any other answer
      means nothing was written. Only silence leaves it open. */
  lemma EndingIsHonest(e: Edit, w: World, actions: seq<Action>)
    requires Start(w) && Fairly(e, w, actions)
    ensures var end := After(e, w, actions);
      end.phase.Finished? ==>
        match end.phase.ending
        case Committed(t) => |end.commits| == 1 && end.commits[0].after == t
        case NoAnswer => true
        case _ => end.commits == []
  {
    RunKeepsInv(e, w, actions);
  }

  /** A conflict is reported as final only after the one retry; a pinned edit
      is never retried. */
  lemma RetriesAreBounded(e: Edit, w: World, actions: seq<Action>)
    requires Start(w) && Fairly(e, w, actions)
    ensures var end := After(e, w, actions);
      && end.attempt <= 2
      && (end.pinned != 0 ==> end.attempt <= 1)
      && (end.phase == Finished(Refused(409)) ==> end.attempt == 2)
  {
    RunKeepsInv(e, w, actions);
  }

  /** Unless the user chose to overwrite, a reply to a prompt only ever replaces
      the content that was stored when the prompt went out. */
  ghost predicate PromptProtects(e: Edit, p: Task) {
    forall w, actions, c ::
      Start(w) && Fairly(e, w, actions) && c in After(e, w, actions).commits
      && After(e, w, actions).prompt == Some(p) && After(e, w, actions).overwrote.None?
      ==> c.before.content == p.content
  }

  /** A version other than 0 protects, whatever the task and the edit. */
  lemma PinnedPromptProtects(e: Edit, p: Task)
    requires p.meta.version != 0
    ensures PromptProtects(e, p)
  {
    forall w, actions, c |
      Start(w) && Fairly(e, w, actions) && c in After(e, w, actions).commits
      && After(e, w, actions).prompt == Some(p) && After(e, w, actions).overwrote.None?
      ensures c.before.content == p.content
    {
      RunKeepsInv(e, w, actions);
    }
  }

  /** What a reply can change. */
  datatype TextChange = NewTitle(title: string) | NewDescription(description: string) | NewTags(tags: seq<string>)

  function Changed(ch: TextChange, c: Content): Content {
    match ch
    case NewTitle(title) => c.(title := title)
    case NewDescription(description) => c.(description := description)
    case NewTags(tags) => c.(tags := tags)
  }

  function TextEdit(id: Id, ch: TextChange): Edit { Edit(id, c => Changed(ch, c)) }

  predicate BlankTitle(ch: TextChange) { ch.NewTitle? && OnlySpace(ch.title) }

  /** Some server can hold this task under this id. */
  predicate Storable(id: Id, p: Task) {
    p.id == id && id !in p.content.childIds
    && forall i, j :: 0 <= i < j < |p.content.childIds| ==> p.content.childIds[i] != p.content.childIds[j]
  }

  /** The prompt protects exactly when the version it pins is not 0, the value that
      stands for "no pin"; a blank title does no harm either way, since the server
      refuses it, and a task no server can hold is never prompted for. A store that
      starts empty never produces a 0. */
  lemma PromptProtectsIff(id: Id, ch: TextChange, p: Task)
    ensures PromptProtects(TextEdit(id, ch), p) <==> p.meta.version != 0 || BlankTitle(ch) || !Storable(id, p)
  {
    if p.meta.version != 0 {
      PinnedPromptProtects(TextEdit(id, ch), p);
    } else if BlankTitle(ch) || !Storable(id, p) {
      Harmless(id, ch, p);
    } else {
      var w, actions, c := VersionZeroSlipsThrough(id, ch, p);
    }
  }

  lemma Harmless(id: Id, ch: TextChange, p: Task)
    requires BlankTitle(ch) || !Storable(id, p)
    ensures PromptProtects(TextEdit(id, ch), p)
  {
    var e := TextEdit(id, ch);
    forall w, actions, c |
      Start(w) && Fairly(e, w, actions) && c in After(e, w, actions).commits
      && After(e, w, actions).prompt == Some(p) && After(e, w, actions).overwrote.None?
      ensures c.before.content == p.content
    {
      BlankTitleOr(id, ch, w, actions, c, p);
      PromptIsStorable(e, w, actions);
    }
  }

  /** What the server accepted has a title. */
  lemma BlankTitleOr(id: Id, ch: TextChange, w: World, actions: seq<Action>, c: Commit, p: Task)
    requires Start(w) && Fairly(TextEdit(id, ch), w, actions) && c in After(TextEdit(id, ch), w, actions).commits
    ensures !BlankTitle(ch) || c.before.content == p.content
  {
    hide After, Fairly;
    RunKeepsInv(TextEdit(id, ch), w, actions);
  }

  lemma StoredIsStorable(ts: TaskMap, id: Id)
    requires Graph.IsForest(ts) && KeysMatch(ts) && id in ts
    ensures Storable(id, ts[id])
  {
    var kids := ts[id].content.childIds;
    if id in kids {
      assert Graph.Edge(ts, id, id);
      Graph.ReachesSelf(ts, id);
      Graph.NoWayBack(ts, id, id);
    }
    forall i, j | 0 <= i < j < |kids| ensures kids[i] != kids[j] {
      assert Graph.Lists(ts, id, i, kids[i]) && Graph.Lists(ts, id, j, kids[j]);
    }
  }

  lemma {:induction false} PromptIsStorable(e: Edit, w: World, actions: seq<Action>)
    requires Start(w) && Fairly(e, w, actions)
    ensures var end := After(e, w, actions);
      && Graph.IsForest(end.server.tasks) && KeysMatch(end.server.tasks)
      && (end.prompt.Some? ==> Storable(e.id, end.prompt.value))
    decreases |actions|
  {
    if actions != [] {
      hide Graph.IsForest, KeysMatch, Storable, Fair;
      var n := |actions| - 1;
      PromptIsStorable(e, w, actions[..n]);
      StepKeepsForest(e, After(e, w, actions[..n]), actions[n]);
    }
  }

  lemma StepKeepsForest(e: Edit, w: World, a: Action)
    requires Graph.IsForest(w.server.tasks) && KeysMatch(w.server.tasks)
      && (w.prompt.Some? ==> Storable(e.id, w.prompt.value))
    ensures var v := Step(e, w, a);
      && Graph.IsForest(v.server.tasks) && KeysMatch(v.server.tasks)
      && (v.prompt.Some? ==> Storable(e.id, v.prompt.value))
  {
    hide Graph.IsForest, KeysMatch, Storable, Next;
    match a
    case Other(r, saved) => NextKeepsForest(w.server, r, saved);
    case Serve(now, saved) =>
      if w.wire.Some? { NextKeepsForest(w.server, StoreSpec.Update([w.wire.value.op], now), saved); }
    case Prompt(_) => if e.id in w.server.tasks { StoredIsStorable(w.server.tasks, e.id); }
    case _ =>
  }

  lemma NextKeepsForest(s: State, r: StoreSpec.Request, saved: bool)
    requires Graph.IsForest(s.tasks) && KeysMatch(s.tasks)
    ensures Graph.IsForest(Next(s, r, saved).tasks) && KeysMatch(Next(s, r, saved).tasks)
  {
  }

  /** Version 0: the prompt goes out, someone else rewrites the task, and the reply
      replaces the new content unseen. */
  lemma VersionZeroSlipsThrough(id: Id, ch: TextChange, p: Task) returns (w: World, actions: seq<Action>, c: Commit)
    requires p.meta.version == 0 && !BlankTitle(ch) && Storable(id, p)
    ensures Start(w) && Fairly(TextEdit(id, ch), w, actions) && c in After(TextEdit(id, ch), w, actions).commits
    ensures After(TextEdit(id, ch), w, actions).prompt == Some(p) && After(TextEdit(id, ch), w, actions).overwrote.None?
    ensures c.before.content != p.content
  {
    var e := TextEdit(id, ch);
    w := FamilyWorld(id, p);
    actions := AskAndAnswer(e, w, [], p);
    var t: Task;
    actions, t := SomeoneRewrites(e, w, actions);
    actions, c := MineLast(e, w, actions);
  }

  // ----- the runs that show it ----------------------------------------------------

  function Leaf(id: Id): Task {
    Task(id, Content("x", "", Todo, NoPriority, [], [], None, None), Meta(0, 0, None, 1))
  }

  /** The task and its children, which have none. */
  function Family(id: Id, p: Task): TaskMap {
    map x | x in {id} + (set c | c in p.content.childIds) :: if x == id then p else Leaf(x)
  }

  /** Nobody but `id` lists anything. */
  predicate OnlyParent(ts: TaskMap, id: Id) {
    id in ts && forall x :: x in ts && x != id ==> ts[x].content.childIds == []
  }

  lemma FamilyIsForest(id: Id, p: Task)
    requires Storable(id, p)
    ensures Graph.IsForest(Family(id, p)) && KeysMatch(Family(id, p)) && OnlyParent(Family(id, p), id)
  {
    var ts := Family(id, p);
    Graph.RankedIsAcyclic(ts, map x | x in ts :: if x == id then 1 else 0);
  }

  /** That family in the store, before anything happened. */
  lemma FamilyWorld(id: Id, p: Task) returns (w: World)
    requires Storable(id, p)
    ensures Start(w) && OnlyParent(w.server.tasks, id) && w.server.tasks[id] == p
    ensures w.phase.Idle? && w.card.None? && w.overwrote.None? && w.commits == [] && w.server.tasks.Keys <= w.known
    ensures forall e :: Fairly(e, w, []) && After(e, w, []) == w
  {
    var ts := Family(id, p);
    FamilyIsForest(id, p);
    w := World(State(1, 0, ts), ts.Keys, Idle, 0, 0, None, None, None, None, [], None);
  }

  /** Another valid content, without children. */
  function Rewritten(c: Content): (d: Content)
    ensures d != c && ValidContent(d) && d.childIds == []
  {
    var title := c.title + "x";
    assert title[..|c.title|] == c.title && title[|c.title|] == 'x';
    Content(title, "", Todo, NoPriority, [], [], None, None)
  }

  /** A matching update that leaves nobody with children is accepted. */
  lemma LoneUpdate(s: State, op: UpdateOp, now: int)
    requires OnlyParent(s.tasks, op.id) && s.tasks[op.id].meta.version == op.expectedVersion
    requires ValidContent(op.content) && op.content.childIds == []
    ensures Answer(s.tasks, StoreSpec.Update([op], now), true) == 200
    ensures Next(s, StoreSpec.Update([op], now), true).tasks == s.tasks[op.id := ApplyOp(s.tasks[op.id], op, now)]
  {
    var r := StoreSpec.Update([op], now);
    assert [op][0] == op;
    assert Targets([op], op.id) && OpFor([op], op.id) == op;
    var us := Candidate(s.tasks, r);
    assert us == s.tasks[op.id := ApplyOp(s.tasks[op.id], op, now)];
    Graph.RankedIsAcyclic(us, map[]);
  }

  /** Somebody else rewrites the task; the edit stands where it stood. */
  lemma SomeoneRewrites(e: Edit, w: World, before: seq<Action>) returns (actions: seq<Action>, t: Task)
    requires Fairly(e, w, before)
    requires var v := After(e, w, before); OnlyParent(v.server.tasks, e.id) && v.server.tasks.Keys <= v.known
    ensures Fairly(e, w, actions)
    ensures var v := After(e, w, before);
      && t.content == Rewritten(v.server.tasks[e.id].content) && t.meta.version == v.server.tasks[e.id].meta.version + 1
      && After(e, w, actions)
         == v.(server := State(v.server.formatVersion, v.server.stateVersion + 1, v.server.tasks[e.id := t]))
  {
    hide Answer, Next, ValidContent;
    var v := After(e, w, before);
    var op := UpdateOp(e.id, Rewritten(v.server.tasks[e.id].content), v.server.tasks[e.id].meta.version);
    LoneUpdate(v.server, op, 0);
    Served200(v.server, StoreSpec.Update([op], 0));
    t := ApplyOp(v.server.tasks[e.id], op, 0);
    var u := Extend(e, w, before, Other(StoreSpec.Update([op], 0), true));
    actions := before + [Other(StoreSpec.Update([op], 0), true)];
    assert v.known + u.server.tasks.Keys + {} == v.known;
  }

  lemma Served200(s: State, r: StoreSpec.Request)
    requires Answer(s.tasks, r, true) == 200
    ensures Next(s, r, true) == State(s.formatVersion, s.stateVersion + 1, Next(s, r, true).tasks)
  {
  }

  /** The prompt goes out and the user answers. */
  lemma AskAndAnswer(e: Edit, w: World, before: seq<Action>, p: Task) returns (actions: seq<Action>)
    requires Fairly(e, w, before) && After(e, w, before).phase.Idle?
    requires e.id in After(e, w, before).server.tasks && After(e, w, before).server.tasks[e.id] == p
    ensures Fairly(e, w, actions)
    ensures After(e, w, actions)
      == After(e, w, before).(phase := Fetching, attempt := 1, prompt := Some(p), pinned := p.meta.version)
  {
    var w1 := Extend(e, w, before, Prompt(true));
    actions := before + [Prompt(true)];
    var w2 := Extend(e, w, actions, Answered);
    actions := actions + [Answered];
  }

  /** The attempt reads the task and sends its update. */
  lemma FetchAndSend(e: Edit, w: World, before: seq<Action>) returns (actions: seq<Action>)
    requires Fairly(e, w, before) && After(e, w, before).phase.Fetching? && e.id in After(e, w, before).server.tasks
    ensures Fairly(e, w, actions)
    ensures var v := After(e, w, before);
      var t := v.server.tasks[e.id];
      After(e, w, actions) == v.(phase := Waiting,
        wire := Some(Request(UpdateOp(e.id, e.patch(t.content), Guard(v, t)), t)))
  {
    var w4 := Extend(e, w, before, Fetch(true));
    actions := before + [Fetch(true)];
    var w5 := Extend(e, w, actions, Send);
    actions := actions + [Send];
  }

  /** From there the edit goes through, over whatever is stored by now. */
  lemma MineLast(e: Edit, w: World, earlier: seq<Action>) returns (actions: seq<Action>, c: Commit)
    requires Fairly(e, w, earlier)
    requires var v := After(e, w, earlier);
      && OnlyParent(v.server.tasks, e.id) && v.phase.Fetching? && v.commits == []
      && (v.pinned == 0 || v.pinned == v.server.tasks[e.id].meta.version)
      && ValidContent(e.patch(v.server.tasks[e.id].content)) && e.patch(v.server.tasks[e.id].content).childIds == []
    ensures Fairly(e, w, actions)
    ensures var v, end := After(e, w, earlier), After(e, w, actions);
      && end.commits == [c] && c.before == v.server.tasks[e.id] && c.pinned == v.pinned
      && end.prompt == v.prompt && end.overwrote == v.overwrote && end.card == v.card
  {
    hide Answer, Next, ValidContent;
    var v := After(e, w, earlier);
    var t := v.server.tasks[e.id];
    actions := FetchAndSend(e, w, earlier);
    var mine := UpdateOp(e.id, e.patch(t.content), t.meta.version);
    LoneUpdate(v.server, mine, 0);
    var w6 := Extend(e, w, actions, Serve(0, true));
    actions := actions + [Serve(0, true)];
    c := Commit(t, w6.server.tasks[e.id], v.pinned, t.meta.version);
  }

  // ----- what the bot makes of a reply ---------------------------------------------

  datatype PromptArg = TitleArg | DescriptionArg | TagsArg

  /** A title of nothing but space is refused before any request. */
  function ChangeOf(arg: PromptArg, text: string): Option<TextChange> {
    var value := TrimSpace(text);
    match arg
    case TitleArg => if value == [] then None else Some(NewTitle(value))
    case DescriptionArg => Some(NewDescription(value))
    case TagsArg => Some(NewTags(TagPieces(value)))
  }

  /** For what the user actually types: the reply is refused, or it never replaces
      anything but the content the prompt went out with, exactly when the pinned
      version is not 0 or there is nothing but space where a title should be. */
  lemma ReplyProtectsIff(id: Id, arg: PromptArg, text: string, p: Task)
    requires Storable(id, p)
    ensures
      var ch := ChangeOf(arg, text);
      (ch.Some? ==> PromptProtects(TextEdit(id, ch.value), p))
      <==> p.meta.version != 0 || (arg.TitleArg? && forall i :: 0 <= i < |text| ==> IsSpace(text[i]))
  {
    hide PromptProtects;
    var ch := ChangeOf(arg, text);
    if ch.Some? {
      PromptProtectsIff(id, ch.value, p);
    }
  }

  /** What a reply does to a task, in whatever run it is committed: the title or the
      description becomes the typed text without its outer space, or the tags become
      its comma-separated pieces, and nothing else of the content changes. */
  lemma ReplyChangesItsField(id: Id, arg: PromptArg, text: string, w: World, actions: seq<Action>, c: Commit)
    requires ChangeOf(arg, text).Some?
    requires var e := TextEdit(id, ChangeOf(arg, text).value);
      Start(w) && Fairly(e, w, actions) && c in After(e, w, actions).commits
    ensures
      var before, after := c.before.content, c.after.content;
      match arg
      case TitleArg => after == before.(title := after.title) && Strips(IsSpace, text, after.title) && after.title != ""
      case DescriptionArg =>
        after == before.(description := after.description) && Strips(IsSpace, text, after.description)
      case TagsArg => after == before.(tags := after.tags) && ListsAfterTrim(text, after.tags)
  {
    hide After, Fairly, Strips, Lists;
    NoLostUpdate(TextEdit(id, ChangeOf(arg, text).value), w, actions);
    TrimSpaceStrips(text);
    if arg.TagsArg? {
      PiecesAreListed(TrimSpace(text));
    }
  }

  /** A reply of clean tags, separated as people do, sets exactly those tags. */
  lemma CleanTagsAreSet(tags: seq<string>)
    requires AllClean(IsSpace, tags)
    ensures ChangeOf(TagsArg, JoinedBy(tags, ", ")) == Some(NewTags(tags))
  {
    CleanListReadsBack(tags);
  }

  // ----- what the user had in view ----------------------------------------------

  /** The task the user read on the card is the one a pinned reply replaces exactly
      when the version on the card is the pinned one. */
  lemma CardIsReplacedIff(e: Edit, w: World, actions: seq<Action>, c: Commit)
    requires Start(w) && Fairly(e, w, actions) && c in After(e, w, actions).commits
    requires After(e, w, actions).card.Some? && c.pinned != 0
    ensures var card := After(e, w, actions).card.value;
      c.before == card <==> card.meta.version == c.pinned
  {
    RunKeepsInv(e, w, actions);
    hide After, Fairly, Dated, ValidContent;
  }

  /** And the value on the conflict card is the one an overwrite replaces exactly
      when its version is the one the overwrite was sent under. */
  lemma OverwrittenIsShownIff(e: Edit, w: World, actions: seq<Action>, c: Commit)
    requires Start(w) && Fairly(e, w, actions) && c in After(e, w, actions).commits
    requires After(e, w, actions).overwrote.Some?
    ensures var theirs := After(e, w, actions).overwrote.value;
      c.before == theirs <==> theirs.meta.version == c.guard
  {
    RunKeepsInv(e, w, actions);
  }

  /** It does happen that they differ: a change between the card and the prompt is
      replaced, pinned or not, though the user never saw it. */
  lemma ChangeAfterCardIsReplaced(id: Id, ch: TextChange, p: Task) returns (w: World, actions: seq<Action>, c: Commit)
    requires !BlankTitle(ch) && Storable(id, p)
    ensures Start(w) && Fairly(TextEdit(id, ch), w, actions) && c in After(TextEdit(id, ch), w, actions).commits
    ensures After(TextEdit(id, ch), w, actions).card == Some(p) && c.pinned != 0
    ensures c.before.content != p.content
  {
    var e := TextEdit(id, ch);
    w := FamilyWorld(id, p);
    var w1 := Extend(e, w, [], OpenCard(true));
    var t: Task;
    actions, t := SomeoneRewrites(e, w, [] + [OpenCard(true)]);
    actions := AskAndAnswer(e, w, actions, t);
    actions, c := MineLast(e, w, actions);
  }

  /** And so is a change between the conflict card and the overwrite. */
  lemma ChangeAfterConflictIsReplaced(id: Id, ch: TextChange, p: Task)
        returns (w: World, actions: seq<Action>, c: Commit)
    requires !BlankTitle(ch) && Storable(id, p) && p.meta.version != 0
    ensures Start(w) && Fairly(TextEdit(id, ch), w, actions) && c in After(TextEdit(id, ch), w, actions).commits
    ensures var end := After(TextEdit(id, ch), w, actions);
      end.prompt == Some(p) && end.overwrote.Some? && c.before.content != end.overwrote.value.content
  {
    var e := TextEdit(id, ch);
    hide After, Fairly, Start, Answer, Next;
    w := FamilyWorld(id, p);
    actions := AskAndAnswer(e, w, [], p);
    var t, u: Task;
    actions, t := SomeoneRewrites(e, w, actions);
    actions := MeetConflict(e, w, actions, t);
    actions, u := SomeoneRewrites(e, w, actions);
    var w9 := Extend(e, w, actions, Overwrite);
    actions := actions + [Overwrite];
    actions, c := MineLast(e, w, actions);
  }

  /** The pinned attempt meets a newer version, and both values are shown. */
  lemma MeetConflict(e: Edit, w: World, before: seq<Action>, t: Task) returns (actions: seq<Action>)
    requires Fairly(e, w, before)
    requires var v := After(e, w, before);
      && v.phase.Fetching? && v.pinned != 0 && e.id in v.server.tasks && v.server.tasks[e.id] == t
      && t.meta.version != v.pinned && ValidContent(e.patch(t.content))
    ensures Fairly(e, w, actions)
    ensures After(e, w, actions) == After(e, w, before).(phase := Conflicted(t), wire := None, reply := None)
  {
    hide ValidContent, Next;
    var v := After(e, w, before);
    actions := FetchAndSend(e, w, before);
    var op := UpdateOp(e.id, e.patch(t.content), v.pinned);
    Mismatched(v.server, op);
    var w6 := Extend(e, w, actions, Serve(0, true));
    actions := actions + [Serve(0, true)];
    assert w6 == v.(phase := Waiting, wire := None, reply := Some(Reply(409, None)));
    var w7 := Extend(e, w, actions, Receive);
    actions := actions + [Receive];
    var w8 := Extend(e, w, actions, ShowConflict(true));
    actions := actions + [ShowConflict(true)];
  }

  lemma Mismatched(s: State, op: UpdateOp)
    requires op.id in s.tasks && s.tasks[op.id].meta.version != op.expectedVersion && ValidContent(op.content)
    ensures Answer(s.tasks, StoreSpec.Update([op], 0), true) == 409
    ensures Next(s, StoreSpec.Update([op], 0), true) == s
  {
    assert [op][0] == op;
  }

  lemma Extend(e: Edit, w: World, actions: seq<Action>, a: Action) returns (v: World)
    requires Fairly(e, w, actions) && Fair(After(e, w, actions), a)
    ensures v == Step(e, After(e, w, actions), a)
    ensures After(e, w, actions + [a]) == v && Fairly(e, w, actions + [a])
  {
    v := Step(e, After(e, w, actions), a);
    assert (actions + [a])[..|actions|] == actions;
  }
}
