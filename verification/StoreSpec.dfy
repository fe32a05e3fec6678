/** What one request does to the state, as a function of the state before it:
    which HTTP status it earns and which task map it would leave. */
module StoreSpec {
  import opened Tasks
  import opened Graph
  import opened Validate

  datatype State = State(formatVersion: nat, stateVersion: nat, tasks: TaskMap)

  datatype AddRequest = AddRequest(content: Content, parentId: Option<Id>, position: Option<int>)

  datatype UpdateOp = UpdateOp(id: Id, content: Content, expectedVersion: nat)

  /** A request together with the clock reading and, for an add, the id the
      generator hands out. */
  datatype Request =
    | Add(req: AddRequest, id: Id, now: int)
    | Update(ops: seq<UpdateOp>, now: int)
    | Delete(id: Id, now: int)

  datatype Error =
    | EmptyTitle | BadStatus | BadPriority | ChildIdsOnAdd | DuplicateInBatch(id: Id)
    | NotFound
    | Conflict(conflicts: seq<Task>)
    | Broken(violation: Violation)
    | SaveFailed

  /** The status code the HTTP layer answers with. */
  function StatusOf(e: Error): int {
    match e
    case NotFound => 404
    case Conflict(_) => 409
    case Broken(_) => 422
    case SaveFailed => 500
    case _ => 400
  }

  // ----- content --------------------------------------------------------------

  predicate OnlySpace(s: string) {
    forall i :: 0 <= i < |s| ==> s[i] == ' ' || s[i] == '\t' || s[i] == '\n' || s[i] == '\r'
  }

  predicate ValidContent(c: Content) {
    !OnlySpace(c.title) && c.status.Valid() && c.priority.Valid()
  }

  /** `completedAt` follows transitions into and out of the terminal statuses. */
  function ApplyCompletion(m: Meta, before: Status, after: Status, now: int): Meta {
    if !before.Terminal() && after.Terminal() then m.(completedAt := Some(now))
    else if before.Terminal() && !after.Terminal() then m.(completedAt := None)
    else m
  }

  // ----- adding ---------------------------------------------------------------

  function Clamp(v: int, lo: int, hi: int): int {
    if v < lo then lo else if v > hi then hi else v
  }

  function InsertAt(s: seq<Id>, i: int, v: Id): seq<Id>
    requires 0 <= i <= |s|
  {
    s[..i] + [v] + s[i..]
  }

  function NewTask(req: AddRequest, id: Id, now: int): Task {
    var meta := ApplyCompletion(Meta(now, now, None, 1), Todo, req.content.status, now);
    Task(id, req.content.(childIds := []), meta)
  }

  function Position(req: AddRequest, n: nat): (i: int)
    ensures 0 <= i <= n
  {
    if req.position.Some? then Clamp(req.position.value, 0, n) else n
  }

  function Touch(t: Task, childIds: seq<Id>, now: int): Task {
    t.(content := t.content.(childIds := childIds),
       meta := t.meta.(version := t.meta.version + 1, updatedAt := now))
  }

  function AddedTasks(ts: TaskMap, req: AddRequest, id: Id, now: int): TaskMap {
    var withTask := ts[id := NewTask(req, id, now)];
    if req.parentId.Some? && req.parentId.value in withTask then
      var p := withTask[req.parentId.value];
      var kids := p.content.childIds;
      withTask[req.parentId.value := Touch(p, InsertAt(kids, Position(req, |kids|), id), now)]
    else withTask
  }

  // ----- updating -------------------------------------------------------------

  predicate DistinctIds(ops: seq<UpdateOp>) {
    forall i, j :: 0 <= i < j < |ops| ==> ops[i].id != ops[j].id
  }

  predicate Targets(ops: seq<UpdateOp>, id: Id) {
    exists k :: 0 <= k < |ops| && ops[k].id == id
  }

  ghost predicate AllExist(ts: TaskMap, ops: seq<UpdateOp>) {
    forall k :: 0 <= k < |ops| ==> ops[k].id in ts
  }

  ghost function OpFor(ops: seq<UpdateOp>, id: Id): (op: UpdateOp)
    requires Targets(ops, id)
    ensures op in ops && op.id == id
  {
    var k :| 0 <= k < |ops| && ops[k].id == id;
    ops[k]
  }

  function ApplyOp(t: Task, op: UpdateOp, now: int): Task {
    var meta := ApplyCompletion(t.meta, t.content.status, op.content.status, now);
    t.(content := op.content, meta := meta.(version := t.meta.version + 1, updatedAt := now))
  }

  ghost function UpdatedTasks(ts: TaskMap, ops: seq<UpdateOp>, now: int): TaskMap {
    map x | x in ts :: if Targets(ops, x) then ApplyOp(ts[x], OpFor(ops, x), now) else ts[x]
  }

  /** The current tasks of the mismatched operations, in batch order. */
  ghost function Conflicts(ts: TaskMap, ops: seq<UpdateOp>): seq<Task>
    requires AllExist(ts, ops)
  {
    if ops == [] then []
    else
      var last := ops[|ops| - 1];
      var rest := Conflicts(ts, ops[..|ops| - 1]);
      if ts[last.id].meta.version != last.expectedVersion then rest + [ts[last.id]] else rest
  }

  // ----- deleting -------------------------------------------------------------

  function Without(s: seq<Id>, v: Id): seq<Id> {
    if s == [] then []
    else
      var rest := Without(s[..|s| - 1], v);
      if s[|s| - 1] == v then rest else rest + [s[|s| - 1]]
  }

  function DeletedTasks(ts: TaskMap, id: Id, now: int): TaskMap {
    map x | x in ts && x != id ::
      if id in ts[x].content.childIds then Touch(ts[x], Without(ts[x].content.childIds, id), now) else ts[x]
  }

  // ----- one request ----------------------------------------------------------

  /** The answer the request earns before the structural check. */
  ghost function Screen(ts: TaskMap, r: Request): int {
    match r
    case Add(req, id, _) =>
      if !ValidContent(req.content) || req.content.childIds != [] then 400
      else if req.parentId.Some? && req.parentId.value !in ts && req.parentId.value != id then 404
      else 200
    case Update(ops, _) =>
      if (exists k :: 0 <= k < |ops| && !ValidContent(ops[k].content)) || !DistinctIds(ops) then 400
      else if !AllExist(ts, ops) then 404
      else if exists k :: 0 <= k < |ops| && ts[ops[k].id].meta.version != ops[k].expectedVersion then 409
      else 200
    case Delete(id, _) => if id !in ts then 404 else 200
  }

  /** The task map the request would leave. */
  ghost function Candidate(ts: TaskMap, r: Request): TaskMap {
    match r
    case Add(req, id, now) => AddedTasks(ts, req, id, now)
    case Update(ops, now) => UpdatedTasks(ts, ops, now)
    case Delete(id, now) => DeletedTasks(ts, id, now)
  }

  ghost function Answer(ts: TaskMap, r: Request, saved: bool): int {
    if Screen(ts, r) != 200 then Screen(ts, r)
    else if !IsForest(Candidate(ts, r)) then 422
    else if !saved then 500
    else 200
  }

  ghost function Next(s: State, r: Request, saved: bool): State {
    if Answer(s.tasks, r, saved) == 200
    then State(s.formatVersion, s.stateVersion + 1, Candidate(s.tasks, r))
    else s
  }

  // ----- invariants the state keeps -------------------------------------------

  ghost predicate KeysMatch(ts: TaskMap) {
    forall x :: x in ts ==> ts[x].id == x
  }

  /** `parent[c] == p` exactly when `p` lists `c`. */
  ghost predicate IsParentIndex(ts: TaskMap, parent: map<Id, Id>) {
    && (forall c {:trigger c in parent} :: c in parent ==> parent[c] in ts && c in ts[parent[c]].content.childIds)
    && (forall a, c {:trigger c in ts[a].content.childIds} ::
          a in ts && c in ts[a].content.childIds ==> c in parent && parent[c] == a)
  }

  lemma WithoutHolds(s: seq<Id>, v: Id)
    ensures forall x :: x in Without(s, v) <==> x in s && x != v
  {
    if s != [] {
      WithoutHolds(s[..|s| - 1], v);
      assert s == s[..|s| - 1] + [s[|s| - 1]];
    }
  }

  lemma {:induction false} WithoutAbsent(s: seq<Id>, v: Id)
    requires v !in s
    ensures Without(s, v) == s
  {
    if s != [] {
      WithoutAbsent(s[..|s| - 1], v);
      assert s == s[..|s| - 1] + [s[|s| - 1]];
    }
  }
}
