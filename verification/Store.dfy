/** The transactional store: clone, edit the candidate, check it, persist it,
    and only then commit. Clock, id generator and the outcome of the file
    replacement are parameters. */
module Store {
  import opened Tasks
  import opened Graph
  import opened Validate
  import opened StoreSpec
  import StoreLaws

  const CURRENT_FORMAT: nat := 1

  datatype Result<+T> = Ok(value: T) | Err(error: Error)

  datatype LoadError = Unreadable | TooNew | NotForest(violation: Violation) | FirstSaveFailed

  // ----- the data file ----------------------------------------------------------------

  /** The JSON text of a state, all of it or cut short; `synced` once it is known to
      be on the disk and not only in a cache. */
  datatype File = File(of: State, whole: bool, synced: bool)

  /** The data file, the temporary file of a save under way, and what saves that
      died have left behind under other names. */
  datatype Folder = Folder(target: Option<File>, temp: Option<File>, left: seq<File>)

  /** Where a save can fail. */
  datatype Fault = NoFault | MarshalFails | CreateFails | WriteFails | SyncFails | CloseFails | RenameFails

  function Saved(s: State): File { File(s, true, true) }

  /** One change of the folder: the temporary file changes, or takes the data file's
      place in one step. */
  predicate Primitive(f: Folder, g: Folder) {
    g.left == f.left && (g.target == f.target || (f.temp.Some? && g.target == f.temp && g.temp.None?))
  }

  /** What was not synced may be cut short. */
  predicate Survives(f: File, g: File) {
    g.of == f.of && g.synced && (f.synced ==> g == f)
  }

  /** The process dies at `f`, and the next one finds `g`. */
  predicate AfterCrash(f: Folder, g: Folder) {
    && g.temp.None?
    && (f.target.None? <==> g.target.None?) && (f.target.Some? ==> Survives(f.target.value, g.target.value))
    && (g.left == f.left
        || (f.temp.Some? && |g.left| == |f.left| + 1 && f.left <= g.left && Survives(f.temp.value, g.left[|f.left|])))
  }

  /** What the data file means to this binary; an absent file is an empty state. A
      format of 0 was written before the field existed and counts as 1. */
  function Adopt(file: Option<File>): State {
    if file.None? then State(1, 0, map[])
    else if file.value.of.formatVersion == 0 then file.value.of.(formatVersion := 1)
    else file.value.of
  }

  ghost predicate Loadable(file: Option<File>) {
    && (file.Some? ==> file.value.whole)
    && Adopt(file).formatVersion <= 1 && IsForest(Adopt(file).tasks)
  }

  /** Whenever the process dies from `trail[from]` on, the data file is the old one or
      holds `s`, whole. */
  ghost predicate CrashProof(trail: seq<Folder>, from: int, before: Option<File>, s: State) {
    forall i, g :: from <= i < |trail| && 0 <= i && AfterCrash(trail[i], g) ==>
      g.target == before || g.target == Some(Saved(s))
  }

  /** ... and the next process starts with the one state or the other. */
  ghost predicate Recoverable(trail: seq<Folder>, from: int, a: State, b: State) {
    forall i, g :: from <= i < |trail| && 0 <= i && AfterCrash(trail[i], g)
      ==> Loadable(g.target) && (Adopt(g.target) == a || Adopt(g.target) == b)
  }

  /** Wherever the process dies, the next one starts. */
  ghost predicate NeverLost(trail: seq<Folder>) {
    forall i, g :: 0 <= i < |trail| && AfterCrash(trail[i], g) ==> Loadable(g.target)
  }

  class Store {
    var state: State
    /** child -> parent; absent means root. */
    var parent: map<Id, Id>
    /** The folder as it has been, step by step, since the process started. The last
        is the folder as it is: there is no other copy of it. */
    var trail: seq<Folder>

    function Disk(): Folder
      requires trail != []
      reads `trail
    {
      trail[|trail| - 1]
    }

    ghost predicate Valid()
      reads this
    {
      && KeysMatch(state.tasks)
      && IsForest(state.tasks)
      && IsParentIndex(state.tasks, parent)
      && trail != [] && NeverLost(trail)
      && Disk().temp.None? && Disk().target.Some? && Disk().target.value.synced
      && Adopt(Disk().target) == state && Loadable(Disk().target)
    }

    constructor (folder: Folder)
      ensures trail == [folder]
    {
      trail := [folder];
      state := State(CURRENT_FORMAT, 0, map[]);
      parent := map[];
    }

    /** Nothing before this call is a store yet: it succeeds exactly on a whole
        file that holds a forest in a known format, or by writing the first file,
        whatever earlier processes have left in the folder. A file whose keys are not
        its tasks' ids is accepted too, and does not make a valid store. */
    method Load(fault: Fault) returns (e: Option<LoadError>)
      requires |trail| == 1 && Disk().temp.None?
      modifies this
      ensures trail != []
      ensures e.None? <==> Loadable(old(Disk()).target) && (old(Disk()).target.Some? || fault.NoFault?)
      ensures e.None? ==> state == Adopt(old(Disk()).target) && OwnerIndex(state.tasks, state.tasks.Keys, parent)
      ensures e.None? ==>
        (Valid() <==> KeysMatch(state.tasks) && (old(Disk()).target.Some? ==> old(Disk()).target.value.synced))
      ensures Disk() == if old(Disk()).target.None? && fault.NoFault?
                        then old(Disk()).(target := Some(Saved(Adopt(None)))) else old(Disk())
    {
      if Disk().target.None? {
        state := State(CURRENT_FORMAT, 0, map[]);
        EmptyIsForest();
        RebuildIndex();
        OwnersAreParents(state.tasks, parent);
        var ok := SaveState(state, fault);
        return if ok then None else Some(FirstSaveFailed);
      }
      if !Disk().target.value.whole {
        return Some(Unreadable);
      }
      var s := Disk().target.value.of;
      if s.formatVersion == 0 {
        s := s.(formatVersion := 1);
      }
      if s.formatVersion > CURRENT_FORMAT {
        return Some(TooNew);
      }
      var v := ValidateState(s.tasks);
      if v.Rejected? {
        return Some(NotForest(v.violation));
      }
      state := s;
      RebuildIndex();
      if KeysMatch(state.tasks) {
        OwnersAreParents(state.tasks, parent);
      }
      return None;
    }

    /** The only way the folder changes. */
    method Put(g: Folder)
      requires trail != [] && Primitive(Disk(), g)
      modifies this`trail
      ensures trail == old(trail) + [g]
    {
      trail := trail + [g];
    }

    /** Temp file, write, sync, close, rename, and in the end remove what is left of
        the temp file. A failure leaves the folder as it was; a crash anywhere leaves
        the old data file or the new one. */
    method SaveState(s: State, fault: Fault) returns (ok: bool)
      requires trail != [] && Disk().temp.None?
      modifies this`trail
      ensures old(trail) <= trail
      ensures ok <==> fault.NoFault?
      ensures Disk() == if ok then old(Disk()).(target := Some(Saved(s))) else old(Disk())
      ensures !ok ==> forall i :: |old(trail)| <= i < |trail| ==> trail[i].target == old(Disk()).target
      ensures (old(Disk()).target.Some? ==> old(Disk()).target.value.synced)
        ==> CrashProof(trail, |old(trail)| - 1, old(Disk()).target, s)
    {
      if fault.MarshalFails? || fault.CreateFails? {
        return false;
      }
      Put(Disk().(temp := Some(File(s, false, false))));
      ok := true;
      if fault.WriteFails? {
        ok := false;
      } else {
        Put(Disk().(temp := Some(File(s, true, false))));
      }
      if ok {
        if fault.SyncFails? {
          ok := false;
        } else {
          Put(Disk().(temp := Some(File(s, true, true))));
        }
      }
      ok := ok && !fault.CloseFails?;
      if ok {
        if fault.RenameFails? {
          ok := false;
        } else {
          Put(Disk().(target := Disk().temp, temp := None));
        }
      }
      Put(Disk().(temp := None));
    }

    method RebuildIndex()
      requires SingleContainer(state.tasks)
      modifies this`parent
      ensures OwnerIndex(state.tasks, state.tasks.Keys, parent)
    {
      var ts := state.tasks;
      var idx: map<Id, Id> := map[];
      var todo := ts.Keys;
      while todo != {}
        invariant todo <= ts.Keys && OwnerIndex(ts, ts.Keys - todo, idx)
        decreases todo
      {
        var a :| a in todo;
        idx := IndexList(ts, a, ts.Keys - todo, idx);
        assert ts.Keys - (todo - {a}) == ts.Keys - todo + {a};
        todo := todo - {a};
      }
      parent := idx;
    }

    method Add(req: AddRequest, id: Id, now: int, fault: Fault) returns (r: Result<(Task, nat)>)
      requires Valid()
      modifies this
      ensures Valid() && old(trail) <= trail && Recoverable(trail, |old(trail)| - 1, old(state), state)
      ensures state == Next(old(state), Request.Add(req, id, now), fault.NoFault?)
      ensures r.Ok? ==> Answer(old(state).tasks, Request.Add(req, id, now), fault.NoFault?) == 200
                        && id in state.tasks && r.value == (state.tasks[id], state.stateVersion)
      ensures r.Ok? && id !in old(state).tasks ==>
        var t := state.tasks[id];
        && t.id == id && t.content == req.content && t.meta.createdAt == t.meta.updatedAt == now && t.meta.version == 1
        && t.meta.completedAt == if req.content.status in {Done, Cancelled} then Some(now) else None
      ensures r.Err? ==> Answer(old(state).tasks, Request.Add(req, id, now), fault.NoFault?) == StatusOf(r.error)
      ensures r.Err? ==> state == old(state) && parent == old(parent) && Disk() == old(Disk())
    {
      hide Recoverable, NeverLost, Loadable, Adopt, IsForest, IsParentIndex;
      AtRest();
      var bad := ContentError(req.content);
      if bad.Some? { return Err(bad.value); }
      if |req.content.childIds| > 0 { return Err(ChildIdsOnAdd); }
      var c := req.content.(childIds := []);
      var t := Task(id, c, Meta(now, now, None, 1));
      t := t.(meta := ApplyCompletion(t.meta, Todo, c.status, now));
      var cand := state.tasks;
      cand := cand[id := t];
      if req.parentId.Some? {
        if req.parentId.value !in cand { return Err(NotFound); }
        var p := cand[req.parentId.value];
        var pos := |p.content.childIds|;
        if req.position.Some? {
          pos := Clamp(req.position.value, 0, |p.content.childIds|);
        }
        p := p.(content := p.content.(childIds := InsertAt(p.content.childIds, pos, id)));
        p := p.(meta := p.meta.(version := p.meta.version + 1, updatedAt := now));
        cand := cand[req.parentId.value := p];
      }
      assert cand == AddedTasks(state.tasks, req, id, now);
      ghost var was := state.tasks;
      var e := Commit(cand, fault);
      if e.Some? { return Err(e.value); }
      if id !in was {
        StoreLaws.AddKeepsForestIff(was, req, id, now);
        StoreLaws.AddedTaskHolds(was, req, id, now);
      }
      return Ok((state.tasks[id], state.stateVersion));
    }

    method Update(ops: seq<UpdateOp>, now: int, fault: Fault) returns (r: Result<(seq<Task>, nat)>)
      requires Valid()
      modifies this
      ensures Valid() && old(trail) <= trail && Recoverable(trail, |old(trail)| - 1, old(state), state)
      ensures state == Next(old(state), Request.Update(ops, now), fault.NoFault?)
      ensures r.Ok? ==> Answer(old(state).tasks, Request.Update(ops, now), fault.NoFault?) == 200
      ensures r.Ok? ==> r.value.1 == state.stateVersion && Picked(state.tasks, ops, r.value.0)
      ensures r.Err? ==> Answer(old(state).tasks, Request.Update(ops, now), fault.NoFault?) == StatusOf(r.error)
      ensures r.Err? && r.error.Conflict? ==>
                AllExist(old(state).tasks, ops) && r.error.conflicts == Conflicts(old(state).tasks, ops)
      ensures r.Err? ==> state == old(state) && parent == old(parent) && Disk() == old(Disk())
    {
      hide IsForest, IsParentIndex, Picked, Conflicts, Recoverable, NeverLost, Loadable, Adopt;
      AtRest();
      var bad := CheckOps(ops);
      if bad.Some? { return Err(bad.value); }
      var guarded := CheckVersions(state.tasks, ops);
      if guarded.Some? { return Err(guarded.value); }
      var cand := ApplyOps(state.tasks, ops, now);
      var e := Commit(cand, fault);
      if e.Some? { return Err(e.value); }
      var out := Pick(state.tasks, ops);
      return Ok((out, state.stateVersion));
    }

    method Delete(id: Id, now: int, fault: Fault) returns (r: Result<nat>)
      requires Valid()
      modifies this
      ensures Valid() && old(trail) <= trail && Recoverable(trail, |old(trail)| - 1, old(state), state)
      ensures state == Next(old(state), Request.Delete(id, now), fault.NoFault?)
      ensures r.Ok? ==>
        Answer(old(state).tasks, Request.Delete(id, now), fault.NoFault?) == 200 && r.value == state.stateVersion
      ensures r.Err? ==> Answer(old(state).tasks, Request.Delete(id, now), fault.NoFault?) == StatusOf(r.error)
      ensures r.Err? ==> state == old(state) && parent == old(parent) && Disk() == old(Disk())
    {
      hide Recoverable, NeverLost, Loadable, Adopt;
      AtRest();
      if id !in state.tasks { return Err(NotFound); }
      var cand := state.tasks;
      if id in parent {
        var pid := parent[id];
        var p := cand[pid];
        var kids := RemoveString(p.content.childIds, id);
        p := p.(content := p.content.(childIds := kids));
        p := p.(meta := p.meta.(version := p.meta.version + 1, updatedAt := now));
        cand := cand[pid := p];
      }
      cand := cand - {id};
      OnlyTheParentLists(state.tasks, parent, id, now);
      assert cand == DeletedTasks(state.tasks, id, now);
      var e := Commit(cand, fault);
      if e.Some? { return Err(e.value); }
      return Ok(state.stateVersion);
    }

    lemma AtRest()
      requires Valid()
      ensures Recoverable(trail, |trail| - 1, state, state)
    {
    }

    /** The tail every mutation shares: check, persist, then commit. */
    method Commit(cand: TaskMap, fault: Fault) returns (e: Option<Error>)
      requires Valid() && KeysMatch(cand)
      modifies this
      ensures Valid() && old(trail) <= trail && Recoverable(trail, |old(trail)| - 1, old(state), state)
      ensures e.None? <==> IsForest(cand) && fault.NoFault?
      ensures e.None? ==> state == State(old(state).formatVersion, old(state).stateVersion + 1, cand)
      ensures e.Some? ==> StatusOf(e.value) == (if IsForest(cand) then 500 else 422)
      ensures e.Some? ==> state == old(state) && parent == old(parent) && Disk() == old(Disk())
    {
      hide Recoverable, NeverLost, CrashProof;
      AtRest();
      var v := ValidateState(cand);
      if v.Rejected? { return Some(Broken(v.violation)); }
      var next := State(state.formatVersion, state.stateVersion + 1, cand);
      var ok := SaveState(next, fault);
      SavedIsRecoverable(old(trail), trail, old(state), next, ok);
      if !ok { return Some(SaveFailed); }
      state := next;
      RebuildIndex();
      OwnersAreParents(state.tasks, parent);
      return None;
    }
  }

  lemma EmptyIsForest()
    ensures IsForest(map[])
  {
    RankedIsAcyclic(map[], map[]);
  }

  /** A save that is crash-proof leaves nothing but the old state and the new one to
      start from, and the old one alone when it failed. */
  lemma SavedIsRecoverable(before: seq<Folder>, trail: seq<Folder>, s: State, next: State, ok: bool)
    requires before != [] && before <= trail && NeverLost(before)
    requires var file := before[|before| - 1].target;
      && Loadable(file) && Adopt(file) == s && CrashProof(trail, |before| - 1, file, next)
      && (!ok ==> forall i :: |before| <= i < |trail| ==> trail[i].target == file) && file.Some? && file.value.synced
    requires next.formatVersion == CURRENT_FORMAT && IsForest(next.tasks)
    ensures Recoverable(trail, |before| - 1, s, if ok then next else s) && NeverLost(trail)
  {
    forall i, g | 0 <= i < |trail| && AfterCrash(trail[i], g) ensures Loadable(g.target) {
      if i < |before| {
        assert trail[i] == before[i];
      }
    }
  }

  /** A new process on a folder. */
  method NewStore(folder: Folder, fault: Fault) returns (st: Store, e: Option<LoadError>)
    requires folder.temp.None?
    ensures fresh(st)
    ensures e.None? <==> Loadable(folder.target) && (folder.target.Some? || fault.NoFault?)
    ensures e.None? ==> st.state == Adopt(folder.target)
    ensures e.None? && KeysMatch(st.state.tasks) && (folder.target.Some? ==> folder.target.value.synced) ==> st.Valid()
  {
    st := new Store(folder);
    e := st.Load(fault);
  }

  /** The process dies while a request takes `a` to `b`, and a new one is started on
      what it left: that is a store again, in the one state or the other. */
  method Restart(was: Store, i: nat, g: Folder, ghost a: State, ghost b: State, fault: Fault)
        returns (st: Store, e: Option<LoadError>)
    requires i < |was.trail| && AfterCrash(was.trail[i], g)
    requires Recoverable(was.trail, i, a, b) && KeysMatch(a.tasks) && KeysMatch(b.tasks)
    ensures fresh(st)
    ensures g.target.Some? || fault.NoFault? ==> e.None? && st.Valid() && (st.state == a || st.state == b)
  {
    st, e := NewStore(g, fault);
  }

  /** The index of the lists of the tasks in `done`: each child points at the id its
      container carries. */
  ghost predicate OwnerIndex(ts: TaskMap, done: set<Id>, idx: map<Id, Id>) {
    && (forall c {:trigger c in idx} :: c in idx ==> 
          exists a :: a in ts && c in ts[a].content.childIds && idx[c] == ts[a].id)
    && (forall a, c {:trigger c in ts[a].content.childIds} ::
          a in done && a in ts && c in ts[a].content.childIds ==> c in idx && idx[c] == ts[a].id)
  }

  /** With keys that are ids, that is the parent index. */
  lemma OwnersAreParents(ts: TaskMap, idx: map<Id, Id>)
    requires KeysMatch(ts) && OwnerIndex(ts, ts.Keys, idx)
    ensures IsParentIndex(ts, idx)
  {
  }

  /** The inner loop of the index: one task's children point at it. */
  method IndexList(ts: TaskMap, a: Id, ghost done: set<Id>, idx0: map<Id, Id>) returns (idx: map<Id, Id>)
    requires a in ts && SingleContainer(ts) && OwnerIndex(ts, done, idx0)
    ensures OwnerIndex(ts, done + {a}, idx)
  {
    idx := idx0;
    var t := ts[a];
    for k := 0 to |t.content.childIds|
      invariant OwnerIndex(ts, done - {a}, idx)
      invariant forall i :: 0 <= i < k ==> t.content.childIds[i] in idx && idx[t.content.childIds[i]] == t.id
    {
      ghost var c := t.content.childIds[k];
      forall b | b in done && b in ts && c in ts[b].content.childIds ensures b == a {
        var i := ListedAt(ts, b, c);
        assert Lists(ts, a, k, c);
      }
      idx := idx[t.content.childIds[k] := t.id];
    }
  }

  method ContentError(c: Content) returns (e: Option<Error>)
    ensures e.None? <==> ValidContent(c)
    ensures e.Some? ==> StatusOf(e.value) == 400
  {
    var blank := true;
    for i := 0 to |c.title|
      invariant blank <==> OnlySpace(c.title[..i])
    {
      assert c.title[..i + 1] == c.title[..i] + [c.title[i]];
      var r := c.title[i];
      if r != ' ' && r != '\t' && r != '\n' && r != '\r' {
        assert c.title[..i + 1][i] == r;
        blank := false;
      }
    }
    assert c.title[..|c.title|] == c.title;
    if |c.title| == 0 || blank { return Some(EmptyTitle); }
    if !c.status.Valid() { return Some(BadStatus); }
    if !c.priority.Valid() { return Some(BadPriority); }
    return None;
  }

  method CheckOps(ops: seq<UpdateOp>) returns (e: Option<Error>)
    ensures e.None? <==> (forall k :: 0 <= k < |ops| ==> ValidContent(ops[k].content)) && DistinctIds(ops)
    ensures e.Some? ==> StatusOf(e.value) == 400
  {
    var seen: set<Id> := {};
    for k := 0 to |ops|
      invariant forall i :: 0 <= i < k ==> ValidContent(ops[i].content) && ops[i].id in seen
      invariant forall x :: x in seen ==> exists i :: 0 <= i < k && ops[i].id == x
      invariant forall i, j :: 0 <= i < j < k ==> ops[i].id != ops[j].id
    {
      var bad := ContentError(ops[k].content);
      if bad.Some? { return bad; }
      if ops[k].id in seen { return Some(DuplicateInBatch(ops[k].id)); }
      seen := seen + {ops[k].id};
    }
    return None;
  }

  /** Existence of every target first, then every version; all mismatches are
      collected before rejecting. */
  method CheckVersions(ts: TaskMap, ops: seq<UpdateOp>) returns (e: Option<Error>)
    ensures e.None? <==> AllExist(ts, ops) && forall k :: 0 <= k < |ops| ==>
      ts[ops[k].id].meta.version == ops[k].expectedVersion
    ensures e.Some? ==> e.value == if AllExist(ts, ops) then Conflict(Conflicts(ts, ops)) else NotFound
  {
    for k := 0 to |ops|
      invariant forall i :: 0 <= i < k ==> ops[i].id in ts
    {
      if ops[k].id !in ts { return Some(NotFound); }
    }
    var conflicts: seq<Task> := [];
    for k := 0 to |ops|
      invariant conflicts == Conflicts(ts, ops[..k])
      invariant conflicts == [] <==> forall i :: 0 <= i < k ==> ts[ops[i].id].meta.version == ops[i].expectedVersion
    {
      assert ops[..k + 1][..k] == ops[..k];
      var cur := ts[ops[k].id];
      if cur.meta.version != ops[k].expectedVersion {
        conflicts := conflicts + [cur];
      }
    }
    assert ops[..|ops|] == ops;
    return if |conflicts| > 0 then Some(Conflict(conflicts)) else None;
  }

  ghost predicate Picked(ts: TaskMap, ops: seq<UpdateOp>, out: seq<Task>) {
    |out| == |ops| && forall k :: 0 <= k < |ops| ==> ops[k].id in ts && out[k] == ts[ops[k].id]
  }

  method Pick(ts: TaskMap, ops: seq<UpdateOp>) returns (out: seq<Task>)
    requires AllExist(ts, ops)
    ensures Picked(ts, ops, out)
  {
    out := [];
    for k := 0 to |ops|
      invariant |out| == k && forall i :: 0 <= i < k ==> out[i] == ts[ops[i].id]
    {
      out := out + [ts[ops[k].id]];
    }
  }

  method ApplyOps(ts: TaskMap, ops: seq<UpdateOp>, now: int) returns (cand: TaskMap)
    requires DistinctIds(ops) && AllExist(ts, ops)
    ensures cand == UpdatedTasks(ts, ops, now)
  {
    cand := ts;
    for k := 0 to |ops|
      invariant cand.Keys == ts.Keys
      invariant forall i :: 0 <= i < k ==> cand[ops[i].id] == ApplyOp(ts[ops[i].id], ops[i], now)
      invariant forall x :: x in ts && (forall i :: 0 <= i < k ==> ops[i].id != x) ==> cand[x] == ts[x]
    {
      var op := ops[k];
      var t := cand[op.id];
      var oldStatus := t.content.status;
      t := t.(content := op.content);
      t := t.(meta := ApplyCompletion(t.meta, oldStatus, op.content.status, now));
      t := t.(meta := t.meta.(version := t.meta.version + 1, updatedAt := now));
      cand := cand[op.id := t];
    }
    forall x | x in ts ensures cand[x] == UpdatedTasks(ts, ops, now)[x] {
      if Targets(ops, x) {
        var op := OpFor(ops, x);
        var i :| 0 <= i < |ops| && ops[i] == op;
      }
    }
  }

  method RemoveString(s: seq<Id>, v: Id) returns (out: seq<Id>)
    ensures out == Without(s, v)
  {
    out := [];
    for i := 0 to |s|
      invariant out == Without(s[..i], v)
    {
      assert s[..i + 1][..i] == s[..i];
      if s[i] != v {
        out := out + [s[i]];
      }
    }
    assert s[..|s|] == s;
  }

  /** The index names the one task that lists `id`, so detaching there is
      detaching everywhere. */
  lemma OnlyTheParentLists(ts: TaskMap, parent: map<Id, Id>, id: Id, now: int)
    requires IsParentIndex(ts, parent) && IsForest(ts) && id in ts
    ensures forall x :: x in ts && id in ts[x].content.childIds ==> id in parent && parent[id] == x
    ensures id in parent ==> parent[id] != id
  {
    if id in parent && parent[id] == id {
      assert Edge(ts, id, id);
      ReachesSelf(ts, id);
      NoWayBack(ts, id, id);
    }
  }
}
