/** What the store promises: adds and deletes never break the forest, a move is
    accepted exactly when it makes no cycle, and over every run of requests the
    version numbers pin down the contents. */
module StoreLaws {
  import opened Tasks
  import opened Graph
  import opened StoreSpec

  // ----- add ------------------------------------------------------------------

  lemma AddedEdges(ts: TaskMap, req: AddRequest, id: Id, now: int, a: Id, c: Id)
    requires id !in ts && req.parentId != Some(id)
    ensures a in AddedTasks(ts, req, id, now) && c in AddedTasks(ts, req, id, now)[a].content.childIds
      <==> a in ts && (c in ts[a].content.childIds || (c == id && req.parentId == Some(a)))
  {
  }

  /** With an id the generator has not used before, the new map is a forest
      unless the request names that very id as the parent. */
  lemma AddKeepsForestIff(ts: TaskMap, req: AddRequest, id: Id, now: int)
    requires IsForest(ts) && id !in ts
    ensures IsForest(AddedTasks(ts, req, id, now)) <==> req.parentId != Some(id)
  {
    var us := AddedTasks(ts, req, id, now);
    if req.parentId == Some(id) {
      assert us[id].content.childIds[0] == id;
      assert Edge(us, id, id);
      ReachesSelf(us, id);
      if Acyclic(us) {
        NoWayBack(us, id, id);
      }
    } else {
      forall a, c | a in us && c in us[a].content.childIds ensures c in us {
        AddedEdges(ts, req, id, now, a, c);
      }
      forall a, i, b, j, c | Lists(us, a, i, c) && Lists(us, b, j, c) ensures a == b && i == j {
        var i' := OldPosition(ts, req, id, now, a, i, c);
        var j' := OldPosition(ts, req, id, now, b, j, c);
      }
      AddedIsAcyclic(ts, req, id, now);
    }
  }

  lemma AddedIsAcyclic(ts: TaskMap, req: AddRequest, id: Id, now: int)
    requires IsForest(ts) && id !in ts && req.parentId != Some(id)
    ensures Acyclic(AddedTasks(ts, req, id, now))
  {
    var us := AddedTasks(ts, req, id, now);
    forall p | IsPath(us, p) && |p| >= 2 ensures p[0] != p[|p| - 1] {
      forall k, l | 0 <= k && l == k + 1 && l < |p| ensures p[k] in ts && (p[l] == id || Edge(ts, p[k], p[l])) {
        assert Edge(us, p[k], p[l]);
        AddedEdges(ts, req, id, now, p[k], p[l]);
      }
      assert p[0] in ts by { assert Edge(us, p[0], p[1]); }
      if p[|p| - 1] != id {
        forall k, l | 0 <= k && l == k + 1 && l < |p| ensures Edge(ts, p[k], p[l]) {
          if l < |p| - 1 { assert Edge(us, p[l], p[l + 1]); }
        }
        EdgesMakePath(ts, p);
      }
    }
  }

  /** Where an entry of a list stood before the add; -1 for the new one. */
  lemma OldPosition(ts: TaskMap, req: AddRequest, id: Id, now: int, a: Id, i: int, c: Id) returns (k: int)
    requires NoDangling(ts) && id !in ts && req.parentId != Some(id) && Lists(AddedTasks(ts, req, id, now), a, i, c)
    ensures if c == id then
              req.parentId == Some(a) && a in ts && i == Position(req, |ts[a].content.childIds|)
            else
              Lists(ts, a, k, c)
              && i == (if req.parentId == Some(a) && Position(req, |ts[a].content.childIds|) <= k then k + 1 else k)
  {
    k := -1;
    if req.parentId == Some(a) && a in ts {
      var kids := ts[a].content.childIds;
      var pos := Position(req, |kids|);
      if i < pos {
        k := i;
        assert Lists(ts, a, k, c);
        assert c in kids;
      } else if i > pos {
        k := i - 1;
        assert Lists(ts, a, k, c);
        assert c in kids;
      }
    } else if a != id {
      k := i;
      assert Lists(ts, a, k, c);
      assert c in ts[a].content.childIds;
    }
  }

  /** A fresh add under an existing parent, or under none, that passes the
      screening can only fail by failing to save. */
  lemma AddIsNeverBroken(s: State, req: AddRequest, id: Id, now: int, saved: bool)
    requires IsForest(s.tasks) && id !in s.tasks
    requires Screen(s.tasks, Add(req, id, now)) == 200
    requires req.parentId.None? || req.parentId.value in s.tasks
    ensures Answer(s.tasks, Add(req, id, now), saved) == if saved then 200 else 500
  {
    AddKeepsForestIff(s.tasks, req, id, now);
  }

  /** Only the new task and its parent's list change: the parent gets the id at
      the clamped position, everything around it keeps its order. */
  lemma AddFrame(ts: TaskMap, req: AddRequest, id: Id, now: int)
    requires NoDangling(ts) && id !in ts
    ensures AddedTasks(ts, req, id, now).Keys == ts.Keys + {id}
    ensures forall x :: x in ts ==>
      var u := AddedTasks(ts, req, id, now)[x];
      if req.parentId == Some(x) then
        && Without(u.content.childIds, id) == ts[x].content.childIds
        && Lists(AddedTasks(ts, req, id, now), x, Position(req, |ts[x].content.childIds|), id)
        && u.content == ts[x].content.(childIds := u.content.childIds)
        && u.meta == ts[x].meta.(version := ts[x].meta.version + 1, updatedAt := now)
        && u.id == ts[x].id
      else u == ts[x]
  {
    forall x | x in ts && req.parentId == Some(x)
      ensures Without(AddedTasks(ts, req, id, now)[x].content.childIds, id) == ts[x].content.childIds
    {
      var kids := ts[x].content.childIds;
      assert id !in kids;
      InsertThenWithout(kids, Position(req, |kids|), id);
    }
  }

  lemma {:induction false} InsertThenWithout(s: seq<Id>, i: int, v: Id)
    requires 0 <= i <= |s| && v !in s
    ensures Without(InsertAt(s, i, v), v) == s
  {
    var t := InsertAt(s, i, v);
    if i == |s| {
      assert t[..|t| - 1] == s;
      WithoutAbsent(s, v);
    } else {
      var s' := s[..|s| - 1];
      assert t[..|t| - 1] == InsertAt(s', i, v);
      assert t[|t| - 1] == s[|s| - 1] && s[|s| - 1] in s;
      InsertThenWithout(s', i, v);
      assert s == s' + [s[|s| - 1]];
    }
  }

  /** What a task keeps of the request that added it. */
  lemma AddedTaskHolds(ts: TaskMap, req: AddRequest, id: Id, now: int)
    requires id !in ts && Screen(ts, Add(req, id, now)) == 200 && req.parentId != Some(id)
    ensures id in AddedTasks(ts, req, id, now)
    ensures var t := AddedTasks(ts, req, id, now)[id];
      && t.id == id && t.content == req.content
      && t.meta.createdAt == now && t.meta.updatedAt == now && t.meta.version == 1
      && t.meta.completedAt == if req.content.status == Done || req.content.status == Cancelled then Some(now) else None
  {
  }

  /** Where the parent lists it: at the position asked for, at the front or the end
      if that lies outside, and at the end if none was. */
  lemma AddedWhere(ts: TaskMap, req: AddRequest, id: Id, now: int)
    requires id !in ts && req.parentId.Some? && req.parentId.value in ts
    ensures
      var kids := ts[req.parentId.value].content.childIds;
      var list := AddedTasks(ts, req, id, now)[req.parentId.value].content.childIds;
      match req.position
      case None => list == kids + [id]
      case Some(p) =>
        if p <= 0 then list == [id] + kids
        else if p >= |kids| then list == kids + [id]
        else list == kids[..p] + [id] + kids[p..]
  {
  }

  /** The status an add earns on a state the server can hold. */
  lemma AddAnswer(ts: TaskMap, req: AddRequest, id: Id, now: int, saved: bool)
    requires IsForest(ts) && id !in ts
    ensures Answer(ts, Add(req, id, now), saved) ==
      if !Acceptable(req.content) then 400
      else if |req.content.childIds| > 0 then 400
      else if req.parentId == Some(id) then 422
      else if req.parentId.Some? && req.parentId.value !in ts then 404
      else if saved then 200
      else 500
  {
    hide AddedTasks, IsForest;
    AcceptableIs(req.content);
    AddKeepsForestIff(ts, req, id, now);
  }

  /** Nothing but blanks, tabs and line ends. */
  predicate AllBlank(s: string) { forall c :: c in s ==> c == ' ' || c == '\t' || c == '\n' || c == '\r' }

  predicate Acceptable(c: Content) {
    !AllBlank(c.title) && !c.status.UnknownStatus? && !c.priority.UnknownPriority?
  }

  lemma AcceptableIs(c: Content)
    ensures Acceptable(c) <==> ValidContent(c)
  {
    if OnlySpace(c.title) {
      forall x | x in c.title ensures x == ' ' || x == '\t' || x == '\n' || x == '\r' {
        var i :| 0 <= i < |c.title| && c.title[i] == x;
      }
    }
    if AllBlank(c.title) {
      assert forall i :: 0 <= i < |c.title| ==> c.title[i] in c.title;
    }
  }

  // ----- delete ---------------------------------------------------------------

  lemma DeletedEdges(ts: TaskMap, id: Id, now: int, a: Id, c: Id)
    ensures a in DeletedTasks(ts, id, now) && c in DeletedTasks(ts, id, now)[a].content.childIds
      <==> a in ts && a != id && c != id && c in ts[a].content.childIds
  {
    if a in ts {
      WithoutHolds(ts[a].content.childIds, id);
    }
  }

  lemma {:induction false} WithoutKeepsOrder(s: seq<Id>, v: Id, i: nat, j: nat) returns (k: nat, l: nat)
    requires i < j < |Without(s, v)|
    ensures k < l < |s| && s[k] == Without(s, v)[i] && s[l] == Without(s, v)[j]
  {
    var n := |s| - 1;
    var rest := Without(s[..n], v);
    if j < |rest| {
      k, l := WithoutKeepsOrder(s[..n], v, i, j);
    } else {
      WithoutHolds(s[..n], v);
      assert rest[i] in rest;
      k :| 0 <= k < n && s[..n][k] == rest[i];
      l := n;
    }
  }

  lemma DeleteKeepsForest(ts: TaskMap, id: Id, now: int)
    requires IsForest(ts)
    ensures IsForest(DeletedTasks(ts, id, now))
  {
    var us := DeletedTasks(ts, id, now);
    forall a, c | a in us && c in us[a].content.childIds ensures c in us {
      DeletedEdges(ts, id, now, a, c);
    }
    forall a, i, b, j, c | Lists(us, a, i, c) && Lists(us, b, j, c) ensures a == b && i == j {
      DeletedEdges(ts, id, now, a, c);
      DeletedEdges(ts, id, now, b, c);
      OneParent(ts, a, b, c);
      if i != j {
        SameListTwice(ts, id, now, a, if i < j then i else j, if i < j then j else i);
      }
    }
    forall a, c | Edge(us, a, c) ensures Edge(ts, a, c) {
      DeletedEdges(ts, id, now, a, c);
    }
    FewerEdgesStayAcyclic(ts, us);
  }

  lemma SameListTwice(ts: TaskMap, id: Id, now: int, a: Id, i: nat, j: nat)
    requires SingleContainer(ts) && a in DeletedTasks(ts, id, now)
    requires i < j < |DeletedTasks(ts, id, now)[a].content.childIds|
    ensures DeletedTasks(ts, id, now)[a].content.childIds[i] != DeletedTasks(ts, id, now)[a].content.childIds[j]
  {
    var kids := ts[a].content.childIds;
    var k, l := i, j;
    if id in kids {
      k, l := WithoutKeepsOrder(kids, id, i, j);
    }
    assert Lists(ts, a, k, kids[k]) && Lists(ts, a, l, kids[l]);
  }

  lemma DeleteIsNeverBroken(s: State, id: Id, now: int, saved: bool)
    requires IsForest(s.tasks) && id in s.tasks
    ensures Answer(s.tasks, Delete(id, now), saved) == if saved then 200 else 500
  {
    DeleteKeepsForest(s.tasks, id, now);
  }

  /** The new roots are the old roots without the deleted task, and its children. */
  lemma RootsAfterDelete(ts: TaskMap, id: Id, now: int, x: Id)
    requires IsForest(ts) && id in ts
    ensures IsRoot(DeletedTasks(ts, id, now), x) <==>
      (IsRoot(ts, x) && x != id) || x in ts[id].content.childIds
  {
    var us := DeletedTasks(ts, id, now);
    if x in ts[id].content.childIds {
      if x == id {
        NoWayBack(ts, id, id);
        ReachesSelf(ts, id);
        assert false;
      }
      forall a | a in us ensures x !in us[a].content.childIds {
        DeletedEdges(ts, id, now, a, x);
        if a in ts && x in ts[a].content.childIds {
          OneParent(ts, a, id, x);
        }
      }
    } else if x in us {
      forall a | a in us ensures x in us[a].content.childIds <==> x in ts[a].content.childIds {
        DeletedEdges(ts, id, now, a, x);
      }
    }
  }

  /** The task goes, its parent's list closes the gap, and nothing else changes. */
  lemma DeleteFrame(ts: TaskMap, id: Id, now: int)
    requires IsForest(ts) && id in ts
    ensures DeletedTasks(ts, id, now).Keys == ts.Keys - {id}
    ensures forall x, k :: x != id && Lists(ts, x, k, id) ==>
      var u := DeletedTasks(ts, id, now)[x];
      && u.id == ts[x].id
      && u.content == ts[x].content.(childIds := ts[x].content.childIds[..k] + ts[x].content.childIds[k + 1..])
      && u.meta == ts[x].meta.(version := ts[x].meta.version + 1, updatedAt := now)
    ensures forall x :: x in ts && x != id && id !in ts[x].content.childIds ==> DeletedTasks(ts, id, now)[x] == ts[x]
  {
    forall x, k | x != id && Lists(ts, x, k, id)
      ensures Without(ts[x].content.childIds, id) == ts[x].content.childIds[..k] + ts[x].content.childIds[k + 1..]
    {
      var kids := ts[x].content.childIds;
      forall l | 0 <= l < |kids| && l != k ensures kids[l] != id {
        assert kids[l] == id ==> Lists(ts, x, l, id);
      }
      WithoutOne(kids, k);
    }
  }

  lemma {:induction false} WithoutOne(s: seq<Id>, k: nat)
    requires k < |s| && forall l :: 0 <= l < |s| && l != k ==> s[l] != s[k]
    ensures Without(s, s[k]) == s[..k] + s[k + 1..]
  {
    var n := |s| - 1;
    if k == n {
      WithoutAbsent(s[..n], s[k]);
      assert s[..n] + s[n + 1..] == s[..n];
    } else {
      WithoutOne(s[..n], k);
      assert s[k + 1..] == s[..n][k + 1..] + [s[n]];
    }
  }

  /** The status a delete earns on a state the server can hold. */
  lemma DeleteAnswer(ts: TaskMap, id: Id, now: int, saved: bool)
    requires IsForest(ts)
    ensures Answer(ts, Delete(id, now), saved) == if id !in ts then 404 else if saved then 200 else 500
  {
    DeleteKeepsForest(ts, id, now);
  }

  /** Deleting what was just added leaves every content as it was. */
  lemma AddThenDelete(ts: TaskMap, req: AddRequest, id: Id, now: int, later: int)
    requires IsForest(ts) && id !in ts
    ensures var us := DeletedTasks(AddedTasks(ts, req, id, now), id, later);
      us.Keys == ts.Keys && forall x :: x in ts ==> us[x].content == ts[x].content
  {
    AddFrame(ts, req, id, now);
    forall x | x in ts && req.parentId != Some(x) ensures id !in ts[x].content.childIds {
    }
  }

  // ----- update ---------------------------------------------------------------

  /** What an accepted operation leaves of its task: the new content as a whole, one
      version more, the clock, and a completion time that appears when the task is
      closed, goes when it is reopened, and otherwise stays. */
  lemma UpdateFrame(ts: TaskMap, ops: seq<UpdateOp>, now: int)
    requires Screen(ts, Update(ops, now)) == 200
    ensures UpdatedTasks(ts, ops, now).Keys == ts.Keys
    ensures forall k :: 0 <= k < |ops| ==>
      var t, u := ts[ops[k].id], UpdatedTasks(ts, ops, now)[ops[k].id];
      && u.id == t.id && u.content == ops[k].content
      && u.meta.version == t.meta.version + 1 && u.meta.createdAt == t.meta.createdAt && u.meta.updatedAt == now
      && u.meta.completedAt ==
           if Closed(t.content.status) == Closed(ops[k].content.status) then t.meta.completedAt
           else if Closed(ops[k].content.status) then Some(now)
           else None
    ensures forall x :: x in ts && (forall k :: 0 <= k < |ops| ==> ops[k].id != x) ==>
      UpdatedTasks(ts, ops, now)[x] == ts[x]
  {
    forall k | 0 <= k < |ops| ensures Targets(ops, ops[k].id) && OpFor(ops, ops[k].id) == ops[k] {
      var j :| 0 <= j < |ops| && ops[j] == OpFor(ops, ops[k].id);
    }
  }

  predicate Closed(s: Status) { s == Done || s == Cancelled }

  /** The status a batch earns. */
  lemma UpdateAnswer(ts: TaskMap, ops: seq<UpdateOp>, now: int, saved: bool)
    ensures var code := Answer(ts, Update(ops, now), saved);
      if exists k :: 0 <= k < |ops| && !Acceptable(ops[k].content) then code == 400
      else if exists j, k :: 0 <= j < k < |ops| && ops[j].id == ops[k].id then code == 400
      else if exists k :: 0 <= k < |ops| && ops[k].id !in ts then code == 404
      else if exists k :: 0 <= k < |ops| && ts[ops[k].id].meta.version != ops[k].expectedVersion then code == 409
      else code == if !IsForest(UpdatedTasks(ts, ops, now)) then 422 else if saved then 200 else 500
  {
    hide IsForest, UpdatedTasks, Acceptable, ValidContent;
    forall k | 0 <= k < |ops| ensures Acceptable(ops[k].content) <==> ValidContent(ops[k].content) {
      AcceptableIs(ops[k].content);
    }
  }

  lemma {:induction false} ConflictsExact(ts: TaskMap, ops: seq<UpdateOp>, t: Task)
    requires AllExist(ts, ops)
    ensures t in Conflicts(ts, ops) <==>
      exists k :: 0 <= k < |ops| && t == ts[ops[k].id] && t.meta.version != ops[k].expectedVersion
  {
    if ops != [] {
      var n := |ops| - 1;
      ConflictsExact(ts, ops[..n], t);
      if t in Conflicts(ts, ops[..n]) {
        var k :| 0 <= k < n && t == ts[ops[..n][k].id] && t.meta.version != ops[..n][k].expectedVersion;
        assert ops[k] == ops[..n][k];
      }
      if k :| 0 <= k < n && t == ts[ops[k].id] && t.meta.version != ops[k].expectedVersion {
        assert ops[k] == ops[..n][k];
      }
    }
  }

  lemma TwiceMeansTwoPlaces(s: seq<UpdateOp>, x: UpdateOp)
    requires multiset(s)[x] >= 2
    ensures exists i, j :: 0 <= i < j < |s| && s[i] == x && s[j] == x
  {
    var i :| 0 <= i < |s| && s[i] == x;
    assert s == s[..i] + [x] + s[i + 1..];
    if x in s[..i] {
      var j :| 0 <= j < i && s[..i][j] == x;
      assert s[j] == x;
    } else {
      assert x in s[i + 1..];
      var j :| 0 <= j < |s| - i - 1 && s[i + 1..][j] == x;
      assert s[i + 1 + j] == x;
    }
  }

  lemma TwoPlacesMeanTwice(s: seq<UpdateOp>, i: nat, j: nat)
    requires i < j < |s| && s[i] == s[j]
    ensures multiset(s)[s[i]] >= 2
  {
    assert s == s[..i] + [s[i]] + s[i + 1..j] + [s[j]] + s[j + 1..];
  }

  lemma DistinctInAnyOrder(ops: seq<UpdateOp>, qs: seq<UpdateOp>)
    requires multiset(ops) == multiset(qs) && DistinctIds(ops)
    ensures DistinctIds(qs)
  {
    forall i, j | 0 <= i < j < |qs| ensures qs[i].id != qs[j].id {
      assert qs[i] in multiset(ops) && qs[j] in multiset(ops);
      if qs[i] == qs[j] {
        TwoPlacesMeanTwice(qs, i, j);
        TwiceMeansTwoPlaces(ops, qs[i]);
      } else {
        var k :| 0 <= k < |ops| && ops[k] == qs[i];
        var l :| 0 <= l < |ops| && ops[l] == qs[j];
      }
    }
  }

  /** Reordering a batch changes neither the answer nor the state it leaves. */
  lemma BatchOrderIrrelevant(s: State, ops: seq<UpdateOp>, qs: seq<UpdateOp>, now: int, saved: bool)
    requires multiset(ops) == multiset(qs)
    ensures Answer(s.tasks, Update(ops, now), saved) == Answer(s.tasks, Update(qs, now), saved)
    ensures Next(s, Update(ops, now), saved) == Next(s, Update(qs, now), saved)
  {
    SameMembers(ops, qs);
    if DistinctIds(ops) {
      DistinctInAnyOrder(ops, qs);
      SameUpdate(s.tasks, ops, qs, now);
    } else if DistinctIds(qs) {
      DistinctInAnyOrder(qs, ops);
    }
    SameScreen(s.tasks, ops, qs, now);
  }

  lemma SameMembers(ops: seq<UpdateOp>, qs: seq<UpdateOp>)
    requires multiset(ops) == multiset(qs)
    ensures forall op :: op in ops <==> op in qs
  {
    forall op ensures op in ops <==> op in qs {
      assert op in ops <==> op in multiset(ops);
      assert op in qs <==> op in multiset(qs);
    }
  }

  lemma SameScreen(ts: TaskMap, ops: seq<UpdateOp>, qs: seq<UpdateOp>, now: int)
    requires forall op :: op in ops <==> op in qs
    requires DistinctIds(ops) == DistinctIds(qs)
    ensures Screen(ts, Update(ops, now)) == Screen(ts, Update(qs, now))
  {
    ScreenMembers(ts, ops, now);
    ScreenMembers(ts, qs, now);
  }

  /** The screening asks only which operations are in the batch. */
  lemma ScreenMembers(ts: TaskMap, ops: seq<UpdateOp>, now: int)
    ensures Screen(ts, Update(ops, now)) ==
      if (exists op :: op in ops && !ValidContent(op.content)) || !DistinctIds(ops) then 400
      else if exists op :: op in ops && op.id !in ts then 404
      else if exists op :: op in ops && op.id in ts && ts[op.id].meta.version != op.expectedVersion then 409
      else 200
  {
    if k :| 0 <= k < |ops| && !ValidContent(ops[k].content) { assert ops[k] in ops; }
    if k :| 0 <= k < |ops| && ops[k].id !in ts { assert ops[k] in ops; }
    if AllExist(ts, ops) {
      if k :| 0 <= k < |ops| && ts[ops[k].id].meta.version != ops[k].expectedVersion { assert ops[k] in ops; }
    }
  }

  lemma SameUpdate(ts: TaskMap, ops: seq<UpdateOp>, qs: seq<UpdateOp>, now: int)
    requires (forall op :: op in ops <==> op in qs) && DistinctIds(ops) && DistinctIds(qs)
    ensures UpdatedTasks(ts, ops, now) == UpdatedTasks(ts, qs, now)
  {
    forall x | x in ts ensures UpdatedTasks(ts, ops, now)[x] == UpdatedTasks(ts, qs, now)[x] {
      if k :| 0 <= k < |ops| && ops[k].id == x {
        assert ops[k] in qs;
        assert OpFor(ops, x) in qs && OpFor(qs, x) in qs;
      }
      if k :| 0 <= k < |qs| && qs[k].id == x {
        assert qs[k] in ops;
      }
    }
  }

  // ----- moving a subtree -----------------------------------------------------

  /** Take `c` out of `a`'s list and put it into `b`'s, in one batch. */
  function MoveOps(ts: TaskMap, a: Id, b: Id, c: Id, i: int): seq<UpdateOp>
    requires a in ts && b in ts && 0 <= i <= |ts[b].content.childIds|
  {
    [UpdateOp(a, ts[a].content.(childIds := Without(ts[a].content.childIds, c)), ts[a].meta.version),
     UpdateOp(b, ts[b].content.(childIds := InsertAt(ts[b].content.childIds, i, c)), ts[b].meta.version)]
  }

  function Moved(ts: TaskMap, a: Id, b: Id, c: Id, i: int, now: int): TaskMap
    requires a in ts && b in ts && 0 <= i <= |ts[b].content.childIds|
  {
    ts[a := ApplyOp(ts[a], MoveOps(ts, a, b, c, i)[0], now)][b := ApplyOp(ts[b], MoveOps(ts, a, b, c, i)[1], now)]
  }

  lemma MoveIsUpdate(ts: TaskMap, a: Id, b: Id, c: Id, i: int, now: int)
    requires a in ts && b in ts && a != b && 0 <= i <= |ts[b].content.childIds|
    ensures UpdatedTasks(ts, MoveOps(ts, a, b, c, i), now) == Moved(ts, a, b, c, i, now)
  {
    var ops := MoveOps(ts, a, b, c, i);
    assert ops[0].id == a && ops[1].id == b;
    assert Targets(ops, a) && Targets(ops, b);
    assert OpFor(ops, a) == ops[0] && OpFor(ops, b) == ops[1];
  }

  lemma MovedEdges(ts: TaskMap, a: Id, b: Id, c: Id, i: int, now: int, x: Id, y: Id)
    requires IsForest(ts) && Edge(ts, a, c) && b in ts && a != b && 0 <= i <= |ts[b].content.childIds|
    ensures Edge(Moved(ts, a, b, c, i, now), x, y) <==> (Edge(ts, x, y) && !(x == a && y == c)) || (x == b && y == c)
  {
    WithoutHolds(ts[a].content.childIds, c);
    InsertAtHolds(ts[b].content.childIds, i, c);
  }

  lemma MoveKeepsForestIff(ts: TaskMap, a: Id, b: Id, c: Id, i: int, now: int)
    requires IsForest(ts) && Edge(ts, a, c) && b in ts && a != b && 0 <= i <= |ts[b].content.childIds|
    ensures IsForest(UpdatedTasks(ts, MoveOps(ts, a, b, c, i), now)) <==> !Reaches(ts, c, b)
  {
    MoveIsUpdate(ts, a, b, c, i, now);
    if Reaches(ts, c, b) {
      MoveIntoSelfIsCycle(ts, a, b, c, i, now);
    } else {
      MovedIsAcyclic(ts, a, b, c, i, now);
      MovedLists(ts, a, b, c, i, now);
    }
  }

  /** The answer to a move: refused as a cycle exactly when the new parent is inside
      the moved subtree, and otherwise accepted, unless one of the two lists' owners
      already held content the server would refuse. */
  lemma MoveAcceptedIff(ts: TaskMap, a: Id, b: Id, c: Id, i: int, now: int, saved: bool)
    requires IsForest(ts) && Edge(ts, a, c) && b in ts && a != b && 0 <= i <= |ts[b].content.childIds|
    ensures Answer(ts, Update(MoveOps(ts, a, b, c, i), now), saved)
      == if !ValidContent(ts[a].content) || !ValidContent(ts[b].content) then 400
         else if Reaches(ts, c, b) then 422
         else if saved then 200
         else 500
  {
    MoveKeepsForestIff(ts, a, b, c, i, now);
    var ops := MoveOps(ts, a, b, c, i);
    hide Reaches, IsForest, Without, InsertAt, UpdatedTasks;
    assert ValidContent(ops[0].content) <==> ValidContent(ts[a].content);
    assert ValidContent(ops[1].content) <==> ValidContent(ts[b].content);
    assert ops[0].id == a && ops[1].id == b && |ops| == 2;
  }

  lemma MovedLists(ts: TaskMap, a: Id, b: Id, c: Id, i: int, now: int)
    requires IsForest(ts) && Edge(ts, a, c) && b in ts && a != b && 0 <= i <= |ts[b].content.childIds|
    ensures NoDangling(Moved(ts, a, b, c, i, now)) && SingleContainer(Moved(ts, a, b, c, i, now))
  {
    var us := Moved(ts, a, b, c, i, now);
    assert us.Keys == ts.Keys;
    forall x, d | x in us && d in us[x].content.childIds ensures d in us && (d == c || d in ts[x].content.childIds) {
      MovedEntries(ts, a, b, c, i, now, x, d);
    }
    forall x, k, y, l, d | Lists(us, x, k, d) && Lists(us, y, l, d) ensures x == y && k == l {
      assert d in us[x].content.childIds && d in us[y].content.childIds;
      if d == c {
        MovedHome(ts, a, b, c, i, now, x, k);
        MovedHome(ts, a, b, c, i, now, y, l);
      } else {
        OneParent(ts, x, y, d);
        if k < l { MovedOnce(ts, a, b, c, i, now, x, k, l); }
        if l < k { MovedOnce(ts, a, b, c, i, now, x, l, k); }
      }
    }
  }

  lemma MovedEntries(ts: TaskMap, a: Id, b: Id, c: Id, i: int, now: int, x: Id, d: Id)
    requires IsForest(ts) && Edge(ts, a, c) && b in ts && a != b && 0 <= i <= |ts[b].content.childIds|
    requires x in ts && d in Moved(ts, a, b, c, i, now)[x].content.childIds
    ensures d in ts && (d == c || d in ts[x].content.childIds)
  {
    WithoutHolds(ts[a].content.childIds, c);
    InsertAtHolds(ts[b].content.childIds, i, c);
  }

  lemma InsertAtHolds(s: seq<Id>, i: int, v: Id)
    requires 0 <= i <= |s|
    ensures forall x :: x in InsertAt(s, i, v) <==> x in s || x == v
  {
    assert s == s[..i] + s[i..];
  }

  lemma MovedHome(ts: TaskMap, a: Id, b: Id, c: Id, i: int, now: int, x: Id, k: int)
    requires IsForest(ts) && Edge(ts, a, c) && b in ts && a != b && 0 <= i <= |ts[b].content.childIds|
    requires Lists(Moved(ts, a, b, c, i, now), x, k, c)
    ensures x == b && k == i
  {
    var us := Moved(ts, a, b, c, i, now);
    assert c in us[x].content.childIds;
    WithoutHolds(ts[a].content.childIds, c);
    if x != b {
      OneParent(ts, x, a, c);
      assert false;
    }
    if k != i {
      assert c in ts[b].content.childIds;
      OneParent(ts, b, a, c);
      assert false;
    }
  }

  lemma MovedOnce(ts: TaskMap, a: Id, b: Id, c: Id, i: int, now: int, x: Id, k: nat, l: nat)
    requires IsForest(ts) && Edge(ts, a, c) && b in ts && a != b && 0 <= i <= |ts[b].content.childIds|
    requires x in ts && k < l < |Moved(ts, a, b, c, i, now)[x].content.childIds|
    ensures Moved(ts, a, b, c, i, now)[x].content.childIds[k] != Moved(ts, a, b, c, i, now)[x].content.childIds[l]
  {
    var kids := ts[x].content.childIds;
    if x == a {
      var m, n := WithoutKeepsOrder(kids, c, k, l);
      assert Lists(ts, x, m, kids[m]) && Lists(ts, x, n, kids[n]);
    } else if x == b {
      if c in kids {
        OneParent(ts, a, b, c);
      }
      var m, n := if k < i then k else k - 1, if l < i then l else l - 1;
      if k != i && l != i {
        assert Lists(ts, x, m, kids[m]) && Lists(ts, x, n, kids[n]);
      }
    } else {
      assert Lists(ts, x, k, kids[k]) && Lists(ts, x, l, kids[l]);
    }
  }

  lemma MoveIntoSelfIsCycle(ts: TaskMap, a: Id, b: Id, c: Id, i: int, now: int)
    requires IsForest(ts) && Edge(ts, a, c) && b in ts && a != b && 0 <= i <= |ts[b].content.childIds|
    requires Reaches(ts, c, b)
    ensures !Acyclic(Moved(ts, a, b, c, i, now))
  {
    var us := Moved(ts, a, b, c, i, now);
    var p :| PathFromTo(ts, p, c, b);
    forall k, l | 0 <= k && l == k + 1 && l < |p| ensures Edge(us, p[k], p[l]) {
      assert Edge(ts, p[k], p[l]);
      if p[k] == a && p[l] == c {
        PathSlice(ts, p, 0, l);
        assert PathFromTo(ts, p[0..l], c, a);
        NoWayBack(ts, a, c);
      }
      MovedEdges(ts, a, b, c, i, now, p[k], p[l]);
    }
    assert PathFromTo(us, p, c, b);
    MovedEdges(ts, a, b, c, i, now, b, c);
    if Acyclic(us) {
      NoWayBack(us, b, c);
    }
  }

  lemma MovedIsAcyclic(ts: TaskMap, a: Id, b: Id, c: Id, i: int, now: int)
    requires IsForest(ts) && Edge(ts, a, c) && b in ts && a != b && 0 <= i <= |ts[b].content.childIds|
    requires !Reaches(ts, c, b)
    ensures Acyclic(Moved(ts, a, b, c, i, now))
  {
    var us := Moved(ts, a, b, c, i, now);
    // Nothing below c in the new graph was not below it in the old one.
    BelowIsClosed(ts, c);
    forall x, y | x in Below(ts, c) && Edge(us, x, y) ensures y in Below(ts, c) {
      MovedEdges(ts, a, b, c, i, now, x, y);
    }
    ReachesSelf(ts, c);
    ClosedHoldsBelow(us, Below(ts, c), c);
    assert b in us && b !in Below(us, c);
    assert !Reaches(us, c, b);
    forall p | IsPath(us, p) && |p| >= 2 ensures p[0] != p[|p| - 1] {
      if k :| 0 <= k < |p| - 1 && p[k] == b && p[k + 1] == c {
        PathSlice(us, p, k + 1, |p|);
        PathSlice(us, p, 0, k + 1);
        assert PathFromTo(us, p[k + 1..|p|], c, p[|p| - 1]);
        assert PathFromTo(us, p[0..k + 1], p[0], b);
        if p[0] == p[|p| - 1] {
          ReachesTrans(us, c, p[0], b);
          assert false;
        }
      } else {
        forall k, l | 0 <= k && l == k + 1 && l < |p| ensures Edge(ts, p[k], p[l]) {
          assert Edge(us, p[k], p[l]);
          MovedEdges(ts, a, b, c, i, now, p[k], p[l]);
        }
        EdgesMakePath(ts, p);
      }
    }
  }
}
