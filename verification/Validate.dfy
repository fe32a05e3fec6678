/** The structural check every write goes through: three local checks in one
    pass over the lists, then a depth-first colouring that looks for cycles. */
module Validate {
  import opened Tasks
  import opened Graph

  datatype Violation =
    | DuplicateInList(owner: Id, child: Id)
    | DanglingChild(owner: Id, child: Id)
    | TwoContainers(child: Id)
    | Cycle(from: Id, to: Id)

  datatype Verdict = Accepted | Rejected(violation: Violation)

  /** The reported violation is really there. */
  ghost predicate Genuine(ts: TaskMap, v: Violation) {
    match v
    case DuplicateInList(t, c) =>
      exists i, j :: i != j && Lists(ts, t, i, c) && Lists(ts, t, j, c)
    case DanglingChild(t, c) => t in ts && c in ts[t].content.childIds && c !in ts
    case TwoContainers(c) =>
      exists a, b :: a != b && a in ts && b in ts && c in ts[a].content.childIds && c in ts[b].content.childIds
    case Cycle(a, b) => Edge(ts, a, b) && Reaches(ts, b, a)
  }

  /** The three local checks. The tasks come in any order, as a Go map gives them. */
  method CheckLists(ts: TaskMap) returns (v: Verdict)
    ensures v.Accepted? ==> NoDangling(ts) && SingleContainer(ts)
    ensures v.Rejected? ==> Genuine(ts, v.violation) && !v.violation.Cycle?
  {
    var seen: set<Id> := {};
    var todo := ts.Keys;
    while todo != {}
      invariant todo <= ts.Keys && ListsSound(ts, ts.Keys - todo, seen)
      decreases todo
    {
      var id :| id in todo;
      v, seen := CheckList(ts, id, ts.Keys - todo, seen);
      if v.Rejected? { return; }
      assert ts.Keys - (todo - {id}) == ts.Keys - todo + {id};
      todo := todo - {id};
    }
    assert ts.Keys - todo == ts.Keys;
    ListsSoundAll(ts, seen);
    return Accepted;
  }

  lemma ListsSoundAll(ts: TaskMap, seen: set<Id>)
    requires ListsSound(ts, ts.Keys, seen)
    ensures NoDangling(ts) && SingleContainer(ts)
  {
    forall a, c | a in ts && c in ts[a].content.childIds ensures c in ts {
      var i := ListedAt(ts, a, c);
    }
  }

  /** The lists of the tasks in `done` have passed; `seen` holds what they list. */
  ghost predicate ListsSound(ts: TaskMap, done: set<Id>, seen: set<Id>) {
    && (forall c :: c in seen <==> exists a :: a in done && a in ts && c in ts[a].content.childIds)
    && (forall a, i, c :: a in done && Lists(ts, a, i, c) ==> c in ts)
    && (forall a, i, b, j, c :: a in done && b in done && Lists(ts, a, i, c) && Lists(ts, b, j, c) ==> a == b && i == j)
  }

  /** The inner loop: one task's list. */
  method CheckList(ts: TaskMap, id: Id, ghost done: set<Id>, seen0: set<Id>) returns (v: Verdict, seen: set<Id>)
    requires id in ts && id !in done && done <= ts.Keys && ListsSound(ts, done, seen0)
    ensures v.Rejected? ==> Genuine(ts, v.violation) && !v.violation.Cycle?
    ensures v.Accepted? ==> ListsSound(ts, done + {id}, seen)
  {
    hide ListsSound;
    seen := seen0;
    var kids := ts[id].content.childIds;
    var intra: set<Id> := {};
    for k := 0 to |kids|
      invariant forall c :: c in intra <==> c in kids[..k]
      invariant forall c :: c in seen <==> c in seen0 || c in kids[..k]
      invariant forall i, j :: 0 <= i < j < k ==> kids[i] != kids[j]
      invariant forall i :: 0 <= i < k ==> kids[i] in ts && kids[i] !in seen0
    {
      var c := kids[k];
      if c in intra {
        ghost var i :| 0 <= i < k && kids[i] == c;
        assert Lists(ts, id, i, c) && Lists(ts, id, k, c);
        return Rejected(DuplicateInList(id, c)), seen;
      }
      intra := intra + {c};
      if c !in ts {
        return Rejected(DanglingChild(id, c)), seen;
      }
      if c in seen {
        SeenIsListed(ts, done, seen0, c);
        return Rejected(TwoContainers(c)), seen;
      }
      seen := seen + {c};
    }
    assert kids[..|kids|] == kids;
    OneMoreList(ts, id, done, seen0, seen);
    return Accepted, seen;
  }

  lemma SeenIsListed(ts: TaskMap, done: set<Id>, seen: set<Id>, c: Id)
    requires ListsSound(ts, done, seen) && c in seen
    ensures exists a :: a in done && a in ts && c in ts[a].content.childIds
  {
  }

  /** A list without duplicates, of existing children that no list had before. */
  lemma OneMoreList(ts: TaskMap, id: Id, done: set<Id>, seen0: set<Id>, seen: set<Id>)
    requires id in ts && id !in done && done <= ts.Keys && ListsSound(ts, done, seen0)
    requires forall c :: c in seen <==> c in seen0 || c in ts[id].content.childIds
    requires var kids := ts[id].content.childIds;
      && (forall i, j :: 0 <= i < j < |kids| ==> kids[i] != kids[j])
      && forall i :: 0 <= i < |kids| ==> kids[i] in ts && kids[i] !in seen0
    ensures ListsSound(ts, done + {id}, seen)
  {
  }

  /** Every node in `s` leads down to `id`. */
  ghost predicate AllReach(ts: TaskMap, s: set<Id>, id: Id) {
    forall x :: x in s ==> Reaches(ts, x, id)
  }

  lemma AllReachStep(ts: TaskMap, s: set<Id>, id: Id, c: Id)
    requires AllReach(ts, s, id) && Edge(ts, id, c)
    ensures AllReach(ts, s, c)
  {
    forall x | x in s ensures Reaches(ts, x, c) {
      ReachesStep(ts, x, id, c);
    }
  }

  /** Finishing numbers that fall along every edge out of a finished node. */
  ghost predicate Numbered(ts: TaskMap, finish: map<Id, int>) {
    && (forall a {:trigger finish[a]} :: a in finish ==> finish[a] <= |finish|)
    && (forall a, b {:trigger Edge(ts, a, b)} ::
          a in finish && Edge(ts, a, b) ==> b in finish && finish[b] < finish[a])
  }

  ghost predicate FirstIn(kids: seq<Id>, k: nat, s: set<Id>) {
    k <= |kids| && forall c :: c in kids[..k] ==> c in s
  }

  lemma FirstInGrows(kids: seq<Id>, k: nat, s: set<Id>, t: set<Id>)
    requires FirstIn(kids, k, s) && s <= t && k < |kids| && kids[k] in t
    ensures FirstIn(kids, k + 1, t)
  {
    assert kids[..k + 1] == kids[..k] + [kids[k]];
  }

  lemma NumberedGrows(ts: TaskMap, finish: map<Id, int>, id: Id)
    requires Numbered(ts, finish) && id in ts && id !in finish
    requires FirstIn(ts[id].content.childIds, |ts[id].content.childIds|, finish.Keys)
    ensures Numbered(ts, finish[id := |finish| + 1])
  {
    var kids := ts[id].content.childIds;
    assert kids[..|kids|] == kids;
    assert |finish[id := |finish| + 1]| == |finish| + 1;
  }

  /** Colours: absent is unvisited, 1 is on the stack, 2 is finished. */
  class Colouring {
    const tasks: TaskMap
    var color: map<Id, nat>
    ghost var finish: map<Id, int>

    constructor (ts: TaskMap)
      ensures tasks == ts && color == map[] && finish == map[]
    {
      tasks, color, finish := ts, map[], map[];
    }

    /** `grey` is on the stack; a finished node's children finished before it. */
    ghost predicate Valid(grey: set<Id>)
      reads this
    {
      && color.Keys <= tasks.Keys
      && (forall x :: x in color <==> x in grey || x in finish)
      && (forall x :: x in grey ==> x !in finish && color[x] == 1)
      && (forall x :: x in finish ==> color[x] == 2)
      && Numbered(tasks, finish)
    }

    method Visit(id: Id, ghost grey: set<Id>) returns (v: Verdict)
      requires NoDangling(tasks) && Valid(grey)
      requires id in tasks && id !in color && AllReach(tasks, grey, id)
      modifies this
      ensures v.Rejected? ==> Genuine(tasks, v.violation) && v.violation.Cycle?
      ensures v.Accepted? ==> Valid(grey) && old(finish).Keys + {id} <= finish.Keys
      decreases tasks.Keys - color.Keys
    {
      color := color[id := 1];
      ghost var stack := grey + {id};
      ReachesSelf(tasks, id);
      var kids := tasks[id].content.childIds;
      for k := 0 to |kids|
        invariant Valid(stack) && old(finish).Keys <= finish.Keys
        invariant FirstIn(kids, k, finish.Keys)
      {
        var c := kids[k];
        assert c in tasks[id].content.childIds;
        ghost var before := finish.Keys;
        if c in color && color[c] == 1 {
          return Rejected(Cycle(id, c));
        } else if c !in color {
          AllReachStep(tasks, stack, id, c);
          v := Visit(c, stack);
          if v.Rejected? { return; }
        }
        FirstInGrows(kids, k, before, finish.Keys);
      }
      Finish(id, grey);
      return Accepted;
    }

    /** All children are finished, so the node on top of the stack is too. */
    method Finish(id: Id, ghost grey: set<Id>)
      requires Valid(grey + {id}) && id in tasks && id !in grey
      requires FirstIn(tasks[id].content.childIds, |tasks[id].content.childIds|, finish.Keys)
      modifies this
      ensures Valid(grey) && color == old(color)[id := 2]
      ensures finish.Keys == old(finish).Keys + {id}
    {
      NumberedGrows(tasks, finish, id);
      color := color[id := 2];
      finish := finish[id := |finish| + 1];
    }
  }

  /** Colours every component, starting from the tasks in any order. */
  method CheckCycles(ts: TaskMap) returns (v: Verdict)
    requires NoDangling(ts)
    ensures v.Accepted? ==> Acyclic(ts)
    ensures v.Rejected? ==> Genuine(ts, v.violation) && v.violation.Cycle?
  {
    var colouring := new Colouring(ts);
    var todo := ts.Keys;
    while todo != {}
      invariant todo <= ts.Keys
      invariant colouring.tasks == ts && colouring.Valid({})
      invariant ts.Keys - todo <= colouring.finish.Keys
      decreases todo
    {
      var id :| id in todo;
      todo := todo - {id};
      if id !in colouring.color {
        var w := colouring.Visit(id, {});
        if w.Rejected? {
          return w;
        }
      }
    }
    RankedIsAcyclic(ts, colouring.finish);
    return Accepted;
  }

  lemma NoWayBackUnlessCyclic(ts: TaskMap, a: Id, b: Id)
    requires Edge(ts, a, b) && Reaches(ts, b, a)
    ensures !Acyclic(ts)
  {
    if Acyclic(ts) {
      NoWayBack(ts, a, b);
    }
  }

  /** The whole check. The order of the tasks can change which violation is
      reported, never whether one is. */
  method ValidateState(ts: TaskMap) returns (v: Verdict)
    ensures v.Accepted? <==> IsForest(ts)
    ensures v.Rejected? ==> Genuine(ts, v.violation)
  {
    v := CheckLists(ts);
    if v.Accepted? {
      v := CheckCycles(ts);
    }
    if v.Rejected? {
      GenuineIsNotForest(ts, v.violation);
    }
  }

  /** A genuine violation, whichever it is, is never one of a forest. */
  lemma GenuineIsNotForest(ts: TaskMap, v: Violation)
    requires Genuine(ts, v)
    ensures !IsForest(ts)
  {
    match v {
      case DuplicateInList(t, c) =>
        var i, j :| i != j && Lists(ts, t, i, c) && Lists(ts, t, j, c);
      case DanglingChild(t, c) =>
      case TwoContainers(c) =>
        var a, b :| a != b && a in ts && b in ts && c in ts[a].content.childIds && c in ts[b].content.childIds;
        var i := ListedAt(ts, a, c);
        var j := ListedAt(ts, b, c);
      case Cycle(a, b) => NoWayBackUnlessCyclic(ts, a, b);
    }
  }
}
