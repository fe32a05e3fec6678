/** The task contract shared by the server and by every client. */
module Tasks {

  type Id = string

  datatype Option<+T> = None | Some(value: T)

  /** A status travels as text; `Unknown` is any text outside the four the
      server accepts on a write. */
  datatype Status = Todo | InProgress | Done | Cancelled | UnknownStatus(text: string)
  {
    predicate Valid() { !UnknownStatus? }
    predicate Terminal() { Done? || Cancelled? }
  }

  /** Closed means done or cancelled; an unknown status counts as open. */
  lemma StatusIs(s: Status)
    ensures s.Terminal() <==> s in {Done, Cancelled}
    ensures s.Valid() <==> s in {Todo, InProgress, Done, Cancelled}
  {
  }

  datatype Priority = NoPriority | Low | Medium | High | UnknownPriority(text: string)
  {
    predicate Valid() { !UnknownPriority? }
  }

  /** The user-editable block. It is replaced as a whole on update. */
  datatype Content = Content(
    title: string,
    description: string,
    status: Status,
    priority: Priority,
    childIds: seq<Id>,
    tags: seq<string>,
    dueAt: Option<int>,
    scheduledAt: Option<int>
  )

  /** The server-owned block. Versions are mathematical naturals. */
  datatype Meta = Meta(createdAt: int, updatedAt: int, completedAt: Option<int>, version: nat)

  datatype Task = Task(id: Id, content: Content, meta: Meta)

  type TaskMap = map<Id, Task>

  predicate DistinctTaskIds(tasks: seq<Task>) {
    forall i, j :: 0 <= i < j < |tasks| ==> tasks[i].id != tasks[j].id
  }

  /** The ids listed by `id`, in order; nothing for an unknown id. */
  function Kids(ts: TaskMap, id: Id): seq<Id> {
    if id in ts then ts[id].content.childIds else []
  }
}
