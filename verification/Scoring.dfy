/** Per-task scores and filters, the same in the bot and in the Zig core. */
module Scoring {
  import opened Tasks

  const DAY: int := 86400
  const WEEK: int := 7 * DAY

  function PriorityWeight(p: Priority): (w: int)
    ensures 0 <= w <= 5
  {
    match p
    case Low => 1
    case Medium => 3
    case High => 5
    case _ => 0
  }

  function DueFactor(t: Task, now: int): (f: int)
    ensures 0 <= f <= 8
  {
    if t.content.dueAt.None? then 0
    else
      var delta := t.content.dueAt.value - now;
      if delta < 0 then 8
      else if delta <= DAY then 6
      else if delta <= 3 * DAY then 4
      else if delta <= 7 * DAY then 2
      else 0
  }

  function AgeFactor(t: Task, now: int): (f: int)
    ensures 0 <= f <= 4
  {
    var age := now - t.meta.createdAt;
    if age <= 0 then 0
    else if age / WEEK > 4 then 4
    else age / WEEK
  }

  /** Never negative: the walks rely on 0 as the neutral answer. */
  function Urgency(t: Task, now: int): (u: int)
    ensures 0 <= u <= 17
  {
    if t.content.status.Terminal() then 0
    else PriorityWeight(t.content.priority) + DueFactor(t, now) + AgeFactor(t, now)
  }

  predicate NeedsAttention(t: Task, now: int) {
    && !t.content.status.Terminal()
    && (t.content.priority.High? || (t.content.dueAt.Some? && t.content.dueAt.value - now <= 3 * DAY))
  }

  datatype Filters = Filters(tags: seq<string>, statuses: seq<Status>, overdue: bool)

  predicate IsOverdue(t: Task, now: int) {
    t.content.dueAt.Some? && !t.content.status.Terminal() && t.content.dueAt.value < now
  }

  predicate MatchesSelf(t: Task, f: Filters, now: int) {
    && (forall i :: 0 <= i < |f.tags| ==> f.tags[i] in t.content.tags)
    && (f.statuses != [] ==> t.content.status in f.statuses)
    && (f.overdue ==> IsOverdue(t, now))
  }

  // ----- in numbers -------------------------------------------------------------------

  /** At most so many days away, overdue included. */
  predicate DueWithin(t: Task, now: int, days: int) {
    t.content.dueAt.Some? && t.content.dueAt.value <= now + days * 86400
  }

  /** What urgency adds up to. */
  lemma UrgencyIs(t: Task, now: int)
    ensures
      var p := match t.content.priority case High => 5 case Medium => 3 case Low => 1 case _ => 0;
      var d := if t.content.dueAt.Some? && t.content.dueAt.value < now then 8
               else if DueWithin(t, now, 1) then 6
               else if DueWithin(t, now, 3) then 4
               else if DueWithin(t, now, 7) then 2 else 0;
      var weeks := if now < t.meta.createdAt + 604800 then 0
                   else if now < t.meta.createdAt + 2 * 604800 then 1
                   else if now < t.meta.createdAt + 3 * 604800 then 2
                   else if now < t.meta.createdAt + 4 * 604800 then 3 else 4;
      Urgency(t, now) == if t.content.status in {Done, Cancelled} then 0 else p + d + weeks
  {
  }

  /** A task only grows more urgent while it is left alone. */
  lemma UrgencyGrows(t: Task, now: int, later: int)
    requires now <= later
    ensures Urgency(t, now) <= Urgency(t, later)
    ensures NeedsAttention(t, now) ==> NeedsAttention(t, later)
    ensures IsOverdue(t, now) ==> IsOverdue(t, later)
  {
    UrgencyIs(t, now);
    UrgencyIs(t, later);
  }

  lemma AttentionIs(t: Task, now: int)
    ensures NeedsAttention(t, now) <==>
      t.content.status !in {Done, Cancelled} && (t.content.priority == High || DueWithin(t, now, 3))
    ensures IsOverdue(t, now) <==>
      t.content.status !in {Done, Cancelled} && t.content.dueAt.Some? && t.content.dueAt.value < now
  {
  }

  /** A filter asks for all its tags, for one of its statuses if it names any, and
      for an open task past its due date if it says so. */
  lemma MatchIs(t: Task, f: Filters, now: int)
    ensures MatchesSelf(t, f, now) <==>
      && (forall tag :: tag in f.tags ==> tag in t.content.tags)
      && (f.statuses == [] || t.content.status in f.statuses)
      && (f.overdue ==> t.content.status !in {Done, Cancelled} && t.content.dueAt.Some? && t.content.dueAt.value < now)
  {
  }
}
