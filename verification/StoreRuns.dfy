/** Runs of the store: any requests in any order, any of the saves failing. */
module StoreRuns {
  import opened Tasks
  import opened Graph
  import opened StoreSpec

  datatype Step = Step(request: Request, saved: bool)

  ghost function Run(s: State, steps: seq<Step>): State {
    if steps == [] then s
    else
      var last := steps[|steps| - 1];
      Next(Run(s, steps[..|steps| - 1]), last.request, last.saved)
  }

  /** The state after the first `n` steps. */
  ghost function At(s: State, steps: seq<Step>, n: nat): State
    requires n <= |steps|
  {
    Run(s, steps[..n])
  }

  lemma AtNext(s: State, steps: seq<Step>, n: nat)
    requires n < |steps|
    ensures At(s, steps, n + 1) == Next(At(s, steps, n), steps[n].request, steps[n].saved)
  {
    assert steps[..n + 1][..n] == steps[..n];
  }

  /** The generator never hands out an id twice, nor one already in the file. */
  ghost predicate FreshIds(s: State, steps: seq<Step>) {
    && (forall k :: 0 <= k < |steps| && steps[k].request.Add? ==> steps[k].request.id !in s.tasks)
    && (forall j, k :: 0 <= j < k < |steps| && steps[j].request.Add? && steps[k].request.Add?
          ==> steps[j].request.id != steps[k].request.id)
  }

  /** `x` was in the file or has been handed out before step `n`. */
  ghost predicate Known(s: State, steps: seq<Step>, n: nat, x: Id)
    requires n <= |steps|
  {
    x in s.tasks || exists k :: 0 <= k < n && steps[k].request.Add? && steps[k].request.id == x
  }

  // ----- one step -------------------------------------------------------------

  /** A task that survives a request is untouched, or its version rose by one. */
  lemma SurvivorsStepByOne(s: State, r: Request, saved: bool, x: Id)
    requires r.Add? ==> r.id !in s.tasks
    requires x in s.tasks && x in Next(s, r, saved).tasks
    ensures Next(s, r, saved).tasks[x] == s.tasks[x]
         || Next(s, r, saved).tasks[x].meta.version == s.tasks[x].meta.version + 1
  {
  }

  lemma NewTasksAreDrawn(s: State, r: Request, saved: bool, x: Id)
    requires x !in s.tasks && x in Next(s, r, saved).tasks
    ensures r.Add? && x == r.id
  {
  }

  // ----- whole runs -----------------------------------------------------------

  lemma {:induction false} RunKeepsForest(s: State, steps: seq<Step>)
    requires IsForest(s.tasks) && KeysMatch(s.tasks)
    ensures IsForest(Run(s, steps).tasks) && KeysMatch(Run(s, steps).tasks)
  {
    if steps != [] {
      RunKeepsForest(s, steps[..|steps| - 1]);
    }
  }

  /** The state version only grows, and while it stands still nothing changes:
      two reads with the same entity tag saw the same tasks. */
  lemma {:induction false} SameVersionSameState(s: State, steps: seq<Step>, i: nat, j: nat)
    requires i <= j <= |steps|
    ensures At(s, steps, i).stateVersion <= At(s, steps, j).stateVersion
    ensures At(s, steps, i).stateVersion == At(s, steps, j).stateVersion ==> At(s, steps, i) == At(s, steps, j)
    decreases j
  {
    if i < j {
      SameVersionSameState(s, steps, i, j - 1);
      AtNext(s, steps, j - 1);
    }
  }

  lemma {:induction false} PresentIsKnown(s: State, steps: seq<Step>, n: nat, x: Id)
    requires n <= |steps| && x in At(s, steps, n).tasks
    ensures Known(s, steps, n, x)
  {
    if n > 0 {
      AtNext(s, steps, n - 1);
      if x in At(s, steps, n - 1).tasks {
        PresentIsKnown(s, steps, n - 1, x);
      } else {
        NewTasksAreDrawn(At(s, steps, n - 1), steps[n - 1].request, steps[n - 1].saved, x);
      }
    }
  }

  /** A known id that is gone never comes back. */
  lemma {:induction false} GoneStaysGone(s: State, steps: seq<Step>, i: nat, j: nat, x: Id)
    requires i <= j <= |steps| && FreshIds(s, steps)
    requires Known(s, steps, i, x) && x !in At(s, steps, i).tasks
    ensures x !in At(s, steps, j).tasks
    decreases j
  {
    if i < j {
      GoneStaysGone(s, steps, i, j - 1, x);
      AtNext(s, steps, j - 1);
      if x in At(s, steps, j).tasks {
        NewTasksAreDrawn(At(s, steps, j - 1), steps[j - 1].request, steps[j - 1].saved, x);
      }
    }
  }

  /** A task's version never falls, and the same version means the same task. */
  lemma {:induction false} VersionPinsTask(s: State, steps: seq<Step>, i: nat, j: nat, x: Id)
    requires i <= j <= |steps| && FreshIds(s, steps)
    requires x in At(s, steps, i).tasks && x in At(s, steps, j).tasks
    ensures At(s, steps, i).tasks[x].meta.version <= At(s, steps, j).tasks[x].meta.version
    ensures At(s, steps, i).tasks[x].meta.version == At(s, steps, j).tasks[x].meta.version
      ==> At(s, steps, i).tasks[x] == At(s, steps, j).tasks[x]
    decreases j
  {
    if i < j {
      PresentIsKnown(s, steps, i, x);
      if x !in At(s, steps, j - 1).tasks {
        GoneStaysGone(s, steps, j - 1, j, x);
      }
      VersionPinsTask(s, steps, i, j - 1, x);
      AtNext(s, steps, j - 1);
      var r := steps[j - 1].request;
      if r.Add? && r.id in At(s, steps, j - 1).tasks {
        PresentIsKnown(s, steps, j - 1, r.id);
      }
      SurvivorsStepByOne(At(s, steps, j - 1), r, steps[j - 1].saved, x);
    }
  }

  // ----- completion stamps ----------------------------------------------------

  ghost predicate StampedIffClosed(ts: TaskMap) {
    forall x :: x in ts ==> (ts[x].meta.completedAt.Some? <==> ts[x].content.status.Terminal())
  }

  ghost predicate PositiveVersions(ts: TaskMap) {
    forall x :: x in ts ==> ts[x].meta.version >= 1
  }

  /** A task carries a completion time exactly while its status is terminal. */
  lemma {:induction false} RunStampsIffClosed(s: State, steps: seq<Step>)
    requires StampedIffClosed(s.tasks)
    ensures StampedIffClosed(Run(s, steps).tasks)
  {
    if steps != [] {
      var n := |steps| - 1;
      RunStampsIffClosed(s, steps[..n]);
      NextStampsIffClosed(Run(s, steps[..n]), steps[n].request, steps[n].saved);
    }
  }

  lemma NextStampsIffClosed(s: State, r: Request, saved: bool)
    requires StampedIffClosed(s.tasks)
    ensures StampedIffClosed(Next(s, r, saved).tasks)
  {
    if r.Update? {
      forall x | x in s.tasks && Targets(r.ops, x) ensures OpFor(r.ops, x) in r.ops {
      }
    }
  }

  /** From a file whose versions are positive they stay so; 0 is free to serve
      as a client's sentinel. */
  lemma {:induction false} RunKeepsPositiveVersions(s: State, steps: seq<Step>)
    requires PositiveVersions(s.tasks)
    ensures PositiveVersions(Run(s, steps).tasks)
  {
    if steps != [] {
      RunKeepsPositiveVersions(s, steps[..|steps| - 1]);
    }
  }
}
