/** Short handles: the printed tail of an id, its length, and the lookup that
    reads it back. */
module Handles {
  import opened Tasks
  import opened Ranking

  /** The last `len` characters, or all of a shorter id. */
  function Tail(id: Id, len: nat): (r: Id)
    ensures |r| == if len < |id| then len else |id|
  {
    if len < |id| then id[|id| - len..] else id
  }

  /** What is printed for an id. */
  function Handle(id: Id, len: nat): string { "#" + Lowered(Tail(id, len)) }

  /** The handle, cut to the caller's buffer. */
  method HandleText(buf: array<char>, id: Id, len: nat) returns (n: nat)
    modifies buf
    ensures n == if buf.Length < |Handle(id, len)| then buf.Length else |Handle(id, len)|
    ensures buf[..n] == Handle(id, len)[..n]
    ensures buf[n..] == old(buf[n..])
  {
    if buf.Length == 0 {
      return 0;
    }
    var tail := Tail(id, len);
    buf[0] := '#';
    n := 1;
    for i := 0 to |tail|
      invariant n == i + 1 <= buf.Length
      invariant buf[..n] == Handle(id, len)[..n]
      invariant forall k :: n <= k < buf.Length ==> buf[k] == old(buf[k])
    {
      if n == buf.Length {
        return;
      }
      buf[n] := ToLower(tail[i]);
      n := n + 1;
    }
  }

  /** A sharp and the last characters of the id, in lower case. */
  lemma HandleIs(id: Id, len: nat)
    requires len <= |id|
    ensures Handle(id, len) == "#" + Lowered(id[|id| - len..])
    ensures |Handle(id, len)| == len + 1
  {
  }

  predicate DistinctTails(ids: seq<Id>, len: nat) {
    forall i, j :: 0 <= i < j < |ids| ==> Tail(ids[i], len) != Tail(ids[j], len)
  }

  /** One pass over the tails, stopping at the first repeated one. */
  method Collides(ids: seq<Id>, len: nat) returns (collision: bool)
    ensures collision <==> !DistinctTails(ids, len)
  {
    var seen: set<Id> := {};
    for i := 0 to |ids|
      invariant forall k :: 0 <= k < i ==> Tail(ids[k], len) in seen
      invariant forall s :: s in seen ==> exists k :: 0 <= k < i && Tail(ids[k], len) == s
      invariant forall j, k :: 0 <= j < k < i ==> Tail(ids[j], len) != Tail(ids[k], len)
    {
      hide Tail;
      var tail := Tail(ids[i], len);
      if tail in seen {
        var k :| 0 <= k < i && Tail(ids[k], len) == tail;
        return true;
      }
      seen := seen + {tail};
    }
    return false;
  }

  /** The smallest length from 4 to 26 that tells all ids apart; 26 when none does. */
  method MinUniqueSuffixLen(ids: seq<Id>) returns (len: nat)
    ensures 4 <= len <= 26
    ensures forall k :: 4 <= k < len ==> !DistinctTails(ids, k)
    ensures DistinctTails(ids, len) || (len == 26 && !DistinctTails(ids, 26))
  {
    if |ids| <= 1 {
      return 4;
    }
    len := 4;
    while len <= 26
      invariant 4 <= len <= 27
      invariant forall k :: 4 <= k < len ==> !DistinctTails(ids, k)
    {
      var collision := Collides(ids, len);
      if !collision {
        return;
      }
      len := len + 1;
    }
    return 26;
  }

  predicate Ends(id: Id, suffix: string) {
    |suffix| <= |id| && Lowered(id[|id| - |suffix|..]) == Lowered(suffix)
  }

  method EndsWithIgnoreCase(id: Id, suffix: string) returns (r: bool)
    ensures r <==> Ends(id, suffix)
  {
    if |suffix| > |id| {
      return false;
    }
    var tail := id[|id| - |suffix|..];
    for i := 0 to |suffix|
      invariant forall k :: 0 <= k < i ==> ToLower(tail[k]) == ToLower(suffix[k])
    {
      if ToLower(tail[i]) != ToLower(suffix[i]) {
        assert Lowered(tail)[i] != Lowered(suffix)[i];
        return false;
      }
    }
    return true;
  }

  datatype Resolution = Found(task: Task) | NoSuchId | AmbiguousId

  /** A leading '#' does not count. */
  function Asked(query: string): string {
    if |query| > 0 && query[0] == '#' then query[1..] else query
  }

  /** Position `i` is the only one that ends in `q`. */
  ghost predicate OnlyAt(tasks: seq<Task>, q: string, i: int) {
    0 <= i < |tasks| && Ends(tasks[i].id, q) && forall j :: 0 <= j < |tasks| && j != i ==> !Ends(tasks[j].id, q)
  }

  method Resolve(tasks: seq<Task>, query: string) returns (r: Resolution)
    ensures r == NoSuchId <==> Asked(query) == "" || forall i :: 0 <= i < |tasks| ==> !Ends(tasks[i].id, Asked(query))
    ensures r == AmbiguousId <==>
      Asked(query) != "" && 
        exists i, j :: 0 <= i < j < |tasks| && Ends(tasks[i].id, Asked(query)) && Ends(tasks[j].id, Asked(query))
    ensures r.Found? ==> exists i :: OnlyAt(tasks, Asked(query), i) && r.task == tasks[i]
    ensures forall i :: Asked(query) != "" && OnlyAt(tasks, Asked(query), i) ==> r == Found(tasks[i])
  {
    var q := Asked(query);
    if |q| == 0 {
      return NoSuchId;
    }
    hide Ends, Asked;
    r := NoSuchId;
    ghost var at := 0;
    for i := 0 to |tasks|
      invariant r == NoSuchId ==> forall k :: 0 <= k < i ==> !Ends(tasks[k].id, q)
      invariant r != NoSuchId ==> 0 <= at < i && r == Found(tasks[at]) && Ends(tasks[at].id, q)
      invariant r != NoSuchId ==> forall k :: 0 <= k < i && k != at ==> !Ends(tasks[k].id, q)
    {
      var ends := EndsWithIgnoreCase(tasks[i].id, q);
      if ends {
        if r.Found? {
          assert Ends(tasks[at].id, q) && Ends(tasks[i].id, q);
          return AmbiguousId;
        }
        r, at := Found(tasks[i]), i;
      }
    }
    if r.Found? {
      assert OnlyAt(tasks, q, at);
    }
  }

  // ----- printing and reading back -----------------------------------------------------

  predicate NoLowerCase(id: Id) {
    forall i :: 0 <= i < |id| ==> !('a' <= id[i] <= 'z')
  }

  /** Identifiers as the server makes them: capital letters and digits, all of
      one length, no longer than a full handle. */
  ghost predicate UlidLike(tasks: seq<Task>) {
    && (forall i :: 0 <= i < |tasks| ==> NoLowerCase(tasks[i].id) && 0 < |tasks[i].id| <= 26)
    && (forall i, j :: 0 <= i < j < |tasks| ==> tasks[i].id != tasks[j].id && |tasks[i].id| == |tasks[j].id|)
  }

  function Ids(tasks: seq<Task>): (r: seq<Id>)
    ensures |r| == |tasks| && forall i :: 0 <= i < |tasks| ==> r[i] == tasks[i].id
  {
    if tasks == [] then [] else [tasks[0].id] + Ids(tasks[1..])
  }

  lemma LoweringTwice(s: string)
    ensures Lowered(Lowered(s)) == Lowered(s)
  {
    assert forall i :: 0 <= i < |s| ==> ToLower(ToLower(s[i])) == ToLower(s[i]);
  }

  lemma LoweringTellsApart(s: string, t: string)
    requires NoLowerCase(s) && NoLowerCase(t) && Lowered(s) == Lowered(t)
    ensures s == t
  {
    assert |s| == |t|;
    forall i | 0 <= i < |s| ensures s[i] == t[i] {
      assert Lowered(s)[i] == Lowered(t)[i];
    }
  }

  lemma PrintedTail(id: Id, len: nat)
    requires id != "" && len > 0
    ensures Asked(Handle(id, len)) == Lowered(Tail(id, len)) != ""
    ensures Ends(id, Lowered(Tail(id, len)))
  {
    var tail := Tail(id, len);
    assert id[|id| - |tail|..] == tail;
    LoweringTwice(tail);
    assert ("#" + Lowered(tail))[1..] == Lowered(tail);
  }

  lemma FoldedSuffix(id: Id, suffix: string)
    ensures Ends(id, Lowered(suffix)) <==> Ends(id, suffix)
  {
    hide Lowered, Ends;
    LoweringTwice(suffix);
    SameFolded(id, suffix, Lowered(suffix));
  }

  lemma SameFolded(id: Id, s: string, t: string)
    requires |s| == |t| && Lowered(s) == Lowered(t)
    ensures Ends(id, t) <==> Ends(id, s)
  {
    hide Lowered;
  }

  /** A printed handle names its task exactly when no other id ends the same way,
      letter case aside. */
  lemma HandleResolvesIff(tasks: seq<Task>, i: nat, len: nat)
    requires i < |tasks| && tasks[i].id != "" && len > 0
    ensures Asked(Handle(tasks[i].id, len)) != ""
    ensures OnlyAt(tasks, Asked(Handle(tasks[i].id, len)), i) <==>
      forall j :: 0 <= j < |tasks| && j != i ==> !Ends(tasks[j].id, Tail(tasks[i].id, len))
  {
    hide Ends, Lowered, Tail, Asked, Handle;
    PrintedTail(tasks[i].id, len);
    forall j | 0 <= j < |tasks|
      ensures Ends(tasks[j].id, Lowered(Tail(tasks[i].id, len))) <==> Ends(tasks[j].id, Tail(tasks[i].id, len))
    {
      FoldedSuffix(tasks[j].id, Tail(tasks[i].id, len));
    }
  }

  lemma SameLengthSameTail(a: Id, b: Id, len: nat)
    requires NoLowerCase(a) && NoLowerCase(b) && |a| == |b| && Ends(b, Tail(a, len))
    ensures Tail(a, len) == Tail(b, len)
  {
    var ta, tb := Tail(a, len), Tail(b, len);
    assert b[|b| - |ta|..] == tb && a[|a| - |tb|..] == ta;
    LoweringTellsApart(ta, tb);
  }

  /** At the chosen length every handle reads back as its own task. */
  lemma HandlesReadBack(tasks: seq<Task>, len: nat, i: nat)
    requires UlidLike(tasks) && i < |tasks| && len > 0 && DistinctTails(Ids(tasks), len)
    ensures OnlyAt(tasks, Asked(Handle(tasks[i].id, len)), i)
  {
    hide Ends, Lowered, Tail, Asked, Handle, NoLowerCase, OnlyAt, Ids;
    HandleResolvesIff(tasks, i, len);
    forall j | 0 <= j < |tasks| && j != i ensures !Ends(tasks[j].id, Tail(tasks[i].id, len)) {
      assert Tail(Ids(tasks)[i], len) != Tail(Ids(tasks)[j], len);
      if Ends(tasks[j].id, Tail(tasks[i].id, len)) {
        SameLengthSameTail(tasks[i].id, tasks[j].id, len);
      }
    }
  }

  /** And such a length always exists, so the search never gives up. */
  lemma FullLengthTellsApart(tasks: seq<Task>)
    requires UlidLike(tasks)
    ensures DistinctTails(Ids(tasks), 26)
  {
  }

  /** Print at the length the search returns, read back: the very same task. */
  method PrintThenResolve(tasks: seq<Task>, i: nat) returns (r: Resolution)
    requires UlidLike(tasks) && i < |tasks|
    ensures r == Found(tasks[i])
  {
    var ids := Ids(tasks);
    var len := MinUniqueSuffixLen(ids);
    FullLengthTellsApart(tasks);
    HandlesReadBack(tasks, len, i);
    HandleResolvesIff(tasks, i, len);
    r := Resolve(tasks, Handle(tasks[i].id, len));
  }

  /** With ids of different lengths distinct tails are not enough. */
  lemma ShortIdHidesInLongOne(a: Task, b: Task)
    requires a.id == "ABC" && b.id == "XABC"
    ensures DistinctTails([a.id, b.id], 4)
    ensures !OnlyAt([a, b], Asked(Handle(a.id, 4)), 0)
  {
    var tasks := [a, b];
    HandleResolvesIff(tasks, 0, 4);
    assert tasks[1].id[1..] == Tail(tasks[0].id, 4);
    assert Ends(tasks[1].id, Tail(tasks[0].id, 4));
  }
}
