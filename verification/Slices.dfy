/** Child lists as the server holds them: slices over arrays that are edited in
    place. A candidate is edited on a deep copy, so that nothing it does can reach
    the live state; the methods below modify nothing that existed before. */
module Slices {
  import opened Tasks
  import StoreSpec

  /** `len` elements in use; appending within the array's length writes into it. */
  datatype Slice = Slice(data: array<Id>, len: nat)

  predicate Fits(s: Slice) { s.len <= s.data.Length }

  function Items(s: Slice): seq<Id>
    requires Fits(s)
    reads s.data
  {
    s.data[..s.len]
  }

  /** The lists of a state. Two tasks never share an array. */
  type Lists = map<Id, Slice>

  ghost predicate Apart(ls: Lists) {
    && (forall x :: x in ls ==> Fits(ls[x]))
    && forall x, y :: x in ls && y in ls && x != y ==> ls[x].data != ls[y].data
  }

  /** The two say the same of every task but `id`. */
  ghost predicate SameBut(ls: Lists, live: Lists, id: Option<Id>)
    requires Apart(ls) && Apart(live)
    reads (set x | x in ls :: ls[x].data) + (set x | x in live :: live[x].data)
  {
    ls.Keys == live.Keys && forall x :: x in live && Some(x) != id ==>
      ls[x].len == live[x].len && Items(ls[x]) == Items(live[x])
  }

  /** A copy with an array of its own, with room to spare or not. */
  method Copied(s: Slice, spare: nat) returns (t: Slice)
    requires Fits(s)
    ensures Fits(t) && fresh(t.data) && t.len == s.len && t.data.Length == s.len + spare && Items(t) == Items(s)
  {
    var a := new Id[s.len + spare](_ => "");
    for i := 0 to s.len
      invariant a[..i] == s.data[..i]
    {
      a[i] := s.data[i];
    }
    t := Slice(a, s.len);
  }

  method CloneLists(live: Lists, spare: nat) returns (cand: Lists)
    requires Apart(live)
    ensures Apart(cand) && SameBut(cand, live, None) && forall x :: x in cand ==> fresh(cand[x].data)
  {
    cand := map[];
    var todo := live.Keys;
    while todo != {}
      invariant todo <= live.Keys && cand.Keys == live.Keys - todo
      invariant Apart(cand)
      invariant forall x :: x in cand ==>
        fresh(cand[x].data) && cand[x].len == live[x].len && Items(cand[x]) == Items(live[x])
      decreases todo
    {
      var x :| x in todo;
      var t := Copied(live[x], spare);
      cand := cand[x := t];
      todo := todo - {x};
    }
  }

  /** Every occurrence goes; what stays moves to the front of the same array. */
  method RemoveString(s: Slice, v: Id) returns (out: Slice)
    requires Fits(s)
    modifies s.data
    ensures out.data == s.data && Fits(out) && Items(out) == StoreSpec.Without(old(Items(s)), v)
  {
    ghost var was := Items(s);
    var n := 0;
    for i := 0 to s.len
      invariant n <= i && s.data[..n] == StoreSpec.Without(was[..i], v)
      invariant forall k :: i <= k < s.len ==> s.data[k] == was[k]
    {
      assert was[..i + 1][..i] == was[..i];
      assert was[..i + 1][i] == was[i];
      if s.data[i] != v {
        s.data[n] := s.data[i];
        n := n + 1;
      }
    }
    assert was[..s.len] == was;
    out := Slice(s.data, n);
  }

  /** Into the spare room if there is any, else into a longer array. */
  method Append(s: Slice, v: Id, spare: nat) returns (t: Slice)
    requires Fits(s)
    modifies s.data
    ensures Fits(t) && (t.data == s.data || fresh(t.data)) && Items(t) == old(Items(s)) + [v]
  {
    if s.len < s.data.Length {
      t := s;
    } else {
      t := Copied(s, spare + 1);
    }
    t.data[s.len] := v;
    t := t.(len := s.len + 1);
  }

  /** `now` is `was` with its elements from `i` on one place further. */
  ghost predicate Shifted(was: seq<Id>, now: seq<Id>, i: nat, n: nat) {
    && |now| == |was| && i <= n < |was|
    && (forall j {:trigger now[j]} :: 0 <= j < i ==> now[j] == was[j])
    && forall j {:trigger now[j]} :: i < j <= n ==> now[j] == was[j - 1]
  }

  /** The elements from `i` to `n` move up by one. */
  method ShiftUp(a: array<Id>, i: nat, n: nat)
    requires i <= n < a.Length
    modifies a
    ensures Shifted(old(a[..]), a[..], i, n)
  {
    ghost var was := a[..];
    var k := n;
    while k > i
      invariant i <= k <= n
      invariant forall j :: 0 <= j < k ==> a[j] == was[j]
      invariant forall j {:trigger a[j]} :: k < j <= n ==> a[j] == was[j - 1]
    {
      a[k] := a[k - 1];
      k := k - 1;
    }
  }

  lemma ShiftedIsInserted(was: seq<Id>, before: seq<Id>, now: seq<Id>, i: nat, v: Id)
    requires i <= |was| < |before| && before[..|was|] == was && Shifted(before, now, i, |was|)
    ensures now[i := v][..|was| + 1] == StoreSpec.InsertAt(was, i, v)
  {
    var end := now[i := v][..|was| + 1];
    assert forall j :: 0 <= j < |was| ==> before[j] == before[..|was|][j];
    assert end[..i] == was[..i];
    assert end[i + 1..] == was[i..];
    assert end == end[..i] + [end[i]] + end[i + 1..];
  }

  /** Append, shift the tail by one, and write. */
  method InsertAt(s: Slice, i: nat, v: Id, spare: nat) returns (t: Slice)
    requires Fits(s) && i <= s.len
    modifies s.data
    ensures Fits(t) && (t.data == s.data || fresh(t.data)) && Items(t) == StoreSpec.InsertAt(old(Items(s)), i, v)
  {
    hide StoreSpec.InsertAt, Shifted;
    ghost var was := Items(s);
    t := Append(s, "", spare);
    ghost var before := t.data[..];
    assert before[..s.len] == Items(t)[..s.len] == was;
    ShiftUp(t.data, i, s.len);
    ghost var now := t.data[..];
    ShiftedIsInserted(was, before, now, i, v);
    t.data[i] := v;
    assert t.data[..] == now[i := v];
    assert t.data[..t.len] == t.data[..][..t.len];
  }

  lemma Replaced(cand: Lists, live: Lists, p: Id, kids: Slice)
    requires Apart(cand) && Apart(live) && p in cand && SameBut(cand, live, Some(p))
    requires Fits(kids) && forall x :: x in cand && x != p ==> cand[x].data != kids.data
    ensures Apart(cand[p := kids]) && SameBut(cand[p := kids], live, Some(p))
  {
  }

  // ----- the candidate of a request ----------------------------------------------------

  /** What a delete does to the lists: edited in place, on copies. The live lists
      stay as they are, and nothing of them is in the candidate. */
  method DetachedLists(live: Lists, parent: Id, id: Id, spare: nat) returns (cand: Lists)
    requires Apart(live) && parent in live
    ensures Apart(cand) && forall x :: x in cand ==> fresh(cand[x].data)
    ensures SameBut(cand, live, Some(parent)) && Items(cand[parent]) == StoreSpec.Without(Items(live[parent]), id)
    ensures forall x :: x in live ==> Items(live[x]) == old(Items(live[x]))
  {
    cand := CloneLists(live, spare);
    var kids := RemoveString(cand[parent], id);
    assert SameBut(cand, live, Some(parent));
    Replaced(cand, live, parent, kids);
    cand := cand[parent := kids];
  }

  /** ... and an add under a parent. */
  method InsertedLists(live: Lists, parent: Id, i: nat, id: Id, spare: nat) returns (cand: Lists)
    requires Apart(live) && parent in live && i <= live[parent].len
    ensures Apart(cand) && forall x :: x in cand ==> fresh(cand[x].data)
    ensures SameBut(cand, live, Some(parent)) && Items(cand[parent]) == StoreSpec.InsertAt(Items(live[parent]), i, id)
    ensures forall x :: x in live ==> Items(live[x]) == old(Items(live[x]))
  {
    cand := CloneLists(live, spare);
    var kids := InsertAt(cand[parent], i, id, spare);
    assert SameBut(cand, live, Some(parent));
    Replaced(cand, live, parent, kids);
    cand := cand[parent := kids];
  }
}
