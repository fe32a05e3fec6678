/** The registry's meaning: one list of records, most recently used first, of
    bounded length. Every record remembers when it was last used. */
module RecencyList {

  /** What a button or a prompt does. */
  datatype Action = Action(
    kind: nat,
    taskId: string,
    arg: string,
    page: int,
    query: string,
    hasList: bool,
    expectedVersion: nat,
    text: string
  )

  /** `token` is empty, or `prompt` is 0, when the record has no such key. */
  datatype Entry = Entry(action: Action, token: string, prompt: int, used: nat)

  datatype Op =
    | Put(action: Action, token: string)
    | PutPrompt(action: Action, prompt: int)
    | Get(token: string)
    | GetByPrompt(prompt: int)

  function Cap(capacity: int): nat { if capacity < 0 then 0 else capacity }

  /** The position of the record with this key; the length when there is none. */
  function FindToken(l: seq<Entry>, token: string): (i: nat)
    ensures i <= |l|
    ensures i < |l| ==> token != "" && l[i].token == token
    ensures i == |l| && token != "" ==> forall k :: 0 <= k < |l| ==> l[k].token != token
  {
    if token == "" || l == [] then |l|
    else if l[0].token == token then 0
    else 1 + FindToken(l[1..], token)
  }

  function FindPrompt(l: seq<Entry>, prompt: int): (i: nat)
    ensures i <= |l|
    ensures i < |l| ==> prompt != 0 && l[i].prompt == prompt
    ensures i == |l| && prompt != 0 ==> forall k :: 0 <= k < |l| ==> l[k].prompt != prompt
  {
    if prompt == 0 || l == [] then |l|
    else if l[0].prompt == prompt then 0
    else 1 + FindPrompt(l[1..], prompt)
  }

  function Without(l: seq<Entry>, i: nat): seq<Entry>
    requires i <= |l|
  {
    if i == |l| then l else l[..i] + l[i + 1..]
  }

  function ToFront(l: seq<Entry>, i: nat, now: nat): seq<Entry>
    requires i <= |l|
  {
    if i == |l| then l else [l[i].(used := now)] + Without(l, i)
  }

  function Trim(l: seq<Entry>, capacity: int): seq<Entry> {
    if |l| <= Cap(capacity) then l else l[..Cap(capacity)]
  }

  function Step(l: seq<Entry>, op: Op, capacity: int, now: nat): seq<Entry> {
    match op
    case Put(a, token) => Trim([Entry(a, token, 0, now)] + l, capacity)
    case PutPrompt(a, prompt) =>
      Trim([Entry(a, "", prompt, now)] + Without(l, FindPrompt(l, prompt)), capacity)
    case Get(token) => ToFront(l, FindToken(l, token), now)
    case GetByPrompt(prompt) => ToFront(l, FindPrompt(l, prompt), now)
  }

  /** What a lookup answers. */
  function Answer(l: seq<Entry>, op: Op): seq<Action> {
    var i := match op
      case Get(token) => FindToken(l, token)
      case GetByPrompt(prompt) => FindPrompt(l, prompt)
      case _ => |l|;
    if i < |l| then [l[i].action] else []
  }

  // ----- invariants of every run -------------------------------------------------------

  ghost predicate KeysUnique(l: seq<Entry>) {
    forall i, j :: 0 <= i < j < |l| ==>
      (l[i].token == l[j].token ==> l[i].token == "") && (l[i].prompt == l[j].prompt ==> l[i].prompt == 0)
  }

  /** Earlier in the list means used later, strictly. */
  ghost predicate ByUse(l: seq<Entry>, now: nat) {
    && (forall i, j :: 0 <= i < j < |l| ==> l[j].used < l[i].used)
    && (forall i :: 0 <= i < |l| ==> l[i].used < now)
  }

  ghost predicate Sound(l: seq<Entry>, capacity: int, now: nat) {
    KeysUnique(l) && ByUse(l, now) && |l| <= Cap(capacity)
  }

  /** Tokens are never handed out twice while they are live. */
  predicate Fresh(l: seq<Entry>, op: Op) {
    op.Put? ==> op.token != "" && forall k :: 0 <= k < |l| ==> l[k].token != op.token
  }

  lemma WithoutIs(l: seq<Entry>, i: nat)
    requires i < |l|
    ensures |Without(l, i)| == |l| - 1
    ensures forall k {:trigger Without(l, i)[k]} :: 0 <= k < |l| - 1 ==>
      Without(l, i)[k] == if k < i then l[k] else l[k + 1]
  {
    var front, back := l[..i], l[i + 1..];
    assert forall k :: 0 <= k < i ==> (front + back)[k] == front[k];
    assert forall k :: i <= k < |l| - 1 ==> (front + back)[k] == back[k - i];
  }

  lemma WithoutIsSound(l: seq<Entry>, i: nat, now: nat)
    requires KeysUnique(l) && ByUse(l, now) && i <= |l|
    ensures KeysUnique(Without(l, i)) && ByUse(Without(l, i), now)
    ensures forall e :: e in Without(l, i) ==> e in l
    ensures i < |l| ==> forall e :: e in Without(l, i) ==>
      (l[i].token != "" ==> e.token != l[i].token) && (l[i].prompt != 0 ==> e.prompt != l[i].prompt)
  {
    if i < |l| {
      WithoutIs(l, i);
      KeysStayUnique(l, Without(l, i), i, now);
      forall e | e in Without(l, i)
        ensures e in l && (l[i].token != "" ==> e.token != l[i].token) && (l[i].prompt != 0 ==> e.prompt != l[i].prompt)
      {
        var k :| 0 <= k < |Without(l, i)| && Without(l, i)[k] == e;
        assert e == if k < i then l[k] else l[k + 1];
      }
    }
  }

  lemma KeysStayUnique(l: seq<Entry>, m: seq<Entry>, i: nat, now: nat)
    requires KeysUnique(l) && ByUse(l, now) && i < |l| && |m| == |l| - 1
    requires forall k {:trigger m[k]} :: 0 <= k < |m| ==> m[k] == if k < i then l[k] else l[k + 1]
    ensures KeysUnique(m) && ByUse(m, now)
  {
    forall j, k | 0 <= j < k < |m|
      ensures m[k].used < m[j].used
      ensures (m[j].token == m[k].token ==> m[j].token == "") && (m[j].prompt == m[k].prompt ==> m[j].prompt == 0)
    {
      var a := if j < i then j else j + 1;
      var b := if k < i then k else k + 1;
      assert m[j] == l[a];
      assert m[k] == l[b];
    }
    forall j | 0 <= j < |m| ensures m[j].used < now {
      var a := if j < i then j else j + 1;
      assert m[j] == l[a];
    }
  }

  lemma FrontIsSound(e: Entry, l: seq<Entry>, now: nat)
    requires KeysUnique(l) && ByUse(l, now) && e.used == now
    requires forall x :: x in l ==> (e.token != "" ==> x.token != e.token) && (e.prompt != 0 ==> x.prompt != e.prompt)
    ensures KeysUnique([e] + l) && ByUse([e] + l, now + 1)
  {
    var m := [e] + l;
    forall i, j | 0 <= i < j < |m|
      ensures (m[i].token == m[j].token ==> m[i].token == "") && (m[i].prompt == m[j].prompt ==> m[i].prompt == 0)
    {
      assert m[j] == l[j - 1] && m[j] in l;
      if i > 0 { assert m[i] == l[i - 1]; }
    }
  }

  lemma TrimIsSound(l: seq<Entry>, capacity: int, now: nat)
    requires KeysUnique(l) && ByUse(l, now)
    ensures Sound(Trim(l, capacity), capacity, now)
  {
  }

  lemma MoveIsSound(l: seq<Entry>, i: nat, capacity: int, now: nat)
    requires Sound(l, capacity, now) && i <= |l|
    ensures Sound(ToFront(l, i, now), capacity, now + 1)
  {
    WithoutIsSound(l, i, now);
    if i < |l| {
      FrontIsSound(l[i].(used := now), Without(l, i), now);
    }
  }

  lemma StepIsSound(l: seq<Entry>, op: Op, capacity: int, now: nat)
    requires Sound(l, capacity, now) && Fresh(l, op)
    ensures Sound(Step(l, op, capacity, now), capacity, now + 1)
  {
    hide Sound, KeysUnique, ByUse, Trim, ToFront;
    match op
    case Put(a, token) =>
      SoundIs(l, capacity, now);
      FrontIsSound(Entry(a, token, 0, now), l, now);
      TrimIsSound([Entry(a, token, 0, now)] + l, capacity, now + 1);
    case PutPrompt(a, prompt) =>
      SoundIs(l, capacity, now);
      var i := FindPrompt(l, prompt);
      WithoutIsSound(l, i, now);
      FrontIsSound(Entry(a, "", prompt, now), Without(l, i), now);
      TrimIsSound([Entry(a, "", prompt, now)] + Without(l, i), capacity, now + 1);
    case Get(token) => MoveIsSound(l, FindToken(l, token), capacity, now);
    case GetByPrompt(prompt) => MoveIsSound(l, FindPrompt(l, prompt), capacity, now);
  }

  lemma SoundIs(l: seq<Entry>, capacity: int, now: nat)
    requires Sound(l, capacity, now)
    ensures KeysUnique(l) && ByUse(l, now)
  {
  }

  ghost function Run(ops: seq<Op>, capacity: int): seq<Entry> {
    if ops == [] then []
    else Step(Run(ops[..|ops| - 1], capacity), ops[|ops| - 1], capacity, |ops| - 1)
  }

  ghost predicate AllFresh(ops: seq<Op>, capacity: int) {
    ops == [] || (AllFresh(ops[..|ops| - 1], capacity) && Fresh(Run(ops[..|ops| - 1], capacity), ops[|ops| - 1]))
  }

  lemma {:induction false} RunIsSound(ops: seq<Op>, capacity: int)
    requires AllFresh(ops, capacity)
    ensures Sound(Run(ops, capacity), capacity, |ops|)
  {
    if ops != [] {
      var n := |ops| - 1;
      RunIsSound(ops[..n], capacity);
      StepIsSound(Run(ops[..n], capacity), ops[n], capacity, n);
    }
  }

  /** A record with these keys and this action is still there. */
  predicate Holds(l: seq<Entry>, e: Entry) {
    exists k :: 0 <= k < |l| && l[k].action == e.action && l[k].token == e.token && l[k].prompt == e.prompt
  }

  /** A record goes only when its prompt is registered anew, or when the list is
      full and every record left in it was used more recently. */
  lemma GoneMeansReplacedOrStale(ops: seq<Op>, op: Op, capacity: int, i: nat)
    requires AllFresh(ops, capacity) && Fresh(Run(ops, capacity), op) && i < |Run(ops, capacity)|
    requires !Holds(Step(Run(ops, capacity), op, capacity, |ops|), Run(ops, capacity)[i])
    ensures
      var l := Run(ops, capacity);
      var rest := Step(l, op, capacity, |ops|);
      (op.PutPrompt? && op.prompt != 0 && op.prompt == l[i].prompt)
      || (|rest| == Cap(capacity) && forall k :: 0 <= k < |rest| ==> rest[k].used > l[i].used)
  {
    hide Run, AllFresh, Holds, KeysUnique, ByUse, Without, ToFront, Trim;
    var l, now := Run(ops, capacity), |ops|;
    RunIsSound(ops, capacity);
    match op
    case Put(a, token) =>
      var longer := [Entry(a, token, 0, now)] + l;
      FrontIsSound(Entry(a, token, 0, now), l, now);
      Trimmed(longer, capacity, now + 1, i + 1);
    case PutPrompt(a, prompt) =>
      var j := FindPrompt(l, prompt);
      if j != i {
        var longer := [Entry(a, "", prompt, now)] + Without(l, j);
        WithoutIsSound(l, j, now);
        FrontIsSound(Entry(a, "", prompt, now), Without(l, j), now);
        var p := Kept(l, j, i);
        Trimmed(longer, capacity, now + 1, p + 1);
      }
    case Get(token) => Moved(l, FindToken(l, token), now, i);
    case GetByPrompt(prompt) => Moved(l, FindPrompt(l, prompt), now, i);
  }

  lemma Trimmed(l: seq<Entry>, capacity: int, now: nat, i: nat)
    requires ByUse(l, now) && i < |l|
    ensures var rest := Trim(l, capacity);
      Holds(rest, l[i]) || (|rest| == Cap(capacity) && forall k :: 0 <= k < |rest| ==> rest[k].used > l[i].used)
  {
    var rest := Trim(l, capacity);
    if i < |rest| {
      assert rest[i] == l[i];
    }
  }

  lemma Kept(l: seq<Entry>, j: nat, i: nat) returns (p: nat)
    requires j <= |l| && i < |l| && i != j
    ensures p < |Without(l, j)| && Without(l, j)[p] == l[i]
  {
    p := if i < j then i else i - 1;
    if j < |l| {
      WithoutIs(l, j);
    }
  }

  lemma Moved(l: seq<Entry>, j: nat, now: nat, i: nat)
    requires j <= |l| && i < |l|
    ensures Holds(ToFront(l, j, now), l[i])
  {
    var m := ToFront(l, j, now);
    if j == |l| {
      assert m[i] == l[i];
    } else {
      WithoutIs(l, j);
      if i == j {
        assert m[0] == l[i].(used := now);
      } else {
        assert m[if i < j then i + 1 else i] == l[i];
      }
    }
  }

  /** Until then a lookup finds exactly what was stored, under either key. */
  lemma LookupIsExact(ops: seq<Op>, capacity: int, i: nat)
    requires AllFresh(ops, capacity) && i < |Run(ops, capacity)|
    ensures var l := Run(ops, capacity);
      && (l[i].token != "" ==> Answer(l, Get(l[i].token)) == [l[i].action])
      && (l[i].prompt != 0 ==> Answer(l, GetByPrompt(l[i].prompt)) == [l[i].action])
  {
    hide Run, Step, Cap;
    RunIsSound(ops, capacity);
    FoundByKey(Run(ops, capacity), i);
  }

  lemma FoundByKey(l: seq<Entry>, i: nat)
    requires KeysUnique(l) && i < |l|
    ensures l[i].token != "" ==> FindToken(l, l[i].token) == i
    ensures l[i].prompt != 0 ==> FindPrompt(l, l[i].prompt) == i
  {
  }
}
