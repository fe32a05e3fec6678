/** The bot's action registry as it is laid out: one list of shared elements and
    two maps into it. */
module Registry {
  import opened RecencyList

  class Element {
    const action: Action
    const token: string
    const prompt: int

    constructor (action: Action, token: string, prompt: int)
      ensures this.action == action && this.token == token && this.prompt == prompt
    {
      this.action, this.token, this.prompt := action, token, prompt;
    }
  }

  class Registry {
    const capacity: int
    /** Front is the most recently used. */
    var ll: seq<Element>
    var byToken: map<string, Element>
    var byPrompt: map<int, Element>
    ghost var entries: seq<Entry>
    ghost var clock: nat

    ghost predicate Valid()
      reads this
    {
      && Mirrors(ll, entries)
      && Sound(entries, capacity, clock)
      && NoTwice(ll)
      && TokenIndex(ll, byToken)
      && PromptIndex(ll, byPrompt)
    }

    constructor (capacity: int)
      ensures Valid() && entries == [] && clock == 0 && this.capacity == capacity
    {
      this.capacity, ll, byToken, byPrompt := capacity, [], map[], map[];
      entries, clock := [], 0;
    }

    method Put(a: Action, token: string)
      requires Valid() && Fresh(entries, Op.Put(a, token))
      modifies this
      ensures Valid() && clock == old(clock) + 1
      ensures entries == Step(old(entries), Op.Put(a, token), capacity, old(clock))
    {
      var el := new Element(a, token, 0);
      Insert(el);
    }

    method PutPrompt(a: Action, prompt: int)
      requires Valid()
      modifies this
      ensures Valid() && clock == old(clock) + 1
      ensures entries == Step(old(entries), Op.PutPrompt(a, prompt), capacity, old(clock))
    {
      PromptLookup(ll, entries, byPrompt, prompt);
      ghost var i := FindPrompt(entries, prompt);
      WithoutIsSound(entries, i, clock);
      if prompt in byPrompt {
        var stale := byPrompt[prompt];
        Remove(stale, i);
      }
      var el := new Element(a, "", prompt);
      Insert(el);
    }

    method Get(token: string) returns (found: seq<Action>)
      requires Valid()
      modifies this
      ensures Valid() && clock == old(clock) + 1
      ensures found == Answer(old(entries), Op.Get(token))
      ensures entries == Step(old(entries), Op.Get(token), capacity, old(clock))
    {
      TokenLookup(ll, entries, byToken, token);
      if token !in byToken {
        clock := clock + 1;
        return [];
      }
      MoveToFront(byToken[token], FindToken(entries, token));
      return [byToken[token].action];
    }

    method GetByPrompt(prompt: int) returns (found: seq<Action>)
      requires Valid()
      modifies this
      ensures Valid() && clock == old(clock) + 1
      ensures found == Answer(old(entries), Op.GetByPrompt(prompt))
      ensures entries == Step(old(entries), Op.GetByPrompt(prompt), capacity, old(clock))
    {
      PromptLookup(ll, entries, byPrompt, prompt);
      if prompt !in byPrompt {
        clock := clock + 1;
        return [];
      }
      MoveToFront(byPrompt[prompt], FindPrompt(entries, prompt));
      return [byPrompt[prompt].action];
    }

    /** Add at the front, then evict from the back down to the capacity, out of
        both maps. */
    method Insert(el: Element)
      requires Valid() && el !in ll
      requires forall e :: e in entries ==>
        (el.token != "" ==> e.token != el.token) && (el.prompt != 0 ==> e.prompt != el.prompt)
      modifies this
      ensures Valid() && clock == old(clock) + 1
      ensures entries == Trim([EntryOf(el, old(clock))] + old(entries), capacity)
    {
      hide Mirrors, NoTwice, TokenIndex, PromptIndex, KeysUnique, ByUse, Unlink, Without;
      SoundIs(entries, capacity, clock);
      FrontIsSound(EntryOf(el, clock), entries, clock);
      FrontMirrors(el, ll, entries, clock);
      FrontIndexed(el, ll, entries, byToken, byPrompt);
      ll := [el] + ll;
      entries := [EntryOf(el, clock)] + entries;
      if el.token != "" { byToken := byToken[el.token := el]; }
      if el.prompt != 0 { byPrompt := byPrompt[el.prompt := el]; }
      Evict();
      clock := clock + 1;
    }

    /** From the back, until the capacity holds. */
    method Evict()
      requires Mirrors(ll, entries) && NoTwice(ll) && KeysUnique(entries) && ByUse(entries, clock + 1)
      requires TokenIndex(ll, byToken) && PromptIndex(ll, byPrompt)
      modifies this`ll, this`entries, this`byToken, this`byPrompt
      ensures Mirrors(ll, entries) && NoTwice(ll) && Sound(entries, capacity, clock + 1)
      ensures TokenIndex(ll, byToken) && PromptIndex(ll, byPrompt)
      ensures entries == Trim(old(entries), capacity)
    {
      hide Mirrors, NoTwice, TokenIndex, PromptIndex, KeysUnique, ByUse, Unlink, Without;
      MirrorsLength(ll, entries);
      while |ll| > capacity && |ll| > 0
        invariant Mirrors(ll, entries) && NoTwice(ll) && KeysUnique(entries) && ByUse(entries, clock + 1)
        invariant TokenIndex(ll, byToken) && PromptIndex(ll, byPrompt)
        invariant |ll| <= |old(entries)| && entries == old(entries)[..|ll|]
        invariant |ll| < |old(entries)| ==> |ll| >= Cap(capacity)
        decreases |ll|
      {
        var n := |ll| - 1;
        var last := ll[n];
        LastDropped(ll, entries, byToken, byPrompt, clock + 1);
        ll := ll[..n];
        entries := entries[..n];
        if last.token != "" { byToken := byToken - {last.token}; }
        if last.prompt != 0 { byPrompt := byPrompt - {last.prompt}; }
      }
      MirrorsLength(ll, entries);
    }

    /** Unlink one element and forget its keys. */
    method Remove(el: Element, ghost i: nat)
      requires Valid() && i < |ll| && ll[i] == el
      modifies this
      ensures Valid() && clock == old(clock) && entries == Without(old(entries), i) && el !in ll
    {
      hide Mirrors, NoTwice, TokenIndex, PromptIndex, KeysUnique, ByUse, Unlink;
      SoundIs(entries, capacity, clock);
      MirrorsLength(ll, entries);
      WithoutIsSound(entries, i, clock);
      Unlinked(ll, entries, byToken, byPrompt, i);
      ll := Unlink(ll, el);
      if el.token != "" { byToken := byToken - {el.token}; }
      if el.prompt != 0 { byPrompt := byPrompt - {el.prompt}; }
      entries := Without(entries, i);
    }

    method MoveToFront(el: Element, ghost i: nat)
      requires Valid() && i < |ll| && ll[i] == el
      modifies this`ll, this`entries, this`clock
      ensures Valid() && clock == old(clock) + 1 && entries == ToFront(old(entries), i, old(clock))
    {
      hide Mirrors, NoTwice, TokenIndex, PromptIndex, KeysUnique, ByUse, Unlink, Without;
      MirrorsLength(ll, entries);
      MoveIsSound(entries, i, capacity, clock);
      UnlinkIs(ll, el, i);
      MovedElements(ll, entries, byToken, byPrompt, i, clock);
      ll := [el] + Unlink(ll, el);
      entries := ToFront(entries, i, clock);
      clock := clock + 1;
    }
  }

  /** The list without one element. */
  function Unlink(ll: seq<Element>, el: Element): seq<Element> {
    if ll == [] then [] else if ll[0] == el then ll[1..] else [ll[0]] + Unlink(ll[1..], el)
  }

  lemma {:induction false} UnlinkIs(ll: seq<Element>, el: Element, i: nat)
    requires NoTwice(ll) && i < |ll| && ll[i] == el
    ensures Unlink(ll, el) == ll[..i] + ll[i + 1..]
  {
    if i > 0 {
      assert ll[1..][i - 1] == el;
      UnlinkIs(ll[1..], el, i - 1);
      assert ll[..i] + ll[i + 1..] == [ll[0]] + (ll[1..][..i - 1] + ll[1..][i..]);
    }
  }

  lemma RestMembers(ll: seq<Element>, i: nat)
    requires NoTwice(ll) && i < |ll|
    ensures var rest := ll[..i] + ll[i + 1..];
      NoTwice(rest) && forall e :: e in rest <==> e in ll && e != ll[i]
  {
    var rest := ll[..i] + ll[i + 1..];
    assert forall k :: 0 <= k < |rest| ==> rest[k] == ll[if k < i then k else k + 1];
    forall e | e in ll && e != ll[i] ensures e in rest {
      var k :| 0 <= k < |ll| && ll[k] == e;
      assert rest[if k < i then k else k - 1] == e;
    }
  }

  lemma RestMirrors(ll: seq<Element>, entries: seq<Entry>, i: nat)
    requires Mirrors(ll, entries) && i < |ll|
    ensures Mirrors(ll[..i] + ll[i + 1..], Without(entries, i))
  {
    WithoutIs(entries, i);
  }

  lemma Unlinked(ll: seq<Element>, entries: seq<Entry>, byToken: map<string, Element>, byPrompt: map<int, Element>,
        i: nat)
    requires Mirrors(ll, entries) && NoTwice(ll) && KeysUnique(entries) && i < |ll|
    requires TokenIndex(ll, byToken) && PromptIndex(ll, byPrompt)
    ensures Unlink(ll, ll[i]) == ll[..i] + ll[i + 1..]
    ensures ll[i] !in Unlink(ll, ll[i]) && NoTwice(Unlink(ll, ll[i]))
    ensures Mirrors(Unlink(ll, ll[i]), Without(entries, i))
    ensures TokenIndex(Unlink(ll, ll[i]), if ll[i].token != "" then byToken - {ll[i].token} else byToken)
    ensures PromptIndex(Unlink(ll, ll[i]), if ll[i].prompt != 0 then byPrompt - {ll[i].prompt} else byPrompt)
  {
    hide *;
    UnlinkIs(ll, ll[i], i);
    RestMembers(ll, i);
    RestMirrors(ll, entries, i);
    KeysApart(ll, entries, i);
    TokenForgotten(ll, Unlink(ll, ll[i]), ll[i], byToken);
    PromptForgotten(ll, Unlink(ll, ll[i]), ll[i], byPrompt);
  }

  lemma TokenForgotten(ll: seq<Element>, rest: seq<Element>, el: Element, m: map<string, Element>)
    requires TokenIndex(ll, m) && el in ll && forall e :: e in rest <==> e in ll && e != el
    requires forall e :: e in ll && e != el ==> el.token != "" ==> e.token != el.token
    ensures TokenIndex(rest, if el.token != "" then m - {el.token} else m)
  {
  }

  lemma PromptForgotten(ll: seq<Element>, rest: seq<Element>, el: Element, m: map<int, Element>)
    requires PromptIndex(ll, m) && el in ll && forall e :: e in rest <==> e in ll && e != el
    requires forall e :: e in ll && e != el ==> el.prompt != 0 ==> e.prompt != el.prompt
    ensures PromptIndex(rest, if el.prompt != 0 then m - {el.prompt} else m)
  {
  }

  /** No two elements share a key. */
  lemma KeysApart(ll: seq<Element>, entries: seq<Entry>, i: nat)
    requires Mirrors(ll, entries) && KeysUnique(entries) && i < |ll|
    ensures forall e :: e in ll && e != ll[i] ==>
      (ll[i].token != "" ==> e.token != ll[i].token) && (ll[i].prompt != 0 ==> e.prompt != ll[i].prompt)
  {
    forall e | e in ll && e != ll[i]
      ensures (ll[i].token != "" ==> e.token != ll[i].token) && (ll[i].prompt != 0 ==> e.prompt != ll[i].prompt)
    {
      var k :| 0 <= k < |ll| && ll[k] == e;
      assert entries[k].token == e.token && entries[i].token == ll[i].token;
      assert entries[k].prompt == e.prompt && entries[i].prompt == ll[i].prompt;
    }
  }

  lemma LastDropped(ll: seq<Element>, entries: seq<Entry>, byToken: map<string, Element>, byPrompt: map<int, Element>,
        now: nat)
    requires Mirrors(ll, entries) && NoTwice(ll) && KeysUnique(entries) && ByUse(entries, now) && |ll| > 0
    requires TokenIndex(ll, byToken) && PromptIndex(ll, byPrompt)
    ensures var n := |ll| - 1;
      && |entries| == n + 1
      && Mirrors(ll[..n], entries[..n]) && NoTwice(ll[..n]) && KeysUnique(entries[..n]) && ByUse(entries[..n], now)
      && TokenIndex(ll[..n], if ll[n].token != "" then byToken - {ll[n].token} else byToken)
      && PromptIndex(ll[..n], if ll[n].prompt != 0 then byPrompt - {ll[n].prompt} else byPrompt)
  {
    hide NoTwice, TokenIndex, PromptIndex, Unlink, Mirrors, KeysUnique, ByUse;
    var n := |ll| - 1;
    MirrorsLength(ll, entries);
    Unlinked(ll, entries, byToken, byPrompt, n);
    WithoutIsSound(entries, n, now);
    assert ll[..n] + ll[n + 1..] == ll[..n];
    assert Without(entries, n) == entries[..n];
  }

  lemma MirrorsLength(ll: seq<Element>, entries: seq<Entry>)
    requires Mirrors(ll, entries)
    ensures |ll| == |entries|
  {
  }

  lemma FrontMirrors(el: Element, ll: seq<Element>, entries: seq<Entry>, now: nat)
    requires Mirrors(ll, entries) && NoTwice(ll) && el !in ll
    ensures Mirrors([el] + ll, [EntryOf(el, now)] + entries) && NoTwice([el] + ll)
  {
  }

  lemma FrontIndexed(el: Element, ll: seq<Element>, entries: seq<Entry>, byToken: map<string, Element>,
        byPrompt: map<int, Element>)
    requires Mirrors(ll, entries) && TokenIndex(ll, byToken) && PromptIndex(ll, byPrompt)
    requires forall e :: e in entries ==>
      (el.token != "" ==> e.token != el.token) && (el.prompt != 0 ==> e.prompt != el.prompt)
    ensures TokenIndex([el] + ll, if el.token != "" then byToken[el.token := el] else byToken)
    ensures PromptIndex([el] + ll, if el.prompt != 0 then byPrompt[el.prompt := el] else byPrompt)
  {
    forall e | e in ll ensures (el.token != "" ==> e.token != el.token) && (el.prompt != 0 ==> e.prompt != el.prompt) {
      var k :| 0 <= k < |ll| && ll[k] == e;
      assert entries[k] in entries;
    }
  }

  lemma MovedElements(ll: seq<Element>, entries: seq<Entry>, byToken: map<string, Element>, 
        byPrompt: map<int, Element>, i: nat, now: nat)
    requires Mirrors(ll, entries) && NoTwice(ll) && i < |ll|
    requires TokenIndex(ll, byToken) && PromptIndex(ll, byPrompt)
    ensures var moved := [ll[i]] + Unlink(ll, ll[i]);
      Mirrors(moved, ToFront(entries, i, now)) && NoTwice(moved) && TokenIndex(moved, byToken)
        && PromptIndex(moved, byPrompt)
  {
    UnlinkIs(ll, ll[i], i);
    RestMembers(ll, i);
    RestMirrors(ll, entries, i);
    var rest := ll[..i] + ll[i + 1..];
    FrontMirrors(ll[i], rest, Without(entries, i), now);
    SameIndex(ll, [ll[i]] + rest, byToken, byPrompt);
    assert [EntryOf(ll[i], now)] + Without(entries, i) == ToFront(entries, i, now);
  }

  lemma SameIndex(ll: seq<Element>, l2: seq<Element>, byToken: map<string, Element>, byPrompt: map<int, Element>)
    requires TokenIndex(ll, byToken) && PromptIndex(ll, byPrompt) && forall e :: e in ll <==> e in l2
    ensures TokenIndex(l2, byToken) && PromptIndex(l2, byPrompt)
  {
  }

  lemma TokenLookup(ll: seq<Element>, entries: seq<Entry>, m: map<string, Element>, token: string)
    requires Mirrors(ll, entries) && TokenIndex(ll, m)
    ensures var i := FindToken(entries, token);
      (token in m <==> i < |entries|) && (i < |entries| ==> i < |ll| && m[token] == ll[i])
  {
    var i := FindToken(entries, token);
    if token in m {
      var k :| 0 <= k < |ll| && ll[k] == m[token];
      assert entries[k].token == token;
    }
    if i < |entries| {
      assert ll[i] in ll && ll[i].token == token;
    }
  }

  lemma PromptLookup(ll: seq<Element>, entries: seq<Entry>, m: map<int, Element>, prompt: int)
    requires Mirrors(ll, entries) && PromptIndex(ll, m)
    ensures var i := FindPrompt(entries, prompt);
      (prompt in m <==> i < |entries|) && (i < |entries| ==> i < |ll| && m[prompt] == ll[i])
  {
    var i := FindPrompt(entries, prompt);
    if prompt in m {
      var k :| 0 <= k < |ll| && ll[k] == m[prompt];
      assert entries[k].prompt == prompt;
    }
    if i < |entries| {
      assert ll[i] in ll && ll[i].prompt == prompt;
    }
  }

  function EntryOf(e: Element, used: nat): Entry { Entry(e.action, e.token, e.prompt, used) }

  /** The list and its meaning, record by record. */
  ghost predicate Mirrors(ll: seq<Element>, entries: seq<Entry>) {
    |ll| == |entries| && forall i :: 0 <= i < |ll| ==> entries[i] == EntryOf(ll[i], entries[i].used)
  }

  ghost predicate NoTwice(ll: seq<Element>) {
    forall i, j :: 0 <= i < j < |ll| ==> ll[i] != ll[j]
  }

  /** The map and the list hold the same keyed elements. */
  ghost predicate TokenIndex(ll: seq<Element>, m: map<string, Element>) {
    && (forall e :: e in ll && e.token != "" ==> e.token in m && m[e.token] == e)
    && (forall k :: k in m ==> m[k] in ll && m[k].token == k && k != "")
  }

  ghost predicate PromptIndex(ll: seq<Element>, m: map<int, Element>) {
    && (forall e :: e in ll && e.prompt != 0 ==> e.prompt in m && m[e.prompt] == e)
    && (forall k :: k in m ==> m[k] in ll && m[k].prompt == k && k != 0)
  }
}
