/** The one-line editor. On the screen it is a text and a position in it; in
    memory it is a UTF-8 byte buffer and a byte index. */
module LineEditor {
  import opened Utf8

  /** A key; `Char` carries a 21-bit number that need not be a scalar value. */
  datatype Key =
    | Char(cp: nat)
    | Up | Down | Left | Right | Enter | Escape | Tab
    | Backspace | DeleteKey | Home | EndKey | CtrlD | CtrlU

  // ----- the editor as the user sees it -------------------------------------------

  datatype Text = Text(chars: string, at: nat)
  {
    predicate Valid() { at <= |chars| }
  }

  predicate IsScalar(cp: nat) { cp < 0xD800 || 0xE000 <= cp < 0x11_0000 }

  function Opened(s: string): Text { Text(s, |s|) }

  function Typed(t: Text, k: Key): (u: Text)
    requires t.Valid()
    ensures u.Valid()
  {
    match k
    case Char(cp) =>
      if IsScalar(cp) then Text(t.chars[..t.at] + [cp as char] + t.chars[t.at..], t.at + 1) else t
    case Left => if t.at == 0 then t else t.(at := t.at - 1)
    case Right => if t.at == |t.chars| then t else t.(at := t.at + 1)
    case Home => t.(at := 0)
    case EndKey => t.(at := |t.chars|)
    case Backspace =>
      if t.at == 0 then t else Text(t.chars[..t.at - 1] + t.chars[t.at..], t.at - 1)
    case DeleteKey =>
      if t.at == |t.chars| then t else t.(chars := t.chars[..t.at] + t.chars[t.at + 1..])
    case _ => t
  }

  /** Backspace takes back what was just typed; delete after left does the same. */
  lemma TypingIsUndone(t: Text, cp: nat)
    requires t.Valid() && IsScalar(cp)
    ensures Typed(Typed(t, Char(cp)), Backspace) == t
    ensures Typed(Typed(Typed(t, Char(cp)), Left), DeleteKey) == t
  {
    var u := Typed(t, Char(cp));
    assert u.chars[..t.at] == t.chars[..t.at] && u.chars[t.at + 1..] == t.chars[t.at..];
    assert t.chars == t.chars[..t.at] + t.chars[t.at..];
  }

  /** What each key does to a text, in the part before the cursor and the part
      after it. */
  lemma KeysAct(before: string, after: string, k: Key)
    ensures var t := Text(before + after, |before|);
      Typed(t, k) ==
        match k
        case Char(cp) =>
          if cp < 0xD800 || 0xE000 <= cp <= 0x10FFFF then Text(before + [cp as char] + after, |before| + 1) else t
        case Left => if before == "" then t else Text(before + after, |before| - 1)
        case Right => if after == "" then t else Text(before + after, |before| + 1)
        case Home => Text(before + after, 0)
        case EndKey => Text(before + after, |before| + |after|)
        case Backspace => if before == "" then t else Text(before[..|before| - 1] + after, |before| - 1)
        case DeleteKey => if after == "" then t else Text(before + after[1..], |before|)
        case Up => t
        case Down => t
        case Enter => t
        case Escape => t
        case Tab => t
        case CtrlD => t
        case CtrlU => t
  {
    var t := Text(before + after, |before|);
    assert t.chars[..t.at] == before && t.chars[t.at..] == after;
    if before != "" { assert t.chars[..t.at - 1] == before[..|before| - 1]; }
    if after != "" { assert t.chars[t.at + 1..] == after[1..]; }
  }

  /** The announced length, or one byte where the lead byte is not one. */
  function Advance(b: int): nat {
    if LeadLength(b) == 0 then 1 else LeadLength(b)
  }

  // ----- the editor in memory ---------------------------------------------------------

  class ByteEditor {
    var buf: seq<int>
    var cursor: nat
    /** The text the bytes stand for. */
    ghost var text: Text

    ghost predicate Valid()
      reads this
    {
      && text.Valid()
      && buf == EncodeAll(text.chars)
      && cursor == |EncodeAll(text.chars[..text.at])|
    }

    constructor (initial: seq<int>)
      requires WellFormed(initial)
      ensures Valid() && buf == initial && text == Opened(Decode(initial))
    {
      buf, cursor := initial, |initial|;
      text := Opened(Decode(initial));
      new;
      EncodeDecode(initial);
      assert text.chars[..text.at] == text.chars;
    }

    /** The bytes around the cursor: before it, the next character, after it. */
    lemma SplitAt(at: nat)
      requires text.Valid() && buf == EncodeAll(text.chars) && at < |text.chars|
      ensures var start := |EncodeAll(text.chars[..at])|;
        var stop := |EncodeAll(text.chars[..at + 1])|;
        && start < stop <= |buf|
        && buf[..start] == EncodeAll(text.chars[..at])
        && buf[start..stop] == Encode(text.chars[at])
        && buf[stop..] == EncodeAll(text.chars[at + 1..])
    {
      hide EncodeAll, Encode;
      var s := text.chars;
      assert s[..at + 1] == s[..at] + [s[at]];
      EncodeJoin(s[..at], [s[at]]);
      EncodeOne(s[at]);
      assert s == s[..at + 1] + s[at + 1..];
      EncodeJoin(s[..at + 1], s[at + 1..]);
      var x, y, z := EncodeAll(s[..at]), Encode(s[at]), EncodeAll(s[at + 1..]);
      assert buf == (x + y) + z && |EncodeAll(s[..at + 1])| == |x| + |y|;
      assert buf[|x|..|x| + |y|] == y;
    }

    lemma CutAt(at: nat)
      requires text.Valid() && buf == EncodeAll(text.chars) && at <= |text.chars|
      ensures var start := |EncodeAll(text.chars[..at])|;
        start <= |buf| && buf[..start] == EncodeAll(text.chars[..at]) && buf[start..] == EncodeAll(text.chars[at..])
    {
      assert text.chars == text.chars[..at] + text.chars[at..];
      EncodeJoin(text.chars[..at], text.chars[at..]);
    }

    lemma AtTheEnds()
      requires Valid()
      ensures cursor == 0 <==> text.at == 0
      ensures cursor == |buf| <==> text.at == |text.chars|
      ensures cursor <= |buf|
    {
      CutAt(text.at);
      assert text.chars[..0] == [] && text.chars[..|text.chars|] == text.chars;
      if text.at > 0 { SplitAt(text.at - 1); }
      if text.at < |text.chars| { SplitAt(text.at); }
    }

    method NextBoundary() returns (j: nat)
      requires Valid()
      ensures j == |EncodeAll(text.chars[..if text.at == |text.chars| then text.at else text.at + 1])|
      ensures cursor <= j <= |buf|
    {
      hide EncodeAll, Encode;
      AtTheEnds();
      if cursor >= |buf| {
        assert text.chars[..text.at] == text.chars;
        return |buf|;
      }
      SplitAt(text.at);
      EncodeShape(text.chars[text.at]);
      ghost var bytes := Encode(text.chars[text.at]);
      assert buf[cursor..cursor + |bytes|] == bytes;
      assert buf[cursor] == bytes[0];
      var n := Advance(buf[cursor]);
      j := if cursor + n < |buf| then cursor + n else |buf|;
    }

    method PrevBoundary() returns (j: nat)
      requires Valid()
      ensures j == |EncodeAll(text.chars[..if text.at == 0 then 0 else text.at - 1])|
      ensures j <= cursor <= |buf|
    {
      hide EncodeAll, Encode;
      AtTheEnds();
      if cursor == 0 { return 0; }
      SplitAt(text.at - 1);
      ghost var start := |EncodeAll(text.chars[..text.at - 1])|;
      ghost var bytes := Encode(text.chars[text.at - 1]);
      EncodeShape(text.chars[text.at - 1]);
      assert buf[start..cursor] == bytes;
      assert forall i :: start <= i < cursor ==> buf[i] == bytes[i - start];
      j := cursor - 1;
      while j > 0 && IsTail(buf[j])
        invariant start <= j < cursor
      {
        j := j - 1;
      }
    }

    /** Every key acts on the bytes as it acts on the text. */
    method Handle(k: Key)
      requires Valid()
      modifies this
      ensures Valid() && text == Typed(old(text), k)
    {
      hide EncodeAll, Encode;
      AtTheEnds();
      match k
      case Char(cp) =>
        if IsScalar(cp) { InsertChar(cp as char); }
      case Left =>
        cursor := PrevBoundary();
        text := Typed(text, Left);
      case Right =>
        cursor := NextBoundary();
        text := Typed(text, Right);
      case Home =>
        cursor := 0;
        text := Typed(text, Home);
        EncodeNothing(text.chars);
      case EndKey =>
        cursor := |buf|;
        text := Typed(text, EndKey);
        assert text.chars[..|text.chars|] == text.chars;
      case Backspace =>
        if cursor == 0 { return; }
        var start := PrevBoundary();
        RemoveBefore(start);
      case DeleteKey =>
        if cursor >= |buf| { return; }
        var end := NextBoundary();
        RemoveAfter(end);
      case _ =>
    }

    method InsertChar(c: char)
      requires Valid()
      modifies this
      ensures Valid() && text == Text(old(text).chars[..old(text).at] + [c] + old(text).chars[old(text).at..],
        old(text).at + 1)
    {
      hide EncodeAll, Encode;
      CutAt(text.at);
      var bytes := Encode(c);
      buf := buf[..cursor] + bytes + buf[cursor..];
      cursor := cursor + |bytes|;
      ghost var s, at := text.chars, text.at;
      text := Text(s[..at] + [c] + s[at..], at + 1);
      assert text.chars[..at + 1] == s[..at] + [c];
      EncodeJoin(s[..at], [c]);
      EncodeOne(c);
      EncodeJoin(s[..at] + [c], s[at..]);
    }

    method RemoveBefore(start: nat)
      requires Valid() && text.at > 0 && start == |EncodeAll(text.chars[..text.at - 1])| && start <= cursor <= |buf|
      modifies this
      ensures Valid() && text == Typed(old(text), Backspace)
    {
      hide EncodeAll, Encode;
      CutAt(text.at);
      CutAt(text.at - 1);
      buf := buf[..start] + buf[cursor..];
      cursor := start;
      ghost var s, at := text.chars, text.at;
      text := Text(s[..at - 1] + s[at..], at - 1);
      assert text.chars[..at - 1] == s[..at - 1];
      EncodeJoin(s[..at - 1], s[at..]);
    }

    method RemoveAfter(end: nat)
      requires Valid() && text.at < |text.chars| && end == |EncodeAll(text.chars[..text.at + 1])|
        && cursor <= end <= |buf|
      modifies this
      ensures Valid() && text == Typed(old(text), DeleteKey)
    {
      hide EncodeAll, Encode;
      CutAt(text.at);
      CutAt(text.at + 1);
      buf := buf[..cursor] + buf[end..];
      ghost var s, at := text.chars, text.at;
      text := Text(s[..at] + s[at + 1..], at);
      assert text.chars[..at] == s[..at];
      EncodeJoin(s[..at], s[at + 1..]);
    }

    static lemma EncodeNothing(s: string)
      ensures EncodeAll(s[..0]) == []
    {
    }

    /** Whatever is typed, the buffer stays well-formed and says what is shown. */
    lemma BytesSpellTheText()
      requires Valid()
      ensures WellFormed(buf) && Decode(buf) == text.chars
      ensures cursor <= |buf| && WellFormed(buf[..cursor]) && WellFormed(buf[cursor..])
    {
      DecodeEncode(text.chars);
      CutAt(text.at);
      DecodeEncode(text.chars[..text.at]);
      DecodeEncode(text.chars[text.at..]);
    }
  }

  // ----- the picker --------------------------------------------------------------------

  datatype Picker = Picker(len: nat, index: nat)

  function Rotated(p: Picker, k: Key): (q: Picker)
    ensures p.index < p.len ==> q.index < q.len
    ensures q.len == p.len
  {
    if p.len == 0 then p
    else match k
      case Up => p.(index := if p.index == 0 then p.len - 1 else p.index - 1)
      case Left => p.(index := if p.index == 0 then p.len - 1 else p.index - 1)
      case Down => p.(index := (p.index + 1) % p.len)
      case Right => p.(index := (p.index + 1) % p.len)
      case _ => p
  }

  /** Opposite keys undo each other, all the way round. */
  lemma RotationIsUndone(p: Picker)
    requires p.index < p.len
    ensures Rotated(Rotated(p, Down), Up) == p && Rotated(Rotated(p, Up), Down) == p
    ensures Rotated(Rotated(p, Right), Left) == p && Rotated(Rotated(p, Left), Right) == p
  {
    WrapAround(p.len, p.index);
    WrapAround(p.len, if p.index == 0 then p.len - 1 else p.index - 1);
  }

  /** Down and right go to the next entry and round to the first, up and left the
      other way; no other key moves. */
  lemma PickerTurns(n: nat, i: nat, k: Key)
    requires i < n
    ensures Rotated(Picker(n, i), k) == Picker(n,
      if k in {Down, Right} then (if i == n - 1 then 0 else i + 1)
      else if k in {Up, Left} then (if i == 0 then n - 1 else i - 1) else i)
  {
    WrapAround(n, i);
  }

  lemma WrapAround(n: int, i: int)
    requires 0 <= i < n
    ensures (i + 1) % n == if i + 1 == n then 0 else i + 1
  {
  }
}
