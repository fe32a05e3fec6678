/** One-field edits: the patch, how it applies, and the text forms of a field. */
module Edits {
  import opened Tasks
  import opened LineEditor
  import opened Pieces
  import Dates

  datatype FieldId = Title | Description | StatusField | PriorityField | DueField | ScheduledField | TagsField

  datatype Edit<T> = Unchanged | Set(value: T)

  datatype Patch = Patch(
    title: Edit<string>,
    description: Edit<string>,
    status: Edit<Status>,
    priority: Edit<Priority>,
    tags: Edit<seq<string>>,
    due: Edit<Option<int>>,
    scheduled: Edit<Option<int>>
  )

  const NO_PATCH: Patch := Patch(Unchanged, Unchanged, Unchanged, Unchanged, Unchanged, Unchanged, Unchanged)

  const NO_CONTENT: Content := Content("", "", Todo, NoPriority, [], [], None, None)

  function Pick<T>(e: Edit<T>, base: T): T {
    if e.Set? then e.value else base
  }

  function ApplyPatch(base: Content, p: Patch): Content {
    Content(
      Pick(p.title, base.title),
      Pick(p.description, base.description),
      Pick(p.status, base.status),
      Pick(p.priority, base.priority),
      base.childIds,
      Pick(p.tags, base.tags),
      Pick(p.due, base.dueAt),
      Pick(p.scheduled, base.scheduledAt))
  }

  /** The two agree on everything but one field. The children are no field. */
  predicate OnlyDiffers(a: Content, b: Content, f: FieldId) {
    match f
    case Title => b == a.(title := b.title)
    case Description => b == a.(description := b.description)
    case StatusField => b == a.(status := b.status)
    case PriorityField => b == a.(priority := b.priority)
    case DueField => b == a.(dueAt := b.dueAt)
    case ScheduledField => b == a.(scheduledAt := b.scheduledAt)
    case TagsField => b == a.(tags := b.tags)
  }

  // ----- text forms ------------------------------------------------------------------

  predicate IsBlank(c: char, tabs: bool) { c == ' ' || (tabs && c == '\t') }

  function TrimLeft(s: string, tabs: bool): (r: string)
    ensures |r| <= |s|
  {
    if s != [] && IsBlank(s[0], tabs) then TrimLeft(s[1..], tabs) else s
  }

  function TrimRight(s: string, tabs: bool): (r: string)
    ensures |r| <= |s|
  {
    if s != [] && IsBlank(s[|s| - 1], tabs) then TrimRight(s[..|s| - 1], tabs) else s
  }

  function Trim(s: string, tabs: bool): string { TrimRight(TrimLeft(s, tabs), tabs) }

  predicate IsTrimmed(s: string) {
    s != [] ==> s[0] != ' ' && s[|s| - 1] != ' '
  }

  function CommaAt(s: string): (n: nat)
    ensures n <= |s| && ',' !in s[..n] && (n < |s| ==> s[n] == ',')
  {
    if s == [] || s[0] == ',' then 0 else 1 + CommaAt(s[1..])
  }

  /** Comma-separated, trimmed, empty segments dropped. */
  function TagsOf(s: string): seq<string>
    decreases |s|
  {
    var n := CommaAt(s);
    var tag := Trim(s[..n], false);
    var rest := if n == |s| then [] else TagsOf(s[n + 1..]);
    if tag == [] then rest else [tag] + rest
  }

  lemma {:induction false} TagsUnfold(s: string, n: nat, tag: string)
    requires n == CommaAt(s) && tag == Trim(s[..n], false)
    ensures TagsOf(s) == (if tag == [] then [] else [tag]) + (if n == |s| then [] else TagsOf(s[n + 1..]))
  {
    hide CommaAt, Trim;
    var rest := if n == |s| then [] else TagsOf(s[n + 1..]);
    assert [] + rest == rest;
  }

  method SplitTags(raw: string) returns (tags: seq<string>)
    ensures tags == TagsOf(raw)
  {
    hide TagsOf, Trim, CommaAt;
    tags := [];
    var s := raw;
    while true
      invariant tags + TagsOf(s) == TagsOf(raw)
      decreases |s|
    {
      var n := CommaAt(s);
      var trimmed := Trim(s[..n], false);
      TagsUnfold(s, n, trimmed);
      ghost var had := tags;
      if |trimmed| > 0 {
        tags := tags + [trimmed];
      }
      assert had + TagsOf(s) == tags + (if n == |s| then [] else TagsOf(s[n + 1..]));
      if n == |s| {
        return;
      }
      s := s[n + 1..];
    }
  }

  function Joined(tags: seq<string>): string { JoinedBy(tags, ",") }

  predicate CleanTag(t: string) { t != [] && ',' !in t && IsTrimmed(t) }

  predicate CleanTags(tags: seq<string>) { forall i :: 0 <= i < |tags| ==> CleanTag(tags[i]) }

  lemma {:induction false} TrimRightTrims(s: string)
    ensures TrimRight(s, false) <= s
    ensures TrimRight(s, false) != [] ==> TrimRight(s, false)[|TrimRight(s, false)| - 1] != ' '
  {
    if s != [] && s[|s| - 1] == ' ' {
      TrimRightTrims(s[..|s| - 1]);
    }
  }

  lemma {:induction false} TrimLeftTrims(s: string)
    ensures var r := TrimLeft(s, false); r == s[|s| - |r|..] && (r != [] ==> r[0] != ' ')
  {
    if s != [] && s[0] == ' ' {
      TrimLeftTrims(s[1..]);
    }
  }

  lemma TrimTrims(s: string)
    ensures IsTrimmed(Trim(s, false))
    ensures forall c :: c in Trim(s, false) ==> c in s
    ensures s != [] && IsTrimmed(s) ==> Trim(s, false) == s
  {
    TrimLeftTrims(s);
    TrimRightTrims(TrimLeft(s, false));
  }

  lemma SegmentIsClean(s: string)
    requires ',' !in s && Trim(s, false) != []
    ensures CleanTag(Trim(s, false))
  {
    TrimTrims(s);
  }

  /** What comes out of an editor is always clean. */
  lemma {:induction false} SplitIsClean(s: string)
    ensures CleanTags(TagsOf(s))
    decreases |s|
  {
    hide CleanTag, TagsOf, Trim, CommaAt;
    var n := CommaAt(s);
    var tag := Trim(s[..n], false);
    TagsUnfold(s, n, tag);
    if tag != [] {
      SegmentIsClean(s[..n]);
    }
    if n < |s| {
      SplitIsClean(s[n + 1..]);
    }
  }

  lemma NoTags()
    ensures TagsOf("") == []
  {
    TrimTrims("");
    TagsUnfold("", 0, "");
  }

  lemma {:induction false} JoinedSplits(tags: seq<string>)
    requires CleanTags(tags)
    ensures TagsOf(Joined(tags)) == tags
  {
    hide TagsOf, Trim, CommaAt, IsTrimmed;
    if tags == [] {
      NoTags();
    } else {
      var t := tags[0];
      var rest := if |tags| == 1 then "" else "," + Joined(tags[1..]);
      assert Joined(tags) == t + rest;
      CommaIs(t, rest);
      assert (t + rest)[..|t|] == t;
      TrimTrims(t);
      TagsUnfold(t + rest, |t|, t);
      if |tags| > 1 {
        assert (t + rest)[|t| + 1..] == Joined(tags[1..]);
        JoinedSplits(tags[1..]);
      }
    }
  }

  lemma {:induction false} CommaIs(t: string, rest: string)
    requires ',' !in t && (rest == [] || rest[0] == ',')
    ensures CommaAt(t + rest) == |t|
  {
    if t != [] {
      CommaIs(t[1..], rest);
      assert (t + rest)[1..] == t[1..] + rest;
    } else {
      assert t + rest == rest;
    }
  }

  /** Opening the tags editor and committing it untouched keeps the tags exactly
      when each of them is free of commas and outer spaces, and not empty. */
  lemma TagsRoundTripIff(tags: seq<string>)
    ensures TagsOf(Joined(tags)) == tags <==> CleanTags(tags)
  {
    SplitIsClean(Joined(tags));
    if CleanTags(tags) {
      JoinedSplits(tags);
    }
  }

  // ----- what trimming and splitting leave ------------------------------------------------

  function Blank(tabs: bool): char -> bool { (c: char) => c == ' ' || (tabs && c == '\t') }

  lemma {:induction false} TrimLeftParts(s: string, tabs: bool) returns (l: string)
    ensures s == l + TrimLeft(s, tabs) && AllBlank(Blank(tabs), l)
    ensures TrimLeft(s, tabs) != "" ==> !Blank(tabs)(TrimLeft(s, tabs)[0])
  {
    hide TrimLeft, AllBlank;
    TrimLeftUnfold(s, tabs);
    l := "";
    if s != "" && IsBlank(s[0], tabs) {
      var more := TrimLeftParts(s[1..], tabs);
      assert s == [s[0]] + s[1..];
      l := [s[0]] + more;
      BlankJoins(tabs, [s[0]], more);
    } else {
      BlankJoins(tabs, "", "");
    }
  }

  lemma {:induction false} TrimLeftUnfold(s: string, tabs: bool)
    ensures TrimLeft(s, tabs) == if s != "" && IsBlank(s[0], tabs) then TrimLeft(s[1..], tabs) else s
  {
  }

  lemma {:induction false} TrimRightUnfold(s: string, tabs: bool)
    ensures TrimRight(s, tabs) ==
      if s != "" && IsBlank(s[|s| - 1], tabs) then TrimRight(s[..|s| - 1], tabs) else s
  {
  }

  lemma BlankJoins(tabs: bool, a: string, b: string)
    ensures AllBlank(Blank(tabs), "")
    ensures (forall i :: 0 <= i < |a| ==> IsBlank(a[i], tabs)) && AllBlank(Blank(tabs), b) ==>
      AllBlank(Blank(tabs), a + b) && AllBlank(Blank(tabs), b + a)
  {
  }

  lemma {:induction false} TrimRightParts(s: string, tabs: bool) returns (r: string)
    ensures s == TrimRight(s, tabs) + r && AllBlank(Blank(tabs), r)
    ensures var t := TrimRight(s, tabs); t != "" ==> !Blank(tabs)(t[|t| - 1])
  {
    hide TrimRight, AllBlank;
    TrimRightUnfold(s, tabs);
    r := "";
    if s != "" && IsBlank(s[|s| - 1], tabs) {
      var n := |s| - 1;
      var more := TrimRightParts(s[..n], tabs);
      assert s == s[..n] + [s[n]];
      r := more + [s[n]];
      BlankJoins(tabs, [s[n]], more);
    } else {
      BlankJoins(tabs, "", "");
    }
  }

  /** Trimming takes the spaces at the ends, tabs too where they count, and no more. */
  lemma TrimStrips(s: string, tabs: bool)
    ensures Strips(Blank(tabs), s, Trim(s, tabs)) && (Trim(s, tabs) == "" <==> AllBlank(Blank(tabs), s))
  {
    hide TrimLeft, TrimRight, Blank;
    var l := TrimLeftParts(s, tabs);
    var r := TrimRightParts(TrimLeft(s, tabs), tabs);
    var t := Trim(s, tabs);
    assert s == l + t + r;
    if t != "" { assert t[0] == TrimLeft(s, tabs)[0] && s[|l|] == t[0]; }
  }

  /** Any line is a list of pieces, of which the tags are the ones that say something. */
  lemma {:induction false} TagsAreListed(s: string)
    ensures Lists(Blank(false), s, TagsOf(s))
    decreases |s|
  {
    hide Trim, Strips, AllBlank, Lists, CommaAt, TagsOf, Blank;
    var n := CommaAt(s);
    var tag := Trim(s[..n], false);
    TagsUnfold(s, n, tag);
    TrimStrips(s[..n], false);
    if n == |s| {
      assert s[..n] == s && (if tag == "" then [] else [tag]) + [] == if tag == "" then [] else [tag];
      LastListed(Blank(false), s, tag);
    } else {
      TagsAreListed(s[n + 1..]);
      FirstListed(Blank(false), s[..n], tag, s[n + 1..], TagsOf(s[n + 1..]));
      assert s == s[..n] + "," + s[n + 1..];
    }
  }

  /** Clean tags, written as people do, read as those tags. */
  lemma SpacedTagsRead(tags: seq<string>)
    requires CleanTags(tags)
    ensures TagsOf(JoinedBy(tags, ", ")) == tags
  {
    SpacedTagsReadFrom(tags, "");
    assert "" + JoinedBy(tags, ", ") == JoinedBy(tags, ", ");
  }

  lemma {:induction false} SpacedTagsReadFrom(tags: seq<string>, lead: string)
    requires CleanTags(tags) && (lead == "" || (lead == " " && tags != []))
    ensures TagsOf(lead + JoinedBy(tags, ", ")) == tags
    decreases |tags|
  {
    hide CleanTag, TagsOf;
    if tags == [] {
      NoTags();
      assert lead + "" == "";
    } else {
      var rest := if |tags| == 1 then "" else "," + (" " + JoinedBy(tags[1..], ", "));
      assert lead + JoinedBy(tags, ", ") == (lead + tags[0]) + rest;
      LeadingTag(lead, tags[0], rest);
      if |tags| == 1 {
        assert tags == [tags[0]];
      } else {
        SpacedTagsReadFrom(tags[1..], " ");
        assert rest[1..] == " " + JoinedBy(tags[1..], ", ") && tags == [tags[0]] + tags[1..];
      }
    }
  }

  lemma LeadingTag(lead: string, tag: string, rest: string)
    requires (lead == "" || lead == " ") && CleanTag(tag) && (rest == "" || rest[0] == ',')
    ensures TagsOf((lead + tag) + rest) == [tag] + (if rest == "" then [] else TagsOf(rest[1..]))
  {
    hide CommaAt, Trim, TagsOf;
    var head := lead + tag;
    CommaIs(head, rest);
    assert (head + rest)[..|head|] == head;
    LeadTrimmed(lead, tag);
    TagsUnfold(head + rest, |head|, tag);
    if rest != "" { assert (head + rest)[|head| + 1..] == rest[1..]; }
  }

  lemma LeadTrimmed(lead: string, tag: string)
    requires (lead == "" || lead == " ") && CleanTag(tag)
    ensures Trim(lead + tag, false) == tag
  {
    TrimTrims(tag);
    if lead == " " {
      assert (lead + tag)[1..] == tag;
    } else {
      assert lead + tag == tag;
    }
  }

  // ----- editors ---------------------------------------------------------------------

  /** What is open on one field. `External` holds the text $EDITOR gave back. */
  datatype Editor = Line(text: Text) | PickOne(picker: Picker) | External(retained: Option<string>)
  {
    predicate Valid() { Line? ==> text.Valid() }
  }

  /** Declaration order; a text the client does not know reads as the first. */
  function StatusIndex(s: Status): (i: nat)
    ensures i < 4
  {
    match s case InProgress => 1 case Done => 2 case Cancelled => 3 case _ => 0
  }

  function StatusAt(i: nat): Status {
    if i == 1 then InProgress else if i == 2 then Done else if i == 3 then Cancelled else Todo
  }

  function PriorityIndex(p: Priority): (i: nat)
    ensures i < 4
  {
    match p case Low => 1 case Medium => 2 case High => 3 case _ => 0
  }

  function PriorityAt(i: nat): Priority {
    if i == 1 then Low else if i == 2 then Medium else if i == 3 then High else NoPriority
  }

  function DateText(at: Option<int>, offset: int): string {
    if at.None? then "" else Dates.FormatDate(at.value, offset)
  }

  function OpenOn(c: Content, f: FieldId, offset: int): (e: Editor)
    ensures e.Valid()
  {
    match f
    case StatusField => PickOne(Picker(4, StatusIndex(c.status)))
    case PriorityField => PickOne(Picker(4, PriorityIndex(c.priority)))
    case Title => Line(Opened(c.title))
    case TagsField => Line(Opened(Joined(c.tags)))
    case DueField => Line(Opened(DateText(c.dueAt, offset)))
    case ScheduledField => Line(Opened(DateText(c.scheduledAt, offset)))
    case Description => External(None)
  }

  /** An emptied date clears it, as the word "none" does. */
  function DateOf(typed: string, kind: Dates.Kind, now: int, offset: int): (d: Option<Edit<Option<int>>>)
    ensures d.Some? ==> d.value.Set?
  {
    if Trim(typed, true) == [] then Some(Set(None))
    else match Dates.ParseDate(typed, now, kind, offset)
      case BadDate => None
      case Cleared => Some(Set(None))
      case At(utc) => Some(Set(Some(utc)))
  }

  /** Blanks and "none" clear a date, and otherwise it is what the text parses to. */
  lemma DateOfIs(typed: string, kind: Dates.Kind, now: int, offset: int)
    ensures DateOf(typed, kind, now, offset) ==
      if AllBlank(Blank(true), typed) || typed == "none" then Some(Set(None))
      else match Dates.ParseDate(typed, now, kind, offset)
        case BadDate => None
        case Cleared => Some(Set(None))
        case At(utc) => Some(Set(Some(utc)))
  {
    hide Trim, Dates.ParseRelative, Dates.ParseAbsolute, AllBlank, Blank;
    TrimStrips(typed, true);
  }

  /** The change an editor stands for; None when it holds no date. */
  function PatchOf(f: FieldId, e: Editor, now: int, offset: int): Option<Patch> {
    match e
    case PickOne(p) =>
      if f.StatusField? then Some(NO_PATCH.(status := Set(StatusAt(p.index))))
      else if f.PriorityField? then Some(NO_PATCH.(priority := Set(PriorityAt(p.index))))
      else Some(NO_PATCH)
    case Line(t) =>
      if f.Title? then Some(NO_PATCH.(title := Set(t.chars)))
      else if f.DueField? then
        var d := DateOf(t.chars, Dates.Due, now, offset);
        if d.None? then None else Some(NO_PATCH.(due := d.value))
      else if f.ScheduledField? then
        var d := DateOf(t.chars, Dates.Scheduled, now, offset);
        if d.None? then None else Some(NO_PATCH.(scheduled := d.value))
      else if f.TagsField? then Some(NO_PATCH.(tags := Set(TagsOf(t.chars))))
      else Some(NO_PATCH)
    case External(text) =>
      Some(if text.None? then NO_PATCH else NO_PATCH.(description := Set(text.value)))
  }

  /** The field of `d` is what the editor shows. */
  predicate Says(d: Content, f: FieldId, e: Editor, now: int, offset: int) {
    match e
    case External(text) => text.Some? ==> d.description == text.value
    case PickOne(p) =>
      && (f.StatusField? && p.index < 4 ==> StatusIndex(d.status) == p.index && d.status.Valid())
      && (f.PriorityField? && p.index < 4 ==> PriorityIndex(d.priority) == p.index && d.priority.Valid())
    case Line(t) =>
      && (f.Title? ==> d.title == t.chars)
      && (f.TagsField? ==> d.tags == TagsOf(t.chars))
      && (f.DueField? ==> DateOf(t.chars, Dates.Due, now, offset) == Some(Set(d.dueAt)))
      && (f.ScheduledField? ==> DateOf(t.chars, Dates.Scheduled, now, offset) == Some(Set(d.scheduledAt)))
  }

  /** A patch sets its own field to what the editor shows and nothing else, the
      children least of all. There is none exactly when a date does not parse. */
  lemma PatchSetsOneField(c: Content, f: FieldId, e: Editor, now: int, offset: int)
    ensures PatchOf(f, e, now, offset).None? <==>
      e.Line? && ((f.DueField? && DateOf(e.text.chars, Dates.Due, now, offset).None?)
                  || (f.ScheduledField? && DateOf(e.text.chars, Dates.Scheduled, now, offset).None?))
    ensures PatchOf(f, e, now, offset).Some? ==>
      var d := ApplyPatch(c, PatchOf(f, e, now, offset).value);
      && d.childIds == c.childIds && OnlyDiffers(c, d, if e.External? then Description else f)
      && Says(d, f, e, now, offset)
  {
    hide DateOf, TagsOf;
  }

  /** What the date code covers. */
  predicate InRange(at: Option<int>, offset: int) {
    at.Some? ==> 0 <= at.value <= Dates.MaxSecs() && 0 <= at.value + offset * 60 <= Dates.MaxSecs()
  }

  /** The stored local time of day is the one a bare date stands for. */
  predicate WholeDay(at: Option<int>, kind: Dates.Kind, offset: int) {
    at.Some? ==> (at.value + offset * 60) % Dates.DAY == Dates.TimeOfDay(kind)
  }

  lemma {:induction false} TrimKeepsFirst(s: string)
    requires s != [] && !IsBlank(s[0], true)
    ensures TrimRight(s, true) != []
  {
    if IsBlank(s[|s| - 1], true) {
      TrimKeepsFirst(s[..|s| - 1]);
    }
  }

  lemma DateKeptIff(at: Option<int>, kind: Dates.Kind, now: int, offset: int)
    ensures DateOf(DateText(at, offset), kind, now, offset) == Some(Set(at))
      <==> InRange(at, offset) && WholeDay(at, kind, offset)
  {
    hide Dates.FormatDate, Dates.ParseDate, Dates.MaxSecs, TrimRight;
    if at.Some? {
      var text := DateText(at, offset);
      Dates.PrintedParsesBack(at.value, now, kind, offset);
      TrimKeepsFirst(text);
      assert Trim(text, true) != [];
    }
  }

  // ----- $EDITOR and the final newline --------------------------------------------------

  predicate EndsLine(s: string) { s != [] && s[|s| - 1] == '\n' }

  function StripFinalNewline(s: string): string { if EndsLine(s) then s[..|s| - 1] else s }

  /** What a run of $EDITOR gives back: nothing if it failed, or if the text is the
      one it was given; one newline at the end does not count as text. */
  function EditedText(succeeded: bool, initial: string, file: string): Option<string> {
    var text := StripFinalNewline(file);
    if !succeeded || text == initial then None else Some(text)
  }

  /** A run that fails gives back nothing, nor does one that leaves the text as it
      was, with or without a newline at the end; any other text comes back. */
  lemma EditedTextIs(succeeded: bool, initial: string, text: string)
    requires !EndsLine(text)
    ensures EditedText(succeeded, initial, text) == if succeeded && text != initial then Some(text) else None
    ensures EditedText(succeeded, initial, text + "\n") == if succeeded && text != initial then Some(text) else None
  {
    assert (text + "\n")[..|text|] == text;
  }

  /** The file of an editor in which nothing was typed; some end the last line on
      their own. */
  function Untouched(initial: string, endsLines: bool): string {
    if endsLines && !EndsLine(initial) then initial + "\n" else initial
  }

  /** A visit without a change is no commit, exactly when the text does not itself end
      in a newline; if it does, the visit commits it without. */
  lemma UntouchedVisitIff(initial: string, endsLines: bool)
    ensures EditedText(true, initial, Untouched(initial, endsLines))
         == if EndsLine(initial) then Some(initial[..|initial| - 1]) else None
  {
    if endsLines && !EndsLine(initial) {
      assert (initial + "\n")[..|initial|] == initial;
    }
  }

  /** What an untouched editor hands to the commit; `External(None)` is a cancel. */
  function Revisited(c: Content, f: FieldId, offset: int, endsLines: bool): Editor {
    if f.Description? then External(EditedText(true, c.description, Untouched(c.description, endsLines)))
    else OpenOn(c, f, offset)
  }

  /** Opening an editor and committing it at once keeps the task as it was
      exactly when the field's text form says all there is: a title always; a
      description that does not end in a newline; a status or priority the client
      knows; clean tags; a due date at the last second of its local day, a scheduled
      date at the first, both from the epoch to 9999. */
  lemma UntouchedKeepsIff(c: Content, f: FieldId, now: int, offset: int, endsLines: bool)
    ensures
      var p := PatchOf(f, Revisited(c, f, offset, endsLines), now, offset);
      (p.Some? && ApplyPatch(c, p.value) == c) <==>
        match f
        case Title => true
        case Description => !EndsLine(c.description)
        case StatusField => c.status.Valid()
        case PriorityField => c.priority.Valid()
        case TagsField => CleanTags(c.tags)
        case DueField => InRange(c.dueAt, offset) && WholeDay(c.dueAt, Dates.Due, offset)
        case ScheduledField => InRange(c.scheduledAt, offset) && WholeDay(c.scheduledAt, Dates.Scheduled, offset)
  {
    hide CleanTags, TagsOf, Joined, DateOf, DateText, WholeDay, InRange, EditedText, Untouched;
    match f
    case Description =>
      UntouchedVisitIff(c.description, endsLines);
      if EndsLine(c.description) {
        assert |c.description[..|c.description| - 1]| < |c.description|;
      }
    case TagsField => TagsRoundTripIff(c.tags);
    case DueField => DateKeptIff(c.dueAt, Dates.Due, now, offset);
    case ScheduledField => DateKeptIff(c.scheduledAt, Dates.Scheduled, now, offset);
    case _ =>
  }
}
