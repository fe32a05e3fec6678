/** The text of a reply as the bot reads it: space at the ends is dropped, and a
    list of tags is cut at its commas. */
module Replies {
  import opened Pieces
  import Edits

  predicate IsSpace(c: char) {
    || ('\t' <= c <= '\r') || c == ' ' || c == '\U{85}' || c == '\U{A0}' || c == '\U{1680}'
    || ('\U{2000}' <= c <= '\U{200A}') || c == '\U{2028}' || c == '\U{2029}' || c == '\U{202F}' || c == '\U{205F}'
    || c == '\U{3000}'
  }

  function TrimSpace(s: string): (r: string)
    ensures r != [] ==> !IsSpace(r[0]) && !IsSpace(r[|r| - 1])
    ensures r == [] <==> forall i :: 0 <= i < |s| ==> IsSpace(s[i])
  {
    if s == [] then s
    else if IsSpace(s[0]) then
      assert forall i :: 1 <= i < |s| ==> s[i] == s[1..][i - 1];
      TrimSpace(s[1..])
    else if IsSpace(s[|s| - 1]) then TrimSpace(s[..|s| - 1])
    else s
  }

  /** Comma-separated, trimmed, empty pieces dropped. */
  function TagPieces(s: string): seq<string>
    decreases |s|
  {
    var n := Edits.CommaAt(s);
    var tag := TrimSpace(s[..n]);
    (if tag == "" then [] else [tag]) + (if n == |s| then [] else TagPieces(s[n + 1..]))
  }

  /** The value is the text without its outer space, and the values are its pieces. */
  ghost predicate ListsAfterTrim(text: string, values: seq<string>) {
    exists value :: Strips(IsSpace, text, value) && Lists(IsSpace, value, values)
  }

  lemma SpaceIs(c: char)
    ensures IsSpace(c) <==>
      c as int in {9, 10, 11, 12, 13, 32, 0x85, 0xA0, 0x1680, 0x2000, 0x2001, 0x2002, 0x2003, 0x2004, 0x2005, 0x2006,
                   0x2007, 0x2008, 0x2009, 0x200A, 0x2028, 0x2029, 0x202F, 0x205F, 0x3000}
  {
  }

  lemma {:induction false} TrimParts(s: string) returns (l: string, r: string)
    ensures s == l + TrimSpace(s) + r && AllBlank(IsSpace, l) && AllBlank(IsSpace, r)
    decreases |s|
  {
    hide IsSpace, TrimSpace;
    TrimUnfold(s);
    l, r := "", "";
    if s != "" && IsSpace(s[0]) {
      var l', r' := TrimParts(s[1..]);
      assert s == [s[0]] + s[1..];
      l, r := [s[0]] + l', r';
    } else if s != "" && IsSpace(s[|s| - 1]) {
      var l', r' := TrimParts(s[..|s| - 1]);
      assert s == s[..|s| - 1] + [s[|s| - 1]];
      l, r := l', r' + [s[|s| - 1]];
    }
  }

  lemma {:induction false} TrimUnfold(s: string)
    ensures TrimSpace(s) ==
      if s == "" then s
      else if IsSpace(s[0]) then TrimSpace(s[1..])
      else if IsSpace(s[|s| - 1]) then TrimSpace(s[..|s| - 1]) else s
  {
    hide IsSpace;
  }

  lemma TrimSpaceStrips(s: string)
    ensures Strips(IsSpace, s, TrimSpace(s)) && (TrimSpace(s) == "" <==> AllBlank(IsSpace, s))
  {
    hide IsSpace;
    var l, r := TrimParts(s);
  }

  /** Any text is a list of pieces, of which the tags are the ones that say something. */
  lemma {:induction false} PiecesAreListed(s: string)
    ensures Lists(IsSpace, s, TagPieces(s))
    decreases |s|
  {
    hide TrimSpace, Strips, AllBlank, Lists, Edits.CommaAt;
    var n := Edits.CommaAt(s);
    TrimSpaceStrips(s[..n]);
    if n == |s| {
      assert s[..n] == s;
      LastListed(IsSpace, s, TrimSpace(s));
      assert TagPieces(s) == if TrimSpace(s) == "" then [] else [TrimSpace(s)];
    } else {
      PiecesAreListed(s[n + 1..]);
      FirstListed(IsSpace, s[..n], TrimSpace(s[..n]), s[n + 1..], TagPieces(s[n + 1..]));
      assert s == s[..n] + "," + s[n + 1..];
    }
  }

  /** Clean tags, separated by a comma and a blank, read back as those tags. */
  lemma CleanListReadsBack(tags: seq<string>)
    requires AllClean(IsSpace, tags)
    ensures TagPieces(TrimSpace(JoinedBy(tags, ", "))) == tags
  {
    hide IsSpace;
    var text := JoinedBy(tags, ", ");
    JoinedEnds(tags);
    TrimmedStays(text);
    CleanPieces(tags, "");
    assert "" + text == text;
  }

  lemma {:induction false} JoinedEnds(tags: seq<string>)
    requires AllClean(IsSpace, tags)
    ensures var s := JoinedBy(tags, ", ");
      if tags == [] then s == "" else s != "" && !IsSpace(s[0]) && !IsSpace(s[|s| - 1])
  {
    hide IsSpace;
    if |tags| > 1 {
      JoinedEnds(tags[1..]);
      assert Clean(IsSpace, tags[0]);
    }
  }

  lemma TrimmedStays(s: string)
    requires s != "" ==> !IsSpace(s[0]) && !IsSpace(s[|s| - 1])
    ensures TrimSpace(s) == s
  {
  }

  lemma {:induction false} CleanPieces(tags: seq<string>, lead: string)
    requires AllClean(IsSpace, tags) && (lead == "" || (lead == " " && tags != []))
    ensures TagPieces(lead + JoinedBy(tags, ", ")) == tags
    decreases |tags|
  {
    hide Clean, TagPieces;
    if tags == [] {
      assert lead + "" == "";
      NoPieces();
    } else if |tags| == 1 {
      OnePiece(lead, tags[0]);
      assert tags == [tags[0]];
    } else {
      var rest := JoinedBy(tags[1..], ", ");
      CleanPieces(tags[1..], " ");
      FirstPiece(lead, tags[0], " " + rest);
      assert lead + JoinedBy(tags, ", ") == lead + tags[0] + "," + (" " + rest);
      assert tags == [tags[0]] + tags[1..];
    }
  }

  lemma NoPieces()
    ensures TagPieces("") == []
  {
  }

  lemma OnePiece(lead: string, tag: string)
    requires (lead == "" || lead == " ") && Clean(IsSpace, tag)
    ensures TagPieces(lead + tag) == [tag]
  {
    hide IsSpace, TrimSpace, Edits.CommaAt;
    var s := lead + tag;
    NoComma(s);
    LeadTrimmed(lead, tag);
  }

  lemma FirstPiece(lead: string, tag: string, rest: string)
    requires (lead == "" || lead == " ") && Clean(IsSpace, tag)
    ensures TagPieces(lead + tag + "," + rest) == [tag] + TagPieces(rest)
  {
    hide IsSpace, TrimSpace, Edits.CommaAt;
    var head := lead + tag;
    var s := head + "," + rest;
    CommaAfter(head, rest);
    LeadTrimmed(lead, tag);
    assert s[..|head|] == head && s[|head| + 1..] == rest;
  }

  lemma NoComma(s: string)
    requires ',' !in s
    ensures Edits.CommaAt(s) == |s| && s[..|s|] == s
  {
  }

  lemma {:induction false} CommaAfter(head: string, rest: string)
    requires ',' !in head
    ensures Edits.CommaAt(head + "," + rest) == |head|
  {
    if head != "" {
      CommaAfter(head[1..], rest);
      assert (head + "," + rest)[1..] == head[1..] + "," + rest;
    }
  }

  lemma LeadTrimmed(lead: string, tag: string)
    requires (lead == "" || lead == " ") && Clean(IsSpace, tag)
    ensures TrimSpace(lead + tag) == tag
  {
    TrimmedStays(tag);
    if lead == " " {
      assert (lead + tag)[1..] == tag;
    } else {
      assert lead + tag == tag;
    }
  }
}
