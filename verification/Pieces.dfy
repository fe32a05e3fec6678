/** A line of text as people type a list: pieces between commas, with blanks around
    them that do not count. What a blank is depends on the program. */
module Pieces {

  predicate AllBlank(blank: char -> bool, s: string) { forall i :: 0 <= i < |s| ==> blank(s[i]) }

  /** The text is blanks, the value and blanks, and the value has none at its ends. */
  ghost predicate Strips(blank: char -> bool, text: string, value: string) {
    && (exists l, r {:trigger l + value + r} :: text == l + value + r && AllBlank(blank, l) && AllBlank(blank, r))
    && (value != "" ==> !blank(value[0]) && !blank(value[|value| - 1]))
  }

  predicate CommaFree(parts: seq<string>) { forall i :: 0 <= i < |parts| ==> ',' !in parts[i] }

  function JoinedBy(parts: seq<string>, sep: string): string {
    if parts == [] then "" else if |parts| == 1 then parts[0] else parts[0] + sep + JoinedBy(parts[1..], sep)
  }

  /** The values are the pieces that are more than blanks, stripped, in order. */
  ghost predicate Keeps(blank: char -> bool, parts: seq<string>, values: seq<string>) {
    if parts == [] then values == []
    else if AllBlank(blank, parts[0]) then Keeps(blank, parts[1..], values)
    else values != [] && values[0] != "" && Strips(blank, parts[0], values[0]) && Keeps(blank, parts[1..], values[1..])
  }

  ghost predicate Lists(blank: char -> bool, text: string, values: seq<string>) {
    exists parts :: parts != [] && CommaFree(parts) && JoinedBy(parts, ",") == text && Keeps(blank, parts, values)
  }

  /** Nothing to strip, and so nothing stripped. */
  predicate Clean(blank: char -> bool, t: string) {
    t != "" && ',' !in t && !blank(t[0]) && !blank(t[|t| - 1])
  }

  predicate AllClean(blank: char -> bool, tags: seq<string>) { forall i :: 0 <= i < |tags| ==> Clean(blank, tags[i]) }

  lemma LastListed(blank: char -> bool, p: string, tag: string)
    requires ',' !in p && Strips(blank, p, tag) && (tag == "" <==> AllBlank(blank, p))
    ensures Lists(blank, p, if tag == "" then [] else [tag])
  {
    hide Strips, AllBlank;
    var tags := if tag == "" then [] else [tag];
    assert [p][1..] == [] && [tag][1..] == [] && Keeps(blank, [], []);
    assert Keeps(blank, [p], tags);
    assert CommaFree([p]) && JoinedBy([p], ",") == p;
  }

  lemma FirstListed(blank: char -> bool, p: string, tag: string, rest: string, tags: seq<string>)
    requires ',' !in p && Strips(blank, p, tag) && (tag == "" <==> AllBlank(blank, p)) && Lists(blank, rest, tags)
    ensures Lists(blank, p + "," + rest, (if tag == "" then [] else [tag]) + tags)
  {
    hide Strips, AllBlank;
    var more :| more != [] && CommaFree(more) && JoinedBy(more, ",") == rest && Keeps(blank, more, tags);
    var parts := [p] + more;
    assert parts[1..] == more;
    if tag == "" { assert [] + tags == tags; } else { assert ([tag] + tags)[1..] == tags; }
    assert CommaFree(parts) && JoinedBy(parts, ",") == p + "," + rest;
  }
}
