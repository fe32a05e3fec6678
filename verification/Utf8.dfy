/** UTF-8 as sections 3 and 4 of RFC 3629 define it: the encoder by the bit
    table, the decoder by the grammar of well-formed byte sequences. */
module Utf8 {

  /** The byte values of one scalar value. */
  function Encode(c: char): (b: seq<int>)
    ensures 1 <= |b| <= 4
  {
    var n := c as int;
    if n < 0x80 then [n]
    else if n < 0x800 then [0xC0 + n / 64, 0x80 + n % 64]
    else if n < 0x1_0000 then [0xE0 + n / 64 / 64, 0x80 + n / 64 % 64, 0x80 + n % 64]
    else [0xF0 + n / 64 / 64 / 64, 0x80 + n / 64 / 64 % 64, 0x80 + n / 64 % 64, 0x80 + n % 64]
  }

  /** The examples of section 7 of RFC 3629. */
  lemma KnownBytes()
    ensures Encode('\U{41}') == [0x41] && Encode('\U{2E}') == [0x2E] && Encode('\U{391}') == [0xCE, 0x91]
    ensures Encode('\U{2262}') == [0xE2, 0x89, 0xA2] && Encode('\U{233B4}') == [0xF0, 0xA3, 0x8E, 0xB4]
  {
  }

  function EncodeAll(s: string): seq<int> {
    if s == [] then [] else EncodeAll(s[..|s| - 1]) + Encode(s[|s| - 1])
  }

  predicate IsTail(b: int) { 0x80 <= b < 0xC0 }

  /** The length a lead byte announces; 0 for a byte that leads nothing. */
  function LeadLength(b: int): (n: nat)
    ensures n <= 4
  {
    if 0 <= b < 0x80 then 1
    else if 0xC0 <= b < 0xE0 then 2
    else if 0xE0 <= b < 0xF0 then 3
    else if 0xF0 <= b < 0xF8 then 4
    else 0
  }

  lemma EncodeShape(c: char)
    ensures LeadLength(Encode(c)[0]) == |Encode(c)| && !IsTail(Encode(c)[0])
    ensures forall i :: 1 <= i < |Encode(c)| ==> IsTail(Encode(c)[i])
    ensures forall i :: 0 <= i < |Encode(c)| ==> 0 <= Encode(c)[i] < 256
  {
  }

  lemma {:induction false} EncodeSnoc(s: string)
    requires s != []
    ensures EncodeAll(s) == EncodeAll(s[..|s| - 1]) + Encode(s[|s| - 1])
  {
  }

  lemma Regroup(a: seq<int>, b: seq<int>, c: seq<int>)
    ensures (a + b) + c == a + (b + c)
  {
  }

  lemma {:induction false} EncodeJoin(s: string, t: string)
    ensures EncodeAll(s + t) == EncodeAll(s) + EncodeAll(t)
  {
    if t == [] {
      assert s + t == s;
    } else {
      hide Encode, EncodeAll;
      var n := |t| - 1;
      EncodeSnoc(t);
      EncodeSnoc(s + t);
      assert (s + t)[..|s + t| - 1] == s + t[..n];
      EncodeJoin(s, t[..n]);
      Regroup(EncodeAll(s), EncodeAll(t[..n]), Encode(t[n]));
    }
  }

  lemma EncodeOne(c: char)
    ensures EncodeAll([c]) == Encode(c)
  {
    assert [c][..0] == [];
  }

  // ----- the decoder ------------------------------------------------------------

  datatype Decoded = Bad | Good(c: char, length: nat)

  /** One well-formed sequence at the front, by the grammar of section 4. */
  function DecodeOne(b: seq<int>): (d: Decoded)
    ensures d.Good? ==> 1 <= d.length <= |b|
  {
    if |b| >= 1 && 0 <= b[0] <= 0x7F then Good(b[0] as char, 1)
    else if |b| >= 2 && 0xC2 <= b[0] <= 0xDF && IsTail(b[1]) then
      Good(((b[0] - 0xC0) * 64 + (b[1] - 0x80)) as char, 2)
    else if |b| >= 3 && 0xE0 <= b[0] <= 0xEF && IsTail(b[1]) && IsTail(b[2])
      && (b[0] == 0xE0 ==> b[1] >= 0xA0) && (b[0] == 0xED ==> b[1] <= 0x9F) then
      Good(((b[0] - 0xE0) * 4096 + (b[1] - 0x80) * 64 + (b[2] - 0x80)) as char, 3)
    else if |b| >= 4 && 0xF0 <= b[0] <= 0xF4 && IsTail(b[1]) && IsTail(b[2]) && IsTail(b[3])
      && (b[0] == 0xF0 ==> b[1] >= 0x90) && (b[0] == 0xF4 ==> b[1] <= 0x8F) then
      Good(((b[0] - 0xF0) * 262144 + (b[1] - 0x80) * 4096 + (b[2] - 0x80) * 64 + (b[3] - 0x80)) as char, 4)
    else Bad
  }

  predicate WellFormed(b: seq<int>)
    decreases |b|
  {
    b == [] || (DecodeOne(b).Good? && WellFormed(b[DecodeOne(b).length..]))
  }

  function Decode(b: seq<int>): string
    requires WellFormed(b)
    decreases |b|
  {
    if b == [] then [] else [DecodeOne(b).c] + Decode(b[DecodeOne(b).length..])
  }

  lemma EncodeTwo(c: char, b: seq<int>)
    requires 0x80 <= c as int < 0x800 && Encode(c) <= b
    ensures DecodeOne(b) == Good(c, 2)
  {
    var n := c as int;
    assert b[0] == 0xC0 + n / 64 && b[1] == 0x80 + n % 64;
  }

  lemma EncodeThree(c: char, b: seq<int>)
    requires 0x800 <= c as int < 0x1_0000 && Encode(c) <= b
    ensures DecodeOne(b) == Good(c, 3)
  {
    var n := c as int;
    var m := n / 64;
    var l := m / 64;
    assert n == m * 64 + n % 64 && m == l * 64 + m % 64;
    assert b[0] == 0xE0 + l && b[1] == 0x80 + m % 64 && b[2] == 0x80 + n % 64;
    assert (b[0] - 0xE0) * 4096 + (b[1] - 0x80) * 64 + (b[2] - 0x80) == n;
  }

  lemma EncodeFour(c: char, b: seq<int>)
    requires 0x1_0000 <= c as int && Encode(c) <= b
    ensures DecodeOne(b) == Good(c, 4)
  {
    var n := c as int;
    var m := n / 64;
    var l := m / 64;
    assert n == m * 64 + n % 64 && m == l * 64 + m % 64 && l == l / 64 * 64 + l % 64;
    assert b[0] == 0xF0 + l / 64 && b[1] == 0x80 + l % 64 && b[2] == 0x80 + m % 64 && b[3] == 0x80 + n % 64;
    assert (b[0] - 0xF0) * 262144 + (b[1] - 0x80) * 4096 + (b[2] - 0x80) * 64 + (b[3] - 0x80) == n;
  }

  lemma DecodeEncodeOne(c: char, rest: seq<int>)
    ensures DecodeOne(Encode(c) + rest) == Good(c, |Encode(c)|)
  {
    var b := Encode(c) + rest;
    if 0x1_0000 <= c as int {
      EncodeFour(c, b);
    } else if 0x800 <= c as int {
      EncodeThree(c, b);
    } else if 0x80 <= c as int {
      EncodeTwo(c, b);
    }
  }

  lemma Digit(q: int, r: int)
    requires 0 <= r < 64
    ensures (q * 64 + r) / 64 == q && (q * 64 + r) % 64 == r
  {
  }

  lemma TwoBytes(b: seq<int>)
    requires DecodeOne(b).Good? && DecodeOne(b).length == 2
    ensures Encode(DecodeOne(b).c) == b[..2]
  {
    Digit(b[0] - 0xC0, b[1] - 0x80);
  }

  lemma ThreeBytes(b: seq<int>)
    requires DecodeOne(b).Good? && DecodeOne(b).length == 3
    ensures Encode(DecodeOne(b).c) == b[..3]
  {
    var m := (b[0] - 0xE0) * 64 + (b[1] - 0x80);
    assert DecodeOne(b).c as int == m * 64 + (b[2] - 0x80);
    Digit(m, b[2] - 0x80);
    Digit(b[0] - 0xE0, b[1] - 0x80);
  }

  lemma FourBytes(b: seq<int>)
    requires DecodeOne(b).Good? && DecodeOne(b).length == 4
    ensures Encode(DecodeOne(b).c) == b[..4]
  {
    var l := (b[0] - 0xF0) * 64 + (b[1] - 0x80);
    var m := l * 64 + (b[2] - 0x80);
    assert DecodeOne(b).c as int == m * 64 + (b[3] - 0x80);
    Digit(m, b[3] - 0x80);
    Digit(l, b[2] - 0x80);
    Digit(b[0] - 0xF0, b[1] - 0x80);
  }

  lemma EncodeDecodeOne(b: seq<int>)
    requires DecodeOne(b).Good?
    ensures Encode(DecodeOne(b).c) == b[..DecodeOne(b).length]
  {
    match DecodeOne(b).length
    case 2 => TwoBytes(b);
    case 3 => ThreeBytes(b);
    case 4 => FourBytes(b);
    case _ =>
  }

  lemma {:induction false} EncodeHead(s: string)
    requires s != []
    ensures EncodeAll(s) == Encode(s[0]) + EncodeAll(s[1..])
  {
    assert s == [s[0]] + s[1..];
    EncodeJoin([s[0]], s[1..]);
    EncodeOne(s[0]);
  }

  /** Encoding and decoding are inverse, so the well-formed byte strings are
      exactly the encodings and no two texts share one. */
  lemma {:induction false} DecodeEncode(s: string)
    ensures WellFormed(EncodeAll(s)) && Decode(EncodeAll(s)) == s
  {
    if s != [] {
      EncodeHead(s);
      DecodeEncodeOne(s[0], EncodeAll(s[1..]));
      assert EncodeAll(s)[|Encode(s[0])|..] == EncodeAll(s[1..]);
      DecodeEncode(s[1..]);
      assert s == [s[0]] + s[1..];
    }
  }

  lemma {:induction false} EncodeDecode(b: seq<int>)
    requires WellFormed(b)
    ensures EncodeAll(Decode(b)) == b
    decreases |b|
  {
    hide DecodeOne, Encode;
    if b != [] {
      var d := DecodeOne(b);
      EncodeDecodeOne(b);
      EncodeDecode(b[d.length..]);
      EncodeHead(Decode(b));
      assert Decode(b)[1..] == Decode(b[d.length..]);
      assert b == b[..d.length] + b[d.length..];
    }
  }
}
