/** Text as UTF-8 bytes, and what decoding with replacement characters makes of bytes that are none. */
module Utf8 {

  type Byte = b: int | 0 <= b < 256
  type Bytes = seq<Byte>

  predicate Continuation(b: Byte) {
    0x80 <= b <= 0xBF
  }

  /** How many bytes a character with this first byte has; 0 for a byte that starts none. */
  function Width(first: Byte): (n: nat)
    ensures n <= 4
  {
    if first < 0x80 then 1
    else if 0xC2 <= first <= 0xDF then 2
    else if 0xE0 <= first <= 0xEF then 3
    else if 0xF0 <= first <= 0xF4 then 4
    else 0
  }

  /** Overlong forms, surrogates and code points beyond the last are excluded by the second byte. */
  predicate SecondFits(first: Byte, second: Byte) {
    if first == 0xE0 then 0xA0 <= second <= 0xBF
    else if first == 0xED then 0x80 <= second <= 0x9F
    else if first == 0xF0 then 0x90 <= second <= 0xBF
    else if first == 0xF4 then 0x80 <= second <= 0x8F
    else Continuation(second)
  }

  /** How many bytes at the front start, or complete, one character. */
  function Started(s: Bytes): (n: nat)
    requires s != []
    ensures n <= Width(s[0]) && n <= |s| && (n == 0 <==> Width(s[0]) == 0)
  {
    var w := Width(s[0]);
    if w == 0 then 0
    else if w == 1 || |s| == 1 || !SecondFits(s[0], s[1]) then 1
    else if w == 2 || |s| == 2 || !Continuation(s[2]) then 2
    else if w == 3 || |s| == 3 || !Continuation(s[3]) then 3
    else 4
  }

  /** One whole character stands at the front. */
  predicate WholeFirst(s: Bytes) {
    s != [] && Started(s) > 0 && Started(s) == Width(s[0])
  }

  predicate IsText(s: Bytes) {
    s == [] || (WholeFirst(s) && IsText(s[Started(s)..]))
  }

  type Text = s: Bytes | IsText(s) witness []

  const REPLACEMENT: Bytes := [0xEF, 0xBF, 0xBD]

  lemma WholeFirstOf(c: Bytes, rest: Bytes)
    requires WholeFirst(c) && |c| == Started(c)
    ensures WholeFirst(c + rest) && Started(c + rest) == |c|
  {
    assert (c + rest)[0] == c[0];
    if |c| >= 2 {
      assert (c + rest)[1] == c[1];
    }
    if |c| >= 3 {
      assert (c + rest)[2] == c[2];
    }
    if |c| == 4 {
      assert (c + rest)[3] == c[3];
    }
  }

  lemma OneCharacter(c: Bytes, rest: Bytes)
    requires WholeFirst(c) && |c| == Started(c) && IsText(rest)
    ensures IsText(c + rest)
  {
    WholeFirstOf(c, rest);
    assert (c + rest)[|c|..] == rest;
  }

  lemma FirstCharacter(s: Bytes)
    requires WholeFirst(s)
    ensures WholeFirst(s[..Started(s)]) && Started(s[..Started(s)]) == Started(s)
  {
  }

  lemma CutAndJoin(a: Bytes, b: Bytes, n: nat)
    requires n <= |a|
    ensures a[..n] + (a[n..] + b) == a + b
  {
  }

  lemma {:induction false} BothText(a: Bytes, b: Bytes)
    requires IsText(a) && IsText(b)
    ensures IsText(a + b)
    decreases |a|
  {
    if a == [] {
      assert a + b == b;
    } else {
      var n := Started(a);
      assert WholeFirst(a) && 0 < n <= |a| && IsText(a[n..]);
      var c, rest := a[..n], a[n..];
      FirstCharacter(a);
      hide *;
      BothText(rest, b);
      OneCharacter(c, rest + b);
      CutAndJoin(a, b, n);
    }
  }

  lemma {:induction false} AsciiIsText(s: Bytes)
    requires forall b :: b in s ==> b < 0x80
    ensures IsText(s)
  {
    if s != [] {
      assert s[0] in s && forall b :: b in s[1..] ==> b in s;
      AsciiIsText(s[1..]);
    }
  }

  /**
   * Decoding with replacement, and encoding again: a stretch that starts a character and does not finish it is one
   * replacement.
   */
  function Repaired(s: Bytes): (r: Bytes)
    ensures IsText(r)
    decreases |s|
  {
    if s == [] then []
    else if WholeFirst(s) then
      FirstCharacter(s);
      OneCharacter(s[..Started(s)], Repaired(s[Started(s)..]));
      s[..Started(s)] + Repaired(s[Started(s)..])
    else
      var n := if Started(s) == 0 then 1 else Started(s);
      OneCharacter(REPLACEMENT, Repaired(s[n..]));
      REPLACEMENT + Repaired(s[n..])
  }

  /** Repair changes nothing exactly in text. */
  lemma {:induction false} RepairedText(s: Bytes)
    ensures IsText(s) <==> Repaired(s) == s
    decreases |s|
  {
    if s != [] && WholeFirst(s) {
      RepairedText(s[Started(s)..]);
      assert s == s[..Started(s)] + s[Started(s)..];
    } else if s != [] {
      var n := if Started(s) == 0 then 1 else Started(s);
      assert WholeFirst(REPLACEMENT);
      WholeFirstOf(REPLACEMENT, Repaired(s[n..]));
    }
  }

  /** One character of the 256 that a byte of a request line is read as. */
  function Latin1(b: Byte): (r: Bytes)
    ensures IsText(r)
  {
    if b < 0x80 then
      AsciiIsText([b]);
      [b]
    else
      var r: Bytes := [0xC0 + b / 64, 0x80 + b % 64];
      assert r[2..] == [];
      r
  }

  // ---- white space ------------------------------------------------------------------------

  /** Bytes of the white space character at the front, 0 if there is none. */
  function SpaceWidth(s: Bytes): (n: nat)
    ensures n <= |s|
  {
    if |s| >= 1 && (s[0] == 0x20 || 0x09 <= s[0] <= 0x0D || 0x1C <= s[0] <= 0x1F) then 1
    else if |s| >= 2 && s[0] == 0xC2 && (s[1] == 0x85 || s[1] == 0xA0) then 2
    else if |s| >= 3 && s[0] == 0xE1 && s[1] == 0x9A && s[2] == 0x80 then 3
    else if |s| >= 3 && s[0] == 0xE2 && s[1] == 0x80
        && (0x80 <= s[2] <= 0x8A || s[2] == 0xA8 || s[2] == 0xA9 || s[2] == 0xAF) then 3
    else if |s| >= 3 && s[0] == 0xE2 && s[1] == 0x81 && s[2] == 0x9F then 3
    else if |s| >= 3 && s[0] == 0xE3 && s[1] == 0x80 && s[2] == 0x80 then 3
    else 0
  }

  /** `not value.strip()` */
  predicate Blank(s: Bytes)
    decreases |s|
  {
    s == [] || (SpaceWidth(s) > 0 && Blank(s[SpaceWidth(s)..]))
  }
}
