/** Quoting, reading and repairing byte by byte, for requests that no client of the program would print. */
module QueryLaws {
  import opened Prelude
  import opened QueryString
  import opened Utf8

  // ---- quoting ----------------------------------------------------------------------------

  /** The digit's value in either case of letters. */
  ghost predicate IsHex(b: int, n: int) {
    || (48 <= b <= 57 && n == b - 48) || (65 <= b <= 70 && n == b - 65 + 10) || (97 <= b <= 102 && n == b - 97 + 10)
  }

  /**
   * One byte quoted: a letter, a digit or one of `-._~` is itself, a space is '+', anything else '%' and two hex digits
   * in upper case.
   */
  ghost predicate QuotedAs(b: int, q: seq<int>) {
    if 'A' as int <= b <= 'Z' as int || 'a' as int <= b <= 'z' as int || '0' as int <= b <= '9' as int
      || b == '-' as int || b == '.' as int || b == '_' as int || b == '~' as int
    then q == [b]
    else if b == ' ' as int then q == ['+' as int]
    else
      && |q| == 3 && q[0] == '%' as int && q[1] < 'a' as int && q[2] < 'a' as int
      && exists high, low :: IsHex(q[1], high) && IsHex(q[2], low) && b == 16 * high + low
  }

  lemma QuoteByteIs(b: Byte)
    ensures QuotedAs(b, QuoteByte(b))
  {
    if |QuoteByte(b)| == 3 {
      assert IsHex(QuoteByte(b)[1], b / 16) && IsHex(QuoteByte(b)[2], b % 16);
    }
  }

  /** Quoting is byte by byte. */
  lemma QuoteEach(b: Byte, rest: Bytes)
    ensures QuotePlus([]) == []
    ensures QuotedAs(b, QuoteByte(b)) && QuotePlus([b] + rest) == QuoteByte(b) + QuotePlus(rest)
  {
    QuoteByteIs(b);
    assert ([b] + rest)[1..] == rest;
  }

  // ---- reading a query --------------------------------------------------------------------

  /** '+' is a space; everything else but '%' is itself. */
  lemma DecodeEach(b: Byte, rest: Bytes)
    requires b != '%' as int
    ensures PercentDecode([]) == []
    ensures PercentDecode([b] + rest) == [if b == '+' as int then ' ' as int else b] + PercentDecode(rest)
  {
    hide HexValue;
    var s := [b] + rest;
    assert s[1..] == rest;
  }

  lemma ThreeAhead(a: Byte, b: Byte, c: Byte, rest: Bytes)
    ensures var s := [a, b, c] + rest;
            |s| >= 3 && s[0] == a && s[1] == b && s[2] == c && s[3..] == rest
  {
  }

  lemma EscapeFirst(s: Bytes, first: int, second: int)
    requires |s| >= 3 && s[0] == '%' as int && HexValue(s[1]) == Some(first) && HexValue(s[2]) == Some(second)
    ensures PercentDecode(s) == [16 * first + second] + PercentDecode(s[3..])
  {
    hide HexValue;
  }

  /** '%' and two hex digits are their byte. */
  lemma DecodeEscape(first: Byte, second: Byte, rest: Bytes, high: int, low: int)
    requires IsHex(first, high) && IsHex(second, low)
    ensures PercentDecode(['%' as int, first, second] + rest) == [16 * high + low] + PercentDecode(rest)
  {
    hide *;
    HexIff(first);
    HexIff(second);
    ThreeAhead('%' as int, first, second, rest);
    EscapeFirst(['%' as int, first, second] + rest, high, low);
  }

  /** Any other '%' is itself. */
  lemma DecodeLone(rest: Bytes)
    requires |rest| < 2 || (forall n :: !IsHex(rest[0], n)) || (forall n :: !IsHex(rest[1], n))
    ensures PercentDecode(['%' as int] + rest) == ['%' as int] + PercentDecode(rest)
  {
    if |rest| >= 2 {
      HexIff(rest[0]);
      HexIff(rest[1]);
    }
    hide HexValue, IsHex;
    var s: Bytes := ['%' as int] + rest;
    assert s[1..] == rest && s[0] == '%' as int;
    assert |s| >= 3 ==> s[1] == rest[0] && s[2] == rest[1];
  }

  lemma HexIff(b: Byte)
    ensures forall n :: HexValue(b) == Some(n) <==> IsHex(b, n)
    ensures HexValue(b) == None <==> forall n :: !IsHex(b, n)
  {
    if HexValue(b).Some? {
      assert IsHex(b, HexValue(b).value);
    }
  }

  /** Pieces are read one by one, empty ones skipped. */
  lemma PieceByPiece(piece: Bytes, rest: Bytes)
    requires '&' as int !in piece
    ensures ParseQsl([]) == []
    ensures ParseQsl(piece + ['&' as int] + rest) == ParseQsl(piece) + ParseQsl(rest)
  {
    hide DecodeNonEmpty, IsText;
    CutAtSeparator(piece, AMP, rest);
    CutNowhere(piece, AMP);
    EmptyPiece();
  }

  lemma EmptyPiece()
    ensures ParseQsl([]) == []
  {
  }

  /** A piece is a name and a value around its first '='; without one it is a name with a blank value. */
  lemma OnePiece(name: Bytes, value: Bytes)
    requires '&' as int !in name && '&' as int !in value && '=' as int !in name
    ensures ParseQsl(name + ['=' as int] + value) == [(UnquotePlus(name), UnquotePlus(value))]
    ensures name != [] ==> ParseQsl(name) == [(UnquotePlus(name), [])]
  {
    hide UnquotePlus, IsText;
    CutNowhere(name + [EQUALS] + value, AMP);
    CutNowhere(name, AMP);
    CutNowhere(name, EQUALS);
    CutAtSeparator(name, EQUALS, value);
  }

  /** ASCII is decoded and repaired as one; a byte outside it is the character of that number, in two bytes of UTF-8. */
  lemma UnquoteIs(s: Bytes, b: Byte, rest: Bytes)
    requires b >= 128
    ensures (forall i :: 0 <= i < |s| ==> s[i] < 128) ==> UnquotePlus(s) == Repaired(PercentDecode(s))
    ensures UnquotePlus([b] + rest) == [192 + b / 64, 128 + b % 64] + UnquotePlus(rest)
  {
    if forall i :: 0 <= i < |s| ==> s[i] < 128 {
      OneRun(s);
    }
    assert ([b] + rest)[1..] == rest;
    hide Repaired, PercentDecode, AsciiRun, IsText;
  }

  /** The path ends at the first '?', the query at the first '#' of the whole. */
  lemma SplitIs(path: Bytes, query: Bytes, fragment: Bytes)
    requires '?' as int !in path && '#' as int !in path && '#' as int !in query
    ensures UrlSplit(path) == (path, [])
    ensures UrlSplit(path + ['?' as int] + query) == (path, query)
    ensures UrlSplit(path + ['?' as int] + query + ['#' as int] + fragment) == (path, query)
    ensures UrlSplit(path + ['#' as int] + fragment) == (path, [])
  {
    CutNowhere(path, HASH);
    CutNowhere(path, QUESTION);
    CutNowhere(path + [QUESTION] + query, HASH);
    CutAtSeparator(path, QUESTION, query);
    CutAtSeparator(path + [QUESTION] + query, HASH, fragment);
    CutAtSeparator(path, HASH, fragment);
    hide CutFirst;
  }

  // ---- text -------------------------------------------------------------------------------

  /** The bytes of one code point; surrogates have none. */
  ghost predicate Encodes(point: int, c: seq<int>) {
    || (0 <= point < 0x80 && c == [point])
    || (0x80 <= point < 0x800 && c == [0xC0 + point / 64, 0x80 + point % 64])
    || (0x800 <= point < 0x10000 && !(0xD800 <= point < 0xE000)
        && c == [0xE0 + point / 4096, 0x80 + point / 64 % 64, 0x80 + point % 64])
    || (0x10000 <= point < 0x110000
        && c == [0xF0 + point / 262144, 0x80 + point / 4096 % 64, 0x80 + point / 64 % 64, 0x80 + point % 64])
  }

  lemma SixBits(a: int, b: int)
    requires 0 <= b < 64
    ensures (64 * a + b) / 64 == a && (64 * a + b) % 64 == b
  {
  }

  lemma TwoBytes(c: Bytes) returns (point: int)
    requires |c| == 2 && WholeFirst(c) && Started(c) == 2
    ensures Encodes(point, c)
  {
    var a, b := c[0] as int - 0xC0, c[1] as int - 0x80;
    SixBits(a, b);
    point := 64 * a + b;
  }

  lemma ThreeBytes(c: Bytes) returns (point: int)
    requires |c| == 3 && WholeFirst(c) && Started(c) == 3
    ensures Encodes(point, c)
  {
    var a, b, d := c[0] as int - 0xE0, c[1] as int - 0x80, c[2] as int - 0x80;
    var high := 64 * a + b;
    point := 64 * high + d;
    SixBits(a, b);
    SixBits(high, d);
    ByParts(point);
    hide WholeFirst, Started;
  }

  lemma ByParts(point: int)
    requires point >= 0
    ensures point / 64 / 64 == point / 4096 && point / 4096 / 64 == point / 262144
  {
  }

  lemma FourBytes(c: Bytes) returns (point: int)
    requires |c| == 4 && WholeFirst(c) && Started(c) == 4
    ensures Encodes(point, c)
  {
    var a, b, d, e := c[0] as int - 0xF0, c[1] as int - 0x80, c[2] as int - 0x80, c[3] as int - 0x80;
    var top := 64 * a + b;
    var high := 64 * top + d;
    point := 64 * high + e;
    SixBits(a, b);
    SixBits(top, d);
    SixBits(high, e);
    ByParts(point);
  }

  lemma TwoOfPoint(point: int, c: Bytes)
    requires 0x80 <= point < 0x800 && c == [0xC0 + point / 64, 0x80 + point % 64]
    ensures WholeFirst(c) && Started(c) == 2
  {
  }

  lemma ThreeOfPoint(point: int, c: Bytes)
    requires 0x800 <= point < 0x10000 && !(0xD800 <= point < 0xE000)
    requires c == [0xE0 + point / 4096, 0x80 + point / 64 % 64, 0x80 + point % 64]
    ensures WholeFirst(c) && Started(c) == 3
  {
    ByParts(point);
    var high := point / 64;
    assert high == 64 * (high / 64) + high % 64;
  }

  lemma FourOfPoint(point: int, c: Bytes)
    requires 0x10000 <= point < 0x110000
    requires c == [0xF0 + point / 262144, 0x80 + point / 4096 % 64, 0x80 + point / 64 % 64, 0x80 + point % 64]
    ensures WholeFirst(c) && Started(c) == 4
  {
    ByParts(point);
    var top := point / 4096;
    assert top == 64 * (top / 64) + top % 64;
  }

  /** The bytes taken for a whole character are those of a code point, and the other way round. */
  lemma CharacterIff(c: Bytes)
    ensures WholeFirst(c) && Started(c) == |c| <==> exists point :: Encodes(point, c)
  {
    if WholeFirst(c) && Started(c) == |c| {
      var point := PointOf(c);
    }
    if point :| Encodes(point, c) {
      if 0x80 <= point < 0x800 {
        TwoOfPoint(point, c);
      } else if 0x800 <= point < 0x10000 {
        ThreeOfPoint(point, c);
      } else if 0x10000 <= point {
        FourOfPoint(point, c);
      } else {
        assert WholeFirst(c) && Started(c) == 1;
      }
      hide Started, WholeFirst;
    }
  }

  lemma PointOf(c: Bytes) returns (point: int)
    requires WholeFirst(c) && Started(c) == |c|
    ensures Encodes(point, c)
  {
    if |c| == 1 {
      point := c[0];
    } else if |c| == 2 {
      point := TwoBytes(c);
    } else if |c| == 3 {
      point := ThreeBytes(c);
    } else {
      point := FourBytes(c);
    }
  }

  /** A whole character stays; a byte that starts none is replaced. */
  lemma RepairedEach(c: Bytes, point: int, b: Byte, rest: Bytes)
    requires Encodes(point, c)
    ensures Repaired([]) == [] && Repaired(c + rest) == c + Repaired(rest)
    ensures b >= 0x80 && (b < 0xC2 || b > 0xF4) ==> Repaired([b] + rest) == [0xEF, 0xBF, 0xBD] + Repaired(rest)
  {
    CharacterIff(c);
    WholeFirstOf(c, rest);
    assert (c + rest)[|c|..] == rest && (c + rest)[..|c|] == c;
    assert ([b] + rest)[1..] == rest;
    if b >= 0x80 && (b < 0xC2 || b > 0xF4) {
      assert Started([b] + rest) == 0;
    }
    hide Encodes, IsText, Started;
  }

  /** Two thirds of a euro sign before an A are replaced once; a second byte that does not fit is replaced by itself. */
  lemma RepairedWitness()
    ensures Repaired([0xE2, 0x82, 0x41]) == [0xEF, 0xBF, 0xBD, 0x41]
    ensures Repaired([0xE0, 0x80]) == [0xEF, 0xBF, 0xBD, 0xEF, 0xBF, 0xBD]
  {
    hide IsText;
    var euro: Bytes := [0xE2, 0x82, 0x41];
    assert Started(euro) == 2 && euro[2..] == [0x41];
    assert Encodes(0x41, [0x41]);
    RepairedEach([0x41], 0x41, 0x80, []);
    assert [0x41] + [] == [0x41];
    var overlong: Bytes := [0xE0, 0x80];
    assert Started(overlong) == 1 && overlong[1..] == [0x80];
    RepairedEach([0x41], 0x41, 0x80, []);
    assert [0x80] + [] == [0x80];
  }

  // ---- white space ------------------------------------------------------------------------

  /** The code points that are stripped. */
  predicate IsSpace(point: int) {
    || 0x09 <= point <= 0x0D || 0x1C <= point <= 0x20 || point == 0x85 || point == 0xA0 || point == 0x1680
    || 0x2000 <= point <= 0x200A || point == 0x2028 || point == 0x2029 || point == 0x202F || point == 0x205F
    || point == 0x3000
  }

  lemma SpaceIs(c: Bytes, point: int, rest: Bytes)
    requires Encodes(point, c)
    ensures SpaceWidth(c + rest) == if IsSpace(point) then |c| else 0
  {
    var s := c + rest;
    if |c| == 1 {
      assert s[0] == point;
    } else if |c| == 2 {
      assert s[0] == 0xC0 + point / 64 && s[1] == 0x80 + point % 64;
    } else if |c| == 3 {
      assert s[0] == 0xE0 + point / 4096 && s[1] == 0x80 + point / 64 % 64 && s[2] == 0x80 + point % 64;
      ByParts(point);
    } else {
      assert s[0] == 0xF0 + point / 262144;
    }
  }

  /** Text is blank exactly if every character of it is white space. */
  lemma BlankEach(c: Bytes, point: int, rest: Bytes)
    requires Encodes(point, c)
    ensures Blank([])
    ensures Blank(c + rest) <==> IsSpace(point) && Blank(rest)
  {
    SpaceIs(c, point, rest);
    assert (c + rest)[|c|..] == rest;
    hide SpaceWidth, IsSpace;
  }
}
