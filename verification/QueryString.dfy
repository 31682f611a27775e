/**
 Query strings as the client prints them (`urlencode`) and the proxy reads them (`parse_qs`).  Names and values are text
 in UTF-8; a request target is any bytes, read as one character each.  Percent-encoding follows sections 2.1 and 2.3
 of RFC 3986, with '+' for a space.
 */
module QueryString {
  import opened Prelude
  import opened Utf8

  const NEWLINE: Byte := 10
  const SPACE: Byte := 32
  const HASH: Byte := 35
  const PERCENT: Byte := 37
  const AMP: Byte := 38
  const PLUS: Byte := 43
  const EQUALS: Byte := 61
  const QUESTION: Byte := 63

  /** Letters, digits, and `-._~`. */
  predicate Unreserved(b: Byte) {
    65 <= b <= 90 || 97 <= b <= 122 || 48 <= b <= 57 || b == 45 || b == 46 || b == 95 || b == 126
  }

  function HexDigit(n: int): Byte
    requires 0 <= n < 16
  {
    if n < 10 then 48 + n else 55 + n
  }

  function HexValue(b: Byte): Option<int> {
    if 48 <= b <= 57 then Some(b - 48)
    else if 65 <= b <= 70 then Some(b - 55)
    else if 97 <= b <= 102 then Some(b - 87)
    else None
  }

  function QuoteByte(b: Byte): (q: Bytes)
    ensures |q| == 1 || |q| == 3
  {
    if Unreserved(b) then [b]
    else if b == SPACE then [PLUS]
    else [PERCENT, HexDigit(b / 16), HexDigit(b % 16)]
  }

  function QuotePlus(s: Bytes): Bytes {
    if s == [] then [] else QuoteByte(s[0]) + QuotePlus(s[1..])
  }

  /** A '%' that does not start two hex digits stands for itself. */
  function PercentDecode(s: Bytes): Bytes {
    if s == [] then []
    else if s[0] == PLUS then [SPACE] + PercentDecode(s[1..])
    else if s[0] == PERCENT && |s| >= 3 && HexValue(s[1]).Some? && HexValue(s[2]).Some? then
      [HexValue(s[1]).value * 16 + HexValue(s[2]).value] + PercentDecode(s[3..])
    else [s[0]] + PercentDecode(s[1..])
  }

  /** The length of the ASCII stretch at the front. */
  function AsciiRun(s: Bytes): (n: nat)
    ensures n <= |s| && forall i :: 0 <= i < n ==> s[i] < 0x80
    ensures s != [] && s[0] < 0x80 ==> n > 0
    ensures (forall i :: 0 <= i < |s| ==> s[i] < 0x80) ==> n == |s|
  {
    if s == [] || s[0] >= 0x80 then 0 else 1 + AsciiRun(s[1..])
  }

  /**
   * Each ASCII stretch is percent-decoded as UTF-8, with replacement; a byte outside ASCII is the character of that
   * number.
   */
  function UnquotePlus(s: Bytes): (r: Text)
    decreases |s|
  {
    if s == [] then []
    else if s[0] < 0x80 then
      var n := AsciiRun(s);
      BothText(Repaired(PercentDecode(s[..n])), UnquotePlus(s[n..]));
      Repaired(PercentDecode(s[..n])) + UnquotePlus(s[n..])
    else
      BothText(Latin1(s[0]), UnquotePlus(s[1..]));
      Latin1(s[0]) + UnquotePlus(s[1..])
  }

  type Pairs = seq<(Text, Text)>

  function EncodePair(p: (Text, Text)): Bytes {
    QuotePlus(p.0) + [EQUALS] + QuotePlus(p.1)
  }

  /** `"&".join(...)` over the encoded pairs. */
  function UrlEncode(pairs: Pairs): Bytes {
    if pairs == [] then []
    else if |pairs| == 1 then EncodePair(pairs[0])
    else EncodePair(pairs[0]) + [AMP] + UrlEncode(pairs[1..])
  }

  /** The text before and after the first `sep`, if there is one. */
  function CutFirst(s: Bytes, sep: Byte): Option<(Bytes, Bytes)> {
    if s == [] then None
    else if s[0] == sep then Some(([], s[1..]))
    else
      match CutFirst(s[1..], sep)
      case Some((before, after)) => Some(([s[0]] + before, after))
      case None => None
  }

  /** One `name=value` piece; a piece without '=' is a name with a blank value. */
  function DecodePiece(piece: Bytes): (Text, Text) {
    match CutFirst(piece, EQUALS)
    case Some((name, value)) => (UnquotePlus(name), UnquotePlus(value))
    case None => (UnquotePlus(piece), [])
  }

  function DecodeNonEmpty(piece: Bytes): Pairs {
    if piece == [] then [] else [DecodePiece(piece)]
  }

  /** The pairs of a query, in order; empty pieces between '&' are skipped. */
  function ParseQsl(query: Bytes): Pairs
    decreases |query|
  {
    match CutFirst(query, AMP)
    case Some((piece, rest)) =>
      CutLengths(query, AMP);
      DecodeNonEmpty(piece) + ParseQsl(rest)
    case None => DecodeNonEmpty(query)
  }

  lemma {:induction false} CutLengths(s: Bytes, sep: Byte)
    ensures CutFirst(s, sep).Some? ==>
              s == CutFirst(s, sep).value.0 + [sep] + CutFirst(s, sep).value.1 && |CutFirst(s, sep).value.1| < |s|
  {
    if s != [] && s[0] != sep {
      CutLengths(s[1..], sep);
    }
  }

  // ---- round trip -------------------------------------------------------------------------

  lemma {:induction false} CutAtSeparator(before: Bytes, sep: Byte, after: Bytes)
    requires sep !in before
    ensures CutFirst(before + [sep] + after, sep) == Some((before, after))
  {
    var s := before + [sep] + after;
    if before == [] {
      assert s[1..] == after;
    } else {
      assert s[1..] == before[1..] + [sep] + after && before == [before[0]] + before[1..];
      CutAtSeparator(before[1..], sep, after);
    }
  }

  lemma {:induction false} CutNowhere(s: Bytes, sep: Byte)
    requires sep !in s
    ensures CutFirst(s, sep) == None
  {
    if s != [] {
      CutNowhere(s[1..], sep);
    }
  }

  /** What an encoded name or value is made of. */
  predicate Plain(b: Byte) {
    Unreserved(b) || b == PLUS || b == PERCENT
  }

  lemma {:induction false} QuotedIsPlain(s: Bytes)
    ensures forall b :: b in QuotePlus(s) ==> Plain(b)
  {
    if s != [] {
      QuotedIsPlain(s[1..]);
    }
  }

  lemma {:induction false} DecodeQuoted(s: Bytes)
    ensures PercentDecode(QuotePlus(s)) == s
  {
    if s != [] {
      var q, rest := QuoteByte(s[0]), QuotePlus(s[1..]);
      DecodeQuoted(s[1..]);
      assert (q + rest)[|q|..] == rest;
      assert s == [s[0]] + s[1..];
      if |q| == 3 {
        assert HexValue(HexDigit(s[0] / 16)) == Some(s[0] / 16) && HexValue(HexDigit(s[0] % 16)) == Some(s[0] % 16);
      }
    }
  }

  lemma OneRun(s: Bytes)
    requires forall i :: 0 <= i < |s| ==> s[i] < 0x80
    ensures UnquotePlus(s) == Repaired(PercentDecode(s))
  {
    if s != [] {
      assert AsciiRun(s) == |s| && s[..|s|] == s && s[|s|..] == [];
      hide PercentDecode, Repaired, IsText, AsciiRun;
      assert UnquotePlus(s) == Repaired(PercentDecode(s)) + UnquotePlus([]);
    }
  }

  lemma {:induction false} QuotedIsAscii(s: Bytes)
    ensures forall i :: 0 <= i < |QuotePlus(s)| ==> QuotePlus(s)[i] < 0x80
  {
    if s != [] {
      QuotedIsAscii(s[1..]);
    }
  }

  /** A printed value is one ASCII stretch, and text needs no repair. */
  lemma UnquoteQuoted(s: Text)
    ensures UnquotePlus(QuotePlus(s)) == s
  {
    hide *;
    QuotedIsAscii(s);
    DecodeQuoted(s);
    RepairedText(s);
    OneRun(QuotePlus(s));
  }

  lemma PairRoundTrip(p: (Text, Text))
    ensures DecodeNonEmpty(EncodePair(p)) == [p]
    ensures forall b :: b in EncodePair(p) ==> Plain(b) || b == EQUALS
  {
    QuotedIsPlain(p.0);
    QuotedIsPlain(p.1);
    CutAtSeparator(QuotePlus(p.0), EQUALS, QuotePlus(p.1));
    UnquoteQuoted(p.0);
    UnquoteQuoted(p.1);
  }

  /** Reading what was printed gives back the same pairs in the same order, for every list of pairs. */
  lemma {:induction false} QueryRoundTrip(pairs: Pairs)
    ensures ParseQsl(UrlEncode(pairs)) == pairs
  {
    if pairs != [] {
      hide IsText, CutFirst, DecodeNonEmpty, EncodePair;
      var piece := EncodePair(pairs[0]);
      PairRoundTrip(pairs[0]);
      if |pairs| == 1 {
        CutNowhere(piece, AMP);
      } else {
        CutAtSeparator(piece, AMP, UrlEncode(pairs[1..]));
        QueryRoundTrip(pairs[1..]);
      }
    }
  }

  lemma {:induction false} EncodedIsPlain(pairs: Pairs)
    ensures forall b :: b in UrlEncode(pairs) ==> Plain(b) || b == EQUALS || b == AMP
  {
    if pairs != [] {
      PairRoundTrip(pairs[0]);
      EncodedIsPlain(pairs[1..]);
    }
  }

  /** Printing is injective. */
  lemma UrlEncodeInjective(a: Pairs, b: Pairs)
    requires UrlEncode(a) == UrlEncode(b)
    ensures a == b
  {
    QueryRoundTrip(a);
    QueryRoundTrip(b);
  }

  // ---- the signed message -----------------------------------------------------------------

  /** `<path>\n<query>\n<ts>` */
  function AuthMessage(path: Bytes, query: Bytes, ts: Bytes): Bytes {
    path + [NEWLINE] + query + [NEWLINE] + ts
  }

  /** Equal messages have equal paths, equal parameters and equal time stamps. */
  lemma AuthMessageInjective(path: Bytes, pairs: Pairs, ts: Bytes, path': Bytes, pairs': Pairs, ts': Bytes)
    requires NEWLINE !in path && NEWLINE !in path'
    requires AuthMessage(path, UrlEncode(pairs), ts) == AuthMessage(path', UrlEncode(pairs'), ts')
    ensures path == path' && pairs == pairs' && ts == ts'
  {
    hide UrlEncode, CutFirst, AuthMessage;
    EncodedIsPlain(pairs);
    EncodedIsPlain(pairs');
    CutMessage(path, UrlEncode(pairs), ts);
    CutMessage(path', UrlEncode(pairs'), ts');
    UrlEncodeInjective(pairs, pairs');
  }

  /** The two newlines can be found again. */
  lemma CutMessage(path: Bytes, query: Bytes, ts: Bytes)
    requires NEWLINE !in path && NEWLINE !in query
    ensures CutFirst(AuthMessage(path, query, ts), NEWLINE) == Some((path, query + [NEWLINE] + ts))
    ensures CutFirst(query + [NEWLINE] + ts, NEWLINE) == Some((query, ts))
  {
    assert AuthMessage(path, query, ts) == path + [NEWLINE] + (query + [NEWLINE] + ts);
    CutAtSeparator(path, NEWLINE, query + [NEWLINE] + ts);
    CutAtSeparator(query, NEWLINE, ts);
  }

  // ---- request targets --------------------------------------------------------------------

  /** `urlsplit` on a target without scheme or authority: the fragment is cut off, then the query. */
  function UrlSplit(target: Bytes): (Bytes, Bytes) {
    var s := match CutFirst(target, HASH)
             case Some((before, _)) => before
             case None => target;
    match CutFirst(s, QUESTION)
    case Some((path, query)) => (path, query)
    case None => (s, [])
  }

  lemma SplitPrinted(path: Bytes, pairs: Pairs)
    requires HASH !in path && QUESTION !in path
    ensures UrlSplit(path + [QUESTION] + UrlEncode(pairs)) == (path, UrlEncode(pairs))
  {
    EncodedIsPlain(pairs);
    CutNowhere(path + [QUESTION] + UrlEncode(pairs), HASH);
    CutAtSeparator(path, QUESTION, UrlEncode(pairs));
  }
}
