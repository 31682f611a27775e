/**
 The proxy and its client byte by byte: which request is admitted, what it is taken for, and the very bytes that are
 sent and signed.
 */
module ProxyLaws {
  import opened Prelude
  import opened Proxy
  import opened QueryString
  import opened Utf8

  /** The bytes of text in ASCII. */
  function Chars(s: string): seq<int> {
    seq(|s|, i requires 0 <= i < |s| => s[i] as int)
  }

  lemma AsciiIsChars(s: string)
    requires forall c :: c in s ==> c < 128 as char
    ensures Ascii(s) == Chars(s)
  {
    hide IsText;
    forall i | 0 <= i < |s| ensures Ascii(s)[i] == Chars(s)[i] {
      assert s[i] in s;
    }
  }

  lemma PathsAreChars()
    ensures CLUSTERS_PATH == Chars("/v3/clusters") && NODES_PATH == Chars("/v3/nodes")
  {
    hide Ascii, Chars, IsText;
    AsciiIsChars("/v3/clusters");
    AsciiIsChars("/v3/nodes");
  }

  lemma NamesAreChars()
    ensures CLUSTER_ID == Chars("clusterId") && LIMIT == Chars("limit") && MARKER == Chars("marker")
    ensures PAGE_LIMIT == Chars("1000")
  {
    hide Ascii, Chars, IsText;
    AsciiIsChars("clusterId");
    AsciiIsChars("limit");
    AsciiIsChars("marker");
    AsciiIsChars("1000");
  }

  // ---- who is let in ----------------------------------------------------------------------

  /** The first parameter of that name has this value. */
  ghost predicate FirstValue(pairs: Pairs, name: seq<int>, value: seq<int>) {
    exists i :: && 0 <= i < |pairs| && pairs[i].0 == name && pairs[i].1 == value
                && forall j :: 0 <= j < i ==> pairs[j].0 != name
  }

  lemma {:induction false} FirstIff(pairs: Pairs, name: Text, value: Text)
    ensures First(pairs, name) == Some(value) <==> FirstValue(pairs, name, value)
  {
    hide IsText;
    if pairs != [] {
      if pairs[0].0 == name {
        assert FirstValue(pairs, name, pairs[0].1);
      } else {
        FirstIff(pairs[1..], name, value);
        if FirstValue(pairs, name, value) {
          var i :| && 0 <= i < |pairs| && pairs[i].0 == name && pairs[i].1 == value
                   && forall j :: 0 <= j < i ==> pairs[j].0 != name;
          assert pairs[1..][i - 1] == pairs[i];
        }
        if FirstValue(pairs[1..], name, value) {
          var i :| && 0 <= i < |pairs| - 1 && pairs[1..][i].0 == name && pairs[1..][i].1 == value
                   && forall j :: 0 <= j < i ==> pairs[1..][j].0 != name;
          assert pairs[i + 1] == pairs[1..][i];
          assert forall j :: 0 < j < i + 1 ==> pairs[j] == pairs[1..][j - 1];
        }
      }
    }
  }

  /** The first entry of the metagraph under that hotkey has a validator permit. */
  ghost predicate Permitted(metagraph: seq<Neuron>, hotkey: string) {
    exists i :: && 0 <= i < |metagraph| && metagraph[i].hotkey == hotkey && metagraph[i].isValidator
                && forall j :: 0 <= j < i ==> metagraph[j].hotkey != hotkey
  }

  lemma {:induction false} PermittedIff(metagraph: seq<Neuron>, hotkey: string)
    ensures FindNeuron(metagraph, hotkey).Some? && FindNeuron(metagraph, hotkey).value.isValidator
       <==> Permitted(metagraph, hotkey)
  {
    if metagraph != [] && metagraph[0].hotkey != hotkey {
      var rest := metagraph[1..];
      PermittedIff(rest, hotkey);
      if Permitted(metagraph, hotkey) {
        var i :| && 0 <= i < |metagraph| && metagraph[i].hotkey == hotkey && metagraph[i].isValidator
                 && forall j :: 0 <= j < i ==> metagraph[j].hotkey != hotkey;
        assert rest[i - 1] == metagraph[i];
      }
      if Permitted(rest, hotkey) {
        var i :| && 0 <= i < |rest| && rest[i].hotkey == hotkey && rest[i].isValidator
                 && forall j :: 0 <= j < i ==> rest[j].hotkey != hotkey;
        assert metagraph[i + 1] == rest[i];
        assert forall j :: 0 < j < i + 1 ==> metagraph[j] == rest[j - 1];
      }
    }
  }

  /** A permitted validator signed these bytes less than a minute ago, or in the minute to come. */
  ghost predicate SignedBy(gate: Gate, h: Headers, message: Bytes) {
    exists ts, signature ::
      && h.ts != [] && gate.parseInt(h.ts) == Some(ts) && -60 <= gate.now - ts <= 60
      && h.hotkey != "" && gate.metagraph.Some? && Permitted(gate.metagraph.value, h.hotkey)
      && h.signatureHex != "" && gate.parseHex(h.signatureHex) == Some(signature)
      && gate.verify(message, signature, h.hotkey)
  }

  lemma AuthenticatedIff(gate: Gate, h: Headers, message: Bytes)
    ensures Authenticated(gate, h, message) <==> SignedBy(gate, h, message)
  {
    if gate.metagraph.Some? {
      PermittedIff(gate.metagraph.value, h.hotkey);
    }
    hide FindNeuron, Permitted;
    if Authenticated(gate, h, message) {
      var ts, signature := gate.parseInt(h.ts).value, gate.parseHex(h.signatureHex).value;
      assert gate.parseInt(h.ts) == Some(ts) && gate.parseHex(h.signatureHex) == Some(signature);
    }
  }

  /** Nothing, or the parameter's first value. */
  ghost predicate Picks(pairs: Pairs, name: seq<int>, picked: Pairs) {
    || (picked == [] && forall v :: !FirstValue(pairs, name, v))
    || (|picked| == 1 && picked[0].0 == name && FirstValue(pairs, name, picked[0].1))
  }

  lemma KeptIff(pairs: Pairs, name: Text, picked: Pairs)
    ensures Kept(pairs, name) == picked <==> Picks(pairs, name, picked)
  {
    hide IsText, First;
    forall v: Text ensures First(pairs, name) == Some(v) <==> FirstValue(pairs, name, v) {
      FirstIff(pairs, name, v);
    }
  }

  /** What is signed for an admitted request: the required id, then limit, then marker, each by its first value. */
  ghost predicate Cleaned(path: Bytes, pairs: Pairs, clean: Pairs) {
    exists id, limit, marker ::
      && clean == id + limit + marker
      && Picks(pairs, Chars("limit"), limit) && Picks(pairs, Chars("marker"), marker)
      && if path == Chars("/v3/nodes") then Picks(pairs, Chars("clusterId"), id) else id == []
  }

  /** The path is one of two, no other parameter is there, and the nodes are asked for by an id that is not blank. */
  ghost predicate Allowed(path: Bytes, pairs: Pairs) {
    || (&& path == Chars("/v3/clusters")
        && forall i :: 0 <= i < |pairs| ==> pairs[i].0 == Chars("limit") || pairs[i].0 == Chars("marker"))
    || (&& path == Chars("/v3/nodes")
        && (exists id :: FirstValue(pairs, Chars("clusterId"), id) && IsText(id) && !Blank(id))
        && forall i :: 0 <= i < |pairs| ==>
             pairs[i].0 == Chars("clusterId") || pairs[i].0 == Chars("limit") || pairs[i].0 == Chars("marker"))
  }

  lemma OnlyNamesIff(pairs: Pairs)
    ensures OnlyNames(pairs, {LIMIT, MARKER}) <==>
              forall i :: 0 <= i < |pairs| ==> pairs[i].0 == Chars("limit") || pairs[i].0 == Chars("marker")
    ensures OnlyNames(pairs, {CLUSTER_ID, LIMIT, MARKER}) <==>
              forall i :: 0 <= i < |pairs| ==>
                pairs[i].0 == Chars("clusterId") || pairs[i].0 == Chars("limit") || pairs[i].0 == Chars("marker")
  {
    NamesAreChars();
    hide Ascii, Chars, IsText;
  }

  lemma IdIff(pairs: Pairs)
    ensures First(pairs, CLUSTER_ID).Some? && !Blank(First(pairs, CLUSTER_ID).value)
       <==> exists id :: FirstValue(pairs, Chars("clusterId"), id) && IsText(id) && !Blank(id)
  {
    NamesAreChars();
    hide Ascii, Chars, IsText, Blank, First;
    forall v: Text ensures First(pairs, CLUSTER_ID) == Some(v) <==> FirstValue(pairs, CLUSTER_ID, v) {
      FirstIff(pairs, CLUSTER_ID, v);
    }
    if First(pairs, CLUSTER_ID).Some? {
      var v: Text := First(pairs, CLUSTER_ID).value;
      assert FirstValue(pairs, CLUSTER_ID, v) && IsText(v);
    }
    if id :| FirstValue(pairs, Chars("clusterId"), id) && IsText(id) && !Blank(id) {
      var v: Text := id;
      assert First(pairs, CLUSTER_ID) == Some(v);
    }
  }

  lemma CleanIff(path: Bytes, pairs: Pairs)
    ensures CleanQuery(path, pairs).Some? <==> Allowed(path, pairs)
    ensures CleanQuery(path, pairs).Some? ==> Cleaned(path, pairs, CleanQuery(path, pairs).value)
  {
    PathsAreChars();
    OnlyNamesIff(pairs);
    IdIff(pairs);
    NamesAreChars();
    Names();
    KeptIff(pairs, LIMIT, Kept(pairs, LIMIT));
    KeptIff(pairs, MARKER, Kept(pairs, MARKER));
    KeptIff(pairs, CLUSTER_ID, Kept(pairs, CLUSTER_ID));
    hide Ascii, Chars, IsText, Blank, First, OnlyNames, Picks, Kept, FirstValue;
    if CleanQuery(path, pairs).Some? {
      var clean := CleanQuery(path, pairs).value;
      var id: Pairs := if path == NODES_PATH then Kept(pairs, CLUSTER_ID) else [];
      assert clean == id + Kept(pairs, LIMIT) + Kept(pairs, MARKER);
    }
  }

  lemma PicksOnce(pairs: Pairs, name: seq<int>, a: Pairs, b: Pairs)
    requires Picks(pairs, name, a) && Picks(pairs, name, b)
    ensures a == b
  {
    hide IsText;
    if |a| == 1 && |b| == 1 {
      assert a[0].1 == b[0].1;
      assert a == [a[0]] && b == [b[0]];
    }
  }

  lemma CleanedOnce(path: Bytes, pairs: Pairs, clean: Pairs, other: Pairs)
    requires Cleaned(path, pairs, clean) && Cleaned(path, pairs, other)
    ensures clean == other
  {
    var id, limit, marker :| && clean == id + limit + marker
                             && Picks(pairs, Chars("limit"), limit) && Picks(pairs, Chars("marker"), marker)
                             && if path == Chars("/v3/nodes") then Picks(pairs, Chars("clusterId"), id) else id == [];
    var id', limit', marker' :|
      && other == id' + limit' + marker'
      && Picks(pairs, Chars("limit"), limit') && Picks(pairs, Chars("marker"), marker')
      && if path == Chars("/v3/nodes") then Picks(pairs, Chars("clusterId"), id') else id' == [];
    PicksOnce(pairs, Chars("limit"), limit, limit');
    PicksOnce(pairs, Chars("marker"), marker, marker');
    if path == Chars("/v3/nodes") {
      PicksOnce(pairs, Chars("clusterId"), id, id');
    }
  }

  lemma SignedIff(gate: Gate, h: Headers, path: Bytes, clean: Pairs)
    ensures Authenticated(gate, h, AuthMessage(path, UrlEncode(clean), h.ts))
       <==> SignedBy(gate, h, path + [10] + UrlEncode(clean) + [10] + h.ts)
  {
    hide SignedBy, Authenticated, UrlEncode, IsText;
    AuthenticatedIff(gate, h, AuthMessage(path, UrlEncode(clean), h.ts));
  }

  /** The signature fits the request as it is cleaned. */
  ghost predicate SignedFor(gate: Gate, h: Headers, path: Bytes, pairs: Pairs) {
    exists clean :: Cleaned(path, pairs, clean) && SignedBy(gate, h, path + [10] + UrlEncode(clean) + [10] + h.ts)
  }

  lemma SignedForIff(gate: Gate, h: Headers, path: Bytes, pairs: Pairs)
    requires CleanQuery(path, pairs).Some?
    ensures Authenticated(gate, h, AuthMessage(path, UrlEncode(CleanQuery(path, pairs).value), h.ts))
       <==> SignedFor(gate, h, path, pairs)
  {
    hide SignedBy, Authenticated, UrlEncode, IsText, CleanQuery, Cleaned, AuthMessage;
    CleanIff(path, pairs);
    var clean := CleanQuery(path, pairs).value;
    SignedIff(gate, h, path, clean);
    if SignedFor(gate, h, path, pairs) {
      var other :| && Cleaned(path, pairs, other)
                   && SignedBy(gate, h, path + [10] + UrlEncode(other) + [10] + h.ts);
      CleanedOnce(path, pairs, clean, other);
    }
  }

  /**
   * A request is admitted exactly if it is a GET for one of the two collections with none but the known parameters, and
   * a permitted validator signed path, cleaned parameters and time stamp; the owner may ask for a minimum version.
   */
  lemma AdmitsIff(gate: Gate, r: Request)
    ensures var (path, query) := UrlSplit(r.target);
            Admits(gate, r) <==>
              && r.isGet && gate.versionAllowed && Allowed(path, ParseQsl(query))
              && SignedFor(gate, r.headers, path, ParseQsl(query))
  {
    hide Allowed, SignedFor, CleanQuery, Authenticated, UrlEncode, ParseQsl, UrlSplit, IsText, AuthMessage;
    var (path, query) := UrlSplit(r.target);
    var pairs := ParseQsl(query);
    CleanIff(path, pairs);
    if CleanQuery(path, pairs).Some? {
      SignedForIff(gate, r.headers, path, pairs);
    }
  }

  /** What an admitted request is answered with: the clusters, or the nodes of the first id given. */
  lemma AdmittedCall(gate: Gate, r: Request, id: Text)
    requires Admits(gate, r)
    ensures var (path, query) := UrlSplit(r.target);
            && (path == Chars("/v3/clusters") ==> CallIn(r) == ListClusters)
            && (path == Chars("/v3/nodes") && FirstValue(ParseQsl(query), Chars("clusterId"), id) ==>
                  CallIn(r) == ListNodes(id))
  {
    PathsAreChars();
    NamesAreChars();
    Names();
    var (path, query) := UrlSplit(r.target);
    var pairs := ParseQsl(query);
    FirstIff(pairs, CLUSTER_ID, id);
    hide Ascii, Chars, IsText, FirstValue, UrlSplit, ParseQsl, Authenticated, Blank, OnlyNames;
    var rest := Kept(pairs, LIMIT) + Kept(pairs, MARKER);
    if path == NODES_PATH && First(pairs, CLUSTER_ID) == Some(id) {
      assert CleanQuery(path, pairs).value == [(CLUSTER_ID, id)] + rest;
    }
  }

  // ---- the client's bytes -----------------------------------------------------------------

  /** The query of one page request, character by character around the quoted id and marker. */
  function QueryBytes(call: Call, marker: Option<Text>): seq<int> {
    (if call.ListNodes? then Chars("clusterId=") + QuotePlus(call.clusterId) + Chars("&") else [])
    + Chars("limit=1000")
    + (if marker.Some? then Chars("&marker=") + QuotePlus(marker.value) else [])
  }

  lemma {:induction false} PlainQuotes(s: Bytes)
    requires forall b :: b in s ==> Unreserved(b)
    ensures QuotePlus(s) == s
  {
    if s != [] {
      assert s[0] in s && forall b :: b in s[1..] ==> b in s;
      PlainQuotes(s[1..]);
      assert s == [s[0]] + s[1..];
    }
  }

  lemma NamesAreQuoted()
    ensures QuotePlus(CLUSTER_ID) == Chars("clusterId") && QuotePlus(LIMIT) == Chars("limit")
    ensures QuotePlus(MARKER) == Chars("marker") && QuotePlus(PAGE_LIMIT) == Chars("1000")
  {
    NamesAreChars();
    hide QuotePlus, Ascii, IsText;
    PlainQuotes(CLUSTER_ID);
    PlainQuotes(LIMIT);
    PlainQuotes(MARKER);
    PlainQuotes(PAGE_LIMIT);
  }

  lemma TailPrinted(marker: Option<Text>)
    ensures UrlEncode([(LIMIT, PAGE_LIMIT)] + (if marker.Some? then [(MARKER, marker.value)] else []))
         == Chars("limit=1000") + (if marker.Some? then Chars("&marker=") + QuotePlus(marker.value) else [])
  {
    NamesAreQuoted();
    hide QuotePlus, Ascii, IsText;
    var limit: (Text, Text) := (LIMIT, PAGE_LIMIT);
    assert EncodePair(limit) == Chars("limit=1000");
    if marker.Some? {
      var last: (Text, Text) := (MARKER, marker.value);
      var pairs: Pairs := [limit] + [last];
      assert pairs[1..] == [last];
      assert UrlEncode([last]) == Chars("marker=") + QuotePlus(marker.value);
      assert UrlEncode(pairs) == EncodePair(limit) + [AMP] + UrlEncode([last]);
      assert [AMP] + Chars("marker=") == Chars("&marker=");
    }
  }

  lemma QueryPrinted(call: Call, marker: Option<Text>)
    ensures UrlEncode(Params(call, marker)) == QueryBytes(call, marker)
  {
    TailPrinted(marker);
    NamesAreQuoted();
    hide QuotePlus, Ascii, IsText;
    var tail: Pairs := [(LIMIT, PAGE_LIMIT)] + (if marker.Some? then [(MARKER, marker.value)] else []);
    if call.ListNodes? {
      var first: (Text, Text) := (CLUSTER_ID, call.clusterId);
      assert Params(call, marker) == [first] + tail && ([first] + tail)[1..] == tail;
      assert UrlEncode([first] + tail) == EncodePair(first) + [AMP] + UrlEncode(tail);
      assert Chars("clusterId") + [EQUALS] == Chars("clusterId=") && [AMP] == Chars("&");
    } else {
      assert Params(call, marker) == tail;
    }
  }

  /** The target a reader asks for, and the bytes it signs. */
  lemma RequestBytes(call: Call, marker: Option<Text>, ts: Bytes)
    ensures var path := if call.ListClusters? then Chars("/v3/clusters") else Chars("/v3/nodes");
            && TargetOf(call, marker) == path + [63] + QueryBytes(call, marker)
            && SignedMessage(call, marker, ts) == path + [10] + QueryBytes(call, marker) + [10] + ts
  {
    PathsAreChars();
    QueryPrinted(call, marker);
    hide QueryBytes, Ascii, Chars, IsText, UrlEncode, Params;
  }
}
