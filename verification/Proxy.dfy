/** The owner's read-only proxy and the reader's client in front of it. */
module Proxy {
  import opened Pagination
  import opened Prelude
  import opened QueryString
  import opened Utf8

  /** Text in the program's own source, as bytes. */
  function Ascii(s: string): (r: Text)
    ensures |r| == |s|
    ensures forall i :: 0 <= i < |s| ==> r[i] == if s[i] < 128 as char then s[i] as int else 63
  {
    var r: Bytes := seq(|s|, i requires 0 <= i < |s| => if s[i] < 128 as char then s[i] as int else 63);
    AsciiIsText(r);
    r
  }

  const CLUSTERS_PATH := Ascii("/v3/clusters")
  const NODES_PATH := Ascii("/v3/nodes")
  const CLUSTER_ID := Ascii("clusterId")
  const LIMIT := Ascii("limit")
  const MARKER := Ascii("marker")
  const PAGE_LIMIT := Ascii("1000")
  const TS_WINDOW := 60

  /** The two collections anybody may ask for. */
  datatype Call = ListClusters | ListNodes(clusterId: Text)

  datatype Neuron = Neuron(hotkey: string, isValidator: bool)

  datatype Headers = Headers(hotkey: string, signatureHex: string, ts: Bytes)

  datatype Request = Request(isGet: bool, target: Bytes, headers: Headers)

  /**
   * What the proxy has at hand: clock, metagraph, the two text conversions, the signature check, and the version gate.
   */
  datatype Gate = Gate(
    now: int,
    metagraph: Option<seq<Neuron>>,
    parseInt: Bytes -> Option<int>,
    parseHex: string -> Option<Bytes>,
    verify: (Bytes, Bytes, string) -> bool,
    versionAllowed: bool)

  datatype Response<T> = Forbidden | BadGateway | Served(items: seq<T>)

  /** The owner's own client: the items of a collection, or nothing if any page failed. */
  type Direct<!T> = Call -> Option<seq<T>>

  // ---- the proxy's checks -----------------------------------------------------------------

  /** The first value of a parameter. */
  function First(pairs: Pairs, name: Text): Option<Text> {
    if pairs == [] then None
    else if pairs[0].0 == name then Some(pairs[0].1)
    else First(pairs[1..], name)
  }

  predicate OnlyNames(pairs: Pairs, names: set<Text>) {
    forall i :: 0 <= i < |pairs| ==> pairs[i].0 in names
  }

  /** `[(name, value)]` when the parameter is there. */
  function Kept(pairs: Pairs, name: Text): Pairs {
    match First(pairs, name)
    case Some(v) => [(name, v)]
    case None => []
  }

  /** The cleaned parameters of an allowlisted request, or nothing if it is refused. */
  function CleanQuery(path: Bytes, pairs: Pairs): Option<Pairs> {
    if path == CLUSTERS_PATH then
      if OnlyNames(pairs, {LIMIT, MARKER}) then Some(Kept(pairs, LIMIT) + Kept(pairs, MARKER)) else None
    else if path == NODES_PATH then
      if First(pairs, CLUSTER_ID).Some? && !Blank(First(pairs, CLUSTER_ID).value)
          && OnlyNames(pairs, {CLUSTER_ID, LIMIT, MARKER})
      then Some(Kept(pairs, CLUSTER_ID) + Kept(pairs, LIMIT) + Kept(pairs, MARKER))
      else None
    else None
  }

  function FindNeuron(metagraph: seq<Neuron>, hotkey: string): Option<Neuron> {
    if metagraph == [] then None
    else if metagraph[0].hotkey == hotkey then Some(metagraph[0])
    else FindNeuron(metagraph[1..], hotkey)
  }

  /** The signature check of a reader, fail-closed. */
  predicate Authenticated(gate: Gate, h: Headers, message: Bytes) {
    && h.hotkey != "" && h.signatureHex != "" && h.ts != []
    && gate.parseInt(h.ts).Some?
    && -TS_WINDOW <= gate.now - gate.parseInt(h.ts).value <= TS_WINDOW
    && gate.metagraph.Some?
    && FindNeuron(gate.metagraph.value, h.hotkey).Some?
    && FindNeuron(gate.metagraph.value, h.hotkey).value.isValidator
    && gate.parseHex(h.signatureHex).Some?
    && gate.verify(message, gate.parseHex(h.signatureHex).value, h.hotkey)
  }

  /** The upstream call of an admitted request. */
  function CallOf(path: Bytes, clean: Pairs): Call {
    if path == CLUSTERS_PATH then ListClusters else ListNodes(First(clean, CLUSTER_ID).GetOr([]))
  }

  /** The proxy lets the request through to the upstream call. */
  predicate Admits(gate: Gate, r: Request) {
    var (path, query) := UrlSplit(r.target);
    var clean := CleanQuery(path, ParseQsl(query));
    && r.isGet && clean.Some?
    && Authenticated(gate, r.headers, AuthMessage(path, UrlEncode(clean.value), r.headers.ts))
    && gate.versionAllowed
  }

  function CallIn(r: Request): Call {
    var (path, query) := UrlSplit(r.target);
    CallOf(path, CleanQuery(path, ParseQsl(query)).GetOr([]))
  }

  function Answer<T>(gate: Gate, r: Request, direct: Direct<T>): Response<T> {
    if !Admits(gate, r) then Forbidden
    else
      match direct(CallIn(r))
      case Some(items) => Served(items)
      case None => BadGateway
  }

  /** The handler, with its early exits. */
  method Handle<T>(gate: Gate, r: Request, direct: Direct<T>) returns (response: Response<T>)
    ensures response == Answer(gate, r, direct)
    ensures response.Forbidden? <==> !Admits(gate, r)
    ensures response.BadGateway? <==> Admits(gate, r) && direct(CallIn(r)) == None
  {
    hide IsText, Ascii;
    if !r.isGet {
      return Forbidden;
    }
    var (path, rawQuery) := UrlSplit(r.target);
    var query := ParseQsl(rawQuery);
    if path != CLUSTERS_PATH && path != NODES_PATH {
      return Forbidden;
    }
    Names();
    var clean: Pairs := [];
    var allowed := {LIMIT, MARKER};
    if path == NODES_PATH {
      var value := First(query, CLUSTER_ID);
      if value.None? || Blank(value.value) {
        return Forbidden;
      }
      clean := clean + [(CLUSTER_ID, value.value)];
      allowed := allowed + {CLUSTER_ID};
    }
    var limit := First(query, LIMIT);
    if limit.Some? {
      clean := clean + [(LIMIT, limit.value)];
    }
    var marker := First(query, MARKER);
    if marker.Some? {
      clean := clean + [(MARKER, marker.value)];
    }
    if !OnlyNames(query, allowed) {
      return Forbidden;
    }
    if path == NODES_PATH {
      SameNames(query, allowed, {CLUSTER_ID, LIMIT, MARKER});
    }
    if path == NODES_PATH {
      assert clean == Kept(query, CLUSTER_ID) + Kept(query, LIMIT) + Kept(query, MARKER);
    } else {
      assert clean == Kept(query, LIMIT) + Kept(query, MARKER);
    }
    var message := AuthMessage(path, UrlEncode(clean), r.headers.ts);
    if !Authenticated(gate, r.headers, message) {
      return Forbidden;
    }
    if !gate.versionAllowed {
      return Forbidden;
    }
    var items := direct(CallOf(path, clean));
    if items.None? {
      return BadGateway;
    }
    response := Served(items.value);
  }

  lemma SameNames(pairs: Pairs, a: set<Text>, b: set<Text>)
    requires forall n :: n in a <==> n in b
    ensures OnlyNames(pairs, a) <==> OnlyNames(pairs, b)
  {
  }

  lemma Names()
    ensures CLUSTERS_PATH != NODES_PATH
    ensures CLUSTER_ID != LIMIT && CLUSTER_ID != MARKER && LIMIT != MARKER
    ensures forall b :: b in CLUSTERS_PATH || b in NODES_PATH ==> b != NEWLINE && b != HASH && b != QUESTION
    ensures |PAGE_LIMIT| == 4
  {
    hide IsText;
    assert |CLUSTERS_PATH| == 12 && |NODES_PATH| == 9 && |CLUSTER_ID| == 9 && |LIMIT| == 5 && |MARKER| == 6;
  }

  // ---- the client's requests --------------------------------------------------------------

  function PathOf(call: Call): Bytes {
    if call.ListClusters? then CLUSTERS_PATH else NODES_PATH
  }

  /** The parameters of one page request, in the order the client adds them. */
  function Params(call: Call, marker: Option<Text>): Pairs {
    (if call.ListNodes? then [(CLUSTER_ID, call.clusterId)] else [])
    + [(LIMIT, PAGE_LIMIT)]
    + (if marker.Some? then [(MARKER, marker.value)] else [])
  }

  function TargetOf(call: Call, marker: Option<Text>): Bytes {
    PathOf(call) + [QUESTION] + UrlEncode(Params(call, marker))
  }

  /** The bytes a reader signs for this request at time `ts`. */
  function SignedMessage(call: Call, marker: Option<Text>, ts: Bytes): Bytes {
    AuthMessage(PathOf(call), UrlEncode(Params(call, marker)), ts)
  }

  /** The proxy reads the client's request as the client meant it. */
  lemma ClientRequestRead(call: Call, marker: Option<Text>)
    ensures UrlSplit(TargetOf(call, marker)) == (PathOf(call), UrlEncode(Params(call, marker)))
    ensures ParseQsl(UrlSplit(TargetOf(call, marker)).1) == Params(call, marker)
    ensures CleanQuery(PathOf(call), Params(call, marker))
         == if call.ListNodes? && Blank(call.clusterId) then None else Some(Params(call, marker))
    ensures CallOf(PathOf(call), Params(call, marker)) == call
  {
    Names();
    SplitPrinted(PathOf(call), Params(call, marker));
    QueryRoundTrip(Params(call, marker));
    hide UrlEncode, UrlSplit, ParseQsl;
    CleanParams(call, marker);
  }

  lemma CleanParams(call: Call, marker: Option<Text>)
    ensures CleanQuery(PathOf(call), Params(call, marker))
         == if call.ListNodes? && Blank(call.clusterId) then None else Some(Params(call, marker))
    ensures CallOf(PathOf(call), Params(call, marker)) == call
  {
    hide IsText;
    Names();
    var tail := [(LIMIT, PAGE_LIMIT)] + (if marker.Some? then [(MARKER, marker.value)] else []);
    FirstOfTail(marker);
    if call.ListNodes? {
      var pairs := Params(call, marker);
      assert pairs == [(CLUSTER_ID, call.clusterId)] + tail && pairs[1..] == tail;
    } else {
      assert Params(call, marker) == tail;
    }
  }

  lemma FirstOfTail(marker: Option<Text>)
    ensures var tail := [(LIMIT, PAGE_LIMIT)] + (if marker.Some? then [(MARKER, marker.value)] else []);
            First(tail, LIMIT) == Some(PAGE_LIMIT) && First(tail, MARKER) == marker && First(tail, CLUSTER_ID) == None
  {
    Names();
    var tail := [(LIMIT, PAGE_LIMIT)] + (if marker.Some? then [(MARKER, marker.value)] else []);
    var rest: Pairs := if marker.Some? then [(MARKER, marker.value)] else [];
    assert tail[1..] == rest;
    assert marker.Some? ==> rest[1..] == [];
    assert First(rest, CLUSTER_ID) == None;
  }

  /** The proxy rebuilds exactly the bytes the client signed, and refuses before that only a blank cluster id. */
  lemma AuthAgreement(gate: Gate, call: Call, marker: Option<Text>, h: Headers)
    ensures var r := Request(true, TargetOf(call, marker), h);
            Admits(gate, r) <==>
              && !(call.ListNodes? && Blank(call.clusterId))
              && Authenticated(gate, h, SignedMessage(call, marker, h.ts))
              && gate.versionAllowed
    ensures !(call.ListNodes? && Blank(call.clusterId)) ==> CallIn(Request(true, TargetOf(call, marker), h)) == call
  {
    ClientRequestRead(call, marker);
    hide UrlEncode, UrlSplit, ParseQsl, CleanQuery, Authenticated, CallOf;
  }

  /** No signature can be moved to another request: equal signed bytes mean the same call, marker and time stamp. */
  lemma SignedMessageInjective(a: Call, m: Option<Text>, ts: Bytes, b: Call, m': Option<Text>, ts': Bytes)
    requires SignedMessage(a, m, ts) == SignedMessage(b, m', ts')
    ensures a == b && m == m' && ts == ts'
  {
    Names();
    AuthMessageInjective(PathOf(a), Params(a, m), ts, PathOf(b), Params(b, m'), ts');
    CleanParams(a, m);
    CleanParams(b, m');
    var p := Params(a, m);
    assert |p| == (if a.ListNodes? then 1 else 0) + 1 + (if m.Some? then 1 else 0);
    if m.Some? {
      assert p[|p| - 1] == (MARKER, m.value);
    }
  }

  // ---- transparency -----------------------------------------------------------------------

  /** One page request of a reader: a proxied answer is a single page of dictionaries without a marker. */
  function ThroughProxy<T>(gate: Gate, call: Call, sign: Option<Text> -> Headers,
                           direct: Direct<T>): Upstream<T, Text>
  {
    m =>
      match Answer(gate, Request(true, TargetOf(call, m), sign(m)), direct)
      case Served(items) => Some(Page(Some(AsElements(items)), None))
      case _ => None
  }

  function AsElements<T>(items: seq<T>): seq<Element<T>> {
    seq(|items|, i requires 0 <= i < |items| => Dict(items[i]))
  }

  lemma {:induction false} DictsOfElements<T>(items: seq<T>)
    ensures Dicts(AsElements(items)) == items
  {
    if items != [] {
      var n := |items| - 1;
      assert AsElements(items)[..n] == AsElements(items[..n]);
      DictsOfElements(items[..n]);
      assert items == items[..n] + [items[n]];
    }
  }

  /** A client that gets one unmarked page, or an error, collects that page, or nothing. */
  lemma OneAnswer<T(!new)>(serve: Upstream<T, Text>, answer: Response<T>)
    requires serve(None) == if answer.Served? then Some(Page(Some(AsElements(answer.items)), None)) else None
    ensures IsChain(serve, [None])
    ensures Collected(serve, [None]) == if answer.Served? then Some(answer.items) else None
  {
    var chain: seq<Option<Text>> := [None];
    assert chain[..|chain| - 1] == [];
    if answer.Served? {
      DictsOfElements(answer.items);
      assert ItemsAt(serve, None) == answer.items;
      assert AllDicts(serve, chain) == answer.items;
    }
    assert Collected(serve, chain) == if answer.Served? then Some(answer.items) else None;
  }

  /** A permitted reader collects what the owner's client returns, but for a blank cluster id, which is refused. */
  lemma ProxyAnswers<T(!new)>(gate: Gate, call: Call, sign: Option<Text> -> Headers, direct: Direct<T>)
    requires gate.versionAllowed && Authenticated(gate, sign(None), SignedMessage(call, None, sign(None).ts))
    ensures IsChain(ThroughProxy(gate, call, sign, direct), [None])
    ensures Collected(ThroughProxy(gate, call, sign, direct), [None])
         == if call.ListNodes? && Blank(call.clusterId) then None else direct(call)
  {
    var r := Request(true, TargetOf(call, None), sign(None));
    AuthAgreement(gate, call, None, sign(None));
    hide TargetOf, Admits, Authenticated, CallIn, Collected, IsChain, SignedMessage, Blank;
    OneAnswer(ThroughProxy(gate, call, sign, direct), Answer(gate, r, direct));
  }

  /**
   * A permitted reader gets through the proxy, in one request, exactly what the owner's own client collects from
   * Rancher; where any upstream page fails, both get nothing.
   */
  lemma ProxyTransparent<T(!new), M(!new)>(gate: Gate, call: Call, sign: Option<Text> -> Headers, direct: Direct<T>,
                                           rancher: Upstream<T, M>, markers: seq<Option<M>>)
    requires IsChain(rancher, markers) && direct(call) == Collected(rancher, markers)
    requires gate.versionAllowed && Authenticated(gate, sign(None), SignedMessage(call, None, sign(None).ts))
    ensures IsChain(ThroughProxy(gate, call, sign, direct), [None])
    ensures Collected(ThroughProxy(gate, call, sign, direct), [None])
         == if call.ListNodes? && Blank(call.clusterId) then None else Collected(rancher, markers)
  {
    ProxyAnswers(gate, call, sign, direct);
    hide ThroughProxy, Collected, IsChain, Authenticated, Blank;
  }

  /** Whoever is served is a registered validator with a fresh signature over the very request that is forwarded. */
  lemma ServedIsAuthentic<T>(gate: Gate, r: Request, direct: Direct<T>)
    requires Answer(gate, r, direct).Served?
    ensures gate.metagraph.Some?
            && exists n :: n in gate.metagraph.value && n.hotkey == r.headers.hotkey && n.isValidator
    ensures gate.parseInt(r.headers.ts).Some? && -60 <= gate.now - gate.parseInt(r.headers.ts).value <= 60
    ensures exists pairs :: && gate.verify(AuthMessage(PathOf(CallIn(r)), UrlEncode(pairs), r.headers.ts),
                                           gate.parseHex(r.headers.signatureHex).GetOr([]), r.headers.hotkey)
                            && (CallIn(r).ListNodes? ==> First(pairs, CLUSTER_ID) == Some(CallIn(r).clusterId))
  {
    Names();
    var (path, query) := UrlSplit(r.target);
    var clean := CleanQuery(path, ParseQsl(query)).value;
    FoundNeuron(gate.metagraph.value, r.headers.hotkey);
    assert PathOf(CallIn(r)) == path;
  }

  lemma {:induction false} FoundNeuron(metagraph: seq<Neuron>, hotkey: string)
    ensures FindNeuron(metagraph, hotkey).Some? ==>
              FindNeuron(metagraph, hotkey).value in metagraph && FindNeuron(metagraph, hotkey).value.hotkey == hotkey
  {
    if metagraph != [] {
      FoundNeuron(metagraph[1..], hotkey);
    }
  }
}
