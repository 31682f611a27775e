/** The evidence of a cycle, as the owner reads it from Rancher and as a reader reads it through the proxy. */
module ReaderEvidence {
  import opened Pagination
  import opened Prelude
  import opened Proxy
  import opened Readiness
  import opened Utf8

  /** How listed items become clusters and nodes, and a cluster id becomes text. */
  datatype Decoding<!T> = Decoding(clusters: seq<T> -> seq<Cluster>, nodes: seq<T> -> seq<Node>, text: string -> Text)

  /** The list calls of a client: the items, or nothing if any page failed. */
  type Lists<!T> = Call -> Option<seq<T>>

  function IdsOf(clusters: seq<Cluster>): set<string> {
    set c | c in clusters :: ClusterId(c)
  }

  /** All clusters, then the nodes of each; one failed list is an outage. */
  function ReadEvidence<T>(list: Lists<T>, d: Decoding<T>): Option<(seq<Cluster>, map<string, seq<Node>>)> {
    match list(ListClusters)
    case None => None
    case Some(items) =>
      var clusters := d.clusters(items);
      if forall id :: id in IdsOf(clusters) ==> list(ListNodes(d.text(id))).Some? then
        Some((clusters, NodeTable(list, clusters, d)))
      else None
  }

  /** The cluster's nodes are asked for, and filed, under its id, or under its name if it has no id. */
  ghost predicate Keyed(clusters: seq<Cluster>, id: string) {
    exists c :: c in clusters && ((c.id != "" && id == c.id) || (c.id == "" && id == c.name))
  }

  /** The evidence is all clusters and, under each cluster's key, the nodes listed for that key; or none of it. */
  lemma EvidenceIs<T>(list: Lists<T>, d: Decoding<T>)
    ensures ReadEvidence(list, d) == None <==>
              || list(ListClusters) == None
              || exists id :: Keyed(d.clusters(list(ListClusters).value), id) && list(ListNodes(d.text(id))) == None
    ensures ReadEvidence(list, d).Some? ==>
              var (clusters, table) := ReadEvidence(list, d).value;
              && clusters == d.clusters(list(ListClusters).value)
              && (forall id :: id in table <==> Keyed(clusters, id))
              && forall id :: id in table ==>
                   list(ListNodes(d.text(id))).Some? && table[id] == d.nodes(list(ListNodes(d.text(id))).value)
  {
    if list(ListClusters).Some? {
      var clusters := d.clusters(list(ListClusters).value);
      forall id ensures id in IdsOf(clusters) <==> Keyed(clusters, id) {
        KeyedIff(clusters, id);
      }
      hide IdsOf, Keyed;
    }
  }

  lemma KeyedIff(clusters: seq<Cluster>, id: string)
    ensures id in IdsOf(clusters) <==> Keyed(clusters, id)
  {
    if Keyed(clusters, id) {
      var c :| c in clusters && ((c.id != "" && id == c.id) || (c.id == "" && id == c.name));
      assert ClusterId(c) in IdsOf(clusters);
    }
  }

  /** Every call of the reader is permitted. */
  ghost predicate Permitted(gate: Call -> Gate, sign: Call -> Option<Text> -> Headers) {
    forall call ::
      && gate(call).versionAllowed
      && Authenticated(gate(call), sign(call)(None), SignedMessage(call, None, sign(call)(None).ts))
  }

  /** What a permitted reader's client collects for one call. */
  ghost function ThroughProxyList<T(!new)>(gate: Call -> Gate, sign: Call -> Option<Text> -> Headers,
                                           direct: Lists<T>): Lists<T>
    requires Permitted(gate, sign)
  {
    call => CollectedFor(gate, sign, direct, call)
  }

  ghost function CollectedFor<T(!new)>(gate: Call -> Gate, sign: Call -> Option<Text> -> Headers, direct: Lists<T>,
                                       call: Call)
    : Option<seq<T>>
    requires Permitted(gate, sign)
  {
    var serve := ThroughProxy(gate(call), call, sign(call), direct);
    if IsChain(serve, [None]) then Collected(serve, [None]) else None
  }

  lemma OnePage<T(!new)>(gate: Call -> Gate, sign: Call -> Option<Text> -> Headers, direct: Lists<T>, call: Call)
    requires Permitted(gate, sign)
    ensures IsChain(ThroughProxy(gate(call), call, sign(call), direct), [None])
    ensures Collected(ThroughProxy(gate(call), call, sign(call), direct), [None])
         == if call.ListNodes? && Blank(call.clusterId) then None else direct(call)
  {
    assert gate(call).versionAllowed;
    hide *;
    ProxyAnswers(gate(call), call, sign(call), direct);
  }

  /** The owner sees a cluster whose id is blank. */
  ghost predicate SeesBlankId<T>(direct: Lists<T>, d: Decoding<T>) {
    direct(ListClusters).Some? && exists id :: id in IdsOf(d.clusters(direct(ListClusters).value)) && Blank(d.text(id))
  }

  /** `list` is `direct` without answers for blank cluster ids. */
  ghost predicate Filtered<T(!new)>(list: Lists<T>, direct: Lists<T>) {
    forall call :: list(call) == if call.ListNodes? && Blank(call.clusterId) then None else direct(call)
  }

  lemma ProxyFilters<T(!new)>(gate: Call -> Gate, sign: Call -> Option<Text> -> Headers, direct: Lists<T>)
    requires Permitted(gate, sign)
    ensures Filtered(ThroughProxyList(gate, sign, direct), direct)
  {
    var list := ThroughProxyList(gate, sign, direct);
    forall call: Call
      ensures list(call) == if call.ListNodes? && Blank(call.clusterId) then None else direct(call)
    {
      OnePage(gate, sign, direct, call);
      hide Permitted, Collected, ThroughProxy, IsChain, Blank;
    }
  }

  /** All clusters of this list have their nodes listed. */
  ghost predicate NodesListed<T>(list: Lists<T>, clusters: seq<Cluster>, text: string -> Text) {
    forall id :: id in IdsOf(clusters) ==> list(ListNodes(text(id))).Some?
  }

  function NodeTable<T>(list: Lists<T>, clusters: seq<Cluster>, d: Decoding<T>): map<string, seq<Node>>
    requires forall id :: id in IdsOf(clusters) ==> list(ListNodes(d.text(id))).Some?
  {
    map id | id in IdsOf(clusters) :: d.nodes(list(ListNodes(d.text(id))).value)
  }

  lemma SameTable<T(!new)>(list: Lists<T>, direct: Lists<T>, clusters: seq<Cluster>, d: Decoding<T>)
    requires forall id :: id in IdsOf(clusters) ==> list(ListNodes(d.text(id))) == direct(ListNodes(d.text(id)))
    ensures NodesListed(list, clusters, d.text) == NodesListed(direct, clusters, d.text)
    ensures NodesListed(list, clusters, d.text) ==> NodeTable(list, clusters, d) == NodeTable(direct, clusters, d)
  {
    hide IdsOf;
  }

  lemma FilteredEvidence<T(!new)>(list: Lists<T>, direct: Lists<T>, d: Decoding<T>)
    requires Filtered(list, direct)
    ensures ReadEvidence(list, d) == if SeesBlankId(direct, d) then None else ReadEvidence(direct, d)
  {
    hide Blank, IsText, IdsOf;
    assert list(ListClusters) == direct(ListClusters);
    if direct(ListClusters).Some? {
      var clusters := d.clusters(direct(ListClusters).value);
      if SeesBlankId(direct, d) {
        var id :| id in IdsOf(clusters) && Blank(d.text(id));
        assert list(ListNodes(d.text(id))) == None;
      } else {
        forall id | id in IdsOf(clusters) ensures list(ListNodes(d.text(id))) == direct(ListNodes(d.text(id))) {
          assert !Blank(d.text(id));
        }
        SameTable(list, direct, clusters, d);
      }
    }
  }

  /**
   * A permitted reader works on exactly the owner's evidence, or has an outage where the owner has one; only a cluster
   * with a blank id makes an outage for readers alone.
   */
  lemma SameEvidence<T(!new)>(gate: Call -> Gate, sign: Call -> Option<Text> -> Headers, direct: Lists<T>,
                              d: Decoding<T>)
    requires Permitted(gate, sign)
    ensures ReadEvidence(ThroughProxyList(gate, sign, direct), d)
         == if SeesBlankId(direct, d) then None else ReadEvidence(direct, d)
  {
    ProxyFilters(gate, sign, direct);
    hide *;
    FilteredEvidence(ThroughProxyList(gate, sign, direct), direct, d);
  }
}
