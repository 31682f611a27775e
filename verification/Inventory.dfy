/** The GPU inventory of one miner: what its nodes count toward payout. */
module Inventory {
  import opened Prelude
  import opened Readiness

  const FULL_NODE_GPUS := 8

  /** A missing count label means a full node; a negative or unreadable one means none. */
  function GpuCount(tag: CountLabel): nat {
    match tag
    case NoLabel => FULL_NODE_GPUS
    case NotAnInteger => 0
    case Labelled(n) => if n > 0 then n else 0
  }

  /**
   * The GPUs a node adds at the moment it is read; the owner's staging miner may count nodes that are only TDX capable.
   */
  function Counted(node: Node, now: real, tdxCounts: bool): nat {
    var count := GpuCount(node.gpuCount);
    if !IsReady(node, now) || !node.schedulable || node.gpuClass.None? || count < FULL_NODE_GPUS then 0
    else if (node.vmPassthrough && node.kataConfidential) || (tdxCounts && node.tdxCapable) then count
    else 0
  }

  /** All GPUs of one class on these nodes, live or not. */
  function Capacity(nodes: seq<Node>, klass: string): nat {
    if nodes == [] then 0
    else
      var n := nodes[|nodes| - 1];
      Capacity(nodes[..|nodes| - 1], klass) + if n.gpuClass == Some(klass) then GpuCount(n.gpuCount) else 0
  }

  /** Counted GPUs of one class, the `i`-th node read at clock tick `clock(i)`. */
  function ClassTotal(nodes: seq<Node>, clock: nat -> real, tdxCounts: bool, klass: string): nat {
    if nodes == [] then 0
    else
      var i := |nodes| - 1;
      ClassTotal(nodes[..i], clock, tdxCounts, klass)
      + if nodes[i].gpuClass == Some(klass) then Counted(nodes[i], clock(i), tdxCounts) else 0
  }

  /** The table has exactly the classes with something counted, and their totals. */
  ghost predicate IsBreakdown(m: map<string, int>, nodes: seq<Node>, clock: nat -> real, tdxCounts: bool) {
    forall k :: Get(m, k, 0) == ClassTotal(nodes, clock, tdxCounts, k) && (k in m ==> m[k] >= FULL_NODE_GPUS)
  }

  method CountNodes(nodes: seq<Node>, clock: nat -> real, tdxCounts: bool) returns (breakdown: map<string, int>)
    ensures IsBreakdown(breakdown, nodes, clock, tdxCounts)
  {
    breakdown := map[];
    for i := 0 to |nodes|
      invariant IsBreakdown(breakdown, nodes[..i], clock, tdxCounts)
    {
      assert nodes[..i + 1][..i] == nodes[..i];
      var p := nodes[i];
      if !(IsReady(p, clock(i)) && p.schedulable && p.gpuClass.Some?) { continue; }
      var count := GpuCount(p.gpuCount);
      if count < FULL_NODE_GPUS { continue; }
      var klass := p.gpuClass.value;
      if p.vmPassthrough && p.kataConfidential {
        breakdown := breakdown[klass := Get(breakdown, klass, 0) + count];
        continue;
      }
      if tdxCounts && p.tdxCapable {
        breakdown := breakdown[klass := Get(breakdown, klass, 0) + count];
      }
    }
    assert nodes[..|nodes|] == nodes;
  }

  /**
   * What Rancher returned, and the clock reading at which the `j`-th node of the `i`-th miner is judged and counted.
   */
  datatype Evidence = Evidence(
    clusters: seq<Cluster>,
    nodesByCluster: map<string, seq<Node>>,
    validated: nat -> nat -> real,
    paid: nat -> nat -> real)

  /** The nodes of the first cluster bound to a hotkey. */
  function NodesOf(clusters: seq<Cluster>, nodesByCluster: map<string, seq<Node>>, hotkey: string): seq<Node> {
    var bound := Bound(clusters, hotkey);
    if bound == [] then [] else Get(nodesByCluster, ClusterId(bound[0]), [])
  }

  function NodesAt(e: Evidence, hotkey: string): seq<Node> {
    NodesOf(e.clusters, e.nodesByCluster, hotkey)
  }

  method MinerGpuBreakdown(hotkey: string, clusters: seq<Cluster>, nodesByCluster: map<string, seq<Node>>,
                           clock: nat -> real, tdxCounts: bool)
    returns (breakdown: map<string, int>)
    ensures IsBreakdown(breakdown, NodesOf(clusters, nodesByCluster, hotkey), clock, tdxCounts)
  {
    var bound := Bound(clusters, hotkey);
    if bound == [] {
      return map[];
    }
    var cid := ClusterId(bound[0]);
    breakdown := CountNodes(Get(nodesByCluster, cid, []), clock, tdxCounts);
  }

  // ---- one cluster for verdict and payout -------------------------------------------------

  /** The clusters whose label is a registered hotkey. */
  function Registered(clusters: seq<Cluster>, hotkeys: set<string>): seq<Cluster> {
    if clusters == [] then []
    else if HotkeyOf(clusters[0]) in hotkeys then [clusters[0]] + Registered(clusters[1..], hotkeys)
    else Registered(clusters[1..], hotkeys)
  }

  /**
   * Dropping foreign clusters first makes no difference to a registered miner: verdict and payout see the same list.
   */
  lemma {:induction false} SameBoundClusters(clusters: seq<Cluster>, hotkeys: set<string>, hotkey: string)
    requires hotkey in hotkeys
    ensures Bound(Registered(clusters, hotkeys), hotkey) == Bound(clusters, hotkey)
  {
    if clusters != [] {
      SameBoundClusters(clusters[1..], hotkeys, hotkey);
      if HotkeyOf(clusters[0]) in hotkeys {
        assert ([clusters[0]] + Registered(clusters[1..], hotkeys))[1..] == Registered(clusters[1..], hotkeys);
      }
    }
  }

  function AlwaysZero(): nat -> real {
    j => 0.0
  }

  // ---- frozen evidence --------------------------------------------------------------------

  /** Every Ready claim of the node is older than fifteen minutes at this reading. */
  ghost predicate Frozen(node: Node, now: real) {
    forall c :: c in node.conditions && ClaimsReady(c) && Timestamp(c).Some? ==>
        now - Timestamp(c).value > READY_MAX_AGE_SECONDS
  }

  /**
   * A frozen node adds nothing for any miner, the staging exception included, at this reading and at every later one.
   */
  lemma FrozenCountsNothing(node: Node, now: real, later: real, tdxCounts: bool)
    requires Frozen(node, now) && now <= later
    ensures Counted(node, later, tdxCounts) == 0 && !IsReady(node, later)
  {
    ReadyMeansFreshClaim(node, later);
  }

  /** A node that counts at payout was Ready when the verdict was formed, and has eight GPUs or more. */
  lemma CountedWasReady(node: Node, validated: real, paid: real, tdxCounts: bool)
    requires validated <= paid && Counted(node, paid, tdxCounts) > 0
    ensures IsReady(node, validated) && node.schedulable && node.gpuClass.Some?
    ensures GpuCount(node.gpuCount) >= FULL_NODE_GPUS
    ensures tdxCounts || GpuNode(node)
  {
    ReadyAntitone(node, validated, paid);
  }

  /** A cluster whose nodes are all frozen when read yields an empty breakdown. */
  lemma {:induction false} FrozenClusterEmpty(nodes: seq<Node>, clock: nat -> real, tdxCounts: bool, klass: string)
    requires forall i :: 0 <= i < |nodes| ==> Frozen(nodes[i], clock(i))
    ensures ClassTotal(nodes, clock, tdxCounts, klass) == 0
  {
    if nodes != [] {
      var i := |nodes| - 1;
      FrozenClusterEmpty(nodes[..i], clock, tdxCounts, klass);
      FrozenCountsNothing(nodes[i], clock(i), clock(i), tdxCounts);
    }
  }

  /** Something is counted only if some node is Ready at its payout reading. */
  lemma {:induction false} CountedHasReadyNode(nodes: seq<Node>, clock: nat -> real, tdxCounts: bool, klass: string)
    requires ClassTotal(nodes, clock, tdxCounts, klass) > 0
    ensures exists i ::
              0 <= i < |nodes| && Counted(nodes[i], clock(i), tdxCounts) > 0 && nodes[i].gpuClass == Some(klass)
  {
    var i := |nodes| - 1;
    if nodes[i].gpuClass != Some(klass) || Counted(nodes[i], clock(i), tdxCounts) == 0 {
      CountedHasReadyNode(nodes[..i], clock, tdxCounts, klass);
      var j :| 0 <= j < i && Counted(nodes[..i][j], clock(j), tdxCounts) > 0 && nodes[..i][j].gpuClass == Some(klass);
      assert nodes[j] == nodes[..i][j];
    }
  }
}
