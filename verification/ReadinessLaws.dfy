/**
 Verdict and inventory over what Rancher returned: the three time stamps, the labels, the sizes and the counts
 themselves, with none of the policy's own vocabulary in between.
 */
module ReadinessLaws {
  import opened Inventory
  import opened Prelude
  import opened Readiness

  // ---- freshness --------------------------------------------------------------------------

  /** The condition's first time stamp that parses, in the order heartbeat, update, transition, is young enough. */
  ghost predicate Recent(c: Condition, now: real) {
    || (c.heartbeat.Some? && now - c.heartbeat.value <= 900.0)
    || (c.heartbeat == None && c.update.Some? && now - c.update.value <= 900.0)
    || (c.heartbeat == None && c.update == None && c.transition.Some? && now - c.transition.value <= 900.0)
  }

  /** The node is alive at this clock reading. */
  ghost predicate Alive(node: Node, now: real) {
    exists c :: c in node.conditions && c.ready && c.statusTrue && Recent(c, now)
  }

  lemma ReadyIff(node: Node, now: real)
    ensures IsReady(node, now) <==> Alive(node, now)
  {
    ReadyMeansFreshClaim(node, now);
    if Alive(node, now) {
      var c :| c in node.conditions && c.ready && c.statusTrue && Recent(c, now);
      assert ClaimsReady(c) && now - Timestamp(c).value <= READY_MAX_AGE_SECONDS;
    }
    if FreshClaim(node.conditions, now) {
      var c :| c in node.conditions && ClaimsReady(c) && Timestamp(c).Some?
          && now - Timestamp(c).value <= READY_MAX_AGE_SECONDS;
      assert Recent(c, now);
    }
  }

  /** A node is stale exactly if some condition says Ready and none of those is young enough. */
  lemma StaleIff(node: Node, now: real)
    ensures IsStale(node, now) <==>
              (exists c :: c in node.conditions && c.ready && c.statusTrue) && !Alive(node, now)
  {
    ReadyIff(node, now);
    hide Alive, Newest;
    if c :| c in node.conditions && c.ready && c.statusTrue {
      var i :| 0 <= i < |node.conditions| && node.conditions[i] == c;
      assert ClaimsReady(node.conditions[i]);
    } else {
      assert !HasReady(node.conditions);
    }
  }

  /** With a heartbeat in a condition its other two time stamps are never looked at. */
  lemma HeartbeatDecides(node: Node, i: nat, update: Option<real>, transition: Option<real>, now: real)
    requires i < |node.conditions| && node.conditions[i].heartbeat.Some?
    ensures var c := node.conditions[i].(update := update, transition := transition);
            var other := node.(conditions := node.conditions[i := c]);
            (IsReady(other, now) <==> IsReady(node, now)) && (IsStale(other, now) <==> IsStale(node, now))
  {
    var c := node.conditions[i].(update := update, transition := transition);
    var other := node.(conditions := node.conditions[i := c]);
    SameAlive(node, other, i, now);
    SameAlive(other, node, i, now);
    ReadyIff(node, now);
    ReadyIff(other, now);
    StaleIff(node, now);
    StaleIff(other, now);
    hide Alive, IsReady, IsStale;
  }

  lemma SameAlive(a: Node, b: Node, i: nat, now: real)
    requires |a.conditions| == |b.conditions| && i < |a.conditions|
    requires a.conditions[i].heartbeat.Some? && a.conditions[i].heartbeat == b.conditions[i].heartbeat
    requires a.conditions[i].ready == b.conditions[i].ready && a.conditions[i].statusTrue == b.conditions[i].statusTrue
    requires forall j :: 0 <= j < |a.conditions| && j != i ==> a.conditions[j] == b.conditions[j]
    ensures Alive(a, now) ==> Alive(b, now)
    ensures (exists c :: c in a.conditions && c.ready && c.statusTrue) ==>
              exists c :: c in b.conditions && c.ready && c.statusTrue
  {
    if c :| c in a.conditions && c.ready && c.statusTrue && Recent(c, now) {
      var j :| 0 <= j < |a.conditions| && a.conditions[j] == c;
      assert b.conditions[j] in b.conditions && Recent(b.conditions[j], now);
    }
    if c :| c in a.conditions && c.ready && c.statusTrue {
      var j :| 0 <= j < |a.conditions| && a.conditions[j] == c;
      assert b.conditions[j] in b.conditions;
    }
  }

  /** The two copies of Ready every node carries, the old one with its registration time only. */
  function TwoCopies(node: Node, now: real, heartbeatAge: real): Node {
    node.(conditions := [Condition(true, true, None, None, Some(now - 432000.0)),
                         Condition(true, true, Some(now - heartbeatAge), None, Some(now - 432000.0))])
  }

  /** A heartbeat of 30 seconds makes the node ready whatever the old transitions say; one of an hour, stale. */
  lemma TwoCopiesWitness(node: Node, now: real)
    ensures IsReady(TwoCopies(node, now, 30.0), now) && !IsStale(TwoCopies(node, now, 30.0), now)
    ensures !IsReady(TwoCopies(node, now, 3600.0), now) && IsStale(TwoCopies(node, now, 3600.0), now)
  {
    var live, dead := TwoCopies(node, now, 30.0), TwoCopies(node, now, 3600.0);
    ReadyIff(live, now);
    StaleIff(live, now);
    ReadyIff(dead, now);
    StaleIff(dead, now);
    hide IsReady, IsStale;
    assert live.conditions[1] in live.conditions && Recent(live.conditions[1], now);
    assert dead.conditions[1] in dead.conditions;
  }

  // ---- whose cluster it is ----------------------------------------------------------------

  /** The cluster is labelled with the hotkey, or has no such label and carries it under the older name. */
  ghost predicate Carries(c: Cluster, hotkey: string) {
    (c.hotkeyLabel != "" && c.hotkeyLabel == hotkey) || (c.hotkeyLabel == "" && c.hotkeyAlias == hotkey)
  }

  /** The `i`-th cluster is the first to carry the hotkey. */
  ghost predicate FirstCarrier(clusters: seq<Cluster>, hotkey: string, i: nat) {
    && i < |clusters| && Carries(clusters[i], hotkey)
    && forall j :: 0 <= j < i ==> !Carries(clusters[j], hotkey)
  }

  /** Some cluster carries the hotkey. */
  ghost predicate Carried(clusters: seq<Cluster>, hotkey: string) {
    exists i :: 0 <= i < |clusters| && Carries(clusters[i], hotkey)
  }

  /** Two clusters carry it. */
  ghost predicate CarriedTwice(clusters: seq<Cluster>, hotkey: string) {
    exists i, j :: 0 <= i < j < |clusters| && Carries(clusters[i], hotkey) && Carries(clusters[j], hotkey)
  }

  lemma CarriersStep(clusters: seq<Cluster>, hotkey: string)
    requires clusters != []
    ensures Carried(clusters, hotkey) <==> Carries(clusters[0], hotkey) || Carried(clusters[1..], hotkey)
    ensures CarriedTwice(clusters, hotkey) <==>
              (Carries(clusters[0], hotkey) && Carried(clusters[1..], hotkey)) || CarriedTwice(clusters[1..], hotkey)
  {
    hide Carries;
    var rest := clusters[1..];
    assert forall i :: 0 < i < |clusters| ==> clusters[i] == rest[i - 1];
    if j :| 0 <= j < |rest| && Carries(rest[j], hotkey) {
      assert Carries(clusters[j + 1], hotkey);
    }
    if i, j :| 0 <= i < j < |rest| && Carries(rest[i], hotkey) && Carries(rest[j], hotkey) {
      assert Carries(clusters[i + 1], hotkey) && Carries(clusters[j + 1], hotkey);
    }
  }

  lemma CarriesIff(c: Cluster, hotkey: string)
    ensures Carries(c, hotkey) <==> HotkeyOf(c) == hotkey
  {
  }

  /** The list of a hotkey is empty, a single cluster, or longer, as the clusters that carry it are. */
  lemma {:induction false} BoundIff(clusters: seq<Cluster>, hotkey: string)
    ensures Bound(clusters, hotkey) != [] <==> Carried(clusters, hotkey)
    ensures |Bound(clusters, hotkey)| > 1 <==> CarriedTwice(clusters, hotkey)
  {
    hide Carried, CarriedTwice, Carries, HotkeyOf;
    if clusters == [] {
      NobodyCarries(hotkey);
    } else {
      BoundIff(clusters[1..], hotkey);
      CarriersStep(clusters, hotkey);
      CarriesIff(clusters[0], hotkey);
    }
  }

  lemma NobodyCarries(hotkey: string)
    ensures !Carried([], hotkey) && !CarriedTwice([], hotkey)
  {
  }

  /** It starts with the first that carries it. */
  lemma {:induction false} BoundStarts(clusters: seq<Cluster>, hotkey: string, i: nat)
    requires FirstCarrier(clusters, hotkey, i)
    ensures Bound(clusters, hotkey) != [] && Bound(clusters, hotkey)[0] == clusters[i]
  {
    CarriesIff(clusters[0], hotkey);
    hide HotkeyOf, Carries;
    if i > 0 {
      BoundStarts(clusters[1..], hotkey, i - 1);
    }
  }

  /** The nodes looked up for a hotkey: those under the id of its first cluster, or under its name if it has no id. */
  lemma NodesIff(clusters: seq<Cluster>, nodesByCluster: map<string, seq<Node>>, hotkey: string, i: nat, key: string)
    requires FirstCarrier(clusters, hotkey, i)
    requires (clusters[i].id != "" && key == clusters[i].id) || (clusters[i].id == "" && key == clusters[i].name)
    ensures NodesOf(clusters, nodesByCluster, hotkey) == if key in nodesByCluster then nodesByCluster[key] else []
  {
    BoundStarts(clusters, hotkey, i);
  }

  // ---- the cluster's own health -----------------------------------------------------------

  /** There is a Ready condition and the first one is not True. */
  ghost predicate FirstReadyIsFalse(conditions: seq<(bool, bool)>) {
    exists i :: && 0 <= i < |conditions| && conditions[i].0 && !conditions[i].1
                && forall j :: 0 <= j < i ==> !conditions[j].0
  }

  /** Exactly then the cluster fails. */
  lemma {:induction false} HealthyIff(conditions: seq<(bool, bool)>)
    ensures !Healthy(conditions) <==> FirstReadyIsFalse(conditions)
  {
    if conditions != [] && !conditions[0].0 {
      var rest := conditions[1..];
      HealthyIff(rest);
      if i :| 0 <= i < |rest| && rest[i].0 && !rest[i].1 && forall j :: 0 <= j < i ==> !rest[j].0 {
        assert forall j :: 0 <= j < i + 1 ==> !conditions[j].0 by {
          assert forall j :: 0 < j < i + 1 ==> conditions[j] == rest[j - 1];
        }
        assert conditions[i + 1] == rest[i];
      }
      if i :| && 0 <= i < |conditions| && conditions[i].0 && !conditions[i].1
              && forall j :: 0 <= j < i ==> !conditions[j].0 {
        assert rest[i - 1] == conditions[i];
        assert forall j :: 0 <= j < i - 1 ==> !rest[j].0;
      }
    }
  }

  // ---- the verdict ------------------------------------------------------------------------

  /** Some node is alive at its own clock tick, and has these of the five properties that are asked for. */
  ghost predicate Shows(nodes: seq<Node>, clock: nat -> real, etcd: bool, controlPlane: bool, worker: bool, gpu: bool) {
    exists i :: && 0 <= i < |nodes| && Alive(nodes[i], clock(i))
                && (etcd ==> nodes[i].etcd) && (controlPlane ==> nodes[i].controlPlane)
                && (worker ==> nodes[i].worker && nodes[i].schedulable)
                && (gpu ==> && nodes[i].schedulable && nodes[i].gpuClass.Some?
                            && nodes[i].vmPassthrough && nodes[i].kataConfidential)
  }

  /** Some node is alive at its own clock tick and has less than 72 cores, or less than 1024 GiB. */
  ghost predicate ShowsLess(nodes: seq<Node>, clock: nat -> real, cores: bool) {
    exists i :: && 0 <= i < |nodes| && Alive(nodes[i], clock(i))
                && if cores then nodes[i].cpuCores < 72.0 else nodes[i].memoryGib < 1024.0
  }

  lemma ActiveIff(nodes: seq<Node>, clock: nat -> real)
    ensures SomeActive(nodes, clock, AnyNode) <==> Shows(nodes, clock, false, false, false, false)
    ensures SomeActive(nodes, clock, EtcdNode) <==> Shows(nodes, clock, true, false, false, false)
    ensures SomeActive(nodes, clock, ControlPlaneNode) <==> Shows(nodes, clock, false, true, false, false)
    ensures SomeActive(nodes, clock, SchedulableWorker) <==> Shows(nodes, clock, false, false, true, false)
    ensures SomeActive(nodes, clock, GpuNode) <==> Shows(nodes, clock, false, false, false, true)
  {
    hide IsReady, Alive;
    forall i | 0 <= i < |nodes| ensures IsReady(nodes[i], clock(i)) <==> Alive(nodes[i], clock(i)) {
      ReadyIff(nodes[i], clock(i));
    }
  }

  lemma SizeIff(nodes: seq<Node>, clock: nat -> real)
    ensures SomeActive(nodes, clock, SmallCpuNode) <==> ShowsLess(nodes, clock, true)
    ensures SomeActive(nodes, clock, SmallMemoryNode) <==> ShowsLess(nodes, clock, false)
  {
    hide IsReady, Alive;
    forall i | 0 <= i < |nodes| ensures IsReady(nodes[i], clock(i)) <==> Alive(nodes[i], clock(i)) {
      ReadyIff(nodes[i], clock(i));
    }
  }

  /** What stands against a miner whose first cluster has these nodes. */
  ghost predicate Objection(r: Reason, bound: seq<Cluster>, nodes: seq<Node>, clock: nat -> real) {
    match r
    case NoCluster => bound == []
    case Ambiguous => |bound| > 1
    case Banned => bound != [] && bound[0].banned
    case Unhealthy => bound != [] && FirstReadyIsFalse(bound[0].conditions)
    case NoReadyNodes(stale) =>
      && bound != [] && !Shows(nodes, clock, false, false, false, false)
      && (stale <==> SaysReady(nodes))
    case NoEtcd => bound != [] && !Shows(nodes, clock, true, false, false, false)
    case NoControlPlane => bound != [] && !Shows(nodes, clock, false, true, false, false)
    case CpuTooSmall => bound != [] && ShowsLess(nodes, clock, true)
    case MemoryTooSmall => bound != [] && ShowsLess(nodes, clock, false)
    case NoSchedulableWorker => bound != [] && !Shows(nodes, clock, false, false, true, false)
    case NoGpuNode => bound != [] && !Shows(nodes, clock, false, false, false, true)
  }

  /** Some node has a condition that says Ready. */
  ghost predicate SaysReady(nodes: seq<Node>) {
    exists i, c :: 0 <= i < |nodes| && c in nodes[i].conditions && c.ready && c.statusTrue
  }

  lemma StaleAmong(nodes: seq<Node>, clock: nat -> real)
    requires !Shows(nodes, clock, false, false, false, false)
    ensures (exists i :: 0 <= i < |nodes| && IsStale(nodes[i], clock(i))) <==> SaysReady(nodes)
  {
    forall i | 0 <= i < |nodes|
      ensures IsStale(nodes[i], clock(i)) <==> exists c :: c in nodes[i].conditions && c.ready && c.statusTrue
    {
      StaleIff(nodes[i], clock(i));
      hide Alive, IsStale;
    }
    hide IsStale;
    if i, c :| 0 <= i < |nodes| && c in nodes[i].conditions && c.ready && c.statusTrue {
      assert IsStale(nodes[i], clock(i));
    }
  }

  /** The reasons of a verdict are exactly the objections. */
  lemma ObjectionIff(r: Reason, bound: seq<Cluster>, nodes: seq<Node>, clock: nat -> real)
    ensures Fails(r, bound, nodes, clock) <==> Objection(r, bound, nodes, clock)
  {
    hide SomeActive, Shows, ShowsLess, SaysReady, IsStale, Healthy, FirstReadyIsFalse;
    ActiveIff(nodes, clock);
    SizeIff(nodes, clock);
    if bound != [] {
      HealthyIff(bound[0].conditions);
    }
    if !Shows(nodes, clock, false, false, false, false) {
      StaleAmong(nodes, clock);
    }
  }

  lemma BigEnough(nodes: seq<Node>, clock: nat -> real)
    ensures (forall i :: 0 <= i < |nodes| && IsReady(nodes[i], clock(i)) ==>
               nodes[i].cpuCores >= MIN_CPU_CORES && nodes[i].memoryGib >= MIN_MEM_GIB)
       <==> forall i :: 0 <= i < |nodes| && Alive(nodes[i], clock(i)) ==>
              nodes[i].cpuCores >= 72.0 && nodes[i].memoryGib >= 1024.0
  {
    hide IsReady, Alive;
    forall i | 0 <= i < |nodes| ensures IsReady(nodes[i], clock(i)) <==> Alive(nodes[i], clock(i)) {
      ReadyIff(nodes[i], clock(i));
    }
  }

  /**
   * The whole contract of a ready miner: one cluster carries its hotkey, not banned and not reported unhealthy; among
   * the nodes that are alive one is etcd, one is control plane, one a schedulable worker and one a schedulable
   * confidential GPU node; and every one of them has at least 72 cores and 1024 GiB.
   */
  lemma EligibleIff(bound: seq<Cluster>, nodes: seq<Node>, clock: nat -> real)
    ensures Eligible(bound, nodes, clock) <==>
              && |bound| == 1 && !bound[0].banned && !FirstReadyIsFalse(bound[0].conditions)
              && Shows(nodes, clock, true, false, false, false) && Shows(nodes, clock, false, true, false, false)
              && Shows(nodes, clock, false, false, true, false) && Shows(nodes, clock, false, false, false, true)
              && forall i :: 0 <= i < |nodes| && Alive(nodes[i], clock(i)) ==>
                   nodes[i].cpuCores >= 72.0 && nodes[i].memoryGib >= 1024.0
  {
    hide SomeActive, Shows, Alive, IsReady, Healthy, FirstReadyIsFalse;
    ActiveIff(nodes, clock);
    BigEnough(nodes, clock);
    if bound != [] {
      HealthyIff(bound[0].conditions);
    }
  }

  // ---- the inventory ----------------------------------------------------------------------

  /** The count a node is taken for: eight where the label is missing, else the label. */
  ghost predicate SaysCount(node: Node, n: int) {
    (node.gpuCount == NoLabel && n == 8) || node.gpuCount == CountLabel.Labelled(n)
  }

  /**
   * A node adds `n` GPUs exactly if it says so, `n` is eight or more, it is alive, schedulable and of a class, and it
   * is confidential, or merely capable of it for the staging miner; in every other case it adds none.
   */
  lemma CountedIff(node: Node, now: real, tdxCounts: bool, n: int)
    ensures Counted(node, now, tdxCounts) == n && n > 0 <==>
              && SaysCount(node, n) && n >= 8
              && Alive(node, now) && node.schedulable && node.gpuClass.Some?
              && ((node.vmPassthrough && node.kataConfidential) || (tdxCounts && node.tdxCapable))
  {
    ReadyIff(node, now);
    hide Alive, IsReady;
  }

  /** The total of a class is what the counted nodes of that class add, one by one. */
  lemma TotalOfOneMore(nodes: seq<Node>, node: Node, clock: nat -> real, tdxCounts: bool, klass: string)
    ensures ClassTotal([], clock, tdxCounts, klass) == 0
    ensures ClassTotal(nodes + [node], clock, tdxCounts, klass) - ClassTotal(nodes, clock, tdxCounts, klass)
         == if node.gpuClass == Some(klass) then Counted(node, clock(|nodes|), tdxCounts) else 0
  {
    hide Counted;
    assert (nodes + [node])[..|nodes|] == nodes;
  }
}
