/** The readiness policy: which evidence counts as alive, and the verdict on a miner. */
module Readiness {
  import opened Prelude

  const READY_MAX_AGE_SECONDS := 900.0
  const MIN_CPU_CORES := 72.0
  const MIN_MEM_GIB := 1024.0

  /** One node condition, with its three time stamps (in seconds) as far as they parse. */
  datatype Condition = Condition(
    ready: bool,
    statusTrue: bool,
    heartbeat: Option<real>,
    update: Option<real>,
    transition: Option<real>)

  /** The GPU count label: absent, not an integer, or an integer. */
  datatype CountLabel = NoLabel | NotAnInteger | Labelled(n: int)

  /** A Rancher node reduced to what the policy and the payout read of it. */
  datatype Node = Node(
    conditions: seq<Condition>,
    schedulable: bool,
    etcd: bool,
    controlPlane: bool,
    worker: bool,
    cpuCores: real,
    memoryGib: real,
    gpuClass: Option<string>,
    vmPassthrough: bool,
    kataConfidential: bool,
    gpuCount: CountLabel,
    tdxCapable: bool)

  /** A Rancher cluster; each of its conditions as (is it Ready, is its status True). */
  datatype Cluster = Cluster(
    id: string,
    name: string,
    hotkeyLabel: string,
    hotkeyAlias: string,
    banned: bool,
    conditions: seq<(bool, bool)>)

  function HotkeyOf(c: Cluster): string {
    if c.hotkeyLabel != "" then c.hotkeyLabel else c.hotkeyAlias
  }

  function ClusterId(c: Cluster): string {
    if c.id != "" then c.id else c.name
  }

  // ---- freshness --------------------------------------------------------------------------

  /** Heartbeat beats update beats transition. */
  function Timestamp(c: Condition): Option<real> {
    if c.heartbeat.Some? then c.heartbeat
    else if c.update.Some? then c.update
    else c.transition
  }

  predicate ClaimsReady(c: Condition) {
    c.ready && c.statusTrue
  }

  /** The newest usable time stamp among the conditions that claim Ready. */
  function Newest(conditions: seq<Condition>): Option<real> {
    if conditions == [] then None
    else
      var rest := Newest(conditions[..|conditions| - 1]);
      var c := conditions[|conditions| - 1];
      if !ClaimsReady(c) || Timestamp(c).None? then rest
      else if rest.None? then Timestamp(c)
      else Some(Max(rest.value, Timestamp(c).value))
  }

  predicate HasReady(conditions: seq<Condition>) {
    exists i :: 0 <= i < |conditions| && ClaimsReady(conditions[i])
  }

  /** (claims Ready at all, age of the newest claim) at the clock reading `now`. */
  function ReadyConditionAge(node: Node, now: real): (bool, Option<real>) {
    if !HasReady(node.conditions) then (false, None)
    else
      match Newest(node.conditions)
      case None => (true, None)
      case Some(t) => (true, Some(now - t))
  }

  function IsReady(node: Node, now: real): bool {
    var (claims, age) := ReadyConditionAge(node, now);
    claims && age.Some? && age.value <= READY_MAX_AGE_SECONDS
  }

  function IsStale(node: Node, now: real): bool {
    var (claims, age) := ReadyConditionAge(node, now);
    claims && (age.None? || age.value > READY_MAX_AGE_SECONDS)
  }

  /** Some condition claims Ready with a time stamp no older than fifteen minutes. */
  ghost predicate FreshClaim(conditions: seq<Condition>, now: real) {
    exists c :: c in conditions && ClaimsReady(c) && Timestamp(c).Some?
        && now - Timestamp(c).value <= READY_MAX_AGE_SECONDS
  }

  lemma {:induction false} NewestIsNewest(conditions: seq<Condition>)
    ensures forall c :: c in conditions && ClaimsReady(c) && Timestamp(c).Some? ==>
              Newest(conditions).Some? && Timestamp(c).value <= Newest(conditions).value
    ensures Newest(conditions).Some? ==>
              exists c :: c in conditions && ClaimsReady(c) && Timestamp(c) == Newest(conditions)
  {
    if conditions != [] {
      var n := |conditions| - 1;
      var rest, c := conditions[..n], conditions[n];
      assert conditions == rest + [c];
      NewestIsNewest(rest);
      if Newest(conditions).Some? {
        if Newest(conditions) == Newest(rest) {
          var w :| w in rest && ClaimsReady(w) && Timestamp(w) == Newest(rest);
          assert w in conditions;
        } else {
          assert c in conditions && Timestamp(c) == Newest(conditions);
        }
      }
    }
  }

  /** Readiness, said without order, duplicates or maxima. */
  lemma ReadyMeansFreshClaim(node: Node, now: real)
    ensures IsReady(node, now) <==> FreshClaim(node.conditions, now)
  {
    NewestIsNewest(node.conditions);
    if FreshClaim(node.conditions, now) {
      var c :| c in node.conditions && ClaimsReady(c) && Timestamp(c).Some?
          && now - Timestamp(c).value <= READY_MAX_AGE_SECONDS;
      var i :| 0 <= i < |node.conditions| && node.conditions[i] == c;
      assert ClaimsReady(node.conditions[i]);
    }
    if IsReady(node, now) {
      var c :| c in node.conditions && ClaimsReady(c) && Timestamp(c) == Newest(node.conditions);
      assert now - Timestamp(c).value <= READY_MAX_AGE_SECONDS;
    }
  }

  /** A node that is Ready at some reading was Ready at every earlier one of the same snapshot. */
  lemma ReadyAntitone(node: Node, earlier: real, later: real)
    requires earlier <= later && IsReady(node, later)
    ensures IsReady(node, earlier)
  {
  }

  /** Order and repetition of conditions are irrelevant. */
  lemma ReadyOrderFree(node: Node, conditions: seq<Condition>, now: real)
    requires forall c :: c in node.conditions <==> c in conditions
    ensures IsReady(node, now) <==> IsReady(node.(conditions := conditions), now)
  {
    ReadyMeansFreshClaim(node, now);
    ReadyMeansFreshClaim(node.(conditions := conditions), now);
  }

  /** A further copy that is older than the newest claim, or carries no time stamp, changes nothing. */
  lemma OlderCopyIgnored(node: Node, copy: Condition, i: nat, now: real)
    requires i <= |node.conditions|
    requires ClaimsReady(copy) && Timestamp(copy).Some? ==>
               Newest(node.conditions).Some? && Timestamp(copy).value <= Newest(node.conditions).value
    ensures IsReady(node.(conditions := node.conditions[..i] + [copy] + node.conditions[i..]), now)
         <==> IsReady(node, now)
  {
    var more := node.(conditions := node.conditions[..i] + [copy] + node.conditions[i..]);
    ReadyMeansFreshClaim(node, now);
    ReadyMeansFreshClaim(more, now);
    NewestIsNewest(node.conditions);
    assert node.conditions == node.conditions[..i] + node.conditions[i..];
    assert forall c :: c in more.conditions <==> c in node.conditions || c == copy;
    if Newest(node.conditions).Some? {
      var w :| w in node.conditions && ClaimsReady(w) && Timestamp(w) == Newest(node.conditions);
    }
  }

  // ---- the verdict ------------------------------------------------------------------------

  /** The first Ready condition decides; without one the cluster counts as healthy. */
  function Healthy(conditions: seq<(bool, bool)>): bool {
    if conditions == [] then true
    else if conditions[0].0 then conditions[0].1
    else Healthy(conditions[1..])
  }

  /** The clusters labelled with a hotkey, in order. */
  function Bound(clusters: seq<Cluster>, hotkey: string): seq<Cluster> {
    if clusters == [] then []
    else if HotkeyOf(clusters[0]) == hotkey then [clusters[0]] + Bound(clusters[1..], hotkey)
    else Bound(clusters[1..], hotkey)
  }

  datatype Reason =
    | NoCluster
    | Ambiguous
    | Banned
    | Unhealthy
    | NoReadyNodes(stale: bool)
    | NoEtcd
    | NoControlPlane
    | CpuTooSmall
    | MemoryTooSmall
    | NoSchedulableWorker
    | NoGpuNode

  /** Some node read by its own clock tick is Ready and satisfies `p`. */
  ghost predicate SomeActive(nodes: seq<Node>, clock: nat -> real, p: Node -> bool) {
    exists i :: 0 <= i < |nodes| && IsReady(nodes[i], clock(i)) && p(nodes[i])
  }

  predicate AnyNode(n: Node) {
    true
  }

  predicate EtcdNode(n: Node) {
    n.etcd
  }

  predicate ControlPlaneNode(n: Node) {
    n.controlPlane
  }

  predicate SmallCpuNode(n: Node) {
    n.cpuCores < MIN_CPU_CORES
  }

  predicate SmallMemoryNode(n: Node) {
    n.memoryGib < MIN_MEM_GIB
  }

  predicate SchedulableWorker(n: Node) {
    n.worker && n.schedulable
  }

  predicate GpuNode(n: Node) {
    n.schedulable && n.vmPassthrough && n.kataConfidential && n.gpuClass.Some?
  }

  /** When a reason stands against a miner whose first bound cluster has these nodes. */
  ghost predicate Fails(r: Reason, bound: seq<Cluster>, nodes: seq<Node>, clock: nat -> real) {
    if bound == [] then r == NoCluster
    else
      match r
      case NoCluster => false
      case Ambiguous => |bound| > 1
      case Banned => bound[0].banned
      case Unhealthy => !Healthy(bound[0].conditions)
      case NoReadyNodes(stale) =>
        && !SomeActive(nodes, clock, AnyNode)
        && (stale <==> exists i :: 0 <= i < |nodes| && IsStale(nodes[i], clock(i)))
      case NoEtcd => !SomeActive(nodes, clock, EtcdNode)
      case NoControlPlane => !SomeActive(nodes, clock, ControlPlaneNode)
      case CpuTooSmall => SomeActive(nodes, clock, SmallCpuNode)
      case MemoryTooSmall => SomeActive(nodes, clock, SmallMemoryNode)
      case NoSchedulableWorker => !SomeActive(nodes, clock, SchedulableWorker)
      case NoGpuNode => !SomeActive(nodes, clock, GpuNode)
  }

  /** The doc contract as one condition. */
  ghost predicate Eligible(bound: seq<Cluster>, nodes: seq<Node>, clock: nat -> real) {
    && |bound| == 1 && !bound[0].banned && Healthy(bound[0].conditions)
    && SomeActive(nodes, clock, EtcdNode)
    && SomeActive(nodes, clock, ControlPlaneNode)
    && SomeActive(nodes, clock, SchedulableWorker)
    && SomeActive(nodes, clock, GpuNode)
    && forall i :: 0 <= i < |nodes| && IsReady(nodes[i], clock(i)) ==>
         nodes[i].cpuCores >= MIN_CPU_CORES && nodes[i].memoryGib >= MIN_MEM_GIB
  }

  lemma ActiveNodes(nodes: seq<Node>, clock: nat -> real)
    ensures !SomeActive(nodes, clock, SmallCpuNode) && !SomeActive(nodes, clock, SmallMemoryNode)
       <==> forall i :: 0 <= i < |nodes| && IsReady(nodes[i], clock(i)) ==>
              nodes[i].cpuCores >= MIN_CPU_CORES && nodes[i].memoryGib >= MIN_MEM_GIB
    ensures SomeActive(nodes, clock, EtcdNode) ==> SomeActive(nodes, clock, AnyNode)
  {
    hide IsReady;
    forall i | 0 <= i < |nodes| && IsReady(nodes[i], clock(i))
      ensures SmallCpuNode(nodes[i]) ==> SomeActive(nodes, clock, SmallCpuNode)
      ensures SmallMemoryNode(nodes[i]) ==> SomeActive(nodes, clock, SmallMemoryNode)
    {
    }
    if SomeActive(nodes, clock, EtcdNode) {
      var i :| 0 <= i < |nodes| && IsReady(nodes[i], clock(i)) && EtcdNode(nodes[i]);
      assert AnyNode(nodes[i]);
    }
  }

  lemma EligibleIsNoReason(bound: seq<Cluster>, nodes: seq<Node>, clock: nat -> real)
    ensures Eligible(bound, nodes, clock) <==> forall r :: !Fails(r, bound, nodes, clock)
  {
    ActiveNodes(nodes, clock);
    hide SomeActive, IsReady, IsStale, Healthy;
    if forall r :: !Fails(r, bound, nodes, clock) {
      assert !Fails(NoCluster, bound, nodes, clock) && !Fails(Ambiguous, bound, nodes, clock);
      assert !Fails(Banned, bound, nodes, clock) && !Fails(Unhealthy, bound, nodes, clock);
      assert !Fails(NoEtcd, bound, nodes, clock) && !Fails(NoControlPlane, bound, nodes, clock);
      assert !Fails(CpuTooSmall, bound, nodes, clock) && !Fails(MemoryTooSmall, bound, nodes, clock);
      assert !Fails(NoSchedulableWorker, bound, nodes, clock) && !Fails(NoGpuNode, bound, nodes, clock);
    }
  }

  method SomeNode(nodes: seq<Node>, clock: nat -> real, p: Node -> bool) returns (found: bool)
    ensures found <==> SomeActive(nodes, clock, p)
  {
    found := false;
    for i := 0 to |nodes|
      invariant found <==> exists j :: 0 <= j < i && IsReady(nodes[j], clock(j)) && p(nodes[j])
    {
      if IsReady(nodes[i], clock(i)) && p(nodes[i]) {
        found := true;
      }
    }
  }

  method SomeStale(nodes: seq<Node>, clock: nat -> real) returns (found: bool)
    ensures found <==> exists i :: 0 <= i < |nodes| && IsStale(nodes[i], clock(i))
  {
    found := false;
    for i := 0 to |nodes|
      invariant found <==> exists j :: 0 <= j < i && IsStale(nodes[j], clock(j))
    {
      if IsStale(nodes[i], clock(i)) {
        found := true;
      }
    }
  }

  /** The verdict carries exactly the reasons that stand, and is ready when there is none. */
  method ValidateMiner(hotkey: string, clusters: seq<Cluster>, nodesByCluster: map<string, seq<Node>>,
                       clock: nat -> real)
    returns (ready: bool, reasons: seq<Reason>)
    ensures var bound := Bound(clusters, hotkey);
            var nodes := if bound == [] then [] else Get(nodesByCluster, ClusterId(bound[0]), []);
            && (forall r :: r in reasons <==> Fails(r, bound, nodes, clock))
            && (ready <==> Eligible(bound, nodes, clock))
  {
    reasons := [];
    var bound := Bound(clusters, hotkey);
    if bound == [] {
      return false, [NoCluster];
    }
    if |bound| > 1 {
      reasons := reasons + [Ambiguous];
    }
    var cluster := bound[0];
    if cluster.banned {
      reasons := reasons + [Banned];
    }
    var nodes := Get(nodesByCluster, ClusterId(cluster), []);
    if !Healthy(cluster.conditions) {
      reasons := reasons + [Unhealthy];
    }
    ghost var head := reasons;
    assert forall r :: r in head <==>
      || (r == Ambiguous && |bound| > 1) || (r == Banned && cluster.banned)
      || (r == Unhealthy && !Healthy(cluster.conditions));
    var evidence := NodeReasons(nodes, clock);
    reasons := reasons + evidence;
    ready := reasons == [];
    assert forall r :: r in reasons <==> Fails(r, bound, nodes, clock) by {
      hide SomeActive, IsStale, Healthy;
    }
    EligibleIsNoReason(bound, nodes, clock);
    if reasons != [] {
      assert reasons[0] in reasons;
    }
  }

  /** The reasons that come from the nodes. */
  ghost predicate NodeFails(r: Reason, nodes: seq<Node>, clock: nat -> real) {
    && !r.NoCluster? && !r.Ambiguous? && !r.Banned? && !r.Unhealthy?
    && Fails(r, [Cluster("", "", "", "", false, [])], nodes, clock)
  }

  /** `if c: reasons.append(r)` */
  function When(c: bool, r: Reason): (rs: seq<Reason>)
    ensures forall x :: x in rs <==> c && x == r
  {
    if c then [r] else []
  }

  lemma InBoth(a: seq<Reason>, b: seq<Reason>)
    ensures forall x :: x in a + b <==> x in a || x in b
  {
  }

  /** What the active nodes show. */
  datatype Signs = Signs(active: bool, stale: bool, etcd: bool, controlPlane: bool, smallCpu: bool, smallMemory: bool,
                         worker: bool, gpu: bool)

  predicate Stands(r: Reason, s: Signs) {
    match r
    case NoReadyNodes(stale) => !s.active && stale == s.stale
    case NoEtcd => !s.etcd
    case NoControlPlane => !s.controlPlane
    case CpuTooSmall => s.smallCpu
    case MemoryTooSmall => s.smallMemory
    case NoSchedulableWorker => !s.worker
    case NoGpuNode => !s.gpu
    case _ => false
  }

  method ReasonsOf(s: Signs) returns (reasons: seq<Reason>)
    ensures forall r :: r in reasons <==> Stands(r, s)
  {
    var roles := When(!s.etcd, NoEtcd) + When(!s.controlPlane, NoControlPlane);
    InBoth(When(!s.etcd, NoEtcd), When(!s.controlPlane, NoControlPlane));
    var size := When(s.smallCpu, CpuTooSmall) + When(s.smallMemory, MemoryTooSmall);
    InBoth(When(s.smallCpu, CpuTooSmall), When(s.smallMemory, MemoryTooSmall));
    var gpus := When(!s.worker, NoSchedulableWorker) + When(!s.gpu, NoGpuNode);
    InBoth(When(!s.worker, NoSchedulableWorker), When(!s.gpu, NoGpuNode));
    hide When;
    var head := When(!s.active, NoReadyNodes(s.stale)) + roles;
    InBoth(When(!s.active, NoReadyNodes(s.stale)), roles);
    var tail := size + gpus;
    InBoth(size, gpus);
    reasons := head + tail;
    InBoth(head, tail);
  }

  method NodeReasons(nodes: seq<Node>, clock: nat -> real) returns (reasons: seq<Reason>)
    ensures forall r :: r in reasons <==> NodeFails(r, nodes, clock)
  {
    var active := SomeNode(nodes, clock, AnyNode);
    var stale := SomeStale(nodes, clock);
    var etcd := SomeNode(nodes, clock, EtcdNode);
    var controlPlane := SomeNode(nodes, clock, ControlPlaneNode);
    var smallCpu := SomeNode(nodes, clock, SmallCpuNode);
    var smallMemory := SomeNode(nodes, clock, SmallMemoryNode);
    var worker := SomeNode(nodes, clock, SchedulableWorker);
    var gpu := SomeNode(nodes, clock, GpuNode);
    hide SomeActive, IsStale;
    var signs := Signs(active, stale, etcd, controlPlane, smallCpu, smallMemory, worker, gpu);
    reasons := ReasonsOf(signs);
    forall r ensures Stands(r, signs) <==> NodeFails(r, nodes, clock) {
    }
  }
}
