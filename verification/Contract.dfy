/** The verdict against the written eligibility contract, whose last line asks for a worker with eight GPUs. */
module Contract {
  import opened Inventory
  import opened Prelude
  import opened Readiness

  /** A schedulable confidential worker with eight GPUs of one of the four named classes. */
  predicate GpuWorker(n: Node) {
    && n.worker && GpuNode(n) && GpuCount(n.gpuCount) >= FULL_NODE_GPUS
    && n.gpuClass.value in ["H100", "H200", "B200", "B300"]
  }

  predicate BigNode(n: Node) {
    n.cpuCores >= MIN_CPU_CORES && n.memoryGib >= MIN_MEM_GIB
  }

  /** The contract is the verdict's condition with the GPU worker it names. */
  ghost predicate Promised(bound: seq<Cluster>, nodes: seq<Node>, clock: nat -> real) {
    Eligible(bound, nodes, clock) && SomeActive(nodes, clock, GpuWorker)
  }

  /** The same nodes with other conditions: another pattern of which of them are alive. */
  function WithConditions(nodes: seq<Node>, conditions: nat -> seq<Condition>): (r: seq<Node>)
    ensures |r| == |nodes| && forall i :: 0 <= i < |nodes| ==> r[i] == nodes[i].(conditions := conditions(i))
  {
    seq(|nodes|, i requires 0 <= i < |nodes| => nodes[i].(conditions := conditions(i)))
  }

  /** `p` looks at labels and sizes, not at conditions. */
  ghost predicate LabelsOnly(p: Node -> bool) {
    forall n: Node, cs :: p(n.(conditions := cs)) == p(n)
  }

  lemma RolesAreLabels()
    ensures LabelsOnly(EtcdNode) && LabelsOnly(ControlPlaneNode) && LabelsOnly(SchedulableWorker) && LabelsOnly(GpuNode)
  {
  }

  /** Some node that is big enough, but not the promised GPU worker, satisfies `p`. */
  ghost predicate SomeOther(nodes: seq<Node>, p: Node -> bool) {
    exists i :: 0 <= i < |nodes| && BigNode(nodes[i]) && !GpuWorker(nodes[i]) && p(nodes[i])
  }

  /** Nodes that are not the promised worker pass the verdict among themselves. */
  ghost predicate OthersSuffice(bound: seq<Cluster>, nodes: seq<Node>) {
    && |bound| == 1 && !bound[0].banned && Healthy(bound[0].conditions)
    && SomeOther(nodes, EtcdNode) && SomeOther(nodes, ControlPlaneNode)
    && SomeOther(nodes, SchedulableWorker) && SomeOther(nodes, GpuNode)
  }

  ghost predicate KeepsPromise(bound: seq<Cluster>, nodes: seq<Node>, conditions: nat -> seq<Condition>,
                               clock: nat -> real)
  {
    Eligible(bound, WithConditions(nodes, conditions), clock) ==>
        Promised(bound, WithConditions(nodes, conditions), clock)
  }

  lemma ActiveOther(nodes: seq<Node>, conditions: nat -> seq<Condition>, clock: nat -> real, p: Node -> bool)
    requires LabelsOnly(p)
    requires SomeActive(WithConditions(nodes, conditions), clock, p)
    requires !SomeActive(WithConditions(nodes, conditions), clock, GpuWorker)
    requires !SomeActive(WithConditions(nodes, conditions), clock, SmallCpuNode)
    requires !SomeActive(WithConditions(nodes, conditions), clock, SmallMemoryNode)
    ensures SomeOther(nodes, p)
  {
    var after := WithConditions(nodes, conditions);
    var i :| 0 <= i < |after| && IsReady(after[i], clock(i)) && p(after[i]);
    assert !GpuWorker(after[i]) && !SmallCpuNode(after[i]) && !SmallMemoryNode(after[i]);
    assert after[i] == nodes[i].(conditions := conditions(i));
    assert BigNode(nodes[i]) && !GpuWorker(nodes[i]) && p(nodes[i]);
  }

  const FRESH := Condition(true, true, Some(0.0), None, None)

  /** Exactly the others are alive. */
  function OthersAlive(nodes: seq<Node>): nat -> seq<Condition> {
    (i: nat) => if i < |nodes| && BigNode(nodes[i]) && !GpuWorker(nodes[i]) then [FRESH] else []
  }

  lemma OthersReady(nodes: seq<Node>, i: nat)
    requires i < |nodes|
    ensures IsReady(WithConditions(nodes, OthersAlive(nodes))[i], 0.0) <==> BigNode(nodes[i]) && !GpuWorker(nodes[i])
    ensures var n := WithConditions(nodes, OthersAlive(nodes))[i];
            (BigNode(n) <==> BigNode(nodes[i])) && (GpuWorker(n) <==> GpuWorker(nodes[i]))
  {
    var n := WithConditions(nodes, OthersAlive(nodes))[i];
    ReadyMeansFreshClaim(n, 0.0);
    if BigNode(nodes[i]) && !GpuWorker(nodes[i]) {
      assert FRESH in n.conditions && ClaimsReady(FRESH) && Timestamp(FRESH) == Some(0.0);
    }
  }

  lemma OtherActive(nodes: seq<Node>, p: Node -> bool)
    requires LabelsOnly(p)
    requires SomeOther(nodes, p)
    ensures SomeActive(WithConditions(nodes, OthersAlive(nodes)), AlwaysZero(), p)
  {
    var i :| 0 <= i < |nodes| && BigNode(nodes[i]) && !GpuWorker(nodes[i]) && p(nodes[i]);
    OthersReady(nodes, i);
    var after := WithConditions(nodes, OthersAlive(nodes));
    assert IsReady(after[i], AlwaysZero()(i)) && p(after[i]);
  }

  /** Exactly big nodes that are not the promised worker are alive. */
  lemma OnlyOthersReady(nodes: seq<Node>)
    ensures var after := WithConditions(nodes, OthersAlive(nodes));
            && !SomeActive(after, AlwaysZero(), GpuWorker)
            && forall i :: 0 <= i < |after| && IsReady(after[i], AlwaysZero()(i)) ==>
                 after[i].cpuCores >= MIN_CPU_CORES && after[i].memoryGib >= MIN_MEM_GIB
  {
    var after := WithConditions(nodes, OthersAlive(nodes));
    forall i | 0 <= i < |after| && IsReady(after[i], AlwaysZero()(i))
      ensures BigNode(after[i]) && !GpuWorker(after[i])
    {
      OthersReady(nodes, i);
    }
  }

  /** With exactly the others alive the verdict passes and the promised worker is missing. */
  lemma OthersPass(bound: seq<Cluster>, nodes: seq<Node>)
    requires OthersSuffice(bound, nodes)
    ensures !KeepsPromise(bound, nodes, OthersAlive(nodes), AlwaysZero())
  {
    hide SomeActive, IsReady, Healthy, SomeOther, WithConditions, OthersAlive, LabelsOnly, EtcdNode, ControlPlaneNode,
      SchedulableWorker, GpuNode, GpuWorker;
    RolesAreLabels();
    OtherActive(nodes, EtcdNode);
    OtherActive(nodes, ControlPlaneNode);
    OtherActive(nodes, SchedulableWorker);
    OtherActive(nodes, GpuNode);
    OnlyOthersReady(nodes);
  }

  /** What passes the verdict without the promised worker is supplied by the others. */
  lemma OthersSupply(bound: seq<Cluster>, nodes: seq<Node>, conditions: nat -> seq<Condition>, clock: nat -> real)
    requires Eligible(bound, WithConditions(nodes, conditions), clock)
    requires !SomeActive(WithConditions(nodes, conditions), clock, GpuWorker)
    ensures OthersSuffice(bound, nodes)
  {
    var after := WithConditions(nodes, conditions);
    assert !SomeActive(after, clock, SmallCpuNode) && !SomeActive(after, clock, SmallMemoryNode);
    RolesAreLabels();
    hide SomeActive, IsReady, Healthy, SomeOther, WithConditions, LabelsOnly;
    ActiveOther(nodes, conditions, clock, EtcdNode);
    ActiveOther(nodes, conditions, clock, ControlPlaneNode);
    ActiveOther(nodes, conditions, clock, SchedulableWorker);
    ActiveOther(nodes, conditions, clock, GpuNode);
  }

  /**
   * The verdict implies the written contract for every pattern of live and dead nodes exactly when the nodes that are
   * not the promised GPU worker do not supply all the roles and a confidential GPU node among themselves.
   */
  lemma VerdictKeepsPromiseIff(bound: seq<Cluster>, nodes: seq<Node>)
    ensures (forall conditions, clock :: KeepsPromise(bound, nodes, conditions, clock))
         <==> !OthersSuffice(bound, nodes)
  {
    hide Eligible, SomeActive, OthersSuffice, WithConditions;
    if OthersSuffice(bound, nodes) {
      OthersPass(bound, nodes);
    } else {
      forall conditions, clock ensures KeepsPromise(bound, nodes, conditions, clock) {
        var after := WithConditions(nodes, conditions);
        if Eligible(bound, after, clock) && !SomeActive(after, clock, GpuWorker) {
          OthersSupply(bound, nodes, conditions, clock);
        }
      }
    }
  }

  /**
   * An all-roles node without GPUs beside a confidential node of one H100 that is no worker: ready, against the
   * contract.
   */
  lemma OneGpuNoWorkerIsReady()
    ensures var control := Node([FRESH], true, true, true, true, 72.0, 1024.0, None, false, false, NoLabel, false);
            var gpu := Node([FRESH], true, false, false, false, 72.0, 1024.0, Some("H100"), true, true, Labelled(1),
                            false);
            var bound := [Cluster("c-1", "c-1", "alice", "", false, [])];
            Eligible(bound, [control, gpu], AlwaysZero()) && !Promised(bound, [control, gpu], AlwaysZero())
  {
    var control := Node([FRESH], true, true, true, true, 72.0, 1024.0, None, false, false, NoLabel, false);
    var gpu := Node([FRESH], true, false, false, false, 72.0, 1024.0, Some("H100"), true, true, Labelled(1), false);
    var nodes := [control, gpu];
    assert FRESH in control.conditions && FRESH in gpu.conditions && ClaimsReady(FRESH)
        && Timestamp(FRESH) == Some(0.0);
    ReadyMeansFreshClaim(control, 0.0);
    ReadyMeansFreshClaim(gpu, 0.0);
    assert IsReady(nodes[0], AlwaysZero()(0)) && IsReady(nodes[1], AlwaysZero()(1));
    assert EtcdNode(nodes[0]) && ControlPlaneNode(nodes[0]) && SchedulableWorker(nodes[0]) && GpuNode(nodes[1]);
  }
}
