/** What all miners are paid for together: no node pays twice, and exactly when. */
module Payroll {
  import opened Inventory
  import opened Prelude
  import opened Readiness
  import opened Totals

  // ---- sums over keys ---------------------------------------------------------------------

  ghost function SumAt<K(!new)>(m: map<K, real>, keys: seq<K>): real
    requires forall k :: k in keys ==> k in m
  {
    if keys == [] then 0.0 else SumAt(m, keys[..|keys| - 1]) + m[keys[|keys| - 1]]
  }

  lemma SumAtAppend<K(!new)>(m: map<K, real>, keys: seq<K>, k: K)
    requires (forall q :: q in keys ==> q in m) && k in m
    ensures SumAt(m, keys + [k]) == SumAt(m, keys) + m[k]
  {
    assert (keys + [k])[..|keys|] == keys;
  }

  lemma {:induction false} SumAtWithout<K(!new)>(m: map<K, real>, keys: seq<K>, gone: K)
    requires (forall k :: k in keys ==> k in m) && gone !in keys
    ensures SumAt(m, keys) == SumAt(m - {gone}, keys)
  {
    if keys != [] {
      SumAtWithout(m, keys[..|keys| - 1], gone);
    }
  }

  /** Distinct keys draw at most the whole. */
  lemma {:induction false} SumAtDistinct<K(!new)>(m: map<K, real>, keys: seq<K>)
    requires (forall k :: k in keys ==> k in m) && Distinct(keys)
    requires forall k :: k in m ==> m[k] >= 0.0
    ensures SumAt(m, keys) <= Total(m)
  {
    if keys == [] {
      TotalNonNegative(m);
    } else {
      var n := |keys| - 1;
      assert keys[n] !in keys[..n];
      SumAtWithout(m, keys[..n], keys[n]);
      SumAtDistinct(m - {keys[n]}, keys[..n]);
      TotalRemove(m, keys[n]);
    }
  }

  // ---- what is paid -----------------------------------------------------------------------

  /** The `i`-th miner is ready: by its verdict, or as the owner's staging miner. */
  ghost predicate ReadyMiner(e: Evidence, hotkey: string, i: nat, staging: bool) {
    Eligible(Bound(e.clusters, hotkey), NodesAt(e, hotkey), e.validated(i)) || staging
  }

  /** GPUs of one class that the `i`-th miner is paid for; an unready miner is paid for none. */
  ghost function PaidFor(e: Evidence, hotkey: string, i: nat, staging: bool, klass: string): nat {
    if ReadyMiner(e, hotkey, i, staging) then ClassTotal(NodesAt(e, hotkey), e.paid(i), staging, klass) else 0
  }

  /** The same over all miners; `staging` says which miner has the exception. */
  ghost function Paid(e: Evidence, hotkeys: seq<string>, staging: nat -> bool, klass: string): nat {
    if hotkeys == [] then 0
    else
      var i := |hotkeys| - 1;
      Paid(e, hotkeys[..i], staging, klass) + PaidFor(e, hotkeys[i], i, staging(i), klass)
  }

  /** GPUs of the class per cluster id, over everything Rancher returned. */
  function CapacityByCluster(nodesByCluster: map<string, seq<Node>>, klass: string): map<string, real> {
    map id | id in nodesByCluster :: Capacity(nodesByCluster[id], klass) as real
  }

  /** The inventory has at least what is paid for. */
  ghost predicate Within(e: Evidence, hotkeys: seq<string>, staging: nat -> bool, klass: string) {
    Paid(e, hotkeys, staging, klass) as real <= Total(CapacityByCluster(e.nodesByCluster, klass))
  }

  // ---- who may be paid --------------------------------------------------------------------

  /** By labels and cluster state alone the miner may be ready, whatever its nodes report. */
  predicate CanBeReady(clusters: seq<Cluster>, hotkey: string, staging: bool) {
    var bound := Bound(clusters, hotkey);
    bound != [] && (staging || (|bound| == 1 && !bound[0].banned && Healthy(bound[0].conditions)))
  }

  function FirstId(clusters: seq<Cluster>, hotkey: string): string
    requires Bound(clusters, hotkey) != []
  {
    ClusterId(Bound(clusters, hotkey)[0])
  }

  /** Two miners that may be ready have first clusters with different ids. */
  ghost predicate ReadyIdsDistinct(clusters: seq<Cluster>, hotkeys: seq<string>, staging: nat -> bool) {
    forall i, j ::
      && 0 <= i < j < |hotkeys|
      && CanBeReady(clusters, hotkeys[i], staging(i)) && CanBeReady(clusters, hotkeys[j], staging(j)) ==>
        FirstId(clusters, hotkeys[i]) != FirstId(clusters, hotkeys[j])
  }

  ghost predicate DistinctIds(clusters: seq<Cluster>) {
    forall c, d :: c in clusters && d in clusters && ClusterId(c) == ClusterId(d) ==> c == d
  }

  lemma {:induction false} BoundHasHotkey(clusters: seq<Cluster>, hotkey: string)
    ensures forall c :: c in Bound(clusters, hotkey) ==> c in clusters && HotkeyOf(c) == hotkey
  {
    if clusters != [] {
      BoundHasHotkey(clusters[1..], hotkey);
    }
  }

  /** Distinct hotkeys and distinct cluster ids are enough for that. */
  lemma DistinctIdsSuffice(clusters: seq<Cluster>, hotkeys: seq<string>, staging: nat -> bool)
    requires Distinct(hotkeys) && DistinctIds(clusters)
    ensures ReadyIdsDistinct(clusters, hotkeys, staging)
  {
    forall i, j |
      && 0 <= i < j < |hotkeys|
      && CanBeReady(clusters, hotkeys[i], staging(i)) && CanBeReady(clusters, hotkeys[j], staging(j))
      ensures FirstId(clusters, hotkeys[i]) != FirstId(clusters, hotkeys[j])
    {
      BoundHasHotkey(clusters, hotkeys[i]);
      BoundHasHotkey(clusters, hotkeys[j]);
      var c, d := Bound(clusters, hotkeys[i])[0], Bound(clusters, hotkeys[j])[0];
      assert c in Bound(clusters, hotkeys[i]) && d in Bound(clusters, hotkeys[j]);
    }
  }

  // ---- the bound --------------------------------------------------------------------------

  /** The `i`-th miner draws on an id that Rancher returned nodes for. */
  ghost predicate Draws(e: Evidence, hotkey: string, i: nat, staging: bool) {
    && ReadyMiner(e, hotkey, i, staging) && Bound(e.clusters, hotkey) != []
    && FirstId(e.clusters, hotkey) in e.nodesByCluster
  }

  /** The ids the miners' payouts draw on. */
  ghost function PaidIds(e: Evidence, hotkeys: seq<string>, staging: nat -> bool): seq<string> {
    if hotkeys == [] then []
    else
      var i := |hotkeys| - 1;
      PaidIds(e, hotkeys[..i], staging)
      + if Draws(e, hotkeys[i], i, staging(i)) then [FirstId(e.clusters, hotkeys[i])] else []
  }

  /** Some miner that may be ready has its first cluster under this id. */
  ghost predicate PaidThrough(clusters: seq<Cluster>, hotkeys: seq<string>, staging: nat -> bool, id: string) {
    exists i ::
      0 <= i < |hotkeys| && CanBeReady(clusters, hotkeys[i], staging(i)) && FirstId(clusters, hotkeys[i]) == id
  }

  lemma PaidThroughMore(clusters: seq<Cluster>, hotkeys: seq<string>, staging: nat -> bool, id: string)
    requires hotkeys != [] && PaidThrough(clusters, hotkeys[..|hotkeys| - 1], staging, id)
    ensures PaidThrough(clusters, hotkeys, staging, id)
  {
    hide FirstId;
    var before := hotkeys[..|hotkeys| - 1];
    var i :| 0 <= i < |before| && CanBeReady(clusters, before[i], staging(i)) && FirstId(clusters, before[i]) == id;
    assert hotkeys[i] == before[i];
  }

  lemma DrawsCanBeReady(e: Evidence, hotkey: string, i: nat, staging: bool)
    requires Draws(e, hotkey, i, staging)
    ensures CanBeReady(e.clusters, hotkey, staging)
  {
  }

  lemma {:induction false} PaidIdsFrom(e: Evidence, hotkeys: seq<string>, staging: nat -> bool)
    ensures forall id :: id in PaidIds(e, hotkeys, staging) ==>
              id in e.nodesByCluster && PaidThrough(e.clusters, hotkeys, staging, id)
    decreases |hotkeys|
  {
    if hotkeys != [] {
      var n := |hotkeys| - 1;
      PaidIdsFrom(e, hotkeys[..n], staging);
      hide Draws, ReadyMiner, CanBeReady, FirstId;
      forall id | id in PaidIds(e, hotkeys, staging)
        ensures id in e.nodesByCluster && PaidThrough(e.clusters, hotkeys, staging, id)
      {
        if id in PaidIds(e, hotkeys[..n], staging) {
          PaidThroughMore(e.clusters, hotkeys, staging, id);
        } else {
          DrawsIsPaidThrough(e, hotkeys, staging);
        }
      }
    }
  }

  lemma DrawsIsPaidThrough(e: Evidence, hotkeys: seq<string>, staging: nat -> bool)
    requires hotkeys != [] && Draws(e, hotkeys[|hotkeys| - 1], |hotkeys| - 1, staging(|hotkeys| - 1))
    ensures Bound(e.clusters, hotkeys[|hotkeys| - 1]) != []
    ensures var id := FirstId(e.clusters, hotkeys[|hotkeys| - 1]);
            id in e.nodesByCluster && PaidThrough(e.clusters, hotkeys, staging, id)
  {
    var i := |hotkeys| - 1;
    DrawsCanBeReady(e, hotkeys[i], i, staging(i));
    assert CanBeReady(e.clusters, hotkeys[i], staging(i));
  }

  lemma {:induction false} PaidIdsDistinct(e: Evidence, hotkeys: seq<string>, staging: nat -> bool)
    requires ReadyIdsDistinct(e.clusters, hotkeys, staging)
    ensures Distinct(PaidIds(e, hotkeys, staging))
    decreases |hotkeys|
  {
    if hotkeys != [] {
      var n := |hotkeys| - 1;
      var before := hotkeys[..n];
      assert forall i :: 0 <= i < n ==> before[i] == hotkeys[i];
      assert ReadyIdsDistinct(e.clusters, before, staging);
      PaidIdsDistinct(e, before, staging);
      if Draws(e, hotkeys[n], n, staging(n)) {
        DrawsCanBeReady(e, hotkeys[n], n, staging(n));
        PaidIdsFrom(e, before, staging);
        assert !PaidThrough(e.clusters, before, staging, FirstId(e.clusters, hotkeys[n]));
      }
    }
  }

  lemma {:induction false} CountedWithinCapacity(nodes: seq<Node>, clock: nat -> real, tdxCounts: bool, klass: string)
    ensures ClassTotal(nodes, clock, tdxCounts, klass) <= Capacity(nodes, klass)
  {
    if nodes != [] {
      CountedWithinCapacity(nodes[..|nodes| - 1], clock, tdxCounts, klass);
    }
  }

  lemma PaidForWithin(e: Evidence, hotkey: string, i: nat, staging: bool, klass: string)
    ensures if Draws(e, hotkey, i, staging)
            then PaidFor(e, hotkey, i, staging, klass) <= Capacity(e.nodesByCluster[FirstId(e.clusters, hotkey)], klass)
            else PaidFor(e, hotkey, i, staging, klass) == 0
  {
    CountedWithinCapacity(NodesAt(e, hotkey), e.paid(i), staging, klass);
    assert ClassTotal([], e.paid(i), staging, klass) == 0;
  }

  lemma {:induction false} PaidAtIds(e: Evidence, hotkeys: seq<string>, staging: nat -> bool, klass: string)
    requires forall id :: id in PaidIds(e, hotkeys, staging) ==> id in e.nodesByCluster
    ensures Paid(e, hotkeys, staging, klass) as real
         <= SumAt(CapacityByCluster(e.nodesByCluster, klass), PaidIds(e, hotkeys, staging))
    decreases |hotkeys|
  {
    if hotkeys != [] {
      var i := |hotkeys| - 1;
      var before := PaidIds(e, hotkeys[..i], staging);
      PaidAtIds(e, hotkeys[..i], staging, klass);
      PaidForWithin(e, hotkeys[i], i, staging(i), klass);
      var capacity := CapacityByCluster(e.nodesByCluster, klass);
      hide PaidFor, Draws, Capacity, SumAt, FirstId;
      if Draws(e, hotkeys[i], i, staging(i)) {
        assert PaidIds(e, hotkeys, staging) == before + [FirstId(e.clusters, hotkeys[i])];
        SumAtAppend(capacity, before, FirstId(e.clusters, hotkeys[i]));
      } else {
        assert PaidIds(e, hotkeys, staging) == before;
      }
    }
  }

  /** Over all miners, the GPUs paid for in a class never exceed those the whole inventory has of it. */
  lemma NoNodePaysTwice(e: Evidence, hotkeys: seq<string>, staging: nat -> bool, klass: string)
    requires ReadyIdsDistinct(e.clusters, hotkeys, staging)
    ensures Within(e, hotkeys, staging, klass)
  {
    PaidIdsFrom(e, hotkeys, staging);
    PaidIdsDistinct(e, hotkeys, staging);
    hide ReadyIdsDistinct, PaidIds, Paid, PaidThrough;
    PaidAtIds(e, hotkeys, staging, klass);
    SumAtDistinct(CapacityByCluster(e.nodesByCluster, klass), PaidIds(e, hotkeys, staging));
  }

  // ---- exactly when -----------------------------------------------------------------------

  /** An all-roles confidential node of eight H100s with a heartbeat at time 0. */
  const FRESH_NODE := Node([Condition(true, true, Some(0.0), None, None)], true, true, true, true, 96.0, 2048.0,
                           Some("H100"), true, true, Labelled(8), false)

  function ClocksAtZero(): nat -> nat -> real {
    i => AlwaysZero()
  }

  function NoStaging(): nat -> bool {
    i => false
  }

  /** One fresh node under one id, judged and counted at time 0. */
  function OneNode(clusters: seq<Cluster>, id: string): Evidence {
    Evidence(clusters, map[id := [FRESH_NODE]], ClocksAtZero(), ClocksAtZero())
  }

  lemma FreshNodeReady()
    ensures IsReady(FRESH_NODE, 0.0)
  {
    var c := Condition(true, true, Some(0.0), None, None);
    assert c in FRESH_NODE.conditions && ClaimsReady(c) && Timestamp(c) == Some(0.0);
    ReadyMeansFreshClaim(FRESH_NODE, 0.0);
  }

  lemma FreshNodeCounts(tdxCounts: bool)
    ensures ClassTotal([FRESH_NODE], AlwaysZero(), tdxCounts, "H100") == 8 && Capacity([FRESH_NODE], "H100") == 8
  {
    FreshNodeReady();
    var nodes := [FRESH_NODE];
    assert nodes[..0] == [];
    assert Counted(nodes[0], AlwaysZero()(0), tdxCounts) == 8;
    assert ClassTotal(nodes[..0], AlwaysZero(), tdxCounts, "H100") == 0 && Capacity(nodes[..0], "H100") == 0;
  }

  lemma FreshNodeEligible(bound: seq<Cluster>)
    requires |bound| == 1 && !bound[0].banned && Healthy(bound[0].conditions)
    ensures Eligible(bound, [FRESH_NODE], AlwaysZero())
  {
    FreshNodeReady();
    var nodes := [FRESH_NODE];
    hide IsReady, Healthy;
    assert IsReady(nodes[0], AlwaysZero()(0));
    assert EtcdNode(nodes[0]) && ControlPlaneNode(nodes[0]) && SchedulableWorker(nodes[0]) && GpuNode(nodes[0]);
  }

  /** Whoever may be ready and draws on that id is paid for all eight. */
  lemma PaidForFresh(clusters: seq<Cluster>, id: string, hotkey: string, i: nat, staging: bool)
    requires CanBeReady(clusters, hotkey, staging) && FirstId(clusters, hotkey) == id
    ensures PaidFor(OneNode(clusters, id), hotkey, i, staging, "H100") == 8
  {
    var e := OneNode(clusters, id);
    assert NodesAt(e, hotkey) == [FRESH_NODE];
    FreshNodeCounts(staging);
    if !staging {
      FreshNodeEligible(Bound(clusters, hotkey));
    }
    hide Eligible, ClassTotal;
  }

  lemma {:induction false} PaidParts(e: Evidence, hotkeys: seq<string>, staging: nat -> bool, klass: string, i: nat)
    requires i < |hotkeys|
    ensures Paid(e, hotkeys, staging, klass) >= PaidFor(e, hotkeys[i], i, staging(i), klass)
    ensures forall j: nat :: i < j < |hotkeys| ==>
              Paid(e, hotkeys, staging, klass)
              >= PaidFor(e, hotkeys[i], i, staging(i), klass) + PaidFor(e, hotkeys[j], j, staging(j), klass)
    decreases |hotkeys|
  {
    hide PaidFor;
    var n := |hotkeys| - 1;
    if i < n {
      PaidParts(e, hotkeys[..n], staging, klass, i);
      assert forall j: nat :: j < n ==> hotkeys[..n][j] == hotkeys[j];
    }
  }

  lemma OneNodeCapacity(clusters: seq<Cluster>, id: string)
    ensures Total(CapacityByCluster(OneNode(clusters, id).nodesByCluster, "H100")) == 8.0
  {
    var capacity := CapacityByCluster(OneNode(clusters, id).nodesByCluster, "H100");
    FreshNodeCounts(false);
    TotalRemove(capacity, id);
    EmptyMap(capacity - {id});
  }

  /** Two miners that may be ready under one id are both paid for the node there. */
  lemma SharedIdPaid(clusters: seq<Cluster>, hotkeys: seq<string>, staging: nat -> bool, i: nat, j: nat)
    requires i < j < |hotkeys|
    requires CanBeReady(clusters, hotkeys[i], staging(i)) && CanBeReady(clusters, hotkeys[j], staging(j))
    requires FirstId(clusters, hotkeys[i]) == FirstId(clusters, hotkeys[j])
    ensures !Within(OneNode(clusters, FirstId(clusters, hotkeys[i])), hotkeys, staging, "H100")
  {
    var id := FirstId(clusters, hotkeys[i]);
    PaidForFresh(clusters, id, hotkeys[i], i, staging(i));
    PaidForFresh(clusters, id, hotkeys[j], j, staging(j));
    OneNodeCapacity(clusters, id);
    hide Paid, PaidFor, CapacityByCluster, Total, FirstId, CanBeReady;
    PaidParts(OneNode(clusters, id), hotkeys, staging, "H100", i);
  }

  /**
   * The exact condition on labels, cluster states and ids: for no inventory, clock and class is a node paid for twice
   * if and only if any two miners that may be ready have first clusters with different ids.
   */
  lemma NoNodePaysTwiceIff(clusters: seq<Cluster>, hotkeys: seq<string>, staging: nat -> bool)
    ensures (forall e: Evidence, klass :: e.clusters == clusters ==> Within(e, hotkeys, staging, klass))
       <==> ReadyIdsDistinct(clusters, hotkeys, staging)
  {
    hide Within, FirstId;
    if ReadyIdsDistinct(clusters, hotkeys, staging) {
      forall e: Evidence, klass | e.clusters == clusters ensures Within(e, hotkeys, staging, klass) {
        NoNodePaysTwice(e, hotkeys, staging, klass);
      }
    } else {
      var i, j :|
        && 0 <= i < j < |hotkeys|
        && CanBeReady(clusters, hotkeys[i], staging(i)) && CanBeReady(clusters, hotkeys[j], staging(j))
        && FirstId(clusters, hotkeys[i]) == FirstId(clusters, hotkeys[j]);
      SharedIdPaid(clusters, hotkeys, staging, i, j);
    }
  }

  // ---- two clusters under one id ----------------------------------------------------------

  /** The cluster of one hotkey under the id `c-1`. */
  function Twin(hotkey: string, banned: bool): Cluster {
    Cluster("c-1", hotkey, hotkey, "", banned, [])
  }

  lemma TwinsBound(banned: bool)
    ensures Bound([Twin("alice", false), Twin("bob", banned)], "alice") == [Twin("alice", false)]
    ensures Bound([Twin("alice", false), Twin("bob", banned)], "bob") == [Twin("bob", banned)]
  {
    var c, d := Twin("alice", false), Twin("bob", banned);
    assert "alice"[0] != "bob"[0];
    assert HotkeyOf(c) == "alice" && HotkeyOf(d) == "bob";
    BoundOfTwo(c, d);
  }

  lemma BoundOfTwo(c: Cluster, d: Cluster)
    requires HotkeyOf(c) != HotkeyOf(d)
    ensures Bound([c, d], HotkeyOf(c)) == [c] && Bound([c, d], HotkeyOf(d)) == [d]
  {
    assert [c, d][1..] == [d] && [d][1..] == [];
    assert Bound([d], HotkeyOf(c)) == [] && Bound([d], HotkeyOf(d)) == [d];
  }

  /** With both clusters in order, eight H100s are paid for as sixteen. */
  lemma SharedIdPaysTwice()
    ensures var e := OneNode([Twin("alice", false), Twin("bob", false)], "c-1");
            && Paid(e, ["alice", "bob"], NoStaging(), "H100") == 16
            && Total(CapacityByCluster(e.nodesByCluster, "H100")) == 8.0
  {
    var clusters := [Twin("alice", false), Twin("bob", false)];
    var e := OneNode(clusters, "c-1");
    var hotkeys := ["alice", "bob"];
    TwinsBound(false);
    PaidForFresh(clusters, "c-1", "alice", 0, false);
    PaidForFresh(clusters, "c-1", "bob", 1, false);
    OneNodeCapacity(clusters, "c-1");
    hide PaidFor, CapacityByCluster, Total, Bound;
    assert hotkeys[..1] == ["alice"] && hotkeys[..1][..0] == [];
    assert Paid(e, [], NoStaging(), "H100") == 0;
    assert Paid(e, hotkeys[..1], NoStaging(), "H100") == 8;
  }

  /** With the second one banned they never are, whatever nodes, clocks and class: the ban matters, not only the id. */
  lemma BannedTwinIsHarmless(e: Evidence, klass: string)
    requires e.clusters == [Twin("alice", false), Twin("bob", true)]
    ensures Within(e, ["alice", "bob"], NoStaging(), klass)
  {
    var hotkeys := ["alice", "bob"];
    TwinsBound(true);
    assert !CanBeReady(e.clusters, hotkeys[1], NoStaging()(1));
    NoNodePaysTwice(e, hotkeys, NoStaging(), klass);
  }
}
