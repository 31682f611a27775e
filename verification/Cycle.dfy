/**
 One validator cycle from evidence to the weight vector: verdict, inventory, earnings and split together, and what the
 whole promises.
 */
module Cycle {
  import opened Chain
  import opened Inventory
  import opened Prelude
  import opened Ratios
  import opened Readiness
  import opened Scoring
  import opened ScoringLaws
  import opened Totals

  datatype Miner = Miner(uid: int, hotkey: string)

  function HotkeysOf(miners: seq<Miner>): (hotkeys: seq<string>)
    ensures |hotkeys| == |miners|
    ensures forall i :: 0 <= i < |miners| ==> hotkeys[i] == miners[i].hotkey
  {
    seq(|miners|, i requires 0 <= i < |miners| => miners[i].hotkey)
  }

  function MinerNodes(e: Evidence, m: Miner): seq<Node> {
    NodesAt(e, m.hotkey)
  }

  /** The exceptions of the owner's staging miner apply. */
  predicate Staging(m: Miner, ownerMinerUid: int) {
    m.uid == ownerMinerUid
  }

  /** GPUs of one class counted for the `i`-th miner. */
  function CountedGpus(e: Evidence, m: Miner, i: nat, staging: bool, klass: string): nat {
    ClassTotal(MinerNodes(e, m), e.paid(i), staging, klass)
  }

  /** The listing has each class with something counted exactly once, with its total. */
  ghost predicate IsListing(s: seq<(string, int)>, nodes: seq<Node>, clock: nat -> real, tdxCounts: bool) {
    && (forall i, j :: 0 <= i < j < |s| ==> s[i].0 != s[j].0)
    && (forall i :: 0 <= i < |s| ==> s[i].1 == ClassTotal(nodes, clock, tdxCounts, s[i].0) && s[i].1 >= FULL_NODE_GPUS)
    && (forall k :: ClassTotal(nodes, clock, tdxCounts, k) > 0 ==> exists i :: 0 <= i < |s| && s[i].0 == k)
  }

  /** The scoring record of the `i`-th miner. */
  ghost predicate IsInput(x: MinerInput, m: Miner, i: nat, e: Evidence, ownerMinerUid: int) {
    && x.uid == m.uid && x.tenure == 1.0
    && (x.ready <==>
          Eligible(Bound(e.clusters, m.hotkey), MinerNodes(e, m), e.validated(i)) || Staging(m, ownerMinerUid))
    && (if x.ready then IsListing(x.gpuBreakdown, MinerNodes(e, m), e.paid(i), Staging(m, ownerMinerUid))
        else x.gpuBreakdown == [])
    && (x.gpuBreakdown == [] ==> x.gpuClass == None)
  }

  ghost predicate AreInputs(inputs: seq<MinerInput>, miners: seq<Miner>, e: Evidence, ownerMinerUid: int) {
    && |inputs| == |miners|
    && forall i :: 0 <= i < |inputs| ==> IsInput(inputs[i], miners[i], i, e, ownerMinerUid)
  }

  /** `tuple(breakdown.items())`, in whatever order. */
  method ItemsOf(m: map<string, int>) returns (items: seq<(string, int)>)
    ensures forall i, j :: 0 <= i < j < |items| ==> items[i].0 != items[j].0
    ensures forall i :: 0 <= i < |items| ==> items[i].0 in m && items[i].1 == m[items[i].0]
    ensures forall k :: k in m ==> exists i :: 0 <= i < |items| && items[i].0 == k
  {
    items := [];
    var rest := m.Keys;
    while rest != {}
      invariant rest <= m.Keys
      invariant forall i, j :: 0 <= i < j < |items| ==> items[i].0 != items[j].0
      invariant forall i :: 0 <= i < |items| ==> items[i].0 in m && items[i].1 == m[items[i].0] && items[i].0 !in rest
      invariant forall k :: k in m ==> k in rest || exists i :: 0 <= i < |items| && items[i].0 == k
      decreases rest
    {
      var k := Pick(rest);
      ghost var before := items;
      items := items + [(k, m[k])];
      rest := rest - {k};
      assert items[|before|].0 == k;
      forall q | q in m && q !in rest ensures exists i :: 0 <= i < |items| && items[i].0 == q {
        if q != k {
          var i :| 0 <= i < |before| && before[i].0 == q;
          assert items[i].0 == q;
        }
      }
    }
  }

  lemma ListingOfBreakdown(m: map<string, int>, items: seq<(string, int)>, nodes: seq<Node>, clock: nat -> real,
                           tdxCounts: bool)
    requires IsBreakdown(m, nodes, clock, tdxCounts)
    requires forall i, j :: 0 <= i < j < |items| ==> items[i].0 != items[j].0
    requires forall i :: 0 <= i < |items| ==> items[i].0 in m && items[i].1 == m[items[i].0]
    requires forall k :: k in m ==> exists i :: 0 <= i < |items| && items[i].0 == k
    ensures IsListing(items, nodes, clock, tdxCounts)
  {
    hide ClassTotal;
    forall i | 0 <= i < |items|
      ensures items[i].1 == ClassTotal(nodes, clock, tdxCounts, items[i].0) && items[i].1 >= FULL_NODE_GPUS
    {
      assert Get(m, items[i].0, 0) == ClassTotal(nodes, clock, tdxCounts, items[i].0);
    }
    forall k | ClassTotal(nodes, clock, tdxCounts, k) > 0 ensures exists i :: 0 <= i < |items| && items[i].0 == k {
      assert Get(m, k, 0) == ClassTotal(nodes, clock, tdxCounts, k);
    }
  }

  /** The miner loop: verdict on the registered clusters, owner override, breakdown on all clusters. */
  method InputsOf(miners: seq<Miner>, e: Evidence, ownerMinerUid: int) returns (inputs: seq<MinerInput>)
    ensures AreInputs(inputs, miners, e, ownerMinerUid)
  {
    hide Eligible, ClassTotal, Bound, IsListing, IsBreakdown, Fails;
    var hotkeys := HotkeysOf(miners);
    var registered := set h | h in hotkeys;
    var metagraphClusters := Registered(e.clusters, registered);
    inputs := [];
    for i := 0 to |miners|
      invariant AreInputs(inputs, miners[..i], e, ownerMinerUid)
    {
      var m := miners[i];
      assert hotkeys[i] == m.hotkey && m.hotkey in hotkeys;
      SameBoundClusters(e.clusters, registered, m.hotkey);
      var ready, reasons := ValidateMiner(m.hotkey, metagraphClusters, e.nodesByCluster, e.validated(i));
      if !ready && m.uid == ownerMinerUid {
        ready := true;
      }
      var items: seq<(string, int)> := [];
      if ready {
        var breakdown := MinerGpuBreakdown(m.hotkey, e.clusters, e.nodesByCluster, e.paid(i),
                                           Staging(m, ownerMinerUid));
        items := ItemsOf(breakdown);
        ListingOfBreakdown(breakdown, items, MinerNodes(e, m), e.paid(i), Staging(m, ownerMinerUid));
      }
      inputs := inputs + [MinerInput(m.uid, ready, None, 0, items, 1.0)];
    }
    assert miners[..|miners|] == miners;
  }

  // ---- when a miner earns -----------------------------------------------------------------

  function PriceOf(card: map<string, real>, klass: string): real {
    Get(card, Upper(klass), 0.0)
  }

  /** Some listed class has a price. */
  ghost predicate SomePriced(s: seq<(string, int)>, card: map<string, real>) {
    exists i :: 0 <= i < |s| && PriceOf(card, s[i].0) > 0.0
  }

  lemma SomePricedStep(s: seq<(string, int)>, card: map<string, real>)
    requires s != []
    ensures SomePriced(s, card) <==> SomePriced(s[..|s| - 1], card) || PriceOf(card, s[|s| - 1].0) > 0.0
  {
    hide PriceOf;
    var n := |s| - 1;
    if i :| 0 <= i < n && PriceOf(card, s[..n][i].0) > 0.0 {
      assert s[i] == s[..n][i];
    }
    if i :| 0 <= i < n && PriceOf(card, s[i].0) > 0.0 {
      assert s[..n][i] == s[i];
    }
  }

  lemma {:induction false} UsdPositive(s: seq<(string, int)>, card: map<string, real>)
    requires NonNegative(card) && forall i :: 0 <= i < |s| ==> s[i].1 > 0
    ensures UsdOfBreakdown(s, card) >= 0.0
    ensures UsdOfBreakdown(s, card) > 0.0 <==> SomePriced(s, card)
  {
    if s != [] {
      var n := |s| - 1;
      assert PriceOf(card, s[n].0) >= 0.0;
      UsdPositive(s[..n], card);
      SomePricedStep(s, card);
      NonNegativeProduct(PriceOf(card, s[n].0), s[n].1 as real);
      hide SomePriced, NonNegative;
    }
  }

  /** The miner has counted GPUs of a class that has a price. */
  ghost predicate HasPricedGpus(m: Miner, i: nat, e: Evidence, ownerMinerUid: int, card: map<string, real>) {
    exists k :: CountedGpus(e, m, i, Staging(m, ownerMinerUid), k) > 0 && PriceOf(card, k) > 0.0
  }

  lemma ListingPriced(x: MinerInput, m: Miner, i: nat, e: Evidence, ownerMinerUid: int, card: map<string, real>)
    requires IsInput(x, m, i, e, ownerMinerUid) && x.ready && NonNegative(card)
    ensures Target(x, card) >= 0.0
    ensures Target(x, card) > 0.0 <==> HasPricedGpus(m, i, e, ownerMinerUid, card)
  {
    hide ClassTotal, Eligible, UsdOfBreakdown, PriceOf;
    var s := x.gpuBreakdown;
    UsdPositive(s, card);
    if exists j :: 0 <= j < |s| && PriceOf(card, s[j].0) > 0.0 {
      var j :| 0 <= j < |s| && PriceOf(card, s[j].0) > 0.0;
      assert CountedGpus(e, m, i, Staging(m, ownerMinerUid), s[j].0) > 0;
    }
  }

  /**
   * Exactly who earns: an eligible miner, or the owner's staging miner whatever its verdict, that has GPUs of a priced
   * class counted at payout.
   */
  lemma EarnsIff(x: MinerInput, m: Miner, i: nat, e: Evidence, ownerMinerUid: int, card: map<string, real>, hours: real)
    requires IsInput(x, m, i, e, ownerMinerUid) && NonNegative(card) && hours > 0.0
    ensures Earns(x, card, hours) <==>
              && (Eligible(Bound(e.clusters, m.hotkey), MinerNodes(e, m), e.validated(i)) || Staging(m, ownerMinerUid))
              && HasPricedGpus(m, i, e, ownerMinerUid, card)
    ensures Earned(x, card, hours) >= 0.0
  {
    hide Eligible, HasPricedGpus, Target, IsListing;
    if x.ready {
      ListingPriced(x, m, i, e, ownerMinerUid, card);
    } else {
      assert Target(x, card) == 0.0 by { EmptyTarget(x, card); }
    }
    NonNegativeProduct(Target(x, card), hours);
  }

  lemma EmptyTarget(x: MinerInput, card: map<string, real>)
    requires x.gpuBreakdown == [] && x.gpuClass == None
    ensures Target(x, card) == 0.0
  {
  }

  // ---- nodes dealt out over two hotkeys ---------------------------------------------------

  lemma {:induction false} CountOfDistinct(s: seq<(string, int)>, klass: string)
    requires forall i, j :: 0 <= i < j < |s| ==> s[i].0 != s[j].0
    ensures forall i :: 0 <= i < |s| && s[i].0 == klass ==> CountOf(s, klass) == s[i].1
    ensures (forall i :: 0 <= i < |s| ==> s[i].0 != klass) ==> CountOf(s, klass) == 0
  {
    if s != [] {
      var n := |s| - 1;
      CountOfDistinct(s[..n], klass);
      assert forall i :: 0 <= i < n ==> s[..n][i] == s[i];
    }
  }

  lemma ListingCount(s: seq<(string, int)>, nodes: seq<Node>, clock: nat -> real, tdxCounts: bool, klass: string)
    requires IsListing(s, nodes, clock, tdxCounts)
    ensures CountOf(s, klass) == ClassTotal(nodes, clock, tdxCounts, klass)
  {
    hide ClassTotal, CountOf;
    CountOfDistinct(s, klass);
    if i :| 0 <= i < |s| && s[i].0 == klass {
      assert CountOf(s, klass) == s[i].1;
    } else {
      assert ClassTotal(nodes, clock, tdxCounts, klass) == 0;
    }
  }

  lemma {:induction false} ClassTotalOfBoth(a: seq<Node>, b: seq<Node>, clock: nat -> real, clockA: nat -> real,
                                            clockB: nat -> real,
                                            tdxCounts: bool, klass: string)
    requires forall j: nat :: j < |a| ==> clockA(j) == clock(j)
    requires forall j: nat :: j < |b| ==> clockB(j) == clock(|a| + j)
    ensures ClassTotal(a + b, clock, tdxCounts, klass)
         == ClassTotal(a, clockA, tdxCounts, klass) + ClassTotal(b, clockB, tdxCounts, klass)
    decreases |a| + |b|
  {
    hide Counted;
    if b != [] {
      var n := |b| - 1;
      assert (a + b)[..|a + b| - 1] == a + b[..n];
      ClassTotalOfBoth(a, b[..n], clock, clockA, clockB, tdxCounts, klass);
    } else if a != [] {
      var n := |a| - 1;
      assert a + b == a && a[..n] + b == a[..n] && (a + b)[..n] == a[..n];
      ClassTotalOfBoth(a[..n], b, clock, clockA, clockB, tdxCounts, klass);
    }
  }

  /**
   * A miner's nodes dealt out over two clusters, read at the same times, are dealt out as GPUs in the sense of the
   * split law.
   */
  lemma NodesDealtOut(s: seq<(string, int)>, a: seq<(string, int)>, b: seq<(string, int)>, nodesA: seq<Node>,
                      nodesB: seq<Node>,
                      clock: nat -> real, clockA: nat -> real, clockB: nat -> real, tdxCounts: bool)
    requires forall j: nat :: j < |nodesA| ==> clockA(j) == clock(j)
    requires forall j: nat :: j < |nodesB| ==> clockB(j) == clock(|nodesA| + j)
    requires IsListing(s, nodesA + nodesB, clock, tdxCounts)
    requires IsListing(a, nodesA, clockA, tdxCounts) && IsListing(b, nodesB, clockB, tdxCounts)
    ensures DealtOut(s, a, b)
  {
    hide IsListing, CountOf, ClassTotal;
    forall k ensures CountOf(s, k) == CountOf(a, k) + CountOf(b, k) {
      ListingCount(s, nodesA + nodesB, clock, tdxCounts, k);
      ListingCount(a, nodesA, clockA, tdxCounts, k);
      ListingCount(b, nodesB, clockB, tdxCounts, k);
      ClassTotalOfBoth(nodesA, nodesB, clock, clockA, clockB, tdxCounts, k);
    }
  }

  /** What the record of a miner says about it as a side of a split. */
  lemma RecordIsByBreakdown(x: MinerInput, m: Miner, i: nat, e: Evidence, ownerMinerUid: int)
    requires IsInput(x, m, i, e, ownerMinerUid)
    ensures ByBreakdown(x) && x.tenure == 1.0
  {
    hide ClassTotal, Eligible;
  }

  /** The nodes of `m` are those of `m1` and `m2` in `after`, counted at the same times. */
  ghost predicate NodesSplit(before: Evidence, m: Miner, i: nat, after: Evidence, m1: Miner, i1: nat, m2: Miner,
                             i2: nat)
  {
    var a, b := MinerNodes(after, m1), MinerNodes(after, m2);
    && MinerNodes(before, m) == a + b
    && (forall j: nat :: j < |a| ==> after.paid(i1)(j) == before.paid(i)(j))
    && (forall j: nat :: j < |b| ==> after.paid(i2)(j) == before.paid(i)(|a| + j))
  }

  /** The records of a miner and of the two it is split into are a split of GPUs. */
  lemma RecordsSplit(x: MinerInput, m: Miner, i: nat, before: Evidence, x1: MinerInput, m1: Miner, i1: nat,
                     x2: MinerInput, m2: Miner, i2: nat, after: Evidence, ownerMinerUid: int)
    requires IsInput(x, m, i, before, ownerMinerUid)
    requires IsInput(x1, m1, i1, after, ownerMinerUid) && IsInput(x2, m2, i2, after, ownerMinerUid)
    requires x.ready && x1.ready && x2.ready
    requires !Staging(m, ownerMinerUid) && !Staging(m1, ownerMinerUid) && !Staging(m2, ownerMinerUid)
    requires NodesSplit(before, m, i, after, m1, i1, m2, i2)
    ensures SplitsInto(x, x1, x2)
  {
    hide IsListing, Eligible, DealtOut, ByBreakdown;
    RecordIsByBreakdown(x, m, i, before, ownerMinerUid);
    RecordIsByBreakdown(x1, m1, i1, after, ownerMinerUid);
    RecordIsByBreakdown(x2, m2, i2, after, ownerMinerUid);
    NodesDealtOut(x.gpuBreakdown, x1.gpuBreakdown, x2.gpuBreakdown, MinerNodes(after, m1), MinerNodes(after, m2),
                  before.paid(i), after.paid(i1), after.paid(i2), false);
  }

  /**
   * From nodes to weights: a miner whose nodes are dealt out over two clusters under two hotkeys, all three ready,
   * weighs as much in two parts as in one, and nobody else's weight moves.
   */
  lemma ClusterSplitNeutral(others: seq<MinerInput>, more: seq<MinerInput>, x: MinerInput, m: Miner, i: nat,
                            before: Evidence,
                            x1: MinerInput, m1: Miner, i1: nat, x2: MinerInput, m2: Miner, i2: nat, after: Evidence,
                            ownerMinerUid: int, card: map<string, real>, hours: real, ownerUid: int, pool: real)
    requires IsInput(x, m, i, before, ownerMinerUid)
    requires IsInput(x1, m1, i1, after, ownerMinerUid) && IsInput(x2, m2, i2, after, ownerMinerUid)
    requires x.ready && x1.ready && x2.ready
    requires !Staging(m, ownerMinerUid) && !Staging(m1, ownerMinerUid) && !Staging(m2, ownerMinerUid)
    requires NodesSplit(before, m, i, after, m1, i1, m2, i2)
    requires pool > 0.0 && NonNegative(card) && hours >= 0.0
    requires DistinctUids(others + [x] + more) && DistinctUids(others + [x1, x2] + more)
    requires x.uid != ownerUid && x1.uid != ownerUid && x2.uid != ownerUid
    requires HasUid(others + more, ownerUid) || SumPay(others + [x] + more, card, hours) > 0.0
    ensures var one, two := others + [x] + more, others + [x1, x2] + more;
            && Weight(two, card, hours, ownerUid, pool, x1.uid) + Weight(two, card, hours, ownerUid, pool, x2.uid)
            == Weight(one, card, hours, ownerUid, pool, x.uid)
            && forall y :: y in others + more ==>
                 Weight(two, card, hours, ownerUid, pool, y.uid) == Weight(one, card, hours, ownerUid, pool, y.uid)
  {
    hide *;
    RecordsSplit(x, m, i, before, x1, m1, i1, x2, m2, i2, after, ownerMinerUid);
    SplitNeutral(others, x, x1, x2, more, card, hours, ownerUid, pool);
  }

  // ---- the vector is determined by what is read -------------------------------------------

  /** At both readings the same nodes are ready. */
  ghost predicate SameLife(nodes: seq<Node>, clock: nat -> real, other: nat -> real) {
    forall j: nat :: j < |nodes| ==> IsReady(nodes[j], clock(j)) == IsReady(nodes[j], other(j))
  }

  /** The same answers, and no node comes to life or dies between the two sets of readings. */
  ghost predicate SameReadings(e: Evidence, f: Evidence, miners: seq<Miner>) {
    && e.clusters == f.clusters && e.nodesByCluster == f.nodesByCluster
    && forall i: nat :: i < |miners| ==>
         && SameLife(MinerNodes(e, miners[i]), e.validated(i), f.validated(i))
         && SameLife(MinerNodes(e, miners[i]), e.paid(i), f.paid(i))
  }

  lemma SameActive(nodes: seq<Node>, clock: nat -> real, other: nat -> real, p: Node -> bool)
    requires SameLife(nodes, clock, other)
    ensures SomeActive(nodes, clock, p) == SomeActive(nodes, other, p)
  {
    hide IsReady;
    if j :| 0 <= j < |nodes| && IsReady(nodes[j], clock(j)) && p(nodes[j]) {
      assert IsReady(nodes[j], other(j)) && p(nodes[j]);
    }
    if j :| 0 <= j < |nodes| && IsReady(nodes[j], other(j)) && p(nodes[j]) {
      assert IsReady(nodes[j], clock(j)) && p(nodes[j]);
    }
  }

  lemma SameVerdict(bound: seq<Cluster>, nodes: seq<Node>, clock: nat -> real, other: nat -> real)
    requires SameLife(nodes, clock, other)
    ensures Eligible(bound, nodes, clock) == Eligible(bound, nodes, other)
  {
    SameActive(nodes, clock, other, EtcdNode);
    SameActive(nodes, clock, other, ControlPlaneNode);
    SameActive(nodes, clock, other, SchedulableWorker);
    SameActive(nodes, clock, other, GpuNode);
    hide SomeActive, IsReady, Healthy;
  }

  lemma {:induction false} SameTotals(nodes: seq<Node>, clock: nat -> real, other: nat -> real, tdxCounts: bool,
                                      klass: string)
    requires SameLife(nodes, clock, other)
    ensures ClassTotal(nodes, clock, tdxCounts, klass) == ClassTotal(nodes, other, tdxCounts, klass)
  {
    hide IsReady;
    if nodes != [] {
      var n := |nodes| - 1;
      assert forall j: nat :: j < n ==> nodes[..n][j] == nodes[j];
      SameTotals(nodes[..n], clock, other, tdxCounts, klass);
    }
  }

  /** Two records that are paid alike. */
  ghost predicate SamePay(x: MinerInput, y: MinerInput, card: map<string, real>, hours: real) {
    && x.uid == y.uid && Earns(x, card, hours) == Earns(y, card, hours)
    && Earned(x, card, hours) == Earned(y, card, hours)
  }

  /** Two listings of the same totals are worth the same. */
  lemma SameListingsSameTarget(x: MinerInput, y: MinerInput, nodes: seq<Node>, clock: nat -> real, other: nat -> real,
                               staging: bool, card: map<string, real>)
    requires IsListing(x.gpuBreakdown, nodes, clock, staging) && IsListing(y.gpuBreakdown, nodes, other, staging)
    requires x.gpuBreakdown == [] ==> x.gpuClass == None
    requires y.gpuBreakdown == [] ==> y.gpuClass == None
    requires SameLife(nodes, clock, other)
    ensures Target(x, card) == Target(y, card)
  {
    hide IsListing, SameLife, UsdOfBreakdown, CountOf, ClassTotal, Target;
    forall k ensures CountOf(x.gpuBreakdown, k) == CountOf(y.gpuBreakdown, k) {
      ListingCount(x.gpuBreakdown, nodes, clock, staging, k);
      ListingCount(y.gpuBreakdown, nodes, other, staging, k);
      SameTotals(nodes, clock, other, staging, k);
    }
    UsdByCounts(x.gpuBreakdown, y.gpuBreakdown, card);
    TargetOfRecord(x, card);
    TargetOfRecord(y, card);
  }

  /** What a record says, for a reader of its pieces. */
  lemma RecordSays(x: MinerInput, m: Miner, i: nat, e: Evidence, ownerMinerUid: int)
    requires IsInput(x, m, i, e, ownerMinerUid)
    ensures x.uid == m.uid && x.tenure == 1.0 && (x.gpuBreakdown == [] ==> x.gpuClass == None)
    ensures x.ready <==>
              Eligible(Bound(e.clusters, m.hotkey), MinerNodes(e, m), e.validated(i)) || Staging(m, ownerMinerUid)
    ensures x.ready ==> IsListing(x.gpuBreakdown, MinerNodes(e, m), e.paid(i), Staging(m, ownerMinerUid))
    ensures !x.ready ==> x.gpuBreakdown == []
  {
    hide Eligible, IsListing;
  }

  lemma SameTargetSamePay(x: MinerInput, y: MinerInput, card: map<string, real>, hours: real)
    requires x.uid == y.uid && x.tenure == y.tenure && x.ready == y.ready && Target(x, card) == Target(y, card)
    ensures SamePay(x, y, card, hours)
  {
    hide Target, EarnedUsd;
  }

  lemma SameReadingsSamePay(x: MinerInput, y: MinerInput, m: Miner, i: nat, e: Evidence, f: Evidence,
                            ownerMinerUid: int,
                            card: map<string, real>, hours: real)
    requires IsInput(x, m, i, e, ownerMinerUid) && IsInput(y, m, i, f, ownerMinerUid)
    requires e.clusters == f.clusters && e.nodesByCluster == f.nodesByCluster
    requires SameLife(MinerNodes(e, m), e.validated(i), f.validated(i))
    requires SameLife(MinerNodes(e, m), e.paid(i), f.paid(i))
    ensures SamePay(x, y, card, hours)
  {
    var nodes, staging := MinerNodes(e, m), Staging(m, ownerMinerUid);
    assert MinerNodes(f, m) == nodes;
    hide *;
    RecordSays(x, m, i, e, ownerMinerUid);
    RecordSays(y, m, i, f, ownerMinerUid);
    SameVerdict(Bound(e.clusters, m.hotkey), nodes, e.validated(i), f.validated(i));
    if x.ready {
      SameListingsSameTarget(x, y, nodes, e.paid(i), f.paid(i), staging, card);
    } else {
      EmptyTarget(x, card);
      EmptyTarget(y, card);
    }
    SameTargetSamePay(x, y, card, hours);
  }

  lemma TargetOfRecord(x: MinerInput, card: map<string, real>)
    requires x.gpuBreakdown == [] ==> x.gpuClass == None
    ensures Target(x, card) == UsdOfBreakdown(x.gpuBreakdown, card)
  {
  }

  lemma {:induction false} SameEarnedMap(a: seq<MinerInput>, b: seq<MinerInput>, card: map<string, real>, hours: real)
    requires |a| == |b| && forall i :: 0 <= i < |a| ==> SamePay(a[i], b[i], card, hours)
    ensures EarnedMap(a, card, hours) == EarnedMap(b, card, hours) && UidsOf(a) == UidsOf(b)
  {
    hide Earned;
    if a != [] {
      var n := |a| - 1;
      SameEarnedMap(a[..n], b[..n], card, hours);
      assert SamePay(a[n], b[n], card, hours);
    }
  }

  /**
   * However the records of one cycle list their classes, and whoever reads the same evidence: the vector is the same.
   */
  lemma VectorDetermined(a: seq<MinerInput>, b: seq<MinerInput>, miners: seq<Miner>, e: Evidence, f: Evidence,
                         ownerMinerUid: int, card: map<string, real>, hours: real, ownerUid: int, pool: real)
    requires AreInputs(a, miners, e, ownerMinerUid) && AreInputs(b, miners, f, ownerMinerUid)
    requires SameReadings(e, f, miners) && pool > 0.0
    ensures Submitted(a, card, hours, ownerUid, pool) == Submitted(b, card, hours, ownerUid, pool)
  {
    forall i | 0 <= i < |a| ensures SamePay(a[i], b[i], card, hours) {
      assert IsInput(a[i], miners[i], i, e, ownerMinerUid) && IsInput(b[i], miners[i], i, f, ownerMinerUid);
      SameReadingsSamePay(a[i], b[i], miners[i], i, e, f, ownerMinerUid, card, hours);
    }
    SameEarnedMap(a, b, card, hours);
    HasUidIsMembership(a, ownerUid);
    HasUidIsMembership(b, ownerUid);
    hide EarnedMap, EarnedSplit, HasUid, UidsOf, SamePay;
    assert |UidsOf(a)| == |a| && |UidsOf(b)| == |b| by {
      UidsLength(a);
      UidsLength(b);
    }
  }

  lemma UidsLength(a: seq<MinerInput>)
    ensures |UidsOf(a)| == |a|
  {
  }

  // ---- what a weight says about the evidence ----------------------------------------------

  /**
   * A miner whose nodes all report stale evidence when they are counted gets no weight, the staging miner included;
   * only the owner uid, which carries the remainder, is excepted.
   */
  lemma FrozenMinerGetsNothing(inputs: seq<MinerInput>, miners: seq<Miner>, e: Evidence, ownerMinerUid: int, i: nat,
                               card: map<string, real>, hours: real, ownerUid: int, pool: real)
    requires AreInputs(inputs, miners, e, ownerMinerUid) && i < |miners|
    requires pool > 0.0 && hours > 0.0 && NonNegative(card) && DistinctUids(inputs)
    requires HasUid(inputs, ownerUid) || SumPay(inputs, card, hours) > 0.0
    requires miners[i].uid != ownerUid
    requires forall j :: 0 <= j < |MinerNodes(e, miners[i])| ==> Frozen(MinerNodes(e, miners[i])[j], e.paid(i)(j))
    ensures Weight(inputs, card, hours, ownerUid, pool, miners[i].uid) == 0.0
  {
    var m := miners[i];
    assert IsInput(inputs[i], m, i, e, ownerMinerUid);
    forall k ensures CountedGpus(e, m, i, Staging(m, ownerMinerUid), k) == 0 {
      FrozenClusterEmpty(MinerNodes(e, m), e.paid(i), Staging(m, ownerMinerUid), k);
    }
    hide Eligible, ClassTotal, Weight, SumPay, HasUid, Frozen, Earns;
    EarnsIff(inputs[i], m, i, e, ownerMinerUid, card, hours);
    OnlyEarnersOrOwner(inputs, card, hours, ownerUid, pool, i);
  }

  /** The `j`-th node was Ready when judged and when counted, and is a schedulable node of eight GPUs or more. */
  ghost predicate LiveGpuNode(e: Evidence, m: Miner, i: nat, j: nat)
    requires j < |MinerNodes(e, m)|
  {
    var n := MinerNodes(e, m)[j];
    IsReady(n, e.validated(i)(j)) && IsReady(n, e.paid(i)(j)) && n.schedulable && n.gpuClass.Some?
        && GpuCount(n.gpuCount) >= FULL_NODE_GPUS
  }

  /** Weight of anyone but the owner means live GPU nodes, and but for the staging miner an unobjectionable cluster. */
  lemma WeightMeansEvidence(inputs: seq<MinerInput>, miners: seq<Miner>, e: Evidence, ownerMinerUid: int, i: nat,
                            card: map<string, real>, hours: real, ownerUid: int, pool: real)
    requires AreInputs(inputs, miners, e, ownerMinerUid) && i < |miners|
    requires pool > 0.0 && hours > 0.0 && NonNegative(card) && DistinctUids(inputs)
    requires HasUid(inputs, ownerUid) || SumPay(inputs, card, hours) > 0.0
    requires miners[i].uid != ownerUid
    requires forall j: nat :: e.validated(i)(j) <= e.paid(i)(j)
    requires Weight(inputs, card, hours, ownerUid, pool, miners[i].uid) != 0.0
    ensures exists j: nat :: && j < |MinerNodes(e, miners[i])| && LiveGpuNode(e, miners[i], i, j)
                             && PriceOf(card, MinerNodes(e, miners[i])[j].gpuClass.value) > 0.0
    ensures miners[i].uid != ownerMinerUid ==>
              Eligible(Bound(e.clusters, miners[i].hotkey), MinerNodes(e, miners[i]), e.validated(i))
  {
    var m := miners[i];
    var staging := Staging(m, ownerMinerUid);
    assert IsInput(inputs[i], m, i, e, ownerMinerUid);
    hide Weight, SumPay, HasUid, Earns, Eligible, ClassTotal, Counted, PriceOf, IsReady;
    OnlyEarnersOrOwner(inputs, card, hours, ownerUid, pool, i);
    EarnsIff(inputs[i], m, i, e, ownerMinerUid, card, hours);
    var k :| CountedGpus(e, m, i, Staging(m, ownerMinerUid), k) > 0 && PriceOf(card, k) > 0.0;
    CountedHasReadyNode(MinerNodes(e, m), e.paid(i), staging, k);
    var j: nat :| j < |MinerNodes(e, m)| && Counted(MinerNodes(e, m)[j], e.paid(i)(j), staging) > 0
        && MinerNodes(e, m)[j].gpuClass == Some(k);
    CountedWasReady(MinerNodes(e, m)[j], e.validated(i)(j), e.paid(i)(j), staging);
    CountedWasReady(MinerNodes(e, m)[j], e.paid(i)(j), e.paid(i)(j), staging);
    assert LiveGpuNode(e, m, i, j);
  }

  /** The override is complete: a ban, an unhealthy cluster or missing roles do not stop the owner's staging miner. */
  lemma BannedStagingMinerEarns(x: MinerInput, m: Miner, i: nat, e: Evidence, ownerMinerUid: int,
                                card: map<string, real>, hours: real)
    requires IsInput(x, m, i, e, ownerMinerUid) && NonNegative(card) && hours > 0.0
    requires Bound(e.clusters, m.hotkey) != [] && Bound(e.clusters, m.hotkey)[0].banned
    requires HasPricedGpus(m, i, e, ownerMinerUid, card)
    ensures Earns(x, card, hours) <==> m.uid == ownerMinerUid
  {
    hide HasPricedGpus, Earns;
    EarnsIff(x, m, i, e, ownerMinerUid, card, hours);
  }

  // ---- the whole cycle --------------------------------------------------------------------

  function HoursPerEpoch(tempo: nat): (h: real)
    ensures tempo > 0 ==> h > 0.0
  {
    (tempo * 12) as real / 3600.0
  }

  /** Scoring produces no vector exactly for an empty metagraph. */
  lemma EmptyVector(inputs: seq<MinerInput>, card: map<string, real>, hours: real, ownerUid: int, pool: real)
    requires pool > 0.0
    ensures Split(inputs, card, hours, ownerUid, pool) == map[] <==> inputs == []
  {
    var earned := EarnedMap(inputs, card, hours);
    EarnedTotalPositive(inputs, card, hours);
    if earned != map[] {
      var u := SomeKey(earned);
      assert u in EarnedSplit(earned, ownerUid, HasUid(inputs, ownerUid), pool);
    } else if inputs != [] {
      assert UidsOf(inputs)[0] == inputs[0].uid;
      assert inputs[0].uid in EvenShares(inputs);
      assert ownerUid in map[ownerUid := 1.0];
    }
  }

  /** What a record earns in one hour. */
  ghost function Hourly(x: MinerInput, card: map<string, real>): real {
    if x.ready then Max(0.0, Target(x, card) * ClampedTenure(x)) else 0.0
  }

  /**
   * An epoch is `tempo` blocks of twelve seconds: while the pool suffices for what is earned in that time, every weight
   * but the owner's is worth its miner's hourly earnings for just so long.
   */
  ghost predicate PaysByTempo(vector: map<int, real>, inputs: seq<MinerInput>, card: map<string, real>, tempo: nat,
                              ownerUid: int, pool: real)
  {
    forall i, hours :: && 0 <= i < |inputs| && inputs[i].uid != ownerUid
                       && hours * 3600.0 == 12.0 * tempo as real && SumPay(inputs, card, hours) <= pool ==>
      && inputs[i].uid in vector
      && vector[inputs[i].uid] * pool * 3600.0 == Hourly(inputs[i], card) * (12.0 * tempo as real)
  }

  lemma HoursOfTempo(tempo: nat, hours: real)
    requires hours * 3600.0 == 12.0 * tempo as real
    ensures HoursPerEpoch(tempo) == hours && hours >= 0.0
  {
  }

  lemma HourlyForHours(w: real, pool: real, target: real, tenure: real, hours: real, seconds: real)
    requires w * pool == Max(0.0, target * tenure * hours) && hours * 3600.0 == seconds && hours >= 0.0
    ensures w * pool * 3600.0 == Max(0.0, target * tenure) * seconds
  {
    var earned := target * tenure;
    if earned >= 0.0 {
      assert earned * hours >= 0.0;
      assert earned * (hours * 3600.0) == earned * hours * 3600.0;
    } else {
      assert earned * hours <= 0.0;
    }
  }

  lemma SubmittedEntry(inputs: seq<MinerInput>, card: map<string, real>, hours: real, ownerUid: int, pool: real, i: nat)
    requires pool > 0.0 && i < |inputs|
    ensures var vector := Submitted(inputs, card, hours, ownerUid, pool);
            && inputs[i].uid in vector
            && vector[inputs[i].uid] == Weight(inputs, card, hours, ownerUid, pool, inputs[i].uid)
  {
    hide Split;
    assert UidsOf(inputs)[i] == inputs[i].uid;
  }

  lemma EntryPaysByTempo(inputs: seq<MinerInput>, card: map<string, real>, tempo: nat, hours: real, ownerUid: int,
                         pool: real, i: nat)
    requires pool > 0.0 && DistinctUids(inputs) && HasUid(inputs, ownerUid)
    requires i < |inputs| && inputs[i].uid != ownerUid
    requires hours * 3600.0 == 12.0 * tempo as real && SumPay(inputs, card, hours) <= pool
    ensures var vector := Submitted(inputs, card, HoursPerEpoch(tempo), ownerUid, pool);
            && inputs[i].uid in vector
            && vector[inputs[i].uid] * pool * 3600.0 == Hourly(inputs[i], card) * (12.0 * tempo as real)
  {
    hide *;
    HoursOfTempo(tempo, hours);
    SubmittedEntry(inputs, card, hours, ownerUid, pool, i);
    EntryPaysByHours(inputs, card, hours, ownerUid, pool, i, 12.0 * tempo as real);
  }

  lemma EntryPaysByHours(inputs: seq<MinerInput>, card: map<string, real>, hours: real, ownerUid: int, pool: real,
                         i: nat, seconds: real)
    requires pool > 0.0 && DistinctUids(inputs) && HasUid(inputs, ownerUid)
    requires i < |inputs| && inputs[i].uid != ownerUid
    requires hours * 3600.0 == seconds && hours >= 0.0 && SumPay(inputs, card, hours) <= pool
    ensures Weight(inputs, card, hours, ownerUid, pool, inputs[i].uid) * pool * 3600.0
         == Hourly(inputs[i], card) * seconds
  {
    hide Weight, SumPay, Target, HasUid, DistinctUids;
    var x := inputs[i];
    var w := Weight(inputs, card, hours, ownerUid, pool, x.uid);
    DollarsWithinPool(inputs, card, hours, ownerUid, pool, i);
    var target, tenure := Target(x, card), ClampedTenure(x);
    if x.ready {
      HourlyForHours(w, pool, target, tenure, hours, seconds);
    } else {
      assert w * pool == 0.0;
    }
  }

  lemma VectorPaysByTempo(inputs: seq<MinerInput>, card: map<string, real>, tempo: nat, ownerUid: int, pool: real)
    requires pool > 0.0 && DistinctUids(inputs) && HasUid(inputs, ownerUid)
    ensures PaysByTempo(Submitted(inputs, card, HoursPerEpoch(tempo), ownerUid, pool), inputs, card, tempo, ownerUid,
                        pool)
  {
    hide SumPay, Hourly, HasUid, DistinctUids, Submitted, HoursPerEpoch;
    forall i, hours | && 0 <= i < |inputs| && inputs[i].uid != ownerUid
                      && hours * 3600.0 == 12.0 * tempo as real && SumPay(inputs, card, hours) <= pool
      ensures var vector := Submitted(inputs, card, HoursPerEpoch(tempo), ownerUid, pool);
              && inputs[i].uid in vector
              && vector[inputs[i].uid] * pool * 3600.0 == Hourly(inputs[i], card) * (12.0 * tempo as real)
    {
      EntryPaysByTempo(inputs, card, tempo, hours, ownerUid, pool, i);
    }
  }

  /** Scoring and padding: from the evidence to the vector, or nothing for an empty metagraph. */
  method VectorOf(miners: seq<Miner>, e: Evidence, card: map<string, real>, tempo: nat, ownerUid: int,
                  ownerMinerUid: int, pool: real)
    returns (vector: Option<map<int, real>>, inputs: seq<MinerInput>)
    requires pool > 0.0
    ensures AreInputs(inputs, miners, e, ownerMinerUid)
    ensures vector == if miners == [] then None else Some(Submitted(inputs, card, HoursPerEpoch(tempo), ownerUid, pool))
    ensures vector.Some? && DistinctUids(inputs) && HasUid(inputs, ownerUid) ==>
              PaysByTempo(vector.value, inputs, card, tempo, ownerUid, pool)
  {
    inputs := InputsOf(miners, e, ownerMinerUid);
    if DistinctUids(inputs) && HasUid(inputs, ownerUid) {
      VectorPaysByTempo(inputs, card, tempo, ownerUid, pool);
    }
    hide Split, AreInputs, PaysByTempo;
    LengthsAgree(inputs, miners, e, ownerMinerUid);
    var result := ComputeWeights(inputs, card, HoursPerEpoch(tempo), ownerUid, pool);
    if result.PoolNotPositive? {
      return None, inputs;
    }
    EmptyVector(inputs, card, HoursPerEpoch(tempo), ownerUid, pool);
    if result.scores.weights == map[] {
      return None, inputs;
    }
    vector := Some(PadTo(result.scores.weights, UidsOf(inputs)));
  }

  lemma LengthsAgree(inputs: seq<MinerInput>, miners: seq<Miner>, e: Evidence, ownerMinerUid: int)
    requires AreInputs(inputs, miners, e, ownerMinerUid)
    ensures inputs == [] <==> miners == []
  {
  }

  // ---- what a weight is worth -------------------------------------------------------------

  /**
   * The point of the pool: while it suffices, the miner's share of the miners' half of the emission, at the price the
   * pool was computed with, is worth exactly GPUs x card price x tenure x hours.
   */
  lemma AlphaWorthEarnings(inputs: seq<MinerInput>, i: nat, card: map<string, real>, hours: real, ownerUid: int,
                           graph: Option<Graph>, taoUsd: real)
    requires PoolKnown(graph, taoUsd) && PoolUsd(graph, taoUsd) > 0.0
    requires DistinctUids(inputs) && HasUid(inputs, ownerUid) && i < |inputs|
    requires SumPay(inputs, card, hours) <= PoolUsd(graph, taoUsd)
    requires inputs[i].uid != ownerUid
    ensures var alpha := Weight(inputs, card, hours, ownerUid, PoolUsd(graph, taoUsd), inputs[i].uid)
                         * (EmittedAlpha(graph) * MINER_EMISSION_SHARE);
            alpha * (taoUsd * SpotOf(graph)) ==
            if inputs[i].ready then Max(0.0, Target(inputs[i], card) * ClampedTenure(inputs[i]) * hours) else 0.0
  {
    hide Weight, SumPay, Target, HasUid, EmittedAlpha;
    DollarsWithinPool(inputs, card, hours, ownerUid, PoolUsd(graph, taoUsd), i);
    Rearrange(Weight(inputs, card, hours, ownerUid, PoolUsd(graph, taoUsd), inputs[i].uid),
              EmittedAlpha(graph) * MINER_EMISSION_SHARE, taoUsd * SpotOf(graph));
  }

  /**
   * Without emission, spot price or TAO/USD the pool is one dollar, and earnings beyond it leave nothing to recycle.
   */
  lemma UnknownPoolRecyclesNothing(inputs: seq<MinerInput>, i: nat, card: map<string, real>, hours: real, ownerUid: int,
                                   graph: Option<Graph>, taoUsd: real)
    requires !PoolKnown(graph, taoUsd) && SumPay(inputs, card, hours) >= 1.0
    requires DistinctUids(inputs) && HasUid(inputs, ownerUid) && i < |inputs|
    ensures PoolUsd(graph, taoUsd) == 1.0
    ensures Weight(inputs, card, hours, ownerUid, 1.0, inputs[i].uid)
         == Pay(inputs[i], card, hours) / SumPay(inputs, card, hours)
  {
    hide Weight, SumPay, Pay, HasUid;
    WeightWithOwner(inputs, card, hours, ownerUid, 1.0, i);
    QuotientSign(SumPay(inputs, card, hours), SumPay(inputs, card, hours));
  }
}
