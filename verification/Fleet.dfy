/** The pot against the fleet: what all miners earn together never exceeds the price of the hardware Rancher lists. */
module Fleet {
  import opened Cycle
  import opened Inventory
  import opened Payroll
  import opened Prelude
  import opened Ratios
  import opened Readiness
  import opened Scoring
  import opened ScoringLaws
  import opened Totals

  // ---- totals of several tables -----------------------------------------------------------

  lemma {:induction false} TotalAdd<K(!new)>(a: map<K, real>, b: map<K, real>, c: map<K, real>)
    requires a.Keys == b.Keys == c.Keys && forall k :: k in c ==> c[k] == a[k] + b[k]
    ensures Total(c) == Total(a) + Total(b)
    decreases |c|
  {
    if c == map[] {
      assert a == map[] && b == map[];
    } else {
      var k := SomeKey(c);
      TotalRemove(a, k);
      TotalRemove(b, k);
      TotalRemove(c, k);
      assert |(c - {k}).Keys| < |c.Keys|;
      TotalAdd(a - {k}, b - {k}, c - {k});
    }
  }

  lemma {:induction false} TotalMonotone<K(!new)>(a: map<K, real>, b: map<K, real>)
    requires a.Keys == b.Keys && forall k :: k in a ==> a[k] <= b[k]
    ensures Total(a) <= Total(b)
    decreases |a|
  {
    if a == map[] {
      assert b == map[];
    } else {
      var k := SomeKey(a);
      TotalRemove(a, k);
      TotalRemove(b, k);
      assert |(a - {k}).Keys| < |a.Keys|;
      TotalMonotone(a - {k}, b - {k});
    }
  }

  // ---- the value of GPUs ------------------------------------------------------------------

  /** `price * count` */
  function Value(card: map<string, real>, klass: string, count: real): real {
    PriceOf(card, klass) * count
  }

  lemma ValueLaws(card: map<string, real>, klass: string, a: real, b: real)
    requires NonNegative(card)
    ensures a >= 0.0 ==> Value(card, klass, a) >= 0.0
    ensures a <= b ==> Value(card, klass, a) <= Value(card, klass, b)
    ensures Value(card, klass, a + b) == Value(card, klass, a) + Value(card, klass, b)
  {
    Expand(PriceOf(card, klass), a, b);
    if a >= 0.0 {
      NonNegativeProduct(PriceOf(card, klass), a);
    }
    if a <= b {
      ProductOrder(a, b, PriceOf(card, klass));
    }
  }

  /** GPUs of one class the `i`-th miner is paid for. */
  ghost function PaidGpus(e: Evidence, m: Miner, i: nat, staging: bool, klass: string): nat {
    PaidFor(e, m.hotkey, i, staging, klass)
  }

  /** Hourly USD per class of those GPUs. */
  ghost function MinerTable(e: Evidence, m: Miner, i: nat, staging: bool, classes: set<string>, card: map<string, real>)
    : map<string, real>
  {
    map k | k in classes :: Value(card, k, PaidGpus(e, m, i, staging, k) as real)
  }

  function StagingAt(miners: seq<Miner>, ownerMinerUid: int): nat -> bool {
    (i: nat) => i < |miners| && Staging(miners[i], ownerMinerUid)
  }

  ghost function CreditedGpus(e: Evidence, miners: seq<Miner>, n: nat, ownerMinerUid: int, klass: string): nat
    requires n <= |miners|
  {
    Paid(e, HotkeysOf(miners)[..n], StagingAt(miners, ownerMinerUid), klass)
  }

  /** Hourly USD per class of the GPUs the first `n` miners are paid for. */
  ghost function CreditTable(e: Evidence, miners: seq<Miner>, n: nat, ownerMinerUid: int, classes: set<string>,
                             card: map<string, real>): map<string, real>
    requires n <= |miners|
  {
    map k | k in classes :: Value(card, k, CreditedGpus(e, miners, n, ownerMinerUid, k) as real)
  }

  ghost function FleetGpus(e: Evidence, klass: string): real {
    Total(CapacityByCluster(e.nodesByCluster, klass))
  }

  /** Hourly USD per class of every GPU in the whole inventory, live or not. */
  ghost function FleetTable(e: Evidence, classes: set<string>, card: map<string, real>): map<string, real> {
    map k | k in classes :: Value(card, k, FleetGpus(e, k))
  }

  ghost predicate CoversClasses(classes: set<string>, e: Evidence) {
    forall id, n :: id in e.nodesByCluster && n in e.nodesByCluster[id] && n.gpuClass.Some? ==>
        n.gpuClass.value in classes
  }

  lemma CountedClassCovered(e: Evidence, m: Miner, i: nat, staging: bool, classes: set<string>, klass: string)
    requires CoversClasses(classes, e) && CountedGpus(e, m, i, staging, klass) > 0
    ensures klass in classes
  {
    var nodes := MinerNodes(e, m);
    CountedHasReadyNode(nodes, e.paid(i), staging, klass);
    var j :| 0 <= j < |nodes| && Counted(nodes[j], e.paid(i)(j), staging) > 0 && nodes[j].gpuClass == Some(klass);
    var id := ClusterId(Bound(e.clusters, m.hotkey)[0]);
    assert nodes == e.nodesByCluster[id] && nodes[j] in nodes;
  }

  function ClassesListed(s: seq<(string, int)>): (keys: seq<string>)
    ensures |keys| == |s| && forall i :: 0 <= i < |s| ==> keys[i] == s[i].0
  {
    seq(|s|, i requires 0 <= i < |s| => s[i].0)
  }

  lemma {:induction false} UsdAtClasses(s: seq<(string, int)>, table: map<string, real>, card: map<string, real>)
    requires forall i :: 0 <= i < |s| ==> s[i].0 in table && table[s[i].0] == PriceOf(card, s[i].0) * s[i].1 as real
    ensures forall k :: k in ClassesListed(s) ==> k in table
    ensures UsdOfBreakdown(s, card) == SumAt(table, ClassesListed(s))
  {
    if s != [] {
      var n := |s| - 1;
      UsdAtClasses(s[..n], table, card);
      assert ClassesListed(s)[..n] == ClassesListed(s[..n]);
    }
  }

  lemma UsdWithinTable(s: seq<(string, int)>, table: map<string, real>, card: map<string, real>)
    requires forall i :: 0 <= i < |s| ==> s[i].0 in table && table[s[i].0] == PriceOf(card, s[i].0) * s[i].1 as real
    requires forall i, j :: 0 <= i < j < |s| ==> s[i].0 != s[j].0
    requires forall k :: k in table ==> table[k] >= 0.0
    ensures UsdOfBreakdown(s, card) <= Total(table)
  {
    UsdAtClasses(s, table, card);
    SumAtDistinct(table, ClassesListed(s));
  }

  lemma PaidIfReady(e: Evidence, m: Miner, i: nat, staging: bool, klass: string)
    requires ReadyMiner(e, m.hotkey, i, staging)
    ensures PaidGpus(e, m, i, staging, klass) == CountedGpus(e, m, i, staging, klass)
  {
    hide ReadyMiner, ClassTotal, NodesOf;
  }

  lemma TableEntry(e: Evidence, m: Miner, i: nat, staging: bool, classes: set<string>, card: map<string, real>,
                   klass: string, count: int)
    requires NonNegative(card) && CoversClasses(classes, e)
    requires ReadyMiner(e, m.hotkey, i, staging)
    requires count == CountedGpus(e, m, i, staging, klass) && count > 0
    ensures klass in MinerTable(e, m, i, staging, classes, card)
    ensures MinerTable(e, m, i, staging, classes, card)[klass] == PriceOf(card, klass) * count as real
  {
    hide CountedGpus, PaidGpus, ReadyMiner, CoversClasses, PriceOf, NonNegative;
    CountedClassCovered(e, m, i, staging, classes, klass);
    PaidIfReady(e, m, i, staging, klass);
  }

  lemma MinerNonNegative(e: Evidence, m: Miner, i: nat, staging: bool, classes: set<string>, card: map<string, real>)
    requires NonNegative(card)
    ensures var table := MinerTable(e, m, i, staging, classes, card);
            Total(table) >= 0.0 && forall k :: k in table ==> table[k] >= 0.0
  {
    var table := MinerTable(e, m, i, staging, classes, card);
    forall k | k in table ensures table[k] >= 0.0 {
      ValueLaws(card, k, PaidGpus(e, m, i, staging, k) as real, 0.0);
    }
    TotalNonNegative(table);
  }

  /** One miner's hourly target is within its table. */
  lemma TargetWithinTable(x: MinerInput, m: Miner, i: nat, e: Evidence, ownerMinerUid: int, classes: set<string>,
                          card: map<string, real>)
    requires IsInput(x, m, i, e, ownerMinerUid) && NonNegative(card) && CoversClasses(classes, e)
    ensures Target(x, card) <= Total(MinerTable(e, m, i, Staging(m, ownerMinerUid), classes, card))
  {
    var staging := Staging(m, ownerMinerUid);
    var s := x.gpuBreakdown;
    hide ClassTotal, Eligible, UsdOfBreakdown, PriceOf, MinerTable, CoversClasses;
    var table := MinerTable(e, m, i, staging, classes, card);
    MinerNonNegative(e, m, i, staging, classes, card);
    if s != [] {
      forall j | 0 <= j < |s| ensures s[j].0 in table && table[s[j].0] == PriceOf(card, s[j].0) * s[j].1 as real {
        TableEntry(e, m, i, staging, classes, card, s[j].0, s[j].1);
      }
      UsdWithinTable(s, table, card);
    }
  }

  lemma CreditedStep(e: Evidence, miners: seq<Miner>, n: nat, ownerMinerUid: int, klass: string)
    requires n < |miners|
    ensures CreditedGpus(e, miners, n + 1, ownerMinerUid, klass)
         == CreditedGpus(e, miners, n, ownerMinerUid, klass)
            + PaidGpus(e, miners[n], n, Staging(miners[n], ownerMinerUid), klass)
  {
    assert HotkeysOf(miners)[..n + 1][..n] == HotkeysOf(miners)[..n];
  }

  lemma CreditStepAt(e: Evidence, miners: seq<Miner>, n: nat, ownerMinerUid: int, card: map<string, real>,
                     klass: string)
    requires n < |miners| && NonNegative(card)
    ensures Value(card, klass, CreditedGpus(e, miners, n + 1, ownerMinerUid, klass) as real)
         == Value(card, klass, CreditedGpus(e, miners, n, ownerMinerUid, klass) as real)
            + Value(card, klass, PaidGpus(e, miners[n], n, Staging(miners[n], ownerMinerUid), klass) as real)
  {
    hide Value, CreditedGpus, PaidGpus, NonNegative;
    CreditedStep(e, miners, n, ownerMinerUid, klass);
    ValueLaws(card, klass, CreditedGpus(e, miners, n, ownerMinerUid, klass) as real,
              PaidGpus(e, miners[n], n, Staging(miners[n], ownerMinerUid), klass) as real);
  }

  lemma CreditStep(e: Evidence, miners: seq<Miner>, n: nat, ownerMinerUid: int, classes: set<string>,
                   card: map<string, real>)
    requires n < |miners| && NonNegative(card)
    ensures Total(CreditTable(e, miners, n + 1, ownerMinerUid, classes, card))
         == Total(CreditTable(e, miners, n, ownerMinerUid, classes, card))
            + Total(MinerTable(e, miners[n], n, Staging(miners[n], ownerMinerUid), classes, card))
  {
    var staging := Staging(miners[n], ownerMinerUid);
    var before := CreditTable(e, miners, n, ownerMinerUid, classes, card);
    var own := MinerTable(e, miners[n], n, staging, classes, card);
    var after := CreditTable(e, miners, n + 1, ownerMinerUid, classes, card);
    hide Value, CreditedGpus, PaidGpus, Total, NonNegative, HotkeysOf, Staging;
    forall k | k in after ensures after[k] == before[k] + own[k] {
      CreditStepAt(e, miners, n, ownerMinerUid, card, k);
    }
    TotalAdd(before, own, after);
  }

  /** USD per epoch at an hourly rate. */
  function PerEpoch(hourly: real, hours: real): real {
    hourly * hours
  }

  lemma PerEpochLaws(a: real, b: real, hours: real)
    requires hours >= 0.0
    ensures a <= b ==> PerEpoch(a, hours) <= PerEpoch(b, hours)
    ensures PerEpoch(a + b, hours) == PerEpoch(a, hours) + PerEpoch(b, hours)
    ensures PerEpoch(0.0, hours) == 0.0
  {
    Expand(hours, a, b);
    if a <= b {
      ProductOrder(a, b, hours);
    }
  }

  lemma CreditNonNegative(e: Evidence, miners: seq<Miner>, n: nat, ownerMinerUid: int, classes: set<string>,
                          card: map<string, real>)
    requires n <= |miners| && NonNegative(card)
    ensures Total(CreditTable(e, miners, n, ownerMinerUid, classes, card)) >= 0.0
  {
    var table := CreditTable(e, miners, n, ownerMinerUid, classes, card);
    forall k | k in table ensures table[k] >= 0.0 {
      ValueLaws(card, k, CreditedGpus(e, miners, n, ownerMinerUid, k) as real, 0.0);
    }
    TotalNonNegative(table);
  }

  lemma PayWithin(x: MinerInput, card: map<string, real>, hours: real, bound: real)
    requires x.tenure == 1.0 && Target(x, card) <= bound && bound >= 0.0 && hours >= 0.0
    ensures Pay(x, card, hours) <= PerEpoch(bound, hours)
  {
    hide Target;
    PerEpochLaws(Target(x, card), bound, hours);
    PerEpochLaws(0.0, bound, hours);
  }

  lemma SumPayStep(inputs: seq<MinerInput>, i: nat, card: map<string, real>, hours: real)
    requires i < |inputs|
    ensures SumPay(inputs[..i + 1], card, hours) == SumPay(inputs[..i], card, hours) + Pay(inputs[i], card, hours)
  {
    assert inputs[..i + 1][..i] == inputs[..i];
  }

  lemma PayWithinTable(inputs: seq<MinerInput>, miners: seq<Miner>, e: Evidence, ownerMinerUid: int, i: nat,
                       classes: set<string>, card: map<string, real>, hours: real)
    requires AreInputs(inputs, miners, e, ownerMinerUid) && i < |miners|
    requires NonNegative(card) && hours >= 0.0 && CoversClasses(classes, e)
    ensures Pay(inputs[i], card, hours)
         <= PerEpoch(Total(MinerTable(e, miners[i], i, Staging(miners[i], ownerMinerUid), classes, card)), hours)
  {
    hide MinerTable, Target, CoversClasses, Pay, IsListing, Eligible;
    assert IsInput(inputs[i], miners[i], i, e, ownerMinerUid);
    TargetWithinTable(inputs[i], miners[i], i, e, ownerMinerUid, classes, card);
    MinerNonNegative(e, miners[i], i, Staging(miners[i], ownerMinerUid), classes, card);
    PayWithin(inputs[i], card, hours,
              Total(MinerTable(e, miners[i], i, Staging(miners[i], ownerMinerUid), classes, card)));
  }

  ghost predicate PotFits(inputs: seq<MinerInput>, miners: seq<Miner>, e: Evidence, ownerMinerUid: int, n: nat,
                          classes: set<string>, card: map<string, real>, hours: real)
    requires |inputs| == |miners| && n <= |miners|
  {
    SumPay(inputs[..n], card, hours) <= PerEpoch(Total(CreditTable(e, miners, n, ownerMinerUid, classes, card)), hours)
  }

  lemma PotStep(inputs: seq<MinerInput>, miners: seq<Miner>, e: Evidence, ownerMinerUid: int, i: nat,
                classes: set<string>, card: map<string, real>, hours: real)
    requires AreInputs(inputs, miners, e, ownerMinerUid) && i < |miners|
    requires NonNegative(card) && hours >= 0.0 && CoversClasses(classes, e)
    requires PotFits(inputs, miners, e, ownerMinerUid, i, classes, card, hours)
    ensures PotFits(inputs, miners, e, ownerMinerUid, i + 1, classes, card, hours)
  {
    assert |inputs| == |miners|;
    hide AreInputs, NonNegative, CoversClasses, SumPay, Pay, PerEpoch, Total, CreditTable, MinerTable;
    CreditStep(e, miners, i, ownerMinerUid, classes, card);
    SumPayStep(inputs, i, card, hours);
    PayWithinTable(inputs, miners, e, ownerMinerUid, i, classes, card, hours);
    PerEpochLaws(Total(CreditTable(e, miners, i, ownerMinerUid, classes, card)),
                 Total(MinerTable(e, miners[i], i, Staging(miners[i], ownerMinerUid), classes, card)), hours);
  }

  lemma {:induction false} PotWithinCredit(inputs: seq<MinerInput>, miners: seq<Miner>, e: Evidence,
                                           ownerMinerUid: int, n: nat,
                                           classes: set<string>, card: map<string, real>, hours: real)
    requires AreInputs(inputs, miners, e, ownerMinerUid) && n <= |miners|
    requires NonNegative(card) && hours >= 0.0 && CoversClasses(classes, e)
    ensures PotFits(inputs, miners, e, ownerMinerUid, n, classes, card, hours)
    decreases n
  {
    if n == 0 {
      CreditNonNegative(e, miners, 0, ownerMinerUid, classes, card);
      hide CreditTable, AreInputs, NonNegative, CoversClasses, PerEpoch, Total;
      PerEpochLaws(0.0, Total(CreditTable(e, miners, 0, ownerMinerUid, classes, card)), hours);
    } else {
      PotWithinCredit(inputs, miners, e, ownerMinerUid, n - 1, classes, card, hours);
      PotStep(inputs, miners, e, ownerMinerUid, n - 1, classes, card, hours);
    }
  }

  lemma CreditWithinFleet(miners: seq<Miner>, e: Evidence, ownerMinerUid: int, card: map<string, real>, klass: string)
    requires NonNegative(card) && ReadyIdsDistinct(e.clusters, HotkeysOf(miners), StagingAt(miners, ownerMinerUid))
    ensures Value(card, klass, CreditedGpus(e, miners, |miners|, ownerMinerUid, klass) as real)
         <= Value(card, klass, FleetGpus(e, klass))
  {
    assert HotkeysOf(miners)[..|miners|] == HotkeysOf(miners);
    hide Paid, CapacityByCluster, Total, Value, NonNegative, ReadyIdsDistinct;
    NoNodePaysTwice(e, HotkeysOf(miners), StagingAt(miners, ownerMinerUid), klass);
    ValueLaws(card, klass, CreditedGpus(e, miners, |miners|, ownerMinerUid, klass) as real, FleetGpus(e, klass));
  }

  lemma TablesOrdered(miners: seq<Miner>, e: Evidence, ownerMinerUid: int, classes: set<string>,
                      card: map<string, real>)
    requires NonNegative(card) && ReadyIdsDistinct(e.clusters, HotkeysOf(miners), StagingAt(miners, ownerMinerUid))
    ensures Total(CreditTable(e, miners, |miners|, ownerMinerUid, classes, card)) <= Total(FleetTable(e, classes, card))
  {
    hide CreditedGpus, FleetGpus, Value, PriceOf, ReadyIdsDistinct, HotkeysOf, NonNegative, Total;
    var credit, fleet := CreditTable(e, miners, |miners|, ownerMinerUid, classes, card), FleetTable(e, classes, card);
    forall k | k in credit ensures k in fleet && credit[k] <= fleet[k] {
      CreditWithinFleet(miners, e, ownerMinerUid, card, k);
    }
    TotalMonotone(credit, fleet);
  }

  /**
   * Per epoch all miners together earn at most the card price of every GPU that Rancher lists, each taken once: no
   * arrangement of labels over hotkeys makes one GPU count for two miners.
   */
  lemma PotWithinFleet(inputs: seq<MinerInput>, miners: seq<Miner>, e: Evidence, ownerMinerUid: int,
                       classes: set<string>, card: map<string, real>, hours: real)
    requires AreInputs(inputs, miners, e, ownerMinerUid)
    requires ReadyIdsDistinct(e.clusters, HotkeysOf(miners), StagingAt(miners, ownerMinerUid))
    requires NonNegative(card) && hours >= 0.0 && CoversClasses(classes, e)
    ensures SumPay(inputs, card, hours) <= PerEpoch(Total(FleetTable(e, classes, card)), hours)
  {
    PotWithinCredit(inputs, miners, e, ownerMinerUid, |miners|, classes, card, hours);
    assert inputs[..|miners|] == inputs;
    hide *;
    TablesOrdered(miners, e, ownerMinerUid, classes, card);
    PerEpochLaws(Total(CreditTable(e, miners, |miners|, ownerMinerUid, classes, card)),
                 Total(FleetTable(e, classes, card)), hours);
  }
}
