/**
 From a node to a weight in plain numbers: what a listing is worth an hour, what a record of a cluster's nodes lists,
 and what the weight of a whole cycle pays.
 */
module WorthLaws {
  import opened CardCycle
  import opened Chain
  import opened Cycle
  import opened CyclePrices
  import opened Inventory
  import opened ParseLaws
  import opened PayoutFeed
  import opened Prelude
  import opened PriceCard
  import opened PriceFeed
  import opened Readiness
  import opened ReadinessLaws
  import opened Scoring
  import opened ScoringLaws
  import opened Validator

  // ---- an hour ----------------------------------------------------------------------------

  /** The price of a class under its upper-case name, zero for one the card does not have. */
  function PriceIn(card: Prices, klass: string): real {
    if Upper(klass) in card then card[Upper(klass)] else 0.0
  }

  /** A listing is worth the sum of its entries, each its count at the price of its class. */
  lemma ListingWorth(s: seq<(string, int)>, klass: string, count: int, card: Prices)
    ensures UsdOfBreakdown([], card) == 0.0
    ensures UsdOfBreakdown(s + [(klass, count)], card) - UsdOfBreakdown(s, card) == PriceIn(card, klass) * count as real
  {
    assert (s + [(klass, count)])[..|s|] == s;
  }

  /** A record's hourly target: its listing if it has one, else eight GPUs a worker of its dominant class. */
  lemma TargetIs(x: MinerInput, card: Prices)
    ensures x.gpuBreakdown != [] ==> Target(x, card) == UsdOfBreakdown(x.gpuBreakdown, card)
    ensures x.gpuBreakdown == [] && x.gpuClass.Some? && x.gpuWorkers > 0 ==>
              Target(x, card) == 8.0 * PriceIn(card, x.gpuClass.value) * x.gpuWorkers as real
    ensures x.gpuBreakdown == [] && (x.gpuClass == None || x.gpuWorkers <= 0) ==> Target(x, card) == 0.0
    ensures ClampedTenure(x) == if x.tenure < 0.0 then 0.0 else if x.tenure > 1.0 then 1.0 else x.tenure
  {
    hide UsdOfBreakdown;
  }

  // ---- a record ---------------------------------------------------------------------------

  lemma OnlyClass(s: seq<(string, int)>, klass: string, card: Prices)
    requires |s| <= 1 && forall i :: 0 <= i < |s| ==> s[i].0 == klass
    ensures UsdOfBreakdown(s, card) == PriceIn(card, klass) * (if s == [] then 0 else s[0].1) as real
  {
    ListingWorth([], klass, if s == [] then 0 else s[0].1, card);
    assert s != [] ==> [] + [(klass, s[0].1)] == s;
    hide UsdOfBreakdown, PriceIn;
  }

  lemma AtMostOne(s: seq<(string, int)>, klass: string)
    requires forall i, j :: 0 <= i < j < |s| ==> s[i].0 != s[j].0
    requires forall i :: 0 <= i < |s| ==> s[i].0 == klass
    ensures |s| <= 1
  {
    ghost var names := seq(|s|, i requires 0 <= i < |s| => s[i].0);
    if |s| > 1 {
      Twice(names, klass);
    }
  }

  lemma Twice(names: seq<string>, klass: string)
    requires |names| > 1 && forall i :: 0 <= i < |names| ==> names[i] == klass
    ensures names[0] == names[1]
  {
  }

  /** A node counts `n` GPUs for a miner; only the staging miner gets by with a node that is merely capable of TDX. */
  ghost predicate Counts(node: Node, now: real, n: int, staging: bool) {
    && SaysCount(node, n) && n >= 8
    && Alive(node, now) && node.schedulable && node.gpuClass.Some?
    && ((node.vmPassthrough && node.kataConfidential) || (staging && node.tdxCapable))
  }

  ghost predicate CountsNothing(node: Node, now: real, staging: bool) {
    forall n :: !Counts(node, now, n, staging)
  }

  lemma OneNodeTotal(node: Node, clock: nat -> real, tdxCounts: bool, klass: string, n: int)
    ensures node.gpuClass == Some(klass) && Counts(node, clock(0), n, tdxCounts) ==>
              ClassTotal([node], clock, tdxCounts, klass) == n
    ensures CountsNothing(node, clock(0), tdxCounts) || node.gpuClass != Some(klass) ==>
              ClassTotal([node], clock, tdxCounts, klass) == 0
  {
    TotalOfOneMore([], node, clock, tdxCounts, klass);
    assert [] + [node] == [node];
    CountedIff(node, clock(0), tdxCounts, n);
    var counted := Counted(node, clock(0), tdxCounts);
    CountedIff(node, clock(0), tdxCounts, counted);
    assert counted > 0 ==> Counts(node, clock(0), counted, tdxCounts);
    hide Counted, ClassTotal, Alive, SaysCount, Counts;
  }

  lemma OneNodeListing(s: seq<(string, int)>, node: Node, clock: nat -> real, staging: bool, card: Prices, n: int)
    requires IsListing(s, [node], clock, staging)
    ensures node.gpuClass.Some? && Counts(node, clock(0), n, staging) ==>
              UsdOfBreakdown(s, card) == PriceIn(card, node.gpuClass.value) * n as real
    ensures CountsNothing(node, clock(0), staging) ==> UsdOfBreakdown(s, card) == 0.0
  {
    hide ClassTotal, UsdOfBreakdown, Counts, CountsNothing, PriceIn;
    var klass := node.gpuClass.GetOr("");
    forall j | 0 <= j < |s| ensures s[j].0 == klass {
      OneNodeTotal(node, clock, staging, s[j].0, n);
    }
    OneNodeTotal(node, clock, staging, klass, n);
    AtMostOne(s, klass);
    OnlyClass(s, klass, card);
  }

  /**
   * A ready miner with one node earns its count at its class's price an hour, if the node counts at the reading its
   * payout is made with; and otherwise nothing.  Ready is who is eligible, and the staging miner in any case.
   */
  lemma OneNodeHourly(x: MinerInput, m: Miner, i: nat, e: Evidence, ownerMinerUid: int, card: Prices, node: Node,
                      n: int)
    requires IsInput(x, m, i, e, ownerMinerUid)
    requires NodesOf(e.clusters, e.nodesByCluster, m.hotkey) == [node]
    ensures x.uid == m.uid && x.tenure == 1.0
    ensures x.ready <==> m.uid == ownerMinerUid || Eligible(Bound(e.clusters, m.hotkey), [node], e.validated(i))
    ensures x.ready && node.gpuClass.Some? && Counts(node, e.paid(i)(0), n, m.uid == ownerMinerUid) ==>
              Target(x, card) == PriceIn(card, node.gpuClass.value) * n as real
    ensures !x.ready || CountsNothing(node, e.paid(i)(0), m.uid == ownerMinerUid) ==> Target(x, card) == 0.0
  {
    RecordSays(x, m, i, e, ownerMinerUid);
    TargetOfRecord(x, card);
    assert MinerNodes(e, m) == [node];
    hide Eligible, IsListing, Counts, CountsNothing, PriceIn, Target, IsInput, Bound;
    if x.ready {
      OneNodeListing(x.gpuBreakdown, node, e.paid(i), m.uid == ownerMinerUid, card, n);
    }
  }

  /** The last record of a uid that earns anything decides, should a uid be listed twice. */
  lemma {:induction false} EarnedIff(miners: seq<MinerInput>, card: Prices, hours: real, uid: int, usd: real)
    ensures Lookup(EarnedMap(miners, card, hours), uid) == Some(usd) <==>
              exists i :: && 0 <= i < |miners| && miners[i].uid == uid && Earns(miners[i], card, hours)
                          && Earned(miners[i], card, hours) == usd
                          && forall j :: i < j < |miners| && miners[j].uid == uid ==> !Earns(miners[j], card, hours)
  {
    hide Earns, Earned;
    if miners != [] {
      var n := |miners| - 1;
      EarnedIff(miners[..n], card, hours, uid, usd);
      assert forall i :: 0 <= i < n ==> miners[..n][i] == miners[i];
    }
  }

  // ---- a cycle ----------------------------------------------------------------------------

  /**
   * The vector of a whole cycle pays by the tempo that was read, 360 where the read failed or said zero: an hour is 300
   * blocks.
   */
  lemma CyclePaysByTempo(v: Validator, inputs: seq<MinerInput>, t: Terms, r: CycleReads, last: Option<real>,
                         graph: Option<Graph>, tempo: nat)
    requires NoneOrPositive(last) && PricesOf(last, graph, r.prices).Some?
    requires DistinctUids(inputs) && HasUid(inputs, v.ownerUid)
    requires tempo == if r.scoring.tempo == None || r.scoring.tempo == Some(0) then 360 else r.scoring.tempo.value
    ensures PaysByTempo(v.VectorFor(inputs, t, r, last, graph), inputs,
                        Effective(v.holder.feed.committed, ManualFloors(t.floors), t.pricing, r.targon, r.lium), tempo,
                        v.ownerUid, PoolOf(last, graph, r.prices))
  {
    SkippedIff(last, graph, r.prices);
    hide PaysByTempo, PricesOf, PoolOf, Submitted, DistinctUids, HasUid, Effective, HoursPerEpoch;
    VectorPaysByTempo(inputs, v.CardFor(t, r), tempo, v.ownerUid, PoolOf(last, graph, r.prices));
  }

  /**
   * The terms of a cycle: the owner's own card with its published floors and the switches in the store; a reader's
   * object, or what it held.  Only a reader that has neither is without.
   */
  lemma TermsAre(v: Validator, held: Option<Terms>, f: Fetch)
    ensures v.HasCard(held, f) <==> v.isOwner || held.Some? || (f.Fetched? && exists t :: Says(f.payload, t))
    ensures v.HasCard(held, f) && v.isOwner ==>
              var terms := v.TermsFor(held, f);
              && terms.card == v.holder.feed.committed
              && terms.floors == Some(FloorsToPublish(v.holder.feed.committed, v.floorOverride))
              && (forall t :: f.Fetched? && Says(f.payload, t) ==> terms.pricing == t.pricing)
              && ((forall t :: f.Fetched? ==> !Says(f.payload, t)) ==> terms.pricing == Switches(true, false))
    ensures v.HasCard(held, f) && !v.isOwner ==>
              var terms := v.TermsFor(held, f);
              && (forall t :: f.Fetched? && Says(f.payload, t) ==> Adopted(t, terms))
              && ((forall t :: f.Fetched? ==> !Says(f.payload, t)) ==> held == Some(terms))
  {
    ResolveIs(f, held);
    hide Says, Adopted, Resolve, FloorsToPublish, PublisherPricing, ReaderNext;
  }

  /** Tempo 360 is 1.2 hours: eight H100 at 4.00 in a pool of 1000 dollars weigh 0.0384. */
  lemma EpochWitness(card: Prices)
    requires card == map["H100" := 4.0]
    ensures var inputs := [MinerInput(0, false, None, 0, [], 1.0), MinerInput(1, true, None, 0, [("H100", 8)], 1.0)];
            Lookup(Submitted(inputs, card, HoursPerEpoch(360), 0, 1000.0), 1) == Some(0.0384)
  {
    var owner, miner := MinerInput(0, false, None, 0, [], 1.0), MinerInput(1, true, None, 0, [("H100", 8)], 1.0);
    var inputs := [owner, miner];
    H100Hourly(miner, card);
    assert inputs[0].uid == 0 && UidsOf(inputs) == [0, 1];
    assert Pay(owner, card, 1.2) == 0.0 && Pay(miner, card, 1.2) == 38.4 by {
      hide Target;
    }
    assert inputs[..1] == [owner] && inputs[..1][..0] == [];
    assert SumPay(inputs[..1], card, 1.2) == 0.0;
    assert SumPay(inputs, card, 1.2) == 38.4;
    hide SumPay, Pay, Target;
    EntryPaysByTempo(inputs, card, 360, 1.2, 0, 1000.0, 1);
  }

  lemma H100Hourly(miner: MinerInput, card: Prices)
    requires miner.gpuBreakdown == [("H100", 8)] && card == map["H100" := 4.0]
    ensures Target(miner, card) == 32.0
  {
    assert Upper("H100") == "H100";
    OnlyClass(miner.gpuBreakdown, "H100", card);
    hide UsdOfBreakdown;
  }
}
