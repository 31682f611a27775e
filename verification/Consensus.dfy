/** Owner and reader, each with its own reads, from the published object to the weight vector. */
module Consensus {
  import opened CardCycle
  import opened CardLaws
  import opened Chain
  import opened Cycle
  import opened CyclePrices
  import opened Inventory
  import Json
  import opened PayoutFeed
  import opened Prelude
  import opened PriceCard
  import opened PriceFeed
  import opened PricingLaws
  import opened Proxy
  import opened ReaderEvidence
  import opened Scoring
  import opened ScoringLaws
  import opened Submission
  import opened Totals
  import opened Utf8
  import opened Validator

  /**
   * What one validator has at hand in one cycle: its reads, what it remembered before them, and the records it made.
   */
  datatype Run = Run(r: CycleReads, memory: ValidatorState, inputs: seq<MinerInput>)

  function GraphOf(m: Metagraph): Option<Graph> {
    Some(m.graph)
  }

  /** The run makes a vector out of this metagraph and evidence. */
  ghost predicate Makes(v: Validator, run: Run, m: Metagraph, e: Evidence) {
    && run.r.metagraph == Some(m) && run.r.evidence == Some(e)
    && v.Attempts(run.memory, run.r) && NoneOrPositive(run.memory.last)
    && AreInputs(run.inputs, m.miners, e, v.ownerMinerUid)
  }

  /** The vector it makes. */
  ghost function VectorMade(v: Validator, run: Run, m: Metagraph, e: Evidence): map<int, real>
    requires Makes(v, run, m, e)
  {
    v.VectorFor(run.inputs, v.TermsFor(run.memory.held, run.r.card), run.r, run.memory.last, GraphOf(m))
  }

  ghost function PoolMade(v: Validator, run: Run, m: Metagraph, e: Evidence): real
    requires Makes(v, run, m, e)
  {
    PoolOf(run.memory.last, GraphOf(m), run.r.prices)
  }

  /** Both are configured for the same subnet, with the same known positive card. */
  ghost predicate SameSubnet(owner: Validator, reader: Validator) {
    && owner.isOwner && !reader.isOwner
    && owner.ownerUid == reader.ownerUid && owner.ownerMinerUid == reader.ownerMinerUid
    && owner.holder.feed.committed == reader.holder.feed.committed
    && owner.holder.feed.committed != map[] && KnownPositive(owner.holder.feed.committed)
  }

  /** The reader fetched what the owner published in its cycle. */
  ghost predicate FetchedFrom(owner: Validator, a: Run, b: Run)
    requires owner.isOwner
  {
    var t := owner.TermsFor(a.memory.held, a.r.card);
    b.r.card.Fetched? && exists epoch :: Publishes(b.r.card.payload, epoch, t.card, t.floors, t.pricing)
  }

  /** The owner's floors are harmless, or nobody looks at them. */
  ghost predicate FloorsHarmless(owner: Validator, a: Run)
    requires owner.isOwner
  {
    var t := owner.TermsFor(a.memory.held, a.r.card);
    UsesFloors(t.pricing) ==>
      forall k :: k in t.card ==> Known(k) && k in t.floors.value && FloorHarmless(k, t.card[k], t.floors.value[k])
  }

  /** No node of a miner comes to life or dies between the two sets of readings. */
  ghost predicate SameClockLife(e: Evidence, f: Evidence, miners: seq<Miner>) {
    forall i: nat :: i < |miners| ==>
      && SameLife(MinerNodes(e, miners[i]), e.validated(i), f.validated(i))
      && SameLife(MinerNodes(e, miners[i]), e.paid(i), f.paid(i))
  }

  /** What the owner publishes, as the agreement law reads it. */
  lemma OwnerTerms(owner: Validator, a: Run)
    requires owner.isOwner
    ensures var t := owner.TermsFor(a.memory.held, a.r.card);
            && t.card == owner.holder.feed.committed
            && t.floors == Some(FloorsToPublish(t.card, owner.floorOverride))
            && owner.CardFor(t, a.r) == OwnerPay(t.card, t.floors.value, t.pricing, a.r.targon, a.r.lium)
  {
    hide Effective, ManualFloors;
  }

  /** What a reader prices with after it fetched this object. */
  lemma ReaderTerms(reader: Validator, b: Run)
    requires !reader.isOwner && b.r.card.Fetched? && Parsed(b.r.card.payload).Some?
    ensures reader.HasCard(b.memory.held, b.r.card)
    ensures reader.CardFor(reader.TermsFor(b.memory.held, b.r.card), b.r)
         == ReaderPay(reader.holder.feed.committed, b.r.card.payload, b.r.targon, b.r.lium)
  {
    hide Effective, ManualFloors, Parsed, Clamped;
  }

  /** From the published object to equal effective cards. */
  lemma SameCard(owner: Validator, reader: Validator, a: Run, b: Run)
    requires SameSubnet(owner, reader) && FetchedFrom(owner, a, b) && FloorsHarmless(owner, a)
    requires a.r.targon == b.r.targon && a.r.lium == b.r.lium
    ensures reader.HasCard(b.memory.held, b.r.card)
    ensures owner.CardFor(owner.TermsFor(a.memory.held, a.r.card), a.r)
         == reader.CardFor(reader.TermsFor(b.memory.held, b.r.card), b.r)
    ensures NonNegative(reader.CardFor(reader.TermsFor(b.memory.held, b.r.card), b.r))
  {
    var card := owner.holder.feed.committed;
    var t := owner.TermsFor(a.memory.held, a.r.card);
    var floors, payload := t.floors.value, b.r.card.payload;
    OwnerTerms(owner, a);
    var epoch :| Publishes(payload, epoch, t.card, t.floors, t.pricing);
    assert forall k :: k in card ==> card[k] > 0.0;
    hide Effective, ManualFloors, Publishes, Parsed, FloorHarmless, Known, PublisherPricing, FloorsToPublish, OwnerPay,
      ReaderPay, Clamped;
    OwnerReaderAgreement(payload, epoch, card, owner.floorOverride, floors, t.pricing);
    ReaderTerms(reader, b);
    PayAgrees(card, floors, t.pricing, payload, a.r.targon, a.r.lium);
  }

  lemma PayAgrees(card: Prices, floors: Prices, flags: Switches, payload: Json.Json, targon: TargonReads,
                  lium: LiumReads)
    requires Parsed(payload).Some? && AlwaysAgree(card, floors, flags, payload)
    requires forall k :: k in card ==> card[k] > 0.0
    ensures OwnerPay(card, floors, flags, targon, lium) == ReaderPay(card, payload, targon, lium)
    ensures NonNegative(ReaderPay(card, payload, targon, lium))
  {
    hide Effective, Parsed, ManualFloors;
    EffectivePositive(card, ManualFloors(Some(floors)), flags, targon, lium);
  }

  /** The vector spelled out. */
  lemma VectorSpelled(v: Validator, run: Run, m: Metagraph, e: Evidence)
    requires Makes(v, run, m, e)
    ensures PoolMade(v, run, m, e) > 0.0 && m.miners != []
    ensures VectorMade(v, run, m, e)
         == Submitted(run.inputs, v.CardFor(v.TermsFor(run.memory.held, run.r.card), run.r),
                      HoursPerEpoch(Tempo(run.r.scoring)),
                      v.ownerUid, PoolMade(v, run, m, e))
  {
    hide Submitted, PricesOf, AreInputs, Effective, PoolUsd;
    SkippedIff(run.memory.last, GraphOf(m), run.r.prices);
  }

  lemma EvidenceAgrees<T(!new)>(e: Evidence, f: Evidence, miners: seq<Miner>, gate: Call -> Gate,
                                sign: Call -> Option<Text> -> Headers, direct: Lists<T>, d: Decoding<T>)
    requires Permitted(gate, sign) && ReadEvidence(direct, d) == Some((e.clusters, e.nodesByCluster))
    requires ReadEvidence(ThroughProxyList(gate, sign, direct), d) == Some((f.clusters, f.nodesByCluster))
    requires SameClockLife(e, f, miners)
    ensures SameReadings(e, f, miners)
  {
    hide ReadEvidence, ThroughProxyList, Permitted, SeesBlankId, SameLife, MinerNodes;
    SameEvidence(gate, sign, direct, d);
    assert (f.clusters, f.nodesByCluster) == (e.clusters, e.nodesByCluster);
  }

  lemma RecordsOf(v: Validator, run: Run, m: Metagraph, e: Evidence)
    requires Makes(v, run, m, e)
    ensures AreInputs(run.inputs, m.miners, e, v.ownerMinerUid)
  {
    hide AreInputs;
  }

  lemma SubnetOf(owner: Validator, reader: Validator)
    requires SameSubnet(owner, reader)
    ensures owner.ownerUid == reader.ownerUid && owner.ownerMinerUid == reader.ownerMinerUid
  {
    hide KnownPositive;
  }

  /**
   * Two validators with their own clocks, prices and fetches submit the same vector: the reader's evidence comes
   * through the proxy, no node changes between live and dead between the two sets of readings, the pools are equal, and
   * the floors the owner publishes are harmless.
   */
  lemma SameVector<T(!new)>(owner: Validator, reader: Validator, a: Run, b: Run, m: Metagraph, n: Metagraph,
                            e: Evidence, f: Evidence,
                            gate: Call -> Gate, sign: Call -> Option<Text> -> Headers, direct: Lists<T>, d: Decoding<T>)
    requires SameSubnet(owner, reader) && Makes(owner, a, m, e) && Makes(reader, b, n, f) && m.miners == n.miners
    requires Permitted(gate, sign) && ReadEvidence(direct, d) == Some((e.clusters, e.nodesByCluster))
    requires ReadEvidence(ThroughProxyList(gate, sign, direct), d) == Some((f.clusters, f.nodesByCluster))
    requires SameClockLife(e, f, m.miners)
    requires FetchedFrom(owner, a, b) && FloorsHarmless(owner, a)
    requires a.r.targon == b.r.targon && a.r.lium == b.r.lium
    requires Tempo(a.r.scoring) == Tempo(b.r.scoring)
    requires PoolMade(owner, a, m, e) == PoolMade(reader, b, n, f)
    ensures VectorMade(owner, a, m, e) == VectorMade(reader, b, n, f)
    ensures DistinctUids(b.inputs) ==> Total(VectorMade(reader, b, n, f)) == 1.0
  {
    hide *;
    SameCard(owner, reader, a, b);
    SubnetOf(owner, reader);
    EvidenceAgrees(e, f, m.miners, gate, sign, direct, d);
    VectorSpelled(owner, a, m, e);
    VectorSpelled(reader, b, n, f);
    RecordsOf(owner, a, m, e);
    RecordsOf(reader, b, n, f);
    var card := reader.CardFor(reader.TermsFor(b.memory.held, b.r.card), b.r);
    VectorDetermined(a.inputs, b.inputs, m.miners, e, f, owner.ownerMinerUid, card, HoursPerEpoch(Tempo(a.r.scoring)),
                     owner.ownerUid, PoolMade(owner, a, m, e));
    if DistinctUids(b.inputs) {
      LengthsAgree(b.inputs, n.miners, f, reader.ownerMinerUid);
      Normalised(b.inputs, card, HoursPerEpoch(Tempo(b.r.scoring)), reader.ownerUid, PoolMade(reader, b, n, f));
    }
  }
}
