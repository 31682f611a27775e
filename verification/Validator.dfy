/** The validator: one cycle from the first read to the submission, every stage in its place. */
module Validator {
  import opened CardCycle
  import opened Chain
  import opened Cycle
  import opened CyclePrices
  import opened Inventory
  import opened Json
  import opened PayoutFeed
  import opened Prelude
  import opened PriceCard
  import opened PriceFeed
  import opened Scoring
  import opened ScoringLaws
  import opened Submission

  /** One read of the metagraph: the miners, and the snapshot that emission and spot price are taken from. */
  datatype Metagraph = Metagraph(miners: seq<Miner>, graph: Graph)

  /** Everything one cycle may get to see. */
  datatype CycleReads = CycleReads(
    metagraph: Option<Metagraph>,
    evidence: Option<Evidence>,
    card: Fetch,
    epoch: int,
    now: real,
    targon: TargonReads,
    lium: LiumReads,
    prices: Answers,
    scoring: Reads,
    submission: Reads)

  datatype CycleEnd =
    | NoMetagraph
    | NoEvidence
    | NoCard
    | NoPrices
    | NoVector
    | Attempted(weights: map<int, real>, outcome: Outcome)

  datatype ValidatorState = ValidatorState(held: Option<Terms>, last: Option<real>, submission: State)

  class Validator {
    const isOwner: bool
    const ownerUid: int
    const ownerMinerUid: int
    const floorOverride: Prices
    const holder: CardHolder
    const prices: PriceFeed
    const chain: ChainState
    const submitter: WeightSubmitter

    ghost predicate Valid()
      reads holder, prices
    {
      && prices.Valid()
      && (if isOwner then AllUpper(holder.feed.committed) else holder.Held().Some? ==> IsEnveloped(holder.Held().value))
    }

    /** A fresh validator remembers at most a TAO/USD price from disk. */
    constructor (isOwner: bool, ownerUid: int, ownerMinerUid: int, floorOverride: Prices, feed: TargonPayoutFeed,
                 cachedTaoUsd: Option<real>)
      requires AllUpper(feed.committed)
      ensures Valid() && fresh(holder) && fresh(prices) && fresh(chain) && fresh(submitter)
      ensures holder.feed == feed && Memory() == ValidatorState(None, Usable(cachedTaoUsd), INITIAL)
      ensures this.isOwner == isOwner && this.ownerUid == ownerUid && this.ownerMinerUid == ownerMinerUid
    {
      this.isOwner, this.ownerUid, this.ownerMinerUid, this.floorOverride := isOwner, ownerUid, ownerMinerUid,
        floorOverride;
      holder := new CardHolder(feed);
      prices := new PriceFeed(cachedTaoUsd);
      chain := new ChainState();
      submitter := new WeightSubmitter();
    }

    /** The cycle gets past its card: an owner always, a reader unless it neither holds nor fetches a valid one. */
    ghost predicate HasCard(held: Option<Terms>, f: Fetch) {
      isOwner || ReaderNext(held, CardRead(f)).Some?
    }

    /** The terms it prices with. */
    ghost function TermsFor(held: Option<Terms>, f: Fetch): Terms
      requires HasCard(held, f)
    {
      if isOwner then Terms(holder.feed.committed, Some(FloorsToPublish(holder.feed.committed, floorOverride)),
                            PublisherPricing(f))
      else ReaderNext(held, CardRead(f)).value
    }

    /** The card it scores with under these terms. */
    ghost function CardFor(t: Terms, r: CycleReads): Prices {
      Effective(holder.feed.committed, ManualFloors(t.floors), t.pricing, r.targon, r.lium)
    }

    /** The vector it hands on. */
    ghost function VectorFor(inputs: seq<MinerInput>, t: Terms, r: CycleReads, last: Option<real>,
                             graph: Option<Graph>): map<int, real>
      requires NoneOrPositive(last) && PricesOf(last, graph, r.prices).Some?
    {
      SkippedIff(last, graph, r.prices);
      Submitted(inputs, CardFor(t, r), HoursPerEpoch(Tempo(r.scoring)), ownerUid, PoolOf(last, graph, r.prices))
    }

    /** The card stage. */
    method CardStage(r: CycleReads) returns (has: bool, published: Option<Json>)
      requires Valid()
      modifies holder, holder.feed`manualFloors, holder.feed`pricingFlags
      ensures Valid()
      ensures has == HasCard(old(holder.Held()), r.card)
      ensures has ==> holder.Held() == Some(TermsFor(old(holder.Held()), r.card))
      ensures has ==> holder.feed.manualFloors == ManualFloors(TermsFor(old(holder.Held()), r.card).floors)
      ensures has ==> holder.feed.pricingFlags == TermsFor(old(holder.Held()), r.card).pricing
      ensures !has ==> holder.Held() == None && old(holder.Held()) == None
      ensures published.Some? <==> isOwner
      ensures isOwner ==>
                Publishes(published.value, r.epoch, holder.feed.committed, TermsFor(old(holder.Held()), r.card).floors,
                          PublisherPricing(r.card))
    {
      hide IsEnveloped, AllUpper, ManualFloors, Publishes, PublisherPricing, FloorsToPublish;
      published := None;
      if isOwner {
        var payload := holder.OwnerCycle(r.card, r.epoch, r.now, floorOverride);
        return true, Some(payload);
      }
      has := holder.ReaderCycle(CardRead(r.card));
    }

    /** The stages after the card: effective card, prices, inventory, scoring, submission. */
    method ScoreStage(r: CycleReads, m: Metagraph, e: Evidence, ghost t: Terms)
      returns (end: CycleEnd, inputs: seq<MinerInput>)
      requires prices.Valid() && chain.lastMetagraph == Some(m.graph)
      requires holder.feed.manualFloors == ManualFloors(t.floors) && holder.feed.pricingFlags == t.pricing
      modifies holder.feed`lastLiumSource, holder.feed`liumUsed, prices, chain, submitter
      ensures prices.Valid() && prices.lastTaoUsd == LastTao(old(prices.lastTaoUsd), Some(m.graph), r.prices)
      ensures end.NoPrices? || end.NoVector? || end.Attempted?
      ensures end.NoPrices? <==> PricesOf(old(prices.lastTaoUsd), Some(m.graph), r.prices) == None
      ensures end.NoVector? <==> !end.NoPrices? && m.miners == []
      ensures end.Attempted? ==>
                && AreInputs(inputs, m.miners, e, ownerMinerUid)
                && end.weights == VectorFor(inputs, t, r, old(prices.lastTaoUsd), Some(m.graph))
                && (end.outcome.Accepted? <==> Submits(old(submitter.Abstract()), r.submission))
      ensures submitter.Abstract() ==
                if end.Attempted? then Next(old(submitter.Abstract()), r.submission) else old(submitter.Abstract())
    {
      hide Effective, ManualFloors, PricesOf, PoolOf, LastTao, AreInputs, Submitted, Submits, Next, GraphAfter;
      inputs := [];
      var card, source := holder.feed.EffectiveCard(r.targon, r.lium);
      SkippedIff(prices.lastTaoUsd, Some(m.graph), r.prices);
      var found, pool := PricesForCycle(prices, chain, r.prices);
      if found.None? {
        return NoPrices, inputs;
      }
      var vector;
      vector, inputs := VectorOf(m.miners, e, card, Tempo(r.scoring), ownerUid, ownerMinerUid, pool);
      if vector.None? {
        return NoVector, inputs;
      }
      var outcome := submitter.SetWeightsOncePerEpoch(r.submission);
      end := Attempted(vector.value, outcome);
    }

    /** The cycle gets as far as its card. */
    ghost predicate Scores(held: Option<Terms>, r: CycleReads) {
      r.metagraph.Some? && r.evidence.Some? && HasCard(held, r.card)
    }

    // ---- the cycle as a transition --------------------------------------------------------

    /** What the validator remembers between cycles. */
    ghost function Memory(): ValidatorState
      reads holder, prices, submitter
    {
      ValidatorState(holder.Held(), prices.lastTaoUsd, submitter.Abstract())
    }

    /** The cycle reaches the submission step. */
    ghost predicate Attempts(s: ValidatorState, r: CycleReads) {
      && Scores(s.held, r) && r.metagraph.value.miners != []
      && PricesOf(s.last, Some(r.metagraph.value.graph), r.prices).Some?
    }

    /** The cycle ends in an accepted submission. */
    ghost predicate Accepts(s: ValidatorState, r: CycleReads) {
      Attempts(s, r) && Submits(s.submission, r.submission)
    }

    ghost function NextMemory(s: ValidatorState, r: CycleReads): ValidatorState {
      if !Scores(s.held, r) then s
      else
        ValidatorState(Some(TermsFor(s.held, r.card)), LastTao(s.last, Some(r.metagraph.value.graph), r.prices),
                       if Attempts(s, r) then Next(s.submission, r.submission) else s.submission)
    }

    /**
     * One cycle.  It ends early exactly without metagraph, evidence, card or prices, or for an empty metagraph, each in
     * that order; otherwise it hands the padded split of what it recorded to the submission step.
     */
    method RunCycle(r: CycleReads) returns (end: CycleEnd, inputs: seq<MinerInput>, published: Option<Json>)
      requires Valid()
      modifies holder, holder.feed, prices, chain, submitter
      ensures Valid()
      ensures end.NoMetagraph? <==> r.metagraph.None?
      ensures end.NoEvidence? <==> r.metagraph.Some? && r.evidence.None?
      ensures end.NoCard? <==> r.metagraph.Some? && r.evidence.Some? && !HasCard(old(holder.Held()), r.card)
      ensures end.NoPrices? <==>
                && Scores(old(holder.Held()), r)
                && (|| NoTao(old(prices.lastTaoUsd), r.prices)
                    || NoAlpha(old(prices.lastTaoUsd), Some(r.metagraph.value.graph), r.prices))
      ensures end.NoVector? <==> Scores(old(holder.Held()), r) && !end.NoPrices? && r.metagraph.value.miners == []
      ensures end.Attempted? ==>
                && Scores(old(holder.Held()), r)
                && AreInputs(inputs, r.metagraph.value.miners, r.evidence.value, ownerMinerUid)
                && PricesOf(old(prices.lastTaoUsd), Some(r.metagraph.value.graph), r.prices).Some?
                && end.weights == VectorFor(inputs, TermsFor(old(holder.Held()), r.card), r, old(prices.lastTaoUsd),
                                            Some(r.metagraph.value.graph))
                && (end.outcome.Accepted? <==> Submits(old(submitter.Abstract()), r.submission))
      ensures submitter.Abstract() ==
                if end.Attempted? then Next(old(submitter.Abstract()), r.submission) else old(submitter.Abstract())
      ensures prices.lastTaoUsd ==
                if Scores(old(holder.Held()), r)
                then LastTao(old(prices.lastTaoUsd), Some(r.metagraph.value.graph), r.prices)
                else old(prices.lastTaoUsd)
      ensures holder.Held() ==
                if Scores(old(holder.Held()), r) then Some(TermsFor(old(holder.Held()), r.card)) else old(holder.Held())
      ensures published.Some? <==> isOwner && r.metagraph.Some? && r.evidence.Some?
      ensures Memory() == NextMemory(old(Memory()), r)
      ensures end.Attempted? <==> Attempts(old(Memory()), r)
      ensures end.Attempted? && end.outcome.Accepted? <==> Accepts(old(Memory()), r)
    {
      inputs, published := [], None;
      if r.metagraph.None? {
        return NoMetagraph, inputs, published;
      }
      var m := r.metagraph.value;
      var read := chain.ReadMetagraph(Some(m.graph));
      if r.evidence.None? {
        return NoEvidence, inputs, published;
      }
      hide IsEnveloped, AllUpper, Effective, ManualFloors, Publishes, PricesOf, PoolOf, LastTao, NoTao, NoAlpha,
        AreInputs, Submitted, HasCard, TermsFor, VectorFor, Submits, Next, NoneOrPositive;
      ghost var held := holder.Held();
      SkippedIff(prices.lastTaoUsd, Some(m.graph), r.prices);
      var has;
      has, published := CardStage(r);
      if !has {
        return NoCard, inputs, published;
      }
      end, inputs := ScoreStage(r, m, r.evidence.value, TermsFor(held, r.card));
    }
  }
}
