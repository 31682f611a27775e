/** Every run of a validator: what it holds, and what all its accepted vectors have in common. */
module ValidatorRuns {
  import opened CardCycle
  import opened Cycle
  import opened CyclePrices
  import Inventory
  import opened PayoutFeed
  import opened Prelude
  import opened PriceFeed
  import opened Scoring
  import opened ScoringLaws
  import opened Submission
  import opened Totals
  import opened Validator

  function Fresh(cached: Option<real>): ValidatorState {
    ValidatorState(None, Usable(cached), INITIAL)
  }

  /** What a validator remembers after these cycles. */
  ghost function MemoryAfter(v: Validator, cached: Option<real>, cycles: seq<CycleReads>): ValidatorState {
    if cycles == [] then Fresh(cached)
    else v.NextMemory(MemoryAfter(v, cached, cycles[..|cycles| - 1]), cycles[|cycles| - 1])
  }

  ghost function MemoryAt(v: Validator, cached: Option<real>, cycles: seq<CycleReads>, i: nat): ValidatorState
    requires i <= |cycles|
  {
    MemoryAfter(v, cached, cycles[..i])
  }

  /** The `i`-th cycle ends in an accepted submission. */
  ghost predicate AcceptedAt(v: Validator, cached: Option<real>, cycles: seq<CycleReads>, i: nat) {
    i < |cycles| && v.Accepts(MemoryAt(v, cached, cycles, i), cycles[i])
  }

  lemma MemoryStep(v: Validator, cached: Option<real>, cycles: seq<CycleReads>, i: nat)
    requires i < |cycles|
    ensures MemoryAt(v, cached, cycles, i + 1) == v.NextMemory(MemoryAt(v, cached, cycles, i), cycles[i])
  {
    assert cycles[..i + 1][..i] == cycles[..i];
  }

  // ---- the remembered price ---------------------------------------------------------------

  lemma {:induction false} PriceRemembered(v: Validator, cached: Option<real>, cycles: seq<CycleReads>, i: nat)
    requires i <= |cycles|
    ensures NoneOrPositive(MemoryAt(v, cached, cycles, i).last)
    decreases i
  {
    if i == 0 {
      assert cycles[..0] == [];
    } else {
      PriceRemembered(v, cached, cycles, i - 1);
      MemoryStep(v, cached, cycles, i - 1);
      var s, r := MemoryAt(v, cached, cycles, i - 1), cycles[i - 1];
      if v.Scores(s.held, r) {
        SkippedIff(s.last, Some(r.metagraph.value.graph), r.prices);
      }
      hide MemoryAt, LastTao, PricesOf;
    }
  }

  // ---- the terms --------------------------------------------------------------------------

  /** What the card stage of a cycle meets. */
  function CardEventOf(r: CycleReads): CardEvent {
    if r.metagraph.Some? && r.evidence.Some? then CardRead(r.card) else CardEvent.EvidenceOutage
  }

  function CardEvents(cycles: seq<CycleReads>): (events: seq<CardEvent>)
    ensures |events| == |cycles| && forall i :: 0 <= i < |cycles| ==> events[i] == CardEventOf(cycles[i])
  {
    seq(|cycles|, i requires 0 <= i < |cycles| => CardEventOf(cycles[i]))
  }

  /** Over every run a reader holds the terms of its last valid fetch, inside their envelope, or none. */
  lemma {:induction false} ReaderHolds(v: Validator, cached: Option<real>, cycles: seq<CycleReads>)
    requires !v.isOwner
    ensures MemoryAfter(v, cached, cycles).held == ReaderRun(CardEvents(cycles))
    ensures MemoryAfter(v, cached, cycles).held
         == match LastValid(CardEvents(cycles)) { case Some(t) => Some(Enveloped(t)) case None => None }
    decreases |cycles|
  {
    ReaderInvariant(CardEvents(cycles));
    hide LastValid, Enveloped, LastTao, PricesOf, IsEnveloped;
    if cycles != [] {
      var n := |cycles| - 1;
      ReaderHolds(v, cached, cycles[..n]);
      assert CardEvents(cycles)[..n] == CardEvents(cycles[..n]);
    }
  }

  // ---- the submissions --------------------------------------------------------------------

  function EpochIn(r: CycleReads): nat {
    EpochOf(Block(r.submission), Tempo(r.submission))
  }

  /** The record never falls behind an accepted submission. */
  lemma {:induction false} RecordKept(v: Validator, cached: Option<real>, cycles: seq<CycleReads>, i: nat, n: nat)
    requires AcceptedAt(v, cached, cycles, i) && i < n <= |cycles|
    ensures var s := MemoryAt(v, cached, cycles, n).submission;
            s.lastEpoch >= EpochIn(cycles[i]) && s.lastSetBlock.Some?
                && s.lastSetBlock.value >= Block(cycles[i].submission)
    decreases n
  {
    MemoryStep(v, cached, cycles, n - 1);
    var s, r := MemoryAt(v, cached, cycles, n - 1), cycles[n - 1];
    if i < n - 1 {
      RecordKept(v, cached, cycles, i, n - 1);
    }
    hide MemoryAt, LastTao, PricesOf, TermsOf;
  }

  /**
   * Over every run, of two accepted submissions the later has the greater epoch and keeps its rate limit's distance.
   */
  lemma AcceptedSpaced(v: Validator, cached: Option<real>, cycles: seq<CycleReads>, i: nat, j: nat)
    requires i < j && AcceptedAt(v, cached, cycles, i) && AcceptedAt(v, cached, cycles, j)
    ensures EpochIn(cycles[i]) < EpochIn(cycles[j])
    ensures Block(cycles[j].submission) - Block(cycles[i].submission) >= RateLimit(cycles[j].submission)
  {
    RecordKept(v, cached, cycles, i, j);
    hide MemoryAt;
  }

  // ---- every accepted vector --------------------------------------------------------------

  /** The vector of the `i`-th cycle, for the records it made. */
  ghost function VectorAt(v: Validator, cached: Option<real>, cycles: seq<CycleReads>, i: nat,
                          inputs: seq<MinerInput>): map<int, real>
    requires AcceptedAt(v, cached, cycles, i)
  {
    PriceRemembered(v, cached, cycles, i);
    var s, r := MemoryAt(v, cached, cycles, i), cycles[i];
    v.VectorFor(inputs, v.TermsFor(s.held, r.card), r, s.last, Some(r.metagraph.value.graph))
  }

  /**
   * Over every run, every accepted vector has exactly the metagraph's uids, no negative entry and sum one, and does not
   * depend on how the records list their classes; a reader's is priced with the terms of its last valid fetch.
   */
  lemma AcceptedVectors(v: Validator, cached: Option<real>, cycles: seq<CycleReads>, i: nat, inputs: seq<MinerInput>,
                        listed: seq<MinerInput>)
    requires AcceptedAt(v, cached, cycles, i) && DistinctUids(inputs)
    requires AreInputs(inputs, cycles[i].metagraph.value.miners, cycles[i].evidence.value, v.ownerMinerUid)
    requires AreInputs(listed, cycles[i].metagraph.value.miners, cycles[i].evidence.value, v.ownerMinerUid)
    ensures var w := VectorAt(v, cached, cycles, i, inputs);
            && (forall u :: u in w <==> HasUid(inputs, u)) && (forall u :: u in w ==> w[u] >= 0.0) && Total(w) == 1.0
            && w == VectorAt(v, cached, cycles, i, listed)
    ensures !v.isOwner ==>
              && LastValid(CardEvents(cycles[..i + 1])).Some?
              && v.TermsFor(MemoryAt(v, cached, cycles, i).held, cycles[i].card)
                 == Enveloped(LastValid(CardEvents(cycles[..i + 1])).value)
  {
    var s, r := MemoryAt(v, cached, cycles, i), cycles[i];
    var m, graph := r.metagraph.value, Some(r.metagraph.value.graph);
    PriceRemembered(v, cached, cycles, i);
    SkippedIff(s.last, graph, r.prices);
    var card, pool := v.CardFor(v.TermsFor(s.held, r.card), r), PoolOf(s.last, graph, r.prices);
    var hours := HoursPerEpoch(Tempo(r.scoring));
    LengthsAgree(inputs, m.miners, r.evidence.value, v.ownerMinerUid);
    SameReadingsItself(r.evidence.value, m.miners);
    MemoryStep(v, cached, cycles, i);
    assert pool > 0.0 && inputs != [];
    if !v.isOwner {
      ReaderHolds(v, cached, cycles[..i + 1]);
    }
    hide PricesOf, LastTao, PoolOf, AreInputs, SameReadings, Submitted, DistinctUids, Effective, LastValid, Enveloped,
      HasUid, Total, ReaderRun;
    Normalised(inputs, card, hours, v.ownerUid, pool);
    VectorDetermined(inputs, listed, m.miners, r.evidence.value, r.evidence.value, v.ownerMinerUid, card, hours,
                     v.ownerUid, pool);
  }

  lemma SameReadingsItself(e: Inventory.Evidence, miners: seq<Miner>)
    ensures SameReadings(e, e, miners)
  {
  }
}
