/**
 The weight split: every ready miner's earnings in USD against the epoch's pool, the
 remainder on the owner UID.  `ComputeWeights` is the program's loops; `ClosedForm` is the
 quotient they amount to.
 */
module Scoring {
  import opened Prelude
  import opened Ratios
  import opened Totals

  const GPUS_PER_WORKER := 8

  datatype MinerInput = MinerInput(
    uid: int,
    ready: bool,
    gpuClass: Option<string>,
    gpuWorkers: int,
    gpuBreakdown: seq<(string, int)>,
    tenure: real)

  datatype ScoreWeights = ScoreWeights(
    weights: map<int, real>,
    minerUsd: map<int, real>,
    ownerWeight: real,
    totalPoolUsd: real)

  /** `PoolNotPositive` is the `ValueError` of `compute_weights`. */
  datatype ScoreResult = Scored(scores: ScoreWeights) | PoolNotPositive

  // ---- earnings -------------------------------------------------------------------------

  function UsdTargetPerHour(gpuClass: Option<string>, workers: int, card: map<string, real>): real {
    if gpuClass.None? || workers <= 0 then 0.0
    else Get(card, Upper(gpuClass.value), 0.0) * GPUS_PER_WORKER as real * workers as real
  }

  function UsdOfBreakdown(breakdown: seq<(string, int)>, card: map<string, real>): real {
    if breakdown == [] then 0.0
    else
      var last := breakdown[|breakdown| - 1];
      UsdOfBreakdown(breakdown[..|breakdown| - 1], card)
      + Get(card, Upper(last.0), 0.0) * last.1 as real
  }

  method UsdFromBreakdown(breakdown: seq<(string, int)>, card: map<string, real>) returns (total: real)
    ensures total == UsdOfBreakdown(breakdown, card)
  {
    total := 0.0;
    for i := 0 to |breakdown|
      invariant total == UsdOfBreakdown(breakdown[..i], card)
    {
      var (klass, count) := breakdown[i];
      assert breakdown[..i + 1][..i] == breakdown[..i];
      total := total + Get(card, Upper(klass), 0.0) * count as real;
    }
    assert breakdown[..|breakdown|] == breakdown;
  }

  /** Hourly USD target of one miner: its breakdown, or its dominant class when it has none. */
  function Target(m: MinerInput, card: map<string, real>): real {
    if m.gpuBreakdown != [] then UsdOfBreakdown(m.gpuBreakdown, card)
    else UsdTargetPerHour(m.gpuClass, m.gpuWorkers, card)
  }

  function ClampedTenure(m: MinerInput): (t: real)
    ensures 0.0 <= t <= 1.0
    ensures 0.0 <= m.tenure <= 1.0 ==> t == m.tenure
  {
    Min(1.0, Max(0.0, m.tenure))
  }

  function EarnedUsd(target: real, tenure: real, hours: real): real {
    target * tenure * hours
  }

  function Earned(m: MinerInput, card: map<string, real>, hours: real): real {
    EarnedUsd(Target(m, card), ClampedTenure(m), hours)
  }

  /** The miner counts toward the pot. */
  predicate Earns(m: MinerInput, card: map<string, real>, hours: real) {
    m.ready && Earned(m, card, hours) > 0.0
  }

  /** uid -> USD after the earning loop; a repeated uid keeps its last entry. */
  function EarnedMap(miners: seq<MinerInput>, card: map<string, real>, hours: real): map<int, real> {
    if miners == [] then map[]
    else
      var m := miners[|miners| - 1];
      var before := EarnedMap(miners[..|miners| - 1], card, hours);
      if Earns(m, card, hours) then before[m.uid := Earned(m, card, hours)] else before
  }

  function UidsOf(miners: seq<MinerInput>): (uids: seq<int>) {
    seq(|miners|, i requires 0 <= i < |miners| => miners[i].uid)
  }

  ghost predicate DistinctUids(miners: seq<MinerInput>) {
    Distinct(UidsOf(miners))
  }

  predicate HasUid(miners: seq<MinerInput>, uid: int) {
    exists i :: 0 <= i < |miners| && miners[i].uid == uid
  }

  // ---- the split, declaratively ---------------------------------------------------------

  ghost function Denominator(earned: map<int, real>, pool: real): real {
    Max(pool, Total(earned))
  }

  /** The share of the pool that nobody earned. */
  ghost function Remainder(earned: map<int, real>, pool: real): real
    requires pool > 0.0
  {
    1.0 - Total(earned) / Denominator(earned, pool)
  }

  function EvenShares(miners: seq<MinerInput>): map<int, real> {
    if miners == [] then map[]
    else ConstantMap(UidsOf(miners), 1.0 / |miners| as real)
  }

  /** Earned share over `max(pool, earned total)`; what is left over is the owner's, or is shared out without one. */
  ghost function EarnedSplit(earned: map<int, real>, ownerUid: int, ownerPresent: bool, pool: real): map<int, real>
    requires pool > 0.0 && Total(earned) > 0.0
  {
    var d := Denominator(earned, pool);
    if ownerPresent then
      Quotients(earned, d)[ownerUid := Get(Quotients(earned, d), ownerUid, 0.0) + Remainder(earned, pool)]
    else
      Quotients(earned, Total(earned))
  }

  ghost function ClosedForm(miners: seq<MinerInput>, earned: map<int, real>, ownerUid: int, pool: real): map<int, real>
    requires pool > 0.0
    requires earned != map[] ==> Total(earned) > 0.0
  {
    if earned != map[] then EarnedSplit(earned, ownerUid, HasUid(miners, ownerUid), pool)
    else if HasUid(miners, ownerUid) then map[ownerUid := 1.0]
    else EvenShares(miners)
  }

  lemma {:induction false} EarnedMapPositive(miners: seq<MinerInput>, card: map<string, real>, hours: real)
    ensures forall u :: u in EarnedMap(miners, card, hours) ==>
                          EarnedMap(miners, card, hours)[u] > 0.0 && HasUid(miners, u)
  {
    if miners != [] {
      var n := |miners| - 1;
      var before, after := EarnedMap(miners[..n], card, hours), EarnedMap(miners, card, hours);
      EarnedMapPositive(miners[..n], card, hours);
      assert after == before || after == before[miners[n].uid := Earned(miners[n], card, hours)];
      forall u | u in after ensures HasUid(miners, u) {
        if u in before {
          assert HasUid(miners[..n], u);
        } else {
          assert miners[n].uid == u;
        }
      }
    }
  }

  lemma EarnedMapStep(miners: seq<MinerInput>, card: map<string, real>, hours: real, i: nat)
    requires i < |miners|
    ensures EarnedMap(miners[..i + 1], card, hours)
         == if Earns(miners[i], card, hours)
            then EarnedMap(miners[..i], card, hours)[miners[i].uid := Earned(miners[i], card, hours)]
            else EarnedMap(miners[..i], card, hours)
  {
    assert miners[..i + 1][..i] == miners[..i];
  }

  lemma EarnedTotalPositive(miners: seq<MinerInput>, card: map<string, real>, hours: real)
    ensures EarnedMap(miners, card, hours) != map[] ==> Total(EarnedMap(miners, card, hours)) > 0.0
  {
    var earned := EarnedMap(miners, card, hours);
    EarnedMapPositive(miners, card, hours);
    assert forall u :: u in earned ==> earned[u] > 0.0;
    TotalPositive(earned);
  }

  /** With distinct uids the last miner has no entry before its turn. */
  lemma LastUidFresh(miners: seq<MinerInput>, card: map<string, real>, hours: real)
    requires DistinctUids(miners) && miners != []
    ensures var n := |miners| - 1;
            miners[n].uid !in EarnedMap(miners[..n], card, hours) && DistinctUids(miners[..n])
  {
    var n := |miners| - 1;
    assert UidsOf(miners[..n]) == UidsOf(miners)[..n];
    EarnedMapPositive(miners[..n], card, hours);
    forall j | 0 <= j < n ensures miners[..n][j].uid != miners[n].uid {
      assert UidsOf(miners)[j] != UidsOf(miners)[n];
    }
  }

  /** With distinct uids a miner's entry is its own earnings, and only earners have one. */
  lemma {:induction false} EarnedMapExact(miners: seq<MinerInput>, card: map<string, real>, hours: real, i: nat)
    requires DistinctUids(miners) && i < |miners|
    ensures Lookup(EarnedMap(miners, card, hours), miners[i].uid)
         == if Earns(miners[i], card, hours) then Some(Earned(miners[i], card, hours)) else None
  {
    var n := |miners| - 1;
    LastUidFresh(miners, card, hours);
    if i < n {
      assert UidsOf(miners)[i] != UidsOf(miners)[n];
      EarnedMapExact(miners[..n], card, hours, i);
    }
  }

  /** The weight vector of one scoring call with a positive pool. */
  ghost function Split(miners: seq<MinerInput>, card: map<string, real>, hours: real, ownerUid: int,
                       pool: real): map<int, real>
    requires pool > 0.0
  {
    EarnedTotalPositive(miners, card, hours);
    ClosedForm(miners, EarnedMap(miners, card, hours), ownerUid, pool)
  }

  // ---- the program's loops --------------------------------------------------------------

  /** The earning loop. */
  method EarningLoop(miners: seq<MinerInput>, card: map<string, real>, hours: real) returns (minerUsd: map<int, real>)
    ensures minerUsd == EarnedMap(miners, card, hours)
  {
    hide EarnedUsd;
    minerUsd := map[];
    for i := 0 to |miners|
      invariant minerUsd == EarnedMap(miners[..i], card, hours)
    {
      var miner := miners[i];
      EarnedMapStep(miners, card, hours, i);
      if miner.ready {
        var target;
        if miner.gpuBreakdown != [] {
          target := UsdFromBreakdown(miner.gpuBreakdown, card);
        } else {
          target := UsdTargetPerHour(miner.gpuClass, miner.gpuWorkers, card);
        }
        var earned := EarnedUsd(target, ClampedTenure(miner), hours);
        if earned > 0.0 {
          minerUsd := minerUsd[miner.uid := earned];
        }
      }
    }
    assert miners[..|miners|] == miners;
  }

  /** What is left of the pot is never negative, and zero exactly when the pot is earned out. */
  lemma RemainderRange(earned: map<int, real>, pool: real)
    requires pool > 0.0 && Total(earned) > 0.0
    ensures 0.0 <= Remainder(earned, pool) < 1.0
    ensures Remainder(earned, pool) == 0.0 <==> Total(earned) >= pool
    ensures Remainder(earned, pool) == Max(0.0, 1.0 - Total(earned) / pool)
    ensures Total(earned) / pool > 1.0 <==> Total(earned) > pool
  {
    var s := Total(earned);
    QuotientOrder(s, pool, pool);
    QuotientOrder(pool, s, pool);
    QuotientSign(s, pool);
    QuotientSign(pool, pool);
    QuotientSign(s, s);
  }

  /** Dividing by the pool, scaling back to one when the pool is exceeded, and placing the remainder. */
  method SplitPool(minerUsd: map<int, real>, ownerUid: int, ownerPresent: bool, pool: real)
    returns (weights: map<int, real>, ownerWeight: real)
    requires pool > 0.0 && Total(minerUsd) > 0.0
    ensures ownerWeight == Remainder(minerUsd, pool)
    ensures weights == EarnedSplit(minerUsd, ownerUid, ownerPresent, pool)
  {
    weights := DivideValues(minerUsd, pool);
    TotalQuotients(minerUsd, pool);
    var totalWeight := SumValues(weights);
    Renormalized(minerUsd, pool);
    RemainderRange(minerUsd, pool);
    hide *;
    if totalWeight > 1.0 {
      var scale := 1.0 / totalWeight;
      weights := ScaledValues(weights, scale);
      totalWeight := 1.0;
    }
    assert weights == Quotients(minerUsd, Denominator(minerUsd, pool));
    ownerWeight := Max(0.0, 1.0 - totalWeight);
    if ownerPresent {
      weights := weights[ownerUid := Get(weights, ownerUid, 0.0) + ownerWeight];
    } else if ownerWeight > 0.0 {
      if totalWeight > 0.0 {
        weights := Quotients(weights, totalWeight);
      }
    }
  }

  method ComputeWeights(miners: seq<MinerInput>, card: map<string, real>, hours: real, ownerUid: int, pool: real)
    returns (r: ScoreResult)
    ensures pool <= 0.0 <==> r.PoolNotPositive?
    ensures r.Scored? ==>
              var earned := EarnedMap(miners, card, hours);
              && r.scores.minerUsd == earned
              && r.scores.totalPoolUsd == pool
              && r.scores.weights == Split(miners, card, hours, ownerUid, pool)
              && r.scores.ownerWeight == Remainder(earned, pool)
  {
    if pool <= 0.0 {
      return PoolNotPositive;
    }
    var ownerPresent := exists i :: 0 <= i < |miners| && miners[i].uid == ownerUid;
    var minerUsd := EarningLoop(miners, card, hours);
    EarnedTotalPositive(miners, card, hours);

    if minerUsd == map[] {
      var weights: map<int, real>;
      if ownerPresent || ownerUid == 0 {
        weights := if ownerPresent then map[ownerUid := 1.0] else EvenShares(miners);
      } else {
        weights := EvenShares(miners);
      }
      assert Remainder(minerUsd, pool) == 1.0 by { QuotientTimes(0.0, pool); }
      return Scored(ScoreWeights(weights, minerUsd, 1.0, pool));
    }
    var weights, ownerWeight := SplitPool(minerUsd, ownerUid, ownerPresent, pool);
    r := Scored(ScoreWeights(weights, minerUsd, ownerWeight, pool));
  }
}
