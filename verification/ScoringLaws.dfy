/** What the split means for the miners: closed form over the miner list, incentives, normalisation, dollars. */
module ScoringLaws {
  import opened Prelude
  import opened Ratios
  import opened Scoring
  import opened Totals

  /** What one miner earns toward the pot this epoch. */
  ghost function Pay(m: MinerInput, card: map<string, real>, hours: real): (p: real)
    ensures p >= 0.0
  {
    if Earns(m, card, hours) then Earned(m, card, hours) else 0.0
  }

  ghost function SumPay(miners: seq<MinerInput>, card: map<string, real>, hours: real): (s: real)
    ensures s >= 0.0
  {
    if miners == [] then 0.0
    else SumPay(miners[..|miners| - 1], card, hours) + Pay(miners[|miners| - 1], card, hours)
  }

  ghost function Weight(miners: seq<MinerInput>, card: map<string, real>, hours: real, ownerUid: int, pool: real,
                        uid: int): real
    requires pool > 0.0
  {
    Get(Split(miners, card, hours, ownerUid, pool), uid, 0.0)
  }

  lemma HasUidIsMembership(miners: seq<MinerInput>, uid: int)
    ensures HasUid(miners, uid) <==> uid in UidsOf(miners)
  {
    if HasUid(miners, uid) {
      var i :| 0 <= i < |miners| && miners[i].uid == uid;
      assert UidsOf(miners)[i] == uid;
    }
    if uid in UidsOf(miners) {
      var i :| 0 <= i < |miners| && UidsOf(miners)[i] == uid;
      assert miners[i].uid == uid;
    }
  }

  lemma {:induction false} TotalIsSumPay(miners: seq<MinerInput>, card: map<string, real>, hours: real)
    requires DistinctUids(miners)
    ensures Total(EarnedMap(miners, card, hours)) == SumPay(miners, card, hours)
  {
    if miners != [] {
      var n := |miners| - 1;
      LastUidFresh(miners, card, hours);
      TotalIsSumPay(miners[..n], card, hours);
      var before := EarnedMap(miners[..n], card, hours);
      EarnedMapStep(miners, card, hours, n);
      assert miners[..n + 1] == miners;
      TotalInsert(before, miners[n].uid, Earned(miners[n], card, hours));
    }
  }

  lemma EarnedEntry(miners: seq<MinerInput>, card: map<string, real>, hours: real, i: nat)
    requires DistinctUids(miners) && i < |miners|
    ensures Get(EarnedMap(miners, card, hours), miners[i].uid, 0.0) == Pay(miners[i], card, hours)
  {
    EarnedMapExact(miners, card, hours, i);
  }

  // ---- closed form ------------------------------------------------------------------------

  /** One entry of the split with the owner present. */
  lemma OwnerSplitEntry(earned: map<int, real>, ownerUid: int, pool: real, uid: int)
    requires pool > 0.0 && Total(earned) > 0.0
    ensures Get(EarnedSplit(earned, ownerUid, true, pool), uid, 0.0)
         == Get(earned, uid, 0.0) / Denominator(earned, pool)
            + (if uid == ownerUid then Remainder(earned, pool) else 0.0)
  {
    QuotientTimes(0.0, Denominator(earned, pool));
    hide Remainder, Total;
  }

  lemma ZeroShare(d: real)
    requires d > 0.0
    ensures 0.0 / d == 0.0
  {
    QuotientTimes(0.0, d);
  }

  /** `e_i / max(pool, sum e)`, plus everything unearned for the owner. */
  lemma WeightWithOwner(miners: seq<MinerInput>, card: map<string, real>, hours: real, ownerUid: int, pool: real,
                        i: nat)
    requires pool > 0.0 && DistinctUids(miners) && HasUid(miners, ownerUid) && i < |miners|
    ensures var s := SumPay(miners, card, hours);
            var d := Max(pool, s);
            Weight(miners, card, hours, ownerUid, pool, miners[i].uid) ==
            Pay(miners[i], card, hours) / d + (if miners[i].uid == ownerUid then 1.0 - s / d else 0.0)
  {
    var earned := EarnedMap(miners, card, hours);
    TotalIsSumPay(miners, card, hours);
    EarnedEntry(miners, card, hours, i);
    EarnedTotalPositive(miners, card, hours);
    hide EarnedMap, SumPay, Pay, HasUid, DistinctUids, EarnedSplit;
    if earned != map[] {
      OwnerSplitEntry(earned, ownerUid, pool, miners[i].uid);
    } else {
      ZeroShare(pool);
    }
  }

  /** Without the owner in the metagraph the earners share the whole emission; with no earner it is split evenly. */
  lemma WeightWithoutOwner(miners: seq<MinerInput>, card: map<string, real>, hours: real, ownerUid: int, pool: real,
                           i: nat)
    requires pool > 0.0 && DistinctUids(miners) && !HasUid(miners, ownerUid) && i < |miners|
    ensures var s := SumPay(miners, card, hours);
            Weight(miners, card, hours, ownerUid, pool, miners[i].uid) ==
            if s > 0.0 then Pay(miners[i], card, hours) / s else 1.0 / |miners| as real
  {
    var earned := EarnedMap(miners, card, hours);
    TotalIsSumPay(miners, card, hours);
    EarnedEntry(miners, card, hours, i);
    EarnedTotalPositive(miners, card, hours);
    if earned == map[] {
      assert UidsOf(miners)[i] == miners[i].uid;
    } else {
      QuotientTimes(0.0, Total(earned));
    }
  }

  /** Every weight belongs to a metagraph uid. */
  lemma SplitCovered(miners: seq<MinerInput>, card: map<string, real>, hours: real, ownerUid: int, pool: real)
    requires pool > 0.0
    ensures forall u :: u in Split(miners, card, hours, ownerUid, pool) ==> u in UidsOf(miners)
  {
    var split := Split(miners, card, hours, ownerUid, pool);
    EarnedMapPositive(miners, card, hours);
    forall u | u in split ensures u in UidsOf(miners) {
      HasUidIsMembership(miners, u);
      if u in EarnedMap(miners, card, hours) {
        assert HasUid(miners, u);
      }
    }
  }

  /** The order in which the metagraph lists the miners is irrelevant. */
  lemma OrderIndependent(miners: seq<MinerInput>, shuffled: seq<MinerInput>, card: map<string, real>, hours: real,
                         ownerUid: int, pool: real)
    requires pool > 0.0 && DistinctUids(miners) && DistinctUids(shuffled)
    requires multiset(miners) == multiset(shuffled)
    ensures Split(miners, card, hours, ownerUid, pool) == Split(shuffled, card, hours, ownerUid, pool)
  {
    assert |miners| == |multiset(miners)| == |multiset(shuffled)| == |shuffled|;
    var a, b := EarnedMap(miners, card, hours), EarnedMap(shuffled, card, hours);
    assert a == b by {
      forall u | u in a ensures u in b && b[u] == a[u] {
        EarnedMapIncluded(miners, shuffled, card, hours, u);
      }
      forall u | u in b ensures u in a && a[u] == b[u] {
        EarnedMapIncluded(shuffled, miners, card, hours, u);
      }
      SameEntries(a, b);
    }
    SameUids(miners, shuffled);
    SameUids(shuffled, miners);
    HasUidIsMembership(miners, ownerUid);
    HasUidIsMembership(shuffled, ownerUid);
    hide EarnedMap, EarnedSplit, UidsOf, HasUid;
    if miners != [] {
      SameKeysSameConstant(UidsOf(miners), UidsOf(shuffled), 1.0 / |miners| as real);
    }
  }

  lemma SameKeysSameConstant<K(!new)>(a: seq<K>, b: seq<K>, c: real)
    requires forall k :: k in a <==> k in b
    ensures ConstantMap(a, c) == ConstantMap(b, c)
  {
  }

  lemma SameUids(miners: seq<MinerInput>, shuffled: seq<MinerInput>)
    requires multiset(miners) == multiset(shuffled)
    ensures forall u :: u in UidsOf(miners) ==> u in UidsOf(shuffled)
  {
    forall u | u in UidsOf(miners) ensures u in UidsOf(shuffled) {
      var i :| 0 <= i < |miners| && UidsOf(miners)[i] == u;
      assert miners[i] in multiset(shuffled);
      var j :| 0 <= j < |shuffled| && shuffled[j] == miners[i];
      assert UidsOf(shuffled)[j] == u;
    }
  }

  lemma EarnedMapIncluded(miners: seq<MinerInput>, shuffled: seq<MinerInput>, card: map<string, real>, hours: real,
                          u: int)
    requires DistinctUids(miners) && DistinctUids(shuffled) && multiset(miners) == multiset(shuffled)
    requires u in EarnedMap(miners, card, hours)
    ensures u in EarnedMap(shuffled, card, hours)
    ensures EarnedMap(shuffled, card, hours)[u] == EarnedMap(miners, card, hours)[u]
  {
    EarnedMapPositive(miners, card, hours);
    assert HasUid(miners, u);
    var i :| 0 <= i < |miners| && miners[i].uid == u;
    assert miners[i] in multiset(shuffled);
    var j :| 0 <= j < |shuffled| && shuffled[j] == miners[i];
    EarnedMapExact(miners, card, hours, i);
    EarnedMapExact(shuffled, card, hours, j);
  }

  // ---- normalisation ----------------------------------------------------------------------

  /** The vector handed to the chain: one entry per metagraph uid. */
  ghost function Submitted(miners: seq<MinerInput>, card: map<string, real>, hours: real, ownerUid: int,
                           pool: real): map<int, real>
    requires pool > 0.0
  {
    PadTo(Split(miners, card, hours, ownerUid, pool), UidsOf(miners))
  }

  lemma TotalOfSplit(earned: map<int, real>, ownerUid: int, ownerPresent: bool, pool: real)
    requires pool > 0.0 && Total(earned) > 0.0
    ensures Total(EarnedSplit(earned, ownerUid, ownerPresent, pool)) == 1.0
  {
    var d := Denominator(earned, pool);
    TotalQuotients(earned, d);
    TotalQuotients(earned, Total(earned));
    QuotientSign(Total(earned), Total(earned));
    var q := Quotients(earned, d);
    TotalInsert(q, ownerUid, Get(q, ownerUid, 0.0) + Remainder(earned, pool));
  }

  lemma SplitNonNegative(earned: map<int, real>, ownerUid: int, ownerPresent: bool, pool: real)
    requires pool > 0.0 && Total(earned) > 0.0
    requires forall u :: u in earned ==> earned[u] > 0.0
    ensures var w := EarnedSplit(earned, ownerUid, ownerPresent, pool);
            forall u :: u in w ==> w[u] >= 0.0
  {
    var w := EarnedSplit(earned, ownerUid, ownerPresent, pool);
    RemainderRange(earned, pool);
    forall u | u in w ensures w[u] >= 0.0 {
      if u in earned {
        QuotientSign(earned[u], Denominator(earned, pool));
        QuotientSign(earned[u], Total(earned));
      }
    }
  }

  lemma SplitNormalised(miners: seq<MinerInput>, card: map<string, real>, hours: real, ownerUid: int, pool: real)
    requires pool > 0.0 && DistinctUids(miners) && miners != []
    ensures var split := Split(miners, card, hours, ownerUid, pool);
            Total(split) == 1.0 && forall u :: u in split ==> split[u] >= 0.0
  {
    var earned := EarnedMap(miners, card, hours);
    EarnedTotalPositive(miners, card, hours);
    EarnedMapPositive(miners, card, hours);
    assert forall u :: u in earned ==> earned[u] > 0.0;
    hide EarnedMap, EarnedSplit, HasUid;
    if earned != map[] {
      TotalOfSplit(earned, ownerUid, HasUid(miners, ownerUid), pool);
      SplitNonNegative(earned, ownerUid, HasUid(miners, ownerUid), pool);
    } else if HasUid(miners, ownerUid) {
      TotalInsert(map[], ownerUid, 1.0);
    } else {
      TotalOfEvenSplit(UidsOf(miners));
      QuotientSign(1.0, |miners| as real);
    }
  }

  /** Exactly the metagraph's uids, no negative entry, sum one, nothing dropped. */
  lemma Normalised(miners: seq<MinerInput>, card: map<string, real>, hours: real, ownerUid: int, pool: real)
    requires pool > 0.0 && DistinctUids(miners) && miners != []
    ensures var w := Submitted(miners, card, hours, ownerUid, pool);
            && (forall u :: u in w <==> HasUid(miners, u))
            && (forall u :: u in w ==> w[u] >= 0.0)
            && Total(w) == 1.0
            && forall u :: u in Split(miners, card, hours, ownerUid, pool) ==>
                 u in w && w[u] == Split(miners, card, hours, ownerUid, pool)[u]
  {
    var split := Split(miners, card, hours, ownerUid, pool);
    var w := Submitted(miners, card, hours, ownerUid, pool);
    SplitNormalised(miners, card, hours, ownerUid, pool);
    SplitCovered(miners, card, hours, ownerUid, pool);
    assert forall u :: u in split ==> u in UidsOf(miners);
    TotalOfPadding(split, UidsOf(miners));
    hide Split, HasUid, UidsOf;
    forall u ensures u in w <==> HasUid(miners, u) {
      HasUidIsMembership(miners, u);
    }
  }

  /** Weight goes to ready earners and the owner only, but for the even split when there is neither. */
  lemma OnlyEarnersOrOwner(miners: seq<MinerInput>, card: map<string, real>, hours: real, ownerUid: int, pool: real,
                           i: nat)
    requires pool > 0.0 && DistinctUids(miners) && i < |miners|
    requires miners[i].uid != ownerUid
    requires HasUid(miners, ownerUid) || SumPay(miners, card, hours) > 0.0
    ensures Weight(miners, card, hours, ownerUid, pool, miners[i].uid) != 0.0 <==> Earns(miners[i], card, hours)
  {
    var s := SumPay(miners, card, hours);
    var p := Pay(miners[i], card, hours);
    QuotientSign(p, Max(pool, s));
    QuotientTimes(0.0, Max(pool, s));
    if HasUid(miners, ownerUid) {
      WeightWithOwner(miners, card, hours, ownerUid, pool, i);
    } else {
      WeightWithoutOwner(miners, card, hours, ownerUid, pool, i);
      QuotientSign(p, s);
      QuotientTimes(0.0, s);
    }
  }

  // ---- incentives: two runs ---------------------------------------------------------------

  lemma {:induction false} SumPaySplice(before: seq<MinerInput>, middle: seq<MinerInput>, after: seq<MinerInput>,
                                        card: map<string, real>, hours: real)
    ensures SumPay(before + middle + after, card, hours)
         == SumPay(before, card, hours) + SumPay(middle, card, hours) + SumPay(after, card, hours)
  {
    if after == [] {
      assert before + middle + after == before + middle;
      if middle == [] {
        assert before + middle == before;
      } else {
        var n := |middle| - 1;
        assert (before + middle)[..|before + middle| - 1] == before + middle[..n] + [];
        SumPaySplice(before, middle[..n], [], card, hours);
      }
    } else {
      var n := |after| - 1;
      var all := before + middle + after;
      assert all[..|all| - 1] == before + middle + after[..n];
      SumPaySplice(before, middle, after[..n], card, hours);
    }
  }

  lemma SumPayOfOne(m: MinerInput, card: map<string, real>, hours: real)
    ensures SumPay([m], card, hours) == Pay(m, card, hours)
  {
    assert [m][..0] == [];
  }

  /** Exchanging one record moves the sum by the difference. */
  lemma SumPayReplace(miners: seq<MinerInput>, i: nat, m: MinerInput, card: map<string, real>, hours: real)
    requires i < |miners|
    ensures SumPay(miners[i := m], card, hours)
         == SumPay(miners, card, hours) - Pay(miners[i], card, hours) + Pay(m, card, hours)
    ensures Pay(miners[i], card, hours) <= SumPay(miners, card, hours)
  {
    var before, after := miners[..i], miners[i + 1..];
    assert miners == before + [miners[i]] + after;
    assert miners[i := m] == before + [m] + after;
    SumPaySplice(before, [miners[i]], after, card, hours);
    SumPaySplice(before, [m], after, card, hours);
    SumPayOfOne(miners[i], card, hours);
    SumPayOfOne(m, card, hours);
  }

  /** Adding the same amount above and below a proper fraction does not lower it. */
  lemma Mediant(p: real, s: real, delta: real)
    requires 0.0 <= p <= s && s > 0.0 && delta >= 0.0
    ensures p / s <= (p + delta) / (s + delta)
  {
    var q := p / s;
    QuotientTimes(p, s);
    QuotientOrder(p, s, s);
    QuotientSign(s, s);
    assert q <= 1.0;
    ProductOrder(q, 1.0, delta);
    Expand(q, s, delta);
    assert q * (s + delta) <= p + delta;
    QuotientOrder(q * (s + delta), p + delta, s + delta);
    QuotientUnique(q * (s + delta), s + delta, q);
  }

  lemma Expand(q: real, s: real, delta: real)
    ensures q * (s + delta) == q * s + q * delta
  {
  }

  /** A miner that earns more while the others stand still, as numbers. */
  lemma RaisedShare(p: real, p': real, s: real, pool: real)
    requires 0.0 <= p <= p' && p <= s && pool > 0.0
    ensures var s' := s - p + p';
            p / Max(pool, s) <= p' / Max(pool, s')
  {
    var s' := s - p + p';
    var d, d' := Max(pool, s), Max(pool, s');
    Mediant(p, d, d' - d);
    QuotientOrder(p + (d' - d), p', d');
  }

  /** The owner's weight is what the others leave. */
  lemma OwnerShare(p: real, s: real, d: real)
    requires d > 0.0
    ensures p / d + (1.0 - s / d) == 1.0 - (s - p) / d
  {
    QuotientSum(s - p, p, d);
  }

  /** The one weight formula: over `d`, with the unearned part for the owner; or even shares. */
  ghost function WeightOf(p: real, s: real, pool: real, n: nat, ownerPresent: bool, isOwner: bool): real
    requires pool > 0.0 && n > 0 && s >= 0.0
  {
    if ownerPresent then p / Max(pool, s) + (if isOwner then 1.0 - s / Max(pool, s) else 0.0)
    else if s > 0.0 then p / s
    else 1.0 / n as real
  }

  lemma WeightAt(miners: seq<MinerInput>, card: map<string, real>, hours: real, ownerUid: int, pool: real, i: nat)
    requires pool > 0.0 && DistinctUids(miners) && i < |miners|
    ensures Weight(miners, card, hours, ownerUid, pool, miners[i].uid)
         == WeightOf(Pay(miners[i], card, hours), SumPay(miners, card, hours), pool, |miners|,
                     HasUid(miners, ownerUid), miners[i].uid == ownerUid)
  {
    hide Weight, Pay, SumPay, HasUid, DistinctUids;
    if HasUid(miners, ownerUid) {
      WeightWithOwner(miners, card, hours, ownerUid, pool, i);
    } else {
      WeightWithoutOwner(miners, card, hours, ownerUid, pool, i);
    }
  }

  lemma FractionOfOne(n: nat)
    requires n > 0
    ensures 0.0 <= 1.0 / n as real <= 1.0
  {
    QuotientSign(1.0, n as real);
    QuotientOrder(1.0, n as real, n as real);
    QuotientSign(n as real, n as real);
  }

  /** A miner that earns more, as numbers: its own weight. */
  lemma OwnWeightRises(p: real, p': real, s: real, pool: real, n: nat, ownerPresent: bool, isOwner: bool)
    requires 0.0 <= p <= p' && p <= s && pool > 0.0 && n > 0
    ensures WeightOf(p, s, pool, n, ownerPresent, isOwner) <= WeightOf(p', s - p + p', pool, n, ownerPresent, isOwner)
  {
    var s' := s - p + p';
    if ownerPresent {
      if isOwner {
        OwnerShare(p, s, Max(pool, s));
        OwnerShare(p', s', Max(pool, s'));
        QuotientAntitone(s - p, Max(pool, s), Max(pool, s'));
      } else {
        RaisedShare(p, p', s, pool);
      }
    } else if s > 0.0 {
      Mediant(p, s, s' - s);
    } else if s' > 0.0 {
      FractionOfOne(n);
      QuotientSign(s', s');
    }
  }

  /** The same: the weight of another who is not the owner. */
  lemma OtherWeightFalls(q: real, s: real, s': real, pool: real, n: nat, ownerPresent: bool)
    requires 0.0 <= q <= s <= s' && pool > 0.0 && n > 0
    ensures WeightOf(q, s', pool, n, ownerPresent, false) <= WeightOf(q, s, pool, n, ownerPresent, false)
  {
    if ownerPresent {
      QuotientAntitone(q, Max(pool, s), Max(pool, s'));
    } else if s > 0.0 {
      QuotientAntitone(q, s, s');
    } else if s' > 0.0 {
      ZeroShare(s');
      FractionOfOne(n);
    }
  }

  /**
   * Earning more never lowers a miner's own weight, and never raises that of another miner who is not the owner,
   * whether the owner is in the metagraph or not.
   */
  lemma RaisingEarnings(miners: seq<MinerInput>, i: nat, m: MinerInput, card: map<string, real>, hours: real,
                        ownerUid: int, pool: real)
    requires pool > 0.0 && DistinctUids(miners)
    requires i < |miners| && m.uid == miners[i].uid
    requires Pay(m, card, hours) >= Pay(miners[i], card, hours)
    ensures Weight(miners[i := m], card, hours, ownerUid, pool, m.uid)
         >= Weight(miners, card, hours, ownerUid, pool, m.uid)
    ensures forall j :: 0 <= j < |miners| && j != i && miners[j].uid != ownerUid ==>
              Weight(miners[i := m], card, hours, ownerUid, pool, miners[j].uid) <=
              Weight(miners, card, hours, ownerUid, pool, miners[j].uid)
  {
    var after := miners[i := m];
    assert UidsOf(after) == UidsOf(miners);
    HasUidIsMembership(miners, ownerUid);
    HasUidIsMembership(after, ownerUid);
    SumPayReplace(miners, i, m, card, hours);
    var s, s' := SumPay(miners, card, hours), SumPay(after, card, hours);
    var here := HasUid(miners, ownerUid);
    WeightAt(miners, card, hours, ownerUid, pool, i);
    WeightAt(after, card, hours, ownerUid, pool, i);
    assert here == HasUid(after, ownerUid) && DistinctUids(after);
    OwnWeightRises(Pay(miners[i], card, hours), Pay(m, card, hours), s, pool, |miners|, here, m.uid == ownerUid);
    hide Weight, SumPay, Pay, WeightOf, HasUid, UidsOf, DistinctUids;
    forall j | 0 <= j < |miners| && j != i && miners[j].uid != ownerUid
      ensures Weight(after, card, hours, ownerUid, pool, miners[j].uid)
           <= Weight(miners, card, hours, ownerUid, pool, miners[j].uid)
    {
      WeightAt(miners, card, hours, ownerUid, pool, j);
      WeightAt(after, card, hours, ownerUid, pool, j);
      SumPayReplace(miners, j, miners[j], card, hours);
      OtherWeightFalls(Pay(miners[j], card, hours), s, s', pool, |miners|, here);
    }
  }

  lemma CrossRatio(a: real, b: real, d: real)
    requires d > 0.0
    ensures (a / d) * b == (b / d) * a
  {
    QuotientIsProduct(a, d);
    QuotientIsProduct(b, d);
  }

  /** Earned ratios are kept exactly between any two miners who are not the owner. */
  lemma RatiosPreserved(miners: seq<MinerInput>, i: nat, j: nat, card: map<string, real>, hours: real,
                        ownerUid: int, pool: real)
    requires pool > 0.0 && DistinctUids(miners) && i < |miners| && j < |miners|
    requires miners[i].uid != ownerUid && miners[j].uid != ownerUid
    requires HasUid(miners, ownerUid) || SumPay(miners, card, hours) > 0.0
    ensures Weight(miners, card, hours, ownerUid, pool, miners[i].uid) * Pay(miners[j], card, hours)
         == Weight(miners, card, hours, ownerUid, pool, miners[j].uid) * Pay(miners[i], card, hours)
  {
    hide Weight, SumPay, Pay, HasUid;
    var s := SumPay(miners, card, hours);
    if HasUid(miners, ownerUid) {
      WeightWithOwner(miners, card, hours, ownerUid, pool, i);
      WeightWithOwner(miners, card, hours, ownerUid, pool, j);
      CrossRatio(Pay(miners[i], card, hours), Pay(miners[j], card, hours), Max(pool, s));
    } else {
      WeightWithoutOwner(miners, card, hours, ownerUid, pool, i);
      WeightWithoutOwner(miners, card, hours, ownerUid, pool, j);
      CrossRatio(Pay(miners[i], card, hours), Pay(miners[j], card, hours), s);
    }
  }

  lemma SplitSum(before: seq<MinerInput>, m: MinerInput, m1: MinerInput, m2: MinerInput, after: seq<MinerInput>,
                 card: map<string, real>, hours: real)
    requires Pay(m, card, hours) == Pay(m1, card, hours) + Pay(m2, card, hours)
    ensures SumPay(before + [m1, m2] + after, card, hours) == SumPay(before + [m] + after, card, hours)
  {
    SumPaySplice(before, [m], after, card, hours);
    SumPaySplice(before, [m1, m2], after, card, hours);
    SumPayOfOne(m, card, hours);
    SumPayOfOne(m1, card, hours);
    assert [m1, m2][..1] == [m1];
  }

  /** A uid other than those of the middle is there exactly if it is around it. */
  lemma HasUidAround(before: seq<MinerInput>, middle: seq<MinerInput>, after: seq<MinerInput>, uid: int)
    requires forall k :: 0 <= k < |middle| ==> middle[k].uid != uid
    ensures HasUid(before + middle + after, uid) <==> HasUid(before + after, uid)
  {
    var all := before + middle + after;
    if i :| 0 <= i < |all| && all[i].uid == uid {
      var k := if i < |before| then i else i - |middle|;
      assert (before + after)[k] == all[i];
    }
    if k :| 0 <= k < |before + after| && (before + after)[k].uid == uid {
      assert all[Shifted(before, middle, after, k)].uid == uid;
    }
  }

  /** Whose weight does not depend on how many miners there are. */
  lemma WeightOfMany(p: real, s: real, pool: real, n: nat, n': nat, ownerPresent: bool)
    requires pool > 0.0 && n > 0 && n' > 0 && s >= 0.0 && (ownerPresent || s > 0.0)
    ensures forall isOwner ::
              WeightOf(p, s, pool, n, ownerPresent, isOwner) == WeightOf(p, s, pool, n', ownerPresent, isOwner)
  {
  }

  lemma WeightOfSum(p: real, q: real, s: real, pool: real, n: nat, ownerPresent: bool)
    requires pool > 0.0 && n > 0 && s >= 0.0 && (ownerPresent || s > 0.0)
    ensures WeightOf(p, s, pool, n, ownerPresent, false) + WeightOf(q, s, pool, n, ownerPresent, false)
         == WeightOf(p + q, s, pool, n, ownerPresent, false)
  {
    QuotientSum(p, q, if ownerPresent then Max(pool, s) else s);
  }

  /** Both metagraphs of a split give weights by the same sum and the same presence of the owner. */
  lemma SplitWeightAt(before: seq<MinerInput>, middle: seq<MinerInput>, after: seq<MinerInput>, card: map<string, real>,
                      hours: real, ownerUid: int, pool: real, i: nat)
    requires pool > 0.0 && i < |before + middle + after| && DistinctUids(before + middle + after)
    requires forall k :: 0 <= k < |middle| ==> middle[k].uid != ownerUid
    ensures var all := before + middle + after;
            Weight(all, card, hours, ownerUid, pool, all[i].uid) ==
            WeightOf(Pay(all[i], card, hours), SumPay(all, card, hours), pool, |all|, HasUid(before + after, ownerUid),
                     all[i].uid == ownerUid)
  {
    HasUidAround(before, middle, after, ownerUid);
    hide Weight, Pay, SumPay, HasUid, DistinctUids, WeightOf;
    WeightAt(before + middle + after, card, hours, ownerUid, pool, i);
  }

  lemma SplitOwn(before: seq<MinerInput>, m: MinerInput, m1: MinerInput, m2: MinerInput, after: seq<MinerInput>,
                 card: map<string, real>, hours: real, ownerUid: int, pool: real)
    requires pool > 0.0
    requires DistinctUids(before + [m] + after) && DistinctUids(before + [m1, m2] + after)
    requires m.uid != ownerUid && m1.uid != ownerUid && m2.uid != ownerUid
    requires HasUid(before + after, ownerUid) || SumPay(before + [m] + after, card, hours) > 0.0
    requires Pay(m, card, hours) == Pay(m1, card, hours) + Pay(m2, card, hours)
    ensures var one, two := before + [m] + after, before + [m1, m2] + after;
            Weight(two, card, hours, ownerUid, pool, m1.uid) + Weight(two, card, hours, ownerUid, pool, m2.uid) ==
            Weight(one, card, hours, ownerUid, pool, m.uid)
  {
    hide Weight, Pay, SumPay, HasUid, DistinctUids, WeightOf;
    var one, two := before + [m] + after, before + [m1, m2] + after;
    var b := |before|;
    assert one[b] == m && two[b] == m1 && two[b + 1] == m2;
    SplitSum(before, m, m1, m2, after, card, hours);
    var s, here := SumPay(one, card, hours), HasUid(before + after, ownerUid);
    SplitWeightAt(before, [m], after, card, hours, ownerUid, pool, b);
    SplitWeightAt(before, [m1, m2], after, card, hours, ownerUid, pool, b);
    SplitWeightAt(before, [m1, m2], after, card, hours, ownerUid, pool, b + 1);
    WeightOfSum(Pay(m1, card, hours), Pay(m2, card, hours), s, pool, |two|, here);
    WeightOfMany(Pay(m, card, hours), s, pool, |one|, |two|, here);
  }

  lemma SplitOther(before: seq<MinerInput>, m: MinerInput, m1: MinerInput, m2: MinerInput, after: seq<MinerInput>,
                   card: map<string, real>, hours: real, ownerUid: int, pool: real, k: nat)
    requires pool > 0.0 && k < |before + after|
    requires DistinctUids(before + [m] + after) && DistinctUids(before + [m1, m2] + after)
    requires m.uid != ownerUid && m1.uid != ownerUid && m2.uid != ownerUid
    requires HasUid(before + after, ownerUid) || SumPay(before + [m] + after, card, hours) > 0.0
    requires Pay(m, card, hours) == Pay(m1, card, hours) + Pay(m2, card, hours)
    ensures var x := (before + after)[k];
            Weight(before + [m1, m2] + after, card, hours, ownerUid, pool, x.uid) ==
            Weight(before + [m] + after, card, hours, ownerUid, pool, x.uid)
  {
    hide Weight, Pay, SumPay, HasUid, DistinctUids, WeightOf, Shifted;
    var one, two := before + [m] + after, before + [m1, m2] + after;
    SplitSum(before, m, m1, m2, after, card, hours);
    SplitWeightAt(before, [m], after, card, hours, ownerUid, pool, Shifted(before, [m], after, k));
    SplitWeightAt(before, [m1, m2], after, card, hours, ownerUid, pool, Shifted(before, [m1, m2], after, k));
    WeightOfMany(Pay((before + after)[k], card, hours), SumPay(one, card, hours), pool, |one|, |two|,
                 HasUid(before + after, ownerUid));
  }

  /** Two uids that earn together what one earned weigh together what it weighed. */
  lemma SplitPay(before: seq<MinerInput>, m: MinerInput, m1: MinerInput, m2: MinerInput, after: seq<MinerInput>,
                 card: map<string, real>, hours: real, ownerUid: int, pool: real)
    requires pool > 0.0
    requires DistinctUids(before + [m] + after) && DistinctUids(before + [m1, m2] + after)
    requires m.uid != ownerUid && m1.uid != ownerUid && m2.uid != ownerUid
    requires HasUid(before + after, ownerUid) || SumPay(before + [m] + after, card, hours) > 0.0
    requires Pay(m, card, hours) == Pay(m1, card, hours) + Pay(m2, card, hours)
    ensures var one, two := before + [m] + after, before + [m1, m2] + after;
            && Weight(two, card, hours, ownerUid, pool, m1.uid) + Weight(two, card, hours, ownerUid, pool, m2.uid)
            == Weight(one, card, hours, ownerUid, pool, m.uid)
            && forall x :: x in before + after ==>
                 Weight(two, card, hours, ownerUid, pool, x.uid) == Weight(one, card, hours, ownerUid, pool, x.uid)
  {
    hide *;
    var one, two := before + [m] + after, before + [m1, m2] + after;
    SplitOwn(before, m, m1, m2, after, card, hours, ownerUid, pool);
    forall x | x in before + after
      ensures Weight(two, card, hours, ownerUid, pool, x.uid) == Weight(one, card, hours, ownerUid, pool, x.uid)
    {
      var k :| 0 <= k < |before + after| && (before + after)[k] == x;
      SplitOther(before, m, m1, m2, after, card, hours, ownerUid, pool, k);
    }
  }

  /** The GPUs of one class over all entries. */
  function CountOf(b: seq<(string, int)>, klass: string): int {
    if b == [] then 0
    else CountOf(b[..|b| - 1], klass) + if b[|b| - 1].0 == klass then b[|b| - 1].1 else 0
  }

  /** The entries of all other classes. */
  function Without(b: seq<(string, int)>, klass: string): (r: seq<(string, int)>)
    ensures |r| <= |b|
    ensures b != [] && b[|b| - 1].0 == klass ==> |r| < |b|
  {
    if b == [] then []
    else if b[|b| - 1].0 == klass then Without(b[..|b| - 1], klass)
    else Without(b[..|b| - 1], klass) + [b[|b| - 1]]
  }

  lemma {:induction false} CountsWithout(b: seq<(string, int)>, klass: string, other: string)
    ensures CountOf(Without(b, klass), other) == if other == klass then 0 else CountOf(b, other)
  {
    if b != [] {
      var n := |b| - 1;
      CountsWithout(b[..n], klass, other);
      var r := Without(b[..n], klass);
      assert (r + [b[n]])[..|r|] == r;
    }
  }

  function ClassUsd(card: map<string, real>, klass: string, count: int): real {
    Get(card, Upper(klass), 0.0) * count as real
  }

  lemma ClassUsdSum(card: map<string, real>, klass: string, m: int, n: int)
    ensures ClassUsd(card, klass, m + n) == ClassUsd(card, klass, m) + ClassUsd(card, klass, n)
    ensures ClassUsd(card, klass, 0) == 0.0
  {
    Expand(Get(card, Upper(klass), 0.0), m as real, n as real);
  }

  lemma UsdOfLast(b: seq<(string, int)>, card: map<string, real>)
    requires b != []
    ensures var n := |b| - 1;
            UsdOfBreakdown(b, card) == UsdOfBreakdown(b[..n], card) + ClassUsd(card, b[n].0, b[n].1)
  {
  }

  lemma {:induction false} UsdWithout(b: seq<(string, int)>, klass: string, card: map<string, real>)
    ensures UsdOfBreakdown(b, card)
         == ClassUsd(card, klass, CountOf(b, klass)) + UsdOfBreakdown(Without(b, klass), card)
  {
    ClassUsdSum(card, klass, 0, 0);
    if b != [] {
      var n := |b| - 1;
      UsdWithout(b[..n], klass, card);
      ClassUsdSum(card, klass, CountOf(b[..n], klass), b[n].1);
      UsdOfLast(b, card);
      if b[n].0 != klass {
        var r := Without(b[..n], klass);
        assert (r + [b[n]])[..|r|] == r;
        UsdOfLast(r + [b[n]], card);
      }
      hide ClassUsd, UsdOfBreakdown;
    }
  }

  /** What a breakdown is worth depends on its total per class only, not on its entries. */
  lemma {:induction false} UsdByCounts(a: seq<(string, int)>, b: seq<(string, int)>, card: map<string, real>)
    requires forall k :: CountOf(a, k) == CountOf(b, k)
    ensures UsdOfBreakdown(a, card) == UsdOfBreakdown(b, card)
    decreases |a| + |b|
  {
    if a != [] || b != [] {
      hide CountOf, ClassUsd, UsdOfBreakdown;
      var k := if a != [] then a[|a| - 1].0 else b[|b| - 1].0;
      forall q ensures CountOf(Without(a, k), q) == CountOf(Without(b, k), q) {
        CountsWithout(a, k, q);
        CountsWithout(b, k, q);
      }
      UsdByCounts(Without(a, k), Without(b, k), card);
      UsdWithout(a, k, card);
      UsdWithout(b, k, card);
    }
  }

  lemma {:induction false} UsdOfBoth(a: seq<(string, int)>, b: seq<(string, int)>, card: map<string, real>,
                                     klass: string)
    ensures UsdOfBreakdown(a + b, card) == UsdOfBreakdown(a, card) + UsdOfBreakdown(b, card)
    ensures CountOf(a + b, klass) == CountOf(a, klass) + CountOf(b, klass)
  {
    if b == [] {
      assert a + b == a;
    } else {
      var n := |b| - 1;
      assert (a + b)[..|a + b| - 1] == a + b[..n];
      UsdOfBoth(a, b[..n], card, klass);
    }
  }

  /** The GPUs of `b` are dealt out over `b1` and `b2`, class by class; a class may go wholly to one side. */
  ghost predicate DealtOut(b: seq<(string, int)>, b1: seq<(string, int)>, b2: seq<(string, int)>) {
    forall k :: CountOf(b, k) == CountOf(b1, k) + CountOf(b2, k)
  }

  lemma UsdDealtOut(b: seq<(string, int)>, b1: seq<(string, int)>, b2: seq<(string, int)>, card: map<string, real>)
    requires DealtOut(b, b1, b2)
    ensures UsdOfBreakdown(b, card) == UsdOfBreakdown(b1, card) + UsdOfBreakdown(b2, card)
  {
    UsdOfBoth(b1, b2, card, "");
    forall k ensures CountOf(b, k) == CountOf(b1 + b2, k) {
      UsdOfBoth(b1, b2, card, k);
    }
    UsdByCounts(b, b1 + b2, card);
  }

  lemma EarnedDealtOut(t1: real, t2: real, tenure: real, hours: real)
    ensures EarnedUsd(t1 + t2, tenure, hours) == EarnedUsd(t1, tenure, hours) + EarnedUsd(t2, tenure, hours)
  {
    Expand(tenure, t1, t2);
    Expand(hours, t1 * tenure, t2 * tenure);
  }

  ghost predicate NonNegative(card: map<string, real>) {
    forall k :: k in card ==> card[k] >= 0.0
  }

  /** A scoring record as a cycle makes it: paid by its breakdown alone, no negative count. */
  ghost predicate ByBreakdown(m: MinerInput) {
    && (m.gpuBreakdown == [] ==> m.gpuClass == None)
    && forall i :: 0 <= i < |m.gpuBreakdown| ==> m.gpuBreakdown[i].1 >= 0
  }

  /** `m1` and `m2` hold the GPUs of `m` between them; a side without GPUs may be in any state. */
  ghost predicate SplitsInto(m: MinerInput, m1: MinerInput, m2: MinerInput) {
    && ByBreakdown(m) && ByBreakdown(m1) && ByBreakdown(m2)
    && DealtOut(m.gpuBreakdown, m1.gpuBreakdown, m2.gpuBreakdown)
    && (m1.gpuBreakdown == [] || (m1.ready == m.ready && m1.tenure == m.tenure))
    && (m2.gpuBreakdown == [] || (m2.ready == m.ready && m2.tenure == m.tenure))
  }

  lemma NonNegativeProduct(a: real, b: real)
    requires a >= 0.0 && b >= 0.0
    ensures a * b >= 0.0
    ensures a * b > 0.0 <==> a > 0.0 && b > 0.0
  {
  }

  lemma {:induction false} UsdNonNegative(b: seq<(string, int)>, card: map<string, real>)
    requires NonNegative(card) && forall i :: 0 <= i < |b| ==> b[i].1 >= 0
    ensures UsdOfBreakdown(b, card) >= 0.0
  {
    if b != [] {
      var n := |b| - 1;
      UsdNonNegative(b[..n], card);
      NonNegativeProduct(Get(card, Upper(b[n].0), 0.0), b[n].1 as real);
    }
  }

  /** Such a record is paid what its breakdown is worth if it is ready, at any tenure that its GPUs call for. */
  lemma PayByBreakdown(m: MinerInput, card: map<string, real>, hours: real, ready: bool, tenure: real)
    requires ByBreakdown(m) && NonNegative(card) && hours >= 0.0
    requires m.gpuBreakdown == [] || (m.ready == ready && m.tenure == tenure)
    ensures Pay(m, card, hours)
         == if ready then EarnedUsd(UsdOfBreakdown(m.gpuBreakdown, card), Min(1.0, Max(0.0, tenure)), hours) else 0.0
  {
    UsdNonNegative(m.gpuBreakdown, card);
    NonNegativeProduct(UsdOfBreakdown(m.gpuBreakdown, card), ClampedTenure(m));
    NonNegativeProduct(UsdOfBreakdown(m.gpuBreakdown, card) * ClampedTenure(m), hours);
  }

  /** One miner's GPUs registered under two uids earn together what they earned under one. */
  lemma PayDealtOut(m: MinerInput, m1: MinerInput, m2: MinerInput, card: map<string, real>, hours: real)
    requires SplitsInto(m, m1, m2) && NonNegative(card) && hours >= 0.0
    ensures Pay(m, card, hours) == Pay(m1, card, hours) + Pay(m2, card, hours)
  {
    PayByBreakdown(m, card, hours, m.ready, m.tenure);
    PayByBreakdown(m1, card, hours, m.ready, m.tenure);
    PayByBreakdown(m2, card, hours, m.ready, m.tenure);
    hide Pay, EarnedUsd, UsdOfBreakdown, CountOf;
    UsdDealtOut(m.gpuBreakdown, m1.gpuBreakdown, m2.gpuBreakdown, card);
    EarnedDealtOut(UsdOfBreakdown(m1.gpuBreakdown, card), UsdOfBreakdown(m2.gpuBreakdown, card), ClampedTenure(m),
                   hours);
  }

  /**
   * From GPUs to weights: dealing a miner's GPUs out over two uids changes neither the combined weight nor anybody
   * else's.
   */
  lemma SplitNeutral(before: seq<MinerInput>, m: MinerInput, m1: MinerInput, m2: MinerInput, after: seq<MinerInput>,
                     card: map<string, real>, hours: real, ownerUid: int, pool: real)
    requires pool > 0.0 && NonNegative(card) && hours >= 0.0
    requires DistinctUids(before + [m] + after) && DistinctUids(before + [m1, m2] + after)
    requires m.uid != ownerUid && m1.uid != ownerUid && m2.uid != ownerUid
    requires HasUid(before + after, ownerUid) || SumPay(before + [m] + after, card, hours) > 0.0
    requires SplitsInto(m, m1, m2)
    ensures var one, two := before + [m] + after, before + [m1, m2] + after;
            && Weight(two, card, hours, ownerUid, pool, m1.uid) + Weight(two, card, hours, ownerUid, pool, m2.uid)
            == Weight(one, card, hours, ownerUid, pool, m.uid)
            && forall x :: x in before + after ==>
                 Weight(two, card, hours, ownerUid, pool, x.uid) == Weight(one, card, hours, ownerUid, pool, x.uid)
  {
    hide *;
    PayDealtOut(m, m1, m2, card, hours);
    SplitPay(before, m, m1, m2, after, card, hours, ownerUid, pool);
  }

  /** Where the `k`-th of `before + after` stands once `middle` is put between. */
  ghost function Shifted(before: seq<MinerInput>, middle: seq<MinerInput>, after: seq<MinerInput>, k: nat): (i: nat)
    requires k < |before + after|
    ensures i < |before + middle + after| && (before + middle + after)[i] == (before + after)[k]
  {
    if k < |before| then k else k + |middle|
  }

  // ---- dollars ----------------------------------------------------------------------------

  lemma RestOfPool(s: real, pool: real)
    requires pool > 0.0
    ensures (1.0 - s / pool) * pool == pool - s
  {
    QuotientTimes(s, pool);
  }

  /** When the pool suffices, a weight is worth its miner's earnings to the cent and the rest is recycled. */
  lemma DollarsWithinPool(miners: seq<MinerInput>, card: map<string, real>, hours: real, ownerUid: int, pool: real,
                          i: nat)
    requires pool > 0.0 && DistinctUids(miners) && HasUid(miners, ownerUid) && i < |miners|
    requires SumPay(miners, card, hours) <= pool
    requires miners[i].uid != ownerUid
    ensures Weight(miners, card, hours, ownerUid, pool, miners[i].uid) * pool
         == if miners[i].ready then Max(0.0, Target(miners[i], card) * ClampedTenure(miners[i]) * hours) else 0.0
    ensures SumPay(miners, card, hours) + Remainder(EarnedMap(miners, card, hours), pool) * pool == pool
  {
    var s := SumPay(miners, card, hours);
    hide Weight, SumPay, EarnedMap, Target;
    WeightWithOwner(miners, card, hours, ownerUid, pool, i);
    QuotientTimes(Pay(miners[i], card, hours), pool);
    TotalIsSumPay(miners, card, hours);
    RestOfPool(s, pool);
  }

  /** When it does not, everybody is cut by the one factor `pool / sum e` and nothing is recycled. */
  lemma DollarsBeyondPool(miners: seq<MinerInput>, card: map<string, real>, hours: real, ownerUid: int, pool: real,
                          i: nat)
    requires pool > 0.0 && DistinctUids(miners) && HasUid(miners, ownerUid) && i < |miners|
    requires SumPay(miners, card, hours) > pool
    ensures Weight(miners, card, hours, ownerUid, pool, miners[i].uid) * pool
         == Pay(miners[i], card, hours) * (pool / SumPay(miners, card, hours))
    ensures Remainder(EarnedMap(miners, card, hours), pool) == 0.0
  {
    var s := SumPay(miners, card, hours);
    hide Weight, SumPay, EarnedMap, Pay;
    WeightWithOwner(miners, card, hours, ownerUid, pool, i);
    TotalIsSumPay(miners, card, hours);
    QuotientSign(s, s);
    CrossRatio(Pay(miners[i], card, hours), pool, s);
  }
}
