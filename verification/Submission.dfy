/**
 Weight submission: at most one accepted `set_weights` per chain epoch, behind the chain's
 rate limit.  One `Reads` is what one cycle sees of the chain.
 */
module Submission {
  import opened Prelude

  const DEFAULT_TEMPO: nat := 360
  const DEFAULT_RATE_LIMIT: nat := 100

  /** `None` is a read that failed or gave nothing; `chainAccepts` is the fate of an attempt. */
  datatype Reads = Reads(tempo: Option<nat>, block: Option<nat>, rateLimit: Option<nat>, chainAccepts: bool)

  function Tempo(r: Reads): (t: nat)
    ensures t > 0
  {
    if r.tempo.GetOr(0) == 0 then DEFAULT_TEMPO else r.tempo.value
  }

  /** A failed block read counts as block 0. */
  function Block(r: Reads): nat {
    r.block.GetOr(0)
  }

  function RateLimit(r: Reads): (l: nat)
    ensures l > 0
  {
    if r.rateLimit.GetOr(0) == 0 then DEFAULT_RATE_LIMIT else r.rateLimit.value
  }

  function EpochOf(block: nat, tempo: nat): nat
    requires tempo > 0
  {
    block / tempo
  }

  datatype State = State(lastEpoch: int, lastSetBlock: Option<nat>)

  const INITIAL: State := State(-1, None)

  datatype Outcome = AlreadyAttempted | Cooldown | Accepted | Rejected

  /** The cycle ends in an accepted submission. */
  predicate Submits(s: State, r: Reads) {
    && s.lastEpoch < EpochOf(Block(r), Tempo(r))
    && (s.lastSetBlock.Some? ==> Block(r) - s.lastSetBlock.value >= RateLimit(r))
    && r.chainAccepts
  }

  function Next(s: State, r: Reads): State {
    if Submits(s, r) then State(EpochOf(Block(r), Tempo(r)), Some(Block(r))) else s
  }

  /** The two fields of the validator that remember the last accepted submission. */
  class WeightSubmitter {
    var lastSubmittedEpoch: int
    var lastSetBlock: Option<nat>

    ghost function Abstract(): State
      reads this
    {
      State(lastSubmittedEpoch, lastSetBlock)
    }

    constructor ()
      ensures Abstract() == INITIAL
    {
      lastSubmittedEpoch := -1;
      lastSetBlock := None;
    }

    method SetWeightsOncePerEpoch(r: Reads) returns (outcome: Outcome)
      modifies this
      ensures Abstract() == Next(old(Abstract()), r)
      ensures outcome.Accepted? <==> Submits(old(Abstract()), r)
      ensures !outcome.Accepted? ==> Abstract() == old(Abstract())
      ensures outcome.AlreadyAttempted? <==> old(lastSubmittedEpoch) >= EpochOf(Block(r), Tempo(r))
      ensures outcome.Cooldown? <==>
                && old(lastSubmittedEpoch) < EpochOf(Block(r), Tempo(r))
                && old(lastSetBlock).Some? && Block(r) - old(lastSetBlock).value < RateLimit(r)
      ensures outcome.Rejected? ==> !r.chainAccepts
    {
      var tempo := Tempo(r);
      var block := Block(r);
      var currentEpoch := block / tempo;
      if lastSubmittedEpoch >= currentEpoch {
        return AlreadyAttempted;
      }
      var rateLimit := RateLimit(r);
      var blocksSince := block - lastSetBlock.GetOr(0);
      if lastSetBlock.Some? && blocksSince < rateLimit {
        return Cooldown;
      }
      if !r.chainAccepts {
        return Rejected;
      }
      lastSubmittedEpoch := currentEpoch;
      lastSetBlock := Some(block);
      return Accepted;
    }
  }

  // ---- whole runs -------------------------------------------------------------------------

  function Run(s: State, rs: seq<Reads>): State {
    if rs == [] then s else Next(Run(s, rs[..|rs| - 1]), rs[|rs| - 1])
  }

  datatype Entry = Entry(epoch: nat, block: nat, rateLimit: nat)

  /** The accepted submissions of a run, in order. */
  function Submissions(s: State, rs: seq<Reads>): seq<Entry>
    decreases |rs|
  {
    if rs == [] then []
    else if Submits(s, rs[0]) then
      [Entry(EpochOf(Block(rs[0]), Tempo(rs[0])), Block(rs[0]), RateLimit(rs[0]))]
      + Submissions(Next(s, rs[0]), rs[1..])
    else Submissions(s, rs[1..])
  }

  /** Entries in strictly growing epochs, each at least its own rate limit after the one before. */
  ghost predicate Spaced(es: seq<Entry>) {
    && (forall i, j :: 0 <= i < j < |es| ==> es[i].epoch < es[j].epoch)
    && (forall i :: 0 < i < |es| ==> es[i].block - es[i - 1].block >= es[i].rateLimit)
  }

  /** Safety of every run, from any state, whatever is read. */
  lemma {:induction false} SubmissionsSpaced(s: State, rs: seq<Reads>)
    ensures var es := Submissions(s, rs);
            && Spaced(es)
            && (forall i :: 0 <= i < |es| ==> es[i].epoch > s.lastEpoch)
            && (es != [] && s.lastSetBlock.Some? ==> es[0].block - s.lastSetBlock.value >= es[0].rateLimit)
    decreases |rs|
  {
    if rs != [] {
      SubmissionsSpaced(Next(s, rs[0]), rs[1..]);
    }
  }

  /** The state is the record of the last submission. */
  ghost predicate Consistent(s: State) {
    s.lastEpoch >= -1 && (s.lastSetBlock.Some? <==> s.lastEpoch >= 0)
  }

  lemma {:induction false} ReachableConsistent(rs: seq<Reads>)
    ensures Consistent(Run(INITIAL, rs))
  {
    if rs != [] {
      ReachableConsistent(rs[..|rs| - 1]);
    }
  }

  /** After the first acceptance a failed block read never submits. */
  lemma FailedReadNeverResubmits(s: State, r: Reads)
    requires s.lastEpoch >= 0 && r.block.None?
    ensures !Submits(s, r)
  {
    assert EpochOf(0, Tempo(r)) == 0;
  }

  /** Every read uses this tempo and this rate limit. */
  ghost predicate Steady(rs: seq<Reads>, tempo: nat, rateLimit: nat) {
    forall i :: 0 <= i < |rs| ==> Tempo(rs[i]) == tempo && RateLimit(rs[i]) == rateLimit
  }

  lemma {:induction false} SteadyEntries(s: State, rs: seq<Reads>, tempo: nat, rateLimit: nat)
    requires Steady(rs, tempo, rateLimit) && tempo > 0
    ensures forall i :: 0 <= i < |Submissions(s, rs)| ==>
              && Submissions(s, rs)[i].rateLimit == rateLimit
              && Submissions(s, rs)[i].epoch == Submissions(s, rs)[i].block / tempo
    decreases |rs|
  {
    if rs != [] {
      SteadyEntries(Next(s, rs[0]), rs[1..], tempo, rateLimit);
    }
  }

  lemma {:induction false} SpacedSpan(es: seq<Entry>, rateLimit: nat)
    requires Spaced(es) && es != []
    requires forall i :: 0 <= i < |es| ==> es[i].rateLimit == rateLimit
    ensures es[|es| - 1].epoch - es[0].epoch >= |es| - 1
    ensures es[|es| - 1].block - es[0].block >= (|es| - 1) * rateLimit
  {
    var n := |es| - 1;
    if n > 0 {
      SpacedSpan(es[..n], rateLimit);
      assert (n - 1) * rateLimit + rateLimit == n * rateLimit;
    }
  }

  lemma QuotientSpan(low: nat, span: nat, tempo: nat)
    requires tempo > 0
    ensures (low + span) / tempo - low / tempo <= span / tempo + 1
  {
    var a, b := low / tempo, span / tempo;
    assert low < (a + 1) * tempo && span < (b + 1) * tempo;
    assert low + span < (a + b + 2) * tempo;
    DivAtLeast(low + span, a + b + 2, tempo);
  }

  lemma ProductMonotone(a: nat, b: nat, d: nat)
    requires a <= b
    ensures a * d <= b * d
  {
  }

  lemma DivAtLeast(x: nat, q: nat, d: nat)
    requires d > 0
    ensures x / d >= q <==> x >= q * d
  {
    if q <= x / d {
      ProductMonotone(q, x / d, d);
    } else {
      ProductMonotone(x / d + 1, q, d);
    }
  }

  lemma DivMonotone(x: nat, y: nat, d: nat)
    requires d > 0 && x <= y
    ensures x / d <= y / d
  {
    DivAtLeast(x, x / d, d);
    DivAtLeast(y, x / d, d);
  }

  /** Any stretch of a run: over a span of blocks, at most this many acceptances. */
  lemma AcceptancesInSpan(s: State, rs: seq<Reads>, tempo: nat, rateLimit: nat, low: nat, span: nat)
    requires tempo > 0 && rateLimit > 0 && Steady(rs, tempo, rateLimit)
    requires forall i :: 0 <= i < |Submissions(s, rs)| ==> low <= Submissions(s, rs)[i].block <= low + span
    ensures |Submissions(s, rs)| <= span / tempo + 2
    ensures |Submissions(s, rs)| <= span / rateLimit + 1
  {
    var es := Submissions(s, rs);
    if es != [] {
      var n := |es| - 1;
      SubmissionsSpaced(s, rs);
      SteadyEntries(s, rs, tempo, rateLimit);
      SpacedSpan(es, rateLimit);
      DivMonotone(low, es[0].block, tempo);
      DivMonotone(es[n].block, low + span, tempo);
      QuotientSpan(low, span, tempo);
      DivAtLeast(span, n, rateLimit);
    }
  }

  // ---- one cycle, read by read ------------------------------------------------------------

  /** The three numbers of a cycle; a read that failed or said zero is tempo 360, block 0, rate limit 100. */
  ghost predicate ReadAs(r: Reads, tempo: nat, block: nat, rateLimit: nat) {
    && (r.tempo == Some(tempo) || ((r.tempo == None || r.tempo == Some(0)) && tempo == 360)) && tempo > 0
    && (r.block == Some(block) || (r.block == None && block == 0))
    && (r.rateLimit == Some(rateLimit) || ((r.rateLimit == None || r.rateLimit == Some(0)) && rateLimit == 100))
    && rateLimit > 0
  }

  /**
   * A cycle submits exactly if the chain takes it, its block is in a later epoch than the recorded one, counted in
   * whole tempos, and the rate limit has passed since the recorded block; and then it records its own.
   */
  lemma SubmitsIff(s: State, r: Reads, tempo: nat, block: nat, rateLimit: nat)
    requires ReadAs(r, tempo, block, rateLimit) && s.lastEpoch >= -1
    ensures Submits(s, r) <==>
              && r.chainAccepts && block >= (s.lastEpoch + 1) * tempo
              && (s.lastSetBlock == None || block >= s.lastSetBlock.value + rateLimit)
    ensures !Submits(s, r) ==> Next(s, r) == s
    ensures Submits(s, r) ==>
              && Next(s, r).lastSetBlock == Some(block)
              && Next(s, r).lastEpoch * tempo <= block < (Next(s, r).lastEpoch + 1) * tempo
  {
    DivAtLeast(block, s.lastEpoch + 1, tempo);
    DivAtLeast(block, block / tempo, tempo);
    DivAtLeast(block, block / tempo + 1, tempo);
  }

  // ---- real epochs ------------------------------------------------------------------------

  /** The chain's true block at each cycle never goes back, and a read that succeeds shows it. */
  ghost predicate Observes(rs: seq<Reads>, chain: seq<nat>) {
    && |rs| == |chain|
    && (forall i, j :: 0 <= i < j < |chain| ==> chain[i] <= chain[j])
    && (forall i :: 0 <= i < |rs| && rs[i].block.Some? ==> rs[i].block.value == chain[i])
  }

  ghost predicate AcceptsAt(rs: seq<Reads>, i: nat)
    requires i < |rs|
  {
    Submits(Run(INITIAL, rs[..i]), rs[i])
  }

  lemma {:induction false} EpochNeverFalls(rs: seq<Reads>, i: nat, j: nat)
    requires i < j <= |rs| && AcceptsAt(rs, i)
    ensures Run(INITIAL, rs[..j]).lastEpoch >= EpochOf(Block(rs[i]), Tempo(rs[i]))
    decreases j
  {
    assert rs[..j][..j - 1] == rs[..j - 1];
    if i < j - 1 {
      EpochNeverFalls(rs, i, j - 1);
    }
  }

  /** A later acceptance is in a later real epoch, provided the earlier one read its block. */
  lemma OncePerRealEpoch(rs: seq<Reads>, chain: seq<nat>, tempo: nat, i: nat, j: nat)
    requires tempo > 0 && Observes(rs, chain) && forall k :: 0 <= k < |rs| ==> Tempo(rs[k]) == tempo
    requires i < j < |rs| && AcceptsAt(rs, i) && AcceptsAt(rs, j) && rs[i].block.Some?
    ensures EpochOf(chain[i], tempo) < EpochOf(chain[j], tempo)
  {
    EpochNeverFalls(rs, i, j);
    var s := Run(INITIAL, rs[..j]);
    assert s.lastEpoch >= 0;
    if rs[j].block.None? {
      FailedReadNeverResubmits(s, rs[j]);
    }
  }

  /** Only the very first acceptance can be one that failed to read its block. */
  lemma OnlyFirstBlind(rs: seq<Reads>, i: nat, j: nat)
    requires i < j < |rs| && AcceptsAt(rs, i) && AcceptsAt(rs, j)
    ensures rs[j].block.Some?
  {
    EpochNeverFalls(rs, i, j);
    if rs[j].block.None? {
      FailedReadNeverResubmits(Run(INITIAL, rs[..j]), rs[j]);
    }
  }

  function GoodReads(tempo: nat, block: nat, rateLimit: nat): Reads {
    Reads(Some(tempo), Some(block), Some(rateLimit), true)
  }

  /** A first acceptance with a failed block read records epoch 0 at block 0. */
  lemma BlindFirstAcceptance(r: Reads)
    requires r.block.None? && r.chainAccepts
    ensures Submits(INITIAL, r) && Next(INITIAL, r) == State(0, Some(0))
  {
    assert EpochOf(0, Tempo(r)) == 0;
  }

  /**
   * After a first cycle that is accepted without a block read, its true block being `at`, a second acceptance in the
   * same real epoch is possible exactly when that epoch is not epoch 0 and the rate limit ends before the epoch does.
   */
  lemma BlindResubmission(first: Reads, at: nat, tempo: nat, rateLimit: nat)
    requires tempo > 0 && rateLimit > 0
    requires first.block.None? && first.chainAccepts
    ensures AcceptsAt([first], 0)
    ensures (exists b: nat :: && at <= b && EpochOf(b, tempo) == EpochOf(at, tempo)
                              && AcceptsAt([first, GoodReads(tempo, b, rateLimit)], 1))
       <==> EpochOf(at, tempo) >= 1 && (EpochOf(at, tempo) + 1) * tempo - 1 >= rateLimit
  {
    BlindFirstAcceptance(first);
    assert [first][..0] == [];
    var e := EpochOf(at, tempo);
    var last := (e + 1) * tempo - 1;
    DivAtLeast(at, e, tempo);
    DivAtLeast(at, e + 1, tempo);
    DivAtLeast(last, e, tempo);
    DivAtLeast(last, e + 1, tempo);
    assert EpochOf(last, tempo) == e && at <= last;
    if e >= 1 && last >= rateLimit {
      AfterBlind(first, tempo, last, rateLimit);
      assert AcceptsAt([first, GoodReads(tempo, last, rateLimit)], 1);
    }
    forall b: nat | at <= b && EpochOf(b, tempo) == e && AcceptsAt([first, GoodReads(tempo, b, rateLimit)], 1)
      ensures e >= 1 && last >= rateLimit
    {
      AfterBlind(first, tempo, b, rateLimit);
      DivAtLeast(b, e + 1, tempo);
    }
  }

  lemma AfterBlind(first: Reads, tempo: nat, b: nat, rateLimit: nat)
    requires tempo > 0 && rateLimit > 0 && first.block.None? && first.chainAccepts
    ensures AcceptsAt([first, GoodReads(tempo, b, rateLimit)], 1) <==> EpochOf(b, tempo) >= 1 && b >= rateLimit
  {
    BlindFirstAcceptance(first);
    var rs := [first, GoodReads(tempo, b, rateLimit)];
    assert rs[..1] == [first] && [first][..0] == [];
    assert Run(INITIAL, [first][..0]) == INITIAL;
    assert Run(INITIAL, [first]) == State(0, Some(0));
  }

  /**
   * The tempo may change between two cycles.  After an acceptance in epoch `epoch` at block `last`, a second one in the
   * epoch that `last` lies in under the new tempo is possible exactly when the new scale numbers that epoch higher and
   * the rate limit ends before the epoch does.
   */
  lemma SameEpochAgain(epoch: nat, last: nat, tempo: nat, rateLimit: nat)
    requires tempo > 0 && rateLimit > 0
    ensures (exists b: nat :: && last <= b && EpochOf(b, tempo) == EpochOf(last, tempo)
                              && Submits(State(epoch, Some(last)), GoodReads(tempo, b, rateLimit)))
       <==> EpochOf(last, tempo) > epoch && (EpochOf(last, tempo) + 1) * tempo - 1 >= last + rateLimit
  {
    var e := EpochOf(last, tempo);
    var end := (e + 1) * tempo - 1;
    DivAtLeast(last, e + 1, tempo);
    DivAtLeast(end, e, tempo);
    DivAtLeast(end, e + 1, tempo);
    DivAtLeast(last, e, tempo);
    assert EpochOf(end, tempo) == e && last <= end;
    if e > epoch && end >= last + rateLimit {
      assert Submits(State(epoch, Some(last)), GoodReads(tempo, end, rateLimit));
    }
    forall b: nat | last <= b && EpochOf(b, tempo) == e
        && Submits(State(epoch, Some(last)), GoodReads(tempo, b, rateLimit))
      ensures e > epoch && end >= last + rateLimit
    {
      DivAtLeast(b, e + 1, tempo);
    }
  }

  /** Three acceptances, the last two at 7200 and 7300: one epoch under the old tempo and one under the new. */
  lemma TempoShrinkWitness()
    ensures var rs := [GoodReads(360, 7000, 100), GoodReads(360, 7200, 100), GoodReads(300, 7300, 100)];
            && AcceptsAt(rs, 0) && AcceptsAt(rs, 1) && AcceptsAt(rs, 2)
            && EpochOf(7200, 360) == EpochOf(7300, 360) && EpochOf(7200, 300) == EpochOf(7300, 300)
  {
    var rs := [GoodReads(360, 7000, 100), GoodReads(360, 7200, 100), GoodReads(300, 7300, 100)];
    assert rs[..1] == [rs[0]] && rs[..2] == [rs[0], rs[1]];
    assert rs[..1][..0] == [] && rs[..2][..1] == rs[..1];
    assert Run(INITIAL, rs[..0]) == INITIAL;
    assert Run(INITIAL, rs[..1]) == State(19, Some(7000));
    assert Run(INITIAL, rs[..2]) == State(20, Some(7200));
  }

  // ---- liveness ---------------------------------------------------------------------------

  /** Cycles that read the chain, at most `gap` blocks apart, with the chain accepting. */
  ghost predicate Regular(rs: seq<Reads>, tempo: nat, rateLimit: nat, gap: nat) {
    && Steady(rs, tempo, rateLimit)
    && (forall i :: 0 <= i < |rs| ==> rs[i].block.Some? && rs[i].chainAccepts)
    && (forall i :: 0 < i < |rs| ==> Block(rs[i]) <= Block(rs[i - 1]) + gap)
  }

  lemma ReadyAgain(last: nat, r: Reads)
    requires Block(r) >= last + Tempo(r) && Block(r) >= last + RateLimit(r) && r.chainAccepts
    ensures Submits(State(EpochOf(last, Tempo(r)), Some(last)), r)
  {
    var t := Tempo(r);
    DivAtLeast(last, last / t, t);
    assert (last / t + 1) * t <= last + t;
    DivAtLeast(Block(r), last / t + 1, t);
  }

  lemma {:induction false} NextWithin(rs: seq<Reads>, tempo: nat, rateLimit: nat, gap: nat, last: nat, previous: nat)
    requires tempo > 0 && rateLimit > 0 && rs != [] && Regular(rs, tempo, rateLimit, gap)
    requires previous < last + tempo || previous < last + rateLimit
    requires Block(rs[0]) <= previous + gap
    requires Block(rs[|rs| - 1]) >= last + tempo && Block(rs[|rs| - 1]) >= last + rateLimit
    ensures var es := Submissions(State(EpochOf(last, tempo), Some(last)), rs);
            es != [] && (es[0].block < last + tempo + gap || es[0].block < last + rateLimit + gap)
  {
    var s := State(EpochOf(last, tempo), Some(last));
    if !Submits(s, rs[0]) {
      if Block(rs[0]) >= last + tempo && Block(rs[0]) >= last + rateLimit {
        ReadyAgain(last, rs[0]);
      }
      assert Block(rs[1]) <= Block(rs[0]) + gap;
      NextWithin(rs[1..], tempo, rateLimit, gap, last, Block(rs[0]));
    }
  }

  /** Bounded liveness: the next acceptance comes less than `max(T, R) + gap` blocks after the last one. */
  lemma NextAcceptance(rs: seq<Reads>, tempo: nat, rateLimit: nat, gap: nat, last: nat)
    requires tempo > 0 && rateLimit > 0 && rs != [] && Regular(rs, tempo, rateLimit, gap)
    requires Block(rs[0]) <= last + gap
    requires Block(rs[|rs| - 1]) >= last + if tempo >= rateLimit then tempo else rateLimit
    ensures var es := Submissions(State(EpochOf(last, tempo), Some(last)), rs);
            es != [] && es[0].block < last + (if tempo >= rateLimit then tempo else rateLimit) + gap
  {
    NextWithin(rs, tempo, rateLimit, gap, last, last);
  }

  /** What a changed tempo does: the old epoch number has to be passed on the new scale. */
  lemma WaitsForOldEpoch(s: State, r: Reads)
    requires s.lastEpoch >= 0 && s.lastSetBlock.Some?
    ensures Submits(s, r) <==>
              && Block(r) >= (s.lastEpoch + 1) * Tempo(r)
              && Block(r) - s.lastSetBlock.value >= RateLimit(r)
              && r.chainAccepts
  {
    DivAtLeast(Block(r), s.lastEpoch + 1, Tempo(r));
  }

  /** A run whose blocks stay below the old epoch number on the new scale submits nothing. */
  lemma {:induction false} TempoGrowthBlocks(s: State, rs: seq<Reads>, tempo: nat)
    requires tempo > 0 && s.lastEpoch >= 0 && s.lastSetBlock.Some?
    requires forall i :: 0 <= i < |rs| ==> Tempo(rs[i]) == tempo && Block(rs[i]) < (s.lastEpoch + 1) * tempo
    ensures Submissions(s, rs) == []
  {
    if rs != [] {
      WaitsForOldEpoch(s, rs[0]);
      TempoGrowthBlocks(s, rs[1..], tempo);
    }
  }

  /** Accepted at block 7200 under tempo 100; under tempo 360 nothing more is submitted before block 26280. */
  lemma TempoGrowthWitness(s: State, rs: seq<Reads>)
    requires s == Next(INITIAL, GoodReads(100, 7200, 100))
    requires forall i :: 0 <= i < |rs| ==> Tempo(rs[i]) == 360 && 7200 <= Block(rs[i]) < 26280
    ensures s.lastEpoch == 72 && Submissions(s, rs) == []
  {
    TempoGrowthBlocks(s, rs, 360);
  }
}
