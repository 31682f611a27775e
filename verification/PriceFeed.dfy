/** The chain snapshot: spot price and the miners' half of the epoch's emission in USD. */
module Chain {
  import opened Prelude
  import opened Totals

  const MINER_EMISSION_SHARE := 0.5
  const FALLBACK_POOL_USD := 1.0

  /** A metagraph read: one (uid, alpha emitted) per neuron, and the spot price in TAO. */
  datatype Graph = Graph(emissions: seq<(int, real)>, price: real)

  function EmissionsOf(emissions: seq<(int, real)>): map<int, real> {
    if emissions == [] then map[]
    else
      var last := emissions[|emissions| - 1];
      EmissionsOf(emissions[..|emissions| - 1])[last.0 := last.1]
  }

  /** Alpha emitted over all uids; nothing without a metagraph. */
  ghost function EmittedAlpha(graph: Option<Graph>): real {
    if graph.None? then 0.0 else Total(EmissionsOf(graph.value.emissions))
  }

  function SpotOf(graph: Option<Graph>): real {
    if graph.None? then 0.0 else graph.value.price
  }

  /** Everything the pool needs is known and positive. */
  ghost predicate PoolKnown(graph: Option<Graph>, taoUsd: real) {
    EmittedAlpha(graph) > 0.0 && SpotOf(graph) > 0.0 && taoUsd > 0.0
  }

  /** Half the emitted alpha, at the alpha price in USD. */
  ghost function PoolUsd(graph: Option<Graph>, taoUsd: real): real {
    if PoolKnown(graph, taoUsd)
    then (EmittedAlpha(graph) * MINER_EMISSION_SHARE) * (taoUsd * SpotOf(graph))
    else FALLBACK_POOL_USD
  }

  lemma Associate(a: real, b: real, c: real, d: real)
    ensures a * b * c * d == (a * b) * (c * d)
  {
  }

  function Times(a: real, b: real): real {
    a * b
  }

  lemma PositiveProduct(a: real, b: real)
    requires a > 0.0 && b > 0.0
    ensures a * b > 0.0 && Times(a, b) > 0.0
  {
  }

  /** Scoring never sees a pool it refuses. */
  lemma PoolPositive(graph: Option<Graph>, taoUsd: real)
    ensures PoolUsd(graph, taoUsd) > 0.0
  {
    if PoolKnown(graph, taoUsd) {
      PositiveProduct(EmittedAlpha(graph), MINER_EMISSION_SHARE);
      PositiveProduct(taoUsd, SpotOf(graph));
      PositiveProduct(EmittedAlpha(graph) * MINER_EMISSION_SHARE, taoUsd * SpotOf(graph));
    }
  }

  class ChainState {
    var lastMetagraph: Option<Graph>

    constructor ()
      ensures lastMetagraph == None
    {
      lastMetagraph := None;
    }

    /** Replaces the cached snapshot; a failed read raises and leaves it. */
    method ReadMetagraph(read: Option<Graph>) returns (ok: bool)
      modifies this
      ensures ok == read.Some?
      ensures lastMetagraph == if ok then read else old(lastMetagraph)
    {
      ok := read.Some?;
      if ok {
        lastMetagraph := read;
      }
    }

    function SpotPrice(): real
      reads this
    {
      SpotOf(lastMetagraph)
    }

    method Emissions() returns (out: map<int, real>)
      ensures out == if lastMetagraph.None? then map[] else EmissionsOf(lastMetagraph.value.emissions)
    {
      out := map[];
      if lastMetagraph.None? {
        return;
      }
      var neurons := lastMetagraph.value.emissions;
      for i := 0 to |neurons|
        invariant out == EmissionsOf(neurons[..i])
      {
        assert neurons[..i + 1][..i] == neurons[..i];
        out := out[neurons[i].0 := neurons[i].1];
      }
      assert neurons[..|neurons|] == neurons;
    }

    method EmissionPoolUsd(taoUsd: real) returns (pool: real)
      ensures pool == PoolUsd(lastMetagraph, taoUsd)
      ensures pool > 0.0
    {
      PoolPositive(lastMetagraph, taoUsd);
      var emissions := Emissions();
      if emissions == map[] {
        return FALLBACK_POOL_USD;
      }
      var totalAlpha := SumValues(emissions);
      var spot := SpotPrice();
      if totalAlpha <= 0.0 || spot <= 0.0 || taoUsd <= 0.0 {
        return FALLBACK_POOL_USD;
      }
      Associate(totalAlpha, MINER_EMISSION_SHARE, taoUsd, spot);
      pool := totalAlpha * MINER_EMISSION_SHARE * taoUsd * spot;
    }
  }
}

/** TAO/USD and alpha/TAO, with their fallbacks and the one remembered price. */
module PriceFeed {
  import opened Chain
  import opened Prelude
  import opened Ratios

  const TINY := 0.000000000000000001

  /** The owner's payout object, as far as its two price fields are numbers. */
  datatype Published = Published(taoUsd: Option<real>, alphaToTao: Option<real>)

  /** What was found in an answer of the Taostats pool service. */
  datatype PoolAnswer = PoolAnswer(price: Option<real>, alphaInPool: Option<real>, taoInPool: Option<real>)

  /** One round of TAO/USD requests: the number found in Taostats' answer, CoinGecko's usable price. */
  datatype TaoReads = TaoReads(taostats: Option<real>, coingecko: Option<real>)

  function Usable(v: Option<real>): Option<real> {
    if v.Some? && v.value > 0.0 then v else None
  }

  function OrElse(a: Option<real>, b: Option<real>): Option<real> {
    if a.Some? then a else b
  }

  /** `v` is the first positive number among the candidates, or `None` if there is none. */
  ghost predicate FirstPositive(candidates: seq<Option<real>>, v: Option<real>) {
    || (v == None && forall i :: 0 <= i < |candidates| && candidates[i].Some? ==> candidates[i].value <= 0.0)
    || (exists i :: && 0 <= i < |candidates| && candidates[i] == v && v.Some? && v.value > 0.0
                    && forall j :: 0 <= j < i && candidates[j].Some? ==> candidates[j].value <= 0.0)
  }

  lemma FirstOfNone()
    ensures FirstPositive([], None)
  {
  }

  lemma FirstOfMore(c: Option<real>, candidates: seq<Option<real>>, v: Option<real>)
    requires FirstPositive(candidates, v)
    ensures FirstPositive([c] + candidates, OrElse(Usable(c), v))
  {
    var more := [c] + candidates;
    assert more[0] == c && forall i :: 0 < i < |more| ==> more[i] == candidates[i - 1];
    if Usable(c).Some? {
      assert more[0] == Usable(c);
    } else if v.Some? {
      var i :| && 0 <= i < |candidates| && candidates[i] == v
               && forall j :: 0 <= j < i && candidates[j].Some? ==> candidates[j].value <= 0.0;
      assert more[i + 1] == v;
      assert forall j :: 0 <= j < i + 1 && more[j].Some? ==> more[j].value <= 0.0;
    }
  }

  lemma FirstOfThree(a: Option<real>, b: Option<real>, c: Option<real>)
    ensures FirstPositive([a, b, c], OrElse(Usable(a), OrElse(Usable(b), Usable(c))))
  {
    assert [a] + [b, c] == [a, b, c] && [b] + [c] == [b, c] && [c] + [] == [c];
    FirstOfNone();
    hide FirstPositive;
    FirstOfMore(c, [], None);
    FirstOfMore(b, [c], Usable(c));
    FirstOfMore(a, [b, c], OrElse(Usable(b), Usable(c)));
  }

  function Live(r: TaoReads): Option<real> {
    OrElse(Usable(r.taostats), Usable(r.coingecko))
  }

  function PublishedTao(p: Option<Published>): Option<real> {
    if p.None? then None else Usable(p.value.taoUsd)
  }

  function PublishedAlpha(p: Option<Published>): Option<real> {
    if p.None? then None else Usable(p.value.alphaToTao)
  }

  ghost predicate NoneOrPositive(v: Option<real>) {
    v.Some? ==> v.value > 0.0
  }

  /** The rate made of a pool answer: its price, else the quotient of the pool's two sides. */
  function PoolRate(p: PoolAnswer): Option<real> {
    var byPrice := Usable(p.price);
    if byPrice.Some? then byPrice
    else if p.alphaInPool.GetOr(0.0) != 0.0 && p.taoInPool.GetOr(0.0) != 0.0 then
      Usable(Some(Quotient(p.alphaInPool.value, Max(p.taoInPool.value, TINY))))
    else None
  }

  /**
   * The rate is TAO per alpha everywhere else, but the quotient is taken the other way round: it is right exactly for a
   * pool with as much alpha as TAO.
   */
  lemma PoolQuotientInverted(p: PoolAnswer)
    requires Usable(p.price) == None
    requires Usable(p.alphaInPool).Some? && Usable(p.taoInPool).Some? && p.taoInPool.value >= TINY
    ensures PoolRate(p).Some?
    ensures PoolRate(p).value * (p.taoInPool.value / p.alphaInPool.value) == 1.0
    ensures PoolRate(p).value == p.taoInPool.value / p.alphaInPool.value <==> p.alphaInPool.value == p.taoInPool.value
  {
    var a, t := p.alphaInPool.value, p.taoInPool.value;
    QuotientSign(a, t);
    QuotientSign(t, t);
    var x := a / t;
    QuotientOfQuotients(t, a, t);
    QuotientTimes(1.0, x);
    QuotientTimes(a, t);
    if x == 1.0 / x {
      OwnReciprocal(x);
    }
  }

  /** A pool of 2 alpha and 1 TAO prices an alpha at half a TAO; the rate made of it is 2. */
  lemma PoolQuotientWitness()
    ensures PoolRate(PoolAnswer(None, Some(2.0), Some(1.0))) == Some(2.0)
  {
    QuotientUnique(2.0, 1.0, 2.0);
  }

  lemma OwnReciprocal(x: real)
    requires x > 0.0 && x * x == 1.0
    ensures x == 1.0
  {
  }

  /** The snapshot held after asking for the spot price: a price of zero makes the feed read the metagraph again. */
  function Refreshed(graph: Option<Graph>, reread: Option<Graph>): Option<Graph> {
    if SpotOf(graph) == 0.0 && reread.Some? then reread else graph
  }

  /** The alpha rate of one request: the chain's spot price, else the pool service's. */
  function AlphaRate(graph: Option<Graph>, reread: Option<Graph>, pool: Option<PoolAnswer>): Option<real> {
    var spot := Usable(Some(SpotOf(Refreshed(graph, reread))));
    if spot.Some? then spot
    else if pool.Some? then PoolRate(pool.value)
    else None
  }

  class PriceFeed {
    var lastTaoUsd: Option<real>

    ghost predicate Valid()
      reads this
    {
      NoneOrPositive(lastTaoUsd)
    }

    constructor (cached: Option<real>)
      ensures Valid() && lastTaoUsd == Usable(cached) && FirstPositive([cached, None, None], lastTaoUsd)
    {
      FirstOfThree(cached, None, None);
      lastTaoUsd := Usable(cached);
    }

    method SeedTaoUsd(taoUsd: real)
      requires Valid()
      modifies this
      ensures Valid()
      ensures lastTaoUsd == OrElse(Usable(Some(taoUsd)), old(lastTaoUsd))
      ensures lastTaoUsd == if taoUsd > 0.0 then Some(taoUsd) else old(lastTaoUsd)
    {
      if taoUsd > 0.0 {
        lastTaoUsd := Some(taoUsd);
      }
    }

    method SeedFromPublished(published: Option<Published>)
      requires Valid()
      modifies this
      ensures Valid()
      ensures lastTaoUsd == OrElse(PublishedTao(published), old(lastTaoUsd))
    {
      var value := PublishedTao(published);
      if value.Some? {
        SeedTaoUsd(value.value);
      }
    }

    /** Taostats, CoinGecko, the remembered price; `None` is the raised error. */
    method TaoUsd(r: TaoReads) returns (price: Option<real>)
      requires Valid()
      modifies this
      ensures Valid() && NoneOrPositive(price)
      ensures price == lastTaoUsd == OrElse(Live(r), old(lastTaoUsd))
      ensures FirstPositive([r.taostats, r.coingecko, old(lastTaoUsd)], price)
    {
      FirstOfThree(r.taostats, r.coingecko, lastTaoUsd);
      hide FirstPositive;
      if r.taostats.Some? && r.taostats.value > 0.0 {
        lastTaoUsd := r.taostats;
        return lastTaoUsd;
      }
      if r.coingecko.Some? && r.coingecko.value > 0.0 {
        lastTaoUsd := r.coingecko;
        return lastTaoUsd;
      }
      if lastTaoUsd.Some? && lastTaoUsd.value > 0.0 {
        return lastTaoUsd;
      }
      price := None;
    }

    method AlphaToTao(chain: ChainState, reread: Option<Graph>, pool: Option<PoolAnswer>) returns (rate: Option<real>)
      modifies chain
      ensures rate == AlphaRate(old(chain.lastMetagraph), reread, pool) && NoneOrPositive(rate)
      ensures chain.lastMetagraph == Refreshed(old(chain.lastMetagraph), reread)
      ensures rate == None ==> chain.SpotPrice() <= 0.0
    {
      var price := chain.SpotPrice();
      var read := true;
      if price == 0.0 {
        read := chain.ReadMetagraph(reread);
        price := chain.SpotPrice();
      }
      if read && price > 0.0 {
        return Some(price);
      }
      if pool.None? {
        return None;
      }
      var value := pool.value.price;
      if value.None? || value.value <= 0.0 {
        var alpha, tao := pool.value.alphaInPool.GetOr(0.0), pool.value.taoInPool.GetOr(0.0);
        if alpha != 0.0 && tao != 0.0 {
          value := Some(Quotient(alpha, Max(tao, TINY)));
        }
      }
      if value.None? || value.value <= 0.0 {
        return None;
      }
      rate := value;
    }

    /** TAO/USD is asked first; if that fails the chain is not asked at all. */
    method UsdPerAlpha(r: TaoReads, chain: ChainState, reread: Option<Graph>, pool: Option<PoolAnswer>)
      returns (usd: Option<real>)
      requires Valid()
      modifies this, chain
      ensures Valid() && NoneOrPositive(usd)
      ensures var tao := OrElse(Live(r), old(lastTaoUsd));
              var rate := AlphaRate(old(chain.lastMetagraph), reread, pool);
              && lastTaoUsd == tao
              && chain.lastMetagraph == (
                   if tao.Some? then Refreshed(old(chain.lastMetagraph), reread) else old(chain.lastMetagraph))
              && (usd.Some? <==> tao.Some? && rate.Some?)
              && (usd.Some? ==> usd.value == Times(tao.value, rate.value))
              && (tao.Some? && rate.None? ==> chain.SpotPrice() <= 0.0)
    {
      var tao := TaoUsd(r);
      if tao.None? {
        return None;
      }
      var rate := AlphaToTao(chain, reread, pool);
      if rate.None? {
        return None;
      }
      PositiveProduct(tao.value, rate.value);
      usd := Some(Times(tao.value, rate.value));
    }
  }

  // ---- over a whole run -------------------------------------------------------------------

  /** What happens to a feed: a published price is seeded, or TAO/USD is asked for. */
  datatype FeedEvent = Seeded(published: Option<Published>) | Asked(r: TaoReads)

  /** The event brings a usable price with it. */
  predicate Brings(e: FeedEvent) {
    match e
    case Seeded(p) => PublishedTao(p).Some?
    case Asked(r) => Live(r).Some?
  }

  /** The remembered price after these events; `Asked` answers with it. */
  function Remembered(cached: Option<real>, events: seq<FeedEvent>): Option<real> {
    if events == [] then Usable(cached)
    else
      var before := Remembered(cached, events[..|events| - 1]);
      match events[|events| - 1]
      case Seeded(p) => OrElse(PublishedTao(p), before)
      case Asked(r) => OrElse(Live(r), before)
  }

  /** A call for TAO/USD fails exactly when neither the disk nor any event up to it ever had a price. */
  lemma {:induction false} FailsOnlyUninformed(cached: Option<real>, events: seq<FeedEvent>)
    ensures NoneOrPositive(Remembered(cached, events))
    ensures Remembered(cached, events) == None <==> Usable(cached) == None && forall e :: e in events ==> !Brings(e)
  {
    if events != [] {
      var n := |events| - 1;
      FailsOnlyUninformed(cached, events[..n]);
      assert events == events[..n] + [events[n]] && events[n] in events;
      assert forall e :: e in events <==> e in events[..n] || e == events[n];
      hide Live, PublishedTao;
    }
  }

  /** Once a call has succeeded no later call fails. */
  lemma NeverFailsAgain(cached: Option<real>, events: seq<FeedEvent>, i: nat)
    requires i <= |events|
    ensures NoneOrPositive(Remembered(cached, events))
    ensures Remembered(cached, events[..i]).Some? ==> Remembered(cached, events).Some?
  {
    FailsOnlyUninformed(cached, events);
    FailsOnlyUninformed(cached, events[..i]);
    assert forall e :: e in events[..i] ==> e in events;
  }
}

/** How one cycle gets its prices, or decides to skip. */
module CyclePrices {
  import opened Chain
  import opened Prelude
  import opened PriceFeed

  /** USD per alpha for the log, TAO/USD for the pool. */
  datatype CyclePrices = CyclePrices(usdPerAlpha: real, taoUsd: real)

  /**
   * All answers the cycle may get: the payout object twice, two rounds of TAO/USD, a metagraph re-read, the pool
   * service.
   */
  datatype Answers = Answers(
    published: Option<Published>,
    first: TaoReads,
    reread: Option<Graph>,
    pool: Option<PoolAnswer>,
    publishedAgain: Option<Published>,
    second: TaoReads)

  // ---- what comes out ---------------------------------------------------------------------

  /** TAO/USD of the first round: live, else the published one, else the one remembered. */
  function FirstTao(last: Option<real>, a: Answers): Option<real> {
    OrElse(Live(a.first), OrElse(PublishedTao(a.published), last))
  }

  /** The snapshot the rest of the cycle works with; the chain is asked again only once TAO/USD is known. */
  function GraphAfter(last: Option<real>, graph: Option<Graph>, a: Answers): Option<Graph> {
    if FirstTao(last, a).Some? then Refreshed(graph, a.reread) else graph
  }

  /** The first round has both its prices. */
  predicate IsLive(last: Option<real>, graph: Option<Graph>, a: Answers) {
    FirstTao(last, a).Some? && AlphaRate(graph, a.reread, a.pool).Some?
  }

  /** TAO/USD at the end of the cycle: the second round's, or the fallback's. */
  function LastTao(last: Option<real>, graph: Option<Graph>, a: Answers): Option<real> {
    OrElse(if IsLive(last, graph, a) then Live(a.second) else PublishedTao(a.publishedAgain), FirstTao(last, a))
  }

  /** The alpha rate of the fallback: the published one, else a positive spot price. */
  function FallbackAlpha(last: Option<real>, graph: Option<Graph>, a: Answers): Option<real> {
    OrElse(PublishedAlpha(a.publishedAgain), Usable(Some(SpotOf(GraphAfter(last, graph, a)))))
  }

  /** The prices of a cycle, or none where it is skipped. */
  function PricesOf(last: Option<real>, graph: Option<Graph>, a: Answers): Option<CyclePrices> {
    var tao := LastTao(last, graph, a);
    if IsLive(last, graph, a) then
      Some(CyclePrices(Times(FirstTao(last, a).value, AlphaRate(graph, a.reread, a.pool).value), tao.value))
    else if tao.Some? && FallbackAlpha(last, graph, a).Some? then
      Some(CyclePrices(Times(tao.value, FallbackAlpha(last, graph, a).value), tao.value))
    else None
  }

  /** The emission pool of a cycle that has its prices. */
  ghost function PoolOf(last: Option<real>, graph: Option<Graph>, a: Answers): real
    requires PricesOf(last, graph, a).Some?
  {
    PoolUsd(GraphAfter(last, graph, a), PricesOf(last, graph, a).value.taoUsd)
  }

  // ---- when it is skipped -----------------------------------------------------------------

  /** No source at all, now or in the past, has a TAO/USD price. */
  ghost predicate NoTao(last: Option<real>, a: Answers) {
    last == None && Live(a.first) == None && PublishedTao(a.published) == None && PublishedTao(a.publishedAgain) == None
  }

  /**
   * No source has an alpha rate; without a TAO/USD price of its own the cycle asks neither the pool service nor the
   * chain again.
   */
  ghost predicate NoAlpha(last: Option<real>, graph: Option<Graph>, a: Answers) {
    && PublishedAlpha(a.publishedAgain) == None
    && if FirstTao(last, a) == None then SpotOf(graph) <= 0.0 else AlphaRate(graph, a.reread, a.pool) == None
  }

  /**
   * A cycle is skipped exactly when some price is known from no source; otherwise every number it divides by is
   * positive and the pool is one dollar exactly where emission or spot price is missing.
   */
  lemma SkippedIff(last: Option<real>, graph: Option<Graph>, a: Answers)
    requires NoneOrPositive(last)
    ensures NoneOrPositive(LastTao(last, graph, a))
    ensures PricesOf(last, graph, a) == None <==> NoTao(last, a) || NoAlpha(last, graph, a)
    ensures PricesOf(last, graph, a).Some? ==>
              && PricesOf(last, graph, a).value.usdPerAlpha > 0.0 && PricesOf(last, graph, a).value.taoUsd > 0.0
              && PoolOf(last, graph, a) > 0.0
              && (PoolKnown(GraphAfter(last, graph, a), PricesOf(last, graph, a).value.taoUsd) <==>
                    EmittedAlpha(GraphAfter(last, graph, a)) > 0.0 && SpotOf(GraphAfter(last, graph, a)) > 0.0)
  {
    hide PoolRate, EmittedAlpha, Times;
    RateIsPositive(graph, a);
    if PricesOf(last, graph, a).Some? {
      PoolPositive(GraphAfter(last, graph, a), PricesOf(last, graph, a).value.taoUsd);
      if IsLive(last, graph, a) {
        PositiveProduct(FirstTao(last, a).value, AlphaRate(graph, a.reread, a.pool).value);
      } else {
        PositiveProduct(LastTao(last, graph, a).value, FallbackAlpha(last, graph, a).value);
      }
    }
  }

  lemma RateIsPositive(graph: Option<Graph>, a: Answers)
    ensures NoneOrPositive(AlphaRate(graph, a.reread, a.pool))
    ensures AlphaRate(graph, a.reread, a.pool) == None ==> SpotOf(Refreshed(graph, a.reread)) <= 0.0
  {
  }

  /**
   * The pool service decides which branch is taken, and its rate is logged; the value of the rate never reaches the
   * pool.
   */
  lemma RateValueIrrelevant(last: Option<real>, graph: Option<Graph>, a: Answers, pool: Option<PoolAnswer>)
    requires NoneOrPositive(last)
    requires AlphaRate(graph, a.reread, a.pool).Some? <==> AlphaRate(graph, a.reread, pool).Some?
    requires PricesOf(last, graph, a).Some?
    ensures PricesOf(last, graph, a.(pool := pool)).Some?
    ensures PoolOf(last, graph, a.(pool := pool)) == PoolOf(last, graph, a)
  {
    hide PoolRate, PoolUsd, AlphaRate, Refreshed;
    var b := a.(pool := pool);
    assert IsLive(last, graph, b) == IsLive(last, graph, a);
    assert LastTao(last, graph, b) == LastTao(last, graph, a)
        && GraphAfter(last, graph, b) == GraphAfter(last, graph, a);
    assert FallbackAlpha(last, graph, b) == FallbackAlpha(last, graph, a);
  }

  // ---- the program's own way --------------------------------------------------------------

  /** The fallback on the owner's last payout object. */
  method FallbackUsdPerAlpha(feed: PriceFeed, chain: ChainState, published: Option<Published>)
    returns (usd: Option<CyclePrices>)
    requires feed.Valid()
    modifies feed
    ensures feed.Valid() && feed.lastTaoUsd == OrElse(PublishedTao(published), old(feed.lastTaoUsd))
    ensures var alpha := OrElse(PublishedAlpha(published), Usable(Some(chain.SpotPrice())));
            && (usd.Some? <==> feed.lastTaoUsd.Some? && alpha.Some?)
            && (usd.Some? ==> usd.value == CyclePrices(Times(feed.lastTaoUsd.value, alpha.value),
                                                       feed.lastTaoUsd.value))
  {
    feed.SeedFromPublished(published);
    var taoUsd := feed.lastTaoUsd;
    if taoUsd.None? && published.Some? {
      taoUsd := PublishedTao(published);
    }
    var alphaToTao := PublishedAlpha(published);
    if alphaToTao.None? {
      var spot := chain.SpotPrice();
      alphaToTao := if spot > 0.0 then Some(spot) else None;
    }
    if taoUsd.None? || alphaToTao.None? {
      return None;
    }
    usd := Some(CyclePrices(Times(taoUsd.value, alphaToTao.value), taoUsd.value));
  }

  /**
   * The price section of one cycle.  The branch that sets TAO/USD to zero is there, and its value is never the outcome.
   */
  method PricesForCycle(feed: PriceFeed, chain: ChainState, a: Answers)
    returns (prices: Option<CyclePrices>, pool: real)
    requires feed.Valid()
    modifies feed, chain
    ensures feed.Valid()
    ensures prices == PricesOf(old(feed.lastTaoUsd), old(chain.lastMetagraph), a)
    ensures feed.lastTaoUsd == LastTao(old(feed.lastTaoUsd), old(chain.lastMetagraph), a)
    ensures chain.lastMetagraph == GraphAfter(old(feed.lastTaoUsd), old(chain.lastMetagraph), a)
    ensures prices.Some? ==> pool == PoolOf(old(feed.lastTaoUsd), old(chain.lastMetagraph), a)
  {
    hide PoolUsd, PoolRate, Times;
    pool := FALLBACK_POOL_USD;
    feed.SeedFromPublished(a.published);
    var usdPerAlpha := feed.UsdPerAlpha(a.first, chain, a.reread, a.pool);
    var taoUsd;
    if usdPerAlpha.None? {
      var fallback := FallbackUsdPerAlpha(feed, chain, a.publishedAgain);
      if fallback.None? {
        return None, pool;
      }
      usdPerAlpha := Some(fallback.value.usdPerAlpha);
      taoUsd := fallback.value.taoUsd;
    } else {
      var again := feed.TaoUsd(a.second);
      taoUsd := again.GetOr(0.0);
    }
    pool := chain.EmissionPoolUsd(taoUsd);
    prices := Some(CyclePrices(usdPerAlpha.value, taoUsd));
  }

  // ---- runs of cycles ---------------------------------------------------------------------

  /** A cycle that ends before its prices, or one that asks for them with the snapshot it read. */
  datatype PriceCycle = EndsEarlier | Asks(graph: Option<Graph>, answers: Answers)

  /** The remembered TAO/USD after these cycles. */
  function RememberedBy(cached: Option<real>, cycles: seq<PriceCycle>): Option<real> {
    if cycles == [] then Usable(cached)
    else
      var before := RememberedBy(cached, cycles[..|cycles| - 1]);
      match cycles[|cycles| - 1]
      case EndsEarlier => before
      case Asks(graph, a) => LastTao(before, graph, a)
  }

  /** No source that the cycle turns to has a TAO/USD price. */
  predicate Uninformed(c: PriceCycle) {
    c.Asks? ==>
      && Live(c.answers.first) == None
      && PublishedTao(c.answers.published) == None && PublishedTao(c.answers.publishedAgain) == None
  }

  lemma LastTaoKept(last: Option<real>, c: PriceCycle)
    requires NoneOrPositive(last) && c.Asks?
    ensures NoneOrPositive(LastTao(last, c.graph, c.answers))
    ensures LastTao(last, c.graph, c.answers) == None <==> last == None && Uninformed(c)
  {
    hide AlphaRate;
  }

  lemma {:induction false} RememberedIff(cached: Option<real>, cycles: seq<PriceCycle>)
    ensures NoneOrPositive(RememberedBy(cached, cycles))
    ensures RememberedBy(cached, cycles) == None
       <==> Usable(cached) == None && forall c :: c in cycles ==> Uninformed(c)
  {
    if cycles != [] {
      var n := |cycles| - 1;
      RememberedIff(cached, cycles[..n]);
      assert cycles == cycles[..n] + [cycles[n]] && cycles[n] in cycles;
      assert forall c :: c in cycles <==> c in cycles[..n] || c == cycles[n];
      if cycles[n].Asks? {
        LastTaoKept(RememberedBy(cached, cycles[..n]), cycles[n]);
      } else {
        assert Uninformed(cycles[n]);
      }
      hide LastTao, Uninformed;
    }
  }

  /**
   * Over every run of cycles: one is skipped for want of TAO/USD exactly when neither the disk, nor it, nor any cycle
   * before it ever had a price; and every cycle that is not skipped has a positive TAO/USD and a positive pool.
   */
  lemma NoTaoIff(cached: Option<real>, cycles: seq<PriceCycle>, i: nat)
    requires i < |cycles| && cycles[i].Asks?
    ensures var last := RememberedBy(cached, cycles[..i]);
            && (NoTao(last, cycles[i].answers) <==>
                  Usable(cached) == None && forall j :: 0 <= j <= i ==> Uninformed(cycles[j]))
            && (PricesOf(last, cycles[i].graph, cycles[i].answers).Some? ==>
                  && PricesOf(last, cycles[i].graph, cycles[i].answers).value.taoUsd > 0.0
                  && PoolOf(last, cycles[i].graph, cycles[i].answers) > 0.0)
  {
    RememberedIff(cached, cycles[..i]);
    SkippedIff(RememberedBy(cached, cycles[..i]), cycles[i].graph, cycles[i].answers);
    hide PricesOf, PoolOf, RememberedBy;
    assert (forall c :: c in cycles[..i] ==> Uninformed(c)) <==> forall j :: 0 <= j < i ==> Uninformed(cycles[j]) by {
      assert forall j :: 0 <= j < i ==> cycles[j] in cycles[..i];
    }
  }

  /** Once any cycle had a TAO/USD price, no later cycle is skipped for want of one. */
  lemma NeverSkippedForTaoAgain(cached: Option<real>, cycles: seq<PriceCycle>, i: nat, j: nat)
    requires i < j < |cycles| && cycles[i].Asks? && cycles[j].Asks?
    requires !NoTao(RememberedBy(cached, cycles[..i]), cycles[i].answers)
    ensures !NoTao(RememberedBy(cached, cycles[..j]), cycles[j].answers)
  {
    NoTaoIff(cached, cycles, i);
    NoTaoIff(cached, cycles, j);
    hide NoTao, Uninformed, RememberedBy;
  }

  /** With emission and spot price known the pool is proportional to TAO/USD. */
  lemma PoolIsLinear(graph: Option<Graph>, taoUsd: real)
    requires taoUsd > 0.0
    ensures EmittedAlpha(graph) > 0.0 && SpotOf(graph) > 0.0 ==> PoolUsd(graph, taoUsd) == PoolUsd(graph, 1.0) * taoUsd
  {
    Reorder(EmittedAlpha(graph) * MINER_EMISSION_SHARE, taoUsd, SpotOf(graph));
  }

  lemma Reorder(a: real, t: real, s: real)
    ensures a * (t * s) == (a * (1.0 * s)) * t
  {
  }
}
