/** Where a cycle's two prices and its pool come from: every source, in the order they are asked. */
module PriceLaws {
  import opened Chain
  import opened CyclePrices
  import opened Prelude
  import opened PriceFeed
  import opened Ratios
  import opened Totals

  // ---- first come, first served -----------------------------------------------------------

  lemma FirstUnique(candidates: seq<Option<real>>, v: Option<real>, w: Option<real>)
    requires FirstPositive(candidates, v) && FirstPositive(candidates, w)
    ensures v == w
  {
  }

  /** What comes first in a list comes first in front of the rest. */
  lemma FirstOfTwo(a: Option<real>, b: Option<real>)
    ensures FirstPositive([a, b], OrElse(Usable(a), Usable(b)))
  {
    assert [a] + [b] == [a, b] && [b] + [] == [b];
    FirstOfNone();
    hide FirstPositive;
    FirstOfMore(b, [], None);
    FirstOfMore(a, [b], Usable(b));
  }

  lemma FirstOfFour(a: Option<real>, b: Option<real>, c: Option<real>, d: Option<real>)
    ensures FirstPositive([a, b, c, d], OrElse(OrElse(Usable(a), Usable(b)), OrElse(Usable(c), Usable(d))))
  {
    assert [a] + [b, c, d] == [a, b, c, d];
    hide FirstPositive;
    FirstOfThree(b, c, d);
    FirstOfMore(a, [b, c, d], OrElse(Usable(b), OrElse(Usable(c), Usable(d))));
  }

  // ---- the answers ------------------------------------------------------------------------

  function TaoField(p: Option<Published>): Option<real> {
    if p.Some? then p.value.taoUsd else None
  }

  function AlphaField(p: Option<Published>): Option<real> {
    if p.Some? then p.value.alphaToTao else None
  }

  function PoolPrice(p: Option<PoolAnswer>): Option<real> {
    if p.Some? then p.value.price else None
  }

  /** The price in a snapshot, zero without one. */
  function PriceIn(graph: Option<Graph>): real {
    if graph.Some? then graph.value.price else 0.0
  }

  /** Alpha in the pool over TAO in the pool, where both are there and not zero. */
  ghost predicate SidesOver(p: Option<PoolAnswer>, q: Option<real>) {
    if p.Some? && p.value.alphaInPool.Some? && p.value.taoInPool.Some?
      && p.value.alphaInPool.value != 0.0 && p.value.taoInPool.value != 0.0
    then
      var alpha, tao := p.value.alphaInPool.value, p.value.taoInPool.value;
      q.Some? && if tao >= 0.000000000000000001 then q.value * tao == alpha
                 else q.value * 0.000000000000000001 == alpha
    else q == None
  }

  /** TAO/USD of the first round: two services, then the owner's object, then what is remembered. */
  lemma FirstTaoIs(last: Option<real>, a: Answers)
    requires NoneOrPositive(last)
    ensures FirstPositive([a.first.taostats, a.first.coingecko, TaoField(a.published), last], FirstTao(last, a))
  {
    hide FirstPositive;
    FirstOfFour(a.first.taostats, a.first.coingecko, TaoField(a.published), last);
  }

  /** The alpha rate: the spot price, read again if it was zero, then the pool service's price, then its two sides. */
  lemma AlphaRateIs(graph: Option<Graph>, reread: Option<Graph>, pool: Option<PoolAnswer>, spot: real,
                    sides: Option<real>)
    requires spot == if PriceIn(graph) == 0.0 && reread.Some? then PriceIn(reread) else PriceIn(graph)
    requires SidesOver(pool, sides)
    ensures FirstPositive([Some(spot), PoolPrice(pool), sides], AlphaRate(graph, reread, pool))
  {
    FirstOfThree(Some(spot), PoolPrice(pool), sides);
    if sides.Some? {
      var tao := pool.value.taoInPool.value;
      QuotientUnique(pool.value.alphaInPool.value, Max(tao, TINY), sides.value);
    }
    hide FirstPositive;
  }

  lemma TimesIs(a: real, b: real)
    ensures Times(a, b) == a * b
  {
  }

  // ---- the prices of a cycle --------------------------------------------------------------

  /** Both prices found in the first round: their product, and TAO/USD asked for once more. */
  lemma LivePrices(last: Option<real>, graph: Option<Graph>, a: Answers, tao: real, spot: real, sides: Option<real>,
                   rate: real)
    requires NoneOrPositive(last)
    requires FirstPositive([a.first.taostats, a.first.coingecko, TaoField(a.published), last], Some(tao))
    requires spot == if PriceIn(graph) == 0.0 && a.reread.Some? then PriceIn(a.reread) else PriceIn(graph)
    requires SidesOver(a.pool, sides) && FirstPositive([Some(spot), PoolPrice(a.pool), sides], Some(rate))
    ensures var prices := PricesOf(last, graph, a);
            && prices.Some? && prices.value.usdPerAlpha == tao * rate
            && FirstPositive([a.second.taostats, a.second.coingecko, Some(tao)], Some(prices.value.taoUsd))
  {
    hide FirstPositive, AlphaRate;
    FirstTaoIs(last, a);
    FirstUnique([a.first.taostats, a.first.coingecko, TaoField(a.published), last], FirstTao(last, a), Some(tao));
    AlphaRateIs(graph, a.reread, a.pool, spot, sides);
    FirstUnique([Some(spot), PoolPrice(a.pool), sides], AlphaRate(graph, a.reread, a.pool), Some(rate));
    assert tao > 0.0;
    FirstOfThree(a.second.taostats, a.second.coingecko, Some(tao));
  }

  /** Nothing positive among the candidates. */
  ghost predicate NonePositive(candidates: seq<Option<real>>) {
    forall i :: 0 <= i < |candidates| && candidates[i].Some? ==> candidates[i].value <= 0.0
  }

  lemma NoneIsFirst(candidates: seq<Option<real>>)
    ensures FirstPositive(candidates, None) <==> NonePositive(candidates)
  {
  }

  /**
   * Otherwise the owner's object is read again: its TAO/USD, else the one of the first round; its alpha rate, else the
   * spot price of the snapshot, read again only if there was a TAO/USD.  Without either the cycle is skipped.
   */
  lemma FallbackPrices(last: Option<real>, graph: Option<Graph>, a: Answers, tao: Option<real>, spot: real,
                       sides: Option<real>, tao': Option<real>, alpha: Option<real>)
    requires NoneOrPositive(last)
    requires FirstPositive([a.first.taostats, a.first.coingecko, TaoField(a.published), last], tao)
    requires spot == if tao.Some? && PriceIn(graph) == 0.0 && a.reread.Some? then PriceIn(a.reread) else PriceIn(graph)
    requires SidesOver(a.pool, sides)
    requires tao == None || NonePositive([Some(spot), PoolPrice(a.pool), sides])
    requires FirstPositive([TaoField(a.publishedAgain), tao], tao')
    requires FirstPositive([AlphaField(a.publishedAgain), Some(spot)], alpha)
    ensures var prices := PricesOf(last, graph, a);
            && (prices.Some? <==> tao'.Some? && alpha.Some?)
            && (prices.Some? ==>
                  prices.value.taoUsd == tao'.value && prices.value.usdPerAlpha == tao'.value * alpha.value)
  {
    hide FirstPositive, AlphaRate, SidesOver;
    FirstTaoIs(last, a);
    FirstUnique([a.first.taostats, a.first.coingecko, TaoField(a.published), last], FirstTao(last, a), tao);
    if tao.Some? {
      AlphaRateIs(graph, a.reread, a.pool, spot, sides);
      NoneIsFirst([Some(spot), PoolPrice(a.pool), sides]);
      FirstUnique([Some(spot), PoolPrice(a.pool), sides], AlphaRate(graph, a.reread, a.pool), None);
    }
    assert Usable(tao) == tao;
    FirstOfTwo(TaoField(a.publishedAgain), tao);
    FirstOfTwo(AlphaField(a.publishedAgain), Some(spot));
    FirstUnique([TaoField(a.publishedAgain), tao], OrElse(PublishedTao(a.publishedAgain), tao), tao');
    FirstUnique([AlphaField(a.publishedAgain), Some(spot)],
                OrElse(PublishedAlpha(a.publishedAgain), Usable(Some(spot))), alpha);
    assert !IsLive(last, graph, a) && LastTao(last, graph, a) == tao';
    assert SpotOf(GraphAfter(last, graph, a)) == spot;
    assert FallbackAlpha(last, graph, a) == alpha;
    if tao'.Some? && alpha.Some? {
      TimesIs(tao'.value, alpha.value);
    }
    hide Times, IsLive, LastTao, FallbackAlpha;
  }

  // ---- what is remembered -----------------------------------------------------------------

  /** The price that remains after the cycle: a live one of the second round, or the owner's, else the first round's. */
  lemma LastTaoIs(last: Option<real>, graph: Option<Graph>, a: Answers, tao: Option<real>)
    requires NoneOrPositive(last)
    requires FirstPositive([a.first.taostats, a.first.coingecko, TaoField(a.published), last], tao)
    ensures IsLive(last, graph, a) <==> tao.Some? && AlphaRate(graph, a.reread, a.pool).Some?
    ensures FirstPositive(if IsLive(last, graph, a) then [a.second.taostats, a.second.coingecko, tao]
                          else [TaoField(a.publishedAgain), tao],
                          LastTao(last, graph, a))
  {
    hide FirstPositive, AlphaRate;
    FirstTaoIs(last, a);
    FirstUnique([a.first.taostats, a.first.coingecko, TaoField(a.published), last], FirstTao(last, a), tao);
    assert Usable(tao) == tao;
    FirstOfThree(a.second.taostats, a.second.coingecko, tao);
    FirstOfTwo(TaoField(a.publishedAgain), tao);
  }

  /** The price an event brings, and none after it: that is the one remembered. */
  lemma {:induction false} LatestRemembered(cached: Option<real>, events: seq<FeedEvent>, i: nat, price: real)
    requires i < |events|
    requires match events[i]
             case Seeded(p) => FirstPositive([TaoField(p)], Some(price))
             case Asked(r) => FirstPositive([r.taostats, r.coingecko], Some(price))
    requires forall j :: i < j < |events| ==>
               match events[j]
               case Seeded(p) => NonePositive([TaoField(p)])
               case Asked(r) => NonePositive([r.taostats, r.coingecko])
    ensures Remembered(cached, events) == Some(price)
  {
    var n := |events| - 1;
    if i < n {
      LatestRemembered(cached, events[..n], i, price);
    }
    match events[n]
    case Seeded(p) => assert [TaoField(p)][0] == TaoField(p);
    case Asked(r) => assert [r.taostats, r.coingecko][0] == r.taostats && [r.taostats, r.coingecko][1] == r.coingecko;
  }

  /** While no event brings a price, a positive one from disk is the one remembered. */
  lemma {:induction false} CachedRemembered(cached: Option<real>, events: seq<FeedEvent>)
    requires forall j :: 0 <= j < |events| ==>
               match events[j]
               case Seeded(p) => NonePositive([TaoField(p)])
               case Asked(r) => NonePositive([r.taostats, r.coingecko])
    ensures FirstPositive([cached], Remembered(cached, events))
  {
    if events == [] {
      assert [cached][0] == cached;
    } else {
      var n := |events| - 1;
      CachedRemembered(cached, events[..n]);
      match events[n]
      case Seeded(p) => assert [TaoField(p)][0] == TaoField(p);
      case Asked(r) => assert [r.taostats, r.coingecko][0] == r.taostats && [r.taostats, r.coingecko][1] == r.coingecko;
    }
  }

  // ---- the pool ---------------------------------------------------------------------------

  /** What each uid emits: its last entry in the list. */
  ghost predicate LastEntries(entries: seq<(int, real)>, m: map<int, real>) {
    && (forall u :: u in m <==> exists i :: 0 <= i < |entries| && entries[i].0 == u)
    && (forall i :: 0 <= i < |entries| && (forall j :: i < j < |entries| ==> entries[j].0 != entries[i].0) ==>
          entries[i].0 in m && m[entries[i].0] == entries[i].1)
  }

  lemma {:induction false} LastEntry(entries: seq<(int, real)>, u: int)
    ensures u !in EmissionsOf(entries) ==> forall i :: 0 <= i < |entries| ==> entries[i].0 != u
    ensures u in EmissionsOf(entries) ==>
              exists i :: && 0 <= i < |entries| && entries[i] == (u, EmissionsOf(entries)[u])
                          && forall j :: i < j < |entries| ==> entries[j].0 != u
  {
    if entries != [] {
      var n := |entries| - 1;
      LastEntry(entries[..n], u);
      assert entries == entries[..n] + [entries[n]];
      if entries[n].0 != u && u in EmissionsOf(entries[..n]) {
        var i :| && 0 <= i < n && entries[..n][i] == (u, EmissionsOf(entries[..n])[u])
                 && forall j :: i < j < n ==> entries[..n][j].0 != u;
        assert entries[i] == (u, EmissionsOf(entries)[u]);
      }
    }
  }

  lemma EmissionsIff(entries: seq<(int, real)>, m: map<int, real>)
    requires LastEntries(entries, m)
    ensures EmissionsOf(entries) == m
  {
    var e := EmissionsOf(entries);
    forall u | u in e ensures u in m && m[u] == e[u] {
      LastEntry(entries, u);
    }
    forall u | u in m ensures u in e {
      LastEntry(entries, u);
    }
    SameEntries(e, m);
  }

  /** Twice the pool is the alpha emitted times its USD price; without one of the three factors the pool is a dollar. */
  lemma PoolIs(graph: Option<Graph>, taoUsd: real, m: map<int, real>)
    requires graph.Some? ==> LastEntries(graph.value.emissions, m)
    ensures graph.Some? && Total(m) > 0.0 && graph.value.price > 0.0 && taoUsd > 0.0 ==>
              2.0 * PoolUsd(graph, taoUsd) == Total(m) * (taoUsd * graph.value.price)
    ensures graph == None || Total(m) <= 0.0 || graph.value.price <= 0.0 || taoUsd <= 0.0 ==>
              PoolUsd(graph, taoUsd) == 1.0
  {
    hide Total, LastEntries, EmissionsOf;
    if graph.Some? {
      EmissionsIff(graph.value.emissions, m);
      Halved(Total(m), taoUsd * graph.value.price);
    }
  }

  lemma Halved(alpha: real, price: real)
    ensures 2.0 * ((alpha * 0.5) * price) == alpha * price
  {
  }

  /** The snapshot a cycle's pool is taken from. */
  lemma PoolSnapshot(last: Option<real>, graph: Option<Graph>, a: Answers, tao: Option<real>)
    requires NoneOrPositive(last) && PricesOf(last, graph, a).Some?
    requires FirstPositive([a.first.taostats, a.first.coingecko, TaoField(a.published), last], tao)
    ensures PoolOf(last, graph, a)
         == PoolUsd(if tao.Some? && PriceIn(graph) == 0.0 && a.reread.Some? then a.reread else graph,
                    PricesOf(last, graph, a).value.taoUsd)
  {
    hide FirstPositive, PoolUsd, PricesOf;
    FirstTaoIs(last, a);
    FirstUnique([a.first.taostats, a.first.coingecko, TaoField(a.published), last], FirstTao(last, a), tao);
  }

  /** 30 and 70 alpha at 0.01 TAO and 400 dollars a TAO: a pool of 200 dollars.  Uid 1's first entry does not count. */
  lemma PoolWitness()
    ensures PoolUsd(Some(Graph([(1, 5.0), (2, 70.0), (1, 30.0)], 0.01)), 400.0) == 200.0
  {
    var m: map<int, real> := map[1 := 30.0, 2 := 70.0];
    assert m == map[1 := 30.0][2 := 70.0];
    TotalInsert(map[], 1, 30.0);
    TotalInsert(map[1 := 30.0], 2, 70.0);
    var entries := [(1, 5.0), (2, 70.0), (1, 30.0)];
    assert entries[0].0 == 1 && entries[1].0 == 2 && entries[2].0 == 1;
    PoolIs(Some(Graph(entries, 0.01)), 400.0, m);
  }
}
