/** The two market feeds: per-class maxima over rows, and the market price of a class. */
module MarketPricing {
  import opened Prelude

  const MARKET_MARKUP_FRAC := 0.10

  /** One cell of a feed row: absent, not convertible to a number, or a number. */
  datatype Cell = Missing | NotANumber | Amount(x: real)

  /** A feed row; `klass` is `None` where the row is not a GPU row of a known class. */
  datatype Row = Row(klass: Option<string>, preferred: Cell, fallback: Cell)

  /** The rate a row offers: the preferred column, the fallback only where that is absent. */
  function Rate(row: Row): Option<real> {
    var cell := if row.preferred.Missing? then row.fallback else row.preferred;
    if row.klass.Some? && cell.Amount? && cell.x > 0.0 then Some(cell.x) else None
  }

  ghost predicate Offers(row: Row, klass: string, rate: real) {
    row.klass == Some(klass) && Rate(row) == Some(rate)
  }

  /** `m` holds, for exactly the classes some row offers, the highest rate offered. */
  ghost predicate HighestRates(rows: seq<Row>, m: map<string, real>) {
    && (forall i, r :: 0 <= i < |rows| && Rate(rows[i]) == Some(r) ==>
          rows[i].klass.value in m && r <= m[rows[i].klass.value])
    && (forall k :: k in m ==> exists i :: 0 <= i < |rows| && Offers(rows[i], k, m[k]))
  }

  /** Targon: `prev is None or rate > prev`. */
  method PerClassFromSnapshot(rows: seq<Row>) returns (perClass: map<string, real>)
    ensures HighestRates(rows, perClass)
  {
    perClass := map[];
    for i := 0 to |rows|
      invariant HighestRates(rows[..i], perClass)
    {
      var rate := Rate(rows[i]);
      ghost var before := perClass;
      if rate.Some? {
        var klass := rows[i].klass.value;
        var prev := Lookup(perClass, klass);
        if prev.None? || rate.value > prev.value {
          perClass := perClass[klass := rate.value];
        }
      }
      HighestStep(rows, i, before, perClass);
    }
    assert rows[..|rows|] == rows;
  }

  /** Lium: `value > per_class.get(klass, 0.0)`. */
  method PerClassFromRows(rows: seq<Row>) returns (perClass: map<string, real>)
    ensures HighestRates(rows, perClass)
  {
    perClass := map[];
    for i := 0 to |rows|
      invariant HighestRates(rows[..i], perClass)
    {
      var rate := Rate(rows[i]);
      ghost var before := perClass;
      if rate.Some? {
        var klass := rows[i].klass.value;
        if rate.value > Get(perClass, klass, 0.0) {
          perClass := perClass[klass := rate.value];
        }
      }
      HighestStep(rows, i, before, perClass);
    }
    assert rows[..|rows|] == rows;
  }

  lemma HighestStep(rows: seq<Row>, i: nat, before: map<string, real>, after: map<string, real>)
    requires i < |rows| && HighestRates(rows[..i], before)
    requires var rate := Rate(rows[i]);
             after == if rate.Some? && (rows[i].klass.value !in before || rate.value > before[rows[i].klass.value])
                      then before[rows[i].klass.value := rate.value] else before
    ensures HighestRates(rows[..i + 1], after)
  {
    var next := rows[..i + 1];
    forall k | k in after ensures exists j :: 0 <= j < |next| && Offers(next[j], k, after[k]) {
      if k in before && after[k] == before[k] {
        var j :| 0 <= j < i && Offers(rows[..i][j], k, before[k]);
        assert Offers(next[j], k, after[k]);
      } else {
        assert Offers(next[i], k, after[k]);
      }
    }
    forall j, r | 0 <= j < |next| && Rate(next[j]) == Some(r)
      ensures next[j].klass.value in after && r <= after[next[j].klass.value]
    {
      if j < i {
        assert next[j] == rows[..i][j];
      }
    }
  }

  /** The table depends only on which rows there are, not on their order or repetition. */
  lemma HighestRatesUnique(rows: seq<Row>, shuffled: seq<Row>, m: map<string, real>, n: map<string, real>)
    requires forall row :: row in rows <==> row in shuffled
    requires HighestRates(rows, m) && HighestRates(shuffled, n)
    ensures m == n
  {
    HighestIncluded(rows, shuffled, m, n);
    HighestIncluded(shuffled, rows, n, m);
    SameEntries(m, n);
  }

  lemma HighestIncluded(rows: seq<Row>, shuffled: seq<Row>, m: map<string, real>, n: map<string, real>)
    requires forall row :: row in rows <==> row in shuffled
    requires HighestRates(rows, m) && HighestRates(shuffled, n)
    ensures forall k :: k in m ==> k in n && n[k] == m[k]
  {
    forall k | k in m ensures k in n && n[k] == m[k] {
      var i :| 0 <= i < |rows| && Offers(rows[i], k, m[k]);
      assert rows[i] in shuffled;
      var j :| 0 <= j < |shuffled| && shuffled[j] == rows[i];
      assert Rate(shuffled[j]) == Some(m[k]);
      var j' :| 0 <= j' < |shuffled| && Offers(shuffled[j'], k, n[k]);
      assert shuffled[j'] in rows;
      var i' :| 0 <= i' < |rows| && rows[i'] == shuffled[j'];
      assert Rate(rows[i']) == Some(n[k]);
    }
  }

  function UsableIn(feed: Option<map<string, real>>, klass: string): Option<real> {
    if feed.Some? && klass in feed.value && feed.value[klass] > 0.0 then Some(feed.value[klass]) else None
  }

  /** 1.10 times the best usable feed price of the class, if there is one. */
  function MarketPrice(klass: string, lium: Option<map<string, real>>,
                       targon: Option<map<string, real>>): Option<real>
  {
    var l, t := UsableIn(lium, klass), UsableIn(targon, klass);
    if l.None? && t.None? then None
    else Some((1.0 + MARKET_MARKUP_FRAC) * Max(l.GetOr(0.0), t.GetOr(0.0)))
  }
}

/** The payout feed: the committed card, the floors and switches of the published card, and three ways to price. */
module PayoutFeed {
  import opened MarketPricing
  import opened Prelude
  import opened PriceCard

  const DEFAULT_FLOOR_FRAC := 0.75

  /** What the Targon tiers answer this cycle; the caches and the snapshot keep positive entries only. */
  datatype TargonReads = TargonReads(live: Option<Prices>, cache: Option<Prices>, published: Option<Prices>)

  datatype FeedSource = Live | DiskCache | Snapshot | OwnCard

  datatype LiumReads = LiumReads(live: Option<Prices>, cache: Option<Prices>)

  datatype LiumSource = LiumLive | LiumCache | LiumOff

  /** live -> cache -> published -> the committed card itself. */
  function ResolvePerCard(card: Prices, tiers: TargonReads): (Prices, FeedSource) {
    if tiers.live.Some? then (tiers.live.value, Live)
    else if tiers.cache.Some? && tiers.cache.value != map[] then (tiers.cache.value, DiskCache)
    else if tiers.published.Some? && tiers.published.value != map[] then (tiers.published.value, Snapshot)
    else (card, OwnCard)
  }

  function LiumInUse(tiers: LiumReads): Option<Prices> {
    if tiers.live.Some? then tiers.live
    else if tiers.cache.Some? && tiers.cache.value != map[] then tiers.cache
    else None
  }

  /** The manual floor capped at the card, or three quarters of the card. */
  function FloorFor(manual: Option<Prices>, klass: string, price: real): real {
    if manual.Some? && klass in manual.value && manual.value[klass] > 0.0
    then Min(manual.value[klass], price)
    else price * DEFAULT_FLOOR_FRAC
  }

  function ClampPay(price: real, floor: real, live: real): real {
    Min(price, Max(floor, live))
  }

  function MarketPay(floor: real, market: Option<real>): real {
    match market
    case None => floor
    case Some(m) => Max(floor, m)
  }

  /** What one class pays under the given switches. */
  function PayOf(klass: string, price: real, manual: Option<Prices>, flags: Switches, targon: Prices,
                 lium: Option<Prices>): real
  {
    var floor := FloorFor(manual, klass, price);
    if flags.lium then MarketPay(floor, MarketPrice(klass, lium, Some(targon)))
    else if !flags.targon then price
    else ClampPay(price, floor, Get(targon, klass, price))
  }

  function Effective(card: Prices, manual: Option<Prices>, flags: Switches, targon: TargonReads,
                     lium: LiumReads): Prices
  {
    map k | k in card :: PayOf(k, card[k], manual, flags, ResolvePerCard(card, targon).0, LiumInUse(lium))
  }

  function Positive(floors: Prices): Prices {
    map k | k in floors && floors[k] > 0.0 :: floors[k]
  }

  /** The floors the feed keeps of the ones it is given. */
  function ManualFloors(floors: Option<Prices>): Option<Prices> {
    if floors.Some? && floors.value != map[] then Some(Positive(floors.value)) else None
  }

  class TargonPayoutFeed {
    const committed: Prices
    var manualFloors: Option<Prices>
    var pricingFlags: Switches
    var lastLiumSource: LiumSource
    var liumUsed: Prices

    /** The compiled-in card with the operator's local override on top. */
    constructor (usdCardOverride: Prices)
      ensures committed == DEFAULT_USD_CARD + usdCardOverride
      ensures manualFloors == None && pricingFlags == DEFAULT_PRICING && lastLiumSource == LiumOff
    {
      committed := DEFAULT_USD_CARD + usdCardOverride;
      manualFloors := None;
      pricingFlags := DEFAULT_PRICING;
      lastLiumSource := LiumOff;
      liumUsed := map[];
    }

    method SetPricingFlags(pricing: Option<Switches>)
      modifies this`pricingFlags
      ensures pricingFlags == pricing.GetOr(DEFAULT_PRICING)
    {
      pricingFlags := pricing.GetOr(DEFAULT_PRICING);
    }

    /** Keys are put in upper case, which changes nothing for the floors of a published or a local card. */
    method SetManualFloors(floors: Option<Prices>)
      modifies this`manualFloors
      ensures manualFloors.Some? <==> floors.Some? && floors.value != map[]
      ensures manualFloors.Some? ==> UpperKeyed(Positive(floors.value), manualFloors.value)
      ensures floors.Some? && AllUpper(floors.value) ==> manualFloors == ManualFloors(floors)
    {
      if floors.Some? && floors.value != map[] {
        var kept := UpperKeys(Positive(floors.value));
        manualFloors := Some(kept);
        if AllUpper(floors.value) {
          UpperKeysOfUpper(Positive(floors.value), kept);
        }
      } else {
        manualFloors := None;
      }
    }

    method ClampedCard(resolved: Prices) returns (effective: Prices)
      ensures effective == map k | k in committed ::
                             ClampPay(committed[k], FloorFor(manualFloors, k, committed[k]),
                                      Get(resolved, k, committed[k]))
    {
      effective := map[];
      var rest := committed.Keys;
      while rest != {}
        modifies {}
        invariant rest <= committed.Keys
        invariant forall k :: k in effective <==> k in committed && k !in rest
        invariant forall k :: k in effective ==>
                    effective[k] ==
                    ClampPay(committed[k], FloorFor(manualFloors, k, committed[k]), Get(resolved, k, committed[k]))
        decreases rest
      {
        var klass := Pick(rest);
        var price := committed[klass];
        var floor := FloorFor(manualFloors, klass, price);
        var live := Get(resolved, klass, price);
        effective := effective[klass := Min(price, Max(floor, live))];
        rest := rest - {klass};
      }
      SameEntries(effective, map k | k in committed ::
                               ClampPay(committed[k], FloorFor(manualFloors, k, committed[k]),
                                        Get(resolved, k, committed[k])));
    }

    method MarketEffectiveCard(targon: Prices, lium: LiumReads) returns (effective: Prices)
      modifies this`lastLiumSource, this`liumUsed
      ensures liumUsed == LiumInUse(lium).GetOr(map[])
      ensures lastLiumSource ==
                if lium.live.Some? then LiumLive else if LiumInUse(lium).Some? then LiumCache else LiumOff
      ensures effective == map k | k in committed ::
                             MarketPay(FloorFor(manualFloors, k, committed[k]),
                                       MarketPrice(k, LiumInUse(lium), Some(targon)))
    {
      var prices: Option<Prices> := lium.live;
      lastLiumSource := if lium.live.Some? then LiumLive else LiumOff;
      if prices.None? && lium.cache.Some? && lium.cache.value != map[] {
        prices, lastLiumSource := lium.cache, LiumCache;
      }
      liumUsed := prices.GetOr(map[]);
      effective := map[];
      var rest := committed.Keys;
      while rest != {}
        modifies {}
        invariant rest <= committed.Keys
        invariant forall k :: k in effective <==> k in committed && k !in rest
        invariant forall k :: k in effective ==>
                    effective[k] ==
                    MarketPay(FloorFor(manualFloors, k, committed[k]), MarketPrice(k, prices, Some(targon)))
        decreases rest
      {
        var klass := Pick(rest);
        var floor := FloorFor(manualFloors, klass, committed[klass]);
        var market := MarketPrice(klass, prices, Some(targon));
        if market.None? {
          effective := effective[klass := floor];
        } else {
          effective := effective[klass := Max(floor, market.value)];
        }
        rest := rest - {klass};
      }
      SameEntries(effective, map k | k in committed ::
                               MarketPay(FloorFor(manualFloors, k, committed[k]),
                                         MarketPrice(k, prices, Some(targon))));
    }

    method EffectiveCard(targon: TargonReads, lium: LiumReads) returns (effective: Prices, source: FeedSource)
      modifies this`lastLiumSource, this`liumUsed
      ensures effective == Effective(committed, manualFloors, pricingFlags, targon, lium)
      ensures source == ResolvePerCard(committed, targon).1
      ensures !pricingFlags.lium ==> liumUsed == old(liumUsed) && lastLiumSource == old(lastLiumSource)
    {
      var (resolved, tier) := ResolvePerCard(committed, targon);
      source := tier;
      if pricingFlags.lium {
        effective := MarketEffectiveCard(resolved, lium);
      } else if !pricingFlags.targon {
        effective := committed;
      } else {
        effective := ClampedCard(resolved);
      }
      SameEntries(effective, Effective(committed, manualFloors, pricingFlags, targon, lium));
    }
  }
}
