/**
 What one class pays, said over the raw answers of the feeds: which tier counts, which column of a row counts, and the
 three cases of the clamp.
 */
module FeedLaws {
  import opened MarketPricing
  import opened PayoutFeed
  import opened Prelude
  import opened PriceCard
  import opened PricingLaws

  // ---- rows -------------------------------------------------------------------------------

  /** A usable number in the preferred column, or in the other one where the preferred one is absent. */
  ghost predicate RowPays(row: Row, klass: string, rate: real) {
    && row.klass == Some(klass) && rate > 0.0
    && (row.preferred == Amount(rate) || (row.preferred == Missing && row.fallback == Amount(rate)))
  }

  /** The loops' notion of an offer is exactly that; a preferred cell that is no positive number is not made up for. */
  lemma RowPaysIff(row: Row, klass: string, rate: real)
    ensures Offers(row, klass, rate) <==> RowPays(row, klass, rate)
  {
  }

  /** The highest rate any of the rows pays for the class. */
  ghost predicate Highest(rows: seq<Row>, klass: string, rate: real) {
    && (exists i :: 0 <= i < |rows| && RowPays(rows[i], klass, rate))
    && forall i, r :: 0 <= i < |rows| && RowPays(rows[i], klass, r) ==> r <= rate
  }

  /** A feed's table has a class exactly if some row pays for it, and then at the highest rate. */
  lemma TableIsHighest(rows: seq<Row>, m: Prices, klass: string, rate: real)
    requires HighestRates(rows, m)
    ensures klass in m && m[klass] == rate <==> Highest(rows, klass, rate)
  {
    forall i, r | 0 <= i < |rows| && RowPays(rows[i], klass, r) ensures klass in m && r <= m[klass] {
      assert Offers(rows[i], klass, r);
    }
    if klass in m {
      var i :| 0 <= i < |rows| && Offers(rows[i], klass, m[klass]);
      assert RowPays(rows[i], klass, m[klass]);
    }
    if Highest(rows, klass, rate) {
      var i :| 0 <= i < |rows| && RowPays(rows[i], klass, rate);
    }
  }

  lemma NoRowNoEntry(rows: seq<Row>, m: Prices, klass: string)
    requires HighestRates(rows, m)
    ensures klass !in m <==> forall i, r :: 0 <= i < |rows| ==> !RowPays(rows[i], klass, r)
  {
    if klass in m {
      TableIsHighest(rows, m, klass, m[klass]);
    }
    forall i, r | 0 <= i < |rows| && RowPays(rows[i], klass, r) ensures klass in m {
      assert Offers(rows[i], klass, r);
    }
  }

  // ---- tiers ------------------------------------------------------------------------------

  ghost predicate Dark(tier: Option<Prices>) {
    tier == None || tier == Some(map[])
  }

  /** The first tier that answers: a live answer even if empty, then a cache, then a snapshot, then the card itself. */
  ghost predicate IsTier(t: TargonReads, card: Prices, tier: Prices, source: FeedSource) {
    match source
    case Live => t.live == Some(tier)
    case DiskCache => t.live == None && t.cache == Some(tier) && tier != map[]
    case Snapshot => t.live == None && Dark(t.cache) && t.published == Some(tier) && tier != map[]
    case OwnCard => t.live == None && Dark(t.cache) && Dark(t.published) && tier == card
  }

  lemma TierIff(t: TargonReads, card: Prices, tier: Prices, source: FeedSource)
    ensures ResolvePerCard(card, t) == (tier, source) <==> IsTier(t, card, tier, source)
  {
  }

  /** The other feed has two tiers, and may be off. */
  ghost predicate IsLium(l: LiumReads, used: Option<Prices>) {
    || (l.live.Some? && used == l.live)
    || (l.live == None && !Dark(l.cache) && used == l.cache)
    || (l.live == None && Dark(l.cache) && used == None)
  }

  lemma LiumIff(l: LiumReads, used: Option<Prices>)
    ensures LiumInUse(l) == used <==> IsLium(l, used)
  {
  }

  // ---- floors -----------------------------------------------------------------------------

  /** The smaller of the manual floor and the card, or three quarters of the card for a class without a manual floor. */
  ghost predicate IsFloor(manual: Option<Prices>, klass: string, price: real, floor: real) {
    if exists m :: manual == Some(m) && klass in m && m[klass] > 0.0 then
      && floor <= price && floor <= manual.value[klass]
      && (floor == price || floor == manual.value[klass])
    else 4.0 * floor == 3.0 * price
  }

  lemma FloorIff(manual: Option<Prices>, klass: string, price: real, floor: real)
    ensures FloorFor(manual, klass, price) == floor <==> IsFloor(manual, klass, price, floor)
  {
    if manual.Some? && klass in manual.value && manual.value[klass] > 0.0 {
      var m := manual.value;
      assert manual == Some(m) && klass in m && m[klass] > 0.0;
    }
  }

  /** The floors a feed keeps: the positive ones of a table that is not empty. */
  lemma ManualIff(floors: Option<Prices>, klass: string, floor: real)
    ensures ManualFloors(floors) == None <==> Dark(floors)
    ensures ManualFloors(floors).Some? && klass in ManualFloors(floors).value
              && ManualFloors(floors).value[klass] == floor
       <==> floors.Some? && klass in floors.value && floors.value[klass] == floor && floor > 0.0
  {
  }

  // ---- pay --------------------------------------------------------------------------------

  /**
   * Clamp mode: the tier's price where it lies between floor and card, the card from the card upwards, the floor from
   * the floor downwards; a class the tier does not have pays its card price.
   */
  lemma ClampModePay(card: Prices, manual: Option<Prices>, klass: string, targon: TargonReads, lium: LiumReads,
                     tier: Prices, source: FeedSource, floor: real)
    requires klass in card && card[klass] > 0.0
    requires IsTier(targon, card, tier, source) && IsFloor(manual, klass, card[klass], floor)
    ensures var pay := Effective(card, manual, Switches(true, false), targon, lium)[klass];
            && floor <= card[klass]
            && (klass !in tier ==> pay == card[klass])
            && (klass in tier && floor <= tier[klass] <= card[klass] ==> pay == tier[klass])
            && (klass in tier && tier[klass] >= card[klass] ==> pay == card[klass])
            && (klass in tier && tier[klass] <= floor ==> pay == floor)
  {
    TierIff(targon, card, tier, source);
    FloorIff(manual, klass, card[klass], floor);
  }

  /** From rows to pay: the highest rate of a live feed's rows, between floor and card. */
  lemma LiveClampPay(card: Prices, manual: Option<Prices>, klass: string, rows: seq<Row>, targon: TargonReads,
                     lium: LiumReads, floor: real, rate: real)
    requires klass in card && card[klass] > 0.0 && IsFloor(manual, klass, card[klass], floor)
    requires targon.live.Some? && HighestRates(rows, targon.live.value)
    ensures var pay := Effective(card, manual, Switches(true, false), targon, lium)[klass];
            && (Highest(rows, klass, rate) && floor <= rate <= card[klass] ==> pay == rate)
            && (Highest(rows, klass, rate) && rate >= card[klass] ==> pay == card[klass])
            && (Highest(rows, klass, rate) && rate <= floor ==> pay == floor)
            && ((forall i, r :: 0 <= i < |rows| ==> !RowPays(rows[i], klass, r)) ==> pay == card[klass])
  {
    hide Highest, Effective, IsFloor, HighestRates, RowPays;
    var tier := targon.live.value;
    TableIsHighest(rows, tier, klass, rate);
    NoRowNoEntry(rows, tier, klass);
    ClampModePay(card, manual, klass, targon, lium, tier, Live, floor);
  }

  /** With both switches off the card is paid, whatever floors and feeds say. */
  lemma FlatPay(card: Prices, manual: Option<Prices>, targon: TargonReads, lium: LiumReads)
    ensures Effective(card, manual, Switches(false, false), targon, lium) == card
  {
    SameEntries(Effective(card, manual, Switches(false, false), targon, lium), card);
  }

  /** A price of the class in a table that counts. */
  ghost predicate HasPrice(tier: Prices, used: Option<Prices>, klass: string, price: real) {
    price > 0.0 && ((klass in tier && tier[klass] == price)
                    || (used.Some? && klass in used.value && used.value[klass] == price))
  }

  /** Market mode, with the other switch on or off: the greatest of the floor and 1.10 times each price there is. */
  lemma MarketModeRaw(card: Prices, manual: Option<Prices>, klass: string, targon: TargonReads, lium: LiumReads,
                      targonSwitch: bool, tier: Prices, source: FeedSource, used: Option<Prices>, floor: real)
    requires klass in card && IsTier(targon, card, tier, source) && IsLium(lium, used)
    requires IsFloor(manual, klass, card[klass], floor)
    ensures var pay := Effective(card, manual, Switches(targonSwitch, true), targon, lium)[klass];
            && pay >= floor
            && (forall p :: HasPrice(tier, used, klass, p) ==> 10.0 * pay >= 11.0 * p)
            && (pay == floor || exists p :: HasPrice(tier, used, klass, p) && 10.0 * pay == 11.0 * p)
  {
    TierIff(targon, card, tier, source);
    LiumIff(lium, used);
    FloorIff(manual, klass, card[klass], floor);
    hide Effective;
    MarketModePay(card, manual, klass, targon, lium, targonSwitch);
    var pay := Effective(card, manual, Switches(targonSwitch, true), targon, lium)[klass];
    forall p | HasPrice(tier, used, klass, p) ensures 10.0 * pay >= 11.0 * p {
      assert FeedOffers(tier, used, klass, p);
    }
    if pay != floor {
      var v :| FeedOffers(tier, used, klass, v) && pay == 1.1 * v;
      assert HasPrice(tier, used, klass, v);
    }
  }

  /** Card 4.00, floor 3.00, live price 3.50: the miner is paid 3.50. */
  lemma ClampWitness(lium: LiumReads)
    ensures Effective(map["H100" := 4.0], Some(map["H100" := 3.0]), Switches(true, false),
                      TargonReads(Some(map["H100" := 3.5]), None, None), lium)
         == map["H100" := 3.5]
  {
    var card: Prices := map["H100" := 4.0];
    var targon := TargonReads(Some(map["H100" := 3.5]), None, None);
    ClampModePay(card, Some(map["H100" := 3.0]), "H100", targon, lium, targon.live.value, Live, 3.0);
    SameEntries(Effective(card, Some(map["H100" := 3.0]), Switches(true, false), targon, lium), map["H100" := 3.5]);
  }
}
