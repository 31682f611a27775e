/** Bounds on what a class pays, the market rule over every tier, and when owner and reader agree. */
module PricingLaws {
  import opened CardCycle
  import opened CardLaws
  import opened Json
  import opened MarketPricing
  import opened PayoutFeed
  import opened Prelude
  import opened PriceCard

  // ---- bounds for any published card ------------------------------------------------------

  /**
   * Whatever object was published, clamp mode pays at most the local card and at least half the default (or the card,
   * if that is lower) where the object has a floor for the class, three quarters of the card where it has none.
   */
  lemma HostilePay(payload: Json, card: Prices, klass: string, targon: TargonReads, lium: LiumReads)
    requires Parsed(payload).Some? && klass in card && card[klass] > 0.0
    requires Parsed(payload).value.pricing == Switches(true, false)
    ensures var t := Parsed(payload).value;
            var pay := Effective(card, ManualFloors(t.floors), t.pricing, targon, lium)[klass];
            && pay <= card[klass]
            && (if t.floors.Some? && klass in t.floors.value
                then Known(klass) && pay >= Min(card[klass], 0.5 * DEFAULT_USD_CARD[klass])
                else pay >= 0.75 * card[klass])
  {
    var t := Parsed(payload).value;
    HostilePayload(payload);
    if t.floors.Some? && klass in t.floors.value {
      var manual := ManualFloors(t.floors).value;
      assert klass in manual && manual[klass] == t.floors.value[klass];
      assert FloorFor(Some(manual), klass, card[klass]) >= Min(card[klass], 0.5 * DEFAULT_USD_CARD[klass]);
    } else {
      assert ManualFloors(t.floors).Some? ==> klass !in ManualFloors(t.floors).value;
    }
  }

  /** In every mode and whatever floors and feeds say, a class with a positive card price is paid a positive price. */
  lemma EffectivePositive(card: Prices, manual: Option<Prices>, flags: Switches, targon: TargonReads, lium: LiumReads)
    requires forall k :: k in card ==> card[k] > 0.0
    ensures var pay := Effective(card, manual, flags, targon, lium);
            pay.Keys == card.Keys && forall k :: k in pay ==> pay[k] > 0.0
  {
    var pay := Effective(card, manual, flags, targon, lium);
    forall k | k in pay ensures pay[k] > 0.0 {
      assert FloorFor(manual, k, card[k]) > 0.0;
    }
  }

  // ---- market mode ------------------------------------------------------------------------

  /** The usable price some feed of this cycle has for the class. */
  ghost predicate FeedOffers(targon: Prices, lium: Option<Prices>, klass: string, price: real) {
    UsableIn(Some(targon), klass) == Some(price) || UsableIn(lium, klass) == Some(price)
  }

  /** Market mode pays the least amount that is at least the floor and 1.10 times every feed price, in every tier. */
  lemma MarketModePay(card: Prices, manual: Option<Prices>, klass: string, targon: TargonReads, lium: LiumReads,
                      targonSwitch: bool)
    requires klass in card
    ensures var pay := Effective(card, manual, Switches(targonSwitch, true), targon, lium)[klass];
            var floor := FloorFor(manual, klass, card[klass]);
            var tier := ResolvePerCard(card, targon).0;
            && pay >= floor
            && (forall v :: FeedOffers(tier, LiumInUse(lium), klass, v) ==> pay >= 1.1 * v)
            && (pay == floor || exists v :: FeedOffers(tier, LiumInUse(lium), klass, v) && pay == 1.1 * v)
  {
    var tier := ResolvePerCard(card, targon).0;
    var l, t := UsableIn(LiumInUse(lium), klass), UsableIn(Some(tier), klass);
    var pay := Effective(card, manual, Switches(targonSwitch, true), targon, lium)[klass];
    var floor := FloorFor(manual, klass, card[klass]);
    if pay != floor {
      var v := Max(l.GetOr(0.0), t.GetOr(0.0));
      assert FeedOffers(tier, LiumInUse(lium), klass, v) && pay == 1.1 * v;
    }
  }

  /** Some eligible row of either feed has this rate for the class. */
  ghost predicate RowOffers(targonRows: seq<Row>, liumRows: seq<Row>, klass: string, rate: real) {
    || (exists i :: 0 <= i < |targonRows| && Offers(targonRows[i], klass, rate))
    || (exists i :: 0 <= i < |liumRows| && Offers(liumRows[i], klass, rate))
  }

  /**
   * From rows to pay: with both feeds live, the greatest of the floor and 1.10 times every eligible rate of either
   * feed's rows.
   */
  lemma LiveMarketPay(card: Prices, manual: Option<Prices>, klass: string, targonRows: seq<Row>, liumRows: seq<Row>,
                      targon: TargonReads, lium: LiumReads, targonSwitch: bool)
    requires klass in card
    requires targon.live.Some? && HighestRates(targonRows, targon.live.value)
    requires lium.live.Some? && HighestRates(liumRows, lium.live.value)
    ensures var pay := Effective(card, manual, Switches(targonSwitch, true), targon, lium)[klass];
            var floor := FloorFor(manual, klass, card[klass]);
            && pay >= floor
            && (forall rate :: RowOffers(targonRows, liumRows, klass, rate) ==> pay >= 1.1 * rate)
            && (pay == floor || exists rate :: RowOffers(targonRows, liumRows, klass, rate) && pay == 1.1 * rate)
  {
    MarketModePay(card, manual, klass, targon, lium, targonSwitch);
    var pay := Effective(card, manual, Switches(targonSwitch, true), targon, lium)[klass];
    var t, l := targon.live.value, lium.live.value;
    hide Effective;
    forall rate | RowOffers(targonRows, liumRows, klass, rate) ensures pay >= 1.1 * rate {
      OfferIsCovered(targonRows, t, klass, rate);
      OfferIsCovered(liumRows, l, klass, rate);
      if klass in t && t[klass] >= rate {
        assert FeedOffers(t, Some(l), klass, t[klass]);
      } else {
        assert FeedOffers(t, Some(l), klass, l[klass]);
      }
    }
    if pay != FloorFor(manual, klass, card[klass]) {
      var v :| FeedOffers(t, Some(l), klass, v) && pay == 1.1 * v;
      assert RowOffers(targonRows, liumRows, klass, v);
    }
  }

  lemma OfferIsCovered(rows: seq<Row>, m: Prices, klass: string, rate: real)
    requires HighestRates(rows, m)
    ensures (exists i :: 0 <= i < |rows| && Offers(rows[i], klass, rate)) ==> klass in m && m[klass] >= rate > 0.0
  {
    if i :| 0 <= i < |rows| && Offers(rows[i], klass, rate) {
      assert Rate(rows[i]) == Some(rate);
    }
  }

  /**
   * The documentation has a class that neither feed covers pay its floor.  That is so exactly while some Targon tier
   * answers: in the last tier the card stands in for the feed and the class pays 1.10 times the card.
   */
  lemma UncoveredClassPaysFloor(card: Prices, manual: Option<Prices>, klass: string, targon: TargonReads,
                                lium: LiumReads, targonSwitch: bool)
    requires klass in card && card[klass] > 0.0
    requires UsableIn(LiumInUse(lium), klass) == None
    requires ResolvePerCard(card, targon).1 != OwnCard ==> UsableIn(Some(ResolvePerCard(card, targon).0), klass) == None
    ensures Effective(card, manual, Switches(targonSwitch, true), targon, lium)[klass]
         == if ResolvePerCard(card, targon).1 == OwnCard then 1.1 * card[klass]
            else FloorFor(manual, klass, card[klass])
    ensures Effective(card, manual, Switches(targonSwitch, true), targon, lium)[klass]
         == FloorFor(manual, klass, card[klass])
       <==> ResolvePerCard(card, targon).1 != OwnCard
  {
    assert FloorFor(manual, klass, card[klass]) <= card[klass];
  }

  // ---- owner and reader -------------------------------------------------------------------

  /** What the owner's feed pays after it published `floors` with these switches. */
  function OwnerPay(card: Prices, floors: Prices, flags: Switches, targon: TargonReads, lium: LiumReads): Prices {
    Effective(card, ManualFloors(Some(floors)), flags, targon, lium)
  }

  /** What a reader with the same local card pays after it read the object. */
  function ReaderPay(card: Prices, payload: Json, targon: TargonReads, lium: LiumReads): Prices
    requires Parsed(payload).Some?
  {
    Effective(card, ManualFloors(Parsed(payload).value.floors), Parsed(payload).value.pricing, targon, lium)
  }

  /** A reader takes nothing but floors and switches from the object: its published prices never reach the pay. */
  lemma PublishedPricesIgnored(card: Prices, payload: Json, repriced: Json, targon: TargonReads, lium: LiumReads)
    requires Parsed(payload).Some? && Parsed(repriced).Some?
    requires Field(payload, "floors") == Field(repriced, "floors")
    requires Field(payload, "targon_pricing") == Field(repriced, "targon_pricing")
    requires Field(payload, "lium_pricing") == Field(repriced, "lium_pricing")
    ensures ReaderPay(card, payload, targon, lium) == ReaderPay(card, repriced, targon, lium)
  {
    assert FloorsIn(payload) == FloorsIn(repriced);
    assert PricingIn(payload) == PricingIn(repriced);
    hide FloorsIn, PricingIn, Effective, ManualFloors;
  }

  /** What a reader would pay if it priced with the prices of the object, inside their envelope. */
  function PublishedPay(payload: Json, targon: TargonReads, lium: LiumReads): Prices
    requires Parsed(payload).Some?
  {
    var t := Parsed(payload).value;
    Effective(Clamped(t.card), ManualFloors(t.floors), t.pricing, targon, lium)
  }

  /** Equal pay whatever the feeds answer. */
  ghost predicate PaysAsPublished(card: Prices, payload: Json)
    requires Parsed(payload).Some?
  {
    forall targon, lium :: ReaderPay(card, payload, targon, lium) == PublishedPay(payload, targon, lium)
  }

  const DARK := TargonReads(None, None, None)
  const NO_LIUM := LiumReads(None, None)

  /** With every feed dark a class pays its card price, or 1.10 times it in market mode. */
  lemma DarkPay(card: Prices, manual: Option<Prices>, flags: Switches)
    requires forall k :: k in card ==> card[k] > 0.0
    ensures var pay := Effective(card, manual, flags, DARK, NO_LIUM);
            && (forall k :: k in pay <==> k in card)
            && forall k :: k in card ==> pay[k] == if flags.lium then 1.1 * card[k] else card[k]
  {
    forall k | k in card ensures FloorFor(manual, k, card[k]) <= card[k] {
    }
  }

  /**
   * Readers pay what the published prices would give, whatever the feeds answer, exactly when their local card already
   * is that card.
   */
  lemma PublishedPricesPaidIff(card: Prices, payload: Json)
    requires Parsed(payload).Some? && forall k :: k in card ==> card[k] > 0.0
    ensures PaysAsPublished(card, payload) <==> card == Clamped(Parsed(payload).value.card)
  {
    var t := Parsed(payload).value;
    var published := Clamped(t.card);
    var manual := ManualFloors(t.floors);
    EnvelopeHolds(t.card);
    forall k | k in published ensures published[k] > 0.0 {
      KnownClass(k);
    }
    if PaysAsPublished(card, payload) {
      DarkPay(card, manual, t.pricing);
      DarkPay(published, manual, t.pricing);
      var pay, asPublished := ReaderPay(card, payload, DARK, NO_LIUM), PublishedPay(payload, DARK, NO_LIUM);
      assert pay == asPublished;
      hide Effective, Clamped, Known;
      forall k | k in card ensures k in published && published[k] == card[k] {
        assert k in pay;
      }
      forall k | k in published ensures k in card {
        assert k in asPublished;
      }
      SameEntries(card, published);
    }
  }

  /** A version-one object that prices the H100 alone. */
  function OnePrice(price: real): Json {
    Object(WithField(WithField([], "version", Num(1.0)), "usd_per_gpu_hour", Object([("H100", Num(price))])))
  }

  lemma OneRow(price: real)
    requires price > 0.0
    ensures CardOf([("H100", Num(price))]) == Some(map["H100" := price])
  {
    var table: seq<(string, Json)> := [("H100", Num(price))];
    assert table[..0] == [] && CardOf(table[..0]) == Some(map[]);
    assert Upper("H100") == "H100" && Known("H100");
  }

  lemma OnePriceParses(price: real)
    requires price > 0.0
    ensures Parsed(OnePrice(price)) == Some(Terms(map["H100" := price], None, DEFAULT_PRICING))
    ensures Field(OnePrice(price), "floors") == None
    ensures Field(OnePrice(price), "targon_pricing") == None && Field(OnePrice(price), "lium_pricing") == None
  {
    OneRow(price);
    assert Find([], "floors") == None && Find([], "targon_pricing") == None && Find([], "lium_pricing") == None;
    hide Find, WithField, CardOf;
    assert "H100" in map["H100" := price];
  }

  /**
   * Published at this price for the H100, a reader with the compiled-in card pays 4.00 instead once the feeds are dark.
   */
  lemma OnePriceUnpaid(price: real)
    requires 3.2 <= price <= 5.0
    ensures Parsed(OnePrice(price)).Some?
    ensures "H100" in PublishedPay(OnePrice(price), DARK, NO_LIUM)
    ensures PublishedPay(OnePrice(price), DARK, NO_LIUM)["H100"] == price
    ensures "H100" in ReaderPay(DEFAULT_USD_CARD, OnePrice(price), DARK, NO_LIUM)
    ensures ReaderPay(DEFAULT_USD_CARD, OnePrice(price), DARK, NO_LIUM)["H100"] == 4.0
  {
    OnePriceParses(price);
    var card: Prices := map["H100" := price];
    EnvelopeHolds(card);
    EnvelopeIdempotent(card);
    assert Known("H100") && DEFAULT_USD_CARD["H100"] == 4.0 && Clamped(card)["H100"] == price;
    forall k | k in Clamped(card) ensures Clamped(card)[k] > 0.0 && DEFAULT_USD_CARD[k] > 0.0 {
      KnownClass(k);
    }
    hide OnePrice, Parsed, Effective, Clamped, Known;
    DarkPay(Clamped(card), None, DEFAULT_PRICING);
    DarkPay(DEFAULT_USD_CARD, None, DEFAULT_PRICING);
    assert ManualFloors(None) == None;
  }

  /**
   * The published H100 price a tenth up or a tenth down: the reader's pay does not move, against either published
   * price.
   */
  lemma RepricedObjectIgnored(targon: TargonReads, lium: LiumReads)
    ensures Parsed(OnePrice(4.4)).Some? && Parsed(OnePrice(3.6)).Some?
    ensures ReaderPay(DEFAULT_USD_CARD, OnePrice(4.4), targon, lium)
         == ReaderPay(DEFAULT_USD_CARD, OnePrice(3.6), targon, lium)
    ensures !PaysAsPublished(DEFAULT_USD_CARD, OnePrice(4.4)) && !PaysAsPublished(DEFAULT_USD_CARD, OnePrice(3.6))
  {
    OnePriceParses(4.4);
    OnePriceParses(3.6);
    PublishedPricesIgnored(DEFAULT_USD_CARD, OnePrice(4.4), OnePrice(3.6), targon, lium);
    OnePriceUnpaid(4.4);
    OnePriceUnpaid(3.6);
    hide OnePrice, ReaderPay, PublishedPay, Parsed;
    assert ReaderPay(DEFAULT_USD_CARD, OnePrice(4.4), DARK, NO_LIUM) != PublishedPay(OnePrice(4.4), DARK, NO_LIUM);
    assert ReaderPay(DEFAULT_USD_CARD, OnePrice(3.6), DARK, NO_LIUM) != PublishedPay(OnePrice(3.6), DARK, NO_LIUM);
  }

  /** The floor the owner prices with and the one the reader makes of it cut the class at the same price. */
  ghost predicate SameCut(klass: string, price: real, floor: real)
    requires Known(klass)
  {
    Min(floor, price) == Min(FloorBand(klass, floor), price)
  }

  /** In caller's terms: in band, or out of band with the card price on the harmless side of it. */
  predicate FloorHarmless(klass: string, price: real, floor: real)
    requires Known(klass)
  {
    || FloorInBand(klass, floor)
    || (floor < DEFAULT_USD_CARD[klass] * FLOOR_ENVELOPE_MIN_FRAC && price <= floor)
    || (floor > DEFAULT_USD_CARD[klass] * FLOOR_ENVELOPE_MAX_FRAC
        && price <= DEFAULT_USD_CARD[klass] * FLOOR_ENVELOPE_MAX_FRAC)
  }

  lemma HarmlessIsSameCut(klass: string, price: real, floor: real)
    requires Known(klass)
    ensures FloorHarmless(klass, price, floor) <==> SameCut(klass, price, floor)
  {
    KnownClass(klass);
  }

  /** All floors usable and for known classes: both sides keep every one of them. */
  lemma KeptFloors(floors: Prices)
    requires forall k :: k in floors ==> Known(k) && floors[k] > 0.0
    ensures Positive(floors) == floors && Positive(Trusted(floors)) == Trusted(floors)
    ensures forall k :: k in Trusted(floors) <==> k in floors
  {
    var trusted := Trusted(floors);
    forall k | k in floors ensures k in trusted && trusted[k] > 0.0 {
      KnownClass(k);
    }
    hide Known, FloorBand;
    SameEntries(Positive(floors), floors);
    SameEntries(Positive(trusted), trusted);
  }

  /** The reader's floors are the owner's, each pulled into its band. */
  lemma ReaderFloors(payload: Json, epoch: int, card: Prices, floors: Prices, flags: Switches)
    requires Publishes(payload, epoch, card, Some(floors), flags)
    requires card != map[] && KnownPositive(card) && floors.Keys == card.Keys
    requires forall k :: k in floors ==> floors[k] > 0.0
    ensures Parsed(payload).Some? && Parsed(payload).value.pricing == flags
    ensures ManualFloors(Some(floors)) == Some(floors)
    ensures ManualFloors(Parsed(payload).value.floors) == Some(Trusted(floors))
    ensures forall k :: k in Trusted(floors) <==> k in floors
  {
    ReadBack(payload, epoch, card, Some(floors), flags);
    assert forall k :: k in floors ==> k in card && Known(k);
    KeptFloors(floors);
    var k := SomeKey(card);
    assert k in floors && k in Trusted(floors);
    hide Parsed, Publishes, Known, KnownPositive, Trusted, Positive;
  }

  /** A live price too low to matter for any class. */
  ghost function Pinhole(klass: string, floor: real): TargonReads
    requires Known(klass)
  {
    TargonReads(Some(map[klass := Min(floor, FloorBand(klass, floor)) / 2.0]), None, None)
  }

  lemma CutDecidesPay(klass: string, price: real, floors: Prices, flags: Switches, targon: Prices, lium: Option<Prices>)
    requires Known(klass) && klass in floors && floors[klass] > 0.0 && SameCut(klass, price, floors[klass])
    requires klass in Trusted(floors)
    ensures PayOf(klass, price, Some(floors), flags, targon, lium)
         == PayOf(klass, price, Some(Trusted(floors)), flags, targon, lium)
  {
    KnownClass(klass);
  }

  /** Equal pay whatever the feeds answer. */
  ghost predicate AlwaysAgree(card: Prices, floors: Prices, flags: Switches, payload: Json)
    requires Parsed(payload).Some?
  {
    forall targon, lium :: OwnerPay(card, floors, flags, targon, lium) == ReaderPay(card, payload, targon, lium)
  }

  /** Clamp and market mode look at floors; with both switches off the flat card is paid. */
  predicate UsesFloors(flags: Switches) {
    flags.lium || flags.targon
  }

  /**
   * With equal local cards, a known positive card and equal feed data, owner and reader pay alike, whatever the feeds
   * answer, exactly when the flat card is paid or every published floor is harmless.
   */
  lemma OwnerReaderAgreement(payload: Json, epoch: int, card: Prices, override: Prices, floors: Prices, flags: Switches)
    requires floors == FloorsToPublish(card, override)
    requires Publishes(payload, epoch, card, Some(floors), flags)
    requires card != map[] && KnownPositive(card)
    ensures Parsed(payload).Some?
    ensures AlwaysAgree(card, floors, flags, payload)
       <==> (UsesFloors(flags) ==> forall k :: k in card ==> FloorHarmless(k, card[k], floors[k]))
  {
    assert forall k :: k in floors ==> floors[k] > 0.0;
    ReaderFloors(payload, epoch, card, floors, flags);
    hide Publishes, Parsed, Trusted, ManualFloors, Effective, FloorHarmless, Known;
    if UsesFloors(flags) ==> forall k :: k in card ==> FloorHarmless(k, card[k], floors[k]) {
      forall targon, lium
        ensures OwnerPay(card, floors, flags, targon, lium) == ReaderPay(card, payload, targon, lium)
      {
        Agree(payload, card, floors, flags, targon, lium);
      }
    } else {
      var k :| k in card && !FloorHarmless(k, card[k], floors[k]);
      Disagree(payload, card, floors, flags, k);
      assert OwnerPay(card, floors, flags, Pinhole(k, floors[k]), LiumReads(None, None))
          != ReaderPay(card, payload, Pinhole(k, floors[k]), LiumReads(None, None));
    }
  }

  lemma Agree(payload: Json, card: Prices, floors: Prices, flags: Switches, targon: TargonReads, lium: LiumReads)
    requires Parsed(payload).Some? && Parsed(payload).value.pricing == flags
    requires ManualFloors(Some(floors)) == Some(floors)
    requires ManualFloors(Parsed(payload).value.floors) == Some(Trusted(floors))
    requires forall k :: k in Trusted(floors) <==> k in floors
    requires floors.Keys == card.Keys && KnownPositive(card) && forall k :: k in floors ==> floors[k] > 0.0
    requires UsesFloors(flags) ==> forall k :: k in card ==> FloorHarmless(k, card[k], floors[k])
    ensures OwnerPay(card, floors, flags, targon, lium) == ReaderPay(card, payload, targon, lium)
  {
    var tier, l := ResolvePerCard(card, targon).0, LiumInUse(lium);
    forall k | k in card
      ensures PayOf(k, card[k], Some(floors), flags, tier, l)
           == PayOf(k, card[k], Some(Trusted(floors)), flags, tier, l)
    {
      if UsesFloors(flags) {
        HarmlessIsSameCut(k, card[k], floors[k]);
        CutDecidesPay(k, card[k], floors, flags, tier, l);
      }
    }
    hide PayOf, Trusted;
    SameEntries(OwnerPay(card, floors, flags, targon, lium), ReaderPay(card, payload, targon, lium));
  }

  lemma Disagree(payload: Json, card: Prices, floors: Prices, flags: Switches, k: string)
    requires Parsed(payload).Some? && Parsed(payload).value.pricing == flags && UsesFloors(flags)
    requires ManualFloors(Some(floors)) == Some(floors)
    requires ManualFloors(Parsed(payload).value.floors) == Some(Trusted(floors))
    requires k in floors && k in card && KnownPositive(card) && floors[k] > 0.0 && k in Trusted(floors)
    requires !FloorHarmless(k, card[k], floors[k])
    ensures OwnerPay(card, floors, flags, Pinhole(k, floors[k]), LiumReads(None, None))
         != ReaderPay(card, payload, Pinhole(k, floors[k]), LiumReads(None, None))
  {
    HarmlessIsSameCut(k, card[k], floors[k]);
    KnownClass(k);
    var live := Min(floors[k], FloorBand(k, floors[k])) / 2.0;
    assert ResolvePerCard(card, Pinhole(k, floors[k])).0[k] == live;
    assert 0.0 < live < Min(floors[k], FloorBand(k, floors[k]));
    assert OwnerPay(card, floors, flags, Pinhole(k, floors[k]), LiumReads(None, None))[k]
        != ReaderPay(card, payload, Pinhole(k, floors[k]), LiumReads(None, None))[k];
  }

  /** The owner's default floors are harmless exactly for a local card within two and five thirds of the default. */
  lemma DefaultFloorsHarmless(klass: string, price: real)
    requires Known(klass) && price > 0.0
    ensures FloorHarmless(klass, price, PublisherFloor(klass, price, map[]))
       <==> 2.0 * DEFAULT_USD_CARD[klass] <= 3.0 * price <= 5.0 * DEFAULT_USD_CARD[klass]
  {
    KnownClass(klass);
  }

  /** A local card with a class the program does not know, or a price that is not positive, locks every reader out. */
  lemma UnknownClassLocksReadersOut(payload: Json, epoch: int, card: Prices, floors: Option<Prices>, flags: Switches,
                                    held: Option<Terms>)
    requires Publishes(payload, epoch, card, floors, flags) && !KnownPositive(card)
    ensures ReaderNext(held, CardRead(Fetched(payload))) == held
    ensures MustRefuse(Resolve(Fetched(payload), None).1, true)
  {
    ReadBack(payload, epoch, card, floors, flags);
  }
}
