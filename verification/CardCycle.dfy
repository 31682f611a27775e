/** How a validator comes by the card it prices with: the owner publishes and re-publishes, readers fetch. */
module CardCycle {
  import opened CardLaws
  import opened Json
  import opened PayoutFeed
  import opened Prelude
  import opened PriceCard

  datatype Fetch = Fetched(payload: Json) | FetchFailed

  /** The published terms, if the fetch brought a valid card. */
  function TermsOf(f: Fetch): Option<Terms> {
    match f
    case Fetched(payload) => Parsed(payload)
    case FetchFailed => None
  }

  /** The owner's switches: those published, or the defaults when nothing valid can be read. */
  function PublisherPricing(f: Fetch): Switches {
    match TermsOf(f)
    case Some(t) => t.pricing
    case None => DEFAULT_PRICING
  }

  function PublisherFloor(klass: string, price: real, override: Prices): real {
    if klass in override && override[klass] > 0.0 then override[klass] else price * DEFAULT_FLOOR_FRAC
  }

  function FloorsToPublish(card: Prices, override: Prices): Prices {
    map k | k in card :: PublisherFloor(k, card[k], override)
  }

  method PublisherFloors(card: Prices, override: Prices) returns (floors: Prices)
    ensures floors == FloorsToPublish(card, override)
  {
    floors := map[];
    var rest := card.Keys;
    while rest != {}
      invariant rest <= card.Keys
      invariant forall k :: k in floors <==> k in card && k !in rest
      invariant forall k :: k in floors ==> floors[k] == PublisherFloor(k, card[k], override)
      decreases rest
    {
      var klass := Pick(rest);
      if klass in override && override[klass] > 0.0 {
        floors := floors[klass := override[klass]];
      } else {
        floors := floors[klass := card[klass] * DEFAULT_FLOOR_FRAC];
      }
      rest := rest - {klass};
    }
    SameEntries(floors, FloorsToPublish(card, override));
  }

  /** The published terms with their prices inside the envelope. */
  function Enveloped(t: Terms): Terms {
    t.(card := Clamped(t.card))
  }

  /** `resolve_card`: published, else the previous cycle's terms, else the compiled-in card. */
  function Resolve(f: Fetch, held: Option<Terms>): (Terms, CardSource) {
    match TermsOf(f)
    case Some(t) => (Enveloped(t), Published)
    case None =>
      if held.Some? && held.value.card != map[] then
        (held.value.(floors := if held.value.floors == Some(map[]) then None else held.value.floors), Cache)
      else (Terms(DEFAULT_USD_CARD, None, DEFAULT_PRICING), Default)
  }

  /** The program's own way there: parse, clamp, or fall back. */
  method ResolveCard(f: Fetch, held: Option<Terms>) returns (terms: Terms, source: CardSource)
    ensures (terms, source) == Resolve(f, held)
  {
    var published: Option<Terms> := None;
    if f.Fetched? {
      published := ParsePriceCard(f.payload);
    }
    if published.Some? {
      var card := ClampToEnvelope(published.value.card);
      return published.value.(card := card), Published;
    }
    if held.Some? && held.value.card != map[] {
      return held.value.(floors := if held.value.floors == Some(map[]) then None else held.value.floors), Cache;
    }
    return Terms(DEFAULT_USD_CARD, None, DEFAULT_PRICING), Default;
  }

  /** `require_card` refuses to go on. */
  predicate MustRefuse(source: CardSource, firstCycle: bool) {
    firstCycle && source == Default
  }

  /** What one cycle of a reader meets: no Rancher evidence, or a fetch of the card. */
  datatype CardEvent = EvidenceOutage | CardRead(f: Fetch)

  /** The card memory of a validator and the feed it prices with. */
  class CardHolder {
    var lastCard: Option<Prices>
    var lastFloors: Option<Prices>
    var lastPricing: Switches
    const feed: TargonPayoutFeed

    ghost function Held(): Option<Terms>
      reads this
    {
      match lastCard
      case Some(card) => Some(Terms(card, lastFloors, lastPricing))
      case None => None
    }

    constructor (feed: TargonPayoutFeed)
      ensures Held() == None && this.feed == feed
    {
      lastCard, lastFloors, lastPricing := None, None, DEFAULT_PRICING;
      this.feed := feed;
    }

    /** A reader's cycle up to pricing; `scores` is false where the cycle ends before it. */
    method ReaderCycle(e: CardEvent) returns (scores: bool)
      requires Held().Some? ==> IsEnveloped(Held().value)
      modifies this, feed`manualFloors, feed`pricingFlags
      ensures Held() == ReaderNext(old(Held()), e)
      ensures Held().Some? ==> IsEnveloped(Held().value)
      ensures scores <==> e.CardRead? && Held().Some?
      ensures scores ==>
                feed.manualFloors == ManualFloors(Held().value.floors) && feed.pricingFlags == Held().value.pricing
      ensures !scores ==> feed.manualFloors == old(feed.manualFloors) && feed.pricingFlags == old(feed.pricingFlags)
    {
      if e.EvidenceOutage? {
        return false;
      }
      ReaderStep(Held(), e.f);
      var held := if lastCard.Some? then Some(Terms(lastCard.value, lastFloors, lastPricing)) else None;
      var terms, source := ResolveCard(e.f, held);
      if MustRefuse(source, lastCard.None?) {
        return false;
      }
      Adopt(terms);
      scores := true;
    }

    /** The owner's cycle: read the published switches, publish its own card with them, and price with both. */
    method OwnerCycle(f: Fetch, epoch: int, now: real, floorOverride: Prices) returns (payload: Json)
      requires AllUpper(feed.committed)
      modifies this, feed`manualFloors, feed`pricingFlags
      ensures Held() == Some(Terms(feed.committed, Some(FloorsToPublish(feed.committed, floorOverride)),
                                   PublisherPricing(f)))
      ensures Publishes(payload, epoch, feed.committed, Some(FloorsToPublish(feed.committed, floorOverride)),
                        PublisherPricing(f))
      ensures feed.manualFloors == ManualFloors(Some(FloorsToPublish(feed.committed, floorOverride)))
      ensures feed.pricingFlags == PublisherPricing(f)
    {
      var floors := PublisherFloors(feed.committed, floorOverride);
      FloorsToPublishUpper(feed.committed, floorOverride);
      hide *;
      var pricing := PublisherPricing(f);
      payload := Build(feed.committed, floors, pricing, epoch, now);
      Adopt(Terms(feed.committed, Some(floors), pricing));
    }

    /** Remembers the terms and hands them to the feed. */
    method Adopt(t: Terms)
      requires t.floors.Some? ==> AllUpper(t.floors.value)
      modifies this, feed`manualFloors, feed`pricingFlags
      ensures Held() == Some(t)
      ensures feed.manualFloors == ManualFloors(t.floors) && feed.pricingFlags == t.pricing
    {
      lastCard, lastFloors, lastPricing := Some(t.card), t.floors, t.pricing;
      feed.SetManualFloors(t.floors);
      feed.SetPricingFlags(Some(t.pricing));
    }
  }

  lemma FloorsToPublishUpper(card: Prices, override: Prices)
    requires AllUpper(card)
    ensures AllUpper(FloorsToPublish(card, override))
  {
  }

  /** The owner's object for a card whose classes are in upper case already. */
  method Build(card: Prices, floors: Prices, pricing: Switches, epoch: int, now: real) returns (payload: Json)
    requires AllUpper(card) && AllUpper(floors)
    ensures Publishes(payload, epoch, card, Some(floors), pricing)
  {
    payload := BuildPriceCard(epoch, now, card, Some(floors), Some(pricing));
    ghost var usd, table :| PublishesUpper(payload, epoch, card, Some(floors), pricing, usd, table);
    hide Publishes, AllUpper;
    UpperKeysOfUpper(card, usd);
    UpperKeysOfUpper(floors, table.value);
  }

  // ---- readers over whole runs ------------------------------------------------------------

  function ReaderNext(held: Option<Terms>, e: CardEvent): Option<Terms> {
    match e
    case EvidenceOutage => held
    case CardRead(f) =>
      match TermsOf(f)
      case Some(t) => Some(Enveloped(t))
      case None => held
  }

  function ReaderRun(events: seq<CardEvent>): Option<Terms> {
    if events == [] then None
    else ReaderNext(ReaderRun(events[..|events| - 1]), events[|events| - 1])
  }

  /** Terms a reader may hold: all compiled-in classes within the envelope, floors in band if any. */
  ghost predicate IsEnveloped(t: Terms) {
    && t.card != map[]
    && (forall k :: k in t.card <==> Known(k))
    && (forall k :: Known(k) ==> DEFAULT_USD_CARD[k] * 0.8 <= t.card[k] <= DEFAULT_USD_CARD[k] * 1.25)
    && (t.floors.Some? ==> t.floors.value != map[] && FloorsInBand(t.floors.value))
  }

  lemma EnvelopedTerms(payload: Json)
    requires Parsed(payload).Some?
    ensures IsEnveloped(Enveloped(Parsed(payload).value))
  {
    HostilePayload(payload);
    EnvelopeHolds(Parsed(payload).value.card);
    assert Known("H100");
  }

  lemma FloorsUpper(floors: Prices)
    requires FloorsInBand(floors)
    ensures AllUpper(floors)
  {
    forall k | k in floors ensures UpperCased(k) {
      KnownClass(k);
    }
  }

  /** One fetch: the cycle is refused exactly when nothing is held before it or after it. */
  lemma ReaderStep(held: Option<Terms>, f: Fetch)
    requires held.Some? ==> IsEnveloped(held.value)
    ensures var (terms, source) := Resolve(f, held);
            && (MustRefuse(source, held.None?) <==> ReaderNext(held, CardRead(f)) == None)
            && (!MustRefuse(source, held.None?) ==> ReaderNext(held, CardRead(f)) == Some(terms) && IsEnveloped(terms))
            && (!MustRefuse(source, held.None?) && terms.floors.Some? ==> AllUpper(terms.floors.value))
  {
    if TermsOf(f).Some? {
      EnvelopedTerms(f.payload);
    }
    var (terms, source) := Resolve(f, held);
    if !MustRefuse(source, held.None?) && terms.floors.Some? {
      FloorsUpper(terms.floors.value);
    }
  }

  /** The terms of the last event that fetched a valid card with the evidence at hand. */
  function LastValid(events: seq<CardEvent>): Option<Terms> {
    if events == [] then None
    else
      var e := events[|events| - 1];
      if e.CardRead? && TermsOf(e.f).Some? then TermsOf(e.f) else LastValid(events[..|events| - 1])
  }

  /**
   * A reader holds the enveloped terms of its last valid fetch, and before the first it holds none and cannot score.
   */
  lemma {:induction false} ReaderInvariant(events: seq<CardEvent>)
    ensures ReaderRun(events) == match LastValid(events) { case Some(t) => Some(Enveloped(t)) case None => None }
    ensures ReaderRun(events).Some? ==> IsEnveloped(ReaderRun(events).value)
    ensures ReaderRun(events) == None <==> forall e :: e in events && e.CardRead? ==> TermsOf(e.f) == None
  {
    if events != [] {
      var n := |events| - 1;
      ReaderInvariant(events[..n]);
      assert events == events[..n] + [events[n]];
      if events[n].CardRead? && TermsOf(events[n].f).Some? {
        EnvelopedTerms(events[n].f.payload);
        assert events[n] in events;
      }
    }
  }
}
