/** What survives publication: round trip, envelopes for any payload, and the operator's flip in place. */
module CardLaws {
  import opened Json
  import opened Prelude
  import opened PriceCard

  // ---- reading a published card back ------------------------------------------------------

  /** Only compiled-in classes, only positive prices. */
  ghost predicate KnownPositive(card: Prices) {
    forall k :: k in card ==> Known(k) && card[k] > 0.0
  }

  /** The usable floors of a table, each pulled into its band. */
  ghost function Trusted(floors: Prices): Prices {
    map k | k in floors && Known(k) && floors[k] > 0.0 :: FloorBand(k, floors[k])
  }

  lemma Reinserted<K(!new), V>(m: map<K, V>, k: K)
    requires k in m
    ensures (m - {k})[k := m[k]] == m
  {
  }

  lemma KnownPositiveStep(card: Prices, k: string)
    requires k in card
    ensures KnownPositive(card) <==> KnownPositive(card - {k}) && Known(k) && card[k] > 0.0
  {
    hide Known;
    var rest := card - {k};
    assert forall q :: q in card ==> q == k || (q in rest && rest[q] == card[q]);
  }

  lemma {:induction false} ListedCard(fields: seq<(string, Json)>, card: Prices)
    requires Lists(fields, card) && AllUpper(card)
    ensures CardOf(fields) == if KnownPositive(card) then Some(card) else None
  {
    hide Known, Upper;
    if fields == [] {
      EmptyMap(card);
    } else {
      var n := |fields| - 1;
      var k := fields[n].0;
      ListsPrefix(fields, card);
      ListedCard(fields[..n], card - {k});
      KnownPositiveStep(card, k);
      Reinserted(card, k);
      assert UpperCased(k) && Number(fields[n].1) == Some(card[k]);
      hide KnownPositive, Lists, AllUpper;
    }
  }

  lemma TrustedStep(floors: Prices, k: string)
    requires k in floors
    ensures Trusted(floors) == if Known(k) && floors[k] > 0.0 then Trusted(floors - {k})[k := FloorBand(k, floors[k])]
                               else Trusted(floors - {k})
  {
    hide Known, FloorBand;
    if Known(k) && floors[k] > 0.0 {
      SameEntries(Trusted(floors - {k})[k := FloorBand(k, floors[k])], Trusted(floors));
    } else {
      SameEntries(Trusted(floors - {k}), Trusted(floors));
    }
  }

  lemma {:induction false} ListedFloors(fields: seq<(string, Json)>, floors: Prices)
    requires Lists(fields, floors) && AllUpper(floors)
    ensures FloorsOf(fields) == Trusted(floors)
  {
    hide Known, Upper, FloorBand;
    if fields == [] {
      EmptyMap(floors);
      EmptyMap(Trusted(floors));
    } else {
      var n := |fields| - 1;
      var k := fields[n].0;
      ListsPrefix(fields, floors);
      ListedFloors(fields[..n], floors - {k});
      TrustedStep(floors, k);
      assert UpperCased(k) && Number(fields[n].1) == Some(floors[k]);
      hide Trusted, Lists, AllUpper;
    }
  }

  ghost function TrustedFloors(floors: Option<Prices>): Option<Prices> {
    match floors
    case Some(f) => NonEmpty(Trusted(f))
    case None => None
  }

  lemma FloorsReadBack(payload: Json, epoch: int, card: Prices, floors: Option<Prices>, pricing: Switches)
    requires Publishes(payload, epoch, card, floors, pricing)
    ensures FloorsIn(payload) == TrustedFloors(floors)
  {
    hide Field, FloorsOf, Lists;
    if floors.Some? && floors.value != map[] {
      var table :| Field(payload, "floors") == Some(Object(table)) && Lists(table, floors.value);
      ListedFloors(table, floors.value);
    } else if floors.Some? {
      EmptyMap(Trusted(floors.value));
    }
  }

  lemma PricingReadBack(payload: Json, epoch: int, card: Prices, floors: Option<Prices>, pricing: Switches)
    requires Publishes(payload, epoch, card, floors, pricing)
    ensures PricingIn(payload) == pricing && IsVersionOne(payload) && payload.Object?
  {
    assert payload.Object?;
    hide Field, Lists;
  }

  /** Exactly what a reader makes of a published card. */
  lemma ReadBack(payload: Json, epoch: int, card: Prices, floors: Option<Prices>, pricing: Switches)
    requires Publishes(payload, epoch, card, floors, pricing)
    ensures Parsed(payload)
         == if card != map[] && KnownPositive(card) then Some(Terms(card, TrustedFloors(floors), pricing)) else None
  {
    FloorsReadBack(payload, epoch, card, floors, pricing);
    PricingReadBack(payload, epoch, card, floors, pricing);
    hide Field, CardOf, FloorsIn, PricingIn, IsVersionOne, Lists, TrustedFloors;
    var fields :| Field(payload, "usd_per_gpu_hour") == Some(Object(fields)) && Lists(fields, card);
    ListedCard(fields, card);
  }

  ghost predicate FloorsInBand(floors: Prices) {
    forall k :: k in floors ==> Known(k) && floors[k] > 0.0 && FloorInBand(k, floors[k])
  }

  /** A floor table that is trusted as it stands: there is something in it and all of it is usable and in band. */
  ghost predicate Trustworthy(floors: Option<Prices>) {
    floors.Some? ==> floors.value != map[] && FloorsInBand(floors.value)
  }

  lemma TrustedAsGiven(floors: Prices)
    ensures Trusted(floors) == floors <==> FloorsInBand(floors)
  {
    if FloorsInBand(floors) {
      SameEntries(Trusted(floors), floors);
    }
    if Trusted(floors) == floors {
      forall k | k in floors ensures Known(k) && floors[k] > 0.0 && FloorInBand(k, floors[k]) {
        assert k in Trusted(floors);
        BandEdges(k, floors[k]);
      }
    }
  }

  /**
   * parse(build(card, floors, switches)) gives its inputs back exactly for known positive classes and floors that are
   * absent, or present and in band.
   */
  lemma RoundTrip(payload: Json, epoch: int, card: Prices, floors: Option<Prices>, pricing: Switches)
    requires Publishes(payload, epoch, card, floors, pricing)
    ensures Parsed(payload) == Some(Terms(card, floors, pricing))
         <==> card != map[] && KnownPositive(card) && Trustworthy(floors)
  {
    ReadBack(payload, epoch, card, floors, pricing);
    if floors.Some? {
      TrustedAsGiven(floors.value);
    }
    hide Publishes, Parsed, Trusted, FloorsInBand;
  }

  lemma BandEdges(klass: string, floor: real)
    requires Known(klass)
    ensures FloorInBand(klass, FloorBand(klass, floor))
    ensures FloorInBand(klass, floor) <==> FloorBand(klass, floor) == floor
  {
    KnownClass(klass);
  }

  // ---- any payload whatever ---------------------------------------------------------------

  lemma {:induction false} AcceptedPrices(fields: seq<(string, Json)>)
    ensures CardOf(fields).Some? ==> KnownPositive(CardOf(fields).value)
  {
    if fields != [] {
      AcceptedPrices(fields[..|fields| - 1]);
    }
  }

  lemma {:induction false} AcceptedFloors(fields: seq<(string, Json)>)
    ensures FloorsInBand(FloorsOf(fields))
  {
    if fields != [] {
      var (key, value) := fields[|fields| - 1];
      AcceptedFloors(fields[..|fields| - 1]);
      var klass, floor := Upper(key), Number(value);
      if Known(klass) && floor.Some? {
        KnownClass(klass);
        BandEdges(klass, floor.value);
      }
    }
  }

  /** A card that parses has known positive prices and floors in band, however it was written. */
  lemma HostilePayload(payload: Json)
    requires Parsed(payload).Some?
    ensures var t := Parsed(payload).value;
            && t.card != map[] && KnownPositive(t.card)
            && (t.floors.Some? ==> t.floors.value != map[] && FloorsInBand(t.floors.value))
  {
    AcceptedPrices(Field(payload, "usd_per_gpu_hour").value.fields);
    if Parsed(payload).value.floors.Some? {
      AcceptedFloors(Field(payload, "floors").value.fields);
    }
  }

  /** After the envelope every compiled-in class, and no other, is priced within [0.8, 1.25] of the default. */
  lemma EnvelopeHolds(published: Prices)
    ensures forall k :: k in Clamped(published) <==> Known(k)
    ensures forall k :: Known(k) ==>
              DEFAULT_USD_CARD[k] * 0.8 <= Clamped(published)[k] <= DEFAULT_USD_CARD[k] * 1.25
  {
    forall k | Known(k)
      ensures DEFAULT_USD_CARD[k] * 0.8 <= Clamped(published)[k] <= DEFAULT_USD_CARD[k] * 1.25
    {
      KnownClass(k);
    }
  }

  /** Clamping changes a price only if it is outside the envelope, and clamping twice is clamping once. */
  lemma EnvelopeIdempotent(published: Prices)
    ensures Clamped(Clamped(published)) == Clamped(published)
    ensures forall k :: Known(k) && k in published
                        && DEFAULT_USD_CARD[k] * 0.8 <= published[k] <= DEFAULT_USD_CARD[k] * 1.25 ==>
              Clamped(published)[k] == published[k]
  {
    EnvelopeHolds(published);
    SameEntries(Clamped(Clamped(published)), Clamped(published));
  }

  // ---- the operator's flip ----------------------------------------------------------------

  /** `d[name] = value`: in place where the key exists, at the end where it does not. */
  function Assigned(fields: seq<(string, Json)>, name: string, value: Json): seq<(string, Json)> {
    if fields == [] then [(name, value)]
    else
      var n := |fields| - 1;
      if fields[n].0 == name then fields[..n] + [(name, value)]
      else if Find(fields[..n], name) == None then fields + [(name, value)]
      else Assigned(fields[..n], name, value) + [fields[n]]
  }

  lemma {:induction false} FindAssigned(fields: seq<(string, Json)>, name: string, value: Json, q: string)
    ensures Find(Assigned(fields, name, value), q) == if q == name then Some(value) else Find(fields, q)
  {
    var r := Assigned(fields, name, value);
    if fields != [] {
      var n := |fields| - 1;
      if fields[n].0 == name || Find(fields[..n], name) == None {
        assert r[..|r| - 1] == if fields[n].0 == name then fields[..n] else fields;
      } else {
        assert r[..|r| - 1] == Assigned(fields[..n], name, value);
        FindAssigned(fields[..n], name, value, q);
      }
    }
  }

  /** The script's write: the fetched object with its two switches and its time stamp replaced. */
  function Flipped(payload: Json, desired: Switches, now: real): Json
    requires payload.Object?
  {
    var f0 := Assigned(payload.fields, "targon_pricing", Bool(desired.targon));
    var f1 := Assigned(f0, "lium_pricing", Bool(desired.lium));
    Object(Assigned(f1, "published_at", Num(now)))
  }

  /** Every field but the switches and the time stamp is what it was. */
  lemma FlipReads(payload: Json, desired: Switches, now: real, q: string)
    requires payload.Object?
    ensures Field(Flipped(payload, desired, now), q)
         == if q == "published_at" then Some(Num(now))
            else if q == "lium_pricing" then Some(Bool(desired.lium))
            else if q == "targon_pricing" then Some(Bool(desired.targon))
            else Field(payload, q)
  {
    var f0 := Assigned(payload.fields, "targon_pricing", Bool(desired.targon));
    var f1 := Assigned(f0, "lium_pricing", Bool(desired.lium));
    FindAssigned(payload.fields, "targon_pricing", Bool(desired.targon), q);
    FindAssigned(f0, "lium_pricing", Bool(desired.lium), q);
    FindAssigned(f1, "published_at", Num(now), q);
  }

  /** A flip changes the switches of a valid card and nothing else a reader looks at. */
  lemma FlipKeepsCard(payload: Json, desired: Switches, now: real)
    requires Parsed(payload).Some?
    ensures Parsed(Flipped(payload, desired, now)) == Some(Parsed(payload).value.(pricing := desired))
  {
    FlipReads(payload, desired, now, "version");
    FlipReads(payload, desired, now, "usd_per_gpu_hour");
    FlipReads(payload, desired, now, "floors");
    FlipReads(payload, desired, now, "targon_pricing");
    FlipReads(payload, desired, now, "lium_pricing");
    var flipped := Flipped(payload, desired, now);
    assert Field(flipped, "version") == Field(payload, "version");
    assert Field(flipped, "usd_per_gpu_hour") == Field(payload, "usd_per_gpu_hour");
    assert Field(flipped, "floors") == Field(payload, "floors");
    hide Find, Flipped, CardOf, FloorsOf;
  }
}
