/**
 What a reader takes from an object, field by field: the whole of the parser, the envelope and the resolution over the
 written fields and plain numbers.
 */
module ParseLaws {
  import opened CardCycle
  import opened Json
  import opened Prelude
  import opened PriceCard

  // ---- fields and names -------------------------------------------------------------------

  /** `d.get(name)`: the last field of that name decides. */
  lemma {:induction false} FindIff(fields: seq<(string, Json)>, name: string)
    ensures Find(fields, name) == None <==> forall i :: 0 <= i < |fields| ==> fields[i].0 != name
    ensures forall i :: 0 <= i < |fields| && fields[i].0 == name
                        && (forall j :: i < j < |fields| ==> fields[j].0 != name) ==>
              Find(fields, name) == Some(fields[i].1)
  {
    if fields != [] {
      var n := |fields| - 1;
      FindIff(fields[..n], name);
      if fields[n].0 != name {
        assert forall i :: 0 <= i < n ==> fields[..n][i] == fields[i];
      }
    }
  }

  /** Upper case letter by letter; everything but the 26 letters stays. */
  lemma UpperIs(s: string)
    ensures |Upper(s)| == |s|
    ensures forall i :: 0 <= i < |s| ==>
              if 'a' <= s[i] <= 'z' then Upper(s)[i] as int == s[i] as int - 32 else Upper(s)[i] == s[i]
  {
  }

  // ---- one entry of a table ---------------------------------------------------------------

  /** The compiled-in price of the five known classes. */
  ghost predicate CompiledIn(klass: string, price: real) {
    || (klass == "H100" && price == 4.0) || (klass == "H200" && price == 5.5) || (klass == "B200" && price == 8.0)
    || (klass == "B300" && price == 10.0) || (klass == "RTX6000" && price == 2.5)
  }

  lemma KnownIff(klass: string, price: real)
    ensures Known(klass) && DEFAULT_USD_CARD[klass] == price <==> CompiledIn(klass, price)
  {
  }

  /** The entry gives a known class, in any case of letters, a positive number; a true is the number one. */
  ghost predicate Gives(field: (string, Json), klass: string, amount: real) {
    && Upper(field.0) == klass && (exists price :: CompiledIn(klass, price)) && amount > 0.0
    && (field.1 == Num(amount) || (field.1 == Bool(true) && amount == 1.0))
  }

  /** The last entry that gives the class anything gives this. */
  ghost predicate LastGives(fields: seq<(string, Json)>, klass: string, amount: real) {
    exists i :: && 0 <= i < |fields| && Gives(fields[i], klass, amount)
                && forall j, x :: i < j < |fields| ==> !Gives(fields[j], klass, x)
  }

  lemma GivesIff(field: (string, Json), klass: string, amount: real)
    ensures Gives(field, klass, amount) <==>
              klass == Upper(field.0) && Known(klass) && Number(field.1) == Some(amount) && amount > 0.0
  {
    if Known(klass) {
      KnownIff(klass, DEFAULT_USD_CARD[klass]);
    }
    if price :| CompiledIn(klass, price) {
      KnownIff(klass, price);
    }
    hide Known, CompiledIn, Upper;
  }

  lemma LastGivesStep(fields: seq<(string, Json)>, klass: string, amount: real)
    requires fields != []
    ensures var n := |fields| - 1;
            LastGives(fields, klass, amount) <==>
              || Gives(fields[n], klass, amount)
              || ((forall x :: !Gives(fields[n], klass, x)) && LastGives(fields[..n], klass, amount))
  {
    hide Gives;
    var n := |fields| - 1;
    if LastGives(fields, klass, amount) && !Gives(fields[n], klass, amount) {
      var i :| && 0 <= i < |fields| && Gives(fields[i], klass, amount)
               && forall j, x :: i < j < |fields| ==> !Gives(fields[j], klass, x);
      assert fields[..n][i] == fields[i];
    }
    if LastGives(fields[..n], klass, amount) && forall x :: !Gives(fields[n], klass, x) {
      var i :| && 0 <= i < n && Gives(fields[..n][i], klass, amount)
               && forall j, x :: i < j < n ==> !Gives(fields[..n][j], klass, x);
      assert Gives(fields[i], klass, amount);
      assert forall j :: i < j < n ==> fields[j] == fields[..n][j];
    }
  }

  // ---- the two tables ---------------------------------------------------------------------

  ghost predicate GivesSomething(field: (string, Json)) {
    exists klass, x :: Gives(field, klass, x)
  }

  /** The price table is read exactly if every single entry gives something, and then the last one of a class counts. */
  lemma {:induction false} CardIff(fields: seq<(string, Json)>)
    ensures CardOf(fields).Some? <==> forall i :: 0 <= i < |fields| ==> GivesSomething(fields[i])
    ensures CardOf(fields).Some? ==>
              forall klass, x ::
                klass in CardOf(fields).value && CardOf(fields).value[klass] == x <==> LastGives(fields, klass, x)
  {
    if fields != [] {
      var n := |fields| - 1;
      CardIff(fields[..n]);
      assert fields == fields[..n] + [fields[n]];
      UsableIff(fields[n]);
      if CardOf(fields).Some? {
        forall klass, x
          ensures klass in CardOf(fields).value && CardOf(fields).value[klass] == x <==> LastGives(fields, klass, x)
        {
          LastGivesStep(fields, klass, x);
          forall y ensures Gives(fields[n], klass, y) <==>
                             klass == Upper(fields[n].0) && Number(fields[n].1) == Some(y)
          {
            GivesIff(fields[n], klass, y);
          }
          hide LastGives, Gives, Known, Upper;
        }
      }
    }
  }

  lemma UsableIff(field: (string, Json))
    ensures GivesSomething(field) <==>
              Known(Upper(field.0)) && Number(field.1).Some? && Number(field.1).value > 0.0
  {
    if Number(field.1).Some? {
      GivesIff(field, Upper(field.0), Number(field.1).value);
    }
    if klass, x :| Gives(field, klass, x) {
      GivesIff(field, klass, x);
    }
    hide Gives, Known, Upper, Number;
  }

  /** The point of `[lo, hi]` nearest to `x`. */
  ghost predicate Nearest(lo: real, hi: real, x: real, p: real) {
    (x <= lo && p == lo) || (x >= hi && p == hi) || (lo <= x <= hi && p == x)
  }

  /** `floor` is what is trusted of `x`: within half and five quarters of the compiled-in price. */
  ghost predicate FloorTaken(klass: string, x: real, floor: real) {
    exists price :: CompiledIn(klass, price) && Nearest(0.5 * price, 1.25 * price, x, floor)
  }

  lemma FloorTakenIff(klass: string, x: real, floor: real)
    requires Known(klass)
    ensures FloorTaken(klass, x, floor) <==> FloorBand(klass, x) == floor
  {
    KnownClass(klass);
    KnownIff(klass, DEFAULT_USD_CARD[klass]);
    if FloorTaken(klass, x, floor) {
      var price :| CompiledIn(klass, price) && Nearest(0.5 * price, 1.25 * price, x, floor);
      KnownIff(klass, price);
    }
    hide CompiledIn, Known;
    if FloorBand(klass, x) == floor {
      var price := DEFAULT_USD_CARD[klass];
      assert CompiledIn(klass, price) && Nearest(0.5 * price, 1.25 * price, x, floor);
    }
  }

  /** The table's floor of a class: what is trusted of the last entry that gives it anything. */
  ghost predicate GivesFloor(fields: seq<(string, Json)>, klass: string, floor: real) {
    exists x :: LastGives(fields, klass, x) && FloorTaken(klass, x, floor)
  }

  /** What the last entry gives the class, if anything. */
  ghost predicate GivesNothing(field: (string, Json), klass: string) {
    forall x :: !Gives(field, klass, x)
  }

  lemma FloorsOfStep(fields: seq<(string, Json)>, klass: string, x: real)
    requires fields != []
    ensures var n := |fields| - 1;
            && (Gives(fields[n], klass, x) ==>
                  klass in FloorsOf(fields) && FloorTaken(klass, x, FloorsOf(fields)[klass]))
            && (GivesNothing(fields[n], klass) ==>
                  Lookup(FloorsOf(fields), klass) == Lookup(FloorsOf(fields[..n]), klass))
  {
    var field := fields[|fields| - 1];
    GivesIff(field, klass, x);
    if Number(field.1).Some? {
      GivesIff(field, klass, Number(field.1).value);
    }
    if Gives(field, klass, x) {
      FloorTakenIff(klass, x, FloorBand(klass, x));
    }
    hide Gives, FloorTaken, FloorBand, Known, Upper, Number;
  }

  lemma GivesFloorStep(fields: seq<(string, Json)>, klass: string, floor: real, x: real)
    requires fields != []
    ensures var n := |fields| - 1;
            && (Gives(fields[n], klass, x) ==> (GivesFloor(fields, klass, floor) <==> FloorTaken(klass, x, floor)))
            && (GivesNothing(fields[n], klass) ==>
                  (GivesFloor(fields, klass, floor) <==> GivesFloor(fields[..n], klass, floor)))
  {
    var n := |fields| - 1;
    forall y ensures LastGives(fields, klass, y) <==>
                       || Gives(fields[n], klass, y)
                       || (GivesNothing(fields[n], klass) && LastGives(fields[..n], klass, y))
    {
      LastGivesStep(fields, klass, y);
    }
    forall y | Gives(fields[n], klass, x) && Gives(fields[n], klass, y) ensures x == y {
      GivesIff(fields[n], klass, x);
      GivesIff(fields[n], klass, y);
    }
    hide LastGives, Gives, FloorTaken;
  }

  lemma OneFloor(klass: string, x: real, a: real, b: real)
    requires FloorTaken(klass, x, a) && FloorTaken(klass, x, b)
    ensures a == b
  {
  }

  /** An entry of the floor table that gives nothing is passed over; the others count by themselves. */
  lemma {:induction false} FloorsIff(fields: seq<(string, Json)>, klass: string, floor: real)
    ensures klass in FloorsOf(fields) && FloorsOf(fields)[klass] == floor <==> GivesFloor(fields, klass, floor)
  {
    if fields != [] {
      hide LastGives, Gives, GivesFloor, FloorTaken, FloorsOf, GivesNothing;
      var n := |fields| - 1;
      FloorsIff(fields[..n], klass, floor);
      var x := SomeGiven(fields[n], klass);
      FloorsOfStep(fields, klass, x);
      GivesFloorStep(fields, klass, floor, x);
      if Gives(fields[n], klass, x) && FloorTaken(klass, x, floor) {
        OneFloor(klass, x, floor, FloorsOf(fields)[klass]);
      }
    }
  }

  lemma SomeGiven(field: (string, Json), klass: string) returns (x: real)
    ensures Gives(field, klass, x) || GivesNothing(field, klass)
  {
    hide Gives;
    if y :| Gives(field, klass, y) {
      x := y;
    } else {
      x := 0.0;
    }
  }

  // ---- the whole parser -------------------------------------------------------------------

  ghost predicate ReadsTable(fields: seq<(string, Json)>, card: Prices) {
    && fields != [] && (forall i :: 0 <= i < |fields| ==> GivesSomething(fields[i]))
    && forall klass, x :: klass in card && card[klass] == x <==> LastGives(fields, klass, x)
  }

  ghost predicate ReadsFloors(fields: seq<(string, Json)>, floors: Option<Prices>) {
    && (floors == None <==> forall i :: 0 <= i < |fields| ==> !GivesSomething(fields[i]))
    && (floors.Some? ==>
          forall klass, floor ::
            klass in floors.value && floors.value[klass] == floor <==> GivesFloor(fields, klass, floor))
  }

  /** A switch is taken from a boolean only; anything else is the default. */
  ghost predicate ReadsSwitch(field: Option<Json>, default: bool, value: bool) {
    field == Some(Bool(value)) || (value == default && field != Some(Bool(true)) && field != Some(Bool(false)))
  }

  /** What the object says, field by field. */
  ghost predicate Says(payload: Json, t: Terms) {
    && payload.Object?
    && (Field(payload, "version") == Some(Num(1.0)) || Field(payload, "version") == Some(Bool(true)))
    && (match Field(payload, "usd_per_gpu_hour")
        case Some(Object(fields)) => ReadsTable(fields, t.card)
        case _ => false)
    && (match Field(payload, "floors")
        case Some(Object(fields)) => ReadsFloors(fields, t.floors)
        case _ => t.floors == None)
    && ReadsSwitch(Field(payload, "targon_pricing"), true, t.pricing.targon)
    && ReadsSwitch(Field(payload, "lium_pricing"), false, t.pricing.lium)
  }

  lemma TableIff(fields: seq<(string, Json)>, card: Prices)
    ensures CardOf(fields) == Some(card) && card != map[] <==> ReadsTable(fields, card)
  {
    CardIff(fields);
    hide LastGives, GivesSomething;
    if CardOf(fields) == Some(card) && card != map[] {
      assert fields != [];
    }
    if ReadsTable(fields, card) {
      var read := CardOf(fields).value;
      forall k | k in read ensures k in card && card[k] == read[k] {
        assert LastGives(fields, k, read[k]);
      }
      forall k | k in card ensures k in read {
        assert LastGives(fields, k, card[k]);
      }
      SameEntries(read, card);
      LastField(fields);
    }
  }

  /** A table of which every entry is read is not empty when read. */
  lemma LastField(fields: seq<(string, Json)>)
    requires fields != [] && CardOf(fields).Some?
    ensures CardOf(fields).value != map[]
  {
    assert Upper(fields[|fields| - 1].0) in CardOf(fields).value;
  }

  lemma {:induction false} NothingUsable(fields: seq<(string, Json)>)
    ensures FloorsOf(fields) == map[] <==> forall i :: 0 <= i < |fields| ==> !GivesSomething(fields[i])
  {
    hide GivesSomething, Known, Upper, FloorBand;
    if fields != [] {
      var n := |fields| - 1;
      NothingUsable(fields[..n]);
      UsableIff(fields[n]);
      assert fields == fields[..n] + [fields[n]];
      assert GivesSomething(fields[n]) ==> Upper(fields[n].0) in FloorsOf(fields);
    }
  }

  lemma FloorTableIff(fields: seq<(string, Json)>, floors: Option<Prices>)
    ensures NonEmpty(FloorsOf(fields)) == floors <==> ReadsFloors(fields, floors)
  {
    NothingUsable(fields);
    var read := FloorsOf(fields);
    forall klass, floor ensures klass in read && read[klass] == floor <==> GivesFloor(fields, klass, floor) {
      FloorsIff(fields, klass, floor);
    }
    hide GivesFloor, GivesSomething, FloorsOf;
    if ReadsFloors(fields, floors) && floors.Some? {
      var other := floors.value;
      forall k | k in read ensures k in other && other[k] == read[k] {
        assert GivesFloor(fields, k, read[k]);
      }
      forall k | k in other ensures k in read {
        assert GivesFloor(fields, k, other[k]);
      }
      SameEntries(read, other);
    }
  }

  /** The parser accepts an object exactly with the terms it says. */
  lemma ParsedIff(payload: Json, t: Terms)
    ensures Parsed(payload) == Some(t) <==> Says(payload, t)
  {
    match Field(payload, "usd_per_gpu_hour") {
      case Some(Object(fields)) => TableIff(fields, t.card);
      case _ =>
    }
    match Field(payload, "floors") {
      case Some(Object(fields)) => FloorTableIff(fields, t.floors);
      case _ =>
    }
    hide ReadsTable, ReadsFloors, CardOf, FloorsOf, Field;
  }

  // ---- the envelope, and what a cycle goes on with ----------------------------------------

  /** The price a reader pays by for a class: within four and five fifths of the compiled-in one, or that itself. */
  ghost predicate PriceTaken(published: Prices, klass: string, p: real) {
    exists price :: && CompiledIn(klass, price)
                    && (klass in published ==> Nearest(0.8 * price, 1.25 * price, published[klass], p))
                    && (klass !in published ==> p == price)
  }

  lemma ClampedIff(published: Prices, klass: string, p: real)
    ensures klass in Clamped(published) && Clamped(published)[klass] == p <==> PriceTaken(published, klass, p)
  {
    if Known(klass) {
      KnownClass(klass);
      KnownIff(klass, DEFAULT_USD_CARD[klass]);
    }
    if PriceTaken(published, klass, p) {
      var price :| && CompiledIn(klass, price)
                   && (klass in published ==> Nearest(0.8 * price, 1.25 * price, published[klass], p))
                   && (klass !in published ==> p == price);
      KnownIff(klass, price);
    }
    hide CompiledIn, Known;
    if klass in Clamped(published) && Clamped(published)[klass] == p {
      assert CompiledIn(klass, DEFAULT_USD_CARD[klass]);
    }
  }

  /** 100 dollars for an H100 and a cent for a B200 are paid as 5.00 and 6.40, the other classes as compiled in. */
  lemma EnvelopeWitness()
    ensures Clamped(map["H100" := 100.0, "B200" := 0.01])
         == map["H100" := 5.0, "H200" := 5.5, "B200" := 6.4, "B300" := 10.0, "RTX6000" := 2.5]
  {
    var published: Prices := map["H100" := 100.0, "B200" := 0.01];
    var effective: Prices := map["H100" := 5.0, "H200" := 5.5, "B200" := 6.4, "B300" := 10.0, "RTX6000" := 2.5];
    forall k | k in effective ensures k in Clamped(published) && Clamped(published)[k] == effective[k] {
      ClampedIff(published, k, effective[k]);
      assert exists price :: CompiledIn(k, price);
      var price :| CompiledIn(k, price);
      assert CompiledIn(k, price) && PriceTaken(published, k, effective[k]);
    }
    forall k | k in Clamped(published) ensures k in effective {
      KnownIff(k, DEFAULT_USD_CARD[k]);
    }
    SameEntries(Clamped(published), effective);
  }

  /** A published floor: a positive override, else three quarters of the price. */
  lemma PublishedFloorIff(card: Prices, override: Prices, klass: string, floor: real)
    ensures klass in FloorsToPublish(card, override) && FloorsToPublish(card, override)[klass] == floor <==>
              && klass in card
              && if klass in override && override[klass] > 0.0 then floor == override[klass]
                 else 4.0 * floor == 3.0 * card[klass]
  {
  }

  /** What an owner's object says: its epoch, version one, each price and each floor once, and both switches. */
  lemma PublishedIs(payload: Json, epoch: int, card: Prices, floors: Option<Prices>, pricing: Switches)
    requires Publishes(payload, epoch, card, floors, pricing)
    ensures payload.Object? && Field(payload, "epoch") == Some(Num(epoch as real))
    ensures Field(payload, "version") == Some(Num(1.0))
    ensures Field(payload, "targon_pricing") == Some(Bool(pricing.targon))
    ensures Field(payload, "lium_pricing") == Some(Bool(pricing.lium))
    ensures exists table :: Field(payload, "usd_per_gpu_hour") == Some(Object(table)) && Spells(table, card)
    ensures floors.Some? && floors.value != map[] ==>
              exists table :: Field(payload, "floors") == Some(Object(table)) && Spells(table, floors.value)
    ensures floors == None || floors == Some(map[]) ==> Field(payload, "floors") == None
  {
    hide Field, Spells;
    var usd :| Field(payload, "usd_per_gpu_hour") == Some(Object(usd)) && Lists(usd, card);
    ListsSpells(usd, card);
    if floors.Some? && floors.value != map[] {
      var table :| Field(payload, "floors") == Some(Object(table)) && Lists(table, floors.value);
      ListsSpells(table, floors.value);
    }
  }

  /** Each entry of the table is a field, and no field is anything else or comes twice. */
  ghost predicate Spells(fields: seq<(string, Json)>, m: Prices) {
    && (forall k :: k in m ==> (k, Num(m[k])) in fields)
    && (forall f :: f in fields ==> exists k :: k in m && f == (k, Num(m[k])))
    && (forall i, j :: 0 <= i < j < |fields| ==> fields[i] != fields[j])
  }

  lemma ListsSpells(fields: seq<(string, Json)>, m: Prices)
    requires Lists(fields, m)
    ensures Spells(fields, m)
  {
    forall k | k in m ensures (k, Num(m[k])) in fields {
      var i :| 0 <= i < |fields| && fields[i].0 == k;
      assert fields[i] == (k, Num(m[k]));
    }
    forall f | f in fields ensures exists k :: k in m && f == (k, Num(m[k])) {
      var i :| 0 <= i < |fields| && fields[i] == f;
      assert f.0 in m && f == (f.0, Num(m[f.0]));
    }
  }

  /** What a valid object is worth to a reader: its own floors and switches, its prices within the envelope. */
  ghost predicate Adopted(t: Terms, terms: Terms) {
    && terms.floors == t.floors && terms.pricing == t.pricing
    && forall klass, p :: klass in terms.card && terms.card[klass] == p <==> PriceTaken(t.card, klass, p)
  }

  /** The object's own terms, then the ones held, then the compiled-in card without floors and with targon on alone. */
  lemma ResolveIs(f: Fetch, held: Option<Terms>)
    ensures var (terms, source) := Resolve(f, held);
            && (forall t :: f.Fetched? && Says(f.payload, t) ==>
                  source == Published && Adopted(t, terms) && ReaderNext(held, CardRead(f)) == Some(terms)
                  && PublisherPricing(f) == t.pricing)
            && ((forall t :: f.Fetched? ==> !Says(f.payload, t)) ==>
                  && ReaderNext(held, CardRead(f)) == held && PublisherPricing(f) == Switches(true, false)
                  && (held.Some? && held.value.card != map[] ==>
                        source == Cache && terms.card == held.value.card && terms.pricing == held.value.pricing)
                  && (held == None || held.value.card == map[] ==>
                        source == Default && terms == Terms(DEFAULT_USD_CARD, None, Switches(true, false))))
  {
    var (terms, source) := Resolve(f, held);
    if f.Fetched? {
      forall t ensures Parsed(f.payload) == Some(t) <==> Says(f.payload, t) {
        ParsedIff(f.payload, t);
      }
    }
    hide Says, Parsed, Clamped, PriceTaken;
    if TermsOf(f).Some? {
      assert Says(f.payload, TermsOf(f).value);
      forall klass, p ensures klass in terms.card && terms.card[klass] == p
                              <==> PriceTaken(TermsOf(f).value.card, klass, p)
      {
        ClampedIff(TermsOf(f).value.card, klass, p);
      }
    }
  }
}
