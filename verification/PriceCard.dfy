/** JSON values as the program sees them after `json.loads`. */
module Json {
  import opened Prelude

  /** An object lists its fields in the order they were written. */
  datatype Json =
    | Null
    | Bool(b: bool)
    | Num(x: real)
    | Str(s: string)
    | List(items: seq<Json>)
    | Object(fields: seq<(string, Json)>)

  /** `d.get(name)` over a field list: the last field of that name. */
  function Find(fields: seq<(string, Json)>, name: string): Option<Json> {
    if fields == [] then None
    else if fields[|fields| - 1].0 == name then Some(fields[|fields| - 1].1)
    else Find(fields[..|fields| - 1], name)
  }

  function Field(j: Json, name: string): Option<Json> {
    if j.Object? then Find(j.fields, name) else None
  }

  /** `d[name] = value` for a name not in the dictionary. */
  function WithField(fields: seq<(string, Json)>, name: string, value: Json): (r: seq<(string, Json)>)
    ensures forall q :: Find(r, q) == if q == name then Some(value) else Find(fields, q)
  {
    var r := fields + [(name, value)];
    assert r[..|r| - 1] == fields;
    r
  }

  /** `isinstance(v, (int, float))`, where a Python bool is the number 1 or 0. */
  function Number(j: Json): Option<real> {
    match j
    case Num(x) => Some(x)
    case Bool(b) => Some(if b then 1.0 else 0.0)
    case _ => None
  }

  /** `fields` spells the dictionary `m`, each key once. */
  ghost predicate Lists(fields: seq<(string, Json)>, m: map<string, real>) {
    && (forall i, j :: 0 <= i < j < |fields| ==> fields[i].0 != fields[j].0)
    && (forall i :: 0 <= i < |fields| ==> fields[i].0 in m && fields[i].1 == Num(m[fields[i].0]))
    && (forall k :: k in m ==> exists i :: 0 <= i < |fields| && fields[i].0 == k)
  }

  lemma ListsPrefix(fields: seq<(string, Json)>, m: map<string, real>)
    requires Lists(fields, m) && fields != []
    ensures Lists(fields[..|fields| - 1], m - {fields[|fields| - 1].0})
  {
    var n := |fields| - 1;
    forall k | k in m - {fields[n].0} ensures exists i :: 0 <= i < n && fields[..n][i].0 == k {
      var i :| 0 <= i < |fields| && fields[i].0 == k;
      assert fields[..n][i].0 == k;
    }
  }

  /** Writes a dictionary out as fields. */
  method FieldsOf(m: map<string, real>) returns (fields: seq<(string, Json)>)
    ensures Lists(fields, m)
  {
    fields := [];
    var rest := m.Keys;
    while rest != {}
      invariant rest <= m.Keys
      invariant forall i :: 0 <= i < |fields| ==>
          fields[i].0 in m && fields[i].0 !in rest && fields[i].1 == Num(m[fields[i].0])
      invariant forall i, j :: 0 <= i < j < |fields| ==> fields[i].0 != fields[j].0
      invariant forall k :: k in m && k !in rest ==> exists i :: 0 <= i < |fields| && fields[i].0 == k
      decreases rest
    {
      var k := Pick(rest);
      ghost var before := fields;
      fields := fields + [(k, Num(m[k]))];
      forall q | q in m && q !in rest - {k} ensures exists i :: 0 <= i < |fields| && fields[i].0 == q {
        if q == k {
          assert fields[|before|].0 == q;
        } else {
          var i :| 0 <= i < |before| && before[i].0 == q;
          assert fields[i].0 == q;
        }
      }
      rest := rest - {k};
    }
  }
}

/**
 The published price card: what the owner writes, what a reader accepts of it, and the two
 envelopes that bound it.
 */
module PriceCard {
  import opened Json
  import opened Prelude

  type Prices = map<string, real>

  /** The compiled-in card, the trust root. */
  const DEFAULT_USD_CARD: Prices :=
    map["H100" := 4.0, "H200" := 5.5, "B200" := 8.0, "B300" := 10.0, "RTX6000" := 2.5]

  const CARD_ENVELOPE_MIN_FRAC := 0.8
  const CARD_ENVELOPE_MAX_FRAC := 1.25
  const FLOOR_ENVELOPE_MIN_FRAC := 0.5
  const FLOOR_ENVELOPE_MAX_FRAC := 1.25

  datatype Switches = Switches(targon: bool, lium: bool)

  const DEFAULT_PRICING := Switches(true, false)

  /** What a card tells a reader: prices, floors if it has any, and the pricing switches. */
  datatype Terms = Terms(card: Prices, floors: Option<Prices>, pricing: Switches)

  datatype CardSource = Published | Cache | Default

  // ---- known classes ----------------------------------------------------------------------

  predicate Known(klass: string) {
    klass in DEFAULT_USD_CARD
  }

  predicate UpperCased(klass: string) {
    Upper(klass) == klass
  }

  lemma KnownClass(klass: string)
    requires Known(klass)
    ensures DEFAULT_USD_CARD[klass] > 0.0 && UpperCased(klass)
  {
  }

  lemma UpperTwice(s: string)
    ensures UpperCased(Upper(s))
  {
  }

  // ---- envelopes --------------------------------------------------------------------------

  function CardBand(klass: string, price: real): (p: real)
    requires Known(klass)
  {
    var default := DEFAULT_USD_CARD[klass];
    Min(default * CARD_ENVELOPE_MAX_FRAC, Max(default * CARD_ENVELOPE_MIN_FRAC, price))
  }

  function FloorBand(klass: string, floor: real): (f: real)
    requires Known(klass)
  {
    var default := DEFAULT_USD_CARD[klass];
    Min(default * FLOOR_ENVELOPE_MAX_FRAC, Max(default * FLOOR_ENVELOPE_MIN_FRAC, floor))
  }

  predicate FloorInBand(klass: string, floor: real)
    requires Known(klass)
  {
    DEFAULT_USD_CARD[klass] * FLOOR_ENVELOPE_MIN_FRAC <= floor <= DEFAULT_USD_CARD[klass] * FLOOR_ENVELOPE_MAX_FRAC
  }

  /** The envelope clamp over every compiled-in class; a class the card omits keeps the compiled-in price. */
  function Clamped(published: Prices): (effective: Prices) {
    map klass | klass in DEFAULT_USD_CARD :: CardBand(klass, Get(published, klass, DEFAULT_USD_CARD[klass]))
  }

  method ClampToEnvelope(published: Prices) returns (effective: Prices)
    ensures effective == Clamped(published)
  {
    effective := map[];
    var rest := DEFAULT_USD_CARD.Keys;
    while rest != {}
      invariant rest <= DEFAULT_USD_CARD.Keys
      invariant forall k :: k in effective <==> Known(k) && k !in rest
      invariant forall k :: k in effective ==> effective[k] == CardBand(k, Get(published, k, DEFAULT_USD_CARD[k]))
      decreases rest
    {
      var klass := Pick(rest);
      var default := DEFAULT_USD_CARD[klass];
      var lo := default * CARD_ENVELOPE_MIN_FRAC;
      var hi := default * CARD_ENVELOPE_MAX_FRAC;
      var proposed := Get(published, klass, default);
      effective := effective[klass := Min(hi, Max(lo, proposed))];
      rest := rest - {klass};
    }
    SameEntries(effective, Clamped(published));
  }

  // ---- parsing ----------------------------------------------------------------------------

  /** The price table: one unknown class or one unusable price rejects it whole. */
  function CardOf(fields: seq<(string, Json)>): Option<Prices> {
    if fields == [] then Some(map[])
    else
      var (key, value) := fields[|fields| - 1];
      var before := CardOf(fields[..|fields| - 1]);
      var klass, price := Upper(key), Number(value);
      if before.Some? && Known(klass) && price.Some? && price.value > 0.0
      then Some(before.value[klass := price.value])
      else None
  }

  /** The floor table: an unusable floor is dropped by itself, a usable one is pulled into its band. */
  function FloorsOf(fields: seq<(string, Json)>): Prices {
    if fields == [] then map[]
    else
      var (key, value) := fields[|fields| - 1];
      var before := FloorsOf(fields[..|fields| - 1]);
      var klass, floor := Upper(key), Number(value);
      if Known(klass) && floor.Some? && floor.value > 0.0
      then before[klass := FloorBand(klass, floor.value)]
      else before
  }

  function NonEmpty(floors: Prices): Option<Prices> {
    if floors == map[] then None else Some(floors)
  }

  function FloorsIn(payload: Json): Option<Prices> {
    match Field(payload, "floors")
    case Some(Object(fields)) => NonEmpty(FloorsOf(fields))
    case _ => None
  }

  function SwitchIn(payload: Json, name: string, default: bool): bool {
    match Field(payload, name)
    case Some(Bool(b)) => b
    case _ => default
  }

  function PricingIn(payload: Json): Switches {
    Switches(SwitchIn(payload, "targon_pricing", DEFAULT_PRICING.targon),
             SwitchIn(payload, "lium_pricing", DEFAULT_PRICING.lium))
  }

  /** `payload.get("version") == 1`: the number one, or a true, since Python's True equals 1. */
  predicate IsVersionOne(payload: Json) {
    match Field(payload, "version")
    case Some(v) => Number(v) == Some(1.0)
    case None => false
  }

  function Parsed(payload: Json): Option<Terms> {
    if !payload.Object? || !IsVersionOne(payload) then None
    else
      match Field(payload, "usd_per_gpu_hour")
      case Some(Object(fields)) =>
        var card := CardOf(fields);
        if card.None? || card.value == map[] then None
        else Some(Terms(card.value, FloorsIn(payload), PricingIn(payload)))
      case _ => None
  }

  lemma CardOfStep(fields: seq<(string, Json)>, i: nat)
    requires i < |fields|
    ensures fields[..i + 1][..i] == fields[..i]
    ensures CardOf(fields[..i]).None? ==> CardOf(fields[..i + 1]).None?
  {
  }

  lemma {:induction false} CardOfRejected(fields: seq<(string, Json)>, i: nat)
    requires i <= |fields| && CardOf(fields[..i]).None?
    ensures CardOf(fields).None?
    decreases |fields| - i
  {
    if i < |fields| {
      CardOfStep(fields, i);
      CardOfRejected(fields, i + 1);
    } else {
      assert fields[..i] == fields;
    }
  }

  method FloorsFromPayload(payload: Json) returns (floors: Option<Prices>)
    ensures floors == FloorsIn(payload)
  {
    var raw := Field(payload, "floors");
    if raw.None? || !raw.value.Object? || raw.value.fields == [] {
      return None;
    }
    var fields := raw.value.fields;
    var table: Prices := map[];
    for i := 0 to |fields|
      invariant table == FloorsOf(fields[..i])
    {
      assert fields[..i + 1][..i] == fields[..i];
      var (key, value) := fields[i];
      var klass := Upper(key);
      if klass in DEFAULT_USD_CARD {
        var floor := Number(value);
        if floor.Some? && floor.value > 0.0 {
          var lo := DEFAULT_USD_CARD[klass] * FLOOR_ENVELOPE_MIN_FRAC;
          var hi := DEFAULT_USD_CARD[klass] * FLOOR_ENVELOPE_MAX_FRAC;
          table := table[klass := Min(hi, Max(lo, floor.value))];
        }
      }
    }
    assert fields[..|fields|] == fields;
    floors := if table == map[] then None else Some(table);
  }

  method ParsePriceCard(payload: Json) returns (terms: Option<Terms>)
    ensures terms == Parsed(payload)
  {
    if !payload.Object? || !IsVersionOne(payload) {
      return None;
    }
    var card := Field(payload, "usd_per_gpu_hour");
    if card.None? || !card.value.Object? {
      return None;
    }
    var fields := card.value.fields;
    var out: Prices := map[];
    for i := 0 to |fields|
      invariant CardOf(fields[..i]) == Some(out)
    {
      CardOfStep(fields, i);
      var (key, value) := fields[i];
      var klass := Upper(key);
      if klass !in DEFAULT_USD_CARD {
        CardOfRejected(fields, i + 1);
        return None;
      }
      var price := Number(value);
      if price.None? || price.value <= 0.0 {
        CardOfRejected(fields, i + 1);
        return None;
      }
      out := out[klass := price.value];
    }
    assert fields[..|fields|] == fields;
    if out == map[] {
      return None;
    }
    var floors := FloorsFromPayload(payload);
    terms := Some(Terms(out, floors, PricingIn(payload)));
  }

  // ---- building ---------------------------------------------------------------------------

  ghost predicate AllUpper(m: Prices) {
    forall k :: k in m ==> UpperCased(k)
  }

  /** `n` is `{k.upper(): v for k, v in m.items()}`, whichever entry came last where two keys collide. */
  ghost predicate UpperKeyed(m: Prices, n: Prices) {
    && AllUpper(n)
    && (forall k :: k in m ==> Upper(k) in n)
    && (forall u :: u in n ==> exists k :: k in m && Upper(k) == u && m[k] == n[u])
  }

  method UpperKeys(m: Prices) returns (n: Prices)
    ensures UpperKeyed(m, n)
  {
    n := map[];
    var rest := m.Keys;
    while rest != {}
      invariant rest <= m.Keys && AllUpper(n)
      invariant forall k :: k in m && k !in rest ==> Upper(k) in n
      invariant forall u :: u in n ==> exists k :: k in m && Upper(k) == u && m[k] == n[u]
      decreases rest
    {
      var k := Pick(rest);
      UpperTwice(k);
      n := n[Upper(k) := m[k]];
      rest := rest - {k};
    }
  }

  lemma UpperKeysOfUpper(m: Prices, n: Prices)
    requires UpperKeyed(m, n) && AllUpper(m)
    ensures n == m
  {
    forall k | k in n ensures k in m && m[k] == n[k] {
      var q :| q in m && Upper(q) == k && m[q] == n[k];
      assert q == k;
    }
    SameEntries(n, m);
  }

  /** The object `build_price_card` produces, as far as any reader looks at it. */
  ghost predicate Publishes(payload: Json, epoch: int, card: Prices, floors: Option<Prices>, pricing: Switches) {
    && payload.Object?
    && Field(payload, "epoch") == Some(Num(epoch as real))
    && Field(payload, "version") == Some(Num(1.0))
    && AllUpper(card)
    && (exists fields :: Field(payload, "usd_per_gpu_hour") == Some(Object(fields)) && Lists(fields, card))
    && (if floors.Some? && floors.value != map[] then
          && AllUpper(floors.value)
          && exists fields :: Field(payload, "floors") == Some(Object(fields)) && Lists(fields, floors.value)
        else Field(payload, "floors") == None)
    && Field(payload, "targon_pricing") == Some(Bool(pricing.targon))
    && Field(payload, "lium_pricing") == Some(Bool(pricing.lium))
  }

  /** The fields up to the version. */
  function HeadFields(epoch: int, now: real, usd: seq<(string, Json)>): seq<(string, Json)> {
    var f0 := WithField([], "epoch", Num(epoch as real));
    var f1 := WithField(f0, "published_at", Num(now));
    var f2 := WithField(f1, "usd_per_gpu_hour", Object(usd));
    WithField(f2, "version", Num(1.0))
  }

  /** The fields of the published object, in the order they are set. */
  function CardFields(epoch: int, now: real, usd: seq<(string, Json)>, floors: Option<seq<(string, Json)>>, s: Switches)
    : seq<(string, Json)>
  {
    var f3 := HeadFields(epoch, now, usd);
    var f4 := if floors.Some? then WithField(f3, "floors", Object(floors.value)) else f3;
    var f5 := WithField(f4, "targon_pricing", Bool(s.targon));
    WithField(f5, "lium_pricing", Bool(s.lium))
  }

  lemma HeadFieldsRead(epoch: int, now: real, usd: seq<(string, Json)>)
    ensures var head := HeadFields(epoch, now, usd);
            && Find(head, "epoch") == Some(Num(epoch as real))
            && Find(head, "published_at") == Some(Num(now))
            && Find(head, "version") == Some(Num(1.0))
            && Find(head, "usd_per_gpu_hour") == Some(Object(usd))
            && Find(head, "floors") == None
  {
    assert Find([], "floors") == None;
    hide Find, WithField;
  }

  lemma CardFieldsRead(epoch: int, now: real, usd: seq<(string, Json)>, floors: Option<seq<(string, Json)>>,
                       s: Switches)
    ensures var payload := Object(CardFields(epoch, now, usd, floors, s));
            && Field(payload, "epoch") == Some(Num(epoch as real))
            && Field(payload, "published_at") == Some(Num(now))
            && Field(payload, "version") == Some(Num(1.0))
            && Field(payload, "usd_per_gpu_hour") == Some(Object(usd))
            && Field(payload, "floors") == (if floors.Some? then Some(Object(floors.value)) else None)
            && Field(payload, "targon_pricing") == Some(Bool(s.targon))
            && Field(payload, "lium_pricing") == Some(Bool(s.lium))
  {
    HeadFieldsRead(epoch, now, usd);
    hide Find, WithField, HeadFields;
  }

  /** Fields made from the two tables publish them. */
  lemma FieldsPublish(epoch: int, now: real, card: Prices, usd: seq<(string, Json)>, table: Option<Prices>,
                      floors: Option<seq<(string, Json)>>, s: Switches)
    requires AllUpper(card) && Lists(usd, card)
    requires floors.Some? <==> table.Some? && table.value != map[]
    requires floors.Some? ==> AllUpper(table.value) && Lists(floors.value, table.value)
    ensures Publishes(Object(CardFields(epoch, now, usd, floors, s)), epoch, card, table, s)
    ensures Field(Object(CardFields(epoch, now, usd, floors, s)), "published_at") == Some(Num(now))
  {
    CardFieldsRead(epoch, now, usd, floors, s);
    hide Field, CardFields, Lists, AllUpper;
  }

  /** The object publishes both dictionaries with their keys in upper case, here `card` and `table`. */
  ghost predicate PublishesUpper(payload: Json, epoch: int, usd: Prices, floors: Option<Prices>, pricing: Switches,
                                 card: Prices, table: Option<Prices>) {
    && UpperKeyed(usd, card)
    && (floors.Some? <==> table.Some?)
    && (floors.Some? ==> UpperKeyed(floors.value, table.value))
    && Publishes(payload, epoch, card, table, pricing)
  }

  method BuildPriceCard(epoch: int, now: real, usd: Prices, floors: Option<Prices>, pricing: Option<Switches>)
    returns (payload: Json)
    ensures exists card, table :: PublishesUpper(payload, epoch, usd, floors, pricing.GetOr(DEFAULT_PRICING), card,
                                                 table)
    ensures Field(payload, "published_at") == Some(Num(now))
  {
    var prices := UpperKeys(usd);
    var usdFields := FieldsOf(prices);
    ghost var table: Option<Prices> := None;
    var floorFields: Option<seq<(string, Json)>> := None;
    if floors.Some? {
      var floorTable := UpperKeys(floors.value);
      table := Some(floorTable);
      if floors.value != map[] {
        ghost var k := SomeKey(floors.value);
        var fields := FieldsOf(floorTable);
        floorFields := Some(fields);
      } else {
        EmptyMap(floorTable);
      }
    }
    var switches := pricing.GetOr(DEFAULT_PRICING);
    payload := Object(CardFields(epoch, now, usdFields, floorFields, switches));
    hide Publishes, CardFields, Lists;
    FieldsPublish(epoch, now, prices, usdFields, table, floorFields, switches);
    assert PublishesUpper(payload, epoch, usd, floors, switches, prices, table);
  }
}
