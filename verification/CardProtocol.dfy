/**
 The one stored card object and everybody who touches it: the owner validator's read-then-put, the operator's
 get-flip-put script, and readers.  Steps interleave freely; the theorems say which interleavings keep a flip.
 */
module CardProtocol {
  import opened CardCycle
  import opened CardLaws
  import opened Json
  import opened Prelude
  import opened PriceCard

  /** What the operator asks for on the command line. */
  datatype Flip = Flip(targon: Option<bool>, lium: Option<bool>)

  function Desired(flip: Flip, s: Switches): Switches {
    Switches(flip.targon.GetOr(s.targon), flip.lium.GetOr(s.lium))
  }

  /** The owner validator between its read and its put. */
  datatype OwnerPc = OwnerIdle | OwnerHasRead(pricing: Switches)

  /** The script between its get and its put, holding the fetched object. */
  datatype ScriptPc = ScriptIdle | ScriptHolds(copy: Json, flip: Flip, desired: Switches)

  datatype World = World(stored: Json, owner: OwnerPc, script: ScriptPc, readers: seq<Option<Terms>>)

  datatype Step =
    | OwnerReads(ok: bool)
    | OwnerPuts(ok: bool, payload: Json, epoch: int, card: Prices, floors: Option<Prices>)
    | ScriptGets(ok: bool, flip: Flip)
    | ScriptPuts(ok: bool, now: real)
    | ReaderReads(reader: nat, ok: bool)

  function FetchOf(w: World, ok: bool): Fetch {
    if ok then Fetched(w.stored) else FetchFailed
  }

  ghost predicate Enabled(w: World, s: Step) {
    match s
    case OwnerReads(_) => w.owner.OwnerIdle?
    case OwnerPuts(_, payload, epoch, card, floors) =>
      w.owner.OwnerHasRead? && Publishes(payload, epoch, card, floors, w.owner.pricing)
    case ScriptGets(_, _) => w.script.ScriptIdle?
    case ScriptPuts(_, _) => w.script.ScriptHolds?
    case ReaderReads(i, _) => i < |w.readers|
  }

  /** The script after its get: it gives up on a bad card and writes nothing where nothing changes. */
  function AfterGet(f: Fetch, flip: Flip): ScriptPc {
    match TermsOf(f)
    case Some(t) =>
      var desired := Desired(flip, t.pricing);
      if desired == t.pricing then ScriptIdle else ScriptHolds(f.payload, flip, desired)
    case None => ScriptIdle
  }

  function After(w: World, s: Step): World {
    match s
    case OwnerReads(ok) => w.(owner := OwnerHasRead(PublisherPricing(FetchOf(w, ok))))
    case OwnerPuts(ok, payload, _, _, _) => w.(owner := OwnerIdle, stored := if ok then payload else w.stored)
    case ScriptGets(ok, flip) => w.(script := AfterGet(FetchOf(w, ok), flip))
    case ScriptPuts(ok, now) =>
      if w.script.ScriptHolds? && w.script.copy.Object?
      then w.(script := ScriptIdle, stored := if ok then Flipped(w.script.copy, w.script.desired, now) else w.stored)
      else w
    case ReaderReads(i, ok) =>
      if i < |w.readers| then w.(readers := w.readers[i := ReaderNext(w.readers[i], CardRead(FetchOf(w, ok)))]) else w
  }

  /** Every option that is given is already what is stored. */
  ghost predicate Satisfied(flip: Flip, s: Switches) {
    (flip.targon == None || flip.targon == Some(s.targon)) && (flip.lium == None || flip.lium == Some(s.lium))
  }

  /** Each switch is its own option where that is given, and what it was where it is not. */
  ghost predicate Wanted(flip: Flip, s: Switches, wanted: Switches) {
    && wanted.targon == (if flip.targon.Some? then flip.targon.value else s.targon)
    && wanted.lium == (if flip.lium.Some? then flip.lium.value else s.lium)
  }

  /** The object written is the stored one but for the two switches, as wanted, and the time stamp. */
  ghost predicate WritesFlip(stored: Json, terms: Option<Terms>, flip: Flip, now: real, written: Json) {
    && terms.Some?
    && (exists wanted :: && Wanted(flip, terms.value.pricing, wanted)
                         && Field(written, "targon_pricing") == Some(Bool(wanted.targon))
                         && Field(written, "lium_pricing") == Some(Bool(wanted.lium)))
    && Field(written, "published_at") == Some(Num(now))
    && (forall q :: q != "targon_pricing" && q != "lium_pricing" && q != "published_at" ==>
          Field(written, q) == Field(stored, q))
  }

  /** The script by its options: it holds nothing exactly for a bad card or options that are met already. */
  lemma ScriptWrites(stored: Json, flip: Flip, now: real)
    ensures var pc := AfterGet(Fetched(stored), flip);
            && (pc.ScriptIdle? <==> Parsed(stored) == None || Satisfied(flip, Parsed(stored).value.pricing))
            && (pc.ScriptHolds? ==> && pc.copy == stored && Wanted(flip, Parsed(stored).value.pricing, pc.desired)
                                    && WritesFlip(stored, Parsed(stored), flip, now, Flipped(pc.copy, pc.desired, now)))
  {
    var pc := AfterGet(Fetched(stored), flip);
    if pc.ScriptHolds? {
      FlipReads(stored, pc.desired, now, "targon_pricing");
      FlipReads(stored, pc.desired, now, "lium_pricing");
      FlipReads(stored, pc.desired, now, "published_at");
      forall q | q != "targon_pricing" && q != "lium_pricing" && q != "published_at"
        ensures Field(Flipped(stored, pc.desired, now), q) == Field(stored, q)
      {
        FlipReads(stored, pc.desired, now, q);
      }
      hide Flipped, Field, Parsed;
      assert Wanted(flip, Parsed(stored).value.pricing, pc.desired);
    }
  }

  /** The script as it runs: fetch, mutate the fetched object's switches in place, write it back. */
  method RunScript(stored: Json, flip: Flip, now: real) returns (written: Option<Json>)
    ensures match AfterGet(Fetched(stored), flip)
            case ScriptIdle => written == None
            case ScriptHolds(copy, _, desired) => written == Some(Flipped(copy, desired, now))
    ensures Parsed(stored) == None ==> written == None
    ensures Parsed(stored).Some? ==> (written == None <==> Satisfied(flip, Parsed(stored).value.pricing))
    ensures written.Some? ==> WritesFlip(stored, Parsed(stored), flip, now, written.value)
  {
    ScriptWrites(stored, flip, now);
    var parsed := ParsePriceCard(stored);
    if parsed.None? {
      return None;
    }
    var desired := parsed.value.pricing;
    if flip.targon.Some? {
      desired := desired.(targon := flip.targon.value);
    }
    if flip.lium.Some? {
      desired := desired.(lium := flip.lium.value);
    }
    if desired == parsed.value.pricing {
      return None;
    }
    var card := stored.fields;
    card := Assigned(card, "targon_pricing", Bool(desired.targon));
    card := Assigned(card, "lium_pricing", Bool(desired.lium));
    card := Assigned(card, "published_at", Num(now));
    written := Some(Object(card));
  }

  // ---- the atomic register ----------------------------------------------------------------

  /**
   * What the object means if every put acts at once: the owner sets the card, a flip acts on the switches of the
   * moment.
   */
  ghost function Atomic(t: Terms, w: World, s: Step): Terms {
    match s
    case OwnerPuts(true, _, _, card, floors) => Terms(card, TrustedFloors(floors), t.pricing)
    case ScriptPuts(true, _) =>
      if w.script.ScriptHolds? then t.(pricing := Desired(w.script.flip, t.pricing)) else t
    case _ => t
  }

  /**
   * No get..put overlaps a read..put of the other party, owner reads succeed, and the owner's card is one readers
   * accept.
   */
  ghost predicate Orderly(w: World, s: Step) {
    && Enabled(w, s)
    && match s
       case OwnerReads(ok) => ok && w.script.ScriptIdle?
       case OwnerPuts(_, _, _, card, _) => card != map[] && KnownPositive(card)
       case ScriptGets(_, _) => w.owner.OwnerIdle?
       case _ => true
  }

  /** The stored object means the register, and nobody is about to write from anything older. */
  ghost predicate InStep(w: World, t: Terms) {
    && Parsed(w.stored) == Some(t)
    && (w.owner.OwnerHasRead? ==> w.owner.pricing == t.pricing && w.script.ScriptIdle?)
    && (w.script.ScriptHolds? ==>
          Parsed(w.script.copy) == Some(t) && w.script.desired == Desired(w.script.flip, t.pricing))
  }

  lemma StepKeeps(w: World, t: Terms, s: Step)
    requires InStep(w, t) && Orderly(w, s)
    ensures InStep(After(w, s), Atomic(t, w, s))
  {
    match s
    case OwnerPuts(ok, payload, epoch, card, floors) =>
      ReadBack(payload, epoch, card, floors, w.owner.pricing);
    case ScriptPuts(ok, now) =>
      FlipKeepsCard(w.script.copy, w.script.desired, now);
    case _ =>
  }

  function WorldAfter(w: World, steps: seq<Step>): World {
    if steps == [] then w else After(WorldAfter(w, steps[..|steps| - 1]), steps[|steps| - 1])
  }

  ghost function RegisterAfter(t: Terms, w: World, steps: seq<Step>): Terms {
    if steps == [] then t
    else
      var n := |steps| - 1;
      Atomic(RegisterAfter(t, w, steps[..n]), WorldAfter(w, steps[..n]), steps[n])
  }

  ghost predicate EnabledRun(w: World, steps: seq<Step>) {
    forall i :: 0 <= i < |steps| ==> Enabled(WorldAfter(w, steps[..i]), steps[i])
  }

  ghost predicate OrderlyRun(w: World, steps: seq<Step>) {
    forall i :: 0 <= i < |steps| ==> Orderly(WorldAfter(w, steps[..i]), steps[i])
  }

  /** One more step of the run, as the two recursions see it. */
  lemma RunMoves(w: World, t: Terms, steps: seq<Step>)
    requires steps != [] && OrderlyRun(w, steps)
    ensures var n := |steps| - 1;
            && WorldAfter(w, steps) == After(WorldAfter(w, steps[..n]), steps[n])
            && RegisterAfter(t, w, steps)
                == Atomic(RegisterAfter(t, w, steps[..n]), WorldAfter(w, steps[..n]), steps[n])
            && Orderly(WorldAfter(w, steps[..n]), steps[n])
  {
    hide After, Atomic, Orderly;
  }

  lemma OrderlyPrefix(w: World, steps: seq<Step>, n: nat)
    requires n <= |steps| && OrderlyRun(w, steps)
    ensures OrderlyRun(w, steps[..n])
  {
    forall i | 0 <= i < n ensures Orderly(WorldAfter(w, steps[..n][..i]), steps[..n][i]) {
      assert steps[..n][..i] == steps[..i];
    }
  }

  /**
   * Over every orderly interleaving the stored object means the atomic register: its switches are those of the last
   * flip, its prices and floors those of the owner's last put.
   */
  lemma {:induction false} StoredIsRegister(w: World, t: Terms, steps: seq<Step>)
    requires InStep(w, t) && OrderlyRun(w, steps)
    ensures InStep(WorldAfter(w, steps), RegisterAfter(t, w, steps))
    ensures Parsed(WorldAfter(w, steps).stored) == Some(RegisterAfter(t, w, steps))
    decreases |steps|
  {
    if steps == [] {
      hide Parsed, OrderlyRun;
    } else {
      hide *;
      var n := |steps| - 1;
      OrderlyPrefix(w, steps, n);
      StoredIsRegister(w, t, steps[..n]);
      RunMoves(w, t, steps);
      StepKeeps(WorldAfter(w, steps[..n]), RegisterAfter(t, w, steps[..n]), steps[n]);
      InStepMeans(WorldAfter(w, steps), RegisterAfter(t, w, steps));
    }
  }

  lemma InStepMeans(w: World, t: Terms)
    requires InStep(w, t)
    ensures Parsed(w.stored) == Some(t)
  {
    hide Parsed;
  }

  /** A reader holds the switches of the register. */
  ghost predicate Holds(w: World, reader: nat, pricing: Switches) {
    reader < |w.readers| && w.readers[reader].Some? && w.readers[reader].value.pricing == pricing
  }

  lemma ReadAdopts(w: World, t: Terms, reader: nat)
    requires InStep(w, t) && Orderly(w, ReaderReads(reader, true))
    ensures var s := ReaderReads(reader, true);
            Holds(After(w, s), reader, Atomic(t, w, s).pricing)
  {
  }

  lemma HoldingKept(w: World, t: Terms, s: Step, reader: nat)
    requires InStep(w, t) && Orderly(w, s) && Holds(w, reader, t.pricing)
    requires s.ScriptPuts? ==> !s.ok
    ensures Holds(After(w, s), reader, Atomic(t, w, s).pricing)
  {
  }

  /** Once it has read after the last flip, a reader holds that flip's switches from then on, failed reads included. */
  lemma {:induction false} ReaderAdopts(w: World, t: Terms, steps: seq<Step>, k: nat, reader: nat)
    requires InStep(w, t) && OrderlyRun(w, steps)
    requires k < |steps| && steps[k] == ReaderReads(reader, true)
    requires forall i :: k < i < |steps| && steps[i].ScriptPuts? ==> !steps[i].ok
    ensures Holds(WorldAfter(w, steps), reader, RegisterAfter(t, w, steps).pricing)
    decreases |steps|
  {
    hide *;
    var n := |steps| - 1;
    RunMoves(w, t, steps);
    OrderlyPrefix(w, steps, n);
    StoredIsRegister(w, t, steps[..n]);
    var v, r := WorldAfter(w, steps[..n]), RegisterAfter(t, w, steps[..n]);
    if k == n {
      ReadAdopts(v, r, reader);
    } else {
      ReaderAdopts(w, t, steps[..n], k, reader);
      HoldingKept(v, r, steps[n], reader);
    }
  }

  // ---- how a flip is lost -----------------------------------------------------------------

  /** The four steps of a flip that lands inside the owner's read..put. */
  function FlipInsideOwner(flip: Flip, now: real, payload: Json, epoch: int, card: Prices,
                           floors: Option<Prices>): seq<Step>
  {
    [OwnerReads(true), ScriptGets(true, flip), ScriptPuts(true, now), OwnerPuts(true, payload, epoch, card, floors)]
  }

  /** Such a flip is undone, whatever it asked for: the switches are again what they were before it. */
  lemma OverlapLosesFlip(w: World, t: Terms, flip: Flip, now: real, payload: Json, epoch: int, card: Prices,
                         floors: Option<Prices>)
    requires InStep(w, t) && w.owner.OwnerIdle? && w.script.ScriptIdle?
    requires Desired(flip, t.pricing) != t.pricing
    requires card != map[] && KnownPositive(card) && Publishes(payload, epoch, card, floors, t.pricing)
    ensures var steps := FlipInsideOwner(flip, now, payload, epoch, card, floors);
            && EnabledRun(w, steps)
            && Parsed(WorldAfter(w, steps[..3]).stored).Some?
            && Parsed(WorldAfter(w, steps[..3]).stored).value.pricing == Desired(flip, t.pricing)
            && Parsed(WorldAfter(w, steps).stored).Some?
            && Parsed(WorldAfter(w, steps).stored).value.pricing == t.pricing
  {
    var steps := FlipInsideOwner(flip, now, payload, epoch, card, floors);
    FlipInside(w, t, flip, now, payload, epoch, card, floors);
    hide Parsed, After, Enabled, EnabledRun, WorldAfter, KnownPositive, InStep, Desired, Publishes;
    Prefixes(w, steps[0], steps[1], steps[2], steps[3]);
  }

  /** The same, step by step. */
  lemma FlipInside(w: World, t: Terms, flip: Flip, now: real, payload: Json, epoch: int, card: Prices,
                   floors: Option<Prices>)
    requires InStep(w, t) && w.owner.OwnerIdle? && w.script.ScriptIdle?
    requires Desired(flip, t.pricing) != t.pricing
    requires card != map[] && KnownPositive(card) && Publishes(payload, epoch, card, floors, t.pricing)
    ensures var steps := FlipInsideOwner(flip, now, payload, epoch, card, floors);
            var w1 := After(w, steps[0]);
            var w2 := After(w1, steps[1]);
            var w3 := After(w2, steps[2]);
            var w4 := After(w3, steps[3]);
            && Enabled(w, steps[0]) && Enabled(w1, steps[1]) && Enabled(w2, steps[2]) && Enabled(w3, steps[3])
            && Parsed(w3.stored).Some? && Parsed(w3.stored).value.pricing == Desired(flip, t.pricing)
            && Parsed(w4.stored).Some? && Parsed(w4.stored).value.pricing == t.pricing
  {
    var w1 := After(w, OwnerReads(true));
    assert w1.owner == OwnerHasRead(t.pricing) && w1.stored == w.stored && w1.script == w.script;
    FlipLands(w1, t, flip, now);
    ReadBack(payload, epoch, card, floors, t.pricing);
    hide Parsed, Publishes, KnownPositive, TrustedFloors, Desired, InStep;
  }

  /** A get and a put of the script with nothing between. */
  lemma FlipLands(w: World, t: Terms, flip: Flip, now: real)
    requires Parsed(w.stored) == Some(t) && w.script.ScriptIdle? && Desired(flip, t.pricing) != t.pricing
    ensures var w2 := After(w, ScriptGets(true, flip));
            var w3 := After(w2, ScriptPuts(true, now));
            && Enabled(w, ScriptGets(true, flip)) && Enabled(w2, ScriptPuts(true, now))
            && Parsed(w3.stored) == Some(t.(pricing := Desired(flip, t.pricing)))
            && w3.owner == w.owner && w3.script.ScriptIdle?
  {
    assert w.stored.Object?;
    hide Parsed, Flipped, Desired;
    FlipKeepsCard(w.stored, Desired(flip, t.pricing), now);
  }

  lemma Prefixes(w: World, a: Step, b: Step, c: Step, d: Step)
    ensures var steps := [a, b, c, d];
            && WorldAfter(w, steps[..3]) == After(After(After(w, a), b), c)
            && WorldAfter(w, steps) == After(After(After(After(w, a), b), c), d)
    ensures (&& Enabled(w, a) && Enabled(After(w, a), b) && Enabled(After(After(w, a), b), c)
             && Enabled(After(After(After(w, a), b), c), d)) ==>
              EnabledRun(w, [a, b, c, d])
  {
    hide After, Enabled;
    var steps := [a, b, c, d];
    assert steps[..0] == [] && WorldAfter(w, steps[..0]) == w;
    OneMore(w, steps, 0);
    OneMore(w, steps, 1);
    OneMore(w, steps, 2);
    OneMore(w, steps, 3);
    assert steps[..4] == steps;
  }

  lemma OneMore(w: World, steps: seq<Step>, i: nat)
    requires i < |steps|
    ensures WorldAfter(w, steps[..i + 1]) == After(WorldAfter(w, steps[..i]), steps[i])
  {
    assert steps[..i + 1][..i] == steps[..i];
  }

  /** An owner read that fails before a put that succeeds keeps the switches exactly if they were the defaults. */
  lemma FailedReadResetsSwitches(w: World, t: Terms, payload: Json, epoch: int, card: Prices, floors: Option<Prices>)
    requires InStep(w, t) && w.owner.OwnerIdle?
    requires card != map[] && KnownPositive(card) && Publishes(payload, epoch, card, floors, DEFAULT_PRICING)
    ensures var w1 := After(w, OwnerReads(false));
            var put := OwnerPuts(true, payload, epoch, card, floors);
            && Enabled(w, OwnerReads(false)) && Enabled(w1, put)
            && Parsed(After(w1, put).stored).Some?
            && Parsed(After(w1, put).stored).value.pricing == DEFAULT_PRICING
            && (Parsed(After(w1, put).stored).value.pricing == t.pricing <==> t.pricing == DEFAULT_PRICING)
  {
    ReadBack(payload, epoch, card, floors, DEFAULT_PRICING);
  }

  /** An owner put inside the script's get..put keeps the flip but loses the owner's new prices and floors. */
  lemma OverlapRevertsOwnerCard(w: World, t: Terms, flip: Flip, now: real, payload: Json, epoch: int, card: Prices,
                                floors: Option<Prices>)
    requires InStep(w, t) && w.owner.OwnerIdle? && w.script.ScriptIdle?
    requires Desired(flip, t.pricing) != t.pricing
    requires Publishes(payload, epoch, card, floors, t.pricing)
    ensures var w1 := After(w, ScriptGets(true, flip));
            var w2 := After(w1, OwnerReads(true));
            var w3 := After(w2, OwnerPuts(true, payload, epoch, card, floors));
            && Enabled(w, ScriptGets(true, flip)) && Enabled(w1, OwnerReads(true))
            && Enabled(w2, OwnerPuts(true, payload, epoch, card, floors)) && Enabled(w3, ScriptPuts(true, now))
            && Parsed(After(w3, ScriptPuts(true, now)).stored) == Some(t.(pricing := Desired(flip, t.pricing)))
  {
    FlipKeepsCard(w.stored, Desired(flip, t.pricing), now);
    hide Parsed;
  }

  /** With targon on and lium off stored, `--lium on` leaves both on. */
  lemma LiumOnWitness(w: World, t: Terms, now: real)
    requires InStep(w, t) && w.script.ScriptIdle? && t.pricing == Switches(true, false)
    ensures var put := After(After(w, ScriptGets(true, Flip(None, Some(true)))), ScriptPuts(true, now));
            Parsed(put.stored) == Some(t.(pricing := Switches(true, true)))
  {
    var flip := Flip(None, Some(true));
    FlipLands(w, t, flip, now);
    ScriptWrites(w.stored, flip, now);
    hide Parsed, Flipped;
  }

  // ---- exactly when a flip survives -------------------------------------------------------

  /** The switches of the stored object, which a reader takes over if it accepts the card. */
  function StoredSwitches(w: World): Switches {
    PricingIn(w.stored)
  }

  /** The script holds nothing, or a valid card. */
  ghost predicate ScriptSound(w: World) {
    w.script.ScriptHolds? ==> Parsed(w.script.copy).Some?
  }

  /** One owner put keeps the stored switches exactly when it carries them. */
  lemma PutWritesItsSwitches(w: World, s: Step)
    requires s.OwnerPuts? && s.ok && Enabled(w, s)
    ensures StoredSwitches(After(w, s)) == w.owner.pricing
  {
    PricingReadBack(s.payload, s.epoch, s.card, s.floors, w.owner.pricing);
    hide PricingIn, Publishes;
  }

  lemma FlipWritesItsSwitches(w: World, s: Step)
    requires s.ScriptPuts? && s.ok && Enabled(w, s) && ScriptSound(w)
    ensures StoredSwitches(After(w, s)) == w.script.desired
  {
    FlipReads(w.script.copy, w.script.desired, s.now, "targon_pricing");
    FlipReads(w.script.copy, w.script.desired, s.now, "lium_pricing");
    hide Flipped, Field;
  }

  lemma SoundStep(v: World, s: Step)
    requires ScriptSound(v)
    ensures ScriptSound(After(v, s))
  {
    hide Parsed, Flipped;
  }

  lemma {:induction false} SoundAlways(w: World, steps: seq<Step>, n: nat)
    requires ScriptSound(w) && n <= |steps|
    ensures ScriptSound(WorldAfter(w, steps[..n]))
    decreases n
  {
    if n == 0 {
      assert steps[..0] == [];
      hide ScriptSound;
    } else {
      hide *;
      SoundAlways(w, steps, n - 1);
      OneMore(w, steps, n - 1);
      SoundStep(WorldAfter(w, steps[..n - 1]), steps[n - 1]);
    }
  }

  /**
   * Before the `n`-th step, the switches the owner holds (if it holds any) come from a read up to step `k`, or from one
   * that failed or found no valid card.
   */
  ghost predicate HoldsOld(w: World, steps: seq<Step>, k: nat, n: nat)
    requires n <= |steps|
  {
    if n <= k + 1 then true
    else
      match steps[n - 1]
      case OwnerReads(ok) => TermsOf(FetchOf(WorldAfter(w, steps[..n - 1]), ok)) == None
      case _ => HoldsOld(w, steps, k, n - 1)
  }

  /** The switches the owner writes if it puts now. */
  function HeldSwitches(w: World): Switches {
    if w.owner.OwnerHasRead? then w.owner.pricing else DEFAULT_PRICING
  }

  /**
   * What the last successful put after step `k`, among the first `n` steps, of such old switches wrote; `None` without
   * one.
   */
  ghost function LastOldPut(w: World, steps: seq<Step>, k: nat, n: nat): Option<Switches>
    requires n <= |steps|
  {
    if n <= k + 1 then None
    else if steps[n - 1].OwnerPuts? && steps[n - 1].ok && HoldsOld(w, steps, k, n - 1) then
      Some(HeldSwitches(WorldAfter(w, steps[..n - 1])))
    else LastOldPut(w, steps, k, n - 1)
  }

  ghost predicate NoFlipAfter(steps: seq<Step>, k: nat) {
    forall i :: k < i < |steps| && steps[i].ScriptPuts? ==> !steps[i].ok
  }

  /** The step is a flip that is written. */
  ghost predicate FlipAt(w: World, steps: seq<Step>, k: nat) {
    k < |steps| && steps[k].ScriptPuts? && steps[k].ok && WorldAfter(w, steps[..k]).script.ScriptHolds?
  }

  /** The switches of the flip of step `k`. */
  ghost function FlipOf(w: World, steps: seq<Step>, k: nat): Switches
    requires FlipAt(w, steps, k)
  {
    WorldAfter(w, steps[..k]).script.desired
  }

  /** A get before the `n`-th step, and the switches it read, explain what the script wants to write. */
  ghost predicate GotAt(w: World, steps: seq<Step>, g: nat, n: nat, flip: Flip, read: Terms, wanted: Switches) {
    && g < n <= |steps| && steps[g] == ScriptGets(true, flip)
    && Parsed(WorldAfter(w, steps[..g]).stored) == Some(read)
    && Wanted(flip, read.pricing, wanted) && !Satisfied(flip, read.pricing)
  }

  /** What a script that holds something does next, and where what it holds came from. */
  lemma ScriptStep(v: World, s: Step)
    requires Enabled(v, s) && After(v, s).script.ScriptHolds?
    ensures || (v.script.ScriptHolds? && After(v, s).script == v.script)
            || (exists flip, read :: && s == ScriptGets(true, flip) && Parsed(v.stored) == Some(read)
                                     && Wanted(flip, read.pricing, After(v, s).script.desired)
                                     && !Satisfied(flip, read.pricing))
  {
    if s.ScriptGets? && s.ok {
      ScriptWrites(v.stored, s.flip, 0.0);
    }
    hide Parsed, Flipped, Field, Publishes;
  }

  /** Over every interleaving, what the script holds goes back to a get: its options over the switches it then read. */
  lemma {:induction false} GetBehind(w: World, steps: seq<Step>, n: nat)
    returns (g: nat, flip: Flip, read: Terms)
    requires w.script.ScriptIdle? && EnabledRun(w, steps) && n <= |steps|
    requires WorldAfter(w, steps[..n]).script.ScriptHolds?
    ensures GotAt(w, steps, g, n, flip, read, WorldAfter(w, steps[..n]).script.desired)
  {
    hide *;
    if n == 0 {
      NoSteps(w, steps);
      assert false;
    } else {
      OneMore(w, steps, n - 1);
      EnabledAt(w, steps, n - 1);
      var v := WorldAfter(w, steps[..n - 1]);
      ScriptStep(v, steps[n - 1]);
      if v.script.ScriptHolds? && After(v, steps[n - 1]).script == v.script {
        g, flip, read := GetBehind(w, steps, n - 1);
        GotLater(w, steps, g, n - 1, flip, read, v.script.desired);
      } else {
        flip, read :| && steps[n - 1] == ScriptGets(true, flip) && Parsed(v.stored) == Some(read)
                      && Wanted(flip, read.pricing, After(v, steps[n - 1]).script.desired)
                      && !Satisfied(flip, read.pricing);
        g := n - 1;
        GotNow(w, steps, g, flip, read, After(v, steps[n - 1]).script.desired);
      }
    }
  }

  lemma NoSteps(w: World, steps: seq<Step>)
    ensures WorldAfter(w, steps[..0]) == w
  {
  }

  lemma GotLater(w: World, steps: seq<Step>, g: nat, n: nat, flip: Flip, read: Terms, wanted: Switches)
    requires GotAt(w, steps, g, n, flip, read, wanted) && n < |steps|
    ensures GotAt(w, steps, g, n + 1, flip, read, wanted)
  {
    hide Parsed, WorldAfter, Wanted, Satisfied;
  }

  lemma GotNow(w: World, steps: seq<Step>, g: nat, flip: Flip, read: Terms, wanted: Switches)
    requires g < |steps| && steps[g] == ScriptGets(true, flip)
    requires Parsed(WorldAfter(w, steps[..g]).stored) == Some(read)
    requires Wanted(flip, read.pricing, wanted) && !Satisfied(flip, read.pricing)
    ensures GotAt(w, steps, g, g + 1, flip, read, wanted)
  {
    hide Parsed, WorldAfter, Wanted, Satisfied;
  }

  lemma FreshReadIsStored(w: World, ok: bool)
    requires TermsOf(FetchOf(w, ok)).Some?
    ensures PublisherPricing(FetchOf(w, ok)) == StoredSwitches(w)
  {
  }

  /** The switches after one step, given whether those the owner holds are old; and what it holds then, if not old. */
  lemma SwitchesStep(v: World, s: Step, flip: Switches, last: Option<Switches>, old': bool)
    requires Enabled(v, s) && !(s.ScriptPuts? && s.ok)
    requires StoredSwitches(v) == last.GetOr(flip)
    requires v.owner.OwnerHasRead? && !old' ==> v.owner.pricing == StoredSwitches(v)
    ensures var after := After(v, s);
            var oldNow := if s.OwnerReads? then TermsOf(FetchOf(v, s.ok)) == None else old';
            var lastNow := if s.OwnerPuts? && s.ok && old' then Some(HeldSwitches(v)) else last;
            && StoredSwitches(after) == lastNow.GetOr(flip)
            && (after.owner.OwnerHasRead? && !oldNow ==> after.owner.pricing == StoredSwitches(after))
  {
    if s.OwnerPuts? && s.ok {
      PutWritesItsSwitches(v, s);
    } else if s.OwnerReads? && TermsOf(FetchOf(v, s.ok)).Some? {
      FreshReadIsStored(v, s.ok);
    }
    hide StoredSwitches, TermsOf, Publishes, PublisherPricing;
    assert !(s.OwnerPuts? && s.ok) ==> After(v, s).stored == v.stored;
  }

  /** What the run up to step `n` has left: the stored switches, and those the owner holds if they are not old. */
  ghost predicate Traced(v: World, flip: Switches, last: Option<Switches>, old': bool) {
    && StoredSwitches(v) == last.GetOr(flip)
    && (v.owner.OwnerHasRead? && !old' ==> v.owner.pricing == StoredSwitches(v))
  }

  /** One step further, with the three things the trace depends on as parameters. */
  lemma TracedStep(v: World, s: Step, flip: Switches, last: Option<Switches>, old': bool, last'': Option<Switches>,
                   old'': bool)
    requires Traced(v, flip, last, old') && Enabled(v, s) && !(s.ScriptPuts? && s.ok)
    requires old'' == if s.OwnerReads? then TermsOf(FetchOf(v, s.ok)) == None else old'
    requires last'' == if s.OwnerPuts? && s.ok && old' then Some(HeldSwitches(v)) else last
    ensures Traced(After(v, s), flip, last'', old'')
  {
    hide StoredSwitches, TermsOf, After, Enabled, HeldSwitches;
    SwitchesStep(v, s, flip, last, old');
  }

  /** The flip itself starts the trace. */
  lemma TracedFlip(v: World, s: Step)
    requires s.ScriptPuts? && s.ok && Enabled(v, s) && ScriptSound(v)
    ensures Traced(After(v, s), v.script.desired, None, true)
  {
    FlipWritesItsSwitches(v, s);
    hide StoredSwitches, After;
  }

  /** How the two recursions move on with one step after `k`. */
  lemma TraceMoves(w: World, steps: seq<Step>, k: nat, i: nat)
    requires k < i < |steps|
    ensures var v, s := WorldAfter(w, steps[..i]), steps[i];
            && (HoldsOld(w, steps, k, i + 1) <==>
                  if s.OwnerReads? then TermsOf(FetchOf(v, s.ok)) == None else HoldsOld(w, steps, k, i))
            && LastOldPut(w, steps, k, i + 1) ==
               if s.OwnerPuts? && s.ok && HoldsOld(w, steps, k, i) then Some(HeldSwitches(v))
               else LastOldPut(w, steps, k, i)
  {
    hide WorldAfter, TermsOf, FetchOf, HeldSwitches;
    assert i + 1 - 1 == i;
  }

  lemma TraceStarts(w: World, steps: seq<Step>, k: nat)
    requires k < |steps|
    ensures HoldsOld(w, steps, k, k + 1) && LastOldPut(w, steps, k, k + 1) == None
  {
  }

  lemma EnabledAt(w: World, steps: seq<Step>, i: nat)
    requires EnabledRun(w, steps) && i < |steps|
    ensures Enabled(WorldAfter(w, steps[..i]), steps[i])
  {
  }

  lemma QuietAt(steps: seq<Step>, k: nat, i: nat)
    requires NoFlipAfter(steps, k) && k < i < |steps|
    ensures !(steps[i].ScriptPuts? && steps[i].ok)
  {
  }

  lemma FlipFacts(w: World, steps: seq<Step>, k: nat)
    requires FlipAt(w, steps, k)
    ensures k < |steps| && steps[k].ScriptPuts? && steps[k].ok
    ensures FlipOf(w, steps, k) == WorldAfter(w, steps[..k]).script.desired
  {
  }

  lemma {:induction false} Explained(w: World, steps: seq<Step>, k: nat, n: nat)
    requires ScriptSound(w) && FlipAt(w, steps, k) && k < n <= |steps| && EnabledRun(w, steps) && NoFlipAfter(steps, k)
    ensures Traced(WorldAfter(w, steps[..n]), FlipOf(w, steps, k), LastOldPut(w, steps, k, n), HoldsOld(w, steps, k, n))
    decreases n
  {
    hide *;
    var i := n - 1;
    OneMore(w, steps, i);
    EnabledAt(w, steps, i);
    FlipFacts(w, steps, k);
    if i == k {
      SoundAlways(w, steps, k);
      TraceStarts(w, steps, k);
      TracedFlip(WorldAfter(w, steps[..i]), steps[i]);
    } else {
      Explained(w, steps, k, i);
      QuietAt(steps, k, i);
      TraceMoves(w, steps, k, i);
      TracedStep(WorldAfter(w, steps[..i]), steps[i], FlipOf(w, steps, k), LastOldPut(w, steps, k, i),
                 HoldsOld(w, steps, k, i),
                 LastOldPut(w, steps, k, n), HoldsOld(w, steps, k, n));
    }
  }

  /**
   * Over every interleaving whatever: after the last flip that was written, the stored switches are its own exactly
   * when no later put wrote switches read before the flip, or not properly read at all, or the last one wrote the same.
   */
  lemma FlipSurvivesIff(w: World, steps: seq<Step>, k: nat)
    requires ScriptSound(w) && EnabledRun(w, steps)
    requires FlipAt(w, steps, k) && NoFlipAfter(steps, k)
    ensures StoredSwitches(WorldAfter(w, steps)) == FlipOf(w, steps, k)
       <==> LastOldPut(w, steps, k, |steps|) == None || LastOldPut(w, steps, k, |steps|) == Some(FlipOf(w, steps, k))
  {
    assert k < |steps|;
    hide StoredSwitches, WorldAfter, LastOldPut, EnabledRun, ScriptSound, NoFlipAfter, HoldsOld, FlipAt, FlipOf;
    assert steps[..|steps|] == steps;
    Explained(w, steps, k, |steps|);
  }
}
