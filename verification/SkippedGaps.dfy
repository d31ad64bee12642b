/** A run in which skipping changes what happens between the windows, although every window by itself would fit. */
module SkippedGaps {
  import opened Wrappers
  import opened Json
  import opened Patch
  import opened Decimal
  import opened StateDiff
  import opened DiffLaws
  import opened Factory
  import opened Components
  import opened Windows
  import opened Contracts
  import opened ReplayWindowLaws
  import opened ReplayExactness
  import opened ReplayLimits
  import opened ReplayRun
  import opened ContractTracking
  import opened ContractScopes
  import opened SharedStations

  // ----- whole numbers are replayed without loss -----

  /** All numbers of a tree are whole. */
  predicate AllWhole(v: Value) {
    match v
    case Num(x) => x.Floor as real == x
    case Arr(xs) => forall i | 0 <= i < |xs| :: AllWhole(xs[i])
    case Obj(m) => forall k | k in m :: AllWhole(m[k])
    case _ => true
  }

  lemma {:induction false} WholeAt(v: Value, p: Path)
    requires AllWhole(v) && At(v, p).Some?
    ensures AllWhole(At(v, p).value)
    decreases p
  {
    if p != [] {
      WholeAt(Child(v, p[0]), p[1..]);
    }
  }

  /** The contract covers everything that a window changes. */
  ghost predicate CoversChanges(scope: Scope, phase: Phase, before: World, after: World) {
    && before.totals == after.totals && before.rest == after.rest
    && before.entities.Keys == after.entities.Keys && before.belts.Keys == after.belts.Keys
    && (forall id | id in before.entities && id !in scope.Entities(phase) :: before.entities[id] == after.entities[id])
    && (forall id | id in before.belts && id !in scope.Belts(phase) :: before.belts[id] == after.belts[id])
  }

  lemma SoleSkips(norm: Normalizer, c: Contract, phase: Phase, before: World, after: World)
    requires CoversChanges(c.scope, phase, before, after)
    requires phase.Production? ==> ObservedPhase(norm, before, after, c.scope, Production).produced == map[]
    ensures Skips(norm, [c], phase, before, before, after)
  {
    var cs := [c];
    forall id ensures SkipField(CoversEntity(cs, phase, id), before.entities, before.entities, after.entities, id) {
      if id in c.scope.Entities(phase) {
        assert id in cs[0].scope.Entities(phase);
      }
    }
    forall id ensures SkipField(CoversBelt(cs, phase, id), before.belts, before.belts, after.belts, id) {
      if id in c.scope.Belts(phase) {
        assert id in cs[0].scope.Belts(phase);
      }
    }
    if phase.Production? {
      SoleCredit(norm, c, before, after);
    }
  }

  lemma SoleCredit(norm: Normalizer, c: Contract, before: World, after: World)
    requires ObservedPhase(norm, before, after, c.scope, Production).produced == map[]
    ensures CreditReal(norm, before.totals, [c], before, after) == before.totals
  {
    assert [c][..0] == [];
    assert CreditReal(norm, before.totals, [], before, after) == before.totals;
    assert Credit(before.totals, map[]) == before.totals;
  }

  lemma WholeLands(norm: Normalizer, ops: seq<Op>, before: Value, after: Value)
    requires AllMeasure(ops, before, after) && AllWhole(after)
    ensures AllLand(before, ops)
  {
    forall i | 0 <= i < |ops| ensures Lands(before, ops[i]) {
      assert Measures(ops[i], before, after);
      if ops[i].Add? {
        WholeAt(after, ops[i].path);
        WholeOnDecimals(At(after, ops[i].path).value.n, ops[i].digits);
      }
    }
  }

  lemma SoleWindow(c: Contract, second: nat, phase: Phase)
    requires c.pattern != []
    ensures WindowOps([c], second, phase) == c.At(second).Of(phase).transition.ops
  {
    assert [c][..0] == [] && [c][0] == c;
    assert WindowOps([], second, phase) == [];
  }

  /** One contract that covers everything replays a window of whole numbers rightly. */
  lemma WholeReplays(norm: Normalizer, c: Contract, second: nat, phase: Phase, before: World, after: World)
    requires norm(0.0) == 0.0 && Recurs(norm, c, second, phase, before, after)
    requires CoversChanges(c.scope, phase, before, after) && AllWhole(View(after))
    requires phase.Production? ==> ObservedPhase(norm, before, after, c.scope, Production).produced == map[]
    ensures WindowRight(Rounded, [c], second, phase, before, after)
  {
    var cs := [c];
    assert AllRecur(norm, cs, second, phase, before, after);
    SoleSkips(norm, c, phase, before, after);
    RecursMeasures(norm, c, second, phase, before, after);
    SoleWindow(c, second, phase);
    WholeLands(norm, WindowOps(cs, second, phase), View(before), View(after));
    WindowReplayExact(norm, cs, second, phase, before, before, after);
    RecurFaithful(norm, cs, second, phase, before, after);
    WindowReplayIff(norm, Rounded, cs, second, phase, before, before, after);
  }

  // ----- a receiver whose output a contracted belt takes away -----

  const RECEIVER: Entity := Entity("r", Machine, "p", 0, "", "ray_receiver", "critical_photon")
  const OUTGOING: Belt := Belt("b", "r", "s", "critical_photon", "p")

  function ReceiverPlant(): Registry {
    map["s" := STATION, "r" := RECEIVER]
  }

  function ReceiverComponent(): Component {
    Lone(0, "r", OUTGOING, false)
  }

  lemma ReceiverJoins()
    ensures forall e | e in JoinEdges(ReceiverPlant(), [OUTGOING]) :: e.0 == e.1
    ensures InternalIds(ReceiverPlant(), [OUTGOING]) == {"r"}
  {
    var m, belts := ReceiverPlant(), [OUTGOING];
    assert Enters(m, OUTGOING) && !Leaves(m, OUTGOING);
    assert forall b | b in belts :: b == OUTGOING;
    assert belts[0] in belts;
    assert InternalEnd(m, OUTGOING, "r");
  }

  lemma ReceiverMachine()
    ensures LoneMachine(ReceiverPlant(), [OUTGOING], "r", OUTGOING, false)
  {
  }

  /** The receiver and its belt are a component, but the receiver is none of its producers: it works outside the windows. */
  lemma ReceiverIsComponent()
    ensures Decomposes(ReceiverPlant(), [OUTGOING], [ReceiverComponent()])
    ensures ScopeOf(ReceiverComponent()) == Scope("p", {"r", "s"}, {"b"}, {})
  {
    ReceiverJoins();
    ReceiverMachine();
    assert [OUTGOING][0] in [OUTGOING];
    OneDecomposes(ReceiverPlant(), [OUTGOING], "r", OUTGOING, false);
    LoneScope(0, "r", OUTGOING, false);
  }

  /** What the plant shows: photons in the receiver's output, photons delivered, and photons ever made. */
  function Photons(stock: int, delivered: int, made: int): World {
    World(map["r" := Obj(map["outputs" := Num(stock as real)]), "s" := Obj(map["inputs" := Num(delivered as real)])],
          map["b" := Num(delivered as real)], map["critical_photon" := made], Null)
  }

  const CAPACITY: int := 100

  function Read(w: World, id: string, field: string): int {
    if id in w.entities && w.entities[id].Obj? && field in w.entities[id].fields && w.entities[id].fields[field].Num? then
      w.entities[id].fields[field].n.Floor
    else 0
  }

  function Made(w: World): int {
    Amount(w.totals, "critical_photon")
  }

  /** The capacity that the outgoing belt will free in this second; a skipped belt frees none. */
  function Reserved(skipping: Skipping): Value {
    Num(if "b" in skipping.belts then 0.0 else 1.0)
  }

  function Credits(scratch: Value): int {
    if scratch.Num? then scratch.n.Floor else 0
  }

  /** The receiver makes a photon if there is room for it, counting the reserved capacity. */
  function Receive(r: Running): Running {
    var stock, delivered, made := Read(r.world, "r", "outputs"), Read(r.world, "s", "inputs"), Made(r.world);
    if stock < CAPACITY + Credits(r.scratch) then Running(Photons(stock + 1, delivered, made + 1), r.scratch) else r
  }

  /** The output belt takes one photon away. */
  function Deliver(w: World): World {
    var stock, delivered := Read(w, "r", "outputs"), Read(w, "s", "inputs");
    if stock > 0 then Photons(stock - 1, delivered + 1, Made(w)) else w
  }

  /** Capacity is reserved after the input window, and the receiver works after the production window. */
  function ReceiverEngine(): Engine {
    Engine(
      s => ["p"],
      (skipping: Skipping, s, i, r: Running) =>
        if i == 1 then Running(r.world, Reserved(skipping)) else if i == 2 then Receive(r) else r,
      (skipping: Skipping, s, i, r: Running) =>
        if i == 2 && "b" !in skipping.belts then Running(Deliver(r.world), r.scratch) else r)
  }

  function FullReceiver(): Running {
    Running(Photons(CAPACITY, 0, 0), Null)
  }

  // ----- one second of both runs -----

  lemma ReadPhotons(stock: int, delivered: int, made: int)
    ensures Read(Photons(stock, delivered, made), "r", "outputs") == stock
    ensures Read(Photons(stock, delivered, made), "s", "inputs") == delivered
    ensures Made(Photons(stock, delivered, made)) == made
  {
    assert (stock as real).Floor == stock && (delivered as real).Floor == delivered;
  }

  lemma Received(stock: int, delivered: int, made: int, credits: int)
    ensures Receive(Running(Photons(stock, delivered, made), Num(credits as real))) ==
            Running(if stock < CAPACITY + credits then Photons(stock + 1, delivered, made + 1) else Photons(stock, delivered, made),
                    Num(credits as real))
  {
    ReadPhotons(stock, delivered, made);
    assert (credits as real).Floor == credits;
  }

  lemma Delivered(stock: int, delivered: int, made: int)
    requires stock > 0
    ensures Deliver(Photons(stock, delivered, made)) == Photons(stock - 1, delivered + 1, made)
  {
    ReadPhotons(stock, delivered, made);
  }

  lemma RealGap(e: Engine, start: Running, i: nat)
    requires 0 < i <= e.Count(0)
    ensures e.RealBefore(start, 0, i) == e.between(NOTHING, 0, i, e.RealAfter(start, 0, i - 1))
  {
  }

  lemma SkippedGap(e: Engine, cs: seq<Contract>, start: Running, i: nat)
    requires 0 < i <= e.Count(0)
    ensures e.SkippedBefore(cs, start, 0, i) ==
            e.between(SkippingOf(cs), 0, i, Running(e.After(start, 0, i - 1), e.SkippedAfter(cs, start, 0, i - 1).scratch))
  {
  }

  lemma Gap(skipping: Skipping, r: Running)
    ensures ReceiverEngine().between(skipping, 0, 1, r) == Running(r.world, Reserved(skipping))
    ensures ReceiverEngine().between(skipping, 0, 2, r) == Receive(r)
  {
  }

  /** The engine's own second: a photon is made in the gap before the output window, and one is taken away in it. */
  lemma RealSecond(e: Engine, start: Running)
    requires e == ReceiverEngine() && start == FullReceiver()
    ensures e.Count(0) == 3
    ensures e.Before(start, 0, 0) == e.After(start, 0, 0) == Photons(CAPACITY, 0, 0)
    ensures e.Before(start, 0, 1) == e.After(start, 0, 1) == Photons(CAPACITY, 0, 0)
    ensures e.RealBefore(start, 0, 2) == Running(Photons(CAPACITY + 1, 0, 1), Num(1.0))
    ensures e.After(start, 0, 2) == Photons(CAPACITY, 1, 1)
  {
    assert e.RealBefore(start, 0, 0) == start;
    assert e.RealAfter(start, 0, 0) == start;
    RealGap(e, start, 1);
    Gap(NOTHING, start);
    assert e.RealAfter(start, 0, 1) == Running(start.world, Num(1.0));
    RealGap(e, start, 2);
    Gap(NOTHING, Running(start.world, Num(1.0)));
    Received(CAPACITY, 0, 0, 1);
    Delivered(CAPACITY + 1, 0, 1);
  }

  /** With the belt skipped nothing is reserved, so nothing is made. */
  lemma SkippedSecond(e: Engine, cs: seq<Contract>, start: Running)
    requires e == ReceiverEngine() && start == FullReceiver() && "b" in SkippingOf(cs).belts
    ensures e.Count(0) == 3
    ensures e.SkippedAfter(cs, start, 0, 0).world == Photons(CAPACITY, 0, 0)
    ensures e.SkippedAfter(cs, start, 0, 1).world == Photons(CAPACITY, 0, 0)
    ensures e.SkippedAfter(cs, start, 0, 2).world == Photons(CAPACITY, 0, 0)
  {
    RealSecond(e, start);
    assert e.SkippedBefore(cs, start, 0, 0) == start;
    assert e.SkippedAfter(cs, start, 0, 0) == start;
    SkippedGap(e, cs, start, 1);
    Gap(SkippingOf(cs), start);
    assert e.SkippedAfter(cs, start, 0, 1) == Running(start.world, Num(0.0));
    SkippedGap(e, cs, start, 2);
    Gap(SkippingOf(cs), Running(start.world, Num(0.0)));
    Received(CAPACITY, 0, 0, 0);
  }

  // ----- the contract of that second -----

  ghost function PhotonScope(): Scope {
    ScopeOf(ReceiverComponent())
  }

  /** The contract that repeats what was observed of the receiver in the second. */
  ghost function PhotonContract(norm: Normalizer): Contract {
    Contract(PhotonScope(), [ReceiverEngine().Observed(norm, FullReceiver(), 0, PhotonScope())])
  }

  lemma PhotonsMove(a: int, b: int, c: int, d: int, made: int)
    requires -1 <= a - c <= 1 && -1 <= b - d <= 1
    ensures NumbersOnly(1.0, Photons(a, b, made), Photons(c, d, made))
  {
    assert Close(1.0, Num(a as real), Num(c as real)) && Close(1.0, Num(b as real), Num(d as real));
    assert Close(1.0, Obj(map["outputs" := Num(a as real)]), Obj(map["outputs" := Num(c as real)]));
    assert Close(1.0, Obj(map["inputs" := Num(b as real)]), Obj(map["inputs" := Num(d as real)]));
  }

  lemma PhotonsWhole(a: int, b: int, made: int)
    ensures AllWhole(View(Photons(a, b, made)))
  {
    assert AllWhole(Num(a as real)) && AllWhole(Num(b as real));
    assert AllWhole(Obj(map["outputs" := Num(a as real)])) && AllWhole(Obj(map["inputs" := Num(b as real)]));
    assert AllWhole(Obj(Photons(a, b, made).entities)) && AllWhole(Obj(Photons(a, b, made).belts));
  }

  /** A window that changes numbers of the component only, whole ones, and nothing during production. */
  ghost predicate Moves(phase: Phase, before: World, after: World) {
    NumbersOnly(1.0, before, after) && CoversChanges(PhotonScope(), phase, before, after) && AllWhole(View(after))
  }

  lemma PhotonsMoved(phase: Phase, a: int, b: int, c: int, d: int, made: int)
    requires -1 <= a - c <= 1 && -1 <= b - d <= 1 && (phase.Production? ==> a == c && b == d)
    ensures Moves(phase, Photons(a, b, made), Photons(c, d, made))
  {
    PhotonsMove(a, b, c, d, made);
    PhotonsWhole(c, d, made);
    ReceiverIsComponent();
  }

  /** The three windows of the second. */
  lemma WindowsMove(i: nat)
    requires i < 3
    ensures var e, start := ReceiverEngine(), FullReceiver();
            e.Count(0) == 3 && Moves(e.PhaseOf(0, i), e.Before(start, 0, i), e.After(start, 0, i))
  {
    RealSecond(ReceiverEngine(), FullReceiver());
    if i < 2 {
      PhotonsMoved(ReceiverEngine().PhaseOf(0, i), CAPACITY, 0, CAPACITY, 0, 0);
    } else {
      PhotonsMoved(Output, CAPACITY + 1, 0, CAPACITY, 1, 1);
    }
  }

  lemma WindowObserved(norm: Normalizer, i: nat)
    requires i < 3
    ensures var e, start := ReceiverEngine(), FullReceiver();
            && e.Count(0) == 3
            && e.Observed(norm, start, 0, PhotonScope()).Of(e.PhaseOf(0, i)) ==
               ObservedPhase(norm, e.Before(start, 0, i), e.After(start, 0, i), PhotonScope(), e.PhaseOf(0, i))
            && !e.Observed(norm, start, 0, PhotonScope()).Of(e.PhaseOf(0, i)).transition.structural
  {
    var e, start := ReceiverEngine(), FullReceiver();
    WindowsMove(i);
    ReceiverIsComponent();
    ObservedOf(norm, e, start, 0, i, PhotonScope());
    SnapshotCalm(norm, 1.0, e.Before(start, 0, i), e.After(start, 0, i), PhotonScope(), e.PhaseOf(0, i));
  }

  lemma ObservedCalm(norm: Normalizer)
    ensures !ReceiverEngine().Observed(norm, FullReceiver(), 0, PhotonScope()).Structural()
  {
    var e := ReceiverEngine();
    WindowObserved(norm, 0);
    WindowObserved(norm, 1);
    WindowObserved(norm, 2);
    assert e.PhaseOf(0, 0) == Input && e.PhaseOf(0, 1) == Production && e.PhaseOf(0, 2) == Output;
  }

  lemma PhotonContracted(norm: Normalizer)
    ensures Contracted(norm, ReceiverEngine(), [PhotonContract(norm)], FullReceiver(), 1)
  {
    var e, start, c := ReceiverEngine(), FullReceiver(), PhotonContract(norm);
    ObservedCalm(norm);
    forall s: nat, phase ensures Mirrors(norm, c.At(s).Of(phase).transition) {
      assert c.At(s) == c.pattern[0];
      ObservedMirrors(norm, e, start, 0, PhotonScope(), phase);
    }
    assert c.At(0) == c.pattern[0];
  }

  lemma NothingProduced(norm: Normalizer, before: World, after: World)
    ensures ObservedPhase(norm, before, after, PhotonScope(), Production).produced == map[]
  {
    ReceiverIsComponent();
    assert SortedKeys({}) == [];
  }

  lemma PhotonRecurs(norm: Normalizer, i: nat)
    requires i < 3
    ensures var e, start := ReceiverEngine(), FullReceiver();
            e.Count(0) == 3 && Recurs(norm, PhotonContract(norm), 0, e.PhaseOf(0, i), e.Before(start, 0, i), e.After(start, 0, i))
  {
    var e, start, c := ReceiverEngine(), FullReceiver(), PhotonContract(norm);
    WindowObserved(norm, i);
    PhotonContracted(norm);
    ReceiverIsComponent();
    ContractFaithful(norm, e, [c], start, 1, 0, i, 0);
    assert c.At(0) == c.pattern[0];
    SelfAlike(c.At(0).Of(e.PhaseOf(0, i)).transition.ops);
  }

  lemma SelfAlike(ops: seq<Op>)
    ensures AllAlike(0.0, ops, ops)
  {
    forall k | 0 <= k < |ops| ensures Alike(0.0, ops[k], ops[k]) {
    }
  }

  /** One window, run with skips from the real state at its own start, is right for replay. */
  ghost predicate FitsFromReal(e: Engine, cs: seq<Contract>, start: Running, s: nat, i: nat)
    requires i < e.Count(s) && forall k | 0 <= k < |cs| :: cs[k].pattern != []
  {
    WindowRight(Rounded, e.In(cs, s, i), s, e.PhaseOf(s, i),
                e.window(SkippingOf(cs), s, i, e.RealBefore(start, s, i)).world, e.After(start, s, i))
  }

  /** Run with skips from the real state at its own start, every window of the second would fit. */
  lemma WindowsWouldFit(norm: Normalizer, i: nat)
    requires norm(0.0) == 0.0 && i < 3
    ensures var e, start, c := ReceiverEngine(), FullReceiver(), PhotonContract(norm);
            e.Count(0) == 3 && FitsFromReal(e, [c], start, 0, i)
  {
    var e, start, c := ReceiverEngine(), FullReceiver(), PhotonContract(norm);
    WindowsMove(i);
    PhotonRecurs(norm, i);
    NothingProduced(norm, e.Before(start, 0, i), e.After(start, 0, i));
    WholeReplays(norm, c, 0, e.PhaseOf(0, i), e.Before(start, 0, i), e.After(start, 0, i));
    PhotonWindow(norm, i, e.RealBefore(start, 0, i));
  }

  lemma BeltSkipped(norm: Normalizer)
    ensures "b" in SkippingOf([PhotonContract(norm)]).belts
  {
    ReceiverIsComponent();
    var c := PhotonContract(norm);
    assert c in [c] && "b" in c.scope.beltIds;
  }

  lemma PhotonWindow(norm: Normalizer, i: nat, r: Running)
    requires i < 3
    ensures var e, c := ReceiverEngine(), PhotonContract(norm);
            e.Count(0) == 3 && e.In([c], 0, i) == [c] && e.window(SkippingOf([c]), 0, i, r) == r
  {
    var e, c := ReceiverEngine(), PhotonContract(norm);
    BeltSkipped(norm);
    ReceiverIsComponent();
    assert [c][..0] == [] && OnPlanet([], "p") == [];
    assert OnPlanet([c], "p") == [c];
  }

  /**
   * The contract of the receiver's second does not wake, and each window, run with skips from the real state at its
   * start, would fit. Yet the replayed second is wrong: with the belt skipped no capacity is reserved for the receiver,
   * so the photon that the output window takes away was never made.
   */
  lemma SkippedGapMisses(norm: Normalizer)
    requires norm(0.0) == 0.0
    ensures var e, start, c := ReceiverEngine(), FullReceiver(), PhotonContract(norm);
            && e.Count(0) == 3 && Contracted(norm, e, [c], start, 1)
            && (forall i | 0 <= i < e.Count(0) :: FitsFromReal(e, [c], start, 0, i))
            && !WindowFits(e, [c], start, 0, 2)
            && exists i | 0 <= i < e.Count(0) :: !WindowAgrees(e, [c], start, 0, i)
  {
    var e, start, c := ReceiverEngine(), FullReceiver(), PhotonContract(norm);
    PhotonContracted(norm);
    PhotonMissing(norm);
    forall i | 0 <= i < e.Count(0) ensures FitsFromReal(e, [c], start, 0, i) {
      WindowsWouldFit(norm, i);
    }
    UnfitDisagrees(norm, e, [c], start, 2);
  }

  lemma UnfitDisagrees(norm: Normalizer, e: Engine, cs: seq<Contract>, start: Running, i: nat)
    requires Contracted(norm, e, cs, start, 1) && i < e.Count(0) && !WindowFits(e, cs, start, 0, i)
    ensures exists i | 0 <= i < e.Count(0) :: !WindowAgrees(e, cs, start, 0, i)
  {
    ReplayRefinesRun(norm, e, cs, start, 1);
  }

  lemma PhotonMissing(norm: Normalizer)
    ensures ReceiverEngine().Count(0) == 3 && !WindowFits(ReceiverEngine(), [PhotonContract(norm)], FullReceiver(), 0, 2)
  {
    var e, start, c := ReceiverEngine(), FullReceiver(), PhotonContract(norm);
    BeltSkipped(norm);
    RealSecond(e, start);
    SkippedSecond(e, [c], start);
    assert e.PhaseOf(0, 2) == Output;
    assert Photons(CAPACITY, 0, 0).totals["critical_photon"] == 0 && Photons(CAPACITY, 1, 1).totals["critical_photon"] == 1;
  }
}
