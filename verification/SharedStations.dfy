/** Two plants in which replay counts a change at a station wrongly, although every contract is valid. */
module SharedStations {
  import opened Wrappers
  import opened Paths
  import opened Json
  import opened Patch
  import opened Decimal
  import opened StateDiff
  import opened DiffLaws
  import opened Factory
  import opened Components
  import opened Windows
  import opened Contracts
  import opened ReplayWindowLaws
  import opened ReplayLimits
  import opened ContractScopes
  import opened PlantReplay

  // ----- worlds that differ in numbers only -----

  /** Trees that differ in numbers only have a calm diff. */
  lemma {:induction false} CloseCalm(norm: Normalizer, e: real, x: Value, y: Value)
    requires Close(e, x, y)
    ensures !Diff(norm, x, y).structural
    decreases x, 1, 0
  {
    if x.Arr? {
      CloseItemsCalm(norm, e, x, y, |x.items|);
    } else if x.Obj? {
      CloseFieldsCalm(norm, e, x, y, SortedKeys(x.fields.Keys));
    }
  }

  lemma {:induction false} CloseItemsCalm(norm: Normalizer, e: real, x: Value, y: Value, n: nat)
    requires x.Arr? && Close(e, x, y) && n <= |x.items|
    ensures !DiffItems(norm, x, y, n).structural
    decreases x, 0, n
  {
    if n > 0 {
      CloseItemsCalm(norm, e, x, y, n - 1);
      CloseCalm(norm, e, x.items[n - 1], y.items[n - 1]);
    }
  }

  lemma {:induction false} CloseFieldsCalm(norm: Normalizer, e: real, x: Value, y: Value, keys: seq<string>)
    requires x.Obj? && Close(e, x, y) && forall k | k in keys :: k in x.fields
    ensures !DiffFields(norm, x, y, keys).structural
    decreases x, 0, |keys|
  {
    if keys != [] {
      var last := keys[|keys| - 1];
      CloseFieldsCalm(norm, e, x, y, keys[..|keys| - 1]);
      CloseCalm(norm, e, x.fields[last], y.fields[last]);
    }
  }

  /** The worlds differ in numbers of entities and belts only, each by at most `e`. */
  ghost predicate NumbersOnly(e: real, before: World, after: World) {
    && Close(e, Obj(before.entities), Obj(after.entities)) && Close(e, Obj(before.belts), Obj(after.belts))
    && before.totals == after.totals && before.rest == after.rest
  }

  lemma RestrictClose(e: real, before: map<string, Value>, after: map<string, Value>, ids: set<string>)
    requires Close(e, Obj(before), Obj(after))
    ensures Close(e, Obj(Restrict(before, ids)), Obj(Restrict(after, ids)))
  {
    assert Restrict(before, ids).Keys == Restrict(after, ids).Keys;
  }

  lemma NodeClose(e: real, a: map<string, Value>, b: map<string, Value>, a': map<string, Value>, b': map<string, Value>)
    requires Close(e, Obj(a), Obj(a')) && Close(e, Obj(b), Obj(b'))
    ensures Close(e, Node(a, b), Node(a', b'))
  {
  }

  lemma SnapshotCalm(norm: Normalizer, e: real, before: World, after: World, scope: Scope, phase: Phase)
    requires NumbersOnly(e, before, after)
    ensures !Diff(norm, SnapshotComponent(before, scope, phase), SnapshotComponent(after, scope, phase)).structural
  {
    RestrictClose(e, before.entities, after.entities, scope.Entities(phase));
    RestrictClose(e, before.belts, after.belts, scope.Belts(phase));
    NodeClose(e, Restrict(before.entities, scope.Entities(phase)), Restrict(before.belts, scope.Belts(phase)),
              Restrict(after.entities, scope.Entities(phase)), Restrict(after.belts, scope.Belts(phase)));
    CloseCalm(norm, e, SnapshotComponent(before, scope, phase), SnapshotComponent(after, scope, phase));
  }

  /** The contract recorded from one input window. */
  ghost function RecordedContract(norm: Normalizer, scope: Scope, before: World, after: World): Contract {
    Contract(scope, [StepTransition(ObservedPhase(norm, before, after, scope, Input), EMPTY_PHASE, EMPTY_PHASE)])
  }

  lemma RecordedRecurs(norm: Normalizer, e: real, scope: Scope, before: World, after: World)
    requires NumbersOnly(e, before, after)
    ensures Recurs(norm, RecordedContract(norm, scope, before, after), 0, Input, before, after)
  {
    var x, y := SnapshotComponent(before, scope, Input), SnapshotComponent(after, scope, Input);
    SnapshotCalm(norm, e, before, after, scope, Input);
    SignatureMirrors(norm, x, y);
    var c := RecordedContract(norm, scope, before, after);
    assert c.At(0) == c.pattern[0];
    forall i | 0 <= i < |Diff(norm, x, y).ops| ensures Alike(0.0, Diff(norm, x, y).ops[i], Diff(norm, x, y).ops[i]) {
    }
  }

  // ----- connection without joins -----

  lemma {:induction false} LoopsLeadNowhere(edges: Edges<string>, path: seq<string>, a: string, b: string)
    requires IsPath(edges, path, a, b) && forall e | e in edges :: e.0 == e.1
    ensures a == b
    decreases |path|
  {
    if |path| > 1 {
      assert Linked(edges, path[0], path[1]);
      forall i | 0 <= i < |path[1..]| - 1 ensures Linked(edges, path[1..][i], path[1..][i + 1]) {
        assert Linked(edges, path[i + 1], path[i + 2]);
      }
      LoopsLeadNowhere(edges, path[1..], path[1], b);
    }
  }

  lemma LoneClass(m: Registry, belts: seq<Belt>, x: string)
    requires x in InternalIds(m, belts) && forall e | e in JoinEdges(m, belts) :: e.0 == e.1
    ensures ClassOf(m, belts, x) == {x}
  {
    var joins := JoinEdges(m, belts);
    ConnectedRefl(joins, x);
    forall y | y in ClassOf(m, belts, x) ensures y == x {
      var path :| IsPath(joins, path, x, y);
      LoopsLeadNowhere(joins, path, x, y);
    }
  }

  /** A machine with one belt to or from a station, and its component. */
  function Lone(key: nat, machine: string, belt: Belt, producing: bool): Component {
    Component(key, "p", [machine], ["s"], [belt], if producing then [machine] else [])
  }

  ghost predicate LoneMachine(m: Registry, belts: seq<Belt>, machine: string, belt: Belt, producing: bool) {
    && machine in m && m[machine].kind.Machine? && m[machine].planetId == "p" && m[machine].buildingId != ""
    && IsContractProductionEntity(m[machine]) == producing
    && "s" in m && m["s"].kind.Station? && m["s"].planetId == "p" && belt.planetId == "p"
    && {belt.source, belt.target} == {machine, "s"} && machine != "s"
    && forall b | b in belts :: Touches(b, {machine}) <==> b == belt
  }

  lemma LoneDescribed(m: Registry, belts: seq<Belt>, key: nat, machine: string, belt: Belt, producing: bool)
    requires LoneMachine(m, belts, machine, belt, producing) && belt in belts
    ensures Describes(m, belts, Lone(key, machine, belt, producing))
  {
    var c := Lone(key, machine, belt, producing);
    assert Elements(c.internalIds) == {machine};
    assert Touches(belt, {machine});
    LoneEnds(belt, machine);
  }

  lemma LoneEnds(belt: Belt, machine: string)
    requires {belt.source, belt.target} == {machine, "s"}
    ensures belt.source == machine || belt.target == machine
    ensures belt.source in {machine, "s"} && belt.target in {machine, "s"}
    ensures belt.source == "s" || belt.target == "s"
  {
    assert machine in {belt.source, belt.target} && "s" in {belt.source, belt.target};
  }

  lemma LoneComponent(m: Registry, belts: seq<Belt>, key: nat, machine: string, belt: Belt, producing: bool)
    requires LoneMachine(m, belts, machine, belt, producing) && belt in belts
    requires forall e | e in JoinEdges(m, belts) :: e.0 == e.1
    ensures IsClassComponent(m, belts, Lone(key, machine, belt, producing))
  {
    LoneDescribed(m, belts, key, machine, belt, producing);
    LoneEnds(belt, machine);
    assert InternalEnd(m, belt, machine);
    LoneClass(m, belts, machine);
  }

  // ----- a station that two components share -----

  const STATION: Entity := Entity("s", Station, "p", 0, "", "logistics_station", "")
  const SMELTER: Entity := Entity("m", Machine, "p", 0, "", "smelter", "iron_ingot")
  const ASSEMBLER: Entity := Entity("n", Machine, "p", 0, "", "assembler", "copper_wire")
  const DELIVERY: Belt := Belt("b", "m", "s", "iron", "p")
  const SUPPLY: Belt := Belt("c", "s", "n", "copper", "p")

  /** One machine delivers iron to the station, another takes copper from it. */
  function SharedPlant(): Registry {
    map["s" := STATION, "m" := SMELTER, "n" := ASSEMBLER]
  }

  function SharedBelts(): seq<Belt> {
    [DELIVERY, SUPPLY]
  }

  function SharedComponents(): seq<Component> {
    [Lone(0, "m", DELIVERY, true), Lone(1, "n", SUPPLY, true)]
  }

  lemma SharedJoins()
    ensures forall e | e in JoinEdges(SharedPlant(), SharedBelts()) :: e.0 == e.1
    ensures InternalIds(SharedPlant(), SharedBelts()) == {"m", "n"}
  {
    var m, belts := SharedPlant(), SharedBelts();
    assert Enters(m, DELIVERY) && !Leaves(m, DELIVERY);
    assert Leaves(m, SUPPLY) && !Enters(m, SUPPLY);
    assert forall b | b in belts :: b == DELIVERY || b == SUPPLY;
    assert belts[0] in belts && belts[1] in belts;
    assert InternalEnd(m, DELIVERY, "m") && InternalEnd(m, SUPPLY, "n");
  }

  lemma SharedMachines()
    ensures LoneMachine(SharedPlant(), SharedBelts(), "m", DELIVERY, true)
    ensures LoneMachine(SharedPlant(), SharedBelts(), "n", SUPPLY, true)
  {
  }

  /** What holds of both elements of a pair holds of each. */
  lemma OfBoth<T>(s: seq<T>, P: (int, T) -> bool)
    requires |s| == 2 && P(0, s[0]) && P(1, s[1])
    ensures forall i | 0 <= i < |s| :: P(i, s[i])
  {
  }

  lemma TwoClasses(m: Registry, belts: seq<Belt>, result: seq<Component>)
    requires |result| == 2
    requires IsClassComponent(m, belts, result[0]) && result[0].key == 0
    requires IsClassComponent(m, belts, result[1]) && result[1].key == 1
    ensures forall i | 0 <= i < |result| :: IsClassComponent(m, belts, result[i]) && result[i].key == i
  {
    var P := (i: int, c: Component) => IsClassComponent(m, belts, c) && c.key == i;
    OfBoth(result, P);
    assert forall i | 0 <= i < |result| :: P(i, result[i]);
  }

  lemma TwoApart(result: seq<Component>)
    requires |result| == 2 && Elements(result[0].internalIds) !! Elements(result[1].internalIds)
    ensures forall i, j | 0 <= i < j < |result| :: Elements(result[i].internalIds) !! Elements(result[j].internalIds)
  {
  }

  lemma TwoDecompose(m: Registry, belts: seq<Belt>, result: seq<Component>)
    requires |result| == 2
    requires IsClassComponent(m, belts, result[0]) && result[0].key == 0
    requires IsClassComponent(m, belts, result[1]) && result[1].key == 1
    requires Elements(result[0].internalIds) !! Elements(result[1].internalIds)
    requires forall x | x in InternalIds(m, belts) && IsContractable(m, belts, ClassOf(m, belts, x)) :: Covered(result, x)
    ensures Decomposes(m, belts, result)
  {
    TwoClasses(m, belts, result);
    TwoApart(result);
  }

  lemma TwoCovered(result: seq<Component>, x: string, y: string)
    requires |result| == 2 && result[0].internalIds == [x] && result[1].internalIds == [y] && x != y
    ensures forall z | z in {x, y} :: Covered(result, z)
    ensures Elements(result[0].internalIds) !! Elements(result[1].internalIds)
  {
    assert x in result[0].internalIds && y in result[1].internalIds;
  }

  lemma LonePair(m: Registry, belts: seq<Belt>, x: string, b: Belt, y: string, c: Belt)
    requires LoneMachine(m, belts, x, b, true) && LoneMachine(m, belts, y, c, true) && b in belts && c in belts && x != y
    requires InternalIds(m, belts) == {x, y} && forall e | e in JoinEdges(m, belts) :: e.0 == e.1
    ensures Decomposes(m, belts, [Lone(0, x, b, true), Lone(1, y, c, true)])
  {
    LoneComponent(m, belts, 0, x, b, true);
    LoneComponent(m, belts, 1, y, c, true);
    var result := [Lone(0, x, b, true), Lone(1, y, c, true)];
    TwoCovered(result, x, y);
    TwoDecompose(m, belts, result);
  }

  /** Both machines become components of their own, with the station as the boundary of both. */
  lemma StationIsShared()
    ensures Decomposes(SharedPlant(), SharedBelts(), SharedComponents())
  {
    SharedJoins();
    SharedMachines();
    assert SharedBelts()[0] in SharedBelts() && SharedBelts()[1] in SharedBelts();
    LonePair(SharedPlant(), SharedBelts(), "m", DELIVERY, "n", SUPPLY);
  }

  /** The contracts recorded for both components. */
  ghost function SharedContracts(norm: Normalizer, before: World, after: World): seq<Contract> {
    [RecordedContract(norm, ScopeOf(Lone(0, "m", DELIVERY, true)), before, after),
     RecordedContract(norm, ScopeOf(Lone(1, "n", SUPPLY, true)), before, after)]
  }

  /** A world of the shared plant. */
  predicate InSharedPlant(w: World) {
    w.entities.Keys == {"s", "m", "n"} && w.belts.Keys == {"b", "c"}
  }

  lemma SharedCovered(norm: Normalizer, before: World, after: World, id: string)
    ensures id in {"s", "m", "n"} ==> CoversEntity(SharedContracts(norm, before, after), Input, id)
    ensures id in {"b", "c"} ==> CoversBelt(SharedContracts(norm, before, after), Input, id)
  {
    var cs := SharedContracts(norm, before, after);
    LoneScope(0, "m", DELIVERY, true);
    LoneScope(1, "n", SUPPLY, true);
    assert cs[0].scope.Entities(Input) == {"m", "s"} && cs[1].scope.Entities(Input) == {"n", "s"};
    assert cs[0].scope.Belts(Input) == {"b"} && cs[1].scope.Belts(Input) == {"c"};
  }

  lemma LoneScope(key: nat, machine: string, belt: Belt, producing: bool)
    ensures ScopeOf(Lone(key, machine, belt, producing)) == Scope("p", {machine, "s"}, {belt.id}, if producing then {machine} else {})
  {
    var c := Lone(key, machine, belt, producing);
    assert c.EntityIds() == [machine, "s"];
    assert Elements(c.EntityIds()) == {machine, "s"};
    assert (set b | b in c.belts :: b.id) == {belt.id} by {
      assert c.belts[0] in c.belts;
    }
    assert Elements(c.productionEntityIds) == if producing then {machine} else {};
  }

  lemma SharedFields(norm: Normalizer, before: World, after: World, id: string)
    requires InSharedPlant(before) && InSharedPlant(after)
    ensures var cs := SharedContracts(norm, before, after);
            && SkipField(CoversEntity(cs, Input, id), before.entities, before.entities, after.entities, id)
            && SkipField(CoversBelt(cs, Input, id), before.belts, before.belts, after.belts, id)
  {
    SharedCovered(norm, before, after, id);
  }

  lemma SharedSkips(norm: Normalizer, before: World, after: World)
    requires InSharedPlant(before) && InSharedPlant(after) && before.totals == after.totals && before.rest == after.rest
    ensures Skips(norm, SharedContracts(norm, before, after), Input, before, before, after)
  {
    forall id
      ensures SkipField(CoversEntity(SharedContracts(norm, before, after), Input, id), before.entities, before.entities, after.entities, id)
      ensures SkipField(CoversBelt(SharedContracts(norm, before, after), Input, id), before.belts, before.belts, after.belts, id)
    {
      SharedFields(norm, before, after, id);
    }
  }

  lemma PairRecurs(norm: Normalizer, cs: seq<Contract>, before: World, after: World)
    requires |cs| == 2 && Recurs(norm, cs[0], 0, Input, before, after) && Recurs(norm, cs[1], 0, Input, before, after)
    ensures AllRecur(norm, cs, 0, Input, before, after)
  {
    OfBoth(cs, (i: int, c: Contract) => Recurs(norm, c, 0, Input, before, after));
  }

  lemma PairSelects(result: seq<Component>, cs: seq<Contract>, picks: seq<nat>)
    requires |result| == 2 && |cs| == 2 && picks == [0, 1]
    requires cs[0].scope == ScopeOf(result[0]) && cs[1].scope == ScopeOf(result[1])
    ensures Selects(result, cs, picks)
  {
  }

  // ----- the recorded grid -----

  /** The decimal digits that are recorded with the change of a number. */
  ghost function RecordedDigits(x: real, y: real): nat {
    MaxNat(DecimalDigits(x), DecimalDigits(y))
  }

  /** If replay rounds, then the numbers have at most as many decimals as are recorded, so that nothing is rounded away. */
  ghost predicate OnOwnGrid(mode: Mode, x: real, y: real, s: real) {
    mode.Rounded? ==>
      OnDecimals(x, RecordedDigits(x, y)) && OnDecimals(y, RecordedDigits(x, y)) && OnDecimals(s, RecordedDigits(x, y))
  }

  lemma RecordsDigits(norm: Normalizer, e: real, scope: Scope, before: World, after: World, p: Path)
    requires norm(0.0) == 0.0 && NumbersOnly(e, before, after) && InScope(p, scope, Input)
    requires NumberChanges(p, View(before), View(after))
    ensures DigitsAt(RecordedContract(norm, scope, before, after).At(0).Of(Input).transition.ops, p) ==
            RecordedDigits(At(View(before), p).value.n, At(View(after), p).value.n)
  {
    var c := RecordedContract(norm, scope, before, after);
    RecordedRecurs(norm, e, scope, before, after);
    var k := RecursRecord(norm, c, 0, Input, before, after, p);
    var x, y := SnapshotComponent(before, scope, Input), SnapshotComponent(after, scope, Input);
    assert c.At(0) == c.pattern[0];
    DiffRecords(norm, x, y);
    assert Genuine(norm, Diff(norm, x, y).ops[k], x, y);
    ViewInSnapshot(before, scope, Input, p);
    ViewInSnapshot(after, scope, Input, p);
    FoldOne(Exact, c.At(0).Of(Input).transition.ops, p, k, None);
  }

  ghost predicate AllRecorded(norm: Normalizer, cs: seq<Contract>, before: World, after: World) {
    forall i | 0 <= i < |cs| :: cs[i].pattern != [] && cs[i] == RecordedContract(norm, cs[i].scope, before, after)
  }

  lemma OwnGridHolds(norm: Normalizer, mode: Mode, e: real, cs: seq<Contract>, before: World, skipped: World, after: World, p: Path)
    requires norm(0.0) == 0.0 && NumbersOnly(e, before, after) && NumberChanges(p, View(before), View(after))
    requires AllRecorded(norm, cs, before, after)
    requires IsNumber(At(View(skipped), p)) ==>
               OnOwnGrid(mode, At(View(before), p).value.n, At(View(after), p).value.n, At(View(skipped), p).value.n)
    ensures GridHolds(mode, cs, 0, Input, p, View(before), View(skipped), View(after))
  {
    if mode.Rounded? && IsNumber(At(View(skipped), p)) {
      var x, y, s := At(View(before), p).value.n, At(View(after), p).value.n, At(View(skipped), p).value.n;
      DifferenceOnDecimals(x, y, RecordedDigits(x, y));
      CoveredOnGrids(norm, e, cs, before, after, p, s, y - x);
    }
  }

  lemma CoveredOnGrids(norm: Normalizer, e: real, cs: seq<Contract>, before: World, after: World, p: Path, s: real, d: real)
    requires norm(0.0) == 0.0 && NumbersOnly(e, before, after) && NumberChanges(p, View(before), View(after))
    requires AllRecorded(norm, cs, before, after)
    requires var digits := RecordedDigits(At(View(before), p).value.n, At(View(after), p).value.n);
             OnDecimals(s, digits) && OnDecimals(d, digits)
    ensures OnCoveringGrids(cs, 0, Input, p, s, d)
  {
    forall i | 0 <= i < |cs| && InScope(p, cs[i].scope, Input)
      ensures DigitsAt(cs[i].At(0).Of(Input).transition.ops, p) ==
              RecordedDigits(At(View(before), p).value.n, At(View(after), p).value.n)
    {
      OneDigits(norm, e, cs[i], before, after, p);
    }
  }

  lemma OneDigits(norm: Normalizer, e: real, c: Contract, before: World, after: World, p: Path)
    requires norm(0.0) == 0.0 && NumbersOnly(e, before, after) && NumberChanges(p, View(before), View(after))
    requires c.pattern != [] && c == RecordedContract(norm, c.scope, before, after) && InScope(p, c.scope, Input)
    ensures DigitsAt(c.At(0).Of(Input).transition.ops, p) ==
            RecordedDigits(At(View(before), p).value.n, At(View(after), p).value.n)
  {
    RecordsDigits(norm, e, c.scope, before, after, p);
  }

  /** The path of a number at the station. */
  function AtStation(q: Path): Path {
    [Key(PartName(true))] + ([Key("s")] + q)
  }

  lemma StationView(w: World, q: Path)
    requires "s" in w.entities
    ensures At(View(w), AtStation(q)) == At(w.entities["s"], q)
  {
    ViewAt(w, true, "s", q);
  }

  lemma CoveredTwice(norm: Normalizer, before: World, after: World, q: Path)
    ensures Covering(SharedContracts(norm, before, after), Input, AtStation(q)) >= 2
  {
    var cs := SharedContracts(norm, before, after);
    LoneScope(0, "m", DELIVERY, true);
    LoneScope(1, "n", SUPPLY, true);
    PathInScope(cs[0].scope, Input, true, "s", q);
    PathInScope(cs[1].scope, Input, true, "s", q);
    CoveringTwice(cs, Input, AtStation(q), 0, 1);
  }

  lemma SharedRecur(norm: Normalizer, e: real, before: World, after: World)
    requires NumbersOnly(e, before, after)
    ensures var cs := SharedContracts(norm, before, after);
            Selects(SharedComponents(), cs, [0, 1]) && AllRecur(norm, cs, 0, Input, before, after)
  {
    var cs := SharedContracts(norm, before, after);
    RecordedRecurs(norm, e, ScopeOf(Lone(0, "m", DELIVERY, true)), before, after);
    RecordedRecurs(norm, e, ScopeOf(Lone(1, "n", SUPPLY, true)), before, after);
    PairRecurs(norm, cs, before, after);
    PairSelects(SharedComponents(), cs, [0, 1]);
  }

  /**
   * Whenever a number changes at the station that both components share, their contracts do not wake, and yet the
   * replay of both misses the real state: without rounding in any case, and with rounding if the number keeps to the
   * decimals that are recorded.
   */
  lemma SharedStationMisses(norm: Normalizer, mode: Mode, e: real, before: World, after: World, q: Path)
    requires norm(0.0) == 0.0 && NumbersOnly(e, before, after) && InSharedPlant(before) && InSharedPlant(after)
    requires NumberChanges(q, before.entities["s"], after.entities["s"])
    requires var x, y := At(before.entities["s"], q).value.n, At(after.entities["s"], q).value.n; OnOwnGrid(mode, x, y, x)
    ensures var cs := SharedContracts(norm, before, after);
            && Selects(SharedComponents(), cs, [0, 1])
            && AllRecur(norm, cs, 0, Input, before, after) && Skips(norm, cs, Input, before, before, after)
            && ReplayWindow(mode, cs, 0, Input, before) != Some(after)
  {
    var cs, p := SharedContracts(norm, before, after), AtStation(q);
    SharedRecur(norm, e, before, after);
    SharedSkips(norm, before, after);
    StationView(before, q);
    StationView(after, q);
    CoveredTwice(norm, before, after, q);
    OwnGridHolds(norm, mode, e, cs, before, before, after, p);
    SharedNumberMisses(norm, mode, cs, 0, Input, before, before, after, p);
  }

  /** The number at a station of the shared plant. */
  function StockAt(station: real): World {
    var idle := Num(0.0);
    World(map["s" := Obj(map["stock" := Num(station)]), "m" := idle, "n" := idle], map["b" := idle, "c" := idle], map[], Null)
  }

  lemma StockMoves(x: real, y: real)
    requires x != y
    ensures NumbersOnly(Abs(y - x), StockAt(x), StockAt(y)) && InSharedPlant(StockAt(x))
    ensures NumberChanges([Key("stock")], StockAt(x).entities["s"], StockAt(y).entities["s"])
  {
    StockClose(Abs(y - x), x, y);
    StockRead(x);
    StockRead(y);
  }

  lemma StockClose(e: real, x: real, y: real)
    requires e == Abs(y - x)
    ensures NumbersOnly(e, StockAt(x), StockAt(y))
  {
    assert Close(e, Num(x), Num(y)) && Close(e, Num(0.0), Num(0.0));
    assert Close(e, Obj(map["stock" := Num(x)]), Obj(map["stock" := Num(y)]));
  }

  lemma StockRead(x: real)
    ensures At(StockAt(x).entities["s"], [Key("stock")]) == Some(Num(x))
  {
    assert [Key("stock")][1..] == [];
    assert At(Num(x), []) == Some(Num(x));
  }

  /** Whole stocks are on every grid. */
  lemma WholeStock(mode: Mode, x: real, y: real, s: real)
    requires x.Floor as real == x && y.Floor as real == y && s.Floor as real == s
    ensures OnOwnGrid(mode, x, y, s)
  {
    WholeOnDecimals(x, RecordedDigits(x, y));
    WholeOnDecimals(y, RecordedDigits(x, y));
    WholeOnDecimals(s, RecordedDigits(x, y));
  }

  /** Replay of both contracts misses every change of a whole stock. */
  lemma SharedStockMisses(norm: Normalizer, x: real, y: real)
    requires norm(0.0) == 0.0 && x.Floor as real == x && y.Floor as real == y && x != y
    ensures var cs := SharedContracts(norm, StockAt(x), StockAt(y));
            && AllRecur(norm, cs, 0, Input, StockAt(x), StockAt(y))
            && ReplayWindow(Rounded, cs, 0, Input, StockAt(x)) != Some(StockAt(y))
  {
    StockMoves(x, y);
    StockRead(x);
    StockRead(y);
    WholeStock(Rounded, x, y, x);
    SharedStationMisses(norm, Rounded, Abs(y - x), StockAt(x), StockAt(y), [Key("stock")]);
  }

  // ----- a station that an uncontracted belt moves -----

  const DEPOT: Entity := Entity("t", Station, "p", 0, "", "logistics_station", "")
  const TRANSFER: Belt := Belt("c", "s", "t", "copper", "p")

  /** One machine delivers iron to a station, and a belt takes copper from that station to another one. */
  function TransferPlant(): Registry {
    map["s" := STATION, "m" := SMELTER, "t" := DEPOT]
  }

  function TransferBelts(): seq<Belt> {
    [DELIVERY, TRANSFER]
  }

  lemma TransferJoins()
    ensures forall e | e in JoinEdges(TransferPlant(), TransferBelts()) :: e.0 == e.1
    ensures InternalIds(TransferPlant(), TransferBelts()) == {"m"}
  {
    var m, belts := TransferPlant(), TransferBelts();
    assert Enters(m, DELIVERY) && !Leaves(m, DELIVERY);
    assert !Leaves(m, TRANSFER) && !Enters(m, TRANSFER);
    assert forall b | b in belts :: b == DELIVERY || b == TRANSFER;
    assert belts[0] in belts;
    assert InternalEnd(m, DELIVERY, "m");
  }

  lemma TransferMachine()
    ensures LoneMachine(TransferPlant(), TransferBelts(), "m", DELIVERY, true)
  {
  }

  lemma OneDecomposes(m: Registry, belts: seq<Belt>, x: string, b: Belt, producing: bool)
    requires LoneMachine(m, belts, x, b, producing) && b in belts
    requires InternalIds(m, belts) == {x} && forall e | e in JoinEdges(m, belts) :: e.0 == e.1
    ensures Decomposes(m, belts, [Lone(0, x, b, producing)])
  {
    LoneComponent(m, belts, 0, x, b, producing);
    var result := [Lone(0, x, b, producing)];
    assert x in result[0].internalIds;
  }

  /** The machine is the only component; the transfer is no belt of it, yet it ends at a station the component covers. */
  lemma TransferIsOutside()
    ensures Decomposes(TransferPlant(), TransferBelts(), [Lone(0, "m", DELIVERY, true)])
    ensures TRANSFER !in Lone(0, "m", DELIVERY, true).belts && TRANSFER.source in ScopeOf(Lone(0, "m", DELIVERY, true)).entityIds
  {
    TransferJoins();
    TransferMachine();
    assert TransferBelts()[0] in TransferBelts();
    OneDecomposes(TransferPlant(), TransferBelts(), "m", DELIVERY, true);
    LoneScope(0, "m", DELIVERY, true);
  }

  /**
   * Whenever the transfer, which is not skipped, has moved a number of the station that the window changes, the one
   * contract does not wake, nothing is shared, and yet its replay misses the real state: without rounding in any case,
   * and with rounding if the numbers keep to the decimals that are recorded.
   */
  lemma MovedStationMisses(norm: Normalizer, mode: Mode, e: real, before: World, skipped: World, after: World, q: Path)
    requires norm(0.0) == 0.0 && NumbersOnly(e, before, after) && "s" in before.entities && "s" in skipped.entities
    requires NumberChanges(q, before.entities["s"], after.entities["s"])
    requires At(skipped.entities["s"], q) != At(before.entities["s"], q)
    requires IsNumber(At(skipped.entities["s"], q)) ==>
               OnOwnGrid(mode, At(before.entities["s"], q).value.n, At(after.entities["s"], q).value.n,
                         At(skipped.entities["s"], q).value.n)
    ensures var c := RecordedContract(norm, ScopeOf(Lone(0, "m", DELIVERY, true)), before, after);
            && AllRecur(norm, [c], 0, Input, before, after) && Untangled([c], Input, before, after)
            && ReplayWindow(mode, [c], 0, Input, skipped) != Some(after)
  {
    var scope := ScopeOf(Lone(0, "m", DELIVERY, true));
    LoneScope(0, "m", DELIVERY, true);
    RecordedRecurs(norm, e, scope, before, after);
    StationView(before, q);
    StationView(skipped, q);
    StationView(after, q);
    PathInScope(scope, Input, true, "s", q);
    OneMisses(norm, mode, e, scope, before, skipped, after, AtStation(q));
  }

  lemma OneMisses(norm: Normalizer, mode: Mode, e: real, scope: Scope, before: World, skipped: World, after: World, p: Path)
    requires norm(0.0) == 0.0 && NumbersOnly(e, before, after) && InScope(p, scope, Input)
    requires NumberChanges(p, View(before), View(after)) && At(View(skipped), p) != At(View(before), p)
    requires IsNumber(At(View(skipped), p)) ==>
               OnOwnGrid(mode, At(View(before), p).value.n, At(View(after), p).value.n, At(View(skipped), p).value.n)
    ensures var c := RecordedContract(norm, scope, before, after);
            && AllRecur(norm, [c], 0, Input, before, after) && Untangled([c], Input, before, after)
            && ReplayWindow(mode, [c], 0, Input, skipped) != Some(after)
  {
    var cs := [RecordedContract(norm, scope, before, after)];
    RecordedRecurs(norm, e, scope, before, after);
    OneCovers(cs, p);
    OwnGridHolds(norm, mode, e, cs, before, skipped, after, p);
    MovedNumberMisses(norm, mode, cs, 0, Input, before, skipped, after, p);
  }

  lemma OneCovers(cs: seq<Contract>, p: Path)
    requires |cs| == 1 && InScope(p, cs[0].scope, Input)
    ensures Covering(cs, Input, p) == 1
  {
    assert cs[..0] == [] && Covering([], Input, p) == 0;
  }

  /** Replay misses every change of a whole stock of which the transfer has moved a whole part. */
  lemma MovedStockMisses(norm: Normalizer, x: real, moved: real, y: real)
    requires norm(0.0) == 0.0 && x.Floor as real == x && y.Floor as real == y && moved.Floor as real == moved
    requires x != y && moved != x
    ensures var c := RecordedContract(norm, ScopeOf(Lone(0, "m", DELIVERY, true)), StockAt(x), StockAt(y));
            && AllRecur(norm, [c], 0, Input, StockAt(x), StockAt(y))
            && ReplayWindow(Rounded, [c], 0, Input, StockAt(moved)) != Some(StockAt(y))
  {
    StockMoves(x, y);
    StockRead(x);
    StockRead(y);
    StockRead(moved);
    WholeStock(Rounded, x, y, moved);
    MovedStationMisses(norm, Rounded, Abs(y - x), StockAt(x), StockAt(moved), StockAt(y), [Key("stock")]);
  }
}
