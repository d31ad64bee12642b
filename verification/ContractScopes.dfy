/** From components to contracts: what different components' snapshots can have in common. */
module ContractScopes {
  import opened Factory
  import opened Components
  import opened ComponentLaws
  import opened Windows
  import opened Contracts
  import opened ReplayWindowLaws

  /** The identifiers a component's snapshots cover. */
  function ScopeOf(c: Component): Scope {
    Scope(c.planetId, Elements(c.EntityIds()), set b | b in c.belts :: b.id, Elements(c.productionEntityIds))
  }

  ghost predicate DistinctBeltIds(belts: seq<Belt>) {
    forall b, c | b in belts && c in belts && b.id == c.id :: b == c
  }

  /** What two components cover in common is a boundary station of both. */
  lemma SharedIsStation(m: Registry, belts: seq<Belt>, result: seq<Component>, i: nat, j: nat, id: string)
    requires Decomposes(m, belts, result) && i < |result| && j < |result| && i != j
    requires id in result[i].EntityIds() && id in result[j].EntityIds()
    ensures id in result[i].boundaryIds && id in result[j].boundaryIds && id in m && m[id].kind.Station?
  {
    ComponentsShareNothing(m, belts, result, i, j);
    if id in result[i].internalIds {
      NotOnBoundary(m, belts, result, i, j, id);
    } else if id in result[j].internalIds {
      NotOnBoundary(m, belts, result, j, i, id);
    } else {
      BoundaryStation(m, belts, result, i, id);
    }
  }

  lemma BoundaryStation(m: Registry, belts: seq<Belt>, result: seq<Component>, i: nat, id: string)
    requires Decomposes(m, belts, result) && i < |result| && id in result[i].boundaryIds
    ensures id in m && m[id].kind.Station?
  {
    assert IsClassComponent(m, belts, result[i]);
    var b :| b in result[i].belts && (id == b.source || id == b.target);
    EnclosedByStations(m, belts, result, i, b, id);
  }

  lemma NotOnBoundary(m: Registry, belts: seq<Belt>, result: seq<Component>, i: nat, j: nat, id: string)
    requires Decomposes(m, belts, result) && i < |result| && j < |result| && id in result[i].internalIds
    ensures id !in result[j].boundaryIds
  {
    InternalMember(m, belts, result, i, id);
    if id in result[j].boundaryIds {
      BoundaryStation(m, belts, result, j, id);
    }
  }

  lemma BeltIdsApart(m: Registry, belts: seq<Belt>, result: seq<Component>, i: nat, j: nat)
    requires Decomposes(m, belts, result) && i < |result| && j < |result| && i != j && DistinctBeltIds(belts)
    ensures ScopeOf(result[i]).beltIds !! ScopeOf(result[j]).beltIds
    ensures ScopeOf(result[i]).productionIds !! ScopeOf(result[j]).productionIds
  {
    ComponentsShareNothing(m, belts, result, i, j);
    assert IsClassComponent(m, belts, result[i]) && IsClassComponent(m, belts, result[j]);
    forall b, c | b in result[i].belts && c in result[j].belts ensures b.id != c.id {
      assert b in belts && c in belts;
    }
  }

  /** In this window no number changes in a station that bounds both components. */
  ghost predicate SharedStationsCalm(c: Component, d: Component, before: World, after: World) {
    forall id | id in c.boundaryIds && id in d.boundaryIds :: CalmField(before.entities, after.entities, id)
  }

  lemma SharedEntities(m: Registry, belts: seq<Belt>, result: seq<Component>, i: nat, j: nat)
    requires Decomposes(m, belts, result) && i < |result| && j < |result| && i != j
    ensures forall id :: id in ScopeOf(result[i]).entityIds && id in ScopeOf(result[j]).entityIds <==>
                         id in result[i].boundaryIds && id in result[j].boundaryIds
  {
    forall id | id in result[i].EntityIds() && id in result[j].EntityIds()
      ensures id in result[i].boundaryIds && id in result[j].boundaryIds
    {
      SharedIsStation(m, belts, result, i, j, id);
    }
  }

  lemma PairUntangled(m: Registry, belts: seq<Belt>, result: seq<Component>, i: nat, j: nat, phase: Phase, before: World, after: World)
    requires Decomposes(m, belts, result) && i < |result| && j < |result| && i != j && DistinctBeltIds(belts)
    ensures UntangledPair(ScopeOf(result[i]), ScopeOf(result[j]), phase, before, after) <==>
            phase.Production? || SharedStationsCalm(result[i], result[j], before, after)
  {
    BeltIdsApart(m, belts, result, i, j);
    SharedEntities(m, belts, result, i, j);
    PairFrom(ScopeOf(result[i]), ScopeOf(result[j]), result[i], result[j], phase, before, after);
  }

  lemma PairFrom(s: Scope, t: Scope, c: Component, d: Component, phase: Phase, before: World, after: World)
    requires s.beltIds !! t.beltIds && s.productionIds !! t.productionIds
    requires forall id :: id in s.entityIds && id in t.entityIds <==> id in c.boundaryIds && id in d.boundaryIds
    ensures UntangledPair(s, t, phase, before, after) <==> phase.Production? || SharedStationsCalm(c, d, before, after)
  {
  }

  /** Contracts for some of the components, each for a different one. */
  ghost predicate Selects(result: seq<Component>, cs: seq<Contract>, picks: seq<nat>) {
    && |picks| == |cs| && Distinct(picks)
    && forall i | 0 <= i < |cs| :: picks[i] < |result| && cs[i].scope == ScopeOf(result[picks[i]])
  }

  /** In this window no number changes in a station that bounds two of the contracted components. */
  ghost predicate StationsCalm(result: seq<Component>, picks: seq<nat>, before: World, after: World)
    requires forall i | 0 <= i < |picks| :: picks[i] < |result|
  {
    forall i, j | 0 <= i < j < |picks| :: SharedStationsCalm(result[picks[i]], result[picks[j]], before, after)
  }

  lemma PickedPair(m: Registry, belts: seq<Belt>, result: seq<Component>, cs: seq<Contract>, picks: seq<nat>, i: nat, j: nat,
                   phase: Phase, before: World, after: World)
    requires Decomposes(m, belts, result) && DistinctBeltIds(belts) && Selects(result, cs, picks) && i < j < |cs|
    ensures UntangledPair(cs[i].scope, cs[j].scope, phase, before, after) <==>
            phase.Production? || SharedStationsCalm(result[picks[i]], result[picks[j]], before, after)
  {
    PairUntangled(m, belts, result, picks[i], picks[j], phase, before, after);
  }

  /**
   * Contracts of the decomposition never interfere in production windows; in belt windows they are apart exactly
   * when no number changes in a station that bounds two of them.
   */
  lemma DecompositionUntangled(m: Registry, belts: seq<Belt>, result: seq<Component>, cs: seq<Contract>, picks: seq<nat>,
                               phase: Phase, before: World, after: World)
    requires Decomposes(m, belts, result) && DistinctBeltIds(belts) && Selects(result, cs, picks)
    ensures Untangled(cs, phase, before, after) <==> phase.Production? || StationsCalm(result, picks, before, after)
  {
    if Untangled(cs, phase, before, after) && !phase.Production? {
      forall i, j | 0 <= i < j < |cs| ensures SharedStationsCalm(result[picks[i]], result[picks[j]], before, after) {
        assert UntangledPair(cs[i].scope, cs[j].scope, phase, before, after);
        PickedPair(m, belts, result, cs, picks, i, j, phase, before, after);
      }
    }
    if phase.Production? || StationsCalm(result, picks, before, after) {
      forall i, j | 0 <= i < j < |cs| ensures UntangledPair(cs[i].scope, cs[j].scope, phase, before, after) {
        PickedPair(m, belts, result, cs, picks, i, j, phase, before, after);
      }
    }
  }
}
