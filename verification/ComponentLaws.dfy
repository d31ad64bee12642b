/** What the decomposition guarantees about different components. */
module ComponentLaws {
  import opened Wrappers
  import opened Paths
  import opened Factory
  import opened Components

  // ----- connection, said of belts -----

  /** A belt between the two that touches no station. */
  ghost predicate BeltBetween(m: Registry, belts: seq<Belt>, x: string, y: string) {
    exists b | b in belts ::
      && b.source in m && b.target in m && !m[b.source].kind.Station? && !m[b.target].kind.Station?
      && ((b.source == x && b.target == y) || (b.source == y && b.target == x))
  }

  /** Two belts that carry one item out of one station, or into it; `x` and `y` are their other ends. */
  ghost predicate OneStation(m: Registry, b: Belt, c: Belt, x: string, y: string) {
    && b.source in m && b.target in m && c.source in m && c.target in m && b.itemId == c.itemId
    && ((b.source == c.source && m[b.source].kind.Station? && b.target == x && c.target == y) ||
        (b.target == c.target && m[b.target].kind.Station? && b.source == x && c.source == y))
    && x in m && y in m && !m[x].kind.Station? && !m[y].kind.Station? && x != "" && y != ""
  }

  ghost predicate BeltsCompete(m: Registry, belts: seq<Belt>, x: string, y: string) {
    exists b, c | b in belts && c in belts :: OneStation(m, b, c, x, y)
  }

  ghost predicate Tied(m: Registry, belts: seq<Belt>, x: string, y: string) {
    BeltBetween(m, belts, x, y) || BeltsCompete(m, belts, x, y)
  }

  /** A chain of belts without stations and of pairs that compete for one item of one station in one direction. */
  ghost predicate IsTiedPath(m: Registry, belts: seq<Belt>, path: seq<string>, x: string, y: string) {
    && |path| >= 1 && path[0] == x && path[|path| - 1] == y
    && forall i | 0 <= i < |path| - 1 :: Tied(m, belts, path[i], path[i + 1])
  }

  lemma TiedIfLinked(m: Registry, belts: seq<Belt>, x: string, y: string)
    requires Linked(JoinEdges(m, belts), x, y)
    ensures Tied(m, belts, x, y)
  {
    if b :| b in belts && InternalBelt(m, b) && ((x, y) == (b.source, b.target) || (y, x) == (b.source, b.target)) {
      assert BeltBetween(m, belts, x, y);
    } else {
      var b, c :| b in belts && c in belts && Compete(m, b, c) &&
                  ((x, y) == (FarEnd(m, b), FarEnd(m, c)) || (y, x) == (FarEnd(m, b), FarEnd(m, c)));
      assert OneStation(m, b, c, x, y) || OneStation(m, c, b, x, y);
    }
  }

  lemma LinkedIfTied(m: Registry, belts: seq<Belt>, x: string, y: string)
    requires Tied(m, belts, x, y)
    ensures Linked(JoinEdges(m, belts), x, y)
  {
    if BeltBetween(m, belts, x, y) {
      var b :| b in belts && b.source in m && b.target in m && !m[b.source].kind.Station? && !m[b.target].kind.Station? &&
               ((b.source == x && b.target == y) || (b.source == y && b.target == x));
      assert InternalBelt(m, b);
    } else {
      var b, c :| b in belts && c in belts && OneStation(m, b, c, x, y);
      assert Compete(m, b, c) && FarEnd(m, b) == x && FarEnd(m, c) == y;
    }
  }

  /** What joins entities is exactly such a chain. */
  lemma ConnectedIffTied(m: Registry, belts: seq<Belt>, x: string, y: string)
    ensures Connected(JoinEdges(m, belts), x, y) <==> exists path :: IsTiedPath(m, belts, path, x, y)
  {
    if Connected(JoinEdges(m, belts), x, y) {
      var path :| IsPath(JoinEdges(m, belts), path, x, y);
      forall i | 0 <= i < |path| - 1 ensures Tied(m, belts, path[i], path[i + 1]) {
        TiedIfLinked(m, belts, path[i], path[i + 1]);
      }
      assert IsTiedPath(m, belts, path, x, y);
    }
    if path :| IsTiedPath(m, belts, path, x, y) {
      forall i | 0 <= i < |path| - 1 ensures Linked(JoinEdges(m, belts), path[i], path[i + 1]) {
        LinkedIfTied(m, belts, path[i], path[i + 1]);
      }
      assert IsPath(JoinEdges(m, belts), path, x, y);
    }
  }

  // ----- what shares a component -----

  /**
   * Two internal entities share a component exactly when a chain of belts without stations, and of belts that carry
   * one item out of one station or into it, leads from one to the other.
   */
  lemma TogetherIffConnected(m: Registry, belts: seq<Belt>, result: seq<Component>, i: nat, x: string, y: string)
    requires Decomposes(m, belts, result) && i < |result|
    requires x in result[i].internalIds && y in InternalIds(m, belts)
    ensures y in result[i].internalIds <==> exists path :: IsTiedPath(m, belts, path, x, y)
  {
    ConnectedIffTied(m, belts, x, y);
    TogetherIffJoined(m, belts, result, i, x, y);
  }

  lemma TogetherIffJoined(m: Registry, belts: seq<Belt>, result: seq<Component>, i: nat, x: string, y: string)
    requires Decomposes(m, belts, result) && i < |result|
    requires x in result[i].internalIds && y in InternalIds(m, belts)
    ensures y in result[i].internalIds <==> Connected(JoinEdges(m, belts), x, y)
  {
    var joins, first := JoinEdges(m, belts), result[i].internalIds[0];
    assert IsClassComponent(m, belts, result[i]);
    assert x in ClassOf(m, belts, first);
    ConnectedSym(joins, first, x);
    if Connected(joins, x, y) {
      ConnectedTrans(joins, first, x, y);
      assert y in ClassOf(m, belts, first);
    }
    if y in result[i].internalIds {
      assert y in ClassOf(m, belts, first);
      ConnectedTrans(joins, x, first, y);
    }
  }

  lemma InternalMember(m: Registry, belts: seq<Belt>, result: seq<Component>, i: nat, x: string)
    requires Decomposes(m, belts, result) && i < |result| && x in result[i].internalIds
    ensures x in InternalIds(m, belts) && x in m && !m[x].kind.Station?
  {
    assert IsClassComponent(m, belts, result[i]);
    assert x in ClassOf(m, belts, result[i].internalIds[0]);
  }

  /** A belt with an internal end in each of two components would have joined them. */
  lemma BeltInOneComponent(m: Registry, belts: seq<Belt>, result: seq<Component>, i: nat, j: nat, b: Belt)
    requires Decomposes(m, belts, result) && i < |result| && j < |result|
    requires b in result[i].belts && b in result[j].belts
    ensures i == j
  {
    assert IsClassComponent(m, belts, result[i]) && IsClassComponent(m, belts, result[j]);
    var ids, jds := Elements(result[i].internalIds), Elements(result[j].internalIds);
    var x := if b.source in ids then b.source else b.target;
    var y := if b.source in jds then b.source else b.target;
    assert x in ids && y in jds;
    InternalMember(m, belts, result, i, x);
    InternalMember(m, belts, result, j, y);
    if x == y {
      SameComponent(result, i, j, x);
    } else {
      assert InternalBelt(m, b);
      ConnectedEdge(JoinEdges(m, belts), x, y);
      TogetherIffJoined(m, belts, result, i, x, y);
      SameComponent(result, i, j, y);
    }
  }

  lemma SameComponent(result: seq<Component>, i: nat, j: nat, x: string)
    requires forall i, j | 0 <= i < j < |result| :: Elements(result[i].internalIds) !! Elements(result[j].internalIds)
    requires i < |result| && j < |result| && x in result[i].internalIds && x in result[j].internalIds
    ensures i == j
  {
    var a, b := Elements(result[i].internalIds), Elements(result[j].internalIds);
    assert x in a && x in b;
  }

  /** Distinct components share no internal entity, no belt and no production entity. */
  lemma ComponentsShareNothing(m: Registry, belts: seq<Belt>, result: seq<Component>, i: nat, j: nat)
    requires Decomposes(m, belts, result) && i < |result| && j < |result| && i != j
    ensures forall x | x in result[i].internalIds :: x !in result[j].internalIds
    ensures forall b | b in result[i].belts :: b !in result[j].belts
    ensures forall x | x in result[i].productionEntityIds :: x !in result[j].productionEntityIds
  {
    assert IsClassComponent(m, belts, result[i]) && IsClassComponent(m, belts, result[j]);
    forall x | x in result[i].internalIds ensures x !in result[j].internalIds {
      if x in result[j].internalIds { SameComponent(result, i, j, x); }
    }
    forall b | b in result[i].belts ensures b !in result[j].belts {
      if b in result[j].belts { BeltInOneComponent(m, belts, result, i, j, b); }
    }
  }

  /** All belts that carry one item out of one station, or into it, fall into one component. */
  lemma BoundaryBeltsTogether(m: Registry, belts: seq<Belt>, result: seq<Component>, i: nat, b: Belt, c: Belt)
    requires Decomposes(m, belts, result) && i < |result|
    requires b in result[i].belts && c in belts && Compete(m, b, c)
    ensures c in result[i].belts
  {
    assert IsClassComponent(m, belts, result[i]);
    var x, y := FarEnd(m, b), FarEnd(m, c);
    var station := if Leaves(m, b) then b.source else b.target;
    if station in result[i].internalIds {
      InternalMember(m, belts, result, i, station);
    }
    assert x in result[i].internalIds;
    assert InternalEnd(m, c, y) && y in InternalIds(m, belts);
    assert (x, y) in JoinEdges(m, belts);
    ConnectedEdge(JoinEdges(m, belts), x, y);
    TogetherIffJoined(m, belts, result, i, x, y);
  }

  /** Two components may share a station only through different directions or items. */
  lemma SharedStationDiffers(m: Registry, belts: seq<Belt>, result: seq<Component>, i: nat, j: nat, b: Belt, c: Belt)
    requires Decomposes(m, belts, result) && i < |result| && j < |result| && i != j
    requires b in result[i].belts && c in result[j].belts && b.itemId == c.itemId
    ensures !(Leaves(m, b) && Leaves(m, c) && b.source == c.source)
    ensures !(Enters(m, b) && Enters(m, c) && b.target == c.target)
  {
    assert IsClassComponent(m, belts, result[j]);
    if Compete(m, b, c) {
      BoundaryBeltsTogether(m, belts, result, i, b, c);
      BeltInOneComponent(m, belts, result, i, j, c);
    }
  }

  /** An accepted component lies on one planet, and a belt leaves it only into a station of that planet. */
  lemma EnclosedByStations(m: Registry, belts: seq<Belt>, result: seq<Component>, i: nat, b: Belt, e: string)
    requires Decomposes(m, belts, result) && i < |result|
    requires b in belts && Touches(b, Elements(result[i].internalIds)) && (e == b.source || e == b.target)
    ensures b in result[i].belts && b.planetId == result[i].planetId
    ensures e in result[i].EntityIds() && e in m && m[e].planetId == result[i].planetId
    ensures e in result[i].boundaryIds <==> m[e].kind.Station?
    ensures e in result[i].internalIds <==> !m[e].kind.Station?
  {
    var c, ids := result[i], Elements(result[i].internalIds);
    assert IsClassComponent(m, belts, c);
    assert b in c.belts;
    assert BeltAllowed(m, b, ids, c.planetId);
    assert EndAllowed(m, e, ids, c.planetId);
    if e in c.internalIds {
      assert e in ids;
      InternalMember(m, belts, result, i, e);
    } else {
      assert e !in ids;
      assert e in c.boundaryIds;
    }
  }

  /**
   * The belts that take one item out of one station to an entity with an empty identifier escape the
   * boundary join: the identifier counts as missing.
   */
  lemma EmptyIdentifierEscapes()
    ensures exists m: Registry, b: Belt, c: Belt ::
              && Resolved(m, b) && Resolved(m, c) && b.source == c.source && b.itemId == c.itemId
              && m[b.source].kind.Station? && !m[b.target].kind.Station? && !m[c.target].kind.Station?
              && !Connected(JoinEdges(m, [b, c]), b.target, c.target)
  {
    var station := Entity("s", Station, "p", 0, "", "hub", "");
    var x := Entity("x", Machine, "p", 0, "", "smelter", "iron");
    var nameless := x.(id := "");
    var m: Registry := map["s" := station, "x" := x, "" := nameless];
    var b, c := Belt("b", "s", "x", "iron", "p"), Belt("c", "s", "", "iron", "p");
    var joins := JoinEdges(m, [b, c]);
    assert !Leaves(m, c) && !Enters(m, c);
    forall e | e in joins ensures e == ("x", "x") {
    }
    if Connected(joins, "x", "") {
      var path :| IsPath(joins, path, "x", "");
      SameAlongPath(joins, map["x" := 0, "" := 1], path, "x", "");
    }
    assert b.target == "x" && c.target == "";
  }

  // ----- components in the plant's own fields -----

  /** May be part of a component: a vein of some resource, or an entity of some building. */
  ghost predicate MayBelong(e: Entity) {
    if e.kind == Vein then e.resourceId != "" else e.buildingId != ""
  }

  /** Produces on its own planet: a mined vein, or a machine with a recipe; neither building nor recipe works beyond the planet. */
  ghost predicate ProducesLocally(e: Entity) {
    || (e.kind == Vein && e.minerCount >= 1 && e.resourceId != "")
    || (e.kind == Machine && e.recipeId != "" && e.buildingId != ""
        && e.recipeId != "matrix_research" && e.recipeId != "solar_sail_launch" && e.recipeId != "carrier_rocket_launch"
        && e.buildingId != "construction_center" && e.buildingId != "time_warp_device"
        && e.buildingId != "micro_black_hole_connector" && e.buildingId != "galactic_material_exporter"
        && e.buildingId != "em_rail_ejector" && e.buildingId != "vertical_launching_silo" && e.buildingId != "ray_receiver")
  }

  lemma MembersInFields(m: Registry, belts: seq<Belt>, result: seq<Component>, i: nat, id: string)
    requires Decomposes(m, belts, result) && i < |result| && id in result[i].internalIds
    ensures id in m && m[id].kind != Station && m[id].planetId == result[i].planetId && MayBelong(m[id])
  {
    assert IsClassComponent(m, belts, result[i]);
    assert id in Elements(result[i].internalIds);
    InternalMember(m, belts, result, i, id);
  }

  lemma BeltsInFields(m: Registry, belts: seq<Belt>, result: seq<Component>, i: nat, b: Belt)
    requires Decomposes(m, belts, result) && i < |result|
    ensures b in result[i].belts <==> b in belts && (b.source in result[i].internalIds || b.target in result[i].internalIds)
    ensures b in result[i].belts ==> b.planetId == result[i].planetId
  {
    assert IsClassComponent(m, belts, result[i]);
    if b in result[i].belts {
      assert BeltAllowed(m, b, Elements(result[i].internalIds), result[i].planetId);
    }
  }

  lemma BoundaryInFields(m: Registry, belts: seq<Belt>, result: seq<Component>, i: nat, id: string)
    requires Decomposes(m, belts, result) && i < |result|
    ensures id in result[i].boundaryIds <==>
            id !in result[i].internalIds && exists d | d in result[i].belts :: id == d.source || id == d.target
    ensures id in result[i].boundaryIds ==> id in m && m[id].kind == Station && m[id].planetId == result[i].planetId
  {
    assert IsClassComponent(m, belts, result[i]);
    assert id in Elements(result[i].internalIds) <==> id in result[i].internalIds;
    if id in result[i].boundaryIds {
      var d :| d in result[i].belts && (id == d.source || id == d.target);
      EnclosedByStations(m, belts, result, i, d, id);
    }
  }

  lemma LocalProducers(e: Entity)
    ensures ProducesLocally(e) <==> IsContractProductionEntity(e)
  {
  }

  lemma ProducersInFields(m: Registry, belts: seq<Belt>, result: seq<Component>, i: nat, id: string)
    requires Decomposes(m, belts, result) && i < |result|
    ensures id in result[i].productionEntityIds <==> id in result[i].internalIds && id in m && ProducesLocally(m[id])
  {
    assert IsClassComponent(m, belts, result[i]);
    assert id in Elements(result[i].internalIds) <==> id in result[i].internalIds;
    if id in result[i].internalIds {
      MembersInFields(m, belts, result, i, id);
      LocalProducers(m[id]);
    }
  }

  /** What the members, belts, boundaries and producers of a component are. */
  lemma ComponentInFields(m: Registry, belts: seq<Belt>, result: seq<Component>, i: nat, id: string, b: Belt)
    requires Decomposes(m, belts, result) && i < |result|
    ensures var c := result[i];
            && (id in c.internalIds ==> id in m && m[id].kind != Station && m[id].planetId == c.planetId && MayBelong(m[id]))
            && (b in c.belts <==> b in belts && (b.source in c.internalIds || b.target in c.internalIds))
            && (b in c.belts ==> b.planetId == c.planetId)
            && (id in c.boundaryIds <==> id !in c.internalIds && exists d | d in c.belts :: id == d.source || id == d.target)
            && (id in c.boundaryIds ==> id in m && m[id].kind == Station && m[id].planetId == c.planetId)
            && (id in c.productionEntityIds <==> id in c.internalIds && id in m && ProducesLocally(m[id]))
            && (id in c.EntityIds() <==> id in c.internalIds || id in c.boundaryIds)
  {
    if id in result[i].internalIds {
      MembersInFields(m, belts, result, i, id);
    }
    BeltsInFields(m, belts, result, i, b);
    BoundaryInFields(m, belts, result, i, id);
    ProducersInFields(m, belts, result, i, id);
  }

  /** Every connected group that meets those conditions is a component. */
  lemma GroupIsCovered(m: Registry, belts: seq<Belt>, result: seq<Component>, x: string, planet: string)
    requires Decomposes(m, belts, result) && x in InternalIds(m, belts)
    requires forall e | e in ClassOf(m, belts, x) :: e in m && MayBelong(m[e]) && m[e].planetId == planet
    requires forall b | b in belts && (b.source in ClassOf(m, belts, x) || b.target in ClassOf(m, belts, x)) ::
               && b.planetId == planet
               && forall e | e in {b.source, b.target} && e !in ClassOf(m, belts, x) ::
                    e in m && m[e].kind == Station && m[e].planetId == planet
    ensures exists i | 0 <= i < |result| :: x in result[i].internalIds
  {
    var ids := ClassOf(m, belts, x);
    ConnectedRefl(JoinEdges(m, belts), x);
    assert x in ids;
    var b :| b in belts && x in {b.source, b.target} && InternalEnd(m, b, x);
    assert Touches(b, ids);
    assert Acceptable(m, belts, ids, planet);
    assert IsContractable(m, belts, ids);
    assert Covered(result, x);
  }

  /** Position `k` is the last one with the identifier. */
  ghost predicate LastAt(entities: seq<Entity>, id: string, k: int) {
    0 <= k < |entities| && entities[k].id == id && forall j | k < j < |entities| :: entities[j].id != id
  }

  /** The entity lookup gives, of several entities with one identifier, the last, and knows no other identifier. */
  lemma {:induction false} LastEntityWins(entities: seq<Entity>, id: string)
    ensures id in ById(entities) <==> exists k :: LastAt(entities, id, k)
    ensures forall k | LastAt(entities, id, k) :: id in ById(entities) && ById(entities)[id] == entities[k]
  {
    if entities != [] {
      var n := |entities| - 1;
      var rest := entities[..n];
      LastEntityWins(rest, id);
      if entities[n].id == id {
        assert LastAt(entities, id, n);
      } else {
        forall k ensures LastAt(entities, id, k) <==> LastAt(rest, id, k) {
          assert forall j | 0 <= j < n :: entities[j] == rest[j];
        }
      }
    }
  }
}
