/** The factory graph: entities, belts, and which ends of a belt are internal or at a station boundary. */
module Factory {
  import opened Wrappers
  import opened Paths

  datatype Kind = Vein | Machine | Station | OtherKind(name: string)

  /** Absent optional identifiers are empty strings, which the source also treats as absent. */
  datatype Entity = Entity(
    id: string, kind: Kind, planetId: string,
    minerCount: int, resourceId: string, buildingId: string, recipeId: string)

  datatype Belt = Belt(id: string, source: string, target: string, itemId: string, planetId: string)

  datatype Plant = Plant(entities: seq<Entity>, belts: seq<Belt>)

  type Registry = m: map<string, Entity> | forall id | id in m :: m[id].id == id

  const GLOBAL_MACHINE_BUILDINGS: set<string> := {
    "construction_center", "time_warp_device", "micro_black_hole_connector", "galactic_material_exporter",
    "em_rail_ejector", "vertical_launching_silo", "ray_receiver"
  }

  const GLOBAL_RECIPE_IDS: set<string> := {"matrix_research", "solar_sail_launch", "carrier_rocket_launch"}

  predicate IsContractProductionEntity(e: Entity) {
    if e.kind.Vein? then e.minerCount > 0 && e.resourceId != ""
    else e.kind.Machine? && e.recipeId != "" && e.buildingId != ""
         && e.buildingId !in GLOBAL_MACHINE_BUILDINGS && e.recipeId !in GLOBAL_RECIPE_IDS
  }

  predicate IsAllowedComponentEntity(e: Entity) {
    if e.kind.Vein? then e.resourceId != "" else e.buildingId != ""
  }

  /** The entity lookup; a later entity with the same identifier wins. */
  function ById(entities: seq<Entity>): Registry {
    if entities == [] then map[]
    else
      var last := entities[|entities| - 1];
      ById(entities[..|entities| - 1])[last.id := last]
  }

  predicate Resolved(m: Registry, b: Belt) {
    b.source in m && b.target in m
  }

  /** A non-station end of a belt whose two ends are known. */
  predicate InternalEnd(m: Registry, b: Belt, e: string) {
    Resolved(m, b) && (e == b.source || e == b.target) && !m[e].kind.Station?
  }

  predicate InternalBelt(m: Registry, b: Belt) {
    Resolved(m, b) && !m[b.source].kind.Station? && !m[b.target].kind.Station?
  }

  /** A station, a direction and an item. */
  datatype BoundaryKey = BoundaryKey(outgoing: bool, station: string, item: string)

  datatype Boundary = Boundary(key: BoundaryKey, internalId: string)

  /** The station boundary a belt crosses, with its internal end; an empty identifier counts as none. */
  function BoundaryOf(m: Registry, b: Belt): Option<Boundary> {
    if !Resolved(m, b) then None
    else if m[b.source].kind.Station? && !m[b.target].kind.Station? && b.target != "" then
      Some(Boundary(BoundaryKey(true, b.source, b.itemId), b.target))
    else if m[b.target].kind.Station? && !m[b.source].kind.Station? && b.source != "" then
      Some(Boundary(BoundaryKey(false, b.target, b.itemId), b.source))
    else None
  }

  ghost function InternalIds(m: Registry, belts: seq<Belt>): set<string> {
    set b, e | b in belts && e in {b.source, b.target} && InternalEnd(m, b, e) :: e
  }

  /** The belt takes items out of a station to a known entity that is no station. */
  predicate Leaves(m: Registry, b: Belt) {
    b.source in m && b.target in m && m[b.source].kind.Station? && !m[b.target].kind.Station? && b.target != ""
  }

  /** The belt brings items to a station from a known entity that is no station. */
  predicate Enters(m: Registry, b: Belt) {
    b.source in m && b.target in m && m[b.target].kind.Station? && !m[b.source].kind.Station? && b.source != ""
  }

  /** Both belts leave, or both enter, one station with one item. */
  predicate Compete(m: Registry, b: Belt, c: Belt) {
    || (Leaves(m, b) && Leaves(m, c) && b.source == c.source && b.itemId == c.itemId)
    || (Enters(m, b) && Enters(m, c) && b.target == c.target && b.itemId == c.itemId)
  }

  /** The end of such a belt that is no station. */
  function FarEnd(m: Registry, b: Belt): string {
    if Leaves(m, b) then b.target else b.source
  }

  /** What joins two internal entities: a belt between them, or belts competing for one station item and direction. */
  ghost function JoinEdges(m: Registry, belts: seq<Belt>): Edges<string> {
    (set b | b in belts && InternalBelt(m, b) :: (b.source, b.target)) +
    (set b, c | b in belts && c in belts && Compete(m, b, c) :: (FarEnd(m, b), FarEnd(m, c)))
  }

  /** A belt has a boundary key exactly if it leaves or enters a station; competing belts are those with one key. */
  lemma OneKeyIffCompete(m: Registry, b: Belt, c: Belt)
    ensures BoundaryOf(m, b).Some? <==> Leaves(m, b) || Enters(m, b)
    ensures BoundaryOf(m, b).Some? ==> BoundaryOf(m, b).value.internalId == FarEnd(m, b)
    ensures Compete(m, b, c) <==>
            BoundaryOf(m, b).Some? && BoundaryOf(m, c).Some? && BoundaryOf(m, b).value.key == BoundaryOf(m, c).value.key
  {
  }
}
