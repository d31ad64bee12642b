/** Splitting the belt graph into production components with stations as boundaries. */
module Components {
  import opened Wrappers
  import opened Numbering
  import opened Paths
  import opened UnionFind
  import opened Factory

  // ----- joining -----

  /** What the union-find holds once the first `n` belts have been joined end to end. */
  ghost predicate JoinedBelts(sets: DisjointSets, m: Registry, belts: seq<Belt>, n: nat)
    requires n <= |belts|
    reads sets
  {
    && sets.edges <= JoinEdges(m, belts)
    && (forall i | 0 <= i < n && InternalBelt(m, belts[i]) :: (belts[i].source, belts[i].target) in sets.edges)
    && sets.parent.Keys == InternalIds(m, belts[..n])
  }

  ghost function BeltEnds(m: Registry, b: Belt): set<string> {
    set e | e in {b.source, b.target} && InternalEnd(m, b, e)
  }

  lemma InternalIdsStep(m: Registry, belts: seq<Belt>, n: nat)
    requires n < |belts|
    ensures InternalIds(m, belts[..n + 1]) == InternalIds(m, belts[..n]) + BeltEnds(m, belts[n])
  {
    assert belts[..n + 1] == belts[..n] + [belts[n]];
    var more, rest := InternalIds(m, belts[..n + 1]), InternalIds(m, belts[..n]);
    forall e | e in more ensures e in rest + BeltEnds(m, belts[n]) {
      var b :| b in belts[..n + 1] && e in {b.source, b.target} && InternalEnd(m, b, e);
      if b != belts[n] {
        assert b in belts[..n];
      }
    }
    forall e | e in BeltEnds(m, belts[n]) ensures e in more {
      assert belts[n] in belts[..n + 1];
    }
  }

  method JoinBelt(sets: DisjointSets, m: Registry, belt: Belt)
    requires sets.Valid()
    modifies sets
    ensures sets.Valid()
    ensures sets.parent.Keys == old(sets.parent.Keys) + BeltEnds(m, belt)
    ensures sets.edges == old(sets.edges) + if InternalBelt(m, belt) then {(belt.source, belt.target)} else {}
  {
    BeltEndsCases(m, belt);
    if !Resolved(m, belt) {
      return;
    }
    var source, target := m[belt.source], m[belt.target];
    if source.kind.Station? {
      if !target.kind.Station? { sets.Ensure(target.id); }
    } else {
      sets.Ensure(source.id);
      if !target.kind.Station? {
        sets.Ensure(target.id);
        sets.Union(source.id, target.id);
      }
    }
  }

  lemma BeltEndsCases(m: Registry, b: Belt)
    ensures !Resolved(m, b) ==> BeltEnds(m, b) == {}
    ensures Resolved(m, b) ==> m[b.source].id == b.source && m[b.target].id == b.target
    ensures Resolved(m, b) ==>
              BeltEnds(m, b) == (if m[b.source].kind.Station? then {} else {b.source}) +
                                (if m[b.target].kind.Station? then {} else {b.target})
  {
  }

  method JoinBelts(sets: DisjointSets, m: Registry, belts: seq<Belt>)
    requires sets.Valid() && sets.parent == map[] && sets.edges == {}
    modifies sets
    ensures sets.Valid() && JoinedBelts(sets, m, belts, |belts|)
  {
    var n := 0;
    while n < |belts|
      invariant n <= |belts|
      invariant sets.Valid() && JoinedBelts(sets, m, belts, n)
    {
      InternalIdsStep(m, belts, n);
      JoinBelt(sets, m, belts[n]);
      n := n + 1;
    }
  }

  /** Every boundary key met so far has an owner, and every competitor is joined to it. */
  ghost predicate JoinedBoundaries(edges: Edges<string>, m: Registry, belts: seq<Belt>, n: nat, owners: map<BoundaryKey, string>)
    requires n <= |belts|
  {
    && (forall i | 0 <= i < n && BoundaryOf(m, belts[i]).Some? :: Owned(edges, owners, BoundaryOf(m, belts[i]).value))
    && (forall k | k in owners :: HasOwner(m, belts, k, owners[k]))
  }

  ghost predicate HasOwner(m: Registry, belts: seq<Belt>, key: BoundaryKey, owner: string) {
    exists b :: b in belts && BoundaryOf(m, b) == Some(Boundary(key, owner))
  }

  ghost predicate Owned(edges: Edges<string>, owners: map<BoundaryKey, string>, b: Boundary) {
    b.key in owners && (owners[b.key] == b.internalId || (owners[b.key], b.internalId) in edges)
  }

  /** The ends of one boundary are internal, and a second belt at the same boundary is to be joined with the first. */
  lemma Competitors(m: Registry, belts: seq<Belt>, n: nat, owner: string)
    requires n < |belts| && BoundaryOf(m, belts[n]).Some?
    requires HasOwner(m, belts, BoundaryOf(m, belts[n]).value.key, owner)
    ensures BoundaryOf(m, belts[n]).value.internalId in InternalIds(m, belts)
    ensures owner in InternalIds(m, belts)
    ensures (owner, BoundaryOf(m, belts[n]).value.internalId) in JoinEdges(m, belts)
  {
    var b := BoundaryOf(m, belts[n]).value;
    assert belts[n] in belts && InternalEnd(m, belts[n], b.internalId);
    var c :| c in belts && BoundaryOf(m, c) == Some(Boundary(b.key, owner));
    assert InternalEnd(m, c, owner);
    OneKeyIffCompete(m, c, belts[n]);
    OneKeyIffCompete(m, belts[n], c);
  }

  lemma BoundaryStep(edges: Edges<string>, edges': Edges<string>, m: Registry, belts: seq<Belt>, n: nat,
                     owners: map<BoundaryKey, string>, owners': map<BoundaryKey, string>)
    requires n < |belts| && JoinedBoundaries(edges, m, belts, n, owners)
    requires match BoundaryOf(m, belts[n])
             case None => edges' == edges && owners' == owners
             case Some(b) =>
               if b.key in owners then edges' == edges + {(owners[b.key], b.internalId)} && owners' == owners
               else edges' == edges && owners' == owners[b.key := b.internalId]
    ensures JoinedBoundaries(edges', m, belts, n + 1, owners')
  {
    forall i | 0 <= i < n + 1 && BoundaryOf(m, belts[i]).Some?
      ensures Owned(edges', owners', BoundaryOf(m, belts[i]).value)
    {
      if i < n {
        assert Owned(edges, owners, BoundaryOf(m, belts[i]).value);
      }
    }
    forall k | k in owners' ensures HasOwner(m, belts, k, owners'[k]) {
      if k !in owners {
        assert belts[n] in belts;
      }
    }
  }

  lemma AddEdge(edges: Edges<string>, e: (string, string), all: Edges<string>)
    requires edges <= all && e in all
    ensures edges <= edges + {e} <= all
  {
  }

  method JoinBoundary(sets: DisjointSets, m: Registry, belts: seq<Belt>, n: nat, boundaryOwners: map<BoundaryKey, string>)
    returns (owners: map<BoundaryKey, string>)
    requires sets.Valid() && sets.parent.Keys == InternalIds(m, belts) && sets.edges <= JoinEdges(m, belts)
    requires n < |belts| && JoinedBoundaries(sets.edges, m, belts, n, boundaryOwners)
    modifies sets
    ensures sets.Valid() && sets.parent.Keys == old(sets.parent.Keys)
    ensures old(sets.edges) <= sets.edges <= JoinEdges(m, belts)
    ensures JoinedBoundaries(sets.edges, m, belts, n + 1, owners)
  {
    owners := boundaryOwners;
    var boundary := BoundaryOf(m, belts[n]);
    if boundary.Some? {
      var key, internalId := boundary.value.key, boundary.value.internalId;
      if key in owners {
        Competitors(m, belts, n, owners[key]);
        AddEdge(sets.edges, (owners[key], internalId), JoinEdges(m, belts));
        sets.Union(owners[key], internalId);
      } else {
        owners := owners[key := internalId];
      }
    }
    BoundaryStep(old(sets.edges), sets.edges, m, belts, n, boundaryOwners, owners);
  }

  method JoinBoundaries(sets: DisjointSets, m: Registry, belts: seq<Belt>) returns (ghost owners: map<BoundaryKey, string>)
    requires sets.Valid() && JoinedBelts(sets, m, belts, |belts|)
    modifies sets
    ensures sets.Valid() && JoinedBelts(sets, m, belts, |belts|)
    ensures JoinedBoundaries(sets.edges, m, belts, |belts|, owners)
  {
    var boundaryOwners: map<BoundaryKey, string> := map[];
    assert belts[..|belts|] == belts;
    var n := 0;
    while n < |belts|
      invariant n <= |belts|
      invariant sets.Valid() && sets.parent.Keys == InternalIds(m, belts)
      invariant old(sets.edges) <= sets.edges <= JoinEdges(m, belts)
      invariant JoinedBoundaries(sets.edges, m, belts, n, boundaryOwners)
    {
      boundaryOwners := JoinBoundary(sets, m, belts, n, boundaryOwners);
      n := n + 1;
    }
    owners := boundaryOwners;
  }

  /** The union-find's own edges connect exactly what the belts and shared boundaries connect. */
  lemma JoinedExactly(sets: DisjointSets, m: Registry, belts: seq<Belt>, owners: map<BoundaryKey, string>, a: string, b: string)
    requires JoinedBelts(sets, m, belts, |belts|) && JoinedBoundaries(sets.edges, m, belts, |belts|, owners)
    ensures Connected(sets.edges, a, b) <==> Connected(JoinEdges(m, belts), a, b)
  {
    if Connected(sets.edges, a, b) {
      ConnectedMono(sets.edges, JoinEdges(m, belts), a, b);
    }
    if Connected(JoinEdges(m, belts), a, b) {
      forall e | e in JoinEdges(m, belts) ensures Connected(sets.edges, e.0, e.1) {
        if b :| b in belts && InternalBelt(m, b) && e == (b.source, b.target) {
          var i :| 0 <= i < |belts| && belts[i] == b;
          ConnectedEdge(sets.edges, e.0, e.1);
        } else {
          var b, c :| b in belts && c in belts && Compete(m, b, c) && e == (FarEnd(m, b), FarEnd(m, c));
          OneKeyIffCompete(m, b, c);
          OneKeyIffCompete(m, c, b);
          OwnerConnects(sets.edges, owners, m, belts, b);
          OwnerConnects(sets.edges, owners, m, belts, c);
          var owner := owners[BoundaryOf(m, b).value.key];
          ConnectedSym(sets.edges, owner, e.0);
          ConnectedTrans(sets.edges, e.0, owner, e.1);
        }
      }
      var path :| IsPath(JoinEdges(m, belts), path, a, b);
      ConnectedThrough(JoinEdges(m, belts), sets.edges, path, a, b);
    }
  }

  lemma OwnerConnects(edges: Edges<string>, owners: map<BoundaryKey, string>, m: Registry, belts: seq<Belt>, b: Belt)
    requires b in belts && BoundaryOf(m, b).Some?
    requires forall i | 0 <= i < |belts| && BoundaryOf(m, belts[i]).Some? :: Owned(edges, owners, BoundaryOf(m, belts[i]).value)
    ensures BoundaryOf(m, b).value.key in owners
    ensures Connected(edges, owners[BoundaryOf(m, b).value.key], BoundaryOf(m, b).value.internalId)
  {
    var i :| 0 <= i < |belts| && belts[i] == b;
    var boundary := BoundaryOf(m, b).value;
    assert Owned(edges, owners, boundary);
    if owners[boundary.key] == boundary.internalId {
      ConnectedRefl(edges, boundary.internalId);
    } else {
      ConnectedEdge(edges, owners[boundary.key], boundary.internalId);
    }
  }

  // ----- grouping -----

  /** The internal entities connected to `x`. */
  ghost function ClassOf(m: Registry, belts: seq<Belt>, x: string): set<string> {
    set y | y in InternalIds(m, belts) && Connected(JoinEdges(m, belts), x, y)
  }

  function Elements(s: seq<string>): (r: set<string>)
    ensures forall x :: x in r <==> x in s
  {
    set x | x in s
  }

  predicate Distinct<T(==)>(s: seq<T>) {
    forall i, j | 0 <= i < j < |s| :: s[i] != s[j]
  }

  /** The groups hold the first `n` keys, split by root, in order of first appearance. */
  ghost predicate Grouped(root: map<string, string>, order: seq<string>, n: nat, roots: seq<string>, groups: map<string, seq<string>>)
    requires n <= |order|
  {
    && Distinct(roots) && (forall r :: r in roots <==> r in groups)
    && (forall r | r in groups :: groups[r] != [] && Distinct(groups[r]))
    && (forall r | r in groups :: GroupOfRoot(root, order[..n], groups[r], r))
    && (forall x | x in order[..n] :: x in root && root[x] in groups)
  }

  ghost predicate GroupOfRoot(root: map<string, string>, keys: seq<string>, group: seq<string>, r: string) {
    forall x :: x in group <==> x in keys && x in root && root[x] == r
  }

  lemma GroupStep(root: map<string, string>, order: seq<string>, n: nat, roots: seq<string>,
                  groups: map<string, seq<string>>, roots': seq<string>, groups': map<string, seq<string>>)
    requires n < |order| && Distinct(order) && order[n] in root
    requires Grouped(root, order, n, roots, groups)
    requires var r := root[order[n]];
             if r in groups then roots' == roots && groups' == groups[r := groups[r] + [order[n]]]
             else roots' == roots + [r] && groups' == groups[r := [order[n]]]
    ensures Grouped(root, order, n + 1, roots', groups')
  {
    var id, r := order[n], root[order[n]];
    assert order[..n + 1] == order[..n] + [id];
    assert id !in order[..n];
    forall q | q in groups' ensures GroupOfRoot(root, order[..n + 1], groups'[q], q) {
      if q in groups {
        assert GroupOfRoot(root, order[..n], groups[q], q);
      }
    }
    if r in groups {
      assert GroupOfRoot(root, order[..n], groups[r], r);
    }
  }

  method GroupByRoot(sets: DisjointSets) returns (roots: seq<string>, groups: map<string, seq<string>>)
    requires sets.Valid()
    modifies sets
    ensures sets.Valid() && sets.edges == old(sets.edges) && sets.root == old(sets.root) && sets.order == old(sets.order)
    ensures Grouped(sets.root, sets.order, |sets.order|, roots, groups)
  {
    roots, groups := [], map[];
    var n := 0;
    ghost var order, root := sets.order, sets.root;
    while n < |sets.order|
      invariant sets.Valid() && sets.edges == old(sets.edges) && sets.root == root && sets.order == order
      invariant n <= |order|
      invariant Grouped(root, order, n, roots, groups)
    {
      var id := sets.order[n];
      assert id in sets.order;
      var r := sets.Find(id);
      ghost var oldRoots, oldGroups := roots, groups;
      if r in groups {
        groups := groups[r := groups[r] + [id]];
      } else {
        groups := groups[r := [id]];
        roots := roots + [r];
      }
      GroupStep(root, order, n, oldRoots, oldGroups, roots, groups);
      n := n + 1;
    }
  }

  // ----- components -----

  datatype Component = Component(
    key: nat, planetId: string, internalIds: seq<string>, boundaryIds: seq<string>,
    belts: seq<Belt>, productionEntityIds: seq<string>)
  {
    function EntityIds(): seq<string> {
      internalIds + boundaryIds
    }
  }

  predicate Touches(b: Belt, ids: set<string>) {
    b.source in ids || b.target in ids
  }

  function Incident(belts: seq<Belt>, ids: set<string>): (r: seq<Belt>)
    ensures forall b {:trigger b in r} :: b in r <==> b in belts && Touches(b, ids)
  {
    if belts == [] then []
    else
      var last := belts[|belts| - 1];
      var rest := Incident(belts[..|belts| - 1], ids);
      assert belts == belts[..|belts| - 1] + [last];
      if Touches(last, ids) then rest + [last] else rest
  }

  function AddNew(s: seq<string>, x: string): (r: seq<string>)
    ensures forall y :: y in r <==> y in s || y == x
    ensures Distinct(s) ==> Distinct(r)
  {
    if x in s then s else s + [x]
  }

  /** The ends of belts that lie outside the group. */
  function OuterEnds(belts: seq<Belt>, ids: set<string>): (r: seq<string>)
    ensures Distinct(r)
    ensures forall e {:trigger e in r} :: e in r <==> e !in ids && exists b :: b in belts && (e == b.source || e == b.target)
  {
    if belts == [] then []
    else
      var last := belts[|belts| - 1];
      var rest := OuterEnds(belts[..|belts| - 1], ids);
      assert belts == belts[..|belts| - 1] + [last];
      var more := if last.source in ids then rest else AddNew(rest, last.source);
      if last.target in ids then more else AddNew(more, last.target)
  }

  function ProductionIds(m: Registry, ids: seq<string>): (r: seq<string>)
    requires forall id | id in ids :: id in m
    ensures forall id :: id in r <==> id in ids && IsContractProductionEntity(m[id])
  {
    if ids == [] then []
    else
      var last := ids[|ids| - 1];
      var rest := ProductionIds(m, ids[..|ids| - 1]);
      assert ids == ids[..|ids| - 1] + [last];
      if IsContractProductionEntity(m[last]) then rest + [last] else rest
  }

  /** The end of an incident belt: inside the group, or a station of the same planet. */
  predicate EndAllowed(m: Registry, e: string, ids: set<string>, planetId: string) {
    e in ids || (e in m && m[e].kind.Station? && m[e].planetId == planetId)
  }

  predicate GroupAllowed(m: Registry, ids: set<string>, planetId: string) {
    && ids != {}
    && forall e | e in ids :: e in m && IsAllowedComponentEntity(m[e]) && m[e].planetId == planetId
  }

  predicate BeltAllowed(m: Registry, b: Belt, ids: set<string>, planetId: string) {
    b.planetId == planetId && EndAllowed(m, b.source, ids, planetId) && EndAllowed(m, b.target, ids, planetId)
  }

  predicate BeltsAllowed(m: Registry, belts: seq<Belt>, ids: set<string>, planetId: string) {
    && (exists b | b in belts :: Touches(b, ids))
    && (forall b | b in belts && Touches(b, ids) :: BeltAllowed(m, b, ids, planetId))
  }

  /** A group can be contracted: allowed entities and belts of one planet, with stations as the only boundary. */
  predicate Acceptable(m: Registry, belts: seq<Belt>, ids: set<string>, planetId: string) {
    GroupAllowed(m, ids, planetId) && BeltsAllowed(m, belts, ids, planetId)
  }

  /** The same test on the incident belts and their outer ends. */
  predicate IncidentAllowed(m: Registry, incident: seq<Belt>, outer: seq<string>, planetId: string) {
    && incident != []
    && (forall b | b in incident :: b.planetId == planetId)
    && (forall e | e in outer :: e in m && m[e].kind.Station? && m[e].planetId == planetId)
  }

  lemma IncidentSuffices(m: Registry, belts: seq<Belt>, ids: set<string>, p: string)
    requires IncidentAllowed(m, Incident(belts, ids), OuterEnds(Incident(belts, ids), ids), p)
    ensures BeltsAllowed(m, belts, ids, p)
  {
    var incident := Incident(belts, ids);
    var outer := OuterEnds(incident, ids);
    assert incident[0] in incident;
    forall b | b in belts && Touches(b, ids) ensures BeltAllowed(m, b, ids, p) {
      assert b in incident;
      assert b.source in ids || b.source in outer;
      assert b.target in ids || b.target in outer;
    }
  }

  lemma IncidentNecessary(m: Registry, belts: seq<Belt>, ids: set<string>, p: string)
    requires BeltsAllowed(m, belts, ids, p)
    ensures IncidentAllowed(m, Incident(belts, ids), OuterEnds(Incident(belts, ids), ids), p)
  {
    var incident := Incident(belts, ids);
    var touching :| touching in belts && Touches(touching, ids);
    assert touching in incident;
    forall b | b in incident ensures b.planetId == p {
      assert BeltAllowed(m, b, ids, p);
    }
    forall e | e in OuterEnds(incident, ids) ensures EndAllowed(m, e, ids, p) && e !in ids {
      var c :| c in incident && (e == c.source || e == c.target);
      assert BeltAllowed(m, c, ids, p);
    }
  }

  function ComponentOf(m: Registry, belts: seq<Belt>, group: seq<string>, key: nat): (r: Option<Component>)
    ensures r.Some? <==> IsContractable(m, belts, Elements(group))
    ensures r.Some? ==> Describes(m, belts, r.value) && r.value.internalIds == group && r.value.key == key
  {
    var ids := Elements(group);
    if group == [] || group[0] !in m then
      assert !IsContractable(m, belts, ids) by {
        if group != [] { assert group[0] in ids; }
      }
      None
    else
      var planetId := m[group[0]].planetId;
      var incident := Incident(belts, ids);
      var outer := OuterEnds(incident, ids);
      OnePlanet(m, belts, ids, group[0]);
      if GroupAllowed(m, ids, planetId) && IncidentAllowed(m, incident, outer, planetId) then
        IncidentSuffices(m, belts, ids, planetId);
        Some(Component(key, planetId, group, outer, incident, ProductionIds(m, group)))
      else
        assert !Acceptable(m, belts, ids, planetId) by {
          if BeltsAllowed(m, belts, ids, planetId) { IncidentNecessary(m, belts, ids, planetId); }
        }
        None
  }

  /** A contractable group lies on the planet of any of its members. */
  lemma OnePlanet(m: Registry, belts: seq<Belt>, ids: set<string>, x: string)
    requires x in ids && x in m
    ensures IsContractable(m, belts, ids) <==> Acceptable(m, belts, ids, m[x].planetId)
  {
  }

  /** What a component record says about its group. */
  ghost predicate Describes(m: Registry, belts: seq<Belt>, c: Component) {
    var ids := Elements(c.internalIds);
    && Acceptable(m, belts, ids, c.planetId)
    && (forall b {:trigger b in c.belts} :: b in c.belts <==> b in belts && Touches(b, ids))
    && (forall e {:trigger e in c.boundaryIds} :: e in c.boundaryIds <==> e !in ids && exists b :: b in c.belts && (e == b.source || e == b.target))
    && (forall e {:trigger e in c.productionEntityIds} :: e in c.productionEntityIds <==> e in ids && IsContractProductionEntity(m[e]))
  }

  ghost predicate IsContractable(m: Registry, belts: seq<Belt>, ids: set<string>) {
    exists p :: Acceptable(m, belts, ids, p)
  }

  /** The components are exactly the contractable connection classes. */
  ghost predicate Decomposes(m: Registry, belts: seq<Belt>, result: seq<Component>) {
    && (forall i | 0 <= i < |result| :: IsClassComponent(m, belts, result[i]) && result[i].key == i)
    && (forall i, j | 0 <= i < j < |result| :: Elements(result[i].internalIds) !! Elements(result[j].internalIds))
    && (forall x | x in InternalIds(m, belts) && IsContractable(m, belts, ClassOf(m, belts, x)) :: Covered(result, x))
  }

  ghost predicate IsClassComponent(m: Registry, belts: seq<Belt>, c: Component) {
    && Describes(m, belts, c) && c.internalIds != [] && Distinct(c.internalIds)
    && c.internalIds[0] in InternalIds(m, belts)
    && Elements(c.internalIds) == ClassOf(m, belts, c.internalIds[0])
  }

  ghost predicate Covered(result: seq<Component>, x: string) {
    exists i | 0 <= i < |result| :: x in result[i].internalIds
  }

  /** One group of the finished union-find is one connection class. */
  lemma RootGroupIsClass(sets: DisjointSets, m: Registry, belts: seq<Belt>, owners: map<BoundaryKey, string>,
                         roots: seq<string>, groups: map<string, seq<string>>, x: string)
    requires sets.Valid() && JoinedBelts(sets, m, belts, |belts|)
    requires JoinedBoundaries(sets.edges, m, belts, |belts|, owners)
    requires Grouped(sets.root, sets.order, |sets.order|, roots, groups)
    requires x in InternalIds(m, belts)
    ensures x in sets.root && sets.root[x] in groups
    ensures x in groups[sets.root[x]] && Elements(groups[sets.root[x]]) == ClassOf(m, belts, x)
  {
    InternalInOrder(sets, m, belts);
    assert sets.order[..|sets.order|] == sets.order;
    var r := sets.root[x];
    assert GroupOfRoot(sets.root, sets.order, groups[r], r);
    forall y ensures y in ClassOf(m, belts, x) <==> y in sets.order && y in sets.root && sets.root[y] == r {
      RootMember(sets, m, belts, owners, x, y);
    }
    SameMembers(sets.root, sets.order, groups[r], r, ClassOf(m, belts, x));
  }

  lemma SameMembers(root: map<string, string>, order: seq<string>, group: seq<string>, r: string, members: set<string>)
    requires GroupOfRoot(root, order, group, r)
    requires forall y {:trigger y in members} :: y in members <==> y in order && y in root && root[y] == r
    ensures Elements(group) == members
    ensures forall y :: y in group <==> y in members
  {
  }

  lemma RootMember(sets: DisjointSets, m: Registry, belts: seq<Belt>, owners: map<BoundaryKey, string>, x: string, y: string)
    requires sets.Valid() && JoinedBelts(sets, m, belts, |belts|)
    requires JoinedBoundaries(sets.edges, m, belts, |belts|, owners)
    requires x in InternalIds(m, belts)
    ensures x in sets.root
    ensures y in ClassOf(m, belts, x) <==> y in sets.order && y in sets.root && sets.root[y] == sets.root[x]
  {
    InternalInOrder(sets, m, belts);
    if y in sets.order {
      SameRootIffConnected(sets.root, sets.edges, x, y);
      JoinedExactly(sets, m, belts, owners, x, y);
    }
  }

  lemma InternalInOrder(sets: DisjointSets, m: Registry, belts: seq<Belt>)
    requires sets.Valid() && JoinedBelts(sets, m, belts, |belts|)
    ensures forall x {:trigger x in InternalIds(m, belts)} :: x in InternalIds(m, belts) <==> x in sets.order
    ensures forall x {:trigger x in sets.order} :: x in sets.order <==> x in sets.root
  {
    assert belts[..|belts|] == belts;
  }

  function Maker(m: Registry, belts: seq<Belt>): (seq<string>, nat) -> Option<Component> {
    (group: seq<string>, key: nat) => ComponentOf(m, belts, group, key)
  }

  /** Keeps the groups that can be contracted, in order. */
  method Contractable(m: Registry, belts: seq<Belt>, groups: seq<seq<string>>) returns (result: seq<Component>)
    ensures result == KeepSome(Maker(m, belts), groups, |groups|)
  {
    result := [];
    var n := 0;
    while n < |groups|
      invariant n <= |groups| && result == KeepSome(Maker(m, belts), groups, n)
    {
      var c := Maker(m, belts)(groups[n], |result|);
      if c.Some? {
        result := result + [c.value];
      }
      n := n + 1;
    }
  }

  ghost predicate GroupIsClass(m: Registry, belts: seq<Belt>, group: seq<string>) {
    && group != [] && Distinct(group) && group[0] in InternalIds(m, belts)
    && forall x {:trigger ClassOf(m, belts, x)} | x in group :: Elements(group) == ClassOf(m, belts, x)
  }

  /** Every group is a connection class, different groups are disjoint, and every internal entity is in a group. */
  ghost predicate GroupsAreClasses(m: Registry, belts: seq<Belt>, groups: seq<seq<string>>) {
    && (forall i | 0 <= i < |groups| :: GroupIsClass(m, belts, groups[i]))
    && (forall i, j | 0 <= i < j < |groups| :: Elements(groups[i]) !! Elements(groups[j]))
    && (forall x | x in InternalIds(m, belts) :: InSome(groups, x))
  }

  ghost predicate InSome(groups: seq<seq<string>>, x: string) {
    exists i | 0 <= i < |groups| :: x in groups[i]
  }

  function InOrder(roots: seq<string>, groups: map<string, seq<string>>): (r: seq<seq<string>>)
    requires forall r | r in roots :: r in groups
    ensures |r| == |roots| && forall i | 0 <= i < |roots| :: r[i] == groups[roots[i]]
  {
    seq(|roots|, i requires 0 <= i < |roots| => groups[roots[i]])
  }

  lemma GroupedByClass(sets: DisjointSets, m: Registry, belts: seq<Belt>, owners: map<BoundaryKey, string>,
                       roots: seq<string>, groups: map<string, seq<string>>, r: string)
    requires sets.Valid() && JoinedBelts(sets, m, belts, |belts|)
    requires JoinedBoundaries(sets.edges, m, belts, |belts|, owners)
    requires Grouped(sets.root, sets.order, |sets.order|, roots, groups)
    requires r in groups
    ensures GroupIsClass(m, belts, groups[r])
  {
    assert belts[..|belts|] == belts && sets.order[..|sets.order|] == sets.order;
    var group := groups[r];
    assert GroupOfRoot(sets.root, sets.order, group, r);
    assert group[0] in group && group[0] in sets.order;
    forall x | x in group ensures Elements(group) == ClassOf(m, belts, x) {
      assert x in sets.order;
      RootGroupIsClass(sets, m, belts, owners, roots, groups, x);
    }
  }

  lemma GroupsPartition(root: map<string, string>, order: seq<string>, roots: seq<string>, groups: map<string, seq<string>>)
    requires Grouped(root, order, |order|, roots, groups)
    ensures forall r | r in roots :: r in groups
    ensures forall i, j | 0 <= i < j < |roots| :: Elements(groups[roots[i]]) !! Elements(groups[roots[j]])
    ensures forall x | x in order :: InSome(InOrder(roots, groups), x)
  {
    assert order[..|order|] == order;
    assert forall i | 0 <= i < |roots| :: roots[i] in roots;
    forall i, j | 0 <= i < j < |roots| ensures Elements(groups[roots[i]]) !! Elements(groups[roots[j]]) {
      assert GroupOfRoot(root, order, groups[roots[i]], roots[i]);
      assert GroupOfRoot(root, order, groups[roots[j]], roots[j]);
    }
    forall x | x in order ensures InSome(InOrder(roots, groups), x) {
      assert GroupOfRoot(root, order, groups[root[x]], root[x]);
      var i :| 0 <= i < |roots| && roots[i] == root[x];
      assert x in InOrder(roots, groups)[i];
    }
  }

  lemma AllGroupsAreClasses(sets: DisjointSets, m: Registry, belts: seq<Belt>, owners: map<BoundaryKey, string>,
                            roots: seq<string>, groups: map<string, seq<string>>)
    requires sets.Valid() && JoinedBelts(sets, m, belts, |belts|)
    requires JoinedBoundaries(sets.edges, m, belts, |belts|, owners)
    requires Grouped(sets.root, sets.order, |sets.order|, roots, groups)
    ensures forall r | r in roots :: r in groups
    ensures GroupsAreClasses(m, belts, InOrder(roots, groups))
  {
    GroupsPartition(sets.root, sets.order, roots, groups);
    forall r | r in groups ensures GroupIsClass(m, belts, groups[r]) {
      GroupedByClass(sets, m, belts, owners, roots, groups, r);
    }
    InternalInOrder(sets, m, belts);
  }

  /** What is made of a connection class: its component if it can be contracted, and nothing otherwise. */
  ghost predicate Made(m: Registry, belts: seq<Belt>, group: seq<string>, key: nat, r: Option<Component>) {
    && (r.Some? <==> IsContractable(m, belts, Elements(group)))
    && (r.Some? ==> IsClassComponent(m, belts, r.value) && r.value.key == key && r.value.internalIds == group)
  }

  lemma ClassMade(m: Registry, belts: seq<Belt>, group: seq<string>, key: nat)
    requires GroupIsClass(m, belts, group)
    ensures Made(m, belts, group, key, Maker(m, belts)(group, key))
  {
    assert group[0] in group;
  }

  /** The components made from the classes are the decomposition. */
  lemma KeptApart(m: Registry, belts: seq<Belt>, groups: seq<seq<string>>, f: (seq<string>, nat) -> Option<Component>, i: nat, j: nat)
    requires GroupsAreClasses(m, belts, groups) && AllMade(m, belts, groups, f)
    requires i < j < |KeepSome(f, groups, |groups|)|
    ensures Elements(KeepSome(f, groups, |groups|)[i].internalIds) !! Elements(KeepSome(f, groups, |groups|)[j].internalIds)
  {
    var g := MadeOf(m, belts, groups, f, i);
    var h := MadeOf(m, belts, groups, f, j);
    OriginsIncrease(f, groups, |groups|, i, j);
  }

  lemma KeptComponents(m: Registry, belts: seq<Belt>, groups: seq<seq<string>>, f: (seq<string>, nat) -> Option<Component>)
    requires GroupsAreClasses(m, belts, groups) && AllMade(m, belts, groups, f)
    ensures var result := KeepSome(f, groups, |groups|);
            forall i | 0 <= i < |result| :: IsClassComponent(m, belts, result[i]) && result[i].key == i
  {
    forall i | 0 <= i < |KeepSome(f, groups, |groups|)|
      ensures var c := KeepSome(f, groups, |groups|)[i]; IsClassComponent(m, belts, c) && c.key == i
    {
      var g := MadeOf(m, belts, groups, f, i);
    }
  }

  lemma KeptDecomposes(m: Registry, belts: seq<Belt>, groups: seq<seq<string>>, f: (seq<string>, nat) -> Option<Component>)
    requires GroupsAreClasses(m, belts, groups)
    requires AllMade(m, belts, groups, f)
    ensures Decomposes(m, belts, KeepSome(f, groups, |groups|))
  {
    var n := |groups|;
    var result := KeepSome(f, groups, n);
    KeptComponents(m, belts, groups, f);
    forall i, j | 0 <= i < j < |result| ensures Elements(result[i].internalIds) !! Elements(result[j].internalIds) {
      KeptApart(m, belts, groups, f, i, j);
    }
    forall x | x in InternalIds(m, belts) && IsContractable(m, belts, ClassOf(m, belts, x)) ensures Covered(result, x) {
      ClassCovered(m, belts, groups, f, x);
    }
  }

  lemma MadeOf(m: Registry, belts: seq<Belt>, groups: seq<seq<string>>, f: (seq<string>, nat) -> Option<Component>, i: nat)
    returns (g: nat)
    requires AllMade(m, belts, groups, f) && i < |KeepSome(f, groups, |groups|)|
    ensures g == Origin(f, groups, |groups|, i)
    ensures var c := KeepSome(f, groups, |groups|)[i];
            IsClassComponent(m, belts, c) && c.key == i && c.internalIds == groups[g]
  {
    g := Origin(f, groups, |groups|, i);
    MadeFromOrigin(f, groups, |groups|, i);
    assert Made(m, belts, groups[g], i, f(groups[g], i));
  }

  lemma ClassCovered(m: Registry, belts: seq<Belt>, groups: seq<seq<string>>, f: (seq<string>, nat) -> Option<Component>, x: string)
    requires GroupsAreClasses(m, belts, groups)
    requires AllMade(m, belts, groups, f)
    requires x in InternalIds(m, belts) && IsContractable(m, belts, ClassOf(m, belts, x))
    ensures Covered(KeepSome(f, groups, |groups|), x)
  {
    var k := GroupContaining(m, belts, groups, x);
    ClassContractable(m, belts, groups[k], x);
    AlwaysMade(m, belts, groups, f, k);
    KeptSomewhere(f, groups, k, x);
  }

  ghost predicate AllMade(m: Registry, belts: seq<Belt>, groups: seq<seq<string>>, f: (seq<string>, nat) -> Option<Component>) {
    forall k, key: nat {:trigger f(groups[k], key)} | 0 <= k < |groups| :: Made(m, belts, groups[k], key, f(groups[k], key))
  }

  lemma GroupContaining(m: Registry, belts: seq<Belt>, groups: seq<seq<string>>, x: string) returns (k: nat)
    requires GroupsAreClasses(m, belts, groups) && x in InternalIds(m, belts)
    ensures k < |groups| && x in groups[k] && GroupIsClass(m, belts, groups[k])
  {
    assert InSome(groups, x);
    k :| 0 <= k < |groups| && x in groups[k];
  }

  lemma ClassContractable(m: Registry, belts: seq<Belt>, group: seq<string>, x: string)
    requires GroupIsClass(m, belts, group) && x in group
    ensures IsContractable(m, belts, ClassOf(m, belts, x)) <==> IsContractable(m, belts, Elements(group))
  {
  }

  lemma AlwaysMade(m: Registry, belts: seq<Belt>, groups: seq<seq<string>>, f: (seq<string>, nat) -> Option<Component>, k: nat)
    requires AllMade(m, belts, groups, f)
    requires k < |groups| && IsContractable(m, belts, Elements(groups[k]))
    ensures forall key: nat :: f(groups[k], key).Some? && f(groups[k], key).value.internalIds == groups[k]
  {
  }

  lemma KeptSomewhere(f: (seq<string>, nat) -> Option<Component>, groups: seq<seq<string>>, k: nat, x: string)
    requires k < |groups| && x in groups[k]
    requires forall key: nat :: f(groups[k], key).Some? && f(groups[k], key).value.internalIds == groups[k]
    ensures Covered(KeepSome(f, groups, |groups|), x)
  {
    var i := AcceptedIsKept(f, groups, |groups|, k);
    assert x in KeepSome(f, groups, |groups|)[i].internalIds;
  }

  method BuildProductionComponents(plant: Plant) returns (result: seq<Component>)
    ensures Decomposes(ById(plant.entities), plant.belts, result)
  {
    var m, belts := ById(plant.entities), plant.belts;
    var sets := new DisjointSets();
    JoinBelts(sets, m, belts);
    ghost var owners := JoinBoundaries(sets, m, belts);
    assert belts[..|belts|] == belts;
    var roots, groups := GroupByRoot(sets);
    AllGroupsAreClasses(sets, m, belts, owners, roots, groups);
    result := Contractable(m, belts, InOrder(roots, groups));
    ghost var classes := InOrder(roots, groups);
    forall k, key: nat | 0 <= k < |classes| ensures Made(m, belts, classes[k], key, Maker(m, belts)(classes[k], key)) {
      assert GroupIsClass(m, belts, classes[k]);
      ClassMade(m, belts, classes[k], key);
    }
    KeptDecomposes(m, belts, classes, Maker(m, belts));
  }
}
