/** One contract window: what a component looks like before and after an engine phase, and how it is replayed. */
module Windows {
  import opened Wrappers
  import opened Json
  import opened Patch
  import opened StateDiff
  import opened DiffLaws

  /** The simulated state: entities and belts by identifier, production totals, and everything else. */
  datatype World = World(entities: map<string, Value>, belts: map<string, Value>, totals: map<string, int>, rest: Value)

  datatype Phase = Input | Production | Output

  /** The identifiers a component snapshot covers. */
  datatype Scope = Scope(planetId: string, entityIds: set<string>, beltIds: set<string>, productionIds: set<string>)
  {
    function Entities(phase: Phase): set<string> {
      if phase.Production? then productionIds else entityIds
    }

    function Belts(phase: Phase): set<string> {
      if phase.Production? then {} else beltIds
    }
  }

  function Restrict(m: map<string, Value>, ids: set<string>): map<string, Value> {
    map k | k in m && k in ids :: m[k]
  }

  function Node(entities: map<string, Value>, belts: map<string, Value>): Value {
    Obj(map["entities" := Obj(entities), "belts" := Obj(belts)])
  }

  function SnapshotComponent(w: World, scope: Scope, phase: Phase): Value {
    Node(Restrict(w.entities, scope.Entities(phase)), Restrict(w.belts, scope.Belts(phase)))
  }

  /** The live view a replayer patches. */
  function View(w: World): Value {
    Node(w.entities, w.belts)
  }

  predicate IsView(v: Value) {
    v.Obj? && v.fields.Keys == {"entities", "belts"} && v.fields["entities"].Obj? && v.fields["belts"].Obj?
  }

  lemma ViewShape(v: Value)
    ensures IsView(v) ==> v == Node(v.fields["entities"].fields, v.fields["belts"].fields)
  {
    if IsView(v) {
      assert v.fields == Node(v.fields["entities"].fields, v.fields["belts"].fields).fields;
    }
  }

  /** A path below one of the parts a component covers. */
  predicate InScope(p: Path, scope: Scope, phase: Phase) {
    && |p| >= 2 && p[0].Key? && p[1].Key?
    && if p[0].name == "belts" then p[1].name in scope.Belts(phase)
       else p[0].name == "entities" && p[1].name in scope.Entities(phase)
  }

  // ----- the diff of two snapshots -----

  const PARTS: seq<string> := ["belts", "entities"]

  lemma PartsSorted()
    ensures SortedKeys({"entities", "belts"}) == PARTS
  {
    var ks := SortedKeys({"entities", "belts"});
    assert |ks| == 2;
    assert Less("belts", "entities");
    LessTotal("belts", "entities");
    assert ks[0] in ks && ks[1] in ks;
    assert ks == [ks[0], ks[1]];
  }

  /** The diff of a two-field object: the operations of the first key, then those of the second. */
  lemma TwoFieldDiff(norm: Normalizer, x: Value, y: Value, a: string, b: string)
    requires x.Obj? && y.Obj? && a in x.fields && b in x.fields && a in y.fields && b in y.fields
    ensures DiffFields(norm, x, y, [a, b]) ==
            Join(Below([Key(a)], Diff(norm, x.fields[a], y.fields[a])), Below([Key(b)], Diff(norm, x.fields[b], y.fields[b])))
  {
    var keys := [a, b];
    assert keys[..1] == [a] && [a][..0] == [];
    var first := Below([Key(a)], Diff(norm, x.fields[a], y.fields[a]));
    assert DiffFields(norm, x, y, [a]) == Join(DiffFields(norm, x, y, []), first);
    assert Join(SAME, first) == first;
  }

  lemma TwoFieldObjects(norm: Normalizer, x: Value, y: Value, a: string, b: string)
    requires x.Obj? && y.Obj? && x.fields.Keys == {a, b} && y.fields.Keys == {a, b}
    requires SortedKeys({a, b}) == [a, b]
    ensures Diff(norm, x, y) ==
            Join(Below([Key(a)], Diff(norm, x.fields[a], y.fields[a])), Below([Key(b)], Diff(norm, x.fields[b], y.fields[b])))
  {
    DiffOfObjects(norm, x, y);
    TwoFieldDiff(norm, x, y, a, b);
  }

  lemma ViewDiff(norm: Normalizer, x: Value, y: Value)
    requires IsView(x) && IsView(y)
    ensures Diff(norm, x, y) ==
            Join(Below([Key("belts")], Diff(norm, x.fields["belts"], y.fields["belts"])),
                 Below([Key("entities")], Diff(norm, x.fields["entities"], y.fields["entities"])))
  {
    PartsSorted();
    assert {"belts", "entities"} == {"entities", "belts"};
    TwoFieldObjects(norm, x, y, "belts", "entities");
  }

  lemma NodeIsView(entities: map<string, Value>, belts: map<string, Value>, v: Value)
    requires v == Node(entities, belts)
    ensures IsView(v) && v.fields["entities"] == Obj(entities) && v.fields["belts"] == Obj(belts)
  {
  }

  /** The operations of a snapshot diff: those of the belts, then those of the entities. */
  lemma SnapshotDiff(norm: Normalizer, e: map<string, Value>, b: map<string, Value>,
                     e': map<string, Value>, b': map<string, Value>)
    ensures Diff(norm, Node(e, b), Node(e', b')) ==
            Join(Below([Key("belts")], Diff(norm, Obj(b), Obj(b'))), Below([Key("entities")], Diff(norm, Obj(e), Obj(e'))))
  {
    NodeIsView(e, b, Node(e, b));
    NodeIsView(e', b', Node(e', b'));
    ViewDiff(norm, Node(e, b), Node(e', b'));
  }

  /** Some fields of an object patched, all others kept. */
  ghost function Patched(m: map<string, Value>, after: map<string, Value>, ids: set<string>): map<string, Value> {
    map k | k in m :: if k in ids && k in after then after[k] else m[k]
  }

  /** A field that a second application of its transition leaves alone: no number in it changes. */
  ghost predicate CalmField(before: map<string, Value>, after: map<string, Value>, id: string) {
    id in before && id in after ==> NumbersKept(before[id], after[id])
  }

  /** `m` shows the fields in `ids` as `before` does, or already as `after` does where no number changes. */
  ghost predicate Shows(m: map<string, Value>, before: map<string, Value>, after: map<string, Value>, ids: set<string>) {
    forall k | k in ids ::
      && (k in m <==> k in before)
      && (k in m ==> m[k] == before[k] || (k in after && m[k] == after[k] && CalmField(before, after, k)))
  }

  /** Patching by the diff of two restrictions replaces exactly the covered fields. */
  lemma PatchRestricted(norm: Normalizer, m: map<string, Value>, before: map<string, Value>, after: map<string, Value>,
                        ids: set<string>)
    requires norm(0.0) == 0.0 && Shows(m, before, after, ids)
    requires !Diff(norm, Obj(Restrict(before, ids)), Obj(Restrict(after, ids))).structural
    ensures ApplyAll(Exact, Obj(m), Diff(norm, Obj(Restrict(before, ids)), Obj(Restrict(after, ids))).ops) ==
            Some(Obj(Patched(m, after, ids)))
  {
    var x, y := Obj(Restrict(before, ids)), Obj(Restrict(after, ids));
    DiffOfObjects(norm, x, y);
    var keys := SortedKeys(x.fields.Keys);
    PatchShown(norm, m, x, y, keys);
    PatchedIsOverlay(m, before, after, ids, keys);
  }

  lemma PatchShown(norm: Normalizer, m: map<string, Value>, x: Value, y: Value, keys: seq<string>)
    requires norm(0.0) == 0.0 && x.Obj? && y.Obj? && x.fields.Keys == y.fields.Keys
    requires forall k | k in keys ::
               k in x.fields && k in m && (m[k] == x.fields[k] || (m[k] == y.fields[k] && NumbersKept(x.fields[k], y.fields[k])))
    requires forall i, j | 0 <= i < j < |keys| :: keys[i] != keys[j]
    requires !DiffFields(norm, x, y, keys).structural
    ensures ApplyAll(Exact, Obj(m), DiffFields(norm, x, y, keys).ops) == Some(Obj(Overlay(m, y.fields, keys)))
  {
    ResolvedFields(norm, x, y, keys);
    forall k | k in keys
      ensures ApplyAll(Exact, m[k], Diff(norm, x.fields[k], y.fields[k]).ops) == Some(y.fields[k])
    {
      PatchFromEither(norm, m[k], x.fields[k], y.fields[k]);
    }
    PatchFields(Exact, m, norm, x, y, keys, y.fields);
  }

  lemma PatchFromEither(norm: Normalizer, v: Value, x: Value, y: Value)
    requires norm(0.0) == 0.0 && !Diff(norm, x, y).structural
    requires v == x || (v == y && NumbersKept(x, y))
    ensures ApplyAll(Exact, v, Diff(norm, x, y).ops) == Some(y)
  {
    if v == x {
      PatchRestores(norm, x, y);
    } else {
      PatchRepeats(norm, x, y);
    }
  }

  lemma PatchedIsOverlay(m: map<string, Value>, before: map<string, Value>, after: map<string, Value>, ids: set<string>,
                         keys: seq<string>)
    requires Shows(m, before, after, ids)
    requires Restrict(before, ids).Keys == Restrict(after, ids).Keys
    requires forall k :: k in keys <==> k in Restrict(before, ids)
    ensures Overlay(m, Restrict(after, ids), keys) == Patched(m, after, ids)
  {
    var o, p := Overlay(m, Restrict(after, ids), keys), Patched(m, after, ids);
    forall k ensures k in keys <==> k in m && k in ids && k in after {
      if k in after && k in ids && k in m {
        assert k in Restrict(after, ids);
      }
    }
    assert o.Keys == p.Keys;
  }

  /** The world with a component's part of it taken from a later world. */
  ghost function PatchedView(w: World, after: World, scope: Scope, phase: Phase): Value {
    Node(Patched(w.entities, after.entities, scope.Entities(phase)), Patched(w.belts, after.belts, scope.Belts(phase)))
  }

  ghost predicate ShowsScope(w: World, before: World, after: World, scope: Scope, phase: Phase) {
    && Shows(w.entities, before.entities, after.entities, scope.Entities(phase))
    && Shows(w.belts, before.belts, after.belts, scope.Belts(phase))
  }

  /**
   * A component's own transition, applied to any world that shows the component as it was,
   * advances exactly that component.
   */
  lemma PatchComponent(norm: Normalizer, w: World, before: World, after: World, scope: Scope, phase: Phase)
    requires norm(0.0) == 0.0 && ShowsScope(w, before, after, scope, phase)
    requires !Diff(norm, SnapshotComponent(before, scope, phase), SnapshotComponent(after, scope, phase)).structural
    ensures ApplyAll(Exact, View(w), Diff(norm, SnapshotComponent(before, scope, phase), SnapshotComponent(after, scope, phase)).ops) ==
            Some(PatchedView(w, after, scope, phase))
  {
    var es, bs := scope.Entities(phase), scope.Belts(phase);
    var e, b := Restrict(before.entities, es), Restrict(before.belts, bs);
    var e', b' := Restrict(after.entities, es), Restrict(after.belts, bs);
    SnapshotDiff(norm, e, b, e', b');
    PatchRestricted(norm, w.belts, before.belts, after.belts, bs);
    PatchRestricted(norm, w.entities, before.entities, after.entities, es);
    PatchParts(w, Diff(norm, Obj(b), Obj(b')).ops, Diff(norm, Obj(e), Obj(e')).ops,
               Patched(w.belts, after.belts, bs), Patched(w.entities, after.entities, es));
  }

  lemma PatchParts(w: World, beltOps: seq<Op>, entityOps: seq<Op>, belts: map<string, Value>, entities: map<string, Value>)
    requires ApplyAll(Exact, Obj(w.belts), beltOps) == Some(Obj(belts))
    requires ApplyAll(Exact, Obj(w.entities), entityOps) == Some(Obj(entities))
    ensures ApplyAll(Exact, View(w), Under([Key("belts")], beltOps) + Under([Key("entities")], entityOps)) ==
            Some(Node(entities, belts))
  {
    PatchTwoFields(View(w).fields, "belts", "entities", beltOps, entityOps, Obj(belts), Obj(entities));
    assert View(w).fields["belts" := Obj(belts)]["entities" := Obj(entities)] == Node(entities, belts).fields;
  }

  lemma PatchTwoFields(m: map<string, Value>, a: string, b: string, opsA: seq<Op>, opsB: seq<Op>, x: Value, y: Value)
    requires a in m && b in m && a != b
    requires ApplyAll(Exact, m[a], opsA) == Some(x) && ApplyAll(Exact, m[b], opsB) == Some(y)
    ensures ApplyAll(Exact, Obj(m), Under([Key(a)], opsA) + Under([Key(b)], opsB)) == Some(Obj(m[a := x][b := y]))
  {
    ApplyUnder(Exact, Obj(m), Key(a), opsA);
    ApplyUnder(Exact, Obj(m[a := x]), Key(b), opsB);
    ApplyAllConcat(Exact, Obj(m), Under([Key(a)], opsA), Under([Key(b)], opsB));
  }

  /**
   * What a snapshot shows: in the belt windows the component's entities and belts, in the production window its
   * production entities only; each as it is in the world.
   */
  lemma SnapshotShows(w: World, scope: Scope, phase: Phase, id: string)
    ensures var s := SnapshotComponent(w, scope, phase);
            && s.Obj? && s.fields.Keys == {"entities", "belts"} && s.fields["entities"].Obj? && s.fields["belts"].Obj?
            && var e, b := s.fields["entities"].fields, s.fields["belts"].fields;
               && (id in e <==> id in w.entities && id in if phase == Production then scope.productionIds else scope.entityIds)
               && (id in e ==> e[id] == w.entities[id])
               && (id in b <==> id in w.belts && id in scope.beltIds && phase != Production)
               && (id in b ==> b[id] == w.belts[id])
  {
  }
}
