/** Per-planet ledgers: what belts transferred, how ledgers are flattened, and what windows add up to. */
module PlanetLedger {
  import Json

  type Record = map<string, real>

  const DUST: real := 0.000000000001
  const EXACT: real := 0.000001

  function Get(r: Record, key: string): real {
    if key in r then r[key] else 0.0
  }

  /** Amounts below the dust limit are dropped. */
  function Kept(amount: real): real {
    if Json.Abs(amount) < DUST then 0.0 else amount
  }

  function Add(r: Record, key: string, amount: real): (s: Record)
    ensures forall k :: Get(s, k) == Get(r, k) + if k == key then Kept(amount) else 0.0
  {
    if Json.Abs(amount) < DUST then r else r[key := Get(r, key) + amount]
  }

  // ----- belts -----

  datatype Belt = Belt(planetId: string, itemId: string, source: string, target: string, transferred: real)

  const STATION_OUT: string := "station-out:"
  const STATION_IN: string := "station-in:"

  lemma DirectionsApart(a: string, b: string)
    ensures STATION_OUT + a != STATION_IN + b
    ensures STATION_OUT + a == STATION_OUT + b <==> a == b
    ensures STATION_IN + a == STATION_IN + b <==> a == b
  {
    assert (STATION_OUT + a)[8] == 'o' && (STATION_IN + b)[8] == 'i';
    assert (STATION_OUT + a)[|STATION_OUT|..] == a && (STATION_OUT + b)[|STATION_OUT|..] == b;
    assert (STATION_IN + a)[|STATION_IN|..] == a && (STATION_IN + b)[|STATION_IN|..] == b;
  }

  /** Where a belt's transfer is booked besides the total. */
  datatype Side = OutOfStation | IntoStation | Internal

  function SideOf(belt: Belt, stations: set<string>): Side {
    if belt.source in stations then OutOfStation else if belt.target in stations then IntoStation else Internal
  }

  /** Among the chosen sides: a belt out of a station, one into a station from elsewhere, or one that meets no station. */
  predicate FallsOn(belt: Belt, stations: set<string>, sides: set<Side>) {
    || (OutOfStation in sides && belt.source in stations)
    || (IntoStation in sides && belt.target in stations && belt.source !in stations)
    || (Internal in sides && belt.source !in stations && belt.target !in stations)
  }

  /** The planet's transfers of one item that fall on some of the sides. */
  function Sum(belts: seq<Belt>, planetId: string, stations: set<string>, item: string, sides: set<Side>): real {
    if belts == [] then 0.0
    else
      var last := belts[|belts| - 1];
      Sum(belts[..|belts| - 1], planetId, stations, item, sides) +
      if last.planetId == planetId && last.itemId == item && FallsOn(last, stations, sides) then Kept(last.transferred) else 0.0
  }

  const EVERYWHERE: set<Side> := {OutOfStation, IntoStation, Internal}

  /** For one item, the three records hold exactly the sums over these belts. */
  ghost predicate ItemSums(total: Record, boundary: Record, inner: Record, belts: seq<Belt>, planetId: string,
                           stations: set<string>, item: string)
  {
    && Get(total, item) == Sum(belts, planetId, stations, item, EVERYWHERE)
    && Get(boundary, "station-out:" + item) == Sum(belts, planetId, stations, item, {OutOfStation})
    && Get(boundary, "station-in:" + item) == Sum(belts, planetId, stations, item, {IntoStation})
    && Get(inner, item) == Sum(belts, planetId, stations, item, {Internal})
  }

  function BoundaryWith(boundary: Record, belt: Belt, stations: set<string>): Record {
    match SideOf(belt, stations)
    case OutOfStation => Add(boundary, STATION_OUT + belt.itemId, belt.transferred)
    case IntoStation => Add(boundary, STATION_IN + belt.itemId, belt.transferred)
    case Internal => boundary
  }

  function InternalWith(inner: Record, belt: Belt, stations: set<string>): Record {
    if SideOf(belt, stations).Internal? then Add(inner, belt.itemId, belt.transferred) else inner
  }

  lemma OneMoreSum(belts: seq<Belt>, belt: Belt, planetId: string, stations: set<string>, item: string, sides: set<Side>)
    ensures Sum(belts + [belt], planetId, stations, item, sides) ==
            Sum(belts, planetId, stations, item, sides) +
            if belt.planetId == planetId && belt.itemId == item && FallsOn(belt, stations, sides) then Kept(belt.transferred) else 0.0
  {
    assert (belts + [belt])[..|belts|] == belts;
  }

  lemma OneMoreBelt(total: Record, boundary: Record, inner: Record, belts: seq<Belt>, belt: Belt, planetId: string,
                    stations: set<string>, item: string)
    requires ItemSums(total, boundary, inner, belts, planetId, stations, item) && belt.planetId == planetId
    ensures ItemSums(Add(total, belt.itemId, belt.transferred), BoundaryWith(boundary, belt, stations),
                     InternalWith(inner, belt, stations), belts + [belt], planetId, stations, item)
  {
    OneMoreSum(belts, belt, planetId, stations, item, EVERYWHERE);
    OneMoreSum(belts, belt, planetId, stations, item, {OutOfStation});
    OneMoreSum(belts, belt, planetId, stations, item, {IntoStation});
    OneMoreSum(belts, belt, planetId, stations, item, {Internal});
    DirectionsApart(item, belt.itemId);
    DirectionsApart(belt.itemId, item);
  }

  lemma OtherPlanetBelt(total: Record, boundary: Record, inner: Record, belts: seq<Belt>, belt: Belt, planetId: string,
                        stations: set<string>, item: string)
    requires ItemSums(total, boundary, inner, belts, planetId, stations, item) && belt.planetId != planetId
    ensures ItemSums(total, boundary, inner, belts + [belt], planetId, stations, item)
  {
    OneMoreSum(belts, belt, planetId, stations, item, EVERYWHERE);
    OneMoreSum(belts, belt, planetId, stations, item, {OutOfStation});
    OneMoreSum(belts, belt, planetId, stations, item, {IntoStation});
    OneMoreSum(belts, belt, planetId, stations, item, {Internal});
  }

  class BeltLedger {
    var beltTransferred: Record
    var boundaryBeltTransferred: Record
    var internalBeltTransferred: Record

    constructor ()
      ensures beltTransferred == map[] && boundaryBeltTransferred == map[] && internalBeltTransferred == map[]
    {
      beltTransferred, boundaryBeltTransferred, internalBeltTransferred := map[], map[], map[];
    }

    /** The three records hold, per item, exactly the sums over these belts. */
    ghost predicate Sums(belts: seq<Belt>, planetId: string, stations: set<string>)
      reads this
    {
      forall item ::
        ItemSums(beltTransferred, boundaryBeltTransferred, internalBeltTransferred, belts, planetId, stations, item)
    }

    method Book(belt: Belt, stations: set<string>)
      modifies this
      ensures beltTransferred == Add(old(beltTransferred), belt.itemId, belt.transferred)
      ensures boundaryBeltTransferred == BoundaryWith(old(boundaryBeltTransferred), belt, stations)
      ensures internalBeltTransferred == InternalWith(old(internalBeltTransferred), belt, stations)
    {
      beltTransferred := Add(beltTransferred, belt.itemId, belt.transferred);
      if belt.source in stations || belt.target in stations {
        var direction := if belt.source in stations then STATION_OUT else STATION_IN;
        boundaryBeltTransferred := Add(boundaryBeltTransferred, direction + belt.itemId, belt.transferred);
      } else {
        internalBeltTransferred := Add(internalBeltTransferred, belt.itemId, belt.transferred);
      }
    }

    method BookOnPlanet(ghost belts: seq<Belt>, belt: Belt, planetId: string, stations: set<string>)
      requires Sums(belts, planetId, stations)
      modifies this
      ensures Sums(belts + [belt], planetId, stations)
    {
      ghost var total, boundary, inner := beltTransferred, boundaryBeltTransferred, internalBeltTransferred;
      if belt.planetId == planetId {
        Book(belt, stations);
      }
      forall item
        ensures ItemSums(beltTransferred, boundaryBeltTransferred, internalBeltTransferred, belts + [belt], planetId, stations, item)
      {
        assert ItemSums(total, boundary, inner, belts, planetId, stations, item);
        if belt.planetId == planetId {
          OneMoreBelt(total, boundary, inner, belts, belt, planetId, stations, item);
        } else {
          OtherPlanetBelt(total, boundary, inner, belts, belt, planetId, stations, item);
        }
      }
    }

    method AggregateBelts(belts: seq<Belt>, planetId: string, stations: set<string>)
      requires beltTransferred == map[] && boundaryBeltTransferred == map[] && internalBeltTransferred == map[]
      modifies this
      ensures Sums(belts, planetId, stations)
    {
      var n := 0;
      assert belts[..0] == [];
      while n < |belts|
        invariant n <= |belts| && Sums(belts[..n], planetId, stations)
      {
        assert belts[..n + 1] == belts[..n] + [belts[n]];
        BookOnPlanet(belts[..n], belts[n], planetId, stations);
        n := n + 1;
      }
      assert belts[..|belts|] == belts;
    }
  }

  /** For every item, what was transferred in total left stations, entered stations or stayed internal. */
  lemma TransfersConserved(total: Record, boundary: Record, inner: Record, belts: seq<Belt>, planetId: string,
                           stations: set<string>, item: string)
    requires ItemSums(total, boundary, inner, belts, planetId, stations, item)
    ensures Get(total, item) ==
            Get(boundary, STATION_OUT + item) + Get(boundary, STATION_IN + item) + Get(inner, item)
  {
    SidesAddUp(belts, planetId, stations, item);
  }

  /** Every transfer falls on exactly one side. */
  lemma {:induction false} SidesAddUp(belts: seq<Belt>, planetId: string, stations: set<string>, item: string)
    ensures Sum(belts, planetId, stations, item, EVERYWHERE) ==
            Sum(belts, planetId, stations, item, {OutOfStation}) + Sum(belts, planetId, stations, item, {IntoStation})
            + Sum(belts, planetId, stations, item, {Internal})
  {
    if belts != [] {
      SidesAddUp(belts[..|belts| - 1], planetId, stations, item);
    }
  }

  // ----- flattening -----

  type Aggregate = map<string, Record>

  predicate DotFree(s: string) {
    '.' !in s
  }

  function FlatKey(section: string, key: string): string {
    section + "." + key
  }

  /** The first dot separates a dot-free section from its key. */
  lemma FlatKeyInjective(s: string, k: string, t: string, l: string)
    requires DotFree(s) && DotFree(t) && FlatKey(s, k) == FlatKey(t, l)
    ensures s == t && k == l
  {
    var f, g := FlatKey(s, k), FlatKey(t, l);
    assert f[|s|] == '.' && g[|t|] == '.';
    assert forall i | 0 <= i < |s| :: f[i] == s[i] && f[i] != '.';
    assert forall i | 0 <= i < |t| :: g[i] == t[i] && g[i] != '.';
    assert |s| == |t|;
    assert s == f[..|s|] == t;
    assert k == f[|s| + 1..] == l;
  }

  /** A flat record holds every entry of every section under its own key, and nothing else. */
  ghost predicate FlatOf(a: Aggregate, sections: set<string>, f: Record) {
    && (forall s, k {:trigger a[s][k]} | s in sections && s in a && k in a[s] :: FlatKey(s, k) in f && f[FlatKey(s, k)] == a[s][k])
    && forall key | key in f :: exists s, k | s in sections && s in a && k in a[s] :: key == FlatKey(s, k)
  }

  /** One section's entries under their flat keys. */
  function Prefixed(section: string, r: Record): (f: Record)
    ensures forall k {:trigger FlatKey(section, k)} | k in r :: FlatKey(section, k) in f && f[FlatKey(section, k)] == r[k]
    ensures forall key | key in f :: exists k {:trigger FlatKey(section, k)} | k in r :: key == FlatKey(section, k)
  {
    var keys := set k | k in r :: FlatKey(section, k);
    assert forall k {:trigger FlatKey(section, k)} :: FlatKey(section, k)[|section| + 1..] == k;
    map key | key in keys :: r[key[|section| + 1..]]
  }

  lemma FlatOne(a: Aggregate, done: set<string>, f: Record, s: string)
    requires FlatOf(a, done, f) && s in a && s !in done && (forall t | t in a :: DotFree(t)) && done <= a.Keys
    ensures FlatOf(a, done + {s}, f + Prefixed(s, a[s]))
  {
    var own := Prefixed(s, a[s]);
    var g := f + own;
    forall t, k | t in done + {s} && t in a && k in a[t] ensures FlatKey(t, k) in g && g[FlatKey(t, k)] == a[t][k] {
      if t != s && FlatKey(t, k) in own {
        var l :| l in a[s] && FlatKey(s, l) == FlatKey(t, k);
        FlatKeyInjective(s, l, t, k);
      }
    }
    forall key | key in g ensures exists t, k | t in done + {s} && t in a && k in a[t] :: key == FlatKey(t, k) {
      if key in own {
        var l :| l in a[s] && key == FlatKey(s, l);
      } else {
        var t, k :| t in done && t in a && k in a[t] && key == FlatKey(t, k);
      }
    }
  }

  method FlattenAggregate(a: Aggregate) returns (f: Record)
    requires forall s | s in a :: DotFree(s)
    ensures FlatOf(a, a.Keys, f)
  {
    f := map[];
    var todo := a.Keys;
    ghost var done: set<string> := {};
    while todo != {}
      invariant todo + done == a.Keys && todo !! done && FlatOf(a, done, f)
      decreases todo
    {
      var s :| s in todo;
      FlatOne(a, done, f, s);
      f := f + Prefixed(s, a[s]);
      todo, done := todo - {s}, done + {s};
    }
    assert done == a.Keys;
  }

  /** Flattening loses nothing: two aggregates with the same sections and the same flat record are equal. */
  lemma FlattenLossless(a: Aggregate, b: Aggregate, f: Record)
    requires a.Keys == b.Keys && forall s | s in a :: DotFree(s)
    requires FlatOf(a, a.Keys, f) && FlatOf(b, b.Keys, f)
    ensures a == b
  {
    forall s | s in a ensures a[s] == b[s] {
      SameSection(a, b, f, s);
    }
  }

  lemma SameSection(a: Aggregate, b: Aggregate, f: Record, s: string)
    requires a.Keys == b.Keys && (forall t | t in a :: DotFree(t)) && s in a
    requires FlatOf(a, a.Keys, f) && FlatOf(b, b.Keys, f)
    ensures a[s] == b[s]
  {
    SectionWithin(a, b, f, s);
    SectionWithin(b, a, f, s);
    EachWithin(a[s], b[s]);
  }

  predicate EntriesWithin(x: Record, y: Record) {
    forall k | k in x :: k in y && y[k] == x[k]
  }

  lemma EachWithin(x: Record, y: Record)
    requires EntriesWithin(x, y) && EntriesWithin(y, x)
    ensures x == y
  {
  }

  lemma SectionWithin(a: Aggregate, b: Aggregate, f: Record, s: string)
    requires a.Keys == b.Keys && (forall t | t in a :: DotFree(t)) && s in a
    requires FlatOf(a, a.Keys, f) && FlatOf(b, b.Keys, f)
    ensures EntriesWithin(a[s], b[s])
  {
    forall k | k in a[s] ensures k in b[s] && b[s][k] == a[s][k] {
      var _ := FlatContains(a, b, f, s, k);
    }
  }

  lemma FlatContains(a: Aggregate, b: Aggregate, f: Record, s: string, k: string) returns (value: real)
    requires a.Keys == b.Keys && (forall t | t in a :: DotFree(t)) && s in a && k in a[s]
    requires FlatOf(a, a.Keys, f) && FlatOf(b, b.Keys, f)
    ensures k in b[s] && b[s][k] == a[s][k] == value
  {
    var key := FlatKey(s, k);
    assert key in f && f[key] == a[s][k];
    var t, l :| t in b && l in b[t] && key == FlatKey(t, l);
    FlatKeyInjective(s, k, t, l);
    value := f[key];
  }

  // ----- windows -----

  function Delta(left: Record, right: Record): (d: Record)
    ensures forall k :: Get(d, k) == Get(right, k) - Get(left, k)
  {
    map k | k in left.Keys + right.Keys :: Get(right, k) - Get(left, k)
  }

  /** The deltas of consecutive windows at one key, added up. */
  function DeltaSum(snapshots: seq<Record>, key: string): real {
    if |snapshots| <= 1 then 0.0
    else DeltaSum(snapshots[..|snapshots| - 1], key) + Get(Delta(snapshots[|snapshots| - 2], snapshots[|snapshots| - 1]), key)
  }

  /** At every key, absent ones read as zero, the windows add up to the whole run. */
  lemma {:induction false} WindowsTelescope(snapshots: seq<Record>, key: string)
    requires snapshots != []
    ensures DeltaSum(snapshots, key) == Get(Delta(snapshots[0], snapshots[|snapshots| - 1]), key)
  {
    if |snapshots| > 1 {
      var most := snapshots[..|snapshots| - 1];
      WindowsTelescope(most, key);
      assert most[|most| - 1] == snapshots[|snapshots| - 2] && most[0] == snapshots[0];
    }
  }

  datatype Comparison = Comparison(normalizedError: real, maxSignificantError: real, exact: bool)

  function Difference(reference: Record, candidate: Record, key: string): real {
    Json.Abs(Get(candidate, key) - Get(reference, key))
  }

  function Max(a: real, b: real): real {
    if a >= b then a else b
  }

  predicate Significant(reference: Record, candidate: Record, key: string) {
    Json.Abs(Get(reference, key)) >= 10.0 || Json.Abs(Get(candidate, key)) >= 10.0
  }

  /** The relative error of a key; the divisor is at least one. */
  function RelativeError(reference: Record, candidate: Record, key: string): real {
    Difference(reference, candidate, key) / Max(1.0, Json.Abs(Get(reference, key)))
  }

  /** A sum over a set of keys; no order matters. */
  ghost function SumOver(weight: string -> real, keys: set<string>): real {
    if keys == {} then 0.0
    else
      var first := Json.SortedKeys(keys)[0];
      SumOver(weight, keys - {first}) + weight(first)
  }

  lemma FirstLeast(keys: set<string>)
    requires keys != {}
    ensures Json.IsLeast(Json.SortedKeys(keys)[0], keys)
  {
    var order := Json.SortedKeys(keys);
    assert order[0] in order;
    forall j | j in keys ensures j == order[0] || Json.Less(order[0], j) {
      assert j in order;
    }
  }

  lemma FirstStays(keys: set<string>, key: string)
    requires key in keys && Json.SortedKeys(keys)[0] != key
    ensures Json.SortedKeys(keys)[0] in keys && keys - {key} != {}
    ensures Json.SortedKeys(keys - {key})[0] == Json.SortedKeys(keys)[0]
  {
    FirstLeast(keys);
    assert Json.SortedKeys(keys)[0] in keys - {key};
    FirstLeast(keys - {key});
    Json.LeastUnique(keys - {key}, Json.SortedKeys(keys)[0], Json.SortedKeys(keys - {key})[0]);
  }

  lemma {:induction false} SumWithout(weight: string -> real, keys: set<string>, key: string)
    requires key in keys
    ensures SumOver(weight, keys) == SumOver(weight, keys - {key}) + weight(key)
    decreases keys
  {
    var first := Json.SortedKeys(keys)[0];
    if first != key {
      FirstStays(keys, key);
      assert keys - {first} - {key} == keys - {key} - {first};
      SumWithout(weight, keys - {first}, key);
    }
  }

  /** A sum of non-negative weights is zero exactly when all of them are. */
  lemma {:induction false} SumZero(weight: string -> real, keys: set<string>)
    requires forall k | k in keys :: weight(k) >= 0.0
    ensures SumOver(weight, keys) >= 0.0
    ensures SumOver(weight, keys) == 0.0 <==> forall k | k in keys :: weight(k) == 0.0
    decreases keys
  {
    if keys != {} {
      FirstLeast(keys);
      var first := Json.SortedKeys(keys)[0];
      SumZero(weight, keys - {first});
      assert forall k | k in keys :: k == first || k in keys - {first};
    }
  }

  /** What a comparison looks up at each key. */
  datatype Probe = Probe(difference: string -> real, magnitude: string -> real, relative: string -> real, significant: string -> bool)

  function ProbeOf(reference: Record, candidate: Record): Probe {
    Probe(k => Difference(reference, candidate, k), k => Json.Abs(Get(reference, k)),
          k => RelativeError(reference, candidate, k), k => Significant(reference, candidate, k))
  }

  /** The largest relative error among the significant keys, or zero if there are none. */
  ghost predicate IsLargest(p: Probe, keys: set<string>, error: real) {
    && (forall k | k in keys && p.significant(k) :: p.relative(k) <= error)
    && if exists k | k in keys :: p.significant(k) then exists k | k in keys :: p.significant(k) && p.relative(k) == error
       else error == 0.0
  }

  predicate ExactOn(p: Probe, keys: set<string>) {
    forall k | k in keys :: p.difference(k) <= EXACT
  }

  /** What the comparison gathers over a list of keys. */
  datatype Gathering = Gathering(difference: real, magnitude: real, largest: real, exact: bool)

  function LargestWith(p: Probe, largest: real, key: string): real {
    if p.significant(key) then Max(largest, p.relative(key)) else largest
  }

  function GatherOne(p: Probe, g: Gathering, key: string): Gathering {
    Gathering(g.difference + p.difference(key), g.magnitude + p.magnitude(key), LargestWith(p, g.largest, key),
              g.exact && p.difference(key) <= EXACT)
  }

  function Gather(p: Probe, order: seq<string>): Gathering {
    if order == [] then Gathering(0.0, 0.0, 0.0, true)
    else GatherOne(p, Gather(p, order[..|order| - 1]), order[|order| - 1])
  }

  function KeysOf(order: seq<string>): set<string> {
    set k | k in order
  }

  predicate Distinct(order: seq<string>) {
    forall i, j | 0 <= i < j < |order| :: order[i] != order[j]
  }

  lemma KeysOfMore(order: seq<string>)
    requires order != [] && Distinct(order)
    ensures KeysOf(order) == KeysOf(order[..|order| - 1]) + {order[|order| - 1]}
    ensures order[|order| - 1] !in KeysOf(order[..|order| - 1])
  {
    var rest, last := order[..|order| - 1], order[|order| - 1];
    assert order == rest + [last];
  }

  lemma OneMoreKey(weight: string -> real, done: set<string>, key: string)
    requires key !in done
    ensures SumOver(weight, done + {key}) == SumOver(weight, done) + weight(key)
  {
    SumWithout(weight, done + {key}, key);
    assert done + {key} - {key} == done;
  }

  lemma {:induction false} GatheredSums(p: Probe, order: seq<string>)
    requires Distinct(order)
    ensures var g, keys := Gather(p, order), KeysOf(order);
            g.difference == SumOver(p.difference, keys) && g.magnitude == SumOver(p.magnitude, keys)
  {
    if order != [] {
      var rest, last := order[..|order| - 1], order[|order| - 1];
      GatheredSums(p, rest);
      KeysOfMore(order);
      OneMoreKey(p.difference, KeysOf(rest), last);
      OneMoreKey(p.magnitude, KeysOf(rest), last);
    }
  }

  lemma {:induction false} GatheredExact(p: Probe, order: seq<string>)
    requires Distinct(order)
    ensures Gather(p, order).exact <==> ExactOn(p, KeysOf(order))
  {
    if order != [] {
      GatheredExact(p, order[..|order| - 1]);
      KeysOfMore(order);
    }
  }

  lemma LargestStep(p: Probe, keys: set<string>, largest: real, key: string)
    requires IsLargest(p, keys, largest) && largest >= 0.0 && p.relative(key) >= 0.0
    ensures IsLargest(p, keys + {key}, LargestWith(p, largest, key)) && LargestWith(p, largest, key) >= 0.0
  {
  }

  lemma {:induction false} GatheredLargest(p: Probe, order: seq<string>)
    requires Distinct(order) && forall k :: p.relative(k) >= 0.0
    ensures IsLargest(p, KeysOf(order), Gather(p, order).largest) && Gather(p, order).largest >= 0.0
  {
    if order != [] {
      var rest, last := order[..|order| - 1], order[|order| - 1];
      GatheredLargest(p, rest);
      KeysOfMore(order);
      LargestStep(p, KeysOf(rest), Gather(p, rest).largest, last);
    }
  }

  /**
   * Exact means that every selected key agrees up to the tolerance. The normalized error is the summed difference over
   * the summed magnitude of the reference, at least one; it is zero only when every selected key agrees entirely. The
   * significant error is the largest relative one among significant keys, and zero if there are none.
   */
  ghost predicate Compares(p: Probe, keys: set<string>, c: Comparison) {
    && (c.exact <==> ExactOn(p, keys))
    && c.normalizedError == SumOver(p.difference, keys) / Max(1.0, SumOver(p.magnitude, keys))
    && (c.normalizedError == 0.0 <==> forall k | k in keys :: p.difference(k) == 0.0)
    && IsLargest(p, keys, c.maxSignificantError)
  }

  lemma Concludes(p: Probe, keys: set<string>)
    requires forall k :: p.difference(k) >= 0.0 && p.relative(k) >= 0.0
    ensures var g := Gather(p, Json.SortedKeys(keys));
            Compares(p, keys, Comparison(g.difference / Max(1.0, g.magnitude), g.largest, g.exact))
  {
    var order := Json.SortedKeys(keys);
    assert KeysOf(order) == keys;
    GatheredSums(p, order);
    GatheredExact(p, order);
    GatheredLargest(p, order);
    SumZero(p.difference, keys);
    Quotient(SumOver(p.difference, keys), Max(1.0, SumOver(p.magnitude, keys)));
  }

  lemma ProbeNonnegative(reference: Record, candidate: Record)
    ensures forall k :: ProbeOf(reference, candidate).difference(k) >= 0.0 && ProbeOf(reference, candidate).relative(k) >= 0.0
    ensures forall k :: ProbeOf(reference, candidate).difference(k) == 0.0 <==> Get(reference, k) == Get(candidate, k)
  {
    forall k ensures ProbeOf(reference, candidate).relative(k) >= 0.0 {
      Quotient(Difference(reference, candidate, k), Max(1.0, Json.Abs(Get(reference, k))));
    }
  }

  method GatherKeys(p: Probe, keys: seq<string>) returns (g: Gathering)
    ensures g == Gather(p, keys)
  {
    var differenceMagnitude, referenceMagnitude, maxSignificantError, exact := 0.0, 0.0, 0.0, true;
    var n := 0;
    while n < |keys|
      invariant n <= |keys|
      invariant Gather(p, keys[..n]) == Gathering(differenceMagnitude, referenceMagnitude, maxSignificantError, exact)
    {
      assert keys[..n + 1][..n] == keys[..n];
      var difference := p.difference(keys[n]);
      if difference > EXACT {
        exact := false;
      }
      differenceMagnitude := differenceMagnitude + difference;
      referenceMagnitude := referenceMagnitude + p.magnitude(keys[n]);
      if p.significant(keys[n]) {
        maxSignificantError := Max(maxSignificantError, p.relative(keys[n]));
      }
      n := n + 1;
    }
    assert keys[..|keys|] == keys;
    g := Gathering(differenceMagnitude, referenceMagnitude, maxSignificantError, exact);
  }

  method CompareWindows(reference: Record, candidate: Record, selected: string -> bool) returns (c: Comparison)
    ensures Compares(ProbeOf(reference, candidate), (set k | k in reference.Keys + candidate.Keys && selected(k)), c)
    ensures ComparesAmounts(reference, candidate, selected, c)
    ensures c.normalizedError == 0.0 <==>
            forall k | k in reference.Keys + candidate.Keys && selected(k) :: Get(reference, k) == Get(candidate, k)
  {
    var keys := set k | k in reference.Keys + candidate.Keys && selected(k);
    var g := GatherKeys(ProbeOf(reference, candidate), Json.SortedKeys(keys));
    ProbeNonnegative(reference, candidate);
    Concludes(ProbeOf(reference, candidate), keys);
    c := Comparison(g.difference / Max(1.0, g.magnitude), g.largest, g.exact);
    AmountsCompared(reference, candidate, selected, c);
  }

  /** The amount at a key, zero if it is absent. */
  ghost function AmountAt(r: Record, key: string): real {
    if key in r then r[key] else 0.0
  }

  /** How far two amounts are apart. */
  ghost function Apart(x: real, y: real): real {
    if x <= y then y - x else x - y
  }

  ghost function AtLeastOne(x: real): (r: real)
    ensures r >= 1.0
  {
    if x > 1.0 then x else 1.0
  }

  /** A selected key at which one of the two amounts is ten or more, in either direction. */
  ghost predicate Large(reference: Record, candidate: Record, selected: string -> bool, key: string) {
    && (key in reference || key in candidate) && selected(key)
    && (Apart(0.0, AmountAt(reference, key)) >= 10.0 || Apart(0.0, AmountAt(candidate, key)) >= 10.0)
  }

  ghost function ErrorAt(reference: Record, candidate: Record, key: string): real {
    Apart(AmountAt(reference, key), AmountAt(candidate, key)) / AtLeastOne(Apart(0.0, AmountAt(reference, key)))
  }

  /** What a comparison says of the amounts themselves. */
  ghost predicate ComparesAmounts(reference: Record, candidate: Record, selected: string -> bool, c: Comparison) {
    && (c.exact <==> forall k | (k in reference || k in candidate) && selected(k) ::
                       Apart(AmountAt(reference, k), AmountAt(candidate, k)) <= 0.000001)
    && (forall k | Large(reference, candidate, selected, k) :: ErrorAt(reference, candidate, k) <= c.maxSignificantError)
    && (c.maxSignificantError == 0.0 ||
        exists k | Large(reference, candidate, selected, k) :: ErrorAt(reference, candidate, k) == c.maxSignificantError)
  }

  lemma ProbedAmounts(reference: Record, candidate: Record, k: string)
    ensures var p := ProbeOf(reference, candidate);
            && p.difference(k) == Apart(AmountAt(reference, k), AmountAt(candidate, k))
            && p.magnitude(k) == Apart(0.0, AmountAt(reference, k))
            && p.relative(k) == ErrorAt(reference, candidate, k)
            && (p.significant(k) <==> Apart(0.0, AmountAt(reference, k)) >= 10.0 || Apart(0.0, AmountAt(candidate, k)) >= 10.0)
  {
    assert Max(1.0, Json.Abs(Get(reference, k))) == AtLeastOne(Apart(0.0, AmountAt(reference, k)));
  }

  lemma AmountsCompared(reference: Record, candidate: Record, selected: string -> bool, c: Comparison)
    requires Compares(ProbeOf(reference, candidate), (set k | k in reference.Keys + candidate.Keys && selected(k)), c)
    ensures ComparesAmounts(reference, candidate, selected, c)
  {
    var p, keys := ProbeOf(reference, candidate), set k | k in reference.Keys + candidate.Keys && selected(k);
    forall k
      ensures p.difference(k) == Apart(AmountAt(reference, k), AmountAt(candidate, k))
      ensures p.relative(k) == ErrorAt(reference, candidate, k)
      ensures k in keys && p.significant(k) <==> Large(reference, candidate, selected, k)
    {
      ProbedAmounts(reference, candidate, k);
    }
    LargestAmounts(p, keys, reference, candidate, selected, c.maxSignificantError);
  }

  lemma LargestAmounts(p: Probe, keys: set<string>, reference: Record, candidate: Record, selected: string -> bool, error: real)
    requires IsLargest(p, keys, error)
    requires forall k :: p.relative(k) == ErrorAt(reference, candidate, k)
    requires forall k :: k in keys && p.significant(k) <==> Large(reference, candidate, selected, k)
    ensures forall k | Large(reference, candidate, selected, k) :: ErrorAt(reference, candidate, k) <= error
    ensures error == 0.0 || exists k | Large(reference, candidate, selected, k) :: ErrorAt(reference, candidate, k) == error
  {
    if k :| k in keys && p.significant(k) && p.relative(k) == error {
      assert Large(reference, candidate, selected, k);
    }
  }

  lemma Quotient(a: real, b: real)
    requires a >= 0.0 && b >= 1.0
    ensures a / b >= 0.0 && (a / b == 0.0 <==> a == 0.0)
  {
    var q := a / b;
    assert q * b == a;
  }
}
