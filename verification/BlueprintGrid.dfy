/** The bucket grid of pending blueprints: building it, and asking it for what is in view. */
module BlueprintGrid {
  import opened Wrappers

  const CELL: real := 640.0
  const NODE_LIMIT: nat := 900
  const LINE_LIMIT: nat := 1400
  const CACHE_LIMIT: nat := 32

  datatype Node = Node(key: string, x: real, y: real)

  datatype Belt = Belt(key: string, sourceKey: string, targetKey: string)

  datatype Blueprint = Blueprint(nodes: seq<Node>, belts: seq<Belt>)

  type Cell = (int, int)

  /** Belts between existing nodes are the lines; each is listed under its endpoints. */
  datatype Geometry = Geometry(nodes: seq<Node>, buckets: map<Cell, seq<nat>>, linesByNodeKey: map<string, seq<Belt>>)

  datatype Bounds = Bounds(left: real, top: real, right: real, bottom: real)
  {
    predicate Shows(n: Node) {
      left <= n.x <= right && top <= n.y <= bottom
    }
  }

  function CellOf(x: real, y: real): Cell {
    ((x / CELL).Floor, (y / CELL).Floor)
  }

  function BucketAt(buckets: map<Cell, seq<nat>>, cell: Cell): seq<nat> {
    if cell in buckets then buckets[cell] else []
  }

  function LinesAt(lines: map<string, seq<Belt>>, key: string): seq<Belt> {
    if key in lines then lines[key] else []
  }

  // ----- the reference: linear scans -----

  predicate UniqueKeys(b: Blueprint) {
    && (forall i, j | 0 <= i < j < |b.nodes| :: b.nodes[i].key != b.nodes[j].key)
    && (forall i, j | 0 <= i < j < |b.belts| :: b.belts[i].key != b.belts[j].key)
  }

  ghost predicate HasNode(nodes: seq<Node>, key: string) {
    exists i | 0 <= i < |nodes| :: nodes[i].key == key
  }

  /** A belt is drawn as a line when both its ends exist. */
  ghost predicate IsLine(b: Blueprint, belt: Belt) {
    belt in b.belts && HasNode(b.nodes, belt.sourceKey) && HasNode(b.nodes, belt.targetKey)
  }

  // ----- building -----

  /** Every bucket lists exactly the nodes of its cell, each once. */
  ghost predicate BucketsOf(nodes: seq<Node>, n: nat, buckets: map<Cell, seq<nat>>)
    requires n <= |nodes|
  {
    forall cell: Cell, i: nat {:trigger i in BucketAt(buckets, cell)} ::
      i in BucketAt(buckets, cell) <==> i < n && CellOf(nodes[i].x, nodes[i].y) == cell
  }

  method BuildBuckets(nodes: seq<Node>) returns (buckets: map<Cell, seq<nat>>)
    ensures BucketsOf(nodes, |nodes|, buckets)
  {
    buckets := map[];
    var index := 0;
    while index < |nodes|
      invariant index <= |nodes| && BucketsOf(nodes, index, buckets)
    {
      var cell := CellOf(nodes[index].x, nodes[index].y);
      BucketsPush(nodes, index, buckets, cell);
      buckets := buckets[cell := BucketAt(buckets, cell) + [index]];
      index := index + 1;
    }
  }

  lemma BucketsPush(nodes: seq<Node>, n: nat, buckets: map<Cell, seq<nat>>, cell: Cell)
    requires n < |nodes| && BucketsOf(nodes, n, buckets) && cell == CellOf(nodes[n].x, nodes[n].y)
    ensures BucketsOf(nodes, n + 1, buckets[cell := BucketAt(buckets, cell) + [n]])
  {
    var more := buckets[cell := BucketAt(buckets, cell) + [n]];
    forall c: Cell, i: nat
      ensures i in BucketAt(more, c) <==> i < n + 1 && CellOf(nodes[i].x, nodes[i].y) == c
    {
      assert i in BucketAt(buckets, c) <==> i < n && CellOf(nodes[i].x, nodes[i].y) == c;
    }
  }

  /** Under each key exactly the lines with that endpoint. */
  ghost predicate LinesOf(b: Blueprint, n: nat, lines: map<string, seq<Belt>>)
    requires n <= |b.belts|
  {
    forall key: string, belt: Belt {:trigger belt in LinesAt(lines, key)} ::
      belt in LinesAt(lines, key) <==>
      belt in b.belts[..n] && HasNode(b.nodes, belt.sourceKey) && HasNode(b.nodes, belt.targetKey)
      && (key == belt.sourceKey || key == belt.targetKey)
  }

  method KnownKeys(nodes: seq<Node>) returns (keys: set<string>)
    ensures forall key :: key in keys <==> HasNode(nodes, key)
  {
    keys := set n | n in nodes :: n.key;
    forall key ensures key in keys <==> HasNode(nodes, key) {
      if key in keys {
        var n :| n in nodes && n.key == key;
        var i :| 0 <= i < |nodes| && nodes[i] == n;
        assert nodes[i].key == key;
      }
      if HasNode(nodes, key) {
        var i :| 0 <= i < |nodes| && nodes[i].key == key;
        assert nodes[i] in nodes;
      }
    }
  }

  function Listed(lines: map<string, seq<Belt>>, key: string, belt: Belt): map<string, seq<Belt>> {
    lines[key := LinesAt(lines, key) + [belt]]
  }

  method BuildLines(b: Blueprint) returns (lines: map<string, seq<Belt>>)
    ensures LinesOf(b, |b.belts|, lines)
  {
    lines := map[];
    var keys := KnownKeys(b.nodes);
    var n := 0;
    while n < |b.belts|
      invariant n <= |b.belts| && LinesOf(b, n, lines)
    {
      var belt := b.belts[n];
      ghost var before := lines;
      if belt.sourceKey in keys && belt.targetKey in keys {
        lines := Listed(lines, belt.sourceKey, belt);
        if belt.targetKey != belt.sourceKey {
          lines := Listed(lines, belt.targetKey, belt);
        }
      }
      LinesPush(b, n, before, lines);
      n := n + 1;
    }
  }

  lemma LinesPush(b: Blueprint, n: nat, before: map<string, seq<Belt>>, after: map<string, seq<Belt>>)
    requires n < |b.belts| && LinesOf(b, n, before)
    requires var belt := b.belts[n];
             after == if HasNode(b.nodes, belt.sourceKey) && HasNode(b.nodes, belt.targetKey) then
               (var once := Listed(before, belt.sourceKey, belt);
                if belt.targetKey != belt.sourceKey then Listed(once, belt.targetKey, belt) else once)
             else before
    ensures LinesOf(b, n + 1, after)
  {
    var added := b.belts[n];
    assert b.belts[..n + 1] == b.belts[..n] + [added];
    forall key: string, belt: Belt
      ensures belt in LinesAt(after, key) <==>
              belt in b.belts[..n + 1] && HasNode(b.nodes, belt.sourceKey) && HasNode(b.nodes, belt.targetKey)
              && (key == belt.sourceKey || key == belt.targetKey)
    {
      assert belt in LinesAt(before, key) || belt !in LinesAt(before, key);
    }
  }

  ghost predicate GeometryOf(b: Blueprint, g: Geometry) {
    g.nodes == b.nodes && BucketsOf(b.nodes, |b.nodes|, g.buckets) && LinesOf(b, |b.belts|, g.linesByNodeKey)
  }

  method BuildGeometry(b: Blueprint) returns (g: Geometry)
    ensures GeometryOf(b, g)
  {
    var buckets := BuildBuckets(b.nodes);
    var lines := BuildLines(b);
    g := Geometry(b.nodes, buckets, lines);
  }

  // ----- the nodes in view -----

  /** Distinct nodes in bounds; every one looked at so far is in view or out of bounds. */
  ghost predicate Viewed(nodes: seq<Node>, bounds: Bounds, seen: set<nat>, visible: seq<nat>) {
    && (forall i: nat | i in visible :: i < |nodes| && bounds.Shows(nodes[i]) && i in seen)
    && (forall i, j | 0 <= i < j < |visible| :: visible[i] != visible[j])
    && (forall i: nat | i in seen && i < |nodes| && bounds.Shows(nodes[i]) :: i in visible)
  }

  /** One bucket; stops when the limit is reached. */
  method ViewBucket(nodes: seq<Node>, bounds: Bounds, bucket: seq<nat>, before: nat, seen0: set<nat>, visible0: seq<nat>)
    returns (seen: set<nat>, visible: seq<nat>)
    requires forall i | i in bucket :: i < |nodes|
    requires Viewed(nodes, bounds, seen0, visible0) && before + |visible0| < NODE_LIMIT
    ensures Viewed(nodes, bounds, seen, visible) && before + |visible| <= NODE_LIMIT && seen0 <= seen
    ensures before + |visible| < NODE_LIMIT ==> forall i | i in bucket :: i in seen
  {
    seen, visible := seen0, visible0;
    var k := 0;
    while k < |bucket|
      invariant k <= |bucket| && Viewed(nodes, bounds, seen, visible) && before + |visible| < NODE_LIMIT && seen0 <= seen
      invariant forall j | 0 <= j < k :: bucket[j] in seen
    {
      var index := bucket[k];
      assert index in bucket;
      k := k + 1;
      if index in seen {
        continue;
      }
      seen := seen + {index};
      if bounds.Shows(nodes[index]) {
        visible := visible + [index];
        if before + |visible| >= NODE_LIMIT {
          return;
        }
      }
    }
  }

  /** The cells visited before cell (x, y), row by row. */
  predicate Visited(cell: Cell, minX: int, maxX: int, minY: int, y: int, x: int) {
    minX <= cell.0 <= maxX && minY <= cell.1 && (cell.1 < y || (cell.1 == y && cell.0 < x))
  }

  ghost predicate AllSeen(nodes: seq<Node>, seen: set<nat>, minX: int, maxX: int, minY: int, y: int, x: int) {
    forall i: nat | i < |nodes| && Visited(CellOf(nodes[i].x, nodes[i].y), minX, maxX, minY, y, x) :: i in seen
  }

  lemma SeenCell(nodes: seq<Node>, buckets: map<Cell, seq<nat>>, seen: set<nat>, seen': set<nat>,
                 minX: int, maxX: int, minY: int, y: int, x: int)
    requires BucketsOf(nodes, |nodes|, buckets) && AllSeen(nodes, seen, minX, maxX, minY, y, x) && seen <= seen'
    requires forall i | i in BucketAt(buckets, (x, y)) :: i in seen'
    ensures AllSeen(nodes, seen', minX, maxX, minY, y, x + 1)
  {
    forall i: nat | i < |nodes| && Visited(CellOf(nodes[i].x, nodes[i].y), minX, maxX, minY, y, x + 1) ensures i in seen' {
      if CellOf(nodes[i].x, nodes[i].y) == (x, y) {
        assert i in BucketAt(buckets, (x, y));
      }
    }
  }

  /** One row of buckets. */
  method ViewRow(nodes: seq<Node>, buckets: map<Cell, seq<nat>>, bounds: Bounds, before: nat,
                 minX: int, maxX: int, ghost minY: int, y: int, seen0: set<nat>, visible0: seq<nat>)
    returns (seen: set<nat>, visible: seq<nat>)
    requires BucketsOf(nodes, |nodes|, buckets) && minY <= y
    requires Viewed(nodes, bounds, seen0, visible0) && before + |visible0| < NODE_LIMIT
    requires AllSeen(nodes, seen0, minX, maxX, minY, y, minX)
    ensures Viewed(nodes, bounds, seen, visible) && before + |visible| <= NODE_LIMIT
    ensures before + |visible| < NODE_LIMIT ==> AllSeen(nodes, seen, minX, maxX, minY, y + 1, minX)
  {
    seen, visible := seen0, visible0;
    var x := minX;
    while x <= maxX && before + |visible| < NODE_LIMIT
      invariant minX <= x
      invariant Viewed(nodes, bounds, seen, visible) && before + |visible| <= NODE_LIMIT
      invariant before + |visible| < NODE_LIMIT ==> AllSeen(nodes, seen, minX, maxX, minY, y, x)
      decreases maxX - x + 1
    {
      ghost var earlier := seen;
      forall i | i in BucketAt(buckets, (x, y)) ensures i < |nodes| {
      }
      seen, visible := ViewBucket(nodes, bounds, BucketAt(buckets, (x, y)), before, seen, visible);
      if before + |visible| < NODE_LIMIT {
        SeenCell(nodes, buckets, earlier, seen, minX, maxX, minY, y, x);
      }
      x := x + 1;
    }
  }

  lemma CellInRange(bounds: Bounds, n: Node)
    requires bounds.Shows(n)
    ensures CellOf(bounds.left, bounds.top).0 <= CellOf(n.x, n.y).0 <= CellOf(bounds.right, bounds.bottom).0
    ensures CellOf(bounds.left, bounds.top).1 <= CellOf(n.x, n.y).1 <= CellOf(bounds.right, bounds.bottom).1
  {
  }

  /** Exactly the nodes in bounds, each once, unless the limit is reached; then a part of them. */
  method VisibleNodes(g: Geometry, ghost b: Blueprint, bounds: Bounds, before: nat) returns (visible: seq<nat>)
    requires GeometryOf(b, g)
    ensures forall i, j | 0 <= i < j < |visible| :: visible[i] != visible[j]
    ensures forall i | i in visible :: i < |b.nodes| && bounds.Shows(b.nodes[i])
    ensures before + |visible| < NODE_LIMIT ==> forall i: nat | i < |b.nodes| && bounds.Shows(b.nodes[i]) :: i in visible
    ensures before <= NODE_LIMIT ==> before + |visible| <= NODE_LIMIT
  {
    var first, last := CellOf(bounds.left, bounds.top), CellOf(bounds.right, bounds.bottom);
    var seen: set<nat> := {};
    visible := [];
    var y := first.1;
    while y <= last.1 && before + |visible| < NODE_LIMIT
      invariant first.1 <= y
      invariant Viewed(g.nodes, bounds, seen, visible)
      invariant before < NODE_LIMIT ==> before + |visible| <= NODE_LIMIT
      invariant before >= NODE_LIMIT ==> visible == []
      invariant before + |visible| < NODE_LIMIT ==> AllSeen(g.nodes, seen, first.0, last.0, first.1, y, first.0)
      decreases last.1 - y + 1
    {
      seen, visible := ViewRow(g.nodes, g.buckets, bounds, before, first.0, last.0, first.1, y, seen, visible);
      y := y + 1;
    }
    if before + |visible| < NODE_LIMIT {
      forall i: nat | i < |b.nodes| && bounds.Shows(b.nodes[i]) ensures i in visible {
        CellInRange(bounds, b.nodes[i]);
        assert Visited(CellOf(b.nodes[i].x, b.nodes[i].y), first.0, last.0, first.1, y, first.0);
      }
    }
  }

  // ----- the lines in view -----

  /** One of the first `n` visible nodes has this key. */
  ghost predicate VisibleKey(nodes: seq<Node>, visible: seq<nat>, n: nat, key: string)
    requires n <= |visible|
  {
    exists k | 0 <= k < n :: visible[k] < |nodes| && nodes[visible[k]].key == key
  }

  /** The first `n` keys of the visible nodes, each once. */
  method VisibleKeys(nodes: seq<Node>, visible: seq<nat>) returns (keys: seq<string>)
    requires forall i | i in visible :: i < |nodes|
    ensures forall key :: key in keys <==> VisibleKey(nodes, visible, |visible|, key)
  {
    keys := [];
    var n := 0;
    while n < |visible|
      invariant n <= |visible|
      invariant forall key :: key in keys <==> VisibleKey(nodes, visible, n, key)
    {
      assert visible[n] in visible;
      var key := nodes[visible[n]].key;
      VisibleKeyStep(nodes, visible, n);
      if key !in keys {
        keys := keys + [key];
      }
      n := n + 1;
    }
  }

  lemma VisibleKeyStep(nodes: seq<Node>, visible: seq<nat>, n: nat)
    requires n < |visible| && visible[n] < |nodes|
    ensures forall key ::
              VisibleKey(nodes, visible, n + 1, key) <==> VisibleKey(nodes, visible, n, key) || key == nodes[visible[n]].key
  {
  }

  /** Lines drawn so far: distinct by key, and each taken from some list already walked. */
  ghost predicate Drawn(lines: seq<Belt>, keys: set<string>) {
    && (forall i, j | 0 <= i < j < |lines| :: lines[i].key != lines[j].key)
    && (forall k :: k in keys <==> exists l | l in lines :: l.key == k)
  }

  lemma DrawnMore(lines: seq<Belt>, keys: set<string>, l: Belt)
    requires Drawn(lines, keys) && l.key !in keys
    ensures Drawn(lines + [l], keys + {l.key})
  {
    var more := lines + [l];
    forall i, j | 0 <= i < j < |more| ensures more[i].key != more[j].key {
      if j == |lines| {
        assert lines[i] in lines;
      }
    }
    forall k ensures k in keys + {l.key} <==> exists m | m in more :: m.key == k {
      if k == l.key {
        assert l in more;
      }
      if k in keys {
        var m :| m in lines && m.key == k;
        assert m in more;
      }
    }
  }

  /** The lines of one node that are not drawn yet, up to the limit. */
  method DrawLines(list: seq<Belt>, before: nat, seen0: set<string>, lines0: seq<Belt>)
    returns (seen: set<string>, lines: seq<Belt>)
    requires Drawn(lines0, seen0) && (before <= LINE_LIMIT ==> before + |lines0| <= LINE_LIMIT)
    ensures Drawn(lines, seen) && (before <= LINE_LIMIT ==> before + |lines| <= LINE_LIMIT)
    ensures forall l | l in lines :: l in lines0 || l in list
    ensures seen0 <= seen && |lines0| <= |lines|
    ensures before + |lines| < LINE_LIMIT ==> forall l | l in list :: l.key in seen
  {
    seen, lines := seen0, lines0;
    var k := 0;
    while k < |list|
      invariant k <= |list| && Drawn(lines, seen) && (before <= LINE_LIMIT ==> before + |lines| <= LINE_LIMIT)
      invariant forall l | l in lines :: l in lines0 || l in list
      invariant seen0 <= seen && |lines0| <= |lines|
      invariant before + |lines| < LINE_LIMIT ==> forall j | 0 <= j < k :: list[j].key in seen
    {
      var line := list[k];
      k := k + 1;
      if before + |lines| >= LINE_LIMIT || line.key in seen {
        continue;
      }
      DrawnMore(lines, seen, line);
      seen, lines := seen + {line.key}, lines + [line];
    }
  }

  /** A line of the blueprint with at least one end among the visible nodes. */
  ghost predicate HasVisibleEnd(b: Blueprint, visible: seq<nat>, l: Belt) {
    IsLine(b, l) &&
    (VisibleKey(b.nodes, visible, |visible|, l.sourceKey) || VisibleKey(b.nodes, visible, |visible|, l.targetKey))
  }

  lemma ListedLines(b: Blueprint, g: Geometry, key: string, l: Belt)
    requires GeometryOf(b, g)
    ensures l in LinesAt(g.linesByNodeKey, key) <==> IsLine(b, l) && (key == l.sourceKey || key == l.targetKey)
  {
    assert b.belts[..|b.belts|] == b.belts;
  }

  /**
   * Exactly the lines with a visible end, each once, unless the limit is reached; then a part of them.
   */
  method VisibleLines(g: Geometry, ghost b: Blueprint, visible: seq<nat>, before: nat) returns (lines: seq<Belt>)
    requires GeometryOf(b, g) && UniqueKeys(b)
    requires forall i | i in visible :: i < |b.nodes|
    ensures forall i, j | 0 <= i < j < |lines| :: lines[i] != lines[j]
    ensures forall l | l in lines :: HasVisibleEnd(b, visible, l)
    ensures before + |lines| < LINE_LIMIT ==> forall l | HasVisibleEnd(b, visible, l) :: l in lines
    ensures before <= LINE_LIMIT ==> before + |lines| <= LINE_LIMIT
  {
    var keys := VisibleKeys(g.nodes, visible);
    var seen: set<string> := {};
    lines := [];
    var n := 0;
    while n < |keys|
      invariant n <= |keys| && Drawn(lines, seen) && (before <= LINE_LIMIT ==> before + |lines| <= LINE_LIMIT)
      invariant forall l | l in lines :: HasVisibleEnd(b, visible, l)
      invariant before + |lines| < LINE_LIMIT ==> ListsSeen(g.linesByNodeKey, keys[..n], seen)
    {
      var list := LinesAt(g.linesByNodeKey, keys[n]);
      assert keys[n] in keys;
      forall l | l in list ensures HasVisibleEnd(b, visible, l) {
        ListedLines(b, g, keys[n], l);
      }
      assert keys[..n + 1] == keys[..n] + [keys[n]];
      seen, lines := DrawLines(list, before, seen, lines);
      n := n + 1;
    }
    assert keys[..n] == keys;
    if before + |lines| < LINE_LIMIT {
      forall l | HasVisibleEnd(b, visible, l) ensures l in lines {
        AllLinesSeen(b, g, visible, keys, seen, lines, l);
      }
    }
  }

  ghost predicate ListsSeen(lists: map<string, seq<Belt>>, keys: seq<string>, seen: set<string>) {
    forall key, l {:trigger l in LinesAt(lists, key)} | key in keys && l in LinesAt(lists, key) :: l.key in seen
  }

  lemma AllLinesSeen(b: Blueprint, g: Geometry, visible: seq<nat>, keys: seq<string>, seen: set<string>, lines: seq<Belt>, l: Belt)
    requires GeometryOf(b, g) && UniqueKeys(b) && HasVisibleEnd(b, visible, l)
    requires forall key :: key in keys <==> VisibleKey(b.nodes, visible, |visible|, key)
    requires Drawn(lines, seen) && ListsSeen(g.linesByNodeKey, keys, seen)
    requires forall m | m in lines :: HasVisibleEnd(b, visible, m)
    ensures l in lines
  {
    var key := if VisibleKey(b.nodes, visible, |visible|, l.sourceKey) then l.sourceKey else l.targetKey;
    ListedLines(b, g, key, l);
    assert key in keys && l in LinesAt(g.linesByNodeKey, key);
    var m :| m in lines && m.key == l.key;
    assert m in b.belts && l in b.belts;
    var i :| 0 <= i < |b.belts| && b.belts[i] == m;
    var j :| 0 <= j < |b.belts| && b.belts[j] == l;
    assert i == j;
  }

  // ----- the whole construction queue -----

  /** A queued blueprint with its cache key and the view bounds relative to its position. */
  datatype Queued = Queued(key: string, blueprint: Blueprint, bounds: Bounds)

  function Total<T>(parts: seq<seq<T>>): nat {
    if parts == [] then 0 else Total(parts[..|parts| - 1]) + |parts[|parts| - 1]|
  }

  /** The nodes found for one entry are in view, each once, and all of them if the search was not cut short. */
  ghost predicate NodesInView(q: Queued, visible: seq<nat>, all: bool) {
    && (forall i, j | 0 <= i < j < |visible| :: visible[i] != visible[j])
    && (forall i: nat | i in visible :: i < |q.blueprint.nodes| && Within(q.bounds, q.blueprint.nodes[i]))
    && (all ==> forall i: nat | i < |q.blueprint.nodes| && Within(q.bounds, q.blueprint.nodes[i]) :: i in visible)
  }

  /** Not left of the bounds, not right, not above and not below. */
  ghost predicate Within(bounds: Bounds, n: Node) {
    !(n.x < bounds.left) && !(n.x > bounds.right) && !(n.y < bounds.top) && !(n.y > bounds.bottom)
  }

  ghost predicate LinesInView(q: Queued, visible: seq<nat>, lines: seq<Belt>, all: bool) {
    && (forall i, j | 0 <= i < j < |lines| :: lines[i] != lines[j])
    && (forall l | l in lines :: HasVisibleEnd(q.blueprint, visible, l))
    && (all ==> forall l | HasVisibleEnd(q.blueprint, visible, l) :: l in lines)
  }

  ghost predicate QueueInView(queue: seq<Queued>, nodes: seq<seq<nat>>, lines: seq<seq<Belt>>) {
    && |nodes| == |lines| <= |queue| && Total(nodes) <= NODE_LIMIT && Total(lines) <= LINE_LIMIT
    && forall e | 0 <= e < |nodes| ::
         NodesInView(queue[e], nodes[e], Total(nodes) < NODE_LIMIT) && LinesInView(queue[e], nodes[e], lines[e], Total(lines) < LINE_LIMIT)
  }

  lemma TotalOn<T>(parts: seq<seq<T>>, part: seq<T>)
    ensures Total(parts + [part]) == Total(parts) + |part|
  {
    assert (parts + [part])[..|parts|] == parts;
  }

  lemma QueueMore(queue: seq<Queued>, nodes: seq<seq<nat>>, lines: seq<seq<Belt>>, visible: seq<nat>, drawn: seq<Belt>)
    requires QueueInView(queue, nodes, lines) && |nodes| < |queue|
    requires Total(nodes) + |visible| <= NODE_LIMIT && Total(lines) + |drawn| <= LINE_LIMIT
    requires NodesInView(queue[|nodes|], visible, Total(nodes) + |visible| < NODE_LIMIT)
    requires LinesInView(queue[|nodes|], visible, drawn, Total(lines) + |drawn| < LINE_LIMIT)
    ensures QueueInView(queue, nodes + [visible], lines + [drawn])
  {
    TotalOn(nodes, visible);
    TotalOn(lines, drawn);
    var ns, ls := nodes + [visible], lines + [drawn];
    forall e | 0 <= e < |ns|
      ensures NodesInView(queue[e], ns[e], Total(ns) < NODE_LIMIT) && LinesInView(queue[e], ns[e], ls[e], Total(ls) < LINE_LIMIT)
    {
      if e < |nodes| {
        assert ns[e] == nodes[e] && ls[e] == lines[e];
      }
    }
  }

  // ----- the cache of built geometries -----

  /** The key list holds exactly the keys of the table, each once. */
  ghost predicate Lists<V>(keys: seq<string>, entries: map<string, V>) {
    (forall i, j | 0 <= i < j < |keys| :: keys[i] != keys[j]) && forall k :: k in keys <==> k in entries
  }

  lemma ListsMore<V>(keys: seq<string>, entries: map<string, V>, key: string, v: V)
    requires Lists(keys, entries) && key !in entries
    ensures Lists(keys + [key], entries[key := v])
  {
    assert key !in keys;
  }

  lemma ListsLess<V>(keys: seq<string>, entries: map<string, V>)
    requires Lists(keys, entries) && keys != []
    ensures Lists(keys[1..], entries - {keys[0]})
  {
    assert keys == [keys[0]] + keys[1..];
  }

  /** Every entry is the geometry of the blueprint its key stands for. */
  ghost predicate Stand(entries: map<string, Geometry>, origin: map<string, Blueprint>) {
    forall k | k in entries :: k in origin && GeometryOf(origin[k], entries[k])
  }

  lemma StandMore(entries: map<string, Geometry>, origin: map<string, Blueprint>, key: string, b: Blueprint, g: Geometry)
    requires Stand(entries, origin) && GeometryOf(b, g)
    ensures Stand(entries[key := g], origin[key := b])
  {
    var entries', origin' := entries[key := g], origin[key := b];
    forall k | k in entries' ensures k in origin' && GeometryOf(origin'[k], entries'[k]) {
      if k != key {
        assert k in entries;
      }
    }
  }

  lemma StandLess(entries: map<string, Geometry>, origin: map<string, Blueprint>, key: string)
    requires Stand(entries, origin)
    ensures Stand(entries - {key}, origin)
  {
  }

  class GeometryCache {
    /** Oldest first. */
    var keys: seq<string>
    var entries: map<string, Geometry>
    ghost var origin: map<string, Blueprint>

    constructor ()
      ensures Valid() && keys == []
    {
      keys, entries, origin := [], map[], map[];
    }

    ghost predicate Consistent()
      reads this
    {
      Lists(keys, entries) && Stand(entries, origin)
    }

    ghost predicate Valid()
      reads this
    {
      |keys| <= CACHE_LIMIT && Consistent()
    }

    /** Inserts the newest entry. */
    method Add(key: string, ghost b: Blueprint, g: Geometry)
      requires Consistent() && key !in entries && GeometryOf(b, g)
      modifies this
      ensures Consistent() && keys == old(keys) + [key] && entries == old(entries)[key := g]
      ensures origin == old(origin)[key := b]
    {
      ListsMore(keys, entries, key, g);
      StandMore(entries, origin, key, b, g);
      keys, entries, origin := keys + [key], entries[key := g], origin[key := b];
    }

    /** Drops the oldest entry. */
    method DropOldest()
      requires Consistent() && keys != []
      modifies this`keys, this`entries
      ensures Consistent() && keys == old(keys)[1..] && entries == old(entries) - {old(keys)[0]}
    {
      ListsLess(keys, entries);
      StandLess(entries, origin, keys[0]);
      keys, entries := keys[1..], entries - {keys[0]};
    }

    /** Drops the oldest entries beyond the limit; there is at most one. */
    method Trim()
      requires Consistent() && |keys| <= CACHE_LIMIT + 1
      modifies this`keys, this`entries
      ensures Valid()
      ensures if |old(keys)| <= CACHE_LIMIT then keys == old(keys) && entries == old(entries)
              else keys == old(keys)[1..] && entries == old(entries) - {old(keys)[0]}
    {
      while |keys| > CACHE_LIMIT
        invariant Consistent()
        invariant (keys == old(keys) && entries == old(entries)) ||
                  (|old(keys)| > CACHE_LIMIT && keys == old(keys)[1..] && entries == old(entries) - {old(keys)[0]})
        decreases |keys|
      {
        DropOldest();
      }
    }

    /** Builds a geometry once per key; a cached key answers with the geometry of the blueprint it first stood for. */
    method Get(key: string, b: Blueprint) returns (g: Geometry)
      requires Valid()
      modifies this
      ensures Valid() && Answers(key, g)
      ensures key in old(entries) ==> keys == old(keys) && entries == old(entries) && origin == old(origin)
      ensures key !in old(entries) ==>
                && origin == old(origin)[key := b]
                && keys == (if |old(keys)| == CACHE_LIMIT then old(keys)[1..] else old(keys)) + [key]
                && entries == if |old(keys)| == CACHE_LIMIT then old(entries)[key := g] - {old(keys)[0]} else old(entries)[key := g]
    {
      if key in entries {
        return entries[key];
      }
      g := BuildGeometry(b);
      Add(key, b, g);
      Trim();
      assert key in keys;
    }

    /** The answer is the cached geometry of the blueprint the key stands for. */
    ghost predicate Answers(key: string, g: Geometry)
      reads this
    {
      key in entries && entries[key] == g && key in origin && GeometryOf(origin[key], g)
    }
  }

  // ----- rendering the queue from the cache -----

  /** The blueprint a key can stand for after `n` entries: what it was cached with, or that of an entry with the key. */
  ghost predicate StoodFor(queue: seq<Queued>, n: nat, cached: map<string, Blueprint>, key: string, b: Blueprint)
    requires n <= |queue|
  {
    (key in cached && cached[key] == b) || exists d | 0 <= d < n :: queue[d].key == key && queue[d].blueprint == b
  }

  /** What the cached keys stand for. */
  ghost function CachedFor(entries: map<string, Geometry>, origin: map<string, Blueprint>): map<string, Blueprint> {
    map k | k in entries && k in origin :: origin[k]
  }

  ghost predicate AllStoodFor(queue: seq<Queued>, n: nat, cached: map<string, Blueprint>, now: map<string, Blueprint>)
    requires n <= |queue|
  {
    forall k | k in now :: StoodFor(queue, n, cached, k, now[k])
  }

  lemma StoodForMore(queue: seq<Queued>, n: nat, cached: map<string, Blueprint>, now: map<string, Blueprint>,
                     later: map<string, Blueprint>)
    requires n < |queue| && AllStoodFor(queue, n, cached, now)
    requires forall k | k in later :: (k in now && later[k] == now[k]) || (k == queue[n].key && later[k] == queue[n].blueprint)
    ensures AllStoodFor(queue, n + 1, cached, later)
  {
    forall k | k in later ensures StoodFor(queue, n + 1, cached, k, later[k]) {
      if k in now && later[k] == now[k] {
        assert StoodFor(queue, n, cached, k, now[k]);
      }
    }
  }

  ghost predicate AllUnique(cached: map<string, Blueprint>) {
    forall k | k in cached :: UniqueKeys(cached[k])
  }

  lemma GetKeeps(entries: map<string, Geometry>, origin: map<string, Blueprint>, key: string, b: Blueprint, g: Geometry,
                 entries': map<string, Geometry>, origin': map<string, Blueprint>)
    requires Stand(entries, origin) && UniqueKeys(b) && AllUnique(CachedFor(entries, origin))
    requires (entries' == entries && origin' == origin) || (origin' == origin[key := b] && entries'.Keys <= entries.Keys + {key})
    ensures AllUnique(CachedFor(entries', origin'))
    ensures var now, later := CachedFor(entries, origin), CachedFor(entries', origin');
            forall k | k in later :: (k in now && later[k] == now[k]) || (k == key && later[k] == b)
  {
    var now, later := CachedFor(entries, origin), CachedFor(entries', origin');
    forall k | k in later ensures (k in now && later[k] == now[k]) || (k == key && later[k] == b) {
    }
  }

  lemma QueueGrows(queue: seq<Queued>, nodes: seq<seq<nat>>, lines: seq<seq<Belt>>, q: Queued)
    requires QueueInView(queue, nodes, lines)
    ensures QueueInView(queue + [q], nodes, lines)
  {
    forall e | 0 <= e < |nodes|
      ensures NodesInView((queue + [q])[e], nodes[e], Total(nodes) < NODE_LIMIT)
      ensures LinesInView((queue + [q])[e], nodes[e], lines[e], Total(lines) < LINE_LIMIT)
    {
      assert (queue + [q])[e] == queue[e];
    }
  }

  /** The entries as the cache answered for them: each with a blueprint that its key stood for by then. */
  ghost predicate ShownFor(queue: seq<Queued>, cached: map<string, Blueprint>, shown: seq<Queued>) {
    && |shown| <= |queue|
    && forall e | 0 <= e < |shown| ::
         && shown[e] == queue[e].(blueprint := shown[e].blueprint)
         && StoodFor(queue, e + 1, cached, queue[e].key, shown[e].blueprint)
  }

  lemma ShownMore(queue: seq<Queued>, cached: map<string, Blueprint>, shown: seq<Queued>, b: Blueprint)
    requires ShownFor(queue, cached, shown) && |shown| < |queue|
    requires StoodFor(queue, |shown| + 1, cached, queue[|shown|].key, b)
    ensures ShownFor(queue, cached, shown + [queue[|shown|].(blueprint := b)])
  {
  }

  /** The first entries, each rendered with the blueprint the cache answered for. */
  ghost predicate Rendered(queue: seq<Queued>, cached: map<string, Blueprint>, shown: seq<Queued>, nodes: seq<seq<nat>>,
                           lines: seq<seq<Belt>>)
  {
    |shown| == |nodes| && ShownFor(queue, cached, shown) && QueueInView(shown, nodes, lines)
  }

  lemma RenderedMore(queue: seq<Queued>, cached: map<string, Blueprint>, shown: seq<Queued>, nodes: seq<seq<nat>>,
                     lines: seq<seq<Belt>>, b: Blueprint, visible: seq<nat>, drawn: seq<Belt>)
    requires Rendered(queue, cached, shown, nodes, lines) && |nodes| < |queue|
    requires StoodFor(queue, |nodes| + 1, cached, queue[|nodes|].key, b)
    requires Total(nodes) + |visible| <= NODE_LIMIT && Total(lines) + |drawn| <= LINE_LIMIT
    requires NodesInView(queue[|nodes|].(blueprint := b), visible, Total(nodes) + |visible| < NODE_LIMIT)
    requires LinesInView(queue[|nodes|].(blueprint := b), visible, drawn, Total(lines) + |drawn| < LINE_LIMIT)
    ensures Rendered(queue, cached, shown + [queue[|nodes|].(blueprint := b)], nodes + [visible], lines + [drawn])
  {
    var q := queue[|nodes|].(blueprint := b);
    ShownMore(queue, cached, shown, b);
    QueueGrows(shown, nodes, lines, q);
    QueueMore(shown + [q], nodes, lines, visible, drawn);
  }

  lemma RenderedTotals(queue: seq<Queued>, cached: map<string, Blueprint>, shown: seq<Queued>, nodes: seq<seq<nat>>,
                       lines: seq<seq<Belt>>)
    requires Rendered(queue, cached, shown, nodes, lines)
    ensures |shown| == |nodes| <= |queue| && Total(nodes) <= NODE_LIMIT && Total(lines) <= LINE_LIMIT
  {
  }

  /** Every key stands for one blueprint, in the cache and in the queue. */
  ghost predicate Steady(queue: seq<Queued>, cached: map<string, Blueprint>) {
    && (forall e | 0 <= e < |queue| && queue[e].key in cached :: cached[queue[e].key] == queue[e].blueprint)
    && forall d, e | 0 <= d < e < |queue| && queue[d].key == queue[e].key :: queue[d].blueprint == queue[e].blueprint
  }

  /** Then the cache answers for the queued blueprints themselves. */
  lemma SteadyShown(queue: seq<Queued>, cached: map<string, Blueprint>, shown: seq<Queued>)
    requires Steady(queue, cached) && ShownFor(queue, cached, shown)
    ensures shown == queue[..|shown|]
  {
    forall e | 0 <= e < |shown| ensures shown[e] == queue[e] {
      assert StoodFor(queue, e + 1, cached, queue[e].key, shown[e].blueprint);
    }
  }

  /**
   * Entry by entry in queue order. Below the limits every entry shows exactly what a linear scan of the blueprint would
   * that its key stands for in the cache; the limits hold for the whole queue.
   */
  method RenderQueue(queue: seq<Queued>, cache: GeometryCache)
    returns (nodes: seq<seq<nat>>, lines: seq<seq<Belt>>, ghost shown: seq<Queued>)
    requires cache.Valid() && AllUnique(CachedFor(cache.entries, cache.origin))
    requires forall e | 0 <= e < |queue| :: UniqueKeys(queue[e].blueprint)
    modifies cache
    ensures cache.Valid() && AllUnique(CachedFor(cache.entries, cache.origin))
    ensures Rendered(queue, old(CachedFor(cache.entries, cache.origin)), shown, nodes, lines)
    ensures Total(nodes) < NODE_LIMIT ==> |nodes| == |queue|
  {
    nodes, lines, shown := [], [], [];
    ghost var cached := CachedFor(cache.entries, cache.origin);
    while |nodes| < |queue| && Total(nodes) < NODE_LIMIT
      invariant cache.Valid() && AllUnique(CachedFor(cache.entries, cache.origin))
      invariant |nodes| <= |queue| && Rendered(queue, cached, shown, nodes, lines)
      invariant AllStoodFor(queue, |nodes|, cached, CachedFor(cache.entries, cache.origin))
      decreases |queue| - |nodes|
    {
      ghost var b;
      var visible, drawn;
      RenderedTotals(queue, cached, shown, nodes, lines);
      visible, drawn, b := RenderEntry(queue, |nodes|, cache, cached, Total(nodes), Total(lines));
      RenderedMore(queue, cached, shown, nodes, lines, b, visible, drawn);
      nodes, lines, shown := nodes + [visible], lines + [drawn], shown + [queue[|nodes|].(blueprint := b)];
    }
  }

  /** One entry, from the geometry that the cache answers with. */
  method RenderEntry(queue: seq<Queued>, n: nat, cache: GeometryCache, ghost cached: map<string, Blueprint>,
                     nodesBefore: nat, linesBefore: nat)
    returns (visible: seq<nat>, drawn: seq<Belt>, ghost b: Blueprint)
    requires cache.Valid() && AllUnique(CachedFor(cache.entries, cache.origin))
    requires n < |queue| && UniqueKeys(queue[n].blueprint) && nodesBefore < NODE_LIMIT && linesBefore <= LINE_LIMIT
    requires AllStoodFor(queue, n, cached, CachedFor(cache.entries, cache.origin))
    modifies cache
    ensures cache.Valid() && AllUnique(CachedFor(cache.entries, cache.origin))
    ensures AllStoodFor(queue, n + 1, cached, CachedFor(cache.entries, cache.origin))
    ensures StoodFor(queue, n + 1, cached, queue[n].key, b)
    ensures nodesBefore + |visible| <= NODE_LIMIT && linesBefore + |drawn| <= LINE_LIMIT
    ensures NodesInView(queue[n].(blueprint := b), visible, nodesBefore + |visible| < NODE_LIMIT)
    ensures LinesInView(queue[n].(blueprint := b), visible, drawn, linesBefore + |drawn| < LINE_LIMIT)
  {
    var q := queue[n];
    var g := Fetch(queue, n, cache, cached);
    b := cache.origin[q.key];
    visible := VisibleNodes(g, b, q.bounds, nodesBefore);
    drawn := VisibleLines(g, b, visible, linesBefore);
  }

  method Fetch(queue: seq<Queued>, n: nat, cache: GeometryCache, ghost cached: map<string, Blueprint>) returns (g: Geometry)
    requires cache.Valid() && AllUnique(CachedFor(cache.entries, cache.origin))
    requires n < |queue| && UniqueKeys(queue[n].blueprint)
    requires AllStoodFor(queue, n, cached, CachedFor(cache.entries, cache.origin))
    modifies cache
    ensures cache.Valid() && AllUnique(CachedFor(cache.entries, cache.origin)) && cache.Answers(queue[n].key, g)
    ensures AllStoodFor(queue, n + 1, cached, CachedFor(cache.entries, cache.origin))
    ensures StoodFor(queue, n + 1, cached, queue[n].key, cache.origin[queue[n].key]) && UniqueKeys(cache.origin[queue[n].key])
  {
    ghost var entries, origin := cache.entries, cache.origin;
    var q := queue[n];
    g := cache.Get(q.key, q.blueprint);
    GetKeeps(entries, origin, q.key, q.blueprint, g, cache.entries, cache.origin);
    StoodForMore(queue, n, cached, CachedFor(entries, origin), CachedFor(cache.entries, cache.origin));
    assert q.key in CachedFor(cache.entries, cache.origin);
  }
}
