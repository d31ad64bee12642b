/** The path-compressing union-find of the component builder. */
module UnionFind {
  import opened Paths

  // ----- the forest behind the parent map -----

  /** One element of a forest: its parent is closer to the shared root, or it is the root itself. */
  ghost predicate Node(parent: map<string, string>, root: map<string, string>, depth: map<string, nat>, e: string)
    requires parent.Keys == root.Keys == depth.Keys && e in parent
  {
    var p, r := parent[e], root[e];
    && p in parent && r in parent
    && root[p] == r && parent[r] == r && root[r] == r
    && (if p == e then r == e else depth[p] < depth[e] && depth[r] < depth[e])
  }

  ghost predicate Forest(parent: map<string, string>, root: map<string, string>, depth: map<string, nat>) {
    && parent.Keys == root.Keys == depth.Keys
    && forall e {:trigger Node(parent, root, depth, e)} | e in parent :: Node(parent, root, depth, e)
  }

  lemma Grow(parent: map<string, string>, root: map<string, string>, depth: map<string, nat>, id: string)
    requires Forest(parent, root, depth) && id !in parent
    ensures Forest(parent[id := id], root[id := id], depth[id := 0])
  {
    var p, r, d := parent[id := id], root[id := id], depth[id := 0];
    forall e | e in p ensures Node(p, r, d, e) {
      if e != id {
        assert Node(parent, root, depth, e);
      }
    }
  }

  /** Pointing an element straight at its root keeps the forest and every root. */
  lemma Compress(parent: map<string, string>, root: map<string, string>, depth: map<string, nat>, id: string)
    requires Forest(parent, root, depth) && id in parent
    ensures root[id] in parent && Forest(parent[id := root[id]], root, depth)
  {
    assert Node(parent, root, depth, id);
    var p := parent[id := root[id]];
    forall e | e in p ensures Node(p, root, depth, e) {
      assert Node(parent, root, depth, e);
      assert Node(parent, root, depth, root[e]);
    }
  }

  ghost function Merged(root: map<string, string>, leftRoot: string, rightRoot: string): map<string, string> {
    map e | e in root :: if root[e] == rightRoot then leftRoot else root[e]
  }

  ghost function Deeper(root: map<string, string>, depth: map<string, nat>, leftRoot: string, rightRoot: string): map<string, nat>
    requires root.Keys == depth.Keys && leftRoot in depth
  {
    map e | e in depth :: if root[e] == rightRoot then depth[e] + depth[leftRoot] + 1 else depth[e]
  }

  /** Hanging one root below another merges exactly their two trees. */
  lemma HangBelow(parent: map<string, string>, root: map<string, string>, depth: map<string, nat>,
                  leftRoot: string, rightRoot: string)
    requires Forest(parent, root, depth)
    requires leftRoot in parent && rightRoot in parent && leftRoot != rightRoot
    requires parent[leftRoot] == leftRoot && parent[rightRoot] == rightRoot
    ensures Forest(parent[rightRoot := leftRoot], Merged(root, leftRoot, rightRoot),
                   Deeper(root, depth, leftRoot, rightRoot))
  {
    var p, r := parent[rightRoot := leftRoot], Merged(root, leftRoot, rightRoot);
    var d := Deeper(root, depth, leftRoot, rightRoot);
    assert Node(parent, root, depth, leftRoot) && Node(parent, root, depth, rightRoot);
    forall e | e in p ensures Node(p, r, d, e) {
      assert Node(parent, root, depth, e);
      assert Node(parent, root, depth, parent[e]);
      assert Node(parent, root, depth, root[e]);
    }
  }

  lemma MergedSame(parent: map<string, string>, root: map<string, string>, depth: map<string, nat>, r: string)
    requires Forest(parent, root, depth)
    ensures Merged(root, r, r) == root
  {
  }

  // ----- classes and the edges that join them -----

  /** Two elements have the same root exactly when edges connect them. */
  ghost predicate Joins(root: map<string, string>, edges: Edges<string>) {
    && (forall e {:trigger e in edges} | e in edges :: e.0 in root && e.1 in root && root[e.0] == root[e.1])
    && (forall a, b {:trigger Connected(edges, a, b)} | a in root && b in root && root[a] == root[b] ::
          Connected(edges, a, b))
  }

  lemma SameRootIffConnected(root: map<string, string>, edges: Edges<string>, a: string, b: string)
    requires Joins(root, edges) && a in root && b in root
    ensures root[a] == root[b] <==> Connected(edges, a, b)
  {
    if Connected(edges, a, b) {
      var path :| IsPath(edges, path, a, b);
      SameAlongPath(edges, root, path, a, b);
    }
  }

  lemma NewClass(root: map<string, string>, edges: Edges<string>, id: string)
    requires Joins(root, edges) && id !in root
    requires forall e | e in root :: root[e] != id
    ensures Joins(root[id := id], edges)
  {
    ConnectedRefl(edges, id);
  }

  lemma JoinRoots(root: map<string, string>, edges: Edges<string>, left: string, right: string)
    requires Joins(root, edges) && left in root && right in root
    ensures Joins(Merged(root, root[left], root[right]), edges + {(left, right)})
  {
    var more := edges + {(left, right)};
    var merged := Merged(root, root[left], root[right]);
    forall a, b | a in merged && b in merged && merged[a] == merged[b] ensures Connected(more, a, b) {
      if root[a] == root[b] {
        assert Connected(edges, a, b);
        ConnectedMono(edges, more, a, b);
      } else if root[a] == root[right] {
        Bridge(root, edges, left, right, b, a);
        ConnectedSym(more, b, a);
      } else {
        Bridge(root, edges, left, right, a, b);
      }
    }
  }

  /** An element of the left class reaches every element of the right class over the new edge. */
  lemma Bridge(root: map<string, string>, edges: Edges<string>, left: string, right: string, a: string, b: string)
    requires Joins(root, edges) && left in root && right in root && a in root && b in root
    requires root[a] == root[left] && root[b] == root[right]
    ensures Connected(edges + {(left, right)}, a, b)
  {
    var more := edges + {(left, right)};
    assert Connected(edges, a, left) && Connected(edges, right, b);
    ConnectedMono(edges, more, a, left);
    ConnectedMono(edges, more, right, b);
    ConnectedEdge(more, left, right);
    ConnectedTrans(more, a, left, right);
    ConnectedTrans(more, a, right, b);
  }

  // ----- the mutable structure -----

  class DisjointSets {
    var parent: map<string, string>
    var order: seq<string>

    ghost var root: map<string, string>
    ghost var depth: map<string, nat>
    ghost var edges: Edges<string>

    /** `parent` is a forest whose trees are exactly the classes joined by `edges`; `order` lists its keys once. */
    ghost predicate Valid()
      reads this
    {
      && Forest(parent, root, depth)
      && Joins(root, edges)
      && (forall k {:trigger k in order} :: k in order <==> k in parent)
      && (forall i, j | 0 <= i < j < |order| :: order[i] != order[j])
    }

    constructor ()
      ensures Valid() && parent == map[] && edges == {} && order == []
    {
      parent, order := map[], [];
      root, depth, edges := map[], map[], {};
    }

    method Ensure(id: string)
      requires Valid()
      modifies this
      ensures Valid() && edges == old(edges) && parent.Keys == old(parent.Keys) + {id}
      ensures order == if id in old(parent) then old(order) else old(order) + [id]
      ensures root == if id in old(parent) then old(root) else old(root)[id := id]
    {
      if id !in parent {
        Grow(parent, root, depth, id);
        assert forall e | e in root :: root[e] != id by {
          forall e | e in root ensures root[e] != id { assert Node(parent, root, depth, e); }
        }
        NewClass(root, edges, id);
        assert id !in order;
        parent := parent[id := id];
        order := order + [id];
        root, depth := root[id := id], depth[id := 0];
      }
    }

    /** Follows parents to the root and points every visited element at it; no root changes. */
    method FindRoot(id: string) returns (r: string)
      requires Valid() && id in parent
      modifies this`parent
      ensures Valid() && parent.Keys == old(parent.Keys)
      ensures id in root && r == root[id] && r in parent && parent[r] == r
      ensures parent[id] == r
      decreases depth[id]
    {
      assert Node(parent, root, depth, id);
      var current := parent[id];
      if current == id {
        return id;
      }
      r := FindRoot(current);
      Compress(parent, root, depth, id);
      assert Node(parent, root, depth, id);
      parent := parent[id := r];
    }

    method Find(id: string) returns (r: string)
      requires Valid()
      modifies this
      ensures Valid() && edges == old(edges) && parent.Keys == old(parent.Keys) + {id}
      ensures order == if id in old(parent) then old(order) else old(order) + [id]
      ensures root == if id in old(parent) then old(root) else old(root)[id := id]
      ensures id in root && r == root[id] && r in parent && parent[r] == r
      ensures parent[id] == r
    {
      Ensure(id);
      r := FindRoot(id);
    }

    /** Joins two known elements. */
    method Union(left: string, right: string)
      requires Valid() && left in parent && right in parent
      modifies this
      ensures Valid() && edges == old(edges) + {(left, right)}
      ensures order == old(order) && parent.Keys == old(parent.Keys)
    {
      var leftRoot := Find(left);
      assert order == old(order);
      var rightRoot := Find(right);
      assert order == old(order) && root == old(root);
      JoinRoots(root, edges, left, right);
      if leftRoot != rightRoot {
        assert Node(parent, root, depth, left);
        LinkRoots(leftRoot, rightRoot);
      } else {
        MergedSame(parent, root, depth, leftRoot);
      }
      edges := edges + {(left, right)};
    }

    /** Makes one root the parent of another. */
    method LinkRoots(leftRoot: string, rightRoot: string)
      requires Forest(parent, root, depth) && leftRoot != rightRoot
      requires leftRoot in parent && rightRoot in parent
      requires parent[leftRoot] == leftRoot && parent[rightRoot] == rightRoot
      modifies this`parent, this`root, this`depth
      ensures Forest(parent, root, depth) && root == Merged(old(root), leftRoot, rightRoot)
      ensures parent == old(parent)[rightRoot := leftRoot]
    {
      HangBelow(parent, root, depth, leftRoot, rightRoot);
      depth := Deeper(root, depth, leftRoot, rightRoot);
      root := Merged(root, leftRoot, rightRoot);
      parent := parent[rightRoot := leftRoot];
    }
  }
}
