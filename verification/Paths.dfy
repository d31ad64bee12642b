/** Undirected connection through a set of edges. */
module Paths {

  type Edges<T(==)> = set<(T, T)>

  ghost predicate Linked<T>(edges: Edges<T>, a: T, b: T) {
    (a, b) in edges || (b, a) in edges
  }

  /** A walk from `a` to `b` along edges, in either direction. */
  ghost predicate IsPath<T>(edges: Edges<T>, path: seq<T>, a: T, b: T) {
    && |path| >= 1 && path[0] == a && path[|path| - 1] == b
    && forall i | 0 <= i < |path| - 1 :: Linked(edges, path[i], path[i + 1])
  }

  ghost predicate Connected<T(!new)>(edges: Edges<T>, a: T, b: T) {
    exists path :: IsPath(edges, path, a, b)
  }

  lemma ConnectedRefl<T(!new)>(edges: Edges<T>, a: T)
    ensures Connected(edges, a, a)
  {
    assert IsPath(edges, [a], a, a);
  }

  lemma ConnectedEdge<T(!new)>(edges: Edges<T>, a: T, b: T)
    requires Linked(edges, a, b)
    ensures Connected(edges, a, b)
  {
    assert IsPath(edges, [a, b], a, b);
  }

  lemma ConnectedTrans<T(!new)>(edges: Edges<T>, a: T, b: T, c: T)
    requires Connected(edges, a, b) && Connected(edges, b, c)
    ensures Connected(edges, a, c)
  {
    var p :| IsPath(edges, p, a, b);
    var q :| IsPath(edges, q, b, c);
    var r := p + q[1..];
    forall i | 0 <= i < |r| - 1 ensures Linked(edges, r[i], r[i + 1]) {
      if i < |p| - 1 {
        assert Linked(edges, p[i], p[i + 1]);
      } else {
        var j := i - (|p| - 1);
        assert r[i] == q[j] && r[i + 1] == q[j + 1];
        assert Linked(edges, q[j], q[j + 1]);
      }
    }
    assert IsPath(edges, r, a, c);
  }

  function Reversed<T>(s: seq<T>): (r: seq<T>)
    ensures |r| == |s| && forall i | 0 <= i < |s| :: r[i] == s[|s| - 1 - i]
  {
    seq(|s|, i requires 0 <= i < |s| => s[|s| - 1 - i])
  }

  lemma ConnectedSym<T(!new)>(edges: Edges<T>, a: T, b: T)
    requires Connected(edges, a, b)
    ensures Connected(edges, b, a)
  {
    var p :| IsPath(edges, p, a, b);
    var r := Reversed(p);
    forall i | 0 <= i < |r| - 1 ensures Linked(edges, r[i], r[i + 1]) {
      var j := |p| - 2 - i;
      assert Linked(edges, p[j], p[j + 1]);
    }
    assert IsPath(edges, r, b, a);
  }

  lemma ConnectedMono<T(!new)>(edges: Edges<T>, more: Edges<T>, a: T, b: T)
    requires Connected(edges, a, b) && edges <= more
    ensures Connected(more, a, b)
  {
    var p :| IsPath(edges, p, a, b);
    forall i | 0 <= i < |p| - 1 ensures Linked(more, p[i], p[i + 1]) {
      assert Linked(edges, p[i], p[i + 1]);
    }
    assert IsPath(more, p, a, b);
  }

  /** Replacing every edge by a connection reaches no further. */
  lemma {:induction false} ConnectedThrough<T(!new)>(edges: Edges<T>, other: Edges<T>, path: seq<T>, a: T, b: T)
    requires IsPath(edges, path, a, b)
    requires forall e | e in edges :: Connected(other, e.0, e.1)
    ensures Connected(other, a, b)
    decreases |path|
  {
    if |path| == 1 {
      ConnectedRefl(other, a);
    } else {
      var c := path[1];
      assert Linked(edges, path[0], path[1]);
      if (a, c) in edges {
        assert Connected(other, (a, c).0, (a, c).1);
      } else {
        assert Connected(other, (c, a).0, (c, a).1);
        ConnectedSym(other, c, a);
      }
      forall i | 0 <= i < |path[1..]| - 1 ensures Linked(edges, path[1..][i], path[1..][i + 1]) {
        assert Linked(edges, path[i + 1], path[i + 2]);
      }
      ConnectedThrough(edges, other, path[1..], c, b);
      ConnectedTrans(other, a, c, b);
    }
  }

  /** A labelling that agrees along every edge agrees along every walk. */
  lemma {:induction false} SameAlongPath<T(!new), L>(edges: Edges<T>, mark: map<T, L>, path: seq<T>, a: T, b: T)
    requires IsPath(edges, path, a, b)
    requires forall e | e in edges :: e.0 in mark && e.1 in mark && mark[e.0] == mark[e.1]
    requires a in mark
    ensures b in mark && mark[a] == mark[b]
    decreases |path|
  {
    if |path| > 1 {
      var c := path[1];
      assert Linked(edges, path[0], path[1]);
      assert c in mark && mark[a] == mark[c] by {
        if (a, c) in edges { assert (a, c).0 in mark; } else { assert (c, a).0 in mark; }
      }
      forall i | 0 <= i < |path[1..]| - 1 ensures Linked(edges, path[1..][i], path[1..][i + 1]) {
        assert Linked(edges, path[i + 1], path[i + 2]);
      }
      SameAlongPath(edges, mark, path[1..], c, b);
    }
  }
}
