/** A document as a finite tree of elements, and the background a dialog collects. */
module Dom {

  type Element = nat

  /** Elements with their depth, their parent if they have one, and which of them are HTML elements. */
  datatype Nodes = Nodes(depth: map<Element, nat>, parent: map<Element, Element>, html: set<Element>,
                         documentElement: Element, body: Element)

  predicate IsDocument(n: Nodes) {
    && (forall e | e in n.parent ::
          e in n.depth && n.parent[e] in n.depth && n.depth[e] == n.depth[n.parent[e]] + 1)
    && n.html <= n.depth.Keys
    && n.documentElement in n.depth && n.documentElement !in n.parent
    && n.body in n.parent && n.parent[n.body] == n.documentElement
  }

  type Document = n: Nodes | IsDocument(n)
    witness Nodes(map[0 := 0, 1 := 1], map[1 := 0], {0, 1}, 0, 1)

  /** Node.contains: an element contains itself and everything below it. */
  predicate Contains(d: Document, a: Element, b: Element)
    requires b in d.depth
    decreases d.depth[b]
  {
    a == b || (b in d.parent && Contains(d, a, d.parent[b]))
  }

  predicate Connected(d: Document, e: Element) {
    e in d.depth && Contains(d, d.documentElement, e)
  }

  function HtmlChildren(d: Document, e: Element): set<Element> {
    set c | c in d.parent && d.parent[c] == e && c in d.html
  }

  // ----- the order of containment -----

  lemma {:induction false} ContainsDepth(d: Document, a: Element, b: Element)
    requires b in d.depth && Contains(d, a, b)
    ensures a in d.depth && d.depth[a] <= d.depth[b]
    ensures a != b ==> d.depth[a] < d.depth[b]
    decreases d.depth[b]
  {
    if a != b {
      ContainsDepth(d, a, d.parent[b]);
    }
  }

  lemma {:induction false} ContainsTransitive(d: Document, a: Element, b: Element, c: Element)
    requires c in d.depth && Contains(d, b, c) && b in d.depth && Contains(d, a, b)
    ensures Contains(d, a, c)
    decreases d.depth[c]
  {
    if b != c {
      ContainsTransitive(d, a, b, d.parent[c]);
    }
  }

  /** Two elements above one element lie on one branch. */
  lemma {:induction false} Comparable(d: Document, a: Element, b: Element, c: Element)
    requires c in d.depth && Contains(d, a, c) && Contains(d, b, c)
    ensures a in d.depth && b in d.depth && (Contains(d, a, b) || Contains(d, b, a))
    decreases d.depth[c]
  {
    ContainsDepth(d, a, c);
    ContainsDepth(d, b, c);
    if a != c && b != c {
      Comparable(d, a, b, d.parent[c]);
    }
  }

  /** Strictly above an element means above its parent. */
  lemma AboveParent(d: Document, a: Element, b: Element)
    requires b in d.depth && Contains(d, a, b) && a != b
    ensures b in d.parent && Contains(d, a, d.parent[b])
  {
  }

  lemma ContainsAntisymmetric(d: Document, a: Element, b: Element)
    requires a in d.depth && b in d.depth && Contains(d, a, b) && Contains(d, b, a)
    ensures a == b
  {
    ContainsDepth(d, a, b);
    ContainsDepth(d, b, a);
  }

  // ----- collecting the background -----

  /** Everything the walk from a branch up to the body finds beside it. */
  function Collect(d: Document, branch: Element): set<Element>
    requires branch in d.depth
    decreases d.depth[branch]
  {
    if branch !in d.parent then {}
    else
      var p := d.parent[branch];
      (HtmlChildren(d, p) - {branch}) + if p == d.body then {} else Collect(d, p)
  }

  method CollectBackgroundElements(d: Document, portalBoundary: Element) returns (elements: set<Element>)
    requires portalBoundary in d.depth
    ensures elements == Collect(d, portalBoundary)
  {
    elements := {};
    var branch := portalBoundary;
    while branch in d.parent
      invariant branch in d.depth
      invariant elements + Collect(d, branch) == Collect(d, portalBoundary)
      decreases d.depth[branch]
    {
      var p := d.parent[branch];
      elements := elements + (HtmlChildren(d, p) - {branch});
      if p == d.body {
        return;
      }
      branch := p;
    }
  }

  /** The body stops the walk. */
  predicate BelowBody(d: Document, p: Element, boundary: Element)
    requires boundary in d.depth && p in d.depth
  {
    Contains(d, d.body, boundary) && boundary != d.body ==> Contains(d, d.body, p)
  }

  /** The collected elements are the HTML children, off the branch, of the boundary's ancestors up to the body. */
  lemma {:induction false} CollectIs(d: Document, b: Element, e: Element)
    requires b in d.depth
    ensures e in Collect(d, b) <==>
            && e in d.html && e in d.parent && Contains(d, d.parent[e], b) && d.parent[e] != b
            && !Contains(d, e, b) && BelowBody(d, d.parent[e], b)
    decreases d.depth[b]
  {
    if b in d.parent {
      var p := d.parent[b];
      CollectIs(d, p, e);
      if e in d.parent {
        CollectStep(d, b, e);
      }
    }
  }

  lemma CollectStep(d: Document, b: Element, e: Element)
    requires b in d.parent && e in d.parent
    ensures d.parent[e] == d.parent[b] && e != b ==> !Contains(d, e, b)
    ensures !Contains(d, e, b) ==> !Contains(d, e, d.parent[b])
    ensures d.parent[e] == d.parent[b] ==> !Contains(d, e, d.parent[b])
    ensures Contains(d, d.parent[e], d.parent[b]) ==> Contains(d, d.parent[e], b) && d.parent[e] != b
    ensures b != d.body && d.parent[b] == d.body && Contains(d, d.body, d.parent[e]) && Contains(d, d.parent[e], b) && d.parent[e] != b ==>
              d.parent[e] == d.body
    ensures Contains(d, d.body, d.body)
  {
    var p, q := d.parent[b], d.parent[e];
    if Contains(d, e, p) {
      ContainsDepth(d, e, p);
    }
    if q == p && e != b && Contains(d, e, b) {
      ContainsDepth(d, e, p);
    }
    if Contains(d, q, p) {
      ContainsDepth(d, q, p);
    }
    if p == d.body && Contains(d, d.body, q) && Contains(d, q, b) && q != b {
      AboveParent(d, q, b);
      ContainsAntisymmetric(d, d.body, q);
    }
  }
}
