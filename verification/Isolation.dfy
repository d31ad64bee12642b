/** Which elements become inert while a dialog is on top. */
module Isolation {
  import opened Dom

  /** Inside an interaction root: the element stays operable. */
  predicate Inside(d: Document, roots: set<Element>, e: Element)
    requires e in d.depth
  {
    exists r | r in roots :: Contains(d, r, e)
  }

  /** Around an interaction root: the element must not become inert, but its other branches must. */
  predicate Holds(d: Document, roots: set<Element>, e: Element) {
    exists r | r in roots :: r in d.depth && Contains(d, e, r)
  }

  predicate Clear(d: Document, roots: set<Element>, e: Element)
    requires e in d.depth
  {
    !Inside(d, roots, e) && !Holds(d, roots, e)
  }

  function Subtree(d: Document, e: Element): set<Element> {
    set x | x in d.depth && Contains(d, e, x)
  }

  lemma ChildSmaller(d: Document, e: Element, c: Element)
    requires c in d.parent && d.parent[c] == e
    ensures Subtree(d, c) < Subtree(d, e)
  {
    forall x | x in Subtree(d, c) ensures x in Subtree(d, e) {
      ContainsTransitive(d, e, c, x);
    }
    assert e in Subtree(d, e);
    if Contains(d, c, e) {
      ContainsDepth(d, c, e);
    }
  }

  /** What isolating one background element makes inert: the parts of it that hold no root. */
  ghost function Isolated(d: Document, roots: set<Element>, e: Element): set<Element>
    requires e in d.depth
    decreases Subtree(d, e)
  {
    if Inside(d, roots, e) then {}
    else if Holds(d, roots, e) then
      set c, x | c in HtmlChildren(d, e) && x in IsolatedChild(d, roots, e, c) :: x
    else {e}
  }

  ghost function IsolatedChild(d: Document, roots: set<Element>, e: Element, c: Element): set<Element>
    requires c in HtmlChildren(d, e)
    decreases Subtree(d, e), 0
  {
    ChildSmaller(d, e, c);
    Isolated(d, roots, c)
  }

  /** Adds what isolating an element makes inert to the set collected so far. */
  method Isolate(d: Document, roots: set<Element>, e: Element, next: set<Element>) returns (r: set<Element>)
    requires e in d.depth
    ensures r == next + Isolated(d, roots, e)
    decreases Subtree(d, e)
  {
    r := next;
    if Inside(d, roots, e) {
      return;
    }
    if Holds(d, roots, e) {
      var todo := HtmlChildren(d, e);
      while todo != {}
        invariant todo <= HtmlChildren(d, e)
        invariant forall x :: x in r <==> x in next || exists c | c in HtmlChildren(d, e) - todo :: x in IsolatedChild(d, roots, e, c)
        decreases todo
      {
        var child :| child in todo;
        ChildSmaller(d, e, child);
        ghost var before, left := r, todo;
        r := Isolate(d, roots, child, r);
        todo := todo - {child};
        OneMoreChild(d, roots, e, left, child, next, before, r);
      }
    } else {
      r := r + {e};
    }
  }

  lemma OneMoreChild(d: Document, roots: set<Element>, e: Element, left: set<Element>, child: Element,
                     next: set<Element>, before: set<Element>, after: set<Element>)
    requires left <= HtmlChildren(d, e) && child in left
    requires forall x :: x in before <==> x in next || exists c | c in HtmlChildren(d, e) - left :: x in IsolatedChild(d, roots, e, c)
    requires after == before + IsolatedChild(d, roots, e, child)
    ensures forall x ::
              x in after <==>
              x in next || exists c | c in HtmlChildren(d, e) - (left - {child}) :: x in IsolatedChild(d, roots, e, c)
  {
    var done, more := HtmlChildren(d, e) - left, HtmlChildren(d, e) - (left - {child});
    assert more == done + {child};
  }

  /** From an element down to another one, only HTML elements are passed. */
  predicate HtmlBelow(d: Document, e: Element, x: Element)
    requires x in d.depth
    decreases d.depth[x]
  {
    x == e || (x in d.html && x in d.parent && HtmlBelow(d, e, d.parent[x]))
  }

  lemma {:induction false} HtmlBelowContains(d: Document, e: Element, x: Element)
    requires x in d.depth && HtmlBelow(d, e, x)
    ensures Contains(d, e, x)
    decreases d.depth[x]
  {
    if x != e {
      HtmlBelowContains(d, e, d.parent[x]);
    }
  }

  lemma {:induction false} HtmlBelowTransitive(d: Document, a: Element, b: Element, c: Element)
    requires c in d.depth && b in d.depth && HtmlBelow(d, b, c) && HtmlBelow(d, a, b)
    ensures HtmlBelow(d, a, c)
    decreases d.depth[c]
  {
    if b != c {
      HtmlBelowTransitive(d, a, b, d.parent[c]);
    }
  }

  /** An outermost clear element: clear itself, right below something that holds a root. */
  predicate Outermost(d: Document, roots: set<Element>, x: Element)
    requires x in d.depth
  {
    Clear(d, roots, x) && x in d.parent && Holds(d, roots, d.parent[x])
  }

  lemma HoldsAbove(d: Document, roots: set<Element>, a: Element, b: Element)
    requires b in d.depth && Contains(d, a, b) && Holds(d, roots, b)
    ensures Holds(d, roots, a)
  {
    var r :| r in roots && r in d.depth && Contains(d, b, r);
    ContainsTransitive(d, a, b, r);
  }

  lemma InsideBelow(d: Document, roots: set<Element>, a: Element, b: Element)
    requires b in d.depth && a in d.depth && Contains(d, a, b) && Inside(d, roots, a)
    ensures Inside(d, roots, b)
  {
    var r :| r in roots && Contains(d, r, a);
    ContainsTransitive(d, r, a, b);
  }

  /** Exactly the clear elements reached through HTML elements whose ancestors, up to the start, hold a root. */
  lemma {:induction false} IsolatedIff(d: Document, roots: set<Element>, e: Element, x: Element)
    requires e in d.depth
    ensures x in Isolated(d, roots, e) <==>
            && x in d.depth && HtmlBelow(d, e, x) && Clear(d, roots, x)
            && (x == e || Holds(d, roots, d.parent[x]))
    decreases Subtree(d, e)
  {
    if Holds(d, roots, e) && !Inside(d, roots, e) {
      forall c | c in HtmlChildren(d, e)
        ensures x in IsolatedChild(d, roots, e, c) <==>
                && x in d.depth && HtmlBelow(d, c, x) && Clear(d, roots, x)
                && (x == c || Holds(d, roots, d.parent[x]))
      {
        ChildSmaller(d, e, c);
        IsolatedIff(d, roots, c, x);
      }
      if x in Isolated(d, roots, e) {
        var c :| c in HtmlChildren(d, e) && x in IsolatedChild(d, roots, e, c);
        assert HtmlBelow(d, e, c);
        HtmlBelowTransitive(d, e, c, x);
        assert x != e by { HtmlBelowContains(d, c, x); ContainsDepth(d, c, x); }
      }
      if x in d.depth && HtmlBelow(d, e, x) && Clear(d, roots, x) && (x == e || Holds(d, roots, d.parent[x])) {
        var c := ChildToward(d, e, x);
        assert x in IsolatedChild(d, roots, e, c);
      }
    } else if x in d.depth && x != e && HtmlBelow(d, e, x) && Holds(d, roots, d.parent[x]) {
      HtmlBelowContains(d, e, x);
      if Inside(d, roots, e) {
        InsideBelow(d, roots, e, x);
      } else {
        HoldsAbove(d, roots, e, d.parent[x]);
      }
    }
  }

  lemma {:induction false} ChildToward(d: Document, e: Element, x: Element) returns (c: Element)
    requires x in d.depth && x != e && HtmlBelow(d, e, x)
    ensures c in HtmlChildren(d, e) && HtmlBelow(d, c, x)
    decreases d.depth[x]
  {
    if d.parent[x] == e {
      c := x;
    } else {
      c := ChildToward(d, e, d.parent[x]);
    }
  }

  /** Nothing isolated contains a root or lies inside one. */
  lemma IsolatedClear(d: Document, roots: set<Element>, e: Element, x: Element)
    requires e in d.depth && x in Isolated(d, roots, e)
    ensures x in d.depth && Contains(d, e, x)
    ensures forall r | r in roots :: !Contains(d, r, x) && (r in d.depth ==> !Contains(d, x, r))
  {
    IsolatedIff(d, roots, e, x);
    HtmlBelowContains(d, e, x);
  }

  ghost predicate CoveredBy(d: Document, roots: set<Element>, e: Element, y: Element)
    requires e in d.depth && y in d.depth
  {
    exists x | x in Isolated(d, roots, e) :: x in d.depth && Contains(d, x, y)
  }

  /** Below an isolated element, what is reached through HTML elements is operable, around a root, or inert. */
  lemma {:induction false} Coverage(d: Document, roots: set<Element>, e: Element, y: Element)
    requires e in d.depth && y in d.depth && HtmlBelow(d, e, y)
    ensures Inside(d, roots, y) || Holds(d, roots, y) || CoveredBy(d, roots, e, y)
    decreases d.depth[y]
  {
    IsolatedIff(d, roots, e, y);
    if y != e {
      var p := d.parent[y];
      Coverage(d, roots, e, p);
      if Inside(d, roots, p) {
        InsideBelow(d, roots, p, y);
      } else if CoveredBy(d, roots, e, p) {
        var x :| x in Isolated(d, roots, e) && x in d.depth && Contains(d, x, p);
        ContainsTransitive(d, x, p, y);
      }
    }
  }

  // ----- the default background of a dialog -----

  ghost predicate Inert(d: Document, roots: set<Element>, background: set<Element>, y: Element)
    requires y in d.depth
  {
    exists b | b in background :: b in d.depth && CoveredBy(d, roots, b, y)
  }

  /** The ancestor of an element that branches off from the path to the boundary. */
  lemma {:induction false} BranchOff(d: Document, boundary: Element, y: Element) returns (c: Element)
    requires boundary in d.depth && y in d.depth && Contains(d, d.body, boundary) && Contains(d, d.body, y)
    requires !Contains(d, y, boundary)
    ensures c in d.parent && Contains(d, c, y) && !Contains(d, c, boundary)
    ensures Contains(d, d.parent[c], boundary) && Contains(d, d.body, d.parent[c])
    decreases d.depth[y]
  {
    assert y != d.body;
    var p := d.parent[y];
    if Contains(d, p, boundary) {
      c := y;
    } else {
      c := BranchOff(d, boundary, p);
    }
  }

  lemma {:induction false} PathHtml(d: Document, c: Element, y: Element)
    requires y in d.depth && Contains(d, c, y)
    requires forall w | w in d.depth && Contains(d, w, y) && Contains(d, c, w) :: w in d.html
    ensures HtmlBelow(d, c, y)
    decreases d.depth[y]
  {
    if c != y {
      var p := d.parent[y];
      forall w | w in d.depth && Contains(d, w, p) && Contains(d, c, w) ensures w in d.html {
        ContainsTransitive(d, w, p, y);
      }
      assert Contains(d, c, y) && Contains(d, y, y);
      PathHtml(d, c, p);
    }
  }

  /** Off the path to the boundary, up to the branching point, an element's ancestors are HTML elements. */
  predicate HtmlBranch(d: Document, boundary: Element, y: Element)
    requires boundary in d.depth && y in d.depth
  {
    forall w | w in d.depth && Contains(d, w, y) && !Contains(d, w, boundary) :: w in d.html
  }

  /**
   * Under the default background, an element with only HTML ancestors off the dialog's path is operable, around a
   * root, or inert.
   */
  lemma DefaultCoverage(d: Document, roots: set<Element>, boundary: Element, y: Element)
    requires boundary in d.depth && y in d.depth && Contains(d, d.body, boundary) && Contains(d, d.body, y)
    requires boundary in roots && HtmlBranch(d, boundary, y)
    ensures Inside(d, roots, y) || Holds(d, roots, y) || Inert(d, roots, Collect(d, boundary), y)
  {
    if !Inside(d, roots, y) && !Holds(d, roots, y) {
      var c := BranchOff(d, boundary, y);
      assert d.parent[c] != boundary by {
        if d.parent[c] == boundary {
          ContainsTransitive(d, boundary, c, y);
        }
      }
      CollectIs(d, boundary, c);
      forall w | w in d.depth && Contains(d, w, y) && Contains(d, c, w) ensures w in d.html {
        if Contains(d, w, boundary) {
          ContainsTransitive(d, c, w, boundary);
        }
      }
      PathHtml(d, c, y);
      Coverage(d, roots, c, y);
    }
  }

  // ----- exactly what the default background covers -----

  /** Every clear element below something that holds a root has an outermost clear ancestor. */
  lemma {:induction false} OutermostAbove(d: Document, roots: set<Element>, top: Element, y: Element) returns (x: Element)
    requires y in d.depth && Contains(d, top, y) && Holds(d, roots, top) && Clear(d, roots, y)
    ensures x in d.depth && Outermost(d, roots, x) && Contains(d, x, y)
    decreases d.depth[y]
  {
    var p := d.parent[y];
    if Holds(d, roots, p) {
      x := y;
    } else {
      if Inside(d, roots, p) {
        InsideBelow(d, roots, p, y);
      }
      x := OutermostAbove(d, roots, top, p);
    }
  }

  lemma OutermostUnique(d: Document, roots: set<Element>, x: Element, z: Element, y: Element)
    requires x in d.depth && z in d.depth && y in d.depth && Contains(d, x, y) && Contains(d, z, y)
    requires Outermost(d, roots, x) && Outermost(d, roots, z)
    ensures x == z
  {
    Comparable(d, x, z, y);
    if x != z && Contains(d, x, z) {
      HoldsAbove(d, roots, x, d.parent[z]);
    } else if x != z {
      HoldsAbove(d, roots, z, d.parent[x]);
    }
  }

  lemma {:induction false} HtmlBelowAt(d: Document, b: Element, x: Element, w: Element)
    requires x in d.depth && w in d.depth && HtmlBelow(d, b, x) && b in d.html
    requires Contains(d, b, w) && Contains(d, w, x)
    ensures w in d.html
    decreases d.depth[x]
  {
    if w != x {
      if x == b {
        ContainsAntisymmetric(d, b, w);
      } else {
        HtmlBelowAt(d, b, d.parent[x], w);
      }
    }
  }

  /** What the default background makes inert hangs below HTML elements only. */
  lemma InertBranch(d: Document, roots: set<Element>, boundary: Element, b: Element, x: Element)
    requires boundary in d.depth && x in d.depth && b in d.parent && b in d.html && HtmlBelow(d, b, x)
    requires Contains(d, d.parent[b], boundary)
    ensures HtmlBranch(d, boundary, x)
  {
    HtmlBelowContains(d, b, x);
    forall w | w in d.depth && Contains(d, w, x) && !Contains(d, w, boundary) ensures w in d.html {
      Comparable(d, b, w, x);
      if Contains(d, b, w) {
        HtmlBelowAt(d, b, x, w);
      } else {
        AboveParent(d, w, b);
        ContainsTransitive(d, w, d.parent[b], boundary);
      }
    }
  }

  /** An element's outermost clear ancestor decides: it is covered precisely when that one hangs below HTML elements. */
  lemma OutermostCovered(d: Document, roots: set<Element>, boundary: Element, x: Element, y: Element)
    requires boundary in d.depth && y in d.depth && Contains(d, d.body, boundary) && Contains(d, d.body, y)
    requires boundary in roots && x in d.depth && Outermost(d, roots, x) && Contains(d, x, y)
    ensures Inert(d, roots, Collect(d, boundary), y) <==> HtmlBranch(d, boundary, x)
  {
    if Inert(d, roots, Collect(d, boundary), y) {
      var b :| b in Collect(d, boundary) && b in d.depth && CoveredBy(d, roots, b, y);
      var z :| z in Isolated(d, roots, b) && z in d.depth && Contains(d, z, y);
      CollectIs(d, boundary, b);
      IsolatedIff(d, roots, b, z);
      OutermostUnique(d, roots, x, z, y);
      InertBranch(d, roots, boundary, b, x);
    }
    if HtmlBranch(d, boundary, x) {
      Comparable(d, d.body, x, y);
      if Contains(d, x, d.body) {
        ContainsTransitive(d, x, d.body, boundary);
      }
      DefaultCoverage(d, roots, boundary, x);
      var b :| b in Collect(d, boundary) && b in d.depth && CoveredBy(d, roots, b, x);
      var z :| z in Isolated(d, roots, b) && z in d.depth && Contains(d, z, x);
      ContainsTransitive(d, z, x, y);
    }
  }

  /** Off the dialog's path, the element and its ancestors that hang right below something around a root are HTML elements. */
  predicate HtmlDownToClear(d: Document, roots: set<Element>, boundary: Element, y: Element)
    requires boundary in d.depth && y in d.depth
  {
    forall w | w in d.parent && Contains(d, w, y) && !Contains(d, w, boundary) && Holds(d, roots, d.parent[w]) :: w in d.html
  }

  /** What lies around the outermost clear ancestor, but not around the boundary, hangs right below something around a root. */
  lemma AroundOutermost(d: Document, roots: set<Element>, boundary: Element, x: Element, w: Element)
    requires boundary in d.depth && x in d.depth && Contains(d, d.body, boundary) && Contains(d, d.body, x)
    requires Outermost(d, roots, x) && w in d.depth && Contains(d, w, x) && !Contains(d, w, boundary)
    ensures w in d.parent && Holds(d, roots, d.parent[w])
  {
    Comparable(d, d.body, w, x);
    if Contains(d, w, d.body) {
      ContainsTransitive(d, w, d.body, boundary);
    }
    if w != x {
      AboveParent(d, w, x);
      HoldsAbove(d, roots, w, d.parent[x]);
      HoldsAbove(d, roots, d.parent[w], w);
    }
  }

  /** Below the outermost clear ancestor nothing hangs right below something around a root. */
  lemma BelowOutermost(d: Document, roots: set<Element>, x: Element, y: Element, w: Element)
    requires x in d.depth && Outermost(d, roots, x) && y in d.depth && Contains(d, x, y)
    requires w in d.parent && Contains(d, w, y) && Holds(d, roots, d.parent[w])
    ensures Contains(d, w, x)
  {
    Comparable(d, w, x, y);
    if w != x && Contains(d, x, w) {
      AboveParent(d, x, w);
      HoldsAbove(d, roots, x, d.parent[w]);
    }
  }

  lemma OutermostBelowBody(d: Document, roots: set<Element>, boundary: Element, x: Element, y: Element)
    requires boundary in d.depth && y in d.depth && Contains(d, d.body, boundary) && Contains(d, d.body, y)
    requires boundary in roots && x in d.depth && Outermost(d, roots, x) && Contains(d, x, y)
    ensures Contains(d, d.body, x)
  {
    Comparable(d, d.body, x, y);
    if Contains(d, x, d.body) {
      ContainsTransitive(d, x, d.body, boundary);
    }
  }

  lemma SameBranch(d: Document, roots: set<Element>, boundary: Element, x: Element, y: Element)
    requires boundary in d.depth && x in d.depth && y in d.depth && Contains(d, d.body, boundary) && Contains(d, d.body, x)
    requires Outermost(d, roots, x) && Contains(d, x, y)
    ensures HtmlBranch(d, boundary, x) <==> HtmlDownToClear(d, roots, boundary, y)
  {
    forall w | w in d.depth && Contains(d, w, x) && !Contains(d, w, boundary)
      ensures w in d.parent && Contains(d, w, y) && Holds(d, roots, d.parent[w])
    {
      AroundOutermost(d, roots, boundary, x, w);
      ContainsTransitive(d, w, x, y);
    }
    forall w | w in d.parent && Contains(d, w, y) && Holds(d, roots, d.parent[w]) ensures Contains(d, w, x) {
      BelowOutermost(d, roots, x, y, w);
    }
  }

  /**
   * The default background of one dialog makes an element apart from the roots inert precisely when, off the dialog's
   * path, everything from it upwards that hangs right below something around a root is an HTML element.
   */
  lemma DefaultCoverageExact(d: Document, roots: set<Element>, boundary: Element, y: Element)
    requires boundary in d.depth && y in d.depth && Contains(d, d.body, boundary) && Contains(d, d.body, y)
    requires boundary in roots && Clear(d, roots, y)
    ensures Inert(d, roots, Collect(d, boundary), y) <==> HtmlDownToClear(d, roots, boundary, y)
  {
    var x := OutermostAbove(d, roots, d.body, y);
    OutermostCovered(d, roots, boundary, x, y);
    OutermostBelowBody(d, roots, boundary, x, y);
    SameBranch(d, roots, boundary, x, y);
  }

  /** An HTML element inside an SVG element beside the dialog stays operable. */
  lemma ForeignContentEscapes()
    ensures var d: Document := Nodes(map[0 := 0, 1 := 1, 2 := 2, 3 := 2, 4 := 3], map[1 := 0, 2 := 1, 3 := 1, 4 := 3],
                                     {0, 1, 2, 4}, 0, 1);
            && 4 in d.html && Clear(d, {2}, 4) && Contains(d, d.body, 4) && Contains(d, d.body, 2)
            && !Inert(d, {2}, Collect(d, 2), 4)
  {
    var d: Document := Nodes(map[0 := 0, 1 := 1, 2 := 2, 3 := 2, 4 := 3], map[1 := 0, 2 := 1, 3 := 1, 4 := 3],
                             {0, 1, 2, 4}, 0, 1);
    assert Contains(d, 1, 3) && Contains(d, 1, 4) && Contains(d, 1, 2);
    assert !Contains(d, 2, 3) && !Contains(d, 2, 4) && !Contains(d, 3, 2) && !Contains(d, 4, 2);
    assert 3 in d.parent && Holds(d, {2}, d.parent[3]) && 3 !in d.html;
    assert !HtmlDownToClear(d, {2}, 2, 4);
    DefaultCoverageExact(d, {2}, 2, 4);
  }

  // ----- resolving the background -----

  /** What the registered resolver's candidates are reduced to. */
  function Resolve(d: Document, boundary: Element, candidates: set<Element>): (r: set<Element>)
    requires boundary in d.depth
    ensures forall e | e in r :: e in d.depth && !Contains(d, e, boundary) && !Contains(d, boundary, e)
  {
    set e | e in candidates && e in d.html && e != d.body && e != d.documentElement &&
            !Contains(d, e, boundary) && !Contains(d, boundary, e)
  }

  /** For a boundary below the body, the default background passes the filter unchanged. */
  lemma ResolveDefault(d: Document, boundary: Element)
    requires boundary in d.depth && Contains(d, d.body, boundary)
    ensures Resolve(d, boundary, Collect(d, boundary)) == Collect(d, boundary) - {d.body}
    ensures boundary != d.body ==> Resolve(d, boundary, Collect(d, boundary)) == Collect(d, boundary)
  {
    forall e | e in Collect(d, boundary)
      ensures e in d.html && e != d.documentElement && !Contains(d, e, boundary) && !Contains(d, boundary, e)
      ensures boundary != d.body ==> e != d.body
    {
      CollectIs(d, boundary, e);
      if Contains(d, boundary, e) {
        if e != boundary {
          AboveParent(d, boundary, e);
          ContainsAntisymmetric(d, boundary, d.parent[e]);
        }
      }
    }
  }
}
