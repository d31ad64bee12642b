/** The modal stack of one document: isolation, scroll lock and focus return together. */
module Modals {
  import opened Wrappers
  import opened Dom
  import opened Isolation
  import Inert
  import opened FocusReturn

  // ----- the top modal -----

  /** A modal counts while its surface is connected; one that is being closed counts anyway. */
  predicate Eligible(d: Document, entry: Entry, closing: Option<Token>) {
    Connected(d, entry.surface) || closing == Some(entry.token)
  }

  predicate IsTop(d: Document, stack: seq<Entry>, closing: Option<Token>, r: Option<nat>) {
    match r
    case None => forall i | 0 <= i < |stack| :: !Eligible(d, stack[i], closing)
    case Some(t) =>
      && t < |stack| && Eligible(d, stack[t], closing)
      && forall i | t < i < |stack| :: !Eligible(d, stack[i], closing)
  }

  /** Sequence numbers grow along the stack. */
  predicate Sequenced(stack: seq<Entry>) {
    forall i, j | 0 <= i < j < |stack| :: stack[i].sequence < stack[j].sequence
  }

  method TopModal(d: Document, stack: seq<Entry>, closing: Option<Token>) returns (top: Option<nat>)
    requires Sequenced(stack)
    ensures IsTop(d, stack, closing, top)
  {
    top := None;
    var i := 0;
    while i < |stack|
      invariant i <= |stack| && IsTop(d, stack[..i], closing, top)
    {
      if Eligible(d, stack[i], closing) {
        if top.None? || stack[i].sequence > stack[top.value].sequence {
          top := Some(i);
        }
      }
      i := i + 1;
    }
    assert stack[..|stack|] == stack;
  }

  lemma TopUnique(d: Document, stack: seq<Entry>, closing: Option<Token>, a: Option<nat>, b: Option<nat>)
    requires IsTop(d, stack, closing, a) && IsTop(d, stack, closing, b)
    ensures a == b
  {
  }

  // ----- what becomes inert -----

  /** The boundary, the surface, and connected extra roots outside the surface. */
  function InteractionRoots(d: Document, entry: Entry): set<Element> {
    {entry.boundary, entry.surface} +
    set e | e in entry.extraRoots(d) && e in d.html && Connected(d, e) && !Contains(d, entry.surface, e)
  }

  function BackgroundOf(d: Document, entry: Entry): (r: set<Element>)
    ensures forall b | b in r :: b in d.depth
  {
    if entry.boundary in d.depth then Resolve(d, entry.boundary, entry.candidates(d)) else {}
  }

  ghost function IsolatedAll(d: Document, roots: set<Element>, background: set<Element>): set<Element>
    requires forall b | b in background :: b in d.depth
  {
    set b, x | b in background && x in Isolated(d, roots, b) :: x
  }

  /** What the first `n` entries contribute while `roots` are the top modal's interaction roots. */
  ghost function Contributed(d: Document, roots: set<Element>, stack: seq<Entry>, n: nat): set<Element>
    requires n <= |stack|
  {
    if n == 0 then {}
    else
      Contributed(d, roots, stack, n - 1) +
      if Connected(d, stack[n - 1].surface) then IsolatedAll(d, roots, BackgroundOf(d, stack[n - 1])) else {}
  }

  /** What the document isolates with this stack. */
  ghost predicate IsNext(d: Document, stack: seq<Entry>, next: set<Element>) {
    exists top: Option<nat> {:trigger IsTop(d, stack, None, top)} :: IsTop(d, stack, None, top) && next == NextInert(d, stack, top)
  }

  ghost function NextInert(d: Document, stack: seq<Entry>, top: Option<nat>): set<Element>
    requires IsTop(d, stack, None, top)
  {
    if top.None? then {} else Contributed(d, InteractionRoots(d, stack[top.value]), stack, |stack|)
  }

  method AddBackground(d: Document, roots: set<Element>, background: set<Element>, next: set<Element>) returns (r: set<Element>)
    requires forall b | b in background :: b in d.depth
    ensures r == next + IsolatedAll(d, roots, background)
  {
    r := next;
    var todo := background;
    ghost var done: set<Element> := {};
    while todo != {}
      invariant todo + done == background && todo !! done
      invariant r == next + IsolatedAll(d, roots, done)
      decreases todo
    {
      var b :| b in todo;
      r := Isolate(d, roots, b, r);
      OneMoreBackground(d, roots, done, b);
      todo, done := todo - {b}, done + {b};
    }
    assert done == background;
  }

  lemma OneMoreBackground(d: Document, roots: set<Element>, done: set<Element>, b: Element)
    requires b in d.depth && forall e | e in done :: e in d.depth
    ensures IsolatedAll(d, roots, done + {b}) == IsolatedAll(d, roots, done) + Isolated(d, roots, b)
  {
  }

  method CollectInert(d: Document, stack: seq<Entry>) returns (next: set<Element>)
    requires Sequenced(stack)
    ensures IsNext(d, stack, next) && InertAs(d, stack, next)
  {
    var top := TopModal(d, stack, None);
    next := {};
    if top.Some? {
      var roots := InteractionRoots(d, stack[top.value]);
      var n := 0;
      while n < |stack|
        invariant n <= |stack| && next == Contributed(d, roots, stack, n)
      {
        if Connected(d, stack[n].surface) {
          next := AddBackground(d, roots, BackgroundOf(d, stack[n]), next);
        }
        n := n + 1;
      }
    }
    assert next == NextInert(d, stack, top);
    NextInertAs(d, stack, next);
  }

  lemma {:induction false} ContributedFrom(d: Document, roots: set<Element>, stack: seq<Entry>, n: nat, x: Element) returns (i: nat, b: Element)
    requires n <= |stack| && x in Contributed(d, roots, stack, n)
    ensures i < n && Connected(d, stack[i].surface) && b in BackgroundOf(d, stack[i]) && x in Isolated(d, roots, b)
  {
    if x in Contributed(d, roots, stack, n - 1) {
      i, b := ContributedFrom(d, roots, stack, n - 1, x);
    } else {
      i := n - 1;
      b :| b in BackgroundOf(d, stack[n - 1]) && x in Isolated(d, roots, b);
    }
  }

  lemma {:induction false} ContributedHas(d: Document, roots: set<Element>, stack: seq<Entry>, n: nat, i: nat, b: Element, x: Element)
    requires i < n <= |stack| && Connected(d, stack[i].surface)
    requires b in BackgroundOf(d, stack[i]) && x in Isolated(d, roots, b)
    ensures x in Contributed(d, roots, stack, n)
  {
    if i < n - 1 {
      ContributedHas(d, roots, stack, n - 1, i, b, x);
    }
  }

  // ----- what becomes inert, said of the tree -----

  /** What belongs to a modal: its boundary, its surface, and its attached extra roots outside the surface. */
  ghost predicate Belongs(d: Document, entry: Entry, e: Element) {
    || e == entry.boundary || e == entry.surface
    || (e in entry.extraRoots(d) && e in d.html && e in d.depth && Contains(d, d.documentElement, e) && !Contains(d, entry.surface, e))
  }

  lemma RootsBelong(d: Document, entry: Entry, e: Element)
    ensures e in InteractionRoots(d, entry) <==> Belongs(d, entry, e)
  {
  }

  /** The last modal whose surface is attached to the document. */
  ghost predicate LastAttached(d: Document, stack: seq<Entry>, t: int) {
    && 0 <= t < |stack| && stack[t].surface in d.depth && Contains(d, d.documentElement, stack[t].surface)
    && forall i | t < i < |stack| :: !(stack[i].surface in d.depth && Contains(d, d.documentElement, stack[i].surface))
  }

  lemma TopIsLastAttached(d: Document, stack: seq<Entry>, top: Option<nat>)
    requires IsTop(d, stack, None, top)
    ensures forall t :: LastAttached(d, stack, t) <==> top == Some(t)
  {
    if top.Some? {
      assert Eligible(d, stack[top.value], None);
    }
    forall t | LastAttached(d, stack, t) ensures top == Some(t) {
      assert Eligible(d, stack[t], None);
    }
  }

  /** A modal offers an HTML element beside its boundary as background. */
  ghost predicate Offers(d: Document, entry: Entry, b: Element) {
    && entry.surface in d.depth && Contains(d, d.documentElement, entry.surface) && entry.boundary in d.depth
    && b in entry.candidates(d) && b in d.html && b != d.body && b != d.documentElement
    && !Contains(d, b, entry.boundary) && !Contains(d, entry.boundary, b)
  }

  /** Neither around nor inside anything that belongs to the modal. */
  ghost predicate ApartFrom(d: Document, top: Entry, x: Element)
    requires x in d.depth
  {
    forall r | Belongs(d, top, r) :: !Contains(d, r, x) && (r in d.depth ==> !Contains(d, x, r))
  }

  /** Around something that belongs to the modal. */
  ghost predicate Around(d: Document, top: Entry, x: Element) {
    exists r | Belongs(d, top, r) :: r in d.depth && Contains(d, x, r)
  }

  /** An outermost part, reached through HTML elements, that is apart from everything that belongs to the top modal. */
  ghost predicate Reached(d: Document, top: Entry, b: Element, x: Element) {
    && x in d.depth && HtmlBelow(d, b, x) && ApartFrom(d, top, x)
    && (x == b || (x in d.parent && Around(d, top, d.parent[x])))
  }

  lemma IsolatedIsReached(d: Document, top: Entry, b: Element, x: Element)
    requires b in d.depth
    ensures x in Isolated(d, InteractionRoots(d, top), b) <==> Reached(d, top, b, x)
  {
    var roots := InteractionRoots(d, top);
    forall e ensures e in roots <==> Belongs(d, top, e) {
      RootsBelong(d, top, e);
    }
    IsolatedIff(d, roots, b, x);
    if x in d.depth && HtmlBelow(d, b, x) && x != b {
      assert x in d.parent;
      assert Holds(d, roots, d.parent[x]) <==> Around(d, top, d.parent[x]);
    }
    if x in d.depth {
      assert Clear(d, roots, x) <==> ApartFrom(d, top, x);
    }
  }

  lemma BackgroundOffered(d: Document, entry: Entry, b: Element)
    ensures Connected(d, entry.surface) && b in BackgroundOf(d, entry) <==> Offers(d, entry, b)
  {
  }

  /** Inert is what the attached modals offer, cut back to what is apart from the last attached one; without one, nothing. */
  ghost predicate InertAs(d: Document, stack: seq<Entry>, next: set<Element>) {
    && (forall t {:trigger LastAttached(d, stack, t)} | LastAttached(d, stack, t) :: forall x ::
          x in next <==> OfferedAndReached(d, stack, stack[t], x))
    && ((forall t :: !LastAttached(d, stack, t)) ==> next == {})
  }

  ghost predicate OfferedAndReached(d: Document, stack: seq<Entry>, top: Entry, x: Element) {
    exists i: nat, b | i < |stack| && Offers(d, stack[i], b) :: Reached(d, top, b, x)
  }

  lemma NextHas(d: Document, stack: seq<Entry>, t: nat, x: Element)
    requires IsTop(d, stack, None, Some(t))
    ensures x in NextInert(d, stack, Some(t)) <==> OfferedAndReached(d, stack, stack[t], x)
  {
    var roots := InteractionRoots(d, stack[t]);
    if x in NextInert(d, stack, Some(t)) {
      var i, b := ContributedFrom(d, roots, stack, |stack|, x);
      BackgroundOffered(d, stack[i], b);
      IsolatedIsReached(d, stack[t], b, x);
    }
    if OfferedAndReached(d, stack, stack[t], x) {
      var i: nat, b :| i < |stack| && Offers(d, stack[i], b) && Reached(d, stack[t], b, x);
      BackgroundOffered(d, stack[i], b);
      IsolatedIsReached(d, stack[t], b, x);
      ContributedHas(d, roots, stack, |stack|, i, b, x);
    }
  }

  /** What the stack isolates is exactly that. */
  lemma NextInertAs(d: Document, stack: seq<Entry>, next: set<Element>)
    requires IsNext(d, stack, next)
    ensures InertAs(d, stack, next)
  {
    var top: Option<nat> :| IsTop(d, stack, None, top) && next == NextInert(d, stack, top);
    TopIsLastAttached(d, stack, top);
    forall t, x | LastAttached(d, stack, t) ensures x in next <==> OfferedAndReached(d, stack, stack[t], x) {
      NextHas(d, stack, t, x);
    }
  }

  /** Nothing inert contains anything that belongs to the top modal, its extra roots included, or lies inside it. */
  lemma InertApartFromTop(d: Document, stack: seq<Entry>, t: nat, next: set<Element>, x: Element, r: Element)
    requires LastAttached(d, stack, t) && IsNext(d, stack, next) && x in next
    requires Belongs(d, stack[t], r)
    ensures x in d.depth && !Contains(d, r, x) && (r in d.depth ==> !Contains(d, x, r))
  {
    NextInertAs(d, stack, next);
    assert OfferedAndReached(d, stack, stack[t], x);
    var i: nat, b :| i < |stack| && Offers(d, stack[i], b) && Reached(d, stack[t], b, x);
    assert Belongs(d, stack[t], r);
    assert x in d.depth && ApartFrom(d, stack[t], x);
  }

  /**
   * If the top modal uses the default background, every element below the body with only HTML ancestors off the
   * modal's path is inside something that belongs to the modal, around it, or below an inert element.
   */
  lemma TopCovers(d: Document, stack: seq<Entry>, t: nat, next: set<Element>, y: Element)
    requires LastAttached(d, stack, t) && IsNext(d, stack, next)
    requires var boundary := stack[t].boundary;
             && boundary in d.depth && boundary != d.body && Contains(d, d.body, boundary)
             && stack[t].candidates(d) == Collect(d, boundary)
             && y in d.depth && Contains(d, d.body, y) && HtmlBranch(d, boundary, y)
    ensures || (exists r | Belongs(d, stack[t], r) :: Contains(d, r, y))
            || Around(d, stack[t], y)
            || exists x | x in next :: x in d.depth && Contains(d, x, y)
  {
    var boundary, roots := stack[t].boundary, InteractionRoots(d, stack[t]);
    var top: Option<nat> :| IsTop(d, stack, None, top) && next == NextInert(d, stack, top);
    TopIsLastAttached(d, stack, top);
    DefaultCoverage(d, roots, boundary, y);
    if Inside(d, roots, y) {
      var r :| r in roots && Contains(d, r, y);
      RootsBelong(d, stack[t], r);
    } else if Holds(d, roots, y) {
      var r :| r in roots && r in d.depth && Contains(d, y, r);
      RootsBelong(d, stack[t], r);
    } else {
      ResolveDefault(d, boundary);
      var b :| b in Collect(d, boundary) && b in d.depth && CoveredBy(d, roots, b, y);
      var x :| x in Isolated(d, roots, b) && x in d.depth && Contains(d, x, y);
      ContributedHas(d, roots, stack, |stack|, t, b, x);
    }
  }

  lemma {:induction false} InertHtml(d: Document, stack: seq<Entry>, next: set<Element>)
    requires IsNext(d, stack, next)
    ensures next <= d.html
  {
    var top: Option<nat> :| IsTop(d, stack, None, top) && next == NextInert(d, stack, top);
    forall x | x in next && top.Some? ensures x in d.html {
      var roots := InteractionRoots(d, stack[top.value]);
      var i, b := ContributedFrom(d, roots, stack, |stack|, x);
      IsolatedIff(d, roots, b, x);
    }
  }

  // ----- the host -----

  class ModalHost {
    const registry: Inert.InertRegistry
    const scroll: Inert.ScrollLock
    var stack: seq<Entry>
    var sequence: nat

    constructor (registry: Inert.InertRegistry, scroll: Inert.ScrollLock)
      requires registry.Valid() && registry.isolated == [] && scroll.Valid() && scroll.Count() == 0
      ensures Valid() && this.registry == registry && this.scroll == scroll && stack == []
    {
      this.registry, this.scroll, stack, sequence := registry, scroll, [], 0;
    }

    /** Besides the parts' own invariants: one scroll lock per open modal, unique tokens, growing sequence numbers. */
    ghost predicate Valid()
      reads this, registry, scroll
    {
      && registry.Valid() && scroll.Valid() && scroll.Count() == |stack|
      && Sequenced(stack) && DistinctTokens(stack)
      && forall i | 0 <= i < |stack| :: stack[i].sequence <= sequence
    }

    /** What is inert now is what this stack isolates; everything else carries its original attributes. */
    ghost predicate Isolates(d: Document)
      requires d.html <= registry.attributes.Keys
      reads this, registry
    {
      && IsNext(d, stack, registry.snapshots.Keys) && InertAs(d, stack, registry.snapshots.Keys)
      && registry.attributes.Keys == registry.original.Keys
      && forall e | e in registry.attributes ::
           registry.attributes[e] == if e in registry.snapshots then Inert.SEALED else registry.original[e]
    }

    method RefreshDocumentIsolation(d: Document)
      requires registry.Valid() && Sequenced(stack) && d.html <= registry.attributes.Keys
      modifies registry`attributes, registry`snapshots, registry`isolated
      ensures registry.Valid() && d.html <= registry.attributes.Keys && Isolates(d)
    {
      var next := CollectInert(d, stack);
      InertHtml(d, stack, next);
      registry.Replace(next);
    }

    method Open(d: Document, entry: Entry)
      requires Valid() && d.html <= registry.attributes.Keys
      requires IndexOf(stack, entry.token).None?
      modifies this`stack, this`sequence, registry`attributes, registry`snapshots, registry`isolated, scroll`styles, scroll`snapshot
      ensures Valid() && d.html <= registry.attributes.Keys && Isolates(d)
      ensures stack == old(stack) + [entry.(sequence := old(sequence) + 1)]
      ensures stack == Step(old(stack), Opened(entry.(sequence := old(sequence) + 1)))
      ensures scroll.styles == Inert.LOCKED
    {
      sequence := sequence + 1;
      stack := stack + [entry.(sequence := sequence)];
      RefreshDocumentIsolation(d);
      scroll.Lock();
    }

    /**
     * Closes one modal, wherever it is in the stack. `takes` says which elements accept focus once isolation has been
     * refreshed, and `tabbable` gives the first tabbable element of a surface; the result is where focus was put.
     */
    method Close(d: Document, token: Token, takes: Element -> bool, tabbable: Element -> Option<Element>)
      returns (restore: bool, focus: Option<Element>)
      requires Valid() && d.html <= registry.attributes.Keys && IndexOf(stack, token).Some?
      modifies this`stack, registry`attributes, registry`snapshots, registry`isolated, scroll`styles, scroll`snapshot
      ensures Valid() && d.html <= registry.attributes.Keys && Isolates(d)
      ensures var i := IndexOf(old(stack), token).value;
              && stack == Closed(d, old(stack), i) == Step(old(stack), Closing(d, token))
              && (restore <==> forall j | i < j < |old(stack)| :: !Connected(d, old(stack)[j].surface))
              && (!restore ==> focus == None)
              && (restore ==> Refocuses(d, stack, old(stack)[i].returnTarget, takes, tabbable, focus))
      ensures stack == [] ==>
                restore && scroll.styles == scroll.original && registry.attributes == registry.original
    {
      var i := IndexOf(stack, token).value;
      var top := TopModal(d, stack, Some(token));
      var target := stack[i].returnTarget;
      restore := top == Some(i);
      ClosingTop(d, stack, i, top);
      ClosedOrder(d, stack, i);
      stack := Unregister(d, stack, token);
      RefreshDocumentIsolation(d);
      scroll.Unlock();
      if stack == [] {
        assert IsTop(d, stack, None, None);
        NothingInert(d, registry.snapshots.Keys);
      }
      focus := None;
      if restore {
        focus := Refocus(d, stack, target, takes, tabbable);
      }
    }
  }

  /** The modal that is being closed counts as attached, so it is on top unless a later one is attached. */
  lemma ClosingTop(d: Document, stack: seq<Entry>, i: nat, top: Option<nat>)
    requires i < |stack| && DistinctTokens(stack) && IsTop(d, stack, Some(stack[i].token), top)
    ensures top == Some(i) <==> forall j | i < j < |stack| :: !Connected(d, stack[j].surface)
  {
    assert Eligible(d, stack[i], Some(stack[i].token));
    forall j | i < j < |stack| ensures Eligible(d, stack[j], Some(stack[i].token)) <==> Connected(d, stack[j].surface) {
      assert stack[i].token != stack[j].token;
    }
  }

  // ----- where focus goes -----

  function FocusOn(element: Element, takes: Element -> bool): Option<Element> {
    if takes(element) then Some(element) else None
  }

  function Preferred(surface: Element, tabbable: Element -> Option<Element>): Element {
    if tabbable(surface).Some? then tabbable(surface).value else surface
  }

  /** Focus goes to the return target if that takes it, and otherwise into the last attached modal, if there is one. */
  ghost predicate Refocuses(d: Document, stack: seq<Entry>, target: Option<Element>, takes: Element -> bool,
                            tabbable: Element -> Option<Element>, focus: Option<Element>)
  {
    if target.Some? && takes(target.value) then focus == target
    else
      && (forall t | LastAttached(d, stack, t) ::
            var e := if tabbable(stack[t].surface).Some? then tabbable(stack[t].surface).value else stack[t].surface;
            focus == if takes(e) then Some(e) else None)
      && ((forall t :: !LastAttached(d, stack, t)) ==> focus == None)
  }

  method Refocus(d: Document, stack: seq<Entry>, target: Option<Element>, takes: Element -> bool,
                 tabbable: Element -> Option<Element>) returns (focus: Option<Element>)
    requires Sequenced(stack)
    ensures Refocuses(d, stack, target, takes, tabbable, focus)
  {
    if target.Some? && takes(target.value) {
      return target;
    }
    var remaining := TopModal(d, stack, None);
    TopIsLastAttached(d, stack, remaining);
    focus := if remaining.Some? then FocusOn(Preferred(stack[remaining.value].surface, tabbable), takes) else None;
  }

  /** Nothing inert is around an element of the top modal's surface, so the fallback stays operable. */
  lemma FallbackOperable(d: Document, stack: seq<Entry>, t: nat, next: set<Element>, x: Element, e: Element)
    requires LastAttached(d, stack, t) && IsNext(d, stack, next) && x in next
    requires e in d.depth && Contains(d, stack[t].surface, e)
    ensures x in d.depth && !Contains(d, x, e)
  {
    InertApartFromTop(d, stack, t, next, x, stack[t].surface);
    if Contains(d, x, e) {
      Comparable(d, x, stack[t].surface, e);
    }
  }

  lemma NothingInert(d: Document, next: set<Element>)
    requires IsNext(d, [], next)
    ensures next == {}
  {
  }

  lemma ClosedOrder(d: Document, stack: seq<Entry>, i: nat)
    requires i < |stack| && Sequenced(stack) && DistinctTokens(stack)
    ensures Sequenced(Closed(d, stack, i)) && DistinctTokens(Closed(d, stack, i))
    ensures forall n | 0 <= n < |stack| - 1 :: exists j :: 0 <= j < |stack| && Closed(d, stack, i)[n].sequence == stack[j].sequence
  {
    var r := Closed(d, stack, i);
    forall a, b | 0 <= a < b < |r| ensures r[a].sequence < r[b].sequence && r[a].token != r[b].token {
      var a', b' := if a < i then a else a + 1, if b < i then b else b + 1;
      assert r[a] == Rethreaded(d, stack[i], stack[a']) && r[b] == Rethreaded(d, stack[i], stack[b']);
    }
    forall n | 0 <= n < |r| ensures exists j :: 0 <= j < |stack| && r[n].sequence == stack[j].sequence {
      var j := if n < i then n else n + 1;
      assert r[n].sequence == stack[j].sequence;
    }
  }
}
