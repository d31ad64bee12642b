/** Open modals and where the focus goes when they close. */
module FocusReturn {
  import opened Wrappers
  import opened Dom

  type Token = nat

  datatype Entry = Entry(token: Token, surface: Element, boundary: Element,
                         candidates: Document -> set<Element>, extraRoots: Document -> set<Element>,
                         returnTarget: Option<Element>, sequence: nat)

  predicate DistinctTokens(stack: seq<Entry>) {
    forall i, j | 0 <= i < j < |stack| :: stack[i].token != stack[j].token
  }

  function IndexOf(stack: seq<Entry>, token: Token): (r: Option<nat>)
    ensures match r
            case Some(i) => i < |stack| && stack[i].token == token && forall h | 0 <= h < i :: stack[h].token != token
            case None => forall i | 0 <= i < |stack| :: stack[i].token != token
  {
    if stack == [] then None
    else if stack[0].token == token then Some(0)
    else match IndexOf(stack[1..], token) case Some(i) => Some(i + 1) case None => None
  }

  predicate InSurface(d: Document, surface: Element, target: Option<Element>) {
    target.Some? && target.value in d.depth && Contains(d, surface, target.value)
  }

  /** A remaining modal that would return into the closed surface takes over the closed modal's return target. */
  function Rethreaded(d: Document, closed: Entry, remaining: Entry): Entry {
    if InSurface(d, closed.surface, remaining.returnTarget) then remaining.(returnTarget := closed.returnTarget) else remaining
  }

  /** Nothing but the return target changes, and that only if it lies in the closed modal's surface. */
  ghost predicate Returns(d: Document, closed: Entry, before: Entry, after: Entry) {
    && after == before.(returnTarget := after.returnTarget)
    && match before.returnTarget
       case Some(e) => after.returnTarget == if e in d.depth && Contains(d, closed.surface, e) then closed.returnTarget else Some(e)
       case None => after.returnTarget == None
  }

  function Closed(d: Document, stack: seq<Entry>, i: nat): (r: seq<Entry>)
    requires i < |stack|
    ensures |r| == |stack| - 1
    ensures forall j | 0 <= j < |r| :: r[j] == Rethreaded(d, stack[i], stack[if j < i then j else j + 1])
  {
    seq(|stack| - 1, j requires 0 <= j < |stack| - 1 => Rethreaded(d, stack[i], stack[if j < i then j else j + 1]))
  }

  /** Removes one entry and rethreads the others in place. */
  method Unregister(d: Document, stack: seq<Entry>, token: Token) returns (r: seq<Entry>)
    ensures match IndexOf(stack, token)
            case None => r == stack
            case Some(i) => r == Closed(d, stack, i) && forall j | 0 <= j < |r| ::
              Returns(d, stack[i], stack[if j < i then j else j + 1], r[j])
  {
    var found := IndexOf(stack, token);
    if found.None? {
      return stack;
    }
    var i, entry := found.value, stack[found.value];
    r := stack[..i] + stack[i + 1..];
    ghost var rest := r;
    var j := 0;
    while j < |r|
      invariant j <= |r| == |rest|
      invariant forall k | 0 <= k < |r| :: r[k] == if k < j then Rethreaded(d, entry, rest[k]) else rest[k]
    {
      if InSurface(d, entry.surface, r[j].returnTarget) {
        r := r[j := r[j].(returnTarget := entry.returnTarget)];
      }
      j := j + 1;
    }
    assert r == Closed(d, stack, i);
  }

  // ----- which surface holds an element -----

  /** The surface, by its modal's token, that holds an element; surfaces are disjoint, so there is at most one. */
  type Home = Element -> Option<Token>

  function HomeOf(home: Home, target: Option<Element>): Option<Token> {
    if target.Some? then home(target.value) else None
  }

  /** Every return target lies outside all surfaces or inside an earlier modal that is still open. */
  ghost predicate Threaded(stack: seq<Entry>, home: Home) {
    forall j | 0 <= j < |stack| :: ThreadedAt(stack, home, j)
  }

  ghost predicate ThreadedAt(stack: seq<Entry>, home: Home, j: nat)
    requires j < |stack|
  {
    match HomeOf(home, stack[j].returnTarget)
    case None => true
    case Some(k) => IndexOf(stack, k).Some? && IndexOf(stack, k).value < j
  }

  /** The document agrees with the fixed assignment of elements to surfaces. */
  ghost predicate Agrees(d: Document, entry: Entry, home: Home) {
    forall t: Element {:trigger home(t)} :: t in d.depth && Contains(d, entry.surface, t) <==> home(t) == Some(entry.token)
  }

  /** Following return targets from surface to surface until one lies outside them all. */
  ghost function Origin(stack: seq<Entry>, home: Home, j: nat): Option<Element>
    requires Threaded(stack, home) && j < |stack|
    decreases j
  {
    match HomeOf(home, stack[j].returnTarget)
    case None => stack[j].returnTarget
    case Some(k) =>
      assert ThreadedAt(stack, home, j);
      Origin(stack, home, IndexOf(stack, k).value)
  }

  // ----- opening -----

  /** A modal opens with a target outside all surfaces or inside a modal that is already open. */
  predicate OpensWell(stack: seq<Entry>, home: Home, entry: Entry) {
    && IndexOf(stack, entry.token).None?
    && match HomeOf(home, entry.returnTarget)
       case None => true
       case Some(k) => IndexOf(stack, k).Some?
  }

  lemma {:induction false} IndexPrefix(stack: seq<Entry>, entry: Entry, token: Token)
    ensures IndexOf(stack + [entry], token) ==
            if IndexOf(stack, token).Some? then IndexOf(stack, token)
            else if entry.token == token then Some(|stack|) else None
  {
    if stack != [] {
      assert (stack + [entry])[1..] == stack[1..] + [entry];
      IndexPrefix(stack[1..], entry, token);
    }
  }

  lemma OpenKeepsThreads(stack: seq<Entry>, home: Home, entry: Entry)
    requires Threaded(stack, home) && OpensWell(stack, home, entry)
    ensures Threaded(stack + [entry], home)
  {
    var more := stack + [entry];
    forall j | 0 <= j < |more| ensures ThreadedAt(more, home, j) {
      var k := HomeOf(home, more[j].returnTarget);
      if k.Some? {
        IndexPrefix(stack, entry, k.value);
        if j < |stack| {
          assert ThreadedAt(stack, home, j);
        }
      }
    }
  }

  lemma {:induction false} OpenKeepsOrigins(stack: seq<Entry>, home: Home, entry: Entry, j: nat)
    requires Threaded(stack, home) && OpensWell(stack, home, entry) && j < |stack|
    ensures Threaded(stack + [entry], home) && Origin(stack + [entry], home, j) == Origin(stack, home, j)
    decreases j
  {
    OpenKeepsThreads(stack, home, entry);
    var k := HomeOf(home, stack[j].returnTarget);
    if k.Some? {
      assert ThreadedAt(stack, home, j);
      IndexPrefix(stack, entry, k.value);
      OpenKeepsOrigins(stack, home, entry, IndexOf(stack, k.value).value);
    }
  }

  // ----- closing, in any order -----

  lemma {:induction false} IndexDistinct(stack: seq<Entry>, i: nat)
    requires DistinctTokens(stack) && i < |stack|
    ensures IndexOf(stack, stack[i].token) == Some(i)
  {
  }

  /** After closing, every other modal is where it was, one further down if it was above. */
  lemma IndexClosed(d: Document, stack: seq<Entry>, i: nat, token: Token)
    requires DistinctTokens(stack) && i < |stack| && stack[i].token != token
    ensures DistinctTokens(Closed(d, stack, i))
    ensures IndexOf(Closed(d, stack, i), token) ==
            match IndexOf(stack, token)
            case None => None
            case Some(k) => Some(if k < i then k else (k - 1) as nat)
  {
    var r := Closed(d, stack, i);
    forall a, b | 0 <= a < b < |r| ensures r[a].token != r[b].token {
      assert r[a].token == stack[if a < i then a else a + 1].token;
      assert r[b].token == stack[if b < i then b else b + 1].token;
    }
    if IndexOf(stack, token).Some? {
      var k := IndexOf(stack, token).value;
      IndexDistinct(r, if k < i then k else k - 1);
    } else {
      forall j | 0 <= j < |r| ensures r[j].token != token {
        assert r[j].token == stack[if j < i then j else j + 1].token;
      }
    }
  }

  function NewIndex(i: nat, j: nat): nat
    requires i != j
  {
    if j < i then j else j - 1
  }

  /** Where the return target of a remaining modal lies after the close. */
  lemma ClosedTarget(d: Document, stack: seq<Entry>, home: Home, i: nat, j: nat)
    requires i < |stack| && j < |stack| && i != j && Agrees(d, stack[i], home)
    ensures Closed(d, stack, i)[NewIndex(i, j)].returnTarget ==
            if HomeOf(home, stack[j].returnTarget) == Some(stack[i].token) then stack[i].returnTarget else stack[j].returnTarget
  {
    assert Closed(d, stack, i)[NewIndex(i, j)] == Rethreaded(d, stack[i], stack[j]);
    if stack[j].returnTarget.Some? {
      assert home(stack[j].returnTarget.value) == home(stack[j].returnTarget.value);
    }
  }

  lemma ClosedThreadAt(d: Document, stack: seq<Entry>, home: Home, i: nat, j: nat)
    requires DistinctTokens(stack) && Threaded(stack, home)
    requires i < |stack| && j < |stack| && i != j && Agrees(d, stack[i], home)
    ensures ThreadedAt(Closed(d, stack, i), home, NewIndex(i, j))
  {
    ClosedTarget(d, stack, home, i, j);
    IndexDistinct(stack, i);
    assert ThreadedAt(stack, home, j) && ThreadedAt(stack, home, i);
    var k := HomeOf(home, Closed(d, stack, i)[NewIndex(i, j)].returnTarget);
    if k.Some? {
      IndexClosed(d, stack, i, k.value);
    }
  }

  /** Closing any modal keeps every remaining return target outside all surfaces or inside an earlier open modal. */
  lemma CloseKeepsThreads(d: Document, stack: seq<Entry>, home: Home, i: nat)
    requires DistinctTokens(stack) && Threaded(stack, home) && i < |stack| && Agrees(d, stack[i], home)
    ensures DistinctTokens(Closed(d, stack, i)) && Threaded(Closed(d, stack, i), home)
  {
    var r := Closed(d, stack, i);
    forall n | 0 <= n < |r| ensures ThreadedAt(r, home, n) {
      var j := if n < i then n else n + 1;
      ClosedThreadAt(d, stack, home, i, j);
    }
    forall a, b | 0 <= a < b < |r| ensures r[a].token != r[b].token {
      assert r[a].token == stack[if a < i then a else a + 1].token;
      assert r[b].token == stack[if b < i then b else b + 1].token;
    }
  }

  /** Closing any modal leaves every other modal's origin alone. */
  lemma {:induction false} CloseKeepsOrigins(d: Document, stack: seq<Entry>, home: Home, i: nat, j: nat)
    requires DistinctTokens(stack) && Threaded(stack, home) && i < |stack| && Agrees(d, stack[i], home)
    requires j < |stack| && i != j
    ensures Threaded(Closed(d, stack, i), home)
    ensures Origin(Closed(d, stack, i), home, NewIndex(i, j)) == Origin(stack, home, j)
    decreases j
  {
    CloseKeepsThreads(d, stack, home, i);
    ClosedTarget(d, stack, home, i, j);
    IndexDistinct(stack, i);
    assert ThreadedAt(stack, home, j) && ThreadedAt(stack, home, i);
    var k := HomeOf(home, stack[j].returnTarget);
    if k == Some(stack[i].token) {
      SkippedOrigin(d, stack, home, i, j);
    } else if k.Some? {
      IndexClosed(d, stack, i, k.value);
      CloseKeepsOrigins(d, stack, home, i, IndexOf(stack, k.value).value);
    }
  }

  /** A modal that returned into the closed one now returns where that one would have. */
  lemma SkippedOrigin(d: Document, stack: seq<Entry>, home: Home, i: nat, j: nat)
    requires DistinctTokens(stack) && Threaded(stack, home) && i < j < |stack| && Agrees(d, stack[i], home)
    requires HomeOf(home, stack[j].returnTarget) == Some(stack[i].token)
    ensures Threaded(Closed(d, stack, i), home)
    ensures Origin(Closed(d, stack, i), home, NewIndex(i, j)) == Origin(stack, home, j)
    decreases j, 0
  {
    CloseKeepsThreads(d, stack, home, i);
    ClosedTarget(d, stack, home, i, j);
    IndexDistinct(stack, i);
    assert ThreadedAt(stack, home, i);
    var k := HomeOf(home, stack[i].returnTarget);
    if k.Some? {
      IndexClosed(d, stack, i, k.value);
      CloseKeepsOrigins(d, stack, home, i, IndexOf(stack, k.value).value);
    }
  }

  // ----- whole runs -----

  datatype Event = Opened(entry: Entry) | Closing(d: Document, token: Token)

  ghost predicate Fits(stack: seq<Entry>, home: Home, event: Event) {
    match event
    case Opened(entry) => OpensWell(stack, home, entry)
    case Closing(d, token) => IndexOf(stack, token).Some? && Agrees(d, stack[IndexOf(stack, token).value], home)
  }

  function Step(stack: seq<Entry>, event: Event): seq<Entry> {
    match event
    case Opened(entry) => stack + [entry]
    case Closing(d, token) =>
      if IndexOf(stack, token).Some? then Closed(d, stack, IndexOf(stack, token).value) else stack
  }

  function Run(stack: seq<Entry>, events: seq<Event>): seq<Entry>
    decreases |events|
  {
    if events == [] then stack else Run(Step(stack, events[0]), events[1..])
  }

  ghost predicate FitsAll(stack: seq<Entry>, home: Home, events: seq<Event>)
    decreases |events|
  {
    events == [] || (Fits(stack, home, events[0]) && FitsAll(Step(stack, events[0]), home, events[1..]))
  }

  /** The token neither closes nor is reused during the run. */
  predicate Survives(token: Token, events: seq<Event>) {
    forall i | 0 <= i < |events| :: events[i].Closing? ==> events[i].token != token
  }

  lemma StepKeeps(stack: seq<Entry>, home: Home, event: Event, j: nat)
    requires DistinctTokens(stack) && Threaded(stack, home) && Fits(stack, home, event)
    requires j < |stack| && (event.Closing? ==> event.token != stack[j].token)
    ensures DistinctTokens(Step(stack, event)) && Threaded(Step(stack, event), home)
    ensures var n := IndexOf(Step(stack, event), stack[j].token);
            n.Some? && Origin(Step(stack, event), home, n.value) == Origin(stack, home, j)
  {
    IndexDistinct(stack, j);
    match event
    case Opened(entry) =>
      OpenKeepsThreads(stack, home, entry);
      OpenKeepsOrigins(stack, home, entry, j);
      IndexPrefix(stack, entry, stack[j].token);
    case Closing(d, token) =>
      var i := IndexOf(stack, token).value;
      CloseKeepsThreads(d, stack, home, i);
      CloseKeepsOrigins(d, stack, home, i, j);
      IndexClosed(d, stack, i, stack[j].token);
  }

  /** Over any run of opens and closes, a modal that stays open keeps its origin. */
  lemma {:induction false} RunKeepsOrigin(stack: seq<Entry>, home: Home, events: seq<Event>, j: nat)
    requires DistinctTokens(stack) && Threaded(stack, home) && FitsAll(stack, home, events)
    requires j < |stack| && Survives(stack[j].token, events)
    ensures DistinctTokens(Run(stack, events)) && Threaded(Run(stack, events), home)
    ensures var n := IndexOf(Run(stack, events), stack[j].token);
            n.Some? && Origin(Run(stack, events), home, n.value) == Origin(stack, home, j)
    decreases |events|
  {
    IndexDistinct(stack, j);
    if events != [] {
      StepKeeps(stack, home, events[0], j);
      var next := Step(stack, events[0]);
      var n := IndexOf(next, stack[j].token).value;
      assert Survives(next[n].token, events[1..]) by {
        forall i | 0 <= i < |events[1..]| ensures events[1..][i].Closing? ==> events[1..][i].token != next[n].token {
          assert events[1..][i] == events[i + 1];
        }
      }
      RunKeepsOrigin(next, home, events[1..], n);
    }
  }

  /**
   * When all other modals have closed, in whatever order, the last one returns to the element outside all dialogs
   * from which its chain of openers started.
   */
  lemma LastReturnsToOrigin(stack: seq<Entry>, home: Home, events: seq<Event>, j: nat)
    requires DistinctTokens(stack) && Threaded(stack, home) && FitsAll(stack, home, events)
    requires j < |stack| && Survives(stack[j].token, events) && |Run(stack, events)| == 1
    ensures Run(stack, events)[0].token == stack[j].token
    ensures Run(stack, events)[0].returnTarget == Origin(stack, home, j)
    ensures HomeOf(home, Run(stack, events)[0].returnTarget) == None
  {
    RunKeepsOrigin(stack, home, events, j);
    assert ThreadedAt(Run(stack, events), home, 0);
  }

  // ----- a dialog opened from another one that closes first -----

  const PAGE: Document := Nodes(map[0 := 0, 1 := 1, 2 := 2, 3 := 2, 4 := 3, 5 := 2],
                                map[1 := 0, 2 := 1, 3 := 1, 4 := 3, 5 := 1], {0, 1, 2, 3, 4, 5}, 0, 1)

  /** The button 2 opens the dialog 3, whose button 4 opens the dialog 5; with 3 closed, 5 returns to 2. */
  lemma OpenerCloses(a: Entry, b: Entry)
    requires a.token == 10 && a.surface == 3 && a.returnTarget == Some(2)
    requires b.token == 11 && b.surface == 5 && b.returnTarget == Some(4)
    ensures var home: Home := e => if e == 3 || e == 4 then Some(10) else if e == 5 then Some(11) else None;
            var events := [Opened(a), Opened(b), Closing(PAGE, 10)];
            && FitsAll([], home, events) && Survives(11, events)
            && Run([], events) == [b.(returnTarget := Some(2))]
  {
    var home: Home := e => if e == 3 || e == 4 then Some(10) else if e == 5 then Some(11) else None;
    var closing := Closing(PAGE, 10);
    var both := Step(Step([], Opened(a)), Opened(b));
    assert both == [a, b] && IndexOf(both, 10) == Some(0);
    BelowThree();
    assert Fits(both, home, closing) by {
      forall t: Element ensures t in PAGE.depth && Contains(PAGE, 3, t) <==> home(t) == Some(10) {
        assert t in PAGE.depth ==> t <= 5;
      }
    }
    var events := [Opened(a), Opened(b), closing];
    assert events[1..] == [Opened(b), closing] && events[1..][1..] == [closing] && [closing][1..] == [];
    assert FitsAll(both, home, [closing]);
    assert FitsAll([a], home, events[1..]) && Step([], Opened(a)) == [a];
    assert Step(both, closing) == [b.(returnTarget := Some(2))];
    assert Run(both, [closing]) == [b.(returnTarget := Some(2))];
    assert Run([a], events[1..]) == Run(both, [closing]);
  }

  lemma BelowThree()
    ensures Contains(PAGE, 3, 3) && Contains(PAGE, 3, 4)
    ensures !Contains(PAGE, 3, 0) && !Contains(PAGE, 3, 1) && !Contains(PAGE, 3, 2) && !Contains(PAGE, 3, 5)
  {
    assert !Contains(PAGE, 3, 0) && !Contains(PAGE, 3, 1);
  }
}
