/** Completed activations: which two builds a route keeps. */
module ShellActivation {
  import opened Wrappers
  import opened CacheNames
  import opened ShellLifecycle
  import opened ShellLimits

  /** The caches of the origin and one route's registry. */
  datatype Shells = Shells(caches: map<string, Cache>, registry: Option<Registry>)
  {
    predicate Complete(name: string) {
      name in caches && caches[name].Complete?
    }
  }

  function FirstComplete(s: Shells, names: seq<string>): (r: Option<string>)
    ensures match r
            case Some(n) => n in names && s.Complete(n)
            case None => forall n | n in names :: !s.Complete(n)
  {
    if names == [] then None
    else if s.Complete(names[0]) then Some(names[0])
    else
      assert names == [names[0]] + names[1..];
      FirstComplete(s, names[1..])
  }

  lemma {:induction false} FirstOfConcat(s: Shells, a: seq<string>, b: seq<string>)
    ensures FirstComplete(s, a + b) == if FirstComplete(s, a).Some? then FirstComplete(s, a) else FirstComplete(s, b)
  {
    if a == [] {
      assert a + b == b;
    } else {
      assert (a + b)[1..] == a[1..] + b;
      FirstOfConcat(s, a[1..], b);
    }
  }

  /** The suggestion wins over legacy shells, and those over other shells of the route. */
  lemma FirstCandidate(s: Shells, route: string, own: string, names: seq<string>, registry: Option<Registry>)
    ensures var suggested := FirstComplete(s, Suggested(own, names, registry));
            var legacy := FirstComplete(s, NewestFirst(LegacyShells(route, names)));
            FirstComplete(s, Candidates(route, own, names, registry)) ==
            if suggested.Some? then suggested
            else if legacy.Some? then legacy
            else FirstComplete(s, NewestFirst(OtherShells(route, own, names)))
  {
    var suggested, legacy := Suggested(own, names, registry), NewestFirst(LegacyShells(route, names));
    FirstOfConcat(s, suggested + legacy, NewestFirst(OtherShells(route, own, names)));
    FirstOfConcat(s, suggested, legacy);
  }

  /** The result of an activation of `build` whose deletions all succeed. */
  function Activate(s: Shells, route: string, build: string, names: seq<string>): Shells {
    var own := ShellName(route, build);
    var previous := FirstComplete(s, Candidates(route, own, names, s.registry));
    Shells(s.caches - Outdated(route, own, previous, names), Some(Registry(own, previous)))
  }

  // ----- the activation as code -----

  class ShellStore {
    var caches: map<string, Cache>
    var registries: map<string, Registry>

    function Of(route: string): Shells
      reads this
    {
      Shells(caches, if route in registries then Some(registries[route]) else None)
    }

    /** Looking for completion evidence opens the cache, and so creates a missing one. */
    method HasCompletedMarker(name: string) returns (complete: bool)
      modifies this`caches
      ensures complete <==> name in old(caches) && old(caches)[name].Complete?
      ensures caches == if name in old(caches) then old(caches) else old(caches)[name := Partial]
    {
      if name !in caches {
        caches := caches[name := Partial];
      }
      complete := caches[name].Complete?;
    }

    /** The newest complete cache of a list of existing ones. */
    method NewestComplete(route: string, names: seq<string>) returns (r: Option<string>)
      requires forall n | n in names :: n in caches
      modifies this`caches
      ensures caches == old(caches)
      ensures r == FirstComplete(old(Of(route)), NewestFirst(names))
    {
      var index := |names|;
      assert names[index..] == [];
      while index > 0
        invariant index <= |names| && caches == old(caches)
        invariant FirstComplete(old(Of(route)), NewestFirst(names[index..])) == None
      {
        index := index - 1;
        NewestStep(old(Of(route)), names, index);
        var complete := HasCompletedMarker(names[index]);
        if complete {
          return Some(names[index]);
        }
      }
      assert names[0..] == names;
      r := None;
    }

    method CompleteSuggestion(route: string, suggested: seq<string>) returns (r: Option<string>)
      requires |suggested| <= 1 && forall n | n in suggested :: n in caches
      modifies this`caches
      ensures caches == old(caches)
      ensures r == FirstComplete(old(Of(route)), suggested)
    {
      r := None;
      if suggested != [] {
        assert suggested[1..] == [];
        var complete := HasCompletedMarker(suggested[0]);
        r := if complete then Some(suggested[0]) else None;
      }
    }

    method FindPreviousStable(route: string, own: string, names: seq<string>, registry: Option<Registry>)
      returns (r: Option<string>)
      requires forall n | n in names :: n in caches
      modifies this`caches
      ensures caches == old(caches)
      ensures r == FirstComplete(old(Of(route)), Candidates(route, own, names, registry))
    {
      FirstCandidate(Of(route), route, own, names, registry);
      var suggested := Suggested(own, names, registry);
      var legacy, others := LegacyShells(route, names), OtherShells(route, own, names);
      r := CompleteSuggestion(route, suggested);
      if r.Some? {
        return;
      }
      r := NewestComplete(route, legacy);
      if r.None? {
        r := NewestComplete(route, others);
      }
    }

    method ActivateShell(route: string, build: string, names: seq<string>)
      requires forall n | n in names :: n in caches
      modifies this
      ensures Of(route) == Activate(old(Of(route)), route, build, names)
      ensures forall r | r != route :: (r in registries <==> r in old(registries)) && (r in registries ==> registries[r] == old(registries)[r])
    {
      var own := ShellName(route, build);
      var registry := if route in registries then Some(registries[route]) else None;
      var previous := FindPreviousStable(route, own, names, registry);
      registries := registries[route := Registry(own, previous)];
      DeleteAll(Outdated(route, own, previous, names));
    }

    method DeleteAll(names: set<string>)
      modifies this`caches
      ensures caches == old(caches) - names
    {
      var remaining := names;
      ghost var done: set<string> := {};
      while remaining != {}
        invariant remaining + done == names && caches == old(caches) - done
        decreases remaining
      {
        var name :| name in remaining;
        caches, remaining, done := caches - {name}, remaining - {name}, done + {name};
      }
      assert done == names;
    }
  }

  lemma NewestStep(s: Shells, names: seq<string>, index: nat)
    requires index < |names|
    ensures names[index] in names
    ensures FirstComplete(s, NewestFirst(names[index + 1..])) == None ==>
              FirstComplete(s, NewestFirst(names[index..])) == (if s.Complete(names[index]) then Some(names[index]) else None) &&
              (s.Complete(names[index]) ==> FirstComplete(s, NewestFirst(names)) == Some(names[index]))
  {
    assert names[index..][0] == names[index] && names[index..][1..] == names[index + 1..];
    FirstOfConcat(s, NewestFirst(names[index + 1..]), [names[index]]);
    NewestFirstSplit(names, index);
    FirstOfConcat(s, NewestFirst(names[index..]), NewestFirst(names[..index]));
  }

  lemma {:induction false} NewestFirstSplit(names: seq<string>, k: nat)
    requires k <= |names|
    ensures NewestFirst(names) == NewestFirst(names[k..]) + NewestFirst(names[..k])
    decreases k
  {
    if k == 0 {
      assert names[0..] == names && names[..0] == [];
    } else {
      assert names[1..][k - 1..] == names[k..] && names[..k][1..] == names[1..][..k - 1];
      NewestFirstSplit(names[1..], k - 1);
    }
  }

  // ----- which builds remain -----

  /** What crash safety gives at the start of an activation: the registry's caches are there and complete. */
  predicate Ready(s: Shells, route: string, build: string, names: seq<string>) {
    && s.Complete(ShellName(route, build))
    && (forall n | n in names :: n in s.caches) && (forall n | n in s.caches :: n in names)
    && (s.registry.Some? ==>
          s.Complete(s.registry.value.current) &&
          (s.registry.value.previous.Some? ==>
             s.registry.value.previous.value != s.registry.value.current && s.Complete(s.registry.value.previous.value)))
  }

  /** Another build becomes the previous one; re-activating the current build keeps its previous one. */
  lemma ActivatedRegistry(s: Shells, route: string, build: string, names: seq<string>)
    requires Ready(s, route, build, names)
    ensures var own, r := ShellName(route, build), Activate(s, route, build, names).registry;
            && r.Some? && r.value.current == own && r.value.previous != Some(own)
            && (r.value.previous.Some? ==> s.Complete(r.value.previous.value))
            && (s.registry.Some? && s.registry.value.current != own ==> r.value.previous == Some(s.registry.value.current))
            && (s.registry.Some? && s.registry.value.current == own && s.registry.value.previous.Some? ==>
                  r.value == s.registry.value)
  {
    var own := ShellName(route, build);
    FirstCandidate(s, route, own, names, s.registry);
    ShellsNotLegacy(route, build);
  }

  /** Activating the previous build swaps the pair. */
  lemma ActivatePreviousSwaps(s: Shells, route: string, build: string, names: seq<string>)
    requires Ready(s, route, build, names) && s.registry.Some?
    requires s.registry.value.previous == Some(ShellName(route, build))
    ensures Activate(s, route, build, names).registry ==
            Some(Registry(s.registry.value.previous.value, Some(s.registry.value.current)))
  {
    ActivatedRegistry(s, route, build, names);
  }

  /** Of the route's shells exactly the current and the previous one remain; nothing else is touched. */
  lemma ActivatedCaches(s: Shells, route: string, build: string, names: seq<string>, n: string)
    requires Ready(s, route, build, names)
    ensures var t := Activate(s, route, build, names);
            && (n in t.caches ==> n in s.caches && t.caches[n] == s.caches[n])
            && (IsOwned(n) && IsRouteShell(route, n) ==>
                  (n in t.caches <==> n == t.registry.value.current || t.registry.value.previous == Some(n)))
            && (!(IsOwned(n) && IsRouteShell(route, n)) ==> (n in t.caches <==> n in s.caches))
  {
    ActivatedRegistry(s, route, build, names);
  }

  /** The last build of a history that differs from a given one. */
  function LastOther(builds: seq<string>, build: string): Option<string> {
    if builds == [] then None
    else if builds[|builds| - 1] != build then Some(builds[|builds| - 1])
    else LastOther(builds[..|builds| - 1], build)
  }

  /** A run of completed activations; between two of them the registry and its caches stay as they are. */
  predicate Activations(route: string, starts: seq<Shells>, builds: seq<string>, names: seq<seq<string>>) {
    && |starts| == |builds| == |names| && builds != [] && starts[0].registry == None
    && (forall i | 0 <= i < |starts| :: Ready(starts[i], route, builds[i], names[i]))
    && forall i | 0 < i < |starts| ::
         starts[i].registry == Activate(starts[i - 1], route, builds[i - 1], names[i - 1]).registry
  }

  /** Some other complete shell of the route is there. */
  ghost predicate OtherShell(s: Shells, route: string, build: string, names: seq<string>) {
    exists n | n in names :: n != ShellName(route, build) && IsRouteShell(route, n) && s.Complete(n)
  }

  lemma OthersAreCandidates(route: string, build: string, names: seq<string>, registry: Option<Registry>, n: string)
    requires registry == None || registry.value == Registry(ShellName(route, build), None)
    ensures n in Candidates(route, ShellName(route, build), names, registry) <==>
            n in names && n != ShellName(route, build) && IsRouteShell(route, n)
  {
    var own := ShellName(route, build);
    ShellsNotLegacy(route, build);
    if n in names && n != own && IsRouteShell(route, n) {
      if StartsWith(n, ShellPrefix(route)) {
        assert n in OtherShells(route, own, names) && n in NewestFirst(OtherShells(route, own, names));
      } else {
        assert n in LegacyShells(route, names) && n in NewestFirst(LegacyShells(route, names));
      }
    }
    if n in Candidates(route, own, names, registry) && n !in NewestFirst(LegacyShells(route, names)) {
      assert n in NewestFirst(OtherShells(route, own, names));
    }
  }

  /**
   * As long as the registry knows no other build, an activation names a previous one exactly when some other complete
   * shell of the route is there, although no other build was active before.
   */
  lemma FirstActivationPrevious(s: Shells, route: string, build: string, names: seq<string>)
    requires Ready(s, route, build, names)
    requires s.registry == None || s.registry.value == Registry(ShellName(route, build), None)
    ensures Activate(s, route, build, names).registry.value.previous.Some? <==> OtherShell(s, route, build, names)
  {
    forall n
      ensures n in Candidates(route, ShellName(route, build), names, s.registry) <==>
              n in names && n != ShellName(route, build) && IsRouteShell(route, n)
    {
      OthersAreCandidates(route, build, names, s.registry, n);
    }
  }

  ghost predicate OtherShellBy(route: string, starts: seq<Shells>, builds: seq<string>, names: seq<seq<string>>, n: nat)
    requires n < |starts| == |builds| == |names|
  {
    exists m | 0 <= m <= n :: OtherShell(starts[m], route, builds[m], names[m])
  }

  /** While one build has been active only, the registry has a previous one exactly if another complete shell was there. */
  lemma {:induction false} OneBuildPrevious(route: string, starts: seq<Shells>, builds: seq<string>, names: seq<seq<string>>, n: nat)
    requires Activations(route, starts, builds, names) && n < |builds| && forall m | 0 <= m <= n :: builds[m] == builds[n]
    ensures var r := Activate(starts[n], route, builds[n], names[n]).registry.value;
            && r.current == ShellName(route, builds[n])
            && (r.previous.Some? <==> OtherShellBy(route, starts, builds, names, n))
  {
    ActivatedRegistry(starts[n], route, builds[n], names[n]);
    if n == 0 {
      FirstActivationPrevious(starts[0], route, builds[0], names[0]);
      assert OtherShell(starts[0], route, builds[0], names[0]) ==> OtherShellBy(route, starts, builds, names, 0);
    } else {
      OneBuildPrevious(route, starts, builds, names, n - 1);
      assert starts[n].registry == Activate(starts[n - 1], route, builds[n - 1], names[n - 1]).registry;
      OtherShellStep(route, starts, builds, names, n);
      if starts[n].registry.value.previous.None? {
        FirstActivationPrevious(starts[n], route, builds[n], names[n]);
      }
    }
  }

  lemma OtherShellStep(route: string, starts: seq<Shells>, builds: seq<string>, names: seq<seq<string>>, n: nat)
    requires 0 < n < |starts| == |builds| == |names|
    ensures OtherShellBy(route, starts, builds, names, n) <==>
            OtherShellBy(route, starts, builds, names, n - 1) || OtherShell(starts[n], route, builds[n], names[n])
  {
    if OtherShellBy(route, starts, builds, names, n - 1) {
      var m :| 0 <= m <= n - 1 && OtherShell(starts[m], route, builds[m], names[m]);
      assert 0 <= m <= n;
    }
  }

  lemma {:induction false} NoOther(builds: seq<string>, build: string)
    ensures LastOther(builds, build).None? <==> forall i | 0 <= i < |builds| :: builds[i] == build
  {
    if builds != [] {
      NoOther(builds[..|builds| - 1], build);
      assert builds == builds[..|builds| - 1] + [builds[|builds| - 1]];
    }
  }

  lemma {:induction false} LastDifferent(route: string, starts: seq<Shells>, builds: seq<string>, names: seq<seq<string>>, n: nat)
    requires Activations(route, starts, builds, names) && n < |builds|
    ensures var r := Activate(starts[n], route, builds[n], names[n]).registry.value;
            && r.current == ShellName(route, builds[n])
            && (LastOther(builds[..n + 1], builds[n]).Some? ==>
                  r.previous == Some(ShellName(route, LastOther(builds[..n + 1], builds[n]).value)))
  {
    ActivatedRegistry(starts[n], route, builds[n], names[n]);
    assert builds[..n + 1][..n] == builds[..n];
    if n > 0 {
      LastDifferent(route, starts, builds, names, n - 1);
      OwnShells(route, builds[n], builds[n - 1]);
      assert starts[n].registry == Activate(starts[n - 1], route, builds[n - 1], names[n - 1]).registry;
      assert builds[..n][|builds[..n]| - 1] == builds[n - 1];
      if builds[n] == builds[n - 1] {
        assert LastOther(builds[..n + 1], builds[n]) == LastOther(builds[..n], builds[n - 1]);
      }
    }
  }

  /**
   * After any run of activations the registry names the last build, and as the previous one the last build before it
   * that differs; while there is none, it names one exactly if another complete shell of the route was there at some
   * activation.
   */
  lemma KeepsLastTwo(route: string, starts: seq<Shells>, builds: seq<string>, names: seq<seq<string>>, n: nat)
    requires Activations(route, starts, builds, names) && n < |builds|
    ensures var r := Activate(starts[n], route, builds[n], names[n]).registry.value;
            && r.current == ShellName(route, builds[n])
            && match LastOther(builds[..n + 1], builds[n])
               case Some(other) => r.previous == Some(ShellName(route, other))
               case None => r.previous.Some? <==> OtherShellBy(route, starts, builds, names, n)
  {
    LastDifferent(route, starts, builds, names, n);
    if LastOther(builds[..n + 1], builds[n]).None? {
      NoOther(builds[..n + 1], builds[n]);
      forall m | 0 <= m <= n ensures builds[m] == builds[n] {
        assert builds[..n + 1][m] == builds[m];
      }
      OneBuildPrevious(route, starts, builds, names, n);
    }
  }

  /** A build that was installed but never active can so become the previous one. */
  lemma LeftoverBecomesPrevious(route: string, a: string, b: string)
    requires IsToken(route) && a != b
    ensures var own, leftover := ShellName(route, a), ShellName(route, b);
            Activate(Shells(map[own := Complete, leftover := Complete], None), route, a, [own, leftover]).registry ==
            Some(Registry(own, Some(leftover)))
  {
    var own, leftover := ShellName(route, a), ShellName(route, b);
    OwnShells(route, a, b);
    TwoCandidates(route, a, b, own, leftover);
    var s := Shells(map[own := Complete, leftover := Complete], None);
    assert s.Complete(leftover) && FirstComplete(s, [leftover]) == Some(leftover);
  }
}
