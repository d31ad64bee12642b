/** What routes cannot do to each other, and what an activation relies on. */
module ShellLimits {
  import opened Wrappers
  import opened CacheNames
  import opened ShellLifecycle

  /** An activation never deletes another route's shells, nor anybody's version or metadata cache. */
  lemma DeletionStaysInRoute(s: State, q: string, name: string, r: string, build: string)
    requires Inv(s) && Enabled(s, DeleteOne(q, name)) && IsToken(r)
    ensures r != q ==> name != ShellName(r, build)
    ensures name != VersionName(r) && name != MetaName(r)
    ensures forall n | n != name :: n in Apply(s, DeleteOne(q, name)).caches <==> n in s.caches
  {
    assert ActivationOk(s, q);
    assert IsRouteShell(q, name);
    RoutesApart(q, r, build);
  }

  /** An install, whatever happens to it, never costs a cache its completion evidence. */
  lemma InstallSparesComplete(s: State, e: Event, name: string)
    requires Inv(s) && Enabled(s, e) && Has(s, name, Complete)
    requires e.StartInstall? || e.StepInstall? || e.FailInstall? || e.EndInstall?
    ensures Has(Apply(s, e), name, Complete)
  {
    if e.StepInstall? {
      assert InstallOk(s, e.route);
    }
  }

  /** An install loses the cache it is filling only when that cache is deleted; otherwise it ends in a complete one. */
  lemma AttachedUnlessDeleted(s: State, e: Event, r: string, build: string)
    requires Enabled(s, e) && r in s.installs && s.installs[r] == Filling(build, true) && ShellName(r, build) in s.caches
    requires forall q | q in s.installs :: IsToken(q)
    requires !(e.StepInstall? && e.route == r) && !(e.FailInstall? && e.route == r) && !(e.EndInstall? && e.route == r)
    requires !(e.StartInstall? && e.route == r) && !(e.DeleteOne? && e.name == ShellName(r, build))
    ensures var t := Apply(s, e);
            && r in t.installs && t.installs[r] == Filling(build, true) && ShellName(r, build) in t.caches
            && Enabled(t, StepInstall(r)) && Has(Apply(t, StepInstall(r)), ShellName(r, build), Complete)
  {
    if e.StepInstall? {
      OtherBuild(r, e.route, build, s.installs[e.route].build);
    }
  }

  // ----- an install can end well and leave no cache -----

  ghost predicate Reaches(s: State, t: State) {
    exists events :: Run(s, events) == Some(t)
  }

  lemma ReachSelf(s: State)
    ensures Reaches(s, s)
  {
    assert Run(s, []) == Some(s);
  }

  lemma {:induction false} RunOn(s: State, events: seq<Event>, t: State, e: Event)
    requires Run(s, events) == Some(t) && Enabled(t, e)
    ensures Run(s, events + [e]) == Some(Apply(t, e))
    decreases |events|
  {
    if events == [] {
      assert Run(Apply(s, e), []) == Some(Apply(s, e));
      assert [e][1..] == [] && [] + [e] == [e];
    } else {
      assert (events + [e])[0] == events[0] && (events + [e])[1..] == events[1..] + [e];
      RunOn(Apply(s, events[0]), events[1..], t, e);
    }
  }

  lemma ReachOn(s: State, t: State, e: Event, u: State)
    requires Reaches(s, t) && Enabled(t, e) && u == Apply(t, e)
    ensures Reaches(s, u)
  {
    var events :| Run(s, events) == Some(t);
    RunOn(s, events, t, e);
  }

  lemma InstallFirst(route: string, a: string, first: string)
    requires IsToken(route) && first == ShellName(route, a)
    ensures Reaches(EMPTY, State(map[first := Complete], map[], map[], map[]))
  {
    ReachSelf(EMPTY);
    var s1 := State(map[], map[], map[route := Checking(a)], map[]);
    ReachOn(EMPTY, EMPTY, StartInstall(route, a), s1);
    var s2 := State(map[], map[], map[route := Opening(a)], map[]);
    ReachOn(EMPTY, s1, StepInstall(route), s2);
    var s3 := State(map[first := Partial], map[], map[route := Filling(a, true)], map[]);
    ReachOn(EMPTY, s2, StepInstall(route), s3);
    ReachOn(EMPTY, s3, StepInstall(route), State(map[first := Complete], map[], map[], map[]));
  }

  lemma InstallSecond(route: string, b: string, first: string, second: string, s0: State)
    requires IsToken(route) && second == ShellName(route, b) && first != second
    requires s0 == State(map[first := Complete], map[], map[], map[]) && Reaches(EMPTY, s0)
    ensures Reaches(EMPTY, State(map[first := Complete, second := Partial], map[], map[route := Filling(b, true)], map[]))
  {
    var s1 := State(map[first := Complete], map[], map[route := Checking(b)], map[]);
    ReachOn(EMPTY, s0, StartInstall(route, b), s1);
    var s2 := State(map[first := Complete], map[], map[route := Opening(b)], map[]);
    ReachOn(EMPTY, s1, StepInstall(route), s2);
    ReachOn(EMPTY, s2, StepInstall(route),
            State(map[first := Complete, second := Partial], map[], map[route := Filling(b, true)], map[]));
  }

  lemma TwoCandidates(route: string, a: string, b: string, first: string, second: string)
    requires IsToken(route) && a != b && first == ShellName(route, a) && second == ShellName(route, b)
    ensures Candidates(route, first, [first, second], None) == [second]
    ensures Outdated(route, first, None, [first, second]) == {second}
  {
    ShellsNotLegacy(route, a);
    ShellsNotLegacy(route, b);
    OwnShells(route, a, b);
    OwnShells(route, b, b);
    var legacy := n => route == "root" && IsLegacyShell(n);
    var others := n => n != first && StartsWith(n, ShellPrefix(route));
    assert [first, second][1..] == [second] && [second][1..] == [];
    assert Filter([second], legacy) == [] && Filter([first, second], legacy) == [];
    assert StartsWith(second, ShellPrefix(route));
    assert Filter([second], others) == [second] && Filter([first, second], others) == [second];
    assert LegacyShells(route, [first, second]) == [] && OtherShells(route, first, [first, second]) == [second];
    assert NewestFirst([second]) == [second];
    assert Outdated(route, first, None, [first, second]) == {second};
  }

  lemma Reactivate(s: State, route: string, a: Activation, b: Activation)
    ensures WithActivation(WithActivation(s, route, a), route, b) == WithActivation(s, route, b)
  {
    assert s.activations[route := a][route := b] == s.activations[route := b];
  }

  lemma ReachListed(s: State, route: string, build: string, names: seq<string>, todo: seq<string>)
    requires Reaches(EMPTY, s) && IsToken(route) && route !in s.activations
    requires (forall n | n in names :: n in s.caches) && (forall n | n in s.caches :: n in names)
    requires Candidates(route, ShellName(route, build), names, RegistryOf(s, route)) == todo
    ensures Reaches(EMPTY, WithActivation(s, route, Choosing(build, names, todo)))
  {
    var t := WithActivation(s, route, Listed(build, names));
    ReachOn(EMPTY, s, StartActivation(route, build, names), t);
    Reactivate(s, route, Listed(build, names), Choosing(build, names, todo));
    ReachOn(EMPTY, t, StepActivation(route), WithActivation(s, route, Choosing(build, names, todo)));
  }

  lemma ReachSkipped(s: State, route: string, build: string, names: seq<string>, name: string)
    requires Reaches(EMPTY, WithActivation(s, route, Choosing(build, names, [name]))) && Has(s, name, Partial)
    ensures Reaches(EMPTY, WithActivation(s, route, Publishing(build, names, None)))
  {
    var t, u := WithActivation(s, route, Choosing(build, names, [name])), WithActivation(s, route, Choosing(build, names, []));
    assert [name][1..] == [];
    Reactivate(s, route, Choosing(build, names, [name]), Choosing(build, names, []));
    ReachOn(EMPTY, t, StepActivation(route), u);
    Reactivate(s, route, Choosing(build, names, []), Publishing(build, names, None));
    ReachOn(EMPTY, u, StepActivation(route), WithActivation(s, route, Publishing(build, names, None)));
  }

  lemma ReachPublished(s: State, route: string, build: string, names: seq<string>, remaining: set<string>)
    requires Reaches(EMPTY, WithActivation(s, route, Publishing(build, names, None)))
    requires Outdated(route, ShellName(route, build), None, names) == remaining
    ensures Reaches(EMPTY, WithActivation(s.(registries := s.registries[route := Registry(ShellName(route, build), None)]),
                                          route, Deleting(remaining)))
  {
    var t := WithActivation(s, route, Publishing(build, names, None));
    var u := WithActivation(s.(registries := s.registries[route := Registry(ShellName(route, build), None)]), route, Deleting(remaining));
    assert t.activations[route := Deleting(remaining)] == u.activations;
    ReachOn(EMPTY, t, StepActivation(route), u);
  }

  lemma ActivateFirst(route: string, a: string, b: string, first: string, second: string, s0: State)
    requires IsToken(route) && a != b && first == ShellName(route, a) && second == ShellName(route, b) && first != second
    requires s0 == State(map[first := Complete, second := Partial], map[], map[route := Filling(b, true)], map[])
    requires Reaches(EMPTY, s0)
    ensures Reaches(EMPTY, WithActivation(s0.(registries := map[][route := Registry(first, None)]), route, Deleting({second})))
  {
    var names := [first, second];
    TwoCandidates(route, a, b, first, second);
    ReachListed(s0, route, a, names, [second]);
    ReachSkipped(s0, route, a, names, second);
    ReachPublished(s0, route, a, names, {second});
  }

  /** The activation deletes the cache that the other build's install is filling; that install then ends well. */
  lemma LoseSecond(route: string, b: string, first: string, second: string, s: State)
    requires first != second && second == ShellName(route, b) && Reaches(EMPTY, s)
    requires s == State(map[first := Complete, second := Partial], map[route := Registry(first, None)],
                        map[route := Filling(b, true)], map[route := Deleting({second})])
    ensures Reaches(EMPTY, State(map[first := Complete], map[route := Registry(first, None)], map[], map[]))
  {
    var one, registry := map[first := Complete], map[route := Registry(first, None)];
    var t := State(one, registry, map[route := Filling(b, false)], map[route := Deleting({})]);
    assert Apply(s, DeleteOne(route, second)) == t by {
      assert map[first := Complete, second := Partial] - {second} == one;
      assert {second} - {second} == {};
    }
    ReachOn(EMPTY, s, DeleteOne(route, second), t);
    var u := State(one, registry, map[], map[route := Deleting({})]);
    ReachOn(EMPTY, t, StepInstall(route), u);
    ReachOn(EMPTY, u, EndActivation(route), State(one, registry, map[], map[]));
  }

  /** For the other build, the active one is both the registry's suggestion and the only other shell. */
  lemma ActiveSuggested(route: string, a: string, b: string, first: string, second: string)
    requires IsToken(route) && a != b && first == ShellName(route, a) && second == ShellName(route, b) && first != second
    ensures Candidates(route, second, [first], Some(Registry(first, None))) == [first, first]
  {
    ShellsNotLegacy(route, a);
    OwnShells(route, a, b);
    var legacy := n => route == "root" && IsLegacyShell(n);
    var others := n => n != second && StartsWith(n, ShellPrefix(route));
    assert [first][1..] == [];
    assert StartsWith(first, ShellPrefix(route));
    assert Filter([first], legacy) == [] && Filter([first], others) == [first];
    assert LegacyShells(route, [first]) == [] && OtherShells(route, second, [first]) == [first];
    assert NewestFirst([first]) == [first];
    assert Suggested(second, [first], Some(Registry(first, None))) == [first];
  }

  lemma ReachChosen(s: State, route: string, build: string, names: seq<string>, name: string)
    requires Reaches(EMPTY, WithActivation(s, route, Choosing(build, names, [name, name]))) && Has(s, name, Complete)
    ensures Reaches(EMPTY, WithActivation(s, route, Publishing(build, names, Some(name))))
  {
    var t, u := WithActivation(s, route, Choosing(build, names, [name, name])), WithActivation(s, route, Publishing(build, names, Some(name)));
    Reactivate(s, route, Choosing(build, names, [name, name]), Publishing(build, names, Some(name)));
    ReachOn(EMPTY, t, StepActivation(route), u);
  }

  /**
   * While one build activates, it deletes the cache that another build's install is filling, and that install still
   * ends well. When the other build then activates, a run of the code publishes a registry whose current shell is gone.
   */
  lemma CompleteCacheNeeded(route: string, a: string, b: string)
    requires IsToken(route) && a != b
    ensures exists s :: Reaches(EMPTY, s) && !RegistryOk(s, route)
                        && route in s.registries && s.registries[route] == Registry(ShellName(route, b), Some(ShellName(route, a)))
                        && ShellName(route, b) !in s.caches
  {
    var first, second := ShellName(route, a), ShellName(route, b);
    OwnShells(route, a, b);
    InstallFirst(route, a, first);
    InstallSecond(route, b, first, second, State(map[first := Complete], map[], map[], map[]));
    var s0 := State(map[first := Complete, second := Partial], map[], map[route := Filling(b, true)], map[]);
    ActivateFirst(route, a, b, first, second, s0);
    var s1 := WithActivation(s0.(registries := map[][route := Registry(first, None)]), route, Deleting({second}));
    assert s1 == State(map[first := Complete, second := Partial], map[route := Registry(first, None)],
                       map[route := Filling(b, true)], map[route := Deleting({second})]);
    LoseSecond(route, b, first, second, s1);
    ActivateSecond(route, a, b, first, second);
  }

  lemma ActivateSecond(route: string, a: string, b: string, first: string, second: string)
    requires IsToken(route) && a != b && first == ShellName(route, a) && second == ShellName(route, b) && first != second
    requires Reaches(EMPTY, State(map[first := Complete], map[route := Registry(first, None)], map[], map[]))
    ensures exists s :: Reaches(EMPTY, s) && !RegistryOk(s, route)
                        && route in s.registries && s.registries[route] == Registry(second, Some(first)) && second !in s.caches
  {
    var s := State(map[first := Complete], map[route := Registry(first, None)], map[], map[]);
    ActiveSuggested(route, a, b, first, second);
    ReachListed(s, route, b, [first], [first, first]);
    ReachChosen(s, route, b, [first], first);
    var t := WithActivation(s, route, Publishing(b, [first], Some(first)));
    var u := Apply(t, StepActivation(route));
    ReachOn(EMPTY, t, StepActivation(route), u);
    assert u.registries[route] == Registry(second, Some(first)) && second !in u.caches;
  }
}
