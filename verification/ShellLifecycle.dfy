/** Installs and activations of many workers, step by step, with failure or death at every step. */
module ShellLifecycle {
  import opened Wrappers
  import opened CacheNames

  /** A cache without or with completion evidence: the worker's marker, or the index page in a legacy shell. */
  datatype Cache = Partial | Complete

  /** What a route's metadata cache says. */
  datatype Registry = Registry(current: string, previous: Option<string>)

  /** An install of a build; `attached` says that its cache handle still belongs to a cache in the store. */
  datatype Install =
    | Checking(build: string)
    | Removing(build: string)
    | Opening(build: string)
    | Filling(build: string, attached: bool)
    | Cleaning(build: string)

  /** An activation, with the cache names it listed at its start. */
  datatype Activation =
    | Listed(build: string, names: seq<string>)
    | Choosing(build: string, names: seq<string>, todo: seq<string>)
    | Publishing(build: string, names: seq<string>, previous: Option<string>)
    | Deleting(remaining: set<string>)

  /** The origin's caches and registries, and at most one install and one activation in progress per route. */
  datatype State = State(caches: map<string, Cache>, registries: map<string, Registry>,
                         installs: map<string, Install>, activations: map<string, Activation>)

  const EMPTY: State := State(map[], map[], map[], map[])

  datatype Event =
    | StartInstall(route: string, build: string)
    | StepInstall(route: string)
    | FailInstall(route: string)
    | EndInstall(route: string)
    | StartActivation(route: string, build: string, names: seq<string>)
    | StepActivation(route: string)
    | DeleteOne(route: string, name: string)
    | EndActivation(route: string)
    | Touch(name: string)

  function Has(s: State, name: string, cache: Cache): bool {
    name in s.caches && s.caches[name] == cache
  }

  function WithCache(s: State, name: string, cache: Cache): State {
    s.(caches := s.caches[name := cache])
  }

  /** Opening a cache creates it when it is not there. */
  function Opened(s: State, name: string): State {
    if name in s.caches then s else WithCache(s, name, Partial)
  }

  function Detach(s: State, name: string, route: string, install: Install): Install {
    if install.Filling? && ShellName(route, install.build) == name then install.(attached := false) else install
  }

  /** Deleting a cache detaches an install that is filling it. */
  function Removed(s: State, name: string): State {
    s.(caches := s.caches - {name},
       installs := map r | r in s.installs :: Detach(s, name, r, s.installs[r]))
  }

  function WithInstall(s: State, route: string, install: Install): State {
    s.(installs := s.installs[route := install])
  }

  function WithoutInstall(s: State, route: string): State {
    s.(installs := s.installs - {route})
  }

  function WithActivation(s: State, route: string, activation: Activation): State {
    s.(activations := s.activations[route := activation])
  }

  function WithoutActivation(s: State, route: string): State {
    s.(activations := s.activations - {route})
  }

  // ----- the caches an activation considers as its predecessor -----

  function NewestFirst(names: seq<string>): (r: seq<string>)
    ensures forall n :: n in r <==> n in names
  {
    if names == [] then []
    else
      assert names == [names[0]] + names[1..];
      NewestFirst(names[1..]) + [names[0]]
  }

  /** What the registry suggests: its current build, or its previous one when the current is this build itself. */
  function Suggested(own: string, names: seq<string>, registry: Option<Registry>): seq<string> {
    match registry
    case None => []
    case Some(Registry(current, previous)) =>
      if current != own then (if current in names then [current] else [])
      else if previous.Some? && previous.value in names then [previous.value]
      else []
  }

  function LegacyShells(route: string, names: seq<string>): seq<string> {
    Filter(names, n => route == "root" && IsLegacyShell(n))
  }

  function OtherShells(route: string, own: string, names: seq<string>): seq<string> {
    Filter(names, n => n != own && StartsWith(n, ShellPrefix(route)))
  }

  /** In order: the registry's suggestion, legacy shells, other shells of the route; newest first. */
  function Candidates(route: string, own: string, names: seq<string>, registry: Option<Registry>): seq<string> {
    Suggested(own, names, registry)
    + NewestFirst(LegacyShells(route, names))
    + NewestFirst(OtherShells(route, own, names))
  }

  /** What is deleted after publishing: the route's shells that are neither current nor previous. */
  function Outdated(route: string, own: string, previous: Option<string>, names: seq<string>): set<string> {
    set n | n in names && IsOwned(n) && IsRouteShell(route, n) && n != own && previous != Some(n)
  }

  function RegistryOf(s: State, route: string): Option<Registry> {
    if route in s.registries then Some(s.registries[route]) else None
  }

  // ----- steps -----

  /** Nothing makes sure that an activation finds the cache of its own build. */
  predicate Enabled(s: State, e: Event) {
    match e
    case StartInstall(route, build) => IsToken(route) && route !in s.installs
    case StepInstall(route) => route in s.installs
    case FailInstall(route) => route in s.installs && (s.installs[route].Opening? || s.installs[route].Filling?)
    case EndInstall(route) => route in s.installs
    case StartActivation(route, build, names) =>
      && IsToken(route) && route !in s.activations
      && (forall n | n in names :: n in s.caches) && (forall n | n in s.caches :: n in names)
    case StepActivation(route) => route in s.activations && !s.activations[route].Deleting?
    case DeleteOne(route, name) =>
      route in s.activations && s.activations[route].Deleting? && name in s.activations[route].remaining
    case EndActivation(route) => route in s.activations
    case Touch(name) => true
  }

  function InstallStep(s: State, route: string): State
    requires route in s.installs
  {
    var own := ShellName(route, s.installs[route].build);
    match s.installs[route]
    case Checking(build) =>
      if own !in s.caches then WithInstall(s, route, Opening(build))
      else if s.caches[own].Complete? then WithoutInstall(s, route)
      else WithInstall(s, route, Removing(build))
    case Removing(build) => WithInstall(Removed(s, own), route, Opening(build))
    case Opening(build) => WithInstall(Opened(s, own), route, Filling(build, true))
    case Filling(build, attached) =>
      WithoutInstall(if attached && own in s.caches then WithCache(s, own, Complete) else s, route)
    case Cleaning(build) => WithoutInstall(Removed(s, own), route)
  }

  function ActivationStep(s: State, route: string): State
    requires route in s.activations && !s.activations[route].Deleting?
  {
    var own := ShellName(route, s.activations[route].build);
    match s.activations[route]
    case Listed(build, names) =>
      WithActivation(s, route, Choosing(build, names, Candidates(route, own, names, RegistryOf(s, route))))
    case Choosing(build, names, todo) =>
      if todo == [] then WithActivation(s, route, Publishing(build, names, None))
      else if Has(s, todo[0], Complete) then WithActivation(s, route, Publishing(build, names, Some(todo[0])))
      else WithActivation(Opened(s, todo[0]), route, Choosing(build, names, todo[1..]))
    case Publishing(build, names, previous) =>
      WithActivation(s.(registries := s.registries[route := Registry(own, previous)]), route,
                     Deleting(Outdated(route, own, previous, names)))
  }

  function Apply(s: State, e: Event): State
    requires Enabled(s, e)
  {
    match e
    case StartInstall(route, build) => WithInstall(s, route, Checking(build))
    case StepInstall(route) => InstallStep(s, route)
    case FailInstall(route) => WithInstall(s, route, Cleaning(s.installs[route].build))
    case EndInstall(route) => WithoutInstall(s, route)
    case StartActivation(route, build, names) => WithActivation(s, route, Listed(build, names))
    case StepActivation(route) => ActivationStep(s, route)
    case DeleteOne(route, name) =>
      WithActivation(Removed(s, name), route, Deleting(s.activations[route].remaining - {name}))
    case EndActivation(route) => WithoutActivation(s, route)
    case Touch(name) => Opened(s, name)
  }

  // ----- the invariant -----

  predicate Usable(s: State, route: string, name: string) {
    Has(s, name, Complete) && IsRouteShell(route, name)
  }

  /** The registry names two different existing caches with completion evidence. */
  predicate RegistryOk(s: State, route: string) {
    route in s.registries ==>
      var r := s.registries[route];
      Usable(s, route, r.current) &&
      (r.previous.Some? ==> r.previous.value != r.current && Usable(s, route, r.previous.value))
  }

  /** An install that is past its check works on a cache without completion evidence. */
  predicate InstallOk(s: State, route: string) {
    route in s.installs && !s.installs[route].Checking? ==> !Has(s, ShellName(route, s.installs[route].build), Complete)
  }

  predicate ActivationOk(s: State, route: string) {
    route in s.activations ==>
      match s.activations[route]
      case Listed(build, names) => true
      case Choosing(build, names, todo) =>
        forall n | n in todo :: n != ShellName(route, build) && IsRouteShell(route, n)
      case Publishing(build, names, previous) =>
        previous.Some? ==> previous.value != ShellName(route, build) && Usable(s, route, previous.value)
      case Deleting(remaining) =>
        forall n | n in remaining ::
          IsRouteShell(route, n) && (route in s.registries ==>
            n != s.registries[route].current && s.registries[route].previous != Some(n))
  }

  predicate Tokens(s: State) {
    && (forall r | r in s.registries :: IsToken(r))
    && (forall r | r in s.installs :: IsToken(r))
    && (forall r | r in s.activations :: IsToken(r))
  }

  ghost predicate Inv(s: State) {
    Tokens(s) && forall r: string :: RegistryOk(s, r) && InstallOk(s, r) && ActivationOk(s, r)
  }

  /** A name belongs to one route at most. */
  lemma OneRoute(r: string, q: string, name: string)
    requires IsToken(r) && IsToken(q) && IsRouteShell(r, name) && IsRouteShell(q, name)
    ensures r == q
  {
    if StartsWith(name, ShellPrefix(r)) {
      ShellOf(r, name);
      RoutesApart(q, r, name[|ShellPrefix(r)|..]);
    } else if StartsWith(name, ShellPrefix(q)) {
      ShellOf(q, name);
      RoutesApart(r, q, name[|ShellPrefix(q)|..]);
    }
  }

  lemma ShellOf(r: string, name: string)
    requires StartsWith(name, ShellPrefix(r))
    ensures name == ShellName(r, name[|ShellPrefix(r)|..])
  {
  }

  // ----- what keeps the invariant -----

  /** No completion evidence is lost. */
  ghost predicate Grows(s: State, t: State) {
    forall n {:trigger Has(t, n, Complete)} :: Has(s, n, Complete) ==> Has(t, n, Complete)
  }

  predicate SameEntry<V(==)>(a: map<string, V>, b: map<string, V>, r: string) {
    (r in a <==> r in b) && (r in a ==> a[r] == b[r])
  }

  lemma RegistryGrows(s: State, t: State, r: string)
    requires RegistryOk(s, r) && Grows(s, t) && SameEntry(s.registries, t.registries, r)
    ensures RegistryOk(t, r)
  {
    if r in t.registries {
      assert Has(t, s.registries[r].current, Complete);
      if s.registries[r].previous.Some? {
        assert Has(t, s.registries[r].previous.value, Complete);
      }
    }
  }

  lemma ActivationGrows(s: State, t: State, r: string)
    requires ActivationOk(s, r) && Grows(s, t)
    requires SameEntry(s.activations, t.activations, r) && SameEntry(s.registries, t.registries, r)
    ensures ActivationOk(t, r)
  {
    if r in t.activations && t.activations[r].Publishing? && t.activations[r].previous.Some? {
      assert Has(t, t.activations[r].previous.value, Complete);
    }
  }

  /** The install works on the same build's cache, which gained no evidence. */
  lemma InstallStays(s: State, t: State, r: string)
    requires InstallOk(s, r) && r in s.installs && r in t.installs
    requires t.installs[r].Checking? <==> s.installs[r].Checking?
    requires t.installs[r].build == s.installs[r].build
    requires var own := ShellName(r, s.installs[r].build); Has(t, own, Complete) ==> Has(s, own, Complete)
    ensures InstallOk(t, r)
  {
  }

  /** Between two states that differ in one route's entries only, all other routes keep their part of the invariant. */
  lemma OthersKeep(s: State, t: State, q: string, r: string)
    requires RegistryOk(s, r) && InstallOk(s, r) && ActivationOk(s, r) && Grows(s, t) && r != q
    requires SameEntry(s.registries, t.registries, r) && SameEntry(s.activations, t.activations, r)
    requires r in s.installs <==> r in t.installs
    requires r in s.installs ==>
               && (t.installs[r].Checking? <==> s.installs[r].Checking?) && t.installs[r].build == s.installs[r].build
               && (Has(t, ShellName(r, s.installs[r].build), Complete) ==> Has(s, ShellName(r, s.installs[r].build), Complete))
    ensures RegistryOk(t, r) && InstallOk(t, r) && ActivationOk(t, r)
  {
    RegistryGrows(s, t, r);
    ActivationGrows(s, t, r);
    if r in s.installs {
      InstallStays(s, t, r);
    }
  }

  lemma OtherBuild(r: string, q: string, b: string, c: string)
    requires IsToken(r) && IsToken(q) && r != q
    ensures ShellName(r, b) != ShellName(q, c)
  {
    OwnShells(r, b, b);
    RoutesApart(r, q, c);
  }

  lemma InstallGrows(s: State, q: string)
    requires Inv(s) && q in s.installs
    ensures Grows(s, InstallStep(s, q))
  {
    assert InstallOk(s, q);
  }

  lemma InstallStepOthers(s: State, q: string, r: string)
    requires Inv(s) && q in s.installs && r != q
    ensures var t := InstallStep(s, q); RegistryOk(t, r) && InstallOk(t, r) && ActivationOk(t, r)
  {
    assert RegistryOk(s, r) && InstallOk(s, r) && ActivationOk(s, r);
    InstallGrows(s, q);
    if r in s.installs {
      OtherBuild(r, q, s.installs[r].build, s.installs[q].build);
    }
    OthersKeep(s, InstallStep(s, q), q, r);
  }

  lemma InstallStepKeeps(s: State, q: string)
    requires Inv(s) && q in s.installs
    ensures Inv(InstallStep(s, q))
  {
    var t := InstallStep(s, q);
    InstallGrows(s, q);
    forall r: string ensures RegistryOk(t, r) && InstallOk(t, r) && ActivationOk(t, r) {
      assert RegistryOk(s, r) && InstallOk(s, r) && ActivationOk(s, r);
      if r != q {
        InstallStepOthers(s, q, r);
      } else {
        RegistryGrows(s, t, r);
        ActivationGrows(s, t, r);
      }
    }
  }

  lemma CandidatesOk(s: State, route: string, build: string, names: seq<string>)
    requires RegistryOk(s, route)
    ensures forall n | n in Candidates(route, ShellName(route, build), names, RegistryOf(s, route)) ::
              n != ShellName(route, build) && IsRouteShell(route, n)
  {
    ShellsNotLegacy(route, build);
    var own := ShellName(route, build);
    forall n | n in Candidates(route, own, names, RegistryOf(s, route)) ensures n != own && IsRouteShell(route, n) {
      if n in Suggested(own, names, RegistryOf(s, route)) {
      } else if n in NewestFirst(LegacyShells(route, names)) {
      } else {
        assert n in NewestFirst(OtherShells(route, own, names));
      }
    }
  }

  lemma ListedKeeps(s: State, q: string)
    requires Inv(s) && q in s.activations && s.activations[q].Listed?
    ensures Inv(ActivationStep(s, q))
  {
    var t := ActivationStep(s, q);
    assert RegistryOk(s, q) && ActivationOk(s, q);
    CandidatesOk(s, q, s.activations[q].build, s.activations[q].names);
    forall r: string ensures RegistryOk(t, r) && InstallOk(t, r) && ActivationOk(t, r) {
      assert RegistryOk(s, r) && InstallOk(s, r) && ActivationOk(s, r);
    }
  }

  lemma ChoosingKeeps(s: State, q: string)
    requires Inv(s) && q in s.activations && s.activations[q].Choosing?
    ensures Inv(ActivationStep(s, q))
  {
    var t := ActivationStep(s, q);
    assert ActivationOk(s, q);
    var todo := s.activations[q].todo;
    assert Grows(s, t);
    if todo != [] {
      assert todo[0] in todo && forall n | n in todo[1..] :: n in todo;
    }
    forall r: string ensures RegistryOk(t, r) && InstallOk(t, r) && ActivationOk(t, r) {
      assert RegistryOk(s, r) && InstallOk(s, r) && ActivationOk(s, r);
      if r != q {
        OthersKeep(s, t, q, r);
      } else {
        RegistryGrows(s, t, r);
        if r in s.installs {
          InstallStays(s, t, r);
        }
      }
    }
  }

  /** Publishing names the worker's own cache, whatever is in it. */
  predicate PublishesComplete(s: State, e: Event) {
    e.StepActivation? && e.route in s.activations && s.activations[e.route].Publishing? ==>
      Has(s, ShellName(e.route, s.activations[e.route].build), Complete)
  }

  lemma PublishingKeeps(s: State, q: string)
    requires Inv(s) && q in s.activations && s.activations[q].Publishing?
    requires Has(s, ShellName(q, s.activations[q].build), Complete)
    ensures Inv(ActivationStep(s, q))
  {
    var t := ActivationStep(s, q);
    OwnShells(q, s.activations[q].build, s.activations[q].build);
    assert ActivationOk(s, q);
    forall r: string ensures RegistryOk(t, r) && InstallOk(t, r) && ActivationOk(t, r) {
      assert RegistryOk(s, r) && InstallOk(s, r) && ActivationOk(s, r);
    }
  }

  /** A route's own deletions never hit a cache that some registry or activation needs. */
  lemma DeletionSpares(s: State, q: string, name: string, r: string, needed: string)
    requires Inv(s) && IsToken(q) && IsToken(r) && r != q
    requires IsRouteShell(q, name) && IsRouteShell(r, needed)
    ensures needed != name
  {
    if needed == name {
      OneRoute(q, r, name);
    }
  }

  lemma DeleteKeepsRegistry(s: State, q: string, name: string, r: string)
    requires Inv(s) && Enabled(s, DeleteOne(q, name))
    ensures RegistryOk(Apply(s, DeleteOne(q, name)), r)
  {
    var t := Apply(s, DeleteOne(q, name));
    assert RegistryOk(s, r) && ActivationOk(s, q);
    if r in s.registries {
      var reg := s.registries[r];
      if r != q {
        DeletionSpares(s, q, name, r, reg.current);
        if reg.previous.Some? {
          DeletionSpares(s, q, name, r, reg.previous.value);
        }
      }
      assert Has(t, reg.current, Complete);
    }
  }

  lemma DeleteKeepsActivation(s: State, q: string, name: string, r: string)
    requires Inv(s) && Enabled(s, DeleteOne(q, name))
    ensures ActivationOk(Apply(s, DeleteOne(q, name)), r)
  {
    var t := Apply(s, DeleteOne(q, name));
    assert ActivationOk(s, r) && ActivationOk(s, q);
    if r in s.activations && r != q && !s.activations[r].Deleting? {
      if s.activations[r].Publishing? && s.activations[r].previous.Some? {
        DeletionSpares(s, q, name, r, s.activations[r].previous.value);
      }
    }
  }

  lemma DeleteKeeps(s: State, q: string, name: string)
    requires Inv(s) && Enabled(s, DeleteOne(q, name))
    ensures Inv(Apply(s, DeleteOne(q, name)))
  {
    var t := Apply(s, DeleteOne(q, name));
    forall r: string ensures RegistryOk(t, r) && InstallOk(t, r) && ActivationOk(t, r) {
      assert InstallOk(s, r);
      DeleteKeepsRegistry(s, q, name, r);
      DeleteKeepsActivation(s, q, name, r);
    }
  }

  lemma TouchKeeps(s: State, name: string)
    requires Inv(s)
    ensures Inv(Opened(s, name))
  {
    var t := Opened(s, name);
    assert Grows(s, t);
    forall r: string ensures RegistryOk(t, r) && InstallOk(t, r) && ActivationOk(t, r) {
      assert RegistryOk(s, r) && InstallOk(s, r) && ActivationOk(s, r);
      RegistryGrows(s, t, r);
      ActivationGrows(s, t, r);
    }
  }

  /** Starting, failing and dying change no cache and no registry. */
  lemma BookkeepingKeeps(s: State, e: Event)
    requires Inv(s) && Enabled(s, e)
    requires e.StartInstall? || e.FailInstall? || e.EndInstall? || e.StartActivation? || e.EndActivation?
    ensures Inv(Apply(s, e))
  {
    var t := Apply(s, e);
    forall r: string ensures RegistryOk(t, r) && InstallOk(t, r) && ActivationOk(t, r) {
      assert RegistryOk(s, r) && InstallOk(s, r) && ActivationOk(s, r);
    }
  }

  lemma StepActivationKeeps(s: State, q: string)
    requires Inv(s) && Enabled(s, StepActivation(q)) && PublishesComplete(s, StepActivation(q))
    ensures Inv(ActivationStep(s, q))
  {
    match s.activations[q]
    case Listed(_, _) => ListedKeeps(s, q);
    case Choosing(_, _, _) => ChoosingKeeps(s, q);
    case Publishing(_, _, _) => PublishingKeeps(s, q);
  }

  /** A step that publishes only what is complete keeps the invariant. */
  lemma StepKeeps(s: State, e: Event)
    requires Inv(s) && Enabled(s, e) && PublishesComplete(s, e)
    ensures Inv(Apply(s, e))
  {
    match e
    case StepInstall(route) => InstallStepKeeps(s, route);
    case StepActivation(route) => StepActivationKeeps(s, route);
    case DeleteOne(route, name) => DeleteKeeps(s, route, name);
    case Touch(name) => TouchKeeps(s, name);
    case _ => BookkeepingKeeps(s, e);
  }

  /** A step that publishes an incomplete cache leaves a registry that names no complete shell. */
  lemma IncompletePublished(s: State, e: Event)
    requires Enabled(s, e) && !PublishesComplete(s, e)
    ensures !RegistryOk(Apply(s, e), e.route)
  {
  }

  // ----- runs -----

  function Run(s: State, events: seq<Event>): Option<State>
    decreases |events|
  {
    if events == [] then Some(s)
    else if Enabled(s, events[0]) then Run(Apply(s, events[0]), events[1..])
    else None
  }

  ghost predicate RegistriesOk(s: State) {
    forall r: string :: RegistryOk(s, r)
  }

  /** At every point of a run, every registry names two different existing caches with completion evidence. */
  ghost predicate AlwaysOk(s: State, events: seq<Event>)
    requires Run(s, events).Some?
    decreases |events|
  {
    RegistriesOk(s) && (events != [] ==> AlwaysOk(Apply(s, events[0]), events[1..]))
  }

  /** Whenever a step of the run publishes, the publishing worker's own cache is complete. */
  predicate AlwaysPublishesComplete(s: State, events: seq<Event>)
    requires Run(s, events).Some?
    decreases |events|
  {
    events != [] ==> PublishesComplete(s, events[0]) && AlwaysPublishesComplete(Apply(s, events[0]), events[1..])
  }

  /**
   * Over any run of installs and activations on any routes, with failures and deaths anywhere, the registries are in
   * order at every point if and only if every publication finds the publishing worker's own cache complete.
   */
  lemma {:induction false} RegistryOkIffCompletePublished(s: State, events: seq<Event>)
    requires Inv(s) && Run(s, events).Some?
    ensures AlwaysOk(s, events) <==> AlwaysPublishesComplete(s, events)
    decreases |events|
  {
    if events != [] {
      var t := Apply(s, events[0]);
      if PublishesComplete(s, events[0]) {
        StepKeeps(s, events[0]);
        RegistryOkIffCompletePublished(t, events[1..]);
      } else {
        IncompletePublished(s, events[0]);
        assert !RegistriesOk(t);
      }
    }
  }

  // ----- activations that start on a complete cache -----

  /** Activations that have not published yet have the complete cache of their own build. */
  ghost predicate OwnReady(s: State) {
    forall r {:trigger r in s.activations} | r in s.activations && !s.activations[r].Deleting? ::
      Has(s, ShellName(r, s.activations[r].build), Complete)
  }

  predicate StartsComplete(s: State, e: Event) {
    e.StartActivation? ==> Has(s, ShellName(e.route, e.build), Complete)
  }

  predicate AlwaysStartsComplete(s: State, events: seq<Event>)
    requires Run(s, events).Some?
    decreases |events|
  {
    events != [] ==> StartsComplete(s, events[0]) && AlwaysStartsComplete(Apply(s, events[0]), events[1..])
  }

  lemma OwnGrows(s: State, t: State)
    requires OwnReady(s) && Grows(s, t)
    requires forall r | r in t.activations && !t.activations[r].Deleting? ::
               r in s.activations && !s.activations[r].Deleting? && t.activations[r].build == s.activations[r].build
    ensures OwnReady(t)
  {
    forall r | r in t.activations && !t.activations[r].Deleting?
      ensures Has(t, ShellName(r, t.activations[r].build), Complete)
    {
      assert Has(s, ShellName(r, s.activations[r].build), Complete);
    }
  }

  lemma DeleteKeepsOwn(s: State, q: string, name: string)
    requires Inv(s) && OwnReady(s) && Enabled(s, DeleteOne(q, name))
    ensures OwnReady(Apply(s, DeleteOne(q, name)))
  {
    var t := Apply(s, DeleteOne(q, name));
    assert ActivationOk(s, q);
    forall r | r in t.activations && !t.activations[r].Deleting?
      ensures Has(t, ShellName(r, t.activations[r].build), Complete)
    {
      var own := ShellName(r, s.activations[r].build);
      OwnShells(r, s.activations[r].build, s.activations[r].build);
      DeletionSpares(s, q, name, r, own);
      assert Has(s, own, Complete);
    }
  }

  lemma StartKeepsOwn(s: State, e: Event)
    requires OwnReady(s) && Enabled(s, e) && e.StartActivation? && StartsComplete(s, e)
    ensures OwnReady(Apply(s, e))
  {
    var t := Apply(s, e);
    forall r | r in t.activations && !t.activations[r].Deleting?
      ensures Has(t, ShellName(r, t.activations[r].build), Complete)
    {
      if r != e.route {
        assert Has(s, ShellName(r, s.activations[r].build), Complete);
      }
    }
  }

  lemma QuietGrows(s: State, e: Event)
    requires Enabled(s, e) && (e.StartInstall? || e.FailInstall? || e.EndInstall? || e.EndActivation? || e.Touch? || e.StepActivation?)
    ensures Grows(s, Apply(s, e))
  {
  }

  lemma OwnKept(s: State, e: Event)
    requires Inv(s) && OwnReady(s) && Enabled(s, e) && StartsComplete(s, e)
    ensures OwnReady(Apply(s, e)) && PublishesComplete(s, e)
  {
    match e
    case StartActivation(_, _, _) => StartKeepsOwn(s, e);
    case DeleteOne(route, name) => DeleteKeepsOwn(s, route, name);
    case StepInstall(route) =>
      InstallGrows(s, route);
      OwnGrows(s, Apply(s, e));
    case _ =>
      QuietGrows(s, e);
      OwnGrows(s, Apply(s, e));
  }

  lemma {:induction false} ReadyRun(s: State, events: seq<Event>)
    requires Inv(s) && OwnReady(s) && Run(s, events).Some? && AlwaysStartsComplete(s, events)
    ensures AlwaysPublishesComplete(s, events)
    decreases |events|
  {
    if events != [] {
      OwnKept(s, events[0]);
      StepKeeps(s, events[0]);
      ReadyRun(Apply(s, events[0]), events[1..]);
    }
  }

  lemma EmptyInv()
    ensures Inv(EMPTY) && OwnReady(EMPTY)
  {
    forall r: string ensures RegistryOk(EMPTY, r) && InstallOk(EMPTY, r) && ActivationOk(EMPTY, r) {
    }
  }

  /** If every activation starts on a complete cache of its own build, the registries are in order throughout any run. */
  lemma RegistryCrashSafe(events: seq<Event>)
    requires Run(EMPTY, events).Some? && AlwaysStartsComplete(EMPTY, events)
    ensures AlwaysOk(EMPTY, events)
  {
    EmptyInv();
    ReadyRun(EMPTY, events);
    RegistryOkIffCompletePublished(EMPTY, events);
  }
}
