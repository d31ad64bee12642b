/** Names of the service worker's caches, and which of them belong to a route. */
module CacheNames {

  const NAMESPACE: string := "dsp-idle-pwa-v2"
  const LEGACY_PREFIX: string := "dsp-idle-shell-"
  const TOKEN_LIMIT: nat := 160

  predicate IsTokenChar(c: char) {
    'A' <= c <= 'Z' || 'a' <= c <= 'z' || '0' <= c <= '9' || c == '.' || c == '_' || c == '-'
  }

  /** Route keys and build identifiers contain token characters only; in particular no colon. */
  predicate IsToken(s: string) {
    forall i | 0 <= i < |s| :: IsTokenChar(s[i])
  }

  function SanitizeToken(value: string): (r: string)
    ensures IsToken(r) && 0 < |r| <= TOKEN_LIMIT
    ensures 0 < |value| <= TOKEN_LIMIT && IsToken(value) ==> r == value
    ensures value == "" ==> r == "development"
    ensures value != "" ==>
              && |r| == (if |value| < TOKEN_LIMIT then |value| else TOKEN_LIMIT)
              && forall i | 0 <= i < |r| :: r[i] == if IsTokenChar(value[i]) then value[i] else '_'
  {
    var kept := seq(|value|, i requires 0 <= i < |value| => if IsTokenChar(value[i]) then value[i] else '_');
    var cut := if |kept| > TOKEN_LIMIT then kept[..TOKEN_LIMIT] else kept;
    if cut == "" then "development" else cut
  }

  /** Where a route key comes from: the worker's own parameter, or the base path. */
  datatype RouteOrigin = Explicit(value: string) | RootBase | PreviousBase | CanaryBase(segment: string) | OtherBase(path: string)

  function RouteKey(origin: RouteOrigin): (r: string)
    ensures IsToken(r) && r != ""
  {
    match origin
    case Explicit(value) => SanitizeToken(value)
    case RootBase => "root"
    case PreviousBase => "previous"
    case CanaryBase(segment) => "canary-" + SanitizeToken(segment)
    case OtherBase(path) => "path-" + SanitizeToken(path)
  }

  /** A key that no worker was given by parameter. */
  predicate Derived(origin: RouteOrigin) {
    match origin
    case Explicit(_) => false
    case CanaryBase(segment) => 0 < |segment| <= TOKEN_LIMIT && IsToken(segment)
    case OtherBase(path) => 0 < |path| <= TOKEN_LIMIT && IsToken(path)
    case _ => true
  }

  /**
   * Different base paths have different route keys, and only the root path has the key of the root; an explicit token
   * is the key itself.
   */
  lemma RouteKeysApart(a: RouteOrigin, b: RouteOrigin)
    requires Derived(a) && Derived(b)
    ensures RouteKey(a) == RouteKey(b) <==> a == b
    ensures RouteKey(a) == "root" <==> a == RootBase
    ensures Derived(RootBase) && Derived(PreviousBase) && Derived(CanaryBase("a")) && Derived(OtherBase("a"))
    ensures forall value | 0 < |value| <= TOKEN_LIMIT && IsToken(value) :: RouteKey(Explicit(value)) == value
  {
    KeyForm(a);
    KeyForm(b);
  }

  /** The key shows the kind of base path it comes from, and the path or segment after that. */
  lemma KeyForm(a: RouteOrigin)
    requires Derived(a)
    ensures match a
            case RootBase => RouteKey(a) == "root"
            case PreviousBase => RouteKey(a) == "previous"
            case CanaryBase(segment) =>
              |RouteKey(a)| > 7 && RouteKey(a)[0] == 'c' && RouteKey(a)[..7] == "canary-" && RouteKey(a)[7..] == segment
            case OtherBase(path) =>
              |RouteKey(a)| > 5 && RouteKey(a)[1] == 'a' && RouteKey(a)[0] == 'p' && RouteKey(a)[..5] == "path-" && RouteKey(a)[5..] == path
            case _ => true
  {
  }

  function ShellPrefix(route: string): string {
    NAMESPACE + "::shell::" + route + "::"
  }

  function ShellName(route: string, build: string): string {
    ShellPrefix(route) + build
  }

  function VersionName(route: string): string {
    NAMESPACE + "::version::" + route
  }

  function MetaName(route: string): string {
    NAMESPACE + "::meta::" + route
  }

  predicate StartsWith(s: string, prefix: string) {
    prefix <= s
  }

  predicate IsLegacyShell(name: string) {
    StartsWith(name, LEGACY_PREFIX) &&
    var rest := name[|LEGACY_PREFIX|..];
    StartsWith(rest, "development") || (rest != "" && '0' <= rest[0] <= '9')
  }

  predicate IsOwned(name: string) {
    StartsWith(name, NAMESPACE + "::") || IsLegacyShell(name)
  }

  predicate IsRouteShell(route: string, name: string) {
    StartsWith(name, ShellPrefix(route)) || (route == "root" && IsLegacyShell(name))
  }

  // ----- routes are apart -----

  lemma PrefixOfConcat(p: string, a: string, b: string)
    ensures p + a <= p + b <==> a <= b
  {
    assert (p + a)[|p|..] == a && (p + b)[|p|..] == b;
    if p + a <= p + b {
      assert (p + b)[..|p + a|] == p + a;
      assert b[..|a|] == (p + b)[|p|..][..|a|] == (p + b)[..|p + a|][|p|..];
    }
  }

  /** Token keys ended by a colon are prefixes of each other only when they are equal. */
  lemma EndedKeys(r: string, q: string, rest: string)
    requires IsToken(r) && IsToken(q) && r + "::" <= q + "::" + rest
    ensures r == q
  {
    var s := q + "::" + rest;
    var a := r + "::";
    assert forall i | 0 <= i < |q| :: s[i] == q[i] && IsTokenChar(s[i]);
    assert forall i | 0 <= i < |r| :: a[i] == r[i] && IsTokenChar(a[i]);
    assert forall i | 0 <= i < |a| :: s[i] == a[i];
    assert a[|r|] == ':' && s[|q|] == ':';
    assert |r| == |q|;
  }

  /** No shell cache of one route starts with another route's shell prefix. */
  lemma ShellsApart(r: string, q: string, build: string)
    requires IsToken(r) && IsToken(q)
    ensures StartsWith(ShellName(q, build), ShellPrefix(r)) <==> r == q
  {
    var p := NAMESPACE + "::shell::";
    assert ShellPrefix(r) == p + (r + "::");
    assert ShellName(q, build) == p + (q + "::" + build);
    PrefixOfConcat(p, r + "::", q + "::" + build);
    if StartsWith(ShellName(q, build), ShellPrefix(r)) {
      EndedKeys(r, q, build);
    }
  }

  lemma DiffersAt(a: string, b: string, i: nat)
    requires i < |a| && i < |b| && a[i] != b[i]
    ensures !(a <= b)
  {
  }

  /** Version and metadata caches are no shells, and legacy shells are no namespaced caches. */
  lemma KindsApart(r: string, q: string)
    ensures !StartsWith(VersionName(q), ShellPrefix(r)) && !StartsWith(MetaName(q), ShellPrefix(r))
    ensures !IsLegacyShell(VersionName(q)) && !IsLegacyShell(MetaName(q))
  {
    var i := |NAMESPACE| + 2;
    assert ShellPrefix(r)[i] == 's';
    assert VersionName(q)[i] == 'v' && MetaName(q)[i] == 'm';
    DiffersAt(ShellPrefix(r), VersionName(q), i);
    DiffersAt(ShellPrefix(r), MetaName(q), i);
    assert LEGACY_PREFIX[9] == 's' && VersionName(q)[9] == 'p' && MetaName(q)[9] == 'p';
    DiffersAt(LEGACY_PREFIX, VersionName(q), 9);
    DiffersAt(LEGACY_PREFIX, MetaName(q), 9);
  }

  lemma ShellsNotLegacy(q: string, build: string)
    ensures !IsLegacyShell(ShellName(q, build))
  {
    assert LEGACY_PREFIX[9] == 's' && ShellName(q, build)[9] == 'p';
    DiffersAt(LEGACY_PREFIX, ShellName(q, build), 9);
  }

  /** What a worker of one route may delete never includes another route's shell, version or metadata cache. */
  lemma RoutesApart(r: string, q: string, build: string)
    requires IsToken(r) && IsToken(q)
    ensures IsRouteShell(r, ShellName(q, build)) <==> r == q
    ensures !IsRouteShell(r, VersionName(q)) && !IsRouteShell(r, MetaName(q))
  {
    ShellsApart(r, q, build);
    ShellsNotLegacy(q, build);
    KindsApart(r, q);
  }

  /** A route's own shells are told apart by their builds, and are owned. */
  lemma OwnShells(r: string, b: string, c: string)
    ensures ShellName(r, b) == ShellName(r, c) <==> b == c
    ensures IsRouteShell(r, ShellName(r, b)) && IsOwned(ShellName(r, b))
  {
    assert ShellName(r, b)[|ShellPrefix(r)|..] == b && ShellName(r, c)[|ShellPrefix(r)|..] == c;
    var p := NAMESPACE + "::";
    assert ShellName(r, b) == p + ("shell::" + r + "::" + b);
    assert p <= p + ("shell::" + r + "::" + b);
    assert ShellPrefix(r) <= ShellPrefix(r) + b;
  }

  // ----- names by example -----

  /** The names a worker uses. */
  lemma NamesByExample()
    ensures ShellName("root", "7") == "dsp-idle-pwa-v2::shell::root::7"
    ensures VersionName("root") == "dsp-idle-pwa-v2::version::root" && MetaName("root") == "dsp-idle-pwa-v2::meta::root"
  {
  }

  /** Where token characters begin and end. */
  lemma TokensByExample()
    ensures IsToken("AZaz09._-") && !IsToken("@") && !IsToken("[") && !IsToken("`") && !IsToken("{") && !IsToken("/") && !IsToken(":")
  {
    assert !IsTokenChar("@"[0]) && !IsTokenChar("["[0]) && !IsTokenChar("`"[0]);
    assert !IsTokenChar("{"[0]) && !IsTokenChar("/"[0]) && !IsTokenChar(":"[0]);
  }

  /** Old caches that count as shells of the root. */
  lemma LegacyByExample()
    ensures IsLegacyShell("dsp-idle-shell-development") && IsLegacyShell("dsp-idle-shell-0") && IsLegacyShell("dsp-idle-shell-9")
    ensures !IsLegacyShell("dsp-idle-shell-x") && !IsLegacyShell("dsp-idle-shell-") && IsOwned("dsp-idle-shell-0")
    ensures !IsOwned("dsp-idle-shell-x") && !IsOwned("dsp-idle-pwa-v2:")
  {
    var legacy := "dsp-idle-shell-";
    assert "dsp-idle-shell-development"[|legacy|..] == "development" && "dsp-idle-shell-0"[|legacy|..] == "0";
    assert "dsp-idle-shell-9"[|legacy|..] == "9" && "dsp-idle-shell-x"[|legacy|..] == "x" && "dsp-idle-shell-"[|legacy|..] == "";
  }

  /** Only the root takes legacy shells for its own, and only caches of the namespace are owned besides them. */
  lemma LegacyOfRoot(route: string, name: string)
    requires IsLegacyShell(name)
    ensures IsRouteShell("root", name) && (IsRouteShell(route, name) ==> route == "root")
    ensures IsOwned(name) && IsOwned(NAMESPACE + "::" + route)
  {
    assert ShellPrefix(route)[9] == 'p' && LEGACY_PREFIX[9] == 's' && name[9] == LEGACY_PREFIX[9];
  }
}
