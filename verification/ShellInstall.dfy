/** Filling, marking and serving shell caches. */
module ShellInstall {
  import opened Wrappers
  import opened CacheNames
  import opened ShellLifecycle
  import opened Precache

  /** The whole fixed shell and exactly the reachable assets, as the deployment served them. */
  ghost predicate Installed(site: Site, cache: map<Url, string>) {
    && site.index in cache
    && (forall u | u in site.shell :: u in cache && site.fetch(u) == Some(cache[u]))
    && (forall u | Reachable(site, cache[site.index], u) :: u in cache && site.fetch(u) == Some(cache[u]))
    && forall u | u in cache :: u in site.shell || Reachable(site, cache[site.index], u)
  }

  /** A response that is not served, or that storage does not take. */
  predicate Unstorable(site: Site, u: Url) {
    site.fetch(u).None? || !site.accepts(u)
  }

  /** Why filling a cache can fail: something it needs is not served or not stored, or there are too many assets. */
  ghost predicate CannotFill(site: Site) {
    || (exists u | u in site.shell :: Unstorable(site, u))
    || (site.fetch(site.index).Some? &&
        (ManyReachable(site, site.fetch(site.index).value) ||
         exists u :: Reachable(site, site.fetch(site.index).value, u) && Unstorable(site, u)))
  }

  /** cache.addAll: every response or none. */
  method AddAll(site: Site) returns (r: Option<map<Url, string>>)
    ensures match r
            case Some(cache) => cache.Keys == site.shell && forall u | u in site.shell :: site.fetch(u) == Some(cache[u])
            case None => exists u | u in site.shell :: site.fetch(u).None? || !site.accepts(u)
  {
    var cache: map<Url, string> := map[];
    var todo := site.shell;
    while todo != {}
      invariant todo <= site.shell && cache.Keys == site.shell - todo
      invariant forall u | u in cache :: site.fetch(u) == Some(cache[u])
      decreases todo
    {
      var u :| u in todo;
      if site.fetch(u).None? || !site.accepts(u) {
        return None;
      }
      cache, todo := cache[u := site.fetch(u).value], todo - {u};
    }
    r := Some(cache);
  }

  lemma ShellNotReachable(site: Site, body: string, u: Url)
    requires Reachable(site, body, u)
    ensures u !in site.shell
  {
    var p :| IsChain(site, body, p) && p[|p| - 1] == u;
    assert site.Counts(p[|p| - 1]);
  }

  lemma CompleteInstalled(site: Site, shell: map<Url, string>, cache: map<Url, string>)
    requires site.index in site.shell && shell.Keys == site.shell
    requires forall u | u in site.shell :: site.fetch(u) == Some(shell[u])
    requires FilledIn(site, shell[site.index], shell, cache)
    ensures Installed(site, cache) && cache[site.index] == shell[site.index]
  {
    var body := shell[site.index];
    forall u | u in site.shell ensures !Reachable(site, body, u) {
      if Reachable(site, body, u) {
        ShellNotReachable(site, body, u);
      }
    }
  }

  /** Fills a cache that has just been opened; what it holds in the end depends on how far that went. */
  method Fill(site: Site) returns (ok: bool, cache: map<Url, string>)
    requires site.index in site.shell
    ensures ok ==> Installed(site, cache) && FollowsNested(site, cache[site.index], site.shell, cache)
    ensures !ok ==> CannotFill(site)
  {
    var shell := AddAll(site);
    if shell.None? {
      return false, map[];
    }
    var result, filled, fetches := PrecacheDiscovered(site, shell.value);
    assert site.fetch(site.index) == Some(shell.value[site.index]);
    cache, ok := filled, result.Ok?;
    if ok {
      CompleteInstalled(site, shell.value, cache);
    }
  }

  /** What storage does with the other steps of an install: deleting a stale cache, opening, marking, cleaning up. */
  datatype Storage = Storage(deletes: bool, opens: bool, marks: bool, cleans: bool)

  type Contents = map<string, map<Url, string>>

  ghost predicate AllInstalled(marked: set<string>, source: map<string, Site>, contents: Contents) {
    forall n | n in marked :: n in contents && n in source && Installed(source[n], contents[n])
  }

  lemma MarkOne(marked: set<string>, source: map<string, Site>, contents: Contents, own: string, site: Site)
    requires AllInstalled(marked, source, contents) && own in contents && Installed(site, contents[own])
    ensures AllInstalled(marked + {own}, source[own := site], contents)
  {
  }

  lemma UnmarkedChanges(marked: set<string>, source: map<string, Site>, contents: Contents, own: string, contents': Contents)
    requires AllInstalled(marked, source, contents) && own !in marked && contents' - {own} == contents - {own}
    ensures AllInstalled(marked, source, contents')
  {
    forall n | n in marked ensures n in contents' && contents'[n] == contents[n] {
      assert n in contents - {own};
      assert (contents' - {own})[n] == (contents - {own})[n];
    }
  }

  class ShellCaches {
    var contents: Contents
    /** The names whose cache carries a marker of its own. */
    var marked: set<string>
    /** The deployment each marked cache was installed from. */
    ghost var source: map<string, Site>

    constructor ()
      ensures Valid() && contents == map[] && marked == {}
    {
      contents, marked, source := map[], {}, map[];
    }

    /** A marked cache holds its whole shell and every asset reachable from its index. */
    ghost predicate Valid()
      reads this
    {
      AllInstalled(marked, source, contents)
    }

    /** Reuses a marked cache, replaces an unmarked one, and leaves nothing marked behind when it fails. */
    method InstallShell(own: string, site: Site, storage: Storage) returns (ok: bool)
      requires Valid() && site.index in site.shell
      modifies this
      ensures Valid()
      ensures own in old(marked) ==> ok && contents == old(contents) && marked == old(marked)
      ensures own !in old(marked) && ok ==>
                && marked == old(marked) + {own} && own in contents && Installed(site, contents[own])
                && FollowsNested(site, contents[own][site.index], site.shell, contents[own])
                && storage.opens && storage.marks && (own in old(contents) ==> storage.deletes)
      ensures own !in old(marked) && !ok ==>
                && marked == old(marked)
                && ((own in old(contents) && !storage.deletes) || !storage.opens || !storage.marks || CannotFill(site))
                && (if own in old(contents) && !storage.deletes then contents == old(contents)
                    else own in contents <==> storage.opens && !storage.cleans)
      ensures contents - {own} == old(contents) - {own}
    {
      if own in contents && own in marked {
        return true;
      }
      if own in contents {
        if !storage.deletes {
          return false;
        }
        Change(own, contents - {own});
      }
      if !storage.opens {
        return false;
      }
      var filled, cache := Fill(site);
      Change(own, contents[own := cache]);
      ok := filled && storage.marks;
      if ok {
        MarkOne(marked, source, contents, own, site);
        marked, source := marked + {own}, source[own := site];
      } else if storage.cleans {
        Change(own, contents - {own});
      }
    }

    /** Replaces or deletes an unmarked cache. */
    method Change(own: string, next: Contents)
      requires Valid() && own !in marked && next - {own} == contents - {own}
      modifies this`contents
      ensures Valid() && contents == next
    {
      UnmarkedChanges(marked, source, contents, own, next);
      contents := next;
    }

    /** A cache of that name holds the response. */
    predicate Serves(name: string, url: Url)
      reads this
    {
      name in contents && url in contents[name]
    }

    /** The first cache of the order that has the response, and whether that is not the worker's own. */
    method MatchShell(own: string, registry: Option<Registry>, route: string, url: Url) returns (response: Option<string>, stableFallback: bool)
      ensures response.Some? <==>
                || Serves(own, url)
                || (registry.Some? && IsRouteShell(route, registry.value.current) && Serves(registry.value.current, url))
                || (registry.Some? && registry.value.previous.Some? && IsRouteShell(route, registry.value.previous.value)
                    && Serves(registry.value.previous.value, url))
      ensures own in contents && url in contents[own] ==> response == Some(contents[own][url]) && !stableFallback
      ensures !(own in contents && url in contents[own]) && registry.Some? && response.Some? ==>
                && stableFallback
                && var c := registry.value.current;
                   if c != own && IsRouteShell(route, c) && c in contents && url in contents[c] then response == Some(contents[c][url])
                   else registry.value.previous.Some? && registry.value.previous.value in contents &&
                        url in contents[registry.value.previous.value] &&
                        response == Some(contents[registry.value.previous.value][url])
    {
      var order := ShellOrder(route, own, registry);
      assert registry.Some? && registry.value.current != own && IsRouteShell(route, registry.value.current) ==>
          |order| > 1 && order[1] == registry.value.current;
      var index := 0;
      while index < |order|
        invariant index <= |order| && order[0] == own
        invariant index > 0 ==> !(own in contents && url in contents[own])
        invariant forall i | 0 <= i < index :: !(order[i] in contents && url in contents[order[i]])
      {
        if order[index] in contents && url in contents[order[index]] {
          assert order[index] in ShellOrder(route, own, registry);
          return Some(contents[order[index]][url]), order[index] != own;
        }
        index := index + 1;
      }
      return None, false;
    }
  }

  /** Own shell, then the registry's current and previous ones, each once. */
  function ShellOrder(route: string, own: string, registry: Option<Registry>): (r: seq<string>)
    ensures r != [] && r[0] == own
    ensures forall n :: n in r <==>
              || n == own
              || (registry.Some? && n == registry.value.current && IsRouteShell(route, n))
              || (registry.Some? && registry.value.previous == Some(n) && IsRouteShell(route, n))
    ensures registry.Some? && |r| > 2 ==> r[1] == registry.value.current
    ensures forall i, j | 0 <= i < j < |r| :: r[i] != r[j]
  {
    [own] + match registry
            case None => []
            case Some(Registry(current, previous)) =>
              (if current != own && IsRouteShell(route, current) then [current] else []) +
              (if previous.Some? && previous.value != own && previous.value != current && IsRouteShell(route, previous.value)
               then [previous.value] else [])
  }
}
