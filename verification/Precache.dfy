/** Installing the assets that the shell's index refers to, directly or through other assets. */
module Precache {
  import opened Wrappers

  type Url = string

  const MAX_DISCOVERED: nat := 512

  /**
   * The deployment and the browser's storage during one install: what a fetch yields, whether the response can be
   * stored, and which references a body contains.
   */
  datatype Site = Site(fetch: Url -> Option<string>, accepts: Url -> bool, discover: (string, Url) -> seq<Url>,
                       nests: Url -> bool, index: Url, shell: set<Url>)
  {
    /** The references followed from a fetched asset: those of html, js and css bodies. */
    function Refs(u: Url): seq<Url> {
      if nests(u) && fetch(u).Some? then discover(fetch(u).value, u) else []
    }

    predicate Counts(u: Url) {
      u != "" && u !in shell
    }
  }

  datatype Failure = MissingIndex | TooManyAssets | Unavailable(url: Url) | Rejected(url: Url)

  /** A chain of references from the index body, through assets outside the fixed shell. */
  ghost predicate IsChain(site: Site, body: string, p: seq<Url>) {
    && p != [] && p[0] in site.discover(body, site.index)
    && (forall i | 0 <= i < |p| :: site.Counts(p[i]))
    && forall i | 0 <= i < |p| - 1 :: p[i + 1] in site.Refs(p[i])
  }

  ghost predicate Reachable(site: Site, body: string, u: Url) {
    exists p :: IsChain(site, body, p) && p[|p| - 1] == u
  }

  lemma ReachableStart(site: Site, body: string, u: Url)
    requires u in site.discover(body, site.index) && site.Counts(u)
    ensures Reachable(site, body, u)
  {
    assert IsChain(site, body, [u]) && [u][|[u]| - 1] == u;
  }

  lemma ReachableNext(site: Site, body: string, u: Url, v: Url)
    requires Reachable(site, body, u) && v in site.Refs(u) && site.Counts(v)
    ensures Reachable(site, body, v)
  {
    var p :| IsChain(site, body, p) && p[|p| - 1] == u;
    var q := p + [v];
    assert IsChain(site, body, q) && q[|q| - 1] == v;
  }

  /** What has been found so far is visited or still queued. */
  ghost predicate Found(site: Site, refs: seq<Url>, visited: set<Url>, queue: seq<Url>) {
    forall u | u in refs && site.Counts(u) :: u in visited || u in queue
  }

  /** Everything fetched so far has had its references found. */
  ghost predicate Explored(site: Site, body: string, visited: set<Url>, queue: seq<Url>) {
    && Found(site, site.discover(body, site.index), visited, queue)
    && forall v | v in visited && v !in site.shell :: Found(site, site.Refs(v), visited, queue)
  }

  /** Nothing but reachable assets is visited or queued. */
  ghost predicate OnlyReachable(site: Site, body: string, visited: set<Url>, queue: seq<Url>) {
    && (forall v | v in visited && v !in site.shell :: v != "" && Reachable(site, body, v))
    && forall u | u in queue && site.Counts(u) :: Reachable(site, body, u)
  }

  /** The cache holds the fetched body of every visited asset, on top of what it held before. */
  ghost predicate Holds(site: Site, before: map<Url, string>, cache: map<Url, string>, visited: set<Url>) {
    && cache.Keys == before.Keys + (visited - site.shell)
    && forall u | u in cache ::
         if u in visited - site.shell then site.fetch(u) == Some(cache[u]) else cache[u] == before[u]
  }

  lemma {:induction false} ExploredHoldsAll(site: Site, body: string, visited: set<Url>, p: seq<Url>, i: nat)
    requires Explored(site, body, visited, []) && IsChain(site, body, p) && i < |p|
    ensures p[i] in visited
  {
    assert site.Counts(p[i]);
    if i > 0 {
      ExploredHoldsAll(site, body, visited, p, i - 1);
      assert site.Counts(p[i - 1]);
      assert p[i - 1 + 1] in site.Refs(p[i - 1]);
      assert Found(site, site.Refs(p[i - 1]), visited, []);
    }
  }

  lemma AllVisited(site: Site, body: string, visited: set<Url>)
    requires Explored(site, body, visited, [])
    ensures forall u | Reachable(site, body, u) :: u in visited && u !in site.shell
  {
    forall u | Reachable(site, body, u) ensures u in visited && u !in site.shell {
      var p :| IsChain(site, body, p) && p[|p| - 1] == u;
      assert site.Counts(p[|p| - 1]);
      ExploredHoldsAll(site, body, visited, p, |p| - 1);
    }
  }

  lemma PopKnown(site: Site, body: string, visited: set<Url>, queue: seq<Url>)
    requires queue != [] && Explored(site, body, visited, queue) && OnlyReachable(site, body, visited, queue)
    requires !site.Counts(queue[0]) || queue[0] in visited
    ensures Explored(site, body, visited, queue[1..]) && OnlyReachable(site, body, visited, queue[1..])
  {
    assert queue == [queue[0]] + queue[1..];
  }

  /** Visiting the first queued asset and queueing its references. */
  lemma PopNew(site: Site, body: string, visited: set<Url>, queue: seq<Url>, added: seq<Url>)
    requires queue != [] && Explored(site, body, visited, queue) && OnlyReachable(site, body, visited, queue)
    requires site.shell <= visited && queue[0] != "" && queue[0] !in visited
    requires forall u | u in added :: u in site.Refs(queue[0])
    requires forall u | u in site.Refs(queue[0]) && u !in added :: u in visited + {queue[0]}
    ensures Explored(site, body, visited + {queue[0]}, queue[1..] + added)
    ensures OnlyReachable(site, body, visited + {queue[0]}, queue[1..] + added)
  {
    var u, v, q := queue[0], visited + {queue[0]}, queue[1..] + added;
    assert queue == [u] + queue[1..] && site.Counts(u);
    forall refs: seq<Url> | Found(site, refs, visited, queue) ensures Found(site, refs, v, q) {
    }
    forall w | w in added && site.Counts(w) ensures Reachable(site, body, w) {
      ReachableNext(site, body, u, w);
    }
  }

  /** The references of a fetched body that are not visited yet, in order. */
  function Fresh(refs: seq<Url>, visited: set<Url>): (r: seq<Url>)
    ensures forall u :: u in r <==> u in refs && u !in visited
  {
    if refs == [] then []
    else
      assert refs == [refs[0]] + refs[1..];
      (if refs[0] in visited then [] else [refs[0]]) + Fresh(refs[1..], visited)
  }

  ghost predicate ManyReachable(site: Site, body: string) {
    exists s: set<Url> :: AllReachable(site, body, s) && |s + site.shell| > MAX_DISCOVERED
  }

  ghost predicate AllReachable(site: Site, body: string, s: set<Url>) {
    forall u | u in s :: Reachable(site, body, u) && u !in site.shell
  }

  /** The worklist invariant: explored, nothing unreachable, and one fetch per visited asset. */
  ghost predicate Working(site: Site, body: string, before: map<Url, string>, visited: set<Url>, queue: seq<Url>,
                          cache: map<Url, string>, fetches: nat)
  {
    && site.shell <= visited && |visited| == |site.shell| + fetches
    && (fetches == 0 || |visited| <= MAX_DISCOVERED + 1)
    && Explored(site, body, visited, queue) && OnlyReachable(site, body, visited, queue)
    && Holds(site, before, cache, visited)
  }

  lemma StartWorking(site: Site, body: string, before: map<Url, string>)
    ensures Working(site, body, before, site.shell, site.discover(body, site.index), before, 0)
  {
    var queue := site.discover(body, site.index);
    forall u | u in queue && site.Counts(u) ensures Reachable(site, body, u) {
      ReachableStart(site, body, u);
    }
  }

  lemma WorkKnown(site: Site, body: string, before: map<Url, string>, visited: set<Url>, queue: seq<Url>,
                  cache: map<Url, string>, fetches: nat)
    requires Working(site, body, before, visited, queue, cache, fetches)
    requires queue != [] && (queue[0] == "" || queue[0] in visited)
    ensures Working(site, body, before, visited, queue[1..], cache, fetches)
  {
    PopKnown(site, body, visited, queue);
  }

  lemma WorkNew(site: Site, body: string, before: map<Url, string>, visited: set<Url>, queue: seq<Url>,
                cache: map<Url, string>, fetches: nat, text: string, nested: seq<Url>)
    requires Working(site, body, before, visited, queue, cache, fetches) && |visited| <= MAX_DISCOVERED
    requires queue != [] && queue[0] != "" && queue[0] !in visited && site.fetch(queue[0]) == Some(text)
    requires nested == Fresh(site.Refs(queue[0]), visited + {queue[0]})
    ensures Working(site, body, before, visited + {queue[0]}, queue[1..] + nested, cache[queue[0] := text], fetches + 1)
  {
    PopNew(site, body, visited, queue, nested);
    HoldsMore(site, before, cache, visited, queue[0], text);
  }

  lemma ManyVisited(site: Site, body: string, visited: set<Url>, found: set<Url>)
    requires site.shell <= visited && found == visited - site.shell && |visited| > MAX_DISCOVERED
    requires AllReachable(site, body, found)
    ensures ManyReachable(site, body)
  {
    assert found + site.shell == visited;
  }

  lemma VisitedReachable(site: Site, body: string, visited: set<Url>, queue: seq<Url>, found: set<Url>)
    requires OnlyReachable(site, body, visited, queue) && found == visited - site.shell
    ensures AllReachable(site, body, found)
  {
  }

  lemma WorkTooMany(site: Site, body: string, before: map<Url, string>, visited: set<Url>, queue: seq<Url>,
                    cache: map<Url, string>, fetches: nat)
    requires Working(site, body, before, visited, queue, cache, fetches) && |visited| > MAX_DISCOVERED
    ensures ManyReachable(site, body)
  {
    VisitedReachable(site, body, visited, queue, visited - site.shell);
    ManyVisited(site, body, visited, visited - site.shell);
  }

  lemma WorkFails(site: Site, body: string, before: map<Url, string>, visited: set<Url>, queue: seq<Url>,
                  cache: map<Url, string>, fetches: nat)
    requires Working(site, body, before, visited, queue, cache, fetches)
    requires queue != [] && queue[0] != "" && queue[0] !in visited
    ensures Reachable(site, body, queue[0])
  {
    assert site.Counts(queue[0]);
  }

  /** The reachable assets, and nothing else, have been added. */
  ghost predicate FilledIn(site: Site, body: string, before: map<Url, string>, cache: map<Url, string>) {
    && (forall u | Reachable(site, body, u) :: u in cache && site.fetch(u) == Some(cache[u]))
    && (forall u | u in cache && !Reachable(site, body, u) :: u in before && cache[u] == before[u])
    && before.Keys <= cache.Keys
  }

  lemma WorkDone(site: Site, body: string, before: map<Url, string>, visited: set<Url>, cache: map<Url, string>, fetches: nat)
    requires Working(site, body, before, visited, [], cache, fetches)
    ensures FilledIn(site, body, before, cache)
  {
    AllVisited(site, body, visited);
  }

  /**
   * Every reference that the index or a cached html, js or css asset makes outside the fixed shell is cached, and every
   * cached asset outside what was there before is such a reference.
   */
  ghost predicate FollowsNested(site: Site, body: string, before: set<Url>, cache: map<Url, string>) {
    && (forall v | v in site.discover(body, site.index) && v != "" && v !in site.shell :: v in cache)
    && (forall u, v | u in cache && u !in before && site.nests(u) && v in site.discover(cache[u], u) && v != "" && v !in site.shell ::
          v in cache)
    && (forall v | v in cache && v !in before ::
          v in site.discover(body, site.index) || exists u | u in cache && site.nests(u) :: v in site.discover(cache[u], u))
  }

  lemma LastReference(site: Site, body: string, v: Url)
    requires Reachable(site, body, v)
    ensures v in site.discover(body, site.index) || exists u :: Reachable(site, body, u) && v in site.Refs(u)
  {
    var p :| IsChain(site, body, p) && p[|p| - 1] == v;
    if |p| > 1 {
      var q, u := p[..|p| - 1], p[|p| - 2];
      assert IsChain(site, body, q) && q[|q| - 1] == u;
      assert p[|p| - 2 + 1] in site.Refs(p[|p| - 2]);
    }
  }

  lemma FilledFollows(site: Site, body: string, before: map<Url, string>, cache: map<Url, string>)
    requires FilledIn(site, body, before, cache)
    ensures FollowsNested(site, body, before.Keys, cache)
  {
    forall v | v in site.discover(body, site.index) && v != "" && v !in site.shell ensures v in cache {
      ReachableStart(site, body, v);
    }
    forall u, v | u in cache && u !in before && site.nests(u) && v in site.discover(cache[u], u) && v != "" && v !in site.shell
      ensures v in cache
    {
      assert Reachable(site, body, u);
      ReachableNext(site, body, u, v);
    }
    forall v | v in cache && v !in before
      ensures v in site.discover(body, site.index) || exists u | u in cache && site.nests(u) :: v in site.discover(cache[u], u)
    {
      LastReference(site, body, v);
      if u :| Reachable(site, body, u) && v in site.Refs(u) {
        assert u in cache && site.nests(u) && v in site.discover(cache[u], u);
      }
    }
  }

  /** What a failed attempt leaves: what was there before, and some reachable assets as they were served. */
  ghost predicate PartlyFilled(site: Site, body: string, before: map<Url, string>, cache: map<Url, string>) {
    && before.Keys <= cache.Keys
    && forall u | u in cache ::
         (u in before && cache[u] == before[u]) || (Reachable(site, body, u) && site.fetch(u) == Some(cache[u]))
  }

  lemma WorkPartly(site: Site, body: string, before: map<Url, string>, visited: set<Url>, queue: seq<Url>,
                   cache: map<Url, string>, fetches: nat)
    requires Working(site, body, before, visited, queue, cache, fetches)
    ensures PartlyFilled(site, body, before, cache)
  {
  }

  /**
   * On success the cache holds, besides what it held, exactly the reachable assets. It fails only when a reachable
   * asset cannot be fetched or stored, or the reachable assets exceed the limit; it never fetches an asset twice, and
   * never more than the limit allows.
   */
  method PrecacheDiscovered(site: Site, before: map<Url, string>)
    returns (r: Result<map<Url, string>, Failure>, cache: map<Url, string>, fetches: nat)
    ensures fetches > 0 ==> fetches + |site.shell| <= MAX_DISCOVERED + 1
    ensures match r
            case Ok(filled) =>
              && site.index in before && FilledIn(site, before[site.index], before, cache) && filled == cache
              && FollowsNested(site, before[site.index], before.Keys, cache)
            case Err(MissingIndex) => site.index !in before
            case Err(Unavailable(u)) =>
              site.index in before && Reachable(site, before[site.index], u) && site.fetch(u).None?
            case Err(Rejected(u)) =>
              site.index in before && Reachable(site, before[site.index], u) && site.fetch(u).Some? && !site.accepts(u)
            case Err(TooManyAssets) => site.index in before && ManyReachable(site, before[site.index])
    ensures if site.index in before then PartlyFilled(site, before[site.index], before, cache) else cache == before
  {
    fetches, cache := 0, before;
    if site.index !in before {
      return Err(MissingIndex), cache, fetches;
    }
    var body := before[site.index];
    var queue, visited := site.discover(body, site.index), site.shell;
    StartWorking(site, body, before);
    while queue != []
      invariant Working(site, body, before, visited, queue, cache, fetches)
      decreases if |visited| <= MAX_DISCOVERED then MAX_DISCOVERED + 1 - |visited| else 0, |queue|
    {
      WorkPartly(site, body, before, visited, queue, cache, fetches);
      if |visited| > MAX_DISCOVERED {
        WorkTooMany(site, body, before, visited, queue, cache, fetches);
        return Err(TooManyAssets), cache, fetches;
      }
      var url := queue[0];
      if url == "" || url in visited {
        WorkKnown(site, body, before, visited, queue, cache, fetches);
        queue := queue[1..];
        continue;
      }
      WorkFails(site, body, before, visited, queue, cache, fetches);
      var fetched := site.fetch(url);
      fetches := fetches + 1;
      if fetched.None? {
        return Err(Unavailable(url)), cache, fetches;
      }
      if !site.accepts(url) {
        return Err(Rejected(url)), cache, fetches;
      }
      var nested := Fresh(site.Refs(url), visited + {url});
      WorkNew(site, body, before, visited, queue, cache, fetches - 1, fetched.value, nested);
      cache, visited, queue := cache[url := fetched.value], visited + {url}, queue[1..] + nested;
    }
    WorkDone(site, body, before, visited, cache, fetches);
    WorkPartly(site, body, before, visited, queue, cache, fetches);
    FilledFollows(site, body, before, cache);
    r := Ok(cache);
  }

  lemma HoldsMore(site: Site, before: map<Url, string>, cache: map<Url, string>, visited: set<Url>, url: Url, text: string)
    requires Holds(site, before, cache, visited) && url !in visited && site.shell <= visited && site.fetch(url) == Some(text)
    ensures Holds(site, before, cache[url := text], visited + {url})
  {
    var c, v := cache[url := text], visited + {url};
    assert v - site.shell == (visited - site.shell) + {url};
  }
}
