/** The crawl engine: `worker` (depth gate, fetch, extraction), `spider`
    (the round loop over the visited list `base_urls` and the frontier
    `wannabe`) and `start`, which seeds the crawl and hands the visited list
    to `parser`. */
module Crawl {
  import opened Wrappers
  import opened Text
  import opened Links
  import opened Matcher

  /** What the crawl reads but never changes: the `-d` depth and the three
      collaborators the model does not look into. `fetch` is the HTTP GET,
      giving the page text or None for a `RequestException`; `valid` is
      `checker` (`rfc3987.parse` accepts the string); `authority` is
      `parse(url)['authority']`. */
  datatype Config = Config(
    depth: int,
    fetch: string -> Option<string>,
    valid: string -> bool,
    authority: string -> string)

  /** `url.count("/")`, the crawl's stand-in for link depth. */
  function Slashes(url: string): (n: nat)
    ensures n == multiset(url)['/']
  {
    CountChar(url, '/')
  }

  /** `worker`: the links of the page at url, or none when the url has more
      than depth + 2 slashes (it is then not fetched) or the fetch fails. */
  function Worker(cfg: Config, url: string): (r: seq<string>)
    ensures Slashes(url) > cfg.depth + 2 ==> r == []
    ensures Slashes(url) <= cfg.depth + 2 && cfg.fetch(url).None? ==> r == []
    ensures Slashes(url) <= cfg.depth + 2 && cfg.fetch(url).Some? ==>
      NoDup(r) && forall u :: u in r <==> u in Tokens(cfg.fetch(url).value) && cfg.valid(u)
  {
    if Slashes(url) <= cfg.depth + 2 then
      match cfg.fetch(url)
      case Some(html) => GatherLinks(html, cfg.valid)
      case None => []
    else
      []
  }

  /** A url beyond the depth bound is never fetched: what its worker returns
      does not depend on the fetch function at all. */
  lemma DepthGateSkipsFetch(cfg: Config, url: string, fetch: string -> Option<string>)
    requires Slashes(url) > cfg.depth + 2
    ensures Worker(cfg, url) == Worker(cfg.(fetch := fetch), url) == []
  {
  }

  /** `itertools.chain(*executor.map(worker, wannabe))`: the workers' link
      lists, one after the other in frontier order. */
  function Harvest(cfg: Config, frontier: seq<string>): (r: seq<string>)
    ensures forall u :: u in r <==> exists w :: w in frontier && u in Worker(cfg, w)
  {
    if frontier == [] then []
    else
      var init := frontier[..|frontier| - 1];
      var last := frontier[|frontier| - 1];
      assert forall w :: w in frontier <==> w in init || w == last;
      Harvest(cfg, init) + Worker(cfg, last)
  }

  /** `new_urls` of one round: every link some worker of the frontier
      returned, once. */
  function Discovered(cfg: Config, frontier: seq<string>): (r: seq<string>)
    ensures NoDup(r)
    ensures forall u :: u in r <==> exists w :: w in frontier && u in Worker(cfg, w)
  {
    Dedup(Harvest(cfg, frontier))
  }

  /** An empty frontier discovers nothing. */
  lemma EmptyFrontierDiscoversNothing(cfg: Config)
    ensures Discovered(cfg, []) == []
  {
  }

  /** The scope test: the target's authority is a substring of the url's. */
  predicate InScope(cfg: Config, target: string, url: string)
    ensures InScope(cfg, target, url) ==> |target| <= |cfg.authority(url)|
    ensures target == [] || target == cfg.authority(url) ==> InScope(cfg, target, url)
  {
    var a := cfg.authority(url);
    assert OccursAt(a, a, 0);
    ContainsEmpty(a);
    Contains(a, target)
  }

  /** The in-scope elements of urls, in order. */
  function Frontier(cfg: Config, target: string, urls: seq<string>): (r: seq<string>)
    ensures forall u :: u in r <==> u in urls && InScope(cfg, target, u)
    ensures NoDup(urls) ==> NoDup(r)
  {
    Filter(urls, u => InScope(cfg, target, u))
  }

  /** The elements of found that are not yet in visited, in order. */
  function Unseen(found: seq<string>, visited: seq<string>): (r: seq<string>)
    ensures forall u :: u in r <==> u in found && u !in visited
    ensures NoDup(found) ==> NoDup(r)
  {
    Filter(found, u => u !in visited)
  }

  /** Every worker's output lies in the finite set universe. */
  ghost predicate Bounded(cfg: Config, universe: set<string>)
  {
    forall c, u | u in Worker(cfg, c) :: u in universe
  }

  /** Every appended url was returned by the worker of a crawled url that
      was visited before it: the seeds or an earlier appended url. So no url
      is visited without a discovery path from the seeds. */
  ghost predicate Traced(cfg: Config, seeds: seq<string>, added: seq<string>, crawled: seq<string>)
  {
    forall k | 0 <= k < |added| :: TracedAt(cfg, seeds, added, crawled, k)
  }

  /** The k-th appended url was returned by the worker of a crawled url
      among the seeds and the urls appended before it. */
  ghost predicate TracedAt(cfg: Config, seeds: seq<string>, added: seq<string>, crawled: seq<string>, k: nat)
    requires k < |added|
  {
    var v := seeds + added;
    exists j | 0 <= j < |seeds| + k :: v[j] in crawled && added[k] in Worker(cfg, v[j])
  }

  /** The url at position k of the visited list v was returned by the
      worker of an in-scope url at an earlier position. */
  ghost predicate FoundBefore(cfg: Config, target: string, v: seq<string>, k: nat)
    requires k < |v|
  {
    exists j | 0 <= j < k :: InScope(cfg, target, v[j]) && v[k] in Worker(cfg, v[j])
  }

  /** The first url of a visited list has nothing before it, so it cannot
      have been discovered: a crawl whose seed list is empty visits nothing. */
  lemma FirstVisitIsASeed(cfg: Config, target: string, v: seq<string>)
    requires 0 < |v|
    ensures !FoundBefore(cfg, target, v, 0)
  {
  }

  /** An url appended before the round keeps the crawled url that
      returned it. */
  lemma TracedEarlier(cfg: Config, seeds: seq<string>, added: seq<string>, crawled: seq<string>,
                      wannabe: seq<string>, unseen: seq<string>, k: nat)
    requires k < |added| && TracedAt(cfg, seeds, added, crawled, k)
    ensures TracedAt(cfg, seeds, added + unseen, crawled + wannabe, k)
  {
    var v, v' := seeds + added, seeds + (added + unseen);
    var j :| 0 <= j < |seeds| + k && v[j] in crawled && added[k] in Worker(cfg, v[j]);
    assert v'[j] == v[j] && (added + unseen)[k] == added[k];
    assert v'[j] in crawled + wannabe;
  }

  /** An url the round appends was returned by a frontier url, which was
      visited before the round. */
  lemma TracedNew(cfg: Config, seeds: seq<string>, added: seq<string>, crawled: seq<string>,
                  wannabe: seq<string>, unseen: seq<string>, k: nat, j: nat)
    requires |added| <= k < |added| + |unseen| && j < |seeds| + |added|
    requires (seeds + added)[j] in wannabe && unseen[k - |added|] in Worker(cfg, (seeds + added)[j])
    ensures TracedAt(cfg, seeds, added + unseen, crawled + wannabe, k)
  {
    var w, v' := (seeds + added)[j], seeds + (added + unseen);
    assert v'[j] == w && (added + unseen)[k] == unseen[k - |added|];
    assert w in crawled + wannabe;
  }

  /** A round keeps `Traced`: its frontier was visited before the round, so
      before every link the round appends. */
  lemma TracedRound(cfg: Config, seeds: seq<string>, added: seq<string>, crawled: seq<string>,
                    wannabe: seq<string>, unseen: seq<string>)
    requires Traced(cfg, seeds, added, crawled)
    requires forall w | w in wannabe :: w in seeds + added
    requires forall u | u in unseen :: exists w :: w in wannabe && u in Worker(cfg, w)
    ensures Traced(cfg, seeds, added + unseen, crawled + wannabe)
  {
    forall k | 0 <= k < |added + unseen|
      ensures TracedAt(cfg, seeds, added + unseen, crawled + wannabe, k)
    {
      if k < |added| {
        TracedEarlier(cfg, seeds, added, crawled, wannabe, unseen, k);
      } else {
        var u := unseen[k - |added|];
        assert u in unseen;
        var w :| w in wannabe && u in Worker(cfg, w);
        var j :| 0 <= j < |seeds + added| && (seeds + added)[j] == w;
        TracedNew(cfg, seeds, added, crawled, wannabe, unseen, k, j);
      }
    }
  }

  /** One position of the visited list: the crawled url that returned the
      i-th appended url sits earlier in the list. */
  lemma TracedPosition(cfg: Config, target: string, seeds: seq<string>, added: seq<string>,
                       crawled: seq<string>, v: seq<string>, i: nat)
    requires v == seeds + added && i < |added|
    requires TracedAt(cfg, seeds, added, crawled, i)
    requires forall c | c in crawled :: InScope(cfg, target, c)
    ensures FoundBefore(cfg, target, v, |seeds| + i)
  {
    var j :| 0 <= j < |seeds| + i && v[j] in crawled && added[i] in Worker(cfg, v[j]);
    assert v[|seeds| + i] == added[i];
    assert InScope(cfg, target, v[j]);
  }

  /** `Traced` read off the visited list: every url after the seeds is in
      the output of an in-scope url that comes before it. */
  lemma TracedPositions(cfg: Config, target: string, seeds: seq<string>, added: seq<string>,
                        crawled: seq<string>, v: seq<string>)
    requires v == seeds + added
    requires Traced(cfg, seeds, added, crawled)
    requires forall c | c in crawled :: InScope(cfg, target, c)
    ensures forall k | |seeds| <= k < |v| :: FoundBefore(cfg, target, v, k)
  {
    forall k | |seeds| <= k < |v|
      ensures FoundBefore(cfg, target, v, k)
    {
      TracedPosition(cfg, target, seeds, added, crawled, v, k - |seeds|);
    }
  }

  /** What holds of the crawl state between rounds. `seeds` is the list the
      crawl started from and `added` what the rounds appended to it; `crawled`
      is every url handed to a worker so far. */
  ghost predicate CrawlInvariant(cfg: Config, target: string, seeds: seq<string>,
                                 added: seq<string>, wannabe: seq<string>, crawled: seq<string>)
  {
    var visited := seeds + added;
    && NoDup(added)
    && (forall u | u in added :: u !in seeds)
    && (forall u | u in wannabe :: u in visited && InScope(cfg, target, u))
    && (forall c | c in crawled :: c in visited && InScope(cfg, target, c))
    // every in-scope visited url has been crawled or waits in the frontier
    && (forall u | u in visited && InScope(cfg, target, u) :: u in crawled || u in wannabe)
    // whatever a crawled url's worker returned has been recorded
    && (forall c, u | c in crawled && u in Worker(cfg, c) :: u in visited)
    // every appended url was returned by the worker of an earlier crawled url
    && Traced(cfg, seeds, added, crawled)
  }

  /** One round keeps the invariant: the frontier moves to the crawled list,
      the unseen links are appended and their in-scope part is the next
      frontier. */
  lemma RoundKeepsInvariant(cfg: Config, target: string, seeds: seq<string>,
                            added: seq<string>, wannabe: seq<string>, crawled: seq<string>)
    requires CrawlInvariant(cfg, target, seeds, added, wannabe, crawled)
    ensures var unseen := Unseen(Discovered(cfg, wannabe), seeds + added);
      CrawlInvariant(cfg, target, seeds, added + unseen, Frontier(cfg, target, unseen), crawled + wannabe)
  {
    var visited := seeds + added;
    var found := Discovered(cfg, wannabe);
    var unseen := Unseen(found, visited);
    var visited' := seeds + (added + unseen);
    assert visited' == visited + unseen;
    NoDupConcat(added, unseen);
    forall c, u | c in crawled + wannabe && u in Worker(cfg, c)
      ensures u in visited'
    {
      if c in wannabe {
        assert u in found;
      }
    }
    forall u | u in unseen
      ensures exists w :: w in wannabe && u in Worker(cfg, w)
    {
      assert u in found;
    }
    TracedRound(cfg, seeds, added, crawled, wannabe, unseen);
  }

  /** What a round does with the links it found: the next frontier is
      exactly the in-scope ones not visited before, and every one of them is
      visited afterwards. */
  lemma RoundLinks(cfg: Config, target: string, found: seq<string>, seeds: seq<string>, added: seq<string>)
    ensures var unseen := Unseen(found, seeds + added);
      && seeds + (added + unseen) == (seeds + added) + unseen
      && (forall u :: u in Frontier(cfg, target, unseen) <==>
                      u in found && u !in seeds + added && InScope(cfg, target, u))
      && (forall u | u in found :: u in (seeds + added) + unseen)
      && (NoDup(found) && NoDup(seeds + added) ==> NoDup((seeds + added) + unseen))
  {
    var unseen := Unseen(found, seeds + added);
    if NoDup(found) && NoDup(seeds + added) {
      NoDupConcat(seeds + added, unseen);
    }
  }

  /** What a round guarantees: the invariant, and the facts of `RoundLinks`
      about the visited list it extends. */
  lemma RoundOutcome(cfg: Config, target: string, seeds: seq<string>,
                     added: seq<string>, wannabe: seq<string>, crawled: seq<string>)
    requires CrawlInvariant(cfg, target, seeds, added, wannabe, crawled)
    ensures var found := Discovered(cfg, wannabe);
      var unseen := Unseen(found, seeds + added);
      && CrawlInvariant(cfg, target, seeds, added + unseen, Frontier(cfg, target, unseen), crawled + wannabe)
      && seeds + (added + unseen) == (seeds + added) + unseen
      && (forall u :: u in Frontier(cfg, target, unseen) <==>
                      u in found && u !in seeds + added && InScope(cfg, target, u))
      && (forall u | u in found :: u in (seeds + added) + unseen)
      && (NoDup(seeds + added) ==> NoDup((seeds + added) + unseen))
  {
    RoundKeepsInvariant(cfg, target, seeds, added, wannabe, crawled);
    RoundLinks(cfg, target, Discovered(cfg, wannabe), seeds, added);
  }

  /** Appending one more link of a round: it is unseen exactly when it is
      not in the visited list, since the round's links are distinct. */
  lemma UnseenStep(found: seq<string>, k: nat, visited: seq<string>)
    requires k < |found| && NoDup(found)
    ensures found[k] !in Unseen(found[..k], visited)
    ensures Unseen(found[..k + 1], visited)
         == Unseen(found[..k], visited) + (if found[k] in visited then [] else [found[k]])
  {
    assert found[..k + 1][..k] == found[..k];
  }

  /** One iteration of the append loop: what the unseen list and its
      in-scope part become when the k-th link of the round is considered. */
  lemma RecordStep(cfg: Config, target: string, found: seq<string>, k: nat, visited: seq<string>)
    requires k < |found| && NoDup(found)
    ensures var url := found[k];
      && (url in visited + Unseen(found[..k], visited) <==> url in visited)
      && Unseen(found[..k + 1], visited)
         == Unseen(found[..k], visited) + (if url in visited then [] else [url])
      && Frontier(cfg, target, Unseen(found[..k + 1], visited))
         == Frontier(cfg, target, Unseen(found[..k], visited))
            + (if url !in visited && InScope(cfg, target, url) then [url] else [])
  {
    var url, before := found[k], Unseen(found[..k], visited);
    UnseenStep(found, k, visited);
    if url !in visited {
      assert (before + [url])[..|before|] == before;
    } else {
      assert before + [] == before;
    }
  }

  /** The state of the append loop after its first `k` links: every unseen
      one so far has been appended to the visited list, to the history and,
      when in scope, to the frontier, and counted. */
  ghost predicate Recorded(cfg: Config, target: string, found: seq<string>, k: nat,
                           visited: seq<string>, added0: seq<string>, frontier0: seq<string>,
                           urls: seq<string>, added: seq<string>, next: seq<string>, i: int)
    requires k <= |found|
  {
    var unseen := Unseen(found[..k], visited);
    && urls == visited + unseen
    && added == added0 + unseen
    && next == frontier0 + Frontier(cfg, target, unseen)
    && i == |unseen|
  }

  /** Appending a link not seen before keeps `Recorded`. */
  lemma RecordNew(cfg: Config, target: string, found: seq<string>, k: nat,
                  visited: seq<string>, added0: seq<string>, frontier0: seq<string>,
                  urls: seq<string>, added: seq<string>, next: seq<string>, i: int)
    requires k < |found| && NoDup(found) && found[k] !in urls
    requires Recorded(cfg, target, found, k, visited, added0, frontier0, urls, added, next, i)
    ensures Recorded(cfg, target, found, k + 1, visited, added0, frontier0,
                     urls + [found[k]], added + [found[k]],
                     if InScope(cfg, target, found[k]) then next + [found[k]] else next, i + 1)
  {
    RecordStep(cfg, target, found, k, visited);
  }

  /** Skipping a link already visited keeps `Recorded`. */
  lemma RecordOld(cfg: Config, target: string, found: seq<string>, k: nat,
                  visited: seq<string>, added0: seq<string>, frontier0: seq<string>,
                  urls: seq<string>, added: seq<string>, next: seq<string>, i: int)
    requires k < |found| && NoDup(found) && found[k] in urls
    requires Recorded(cfg, target, found, k, visited, added0, frontier0, urls, added, next, i)
    ensures Recorded(cfg, target, found, k + 1, visited, added0, frontier0, urls, added, next, i)
  {
    RecordStep(cfg, target, found, k, visited);
  }

  /** Handling the next link keeps `Recorded`: a link not seen before is
      appended and counted, one already visited changes nothing. */
  lemma RecordNext(cfg: Config, target: string, found: seq<string>, k: nat,
                   visited: seq<string>, added0: seq<string>, frontier0: seq<string>,
                   urls: seq<string>, added: seq<string>, next: seq<string>, i: int,
                   urls': seq<string>, added': seq<string>, next': seq<string>, i': int)
    requires k < |found| && NoDup(found)
    requires Recorded(cfg, target, found, k, visited, added0, frontier0, urls, added, next, i)
    requires found[k] in urls ==> urls' == urls && added' == added && next' == next && i' == i
    requires found[k] !in urls ==>
      && urls' == urls + [found[k]] && added' == added + [found[k]] && i' == i + 1
      && next' == if InScope(cfg, target, found[k]) then next + [found[k]] else next
    ensures Recorded(cfg, target, found, k + 1, visited, added0, frontier0, urls', added', next', i')
  {
    if found[k] in urls {
      RecordOld(cfg, target, found, k, visited, added0, frontier0, urls, added, next, i);
    } else {
      RecordNew(cfg, target, found, k, visited, added0, frontier0, urls, added, next, i);
    }
  }

  /** A round that appends urls of the universe leaves fewer of its urls
      unvisited. */
  lemma AppendShrinksRest(universe: set<string>, visited: seq<string>, appended: seq<string>)
    requires appended != []
    requires forall u | u in appended :: u in universe && u !in visited
    ensures |universe - Elems(visited + appended)| < |universe - Elems(visited)|
  {
    var x := appended[0];
    assert x in universe - Elems(visited);
    assert x !in universe - Elems(visited + appended);
    StrictSubsetCard(universe - Elems(visited + appended), universe - Elems(visited));
  }

  /** The state of `spider`. `baseUrls` is the list passed in and appended to
      in place; `wannabe` is the frontier. The ghost fields keep the history
      the invariant talks about. */
  class Spider {
    const cfg: Config
    const target: string
    ghost const seeds: seq<string>
    var baseUrls: seq<string>
    var wannabe: seq<string>
    ghost var added: seq<string>
    ghost var crawled: seq<string>

    ghost predicate Valid()
      reads this
    {
      baseUrls == seeds + added && CrawlInvariant(cfg, target, seeds, added, wannabe, crawled)
    }

    /** `spider`'s set-up: the target's authority is computed once and the
        initial frontier is the in-scope part of the initial links. */
    constructor (cfg: Config, links: seq<string>, target: string)
      ensures Valid()
      ensures this.cfg == cfg && this.target == cfg.authority(target)
      ensures seeds == links && baseUrls == links
      ensures wannabe == Frontier(cfg, cfg.authority(target), links)
      ensures crawled == []
    {
      this.cfg := cfg;
      this.target := cfg.authority(target);
      seeds := links;
      baseUrls := links;
      wannabe := Frontier(cfg, cfg.authority(target), links);
      added := [];
      crawled := [];
    }

    /** One pass of the `while True` body: run the workers
        over the frontier, flatten and deduplicate their links, then append
        each link not yet in `baseUrls`, and make the in-scope ones the next
        frontier. Returns the round's `new_urls` and the counter `i`. */
    method Round() returns (found: seq<string>, i: nat)
      requires Valid()
      modifies this
      ensures Valid()
      ensures found == Discovered(cfg, old(wannabe))
      ensures baseUrls == old(baseUrls) + Unseen(found, old(baseUrls))
      ensures wannabe == Frontier(cfg, target, Unseen(found, old(baseUrls)))
      ensures forall u :: u in wannabe <==> u in found && u !in old(baseUrls) && InScope(cfg, target, u)
      ensures forall u | u in found :: u in baseUrls
      ensures NoDup(old(baseUrls)) ==> NoDup(baseUrls)
      ensures i == |baseUrls| - |old(baseUrls)|
      ensures crawled == old(crawled) + old(wannabe)
    {
      ghost var visited, frontier, added0, crawled0 := baseUrls, wannabe, added, crawled;
      RoundOutcome(cfg, target, seeds, added, wannabe, crawled);
      found := Discovered(cfg, wannabe);
      crawled := crawled + wannabe;
      wannabe := [];
      i := 0;
      ghost var unseen := Unseen(found, visited);
      if found != [] {
        i := Record(found);
        assert [] + Frontier(cfg, target, unseen) == Frontier(cfg, target, unseen);
      } else {
        assert unseen == [] && Frontier(cfg, target, unseen) == [];
        assert added0 + unseen == added0 && visited + unseen == visited;
      }
    }

    /** The `for url in new_urls` loop: each link not yet in
        `baseUrls` is counted and appended, and also appended to the frontier
        when it is in scope. */
    method Record(found: seq<string>) returns (i: nat)
      requires NoDup(found)
      modifies this
      ensures baseUrls == old(baseUrls) + Unseen(found, old(baseUrls))
      ensures added == old(added) + Unseen(found, old(baseUrls))
      ensures wannabe == old(wannabe) + Frontier(cfg, target, Unseen(found, old(baseUrls)))
      ensures i == |Unseen(found, old(baseUrls))|
      ensures crawled == old(crawled)
    {
      ghost var visited, added0, frontier0 := baseUrls, added, wannabe;
      i := 0;
      assert found[..0] == [];
      for k := 0 to |found|
        invariant crawled == old(crawled)
        invariant Recorded(cfg, target, found, k, visited, added0, frontier0, baseUrls, added, wannabe, i)
      {
        var isNew := Visit(found, k, visited, added0, frontier0, i);
        if isNew {
          i := i + 1;
        }
      }
      assert found[..|found|] == found;
    }

    /** One pass of that loop's body, for the link `found[k]`: a link not in
        `baseUrls` is appended to it and, when in scope, to the frontier. */
    method Visit(found: seq<string>, k: nat, ghost visited: seq<string>, ghost added0: seq<string>,
                 ghost frontier0: seq<string>, ghost i: int) returns (isNew: bool)
      requires k < |found| && NoDup(found)
      requires Recorded(cfg, target, found, k, visited, added0, frontier0, baseUrls, added, wannabe, i)
      modifies this
      ensures isNew <==> found[k] !in old(baseUrls)
      ensures crawled == old(crawled)
      ensures Recorded(cfg, target, found, k + 1, visited, added0, frontier0, baseUrls, added, wannabe,
                       if isNew then i + 1 else i)
    {
      var url := found[k];
      ghost var urls0, added1, next0 := baseUrls, added, wannabe;
      isNew := url !in baseUrls;
      if isNew {
        if InScope(cfg, target, url) {
          wannabe := wannabe + [url];
        }
        baseUrls := baseUrls + [url];
        added := added + [url];
      }
      RecordNext(cfg, target, found, k, visited, added0, frontier0, urls0, added1, next0, i,
                 baseUrls, added, wannabe, if isNew then i + 1 else i);
    }

    /** `spider`'s `while True` loop: rounds run until one discovers
        nothing. It terminates when the workers only ever return urls from a
        finite set: each further round either appends a url of that set or
        empties the frontier, and a round over an empty frontier ends it. */
    method Run(ghost universe: set<string>)
      requires Valid() && Bounded(cfg, universe)
      modifies this
      ensures Valid()
      ensures wannabe == []
      ensures old(baseUrls) <= baseUrls
      ensures forall u | u in baseUrls && InScope(cfg, target, u) :: u in crawled
    {
      while true
        invariant Valid()
        invariant old(baseUrls) <= baseUrls
        decreases |universe - Elems(baseUrls)|, if wannabe == [] then 0 else 1
      {
        ghost var visited, frontier := baseUrls, wannabe;
        var found, i := Round();
        if found == [] {
          break;
        }
        ghost var appended := Unseen(found, visited);
        if appended == [] {
          // nothing new: the frontier, which was not empty, now is
          assert found[0] in found;
          assert frontier != [];
          assert baseUrls == visited;
          assert wannabe == [];
        } else {
          forall u | u in appended
            ensures u in universe
          {
            var w :| w in frontier && u in Worker(cfg, w);
          }
          AppendShrinksRest(universe, visited, appended);
        }
      }
    }
  }

  /** The visited list once the frontier is empty: it extends the seeds
      without duplicates, is closed under the workers of its in-scope urls,
      and every url after the seeds has a discovery path. */
  lemma FinalVisited(cfg: Config, target: string, seeds: seq<string>, added: seq<string>,
                     crawled: seq<string>, v: seq<string>)
    requires v == seeds + added && NoDup(seeds)
    requires CrawlInvariant(cfg, target, seeds, added, [], crawled)
    ensures seeds <= v && NoDup(v)
    ensures forall c, u | c in v && InScope(cfg, target, c) && u in Worker(cfg, c) :: u in v
    ensures forall k | |seeds| <= k < |v| :: FoundBefore(cfg, target, v, k)
  {
    NoDupConcat(seeds, added);
    TracedPositions(cfg, target, seeds, added, crawled, v);
  }

  /** What one crawl reports: the seed page's links, the final visited list
      and the matches among it. */
  datatype Report = Report(initial: seq<string>, visited: seq<string>, matches: seq<string>)

  /** `start` followed by `spider` and `parser`: fetch the target, gather its
      links and crawl from them. A failed first fetch ends the crawl with no
      report. */
  method Start(cfg: Config, target: string, domains: seq<string>, ghost universe: set<string>)
    returns (r: Option<Report>)
    requires Bounded(cfg, universe)
    ensures r.None? <==> cfg.fetch(target).None?
    ensures r.Some? ==> r.value.initial == GatherLinks(cfg.fetch(target).value, cfg.valid)
    ensures r.Some? ==> r.value.initial <= r.value.visited && NoDup(r.value.visited)
    ensures r.Some? ==> r.value.matches == Matches(r.value.visited, domains)
    // the visited list is closed: every in-scope visited url has been
    // expanded and all its links are visited
    ensures r.Some? ==> forall c, u |
      c in r.value.visited && InScope(cfg, cfg.authority(target), c) && u in Worker(cfg, c) ::
        u in r.value.visited
    // and every later url was returned by an in-scope url visited before it,
    // so nothing was visited without a discovery path from the seed page
    ensures r.Some? ==> forall k | |r.value.initial| <= k < |r.value.visited| ::
      FoundBefore(cfg, cfg.authority(target), r.value.visited, k)
  {
    match cfg.fetch(target)
    case None =>
      r := None;
    case Some(html) =>
      var links := GatherLinks(html, cfg.valid);
      var spider := new Spider(cfg, links, target);
      spider.Run(universe);
      var visited := spider.baseUrls;
      FinalVisited(cfg, spider.target, links, spider.added, spider.crawled, visited);
      r := Some(Report(links, visited, Matches(visited, domains)));
  }
}
