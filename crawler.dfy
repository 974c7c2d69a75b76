/**
 * The link-discovery crawler (`WebCrawler` in url-extractor/main.py): a
 * breadth-first walk over the pages of one domain, bounded by a depth and a
 * page budget, whose result is the sorted list of every in-domain URL found.
 */
module UrlExtractor {
  import opened Wrappers
  import opened Text
  import Ordering

  type Url = string

  /** The parts of `urllib.parse` the crawler uses, left uninterpreted. */
  datatype UrlLib = UrlLib(
    netloc: Url -> string,       // urlparse(u).netloc
    scheme: Url -> string,       // urlparse(u).scheme
    join: (Url, string) -> Url)  // urljoin(base, href)

  /**
   * A page that `requests.get` returned: its status code and, as the HTML
   * parser finds them, the `href` of every anchor that has one, in document order.
   */
  datatype Response = Response(status: int, hrefs: seq<string>)

  /** The network and the HTML parser; `None` when `requests.get` raises. */
  type Fetch = Url -> Option<Response>

  /** Suffixes that mark a URL as a non-page resource. */
  const BlockedExtensions: seq<string> := [".pdf", ".jpg", ".png", ".gif", ".css", ".js"]

  /** The request raised, or `raise_for_status` would (a 4xx or 5xx status). */
  predicate RequestFailed(r: Option<Response>) {
    r.None? || 400 <= r.value.status < 600
  }

  /** `any(url.endswith(ext) for ext in exts)` */
  function EndsWithAny(url: Url, exts: seq<string>): (b: bool)
    ensures b <==> exists i :: 0 <= i < |exts| && EndsWith(url, exts[i])
  {
    if exts == [] then false else EndsWith(url, exts[0]) || EndsWithAny(url, exts[1..])
  }

  /** `is_valid_url`: same domain, an http(s) scheme, and no blocked suffix. */
  predicate IsValidUrl(lib: UrlLib, domain: string, url: Url) {
    lib.netloc(url) == domain
    && lib.scheme(url) in ["http", "https"]
    && !EndsWithAny(url, BlockedExtensions)
  }

  lemma IsValidUrlMeaning(lib: UrlLib, domain: string, url: Url)
    ensures IsValidUrl(lib, domain, url) <==>
      && lib.netloc(url) == domain
      && (lib.scheme(url) == "http" || lib.scheme(url) == "https")
      && !EndsWith(url, ".pdf") && !EndsWith(url, ".jpg") && !EndsWith(url, ".png")
      && !EndsWith(url, ".gif") && !EndsWith(url, ".css") && !EndsWith(url, ".js")
  {
    var b := BlockedExtensions;
    assert EndsWithAny(url, b) <==> exists i :: 0 <= i < |b| && EndsWith(url, b[i]);
    assert b[0] == ".pdf" && b[1] == ".jpg" && b[2] == ".png";
    assert b[3] == ".gif" && b[4] == ".css" && b[5] == ".js";
  }

  /**
   * The links one page contributes to the discovered set: the absolute forms
   * of its hrefs that pass the filter and were not known before.
   */
  function NewLinks(lib: UrlLib, domain: string, page: Url, hrefs: seq<string>, known: set<Url>): set<Url> {
    set h | h in hrefs && IsValidUrl(lib, domain, lib.join(page, h)) && lib.join(page, h) !in known
      :: lib.join(page, h)
  }

  /** Scanning one more href adds its link exactly when `extract_urls`'s test passes. */
  lemma NewLinksSnoc(lib: UrlLib, domain: string, page: Url, hrefs: seq<string>, h: string, known: set<Url>)
    ensures var taken := NewLinks(lib, domain, page, hrefs, known);
      var full := lib.join(page, h);
      NewLinks(lib, domain, page, hrefs + [h], known)
      == if IsValidUrl(lib, domain, full) && full !in known + taken then taken + {full} else taken
  {
  }

  /**
   * Every passing link of the page is either known already or new, and every
   * new link is the join of one of the page's hrefs.
   */
  lemma NewLinksCover(lib: UrlLib, domain: string, page: Url, hrefs: seq<string>, known: set<Url>)
    ensures forall h :: h in hrefs && IsValidUrl(lib, domain, lib.join(page, h)) ==>
      lib.join(page, h) in known + NewLinks(lib, domain, page, hrefs, known)
    ensures forall n :: n in NewLinks(lib, domain, page, hrefs, known) ==>
      exists h :: h in hrefs && n == lib.join(page, h)
  {
  }

  /** A page whose anchors are `a`, `a` again and a link to another host adds `a` alone. */
  lemma DiscoveryExample(lib: UrlLib, page: Url, ha: string, hb: string)
    requires lib.join(page, ha) == "http://example.com/a" && lib.join(page, hb) == "http://other.com/b"
    requires lib.netloc("http://example.com/a") == "example.com" && lib.scheme("http://example.com/a") == "http"
    requires lib.netloc("http://other.com/b") == "other.com"
    ensures NewLinks(lib, "example.com", page, [ha, ha, hb], {}) == {"http://example.com/a"}
  {
  }

  /**
   * What one level of `crawl` does, whatever order its frontier is walked in:
   * `visBefore`/`visAfter` and `knownBefore`/`knownAfter` are the visited and
   * discovered sets around the level. Only frontier pages are visited, each
   * after a successful request. Every passing link of a visited page is then
   * discovered, and the next frontier is exactly what was newly discovered,
   * each URL a link of a visited page. A frontier page that was not visited
   * either failed or met a guard.
   */
  ghost predicate LevelExpanded(lib: UrlLib, domain: string, maxDepth: int, maxPages: int, fetch: Fetch,
                                depth: int, frontier: set<Url>, next: set<Url>,
                                visBefore: set<Url>, visAfter: set<Url>,
                                knownBefore: set<Url>, knownAfter: set<Url>)
  {
    && visBefore <= visAfter <= visBefore + frontier
    && knownBefore <= knownAfter && next == knownAfter - knownBefore
    && (forall v :: v in visAfter - visBefore ==> !RequestFailed(fetch(v)))
    && (forall v, h :: (v in visAfter - visBefore && fetch(v).Some? && h in fetch(v).value.hrefs
          && IsValidUrl(lib, domain, lib.join(v, h))) ==> lib.join(v, h) in knownAfter)
    && (forall n :: n in next ==>
          exists v, h :: v in visAfter - visBefore && fetch(v).Some? && h in fetch(v).value.hrefs
            && n == lib.join(v, h))
    && (forall u :: u in frontier ==>
          u in visAfter || RequestFailed(fetch(u)) || |visAfter| >= maxPages || depth > maxDepth)
  }

  /**
   * One more frontier page keeps `LevelExpanded`: `vis1`/`known1` and
   * `vis2`/`known2` are the sets around `extract_urls` on `u`, which found
   * `found`, as its contract describes.
   */
  lemma LevelExpandedStep(lib: UrlLib, domain: string, maxDepth: int, maxPages: int, fetch: Fetch,
                          depth: int, done: set<Url>, u: Url, next: set<Url>, found: set<Url>,
                          vis0: set<Url>, vis1: set<Url>, vis2: set<Url>,
                          known0: set<Url>, known1: set<Url>, known2: set<Url>)
    requires LevelExpanded(lib, domain, maxDepth, maxPages, fetch, depth, done, next, vis0, vis1, known0, known1)
    requires vis1 <= vis2 <= vis1 + {u}
    requires known2 == known1 + found && found !! known1
    requires vis2 == vis1 ==> found == {}
    requires u in vis2 || RequestFailed(fetch(u)) || |vis1| >= maxPages || depth > maxDepth
    requires vis2 != vis1 ==>
      && !RequestFailed(fetch(u))
      && (forall h :: h in fetch(u).value.hrefs && IsValidUrl(lib, domain, lib.join(u, h)) ==>
            lib.join(u, h) in known2)
      && (forall n :: n in found ==> exists h :: h in fetch(u).value.hrefs && n == lib.join(u, h))
    ensures LevelExpanded(lib, domain, maxDepth, maxPages, fetch, depth, done + {u}, next + found,
                          vis0, vis2, known0, known2)
  {
    assert |vis1| <= |vis2| by {
      if vis2 != vis1 {
        assert vis2 == vis1 + {u};
      }
    }
    forall n | n in next + found
      ensures exists v, h :: (v in vis2 - vis0 && fetch(v).Some? && h in fetch(v).value.hrefs
        && n == lib.join(v, h))
    {
      if n in found {
        var h :| h in fetch(u).value.hrefs && n == lib.join(u, h);
        assert u in vis2 - vis0 by {
          assert u !in vis1;
        }
      } else {
        var v, h :| v in vis1 - vis0 && fetch(v).Some? && h in fetch(v).value.hrefs && n == lib.join(v, h);
        assert v in vis2 - vis0;
      }
    }
  }

  function Budget(n: int): nat {
    if n < 0 then 0 else n
  }

  /**
   * The levels of a crawl: `frontiers[d]` is the frontier of level `d`, and
   * `visits[d]` and `known[d]` are the visited and discovered sets before it;
   * the last entries are the state after the last level. Each level turns
   * its frontier into the next one as `LevelExpanded` says.
   */
  ghost predicate LevelChain(lib: UrlLib, domain: string, maxDepth: int, maxPages: int, fetch: Fetch,
                             frontiers: seq<set<Url>>, visits: seq<set<Url>>, known: seq<set<Url>>)
  {
    && |frontiers| >= 1 && |visits| == |frontiers| && |known| == |frontiers|
    && forall d :: 0 <= d < |frontiers| - 1 ==>
         LevelExpanded(lib, domain, maxDepth, maxPages, fetch, d, frontiers[d], frontiers[d + 1],
                       visits[d], visits[d + 1], known[d], known[d + 1])
  }

  /** A chain grows by one level. */
  lemma LevelChainSnoc(lib: UrlLib, domain: string, maxDepth: int, maxPages: int, fetch: Fetch,
                       frontiers: seq<set<Url>>, visits: seq<set<Url>>, known: seq<set<Url>>,
                       next: set<Url>, vis: set<Url>, kn: set<Url>)
    requires LevelChain(lib, domain, maxDepth, maxPages, fetch, frontiers, visits, known)
    requires var n := |frontiers| - 1;
      LevelExpanded(lib, domain, maxDepth, maxPages, fetch, n, frontiers[n], next, visits[n], vis, known[n], kn)
    ensures LevelChain(lib, domain, maxDepth, maxPages, fetch, frontiers + [next], visits + [vis], known + [kn])
  {
  }

  /** The levels before `n` form a chain too. */
  lemma LevelChainPrefix(lib: UrlLib, domain: string, maxDepth: int, maxPages: int, fetch: Fetch,
                         frontiers: seq<set<Url>>, visits: seq<set<Url>>, known: seq<set<Url>>, n: nat)
    requires LevelChain(lib, domain, maxDepth, maxPages, fetch, frontiers, visits, known)
    requires 1 <= n <= |frontiers|
    ensures LevelChain(lib, domain, maxDepth, maxPages, fetch, frontiers[..n], visits[..n], known[..n])
  {
  }

  /**
   * Along a chain the discovered set only grows, every frontier after the
   * first is newly discovered, and no URL is in two such frontiers.
   */
  lemma {:induction false} LevelChainDiscovers(lib: UrlLib, domain: string, maxDepth: int, maxPages: int,
                                               fetch: Fetch, frontiers: seq<set<Url>>, visits: seq<set<Url>>,
                                               known: seq<set<Url>>)
    requires LevelChain(lib, domain, maxDepth, maxPages, fetch, frontiers, visits, known)
    ensures forall i, j :: 0 <= i <= j < |known| ==> known[i] <= known[j]
    ensures forall d :: 1 <= d < |frontiers| ==> frontiers[d] <= known[d] - known[d - 1]
    ensures forall d :: 1 <= d < |frontiers| ==> frontiers[d] <= known[|known| - 1] - known[0]
    ensures forall d, e :: 1 <= d < e < |frontiers| ==> frontiers[d] !! frontiers[e]
  {
    var n := |frontiers| - 1;
    if n > 0 {
      LevelChainPrefix(lib, domain, maxDepth, maxPages, fetch, frontiers, visits, known, n);
      LevelChainDiscovers(lib, domain, maxDepth, maxPages, fetch, frontiers[..n], visits[..n], known[..n]);
      assert LevelExpanded(lib, domain, maxDepth, maxPages, fetch, n - 1, frontiers[n - 1], frontiers[n],
                           visits[n - 1], visits[n], known[n - 1], known[n]);
      forall i, j | 0 <= i <= j < |known|
        ensures known[i] <= known[j]
      {
        if j == n && i < n {
          assert known[..n][i] <= known[..n][n - 1];
        } else if j < n {
          assert known[..n][i] <= known[..n][j];
        }
      }
      forall d | 1 <= d < |frontiers|
        ensures frontiers[d] <= known[d] - known[d - 1]
      {
        if d < n {
          assert frontiers[..n][d] <= known[..n][d] - known[..n][d - 1];
        }
      }
      forall d, e | 1 <= d < e < |frontiers|
        ensures frontiers[d] !! frontiers[e]
      {
        assert frontiers[d] <= known[d] - known[d - 1];
        assert known[d] <= known[e - 1];
        assert frontiers[e] <= known[e] - known[e - 1];
      }
    }
  }

  /**
   * Every page a chain visits lay in the frontier of the level that visited
   * it, and its request succeeded.
   */
  lemma {:induction false} LevelChainVisits(lib: UrlLib, domain: string, maxDepth: int, maxPages: int,
                                            fetch: Fetch, frontiers: seq<set<Url>>, visits: seq<set<Url>>,
                                            known: seq<set<Url>>)
    requires LevelChain(lib, domain, maxDepth, maxPages, fetch, frontiers, visits, known)
    ensures forall i, j :: 0 <= i <= j < |visits| ==> visits[i] <= visits[j]
    ensures forall u :: u in visits[|visits| - 1] && u !in visits[0] ==>
      !RequestFailed(fetch(u)) && exists d :: 0 <= d < |frontiers| - 1 && u in frontiers[d]
  {
    var n := |frontiers| - 1;
    if n > 0 {
      LevelChainPrefix(lib, domain, maxDepth, maxPages, fetch, frontiers, visits, known, n);
      LevelChainVisits(lib, domain, maxDepth, maxPages, fetch, frontiers[..n], visits[..n], known[..n]);
      assert LevelExpanded(lib, domain, maxDepth, maxPages, fetch, n - 1, frontiers[n - 1], frontiers[n],
                           visits[n - 1], visits[n], known[n - 1], known[n]);
      forall i, j | 0 <= i <= j < |visits|
        ensures visits[i] <= visits[j]
      {
        if j == n && i < n {
          assert visits[..n][i] <= visits[..n][n - 1];
        } else if j < n {
          assert visits[..n][i] <= visits[..n][j];
        }
      }
      forall u | u in visits[n] && u !in visits[0]
        ensures !RequestFailed(fetch(u)) && exists d :: 0 <= d < n && u in frontiers[d]
      {
        if u in visits[n - 1] {
          var vs, fs := visits[..n], frontiers[..n];
          assert |fs| == |vs| == n && vs[n - 1] == visits[n - 1] && vs[0] == visits[0];
          assert u in vs[|vs| - 1] && u !in vs[0];
          var d :| 0 <= d < |fs| - 1 && u in fs[d];
          assert u in frontiers[d];
        } else {
          assert u in frontiers[n - 1];
        }
      }
    }
  }

  /**
   * Within `max_depth` levels the `depth > max_depth` guard never fires: a
   * frontier page that a level left unvisited failed or met the page budget.
   */
  lemma LevelChainGuard(lib: UrlLib, domain: string, maxDepth: int, maxPages: int, fetch: Fetch,
                        frontiers: seq<set<Url>>, visits: seq<set<Url>>, known: seq<set<Url>>)
    requires LevelChain(lib, domain, maxDepth, maxPages, fetch, frontiers, visits, known)
    requires |frontiers| - 1 <= maxDepth
    ensures forall d, u :: 0 <= d < |frontiers| - 1 && u in frontiers[d] ==>
      u in visits[d + 1] || RequestFailed(fetch(u)) || |visits[d + 1]| >= maxPages
  {
    forall d, u | 0 <= d < |frontiers| - 1 && u in frontiers[d]
      ensures u in visits[d + 1] || RequestFailed(fetch(u)) || |visits[d + 1]| >= maxPages
    {
      assert LevelExpanded(lib, domain, maxDepth, maxPages, fetch, d, frontiers[d], frontiers[d + 1],
                           visits[d], visits[d + 1], known[d], known[d + 1]);
    }
  }

  class WebCrawler {
    const lib: UrlLib
    const baseUrl: Url
    const maxDepth: int
    const maxPages: int
    const domain: string
    var visited: set<Url>
    var allUrls: set<Url>

    /** Every discovered URL passes the filter, and the page budget holds. */
    ghost predicate Valid()
      reads this
    {
      && domain != ""
      && (forall u :: u in allUrls ==> IsValidUrl(lib, domain, u))
      && |visited| <= Budget(maxPages)
    }

    constructor (lib: UrlLib, baseUrl: Url, maxDepth: int, maxPages: int)
      requires lib.netloc(baseUrl) != ""
      ensures Valid()
      ensures this.lib == lib && this.baseUrl == baseUrl
      ensures this.maxDepth == maxDepth && this.maxPages == maxPages
      ensures domain == lib.netloc(baseUrl)
      ensures visited == {} && allUrls == {}
    {
      this.lib := lib;
      this.baseUrl := baseUrl;
      this.maxDepth := maxDepth;
      this.maxPages := maxPages;
      this.domain := lib.netloc(baseUrl);
      visited := {};
      allUrls := {};
    }

    /** The guard of `extract_urls` that returns before any request. */
    predicate Skips(url: Url, depth: int)
      reads this
    {
      url in visited || depth > maxDepth || |visited| >= maxPages
    }

    /** `extract_urls`: expand one page against the visited and discovered sets. */
    method ExtractUrls(fetch: Fetch, url: Url, depth: int) returns (pageUrls: set<Url>)
      requires Valid()
      modifies this`visited, this`allUrls
      ensures Valid()
      ensures old(Skips(url, depth)) || RequestFailed(fetch(url)) ==>
        pageUrls == {} && visited == old(visited) && allUrls == old(allUrls)
      ensures !old(Skips(url, depth)) && !RequestFailed(fetch(url)) ==>
        && visited == old(visited) + {url}
        && pageUrls == NewLinks(lib, domain, url, fetch(url).value.hrefs, old(allUrls))
      ensures allUrls == old(allUrls) + pageUrls && pageUrls !! old(allUrls)
      ensures forall u :: u in pageUrls ==> IsValidUrl(lib, domain, u)
      ensures old(visited) <= visited <= old(visited) + {url}
      ensures visited == old(visited) ==> pageUrls == {}
      ensures visited != old(visited) ==>
        && !RequestFailed(fetch(url))
        && (forall h :: h in fetch(url).value.hrefs && IsValidUrl(lib, domain, lib.join(url, h)) ==>
              lib.join(url, h) in allUrls)
        && (forall n :: n in pageUrls ==> exists h :: h in fetch(url).value.hrefs && n == lib.join(url, h))
    {
      if url in visited || depth > maxDepth || |visited| >= maxPages {
        return {};
      }
      var response := fetch(url);
      if response.None? || 400 <= response.value.status < 600 {
        return {};
      }
      visited := visited + {url};
      NewLinksCover(lib, domain, url, response.value.hrefs, allUrls);
      pageUrls := CollectLinks(url, response.value.hrefs);
    }

    /** The `for link in ...` loop of `extract_urls`, which grows `all_urls` as it goes. */
    method CollectLinks(url: Url, hrefs: seq<string>) returns (pageUrls: set<Url>)
      requires Valid()
      modifies this`allUrls
      ensures Valid()
      ensures pageUrls == NewLinks(lib, domain, url, hrefs, old(allUrls))
      ensures allUrls == old(allUrls) + pageUrls && pageUrls !! old(allUrls)
    {
      // Copies of the constant fields keep the loop's proof obligations small.
      var urlLib, dom := lib, domain;
      pageUrls := {};
      var i := 0;
      while i < |hrefs|
        invariant 0 <= i <= |hrefs|
        invariant pageUrls == NewLinks(urlLib, dom, url, hrefs[..i], old(allUrls))
        invariant allUrls == old(allUrls) + pageUrls
        invariant pageUrls !! old(allUrls)
        invariant Valid()
      {
        var full := urlLib.join(url, hrefs[i]);
        NewLinksSnoc(urlLib, dom, url, hrefs[..i], hrefs[i], old(allUrls));
        assert hrefs[..i + 1] == hrefs[..i] + [hrefs[i]];
        if IsValidUrl(urlLib, dom, full) && full !in allUrls {
          pageUrls := pageUrls + {full};
          allUrls := allUrls + {full};
        }
        i := i + 1;
      }
      assert hrefs[..i] == hrefs;
    }

    /**
     * One pass of the depth loop of `crawl`: `extract_urls` on every URL of
     * the frontier, one after another in an arbitrary order, collecting what
     * they return.
     */
    method ExpandLevel(fetch: Fetch, current: set<Url>, depth: int) returns (next: set<Url>)
      requires Valid()
      modifies this`visited, this`allUrls
      ensures Valid()
      ensures LevelExpanded(lib, domain, maxDepth, maxPages, fetch, depth, current, next,
                            old(visited), visited, old(allUrls), allUrls)
    {
      next := {};
      var pending := current;
      ghost var done: set<Url> := {};
      while pending != {}
        invariant Valid()
        invariant current == done + pending
        invariant LevelExpanded(lib, domain, maxDepth, maxPages, fetch, depth, done, next,
                                old(visited), visited, old(allUrls), allUrls)
        decreases pending
      {
        var u :| u in pending;
        var found := ExpandPage(fetch, u, depth, done, next, old(visited), old(allUrls));
        next := next + found;
        pending := pending - {u};
        done := done + {u};
      }
      assert done == current;
    }

    /**
     * One job of the level's thread pool: `extract_urls` on `u`, whose
     * result joins the next frontier. `LevelExpanded` grows by that page.
     */
    method ExpandPage(fetch: Fetch, u: Url, depth: int, ghost done: set<Url>, ghost next: set<Url>,
                      ghost visStart: set<Url>, ghost knownStart: set<Url>)
      returns (found: set<Url>)
      requires Valid()
      requires LevelExpanded(lib, domain, maxDepth, maxPages, fetch, depth, done, next,
                             visStart, visited, knownStart, allUrls)
      modifies this`visited, this`allUrls
      ensures Valid()
      ensures LevelExpanded(lib, domain, maxDepth, maxPages, fetch, depth, done + {u}, next + found,
                            visStart, visited, knownStart, allUrls)
    {
      ghost var visitedBefore, allBefore := visited, allUrls;
      found := ExtractUrls(fetch, u, depth);
      LevelExpandedStep(lib, domain, maxDepth, maxPages, fetch, depth, done, u, next, found,
                        visStart, visitedBefore, visited, knownStart, allBefore, allUrls);
    }

    /**
     * `crawl`: expand the frontier level by level, then list every discovered
     * URL in sorted order. `frontiers` holds each value `current_urls` took,
     * the start page first; `visits` and `known` hold the visited and
     * discovered sets before each level and, last, after the crawl.
     */
    method Crawl(fetch: Fetch) returns (lines: seq<Url>, ghost frontiers: seq<set<Url>>,
                                        ghost visits: seq<set<Url>>, ghost known: seq<set<Url>>)
      requires Valid()
      modifies this`visited, this`allUrls
      ensures Valid()
      ensures Ordering.StrictlyIncreasing(lines)
      ensures forall u :: u in lines <==> u in allUrls
      ensures |lines| == |allUrls|
      ensures LevelChain(lib, domain, maxDepth, maxPages, fetch, frontiers, visits, known)
      ensures frontiers[0] == {baseUrl}
      ensures visits[0] == old(visited) && visits[|visits| - 1] == visited
      ensures known[0] == old(allUrls) && known[|known| - 1] == allUrls
      ensures |frontiers| - 1 <= Budget(maxDepth)
      ensures |frontiers| - 1 < maxDepth ==> frontiers[|frontiers| - 1] == {}
      ensures forall d :: 0 <= d < |frontiers| - 1 ==> frontiers[d] != {}
    {
      var current: set<Url> := {baseUrl};
      frontiers, visits, known := [current], [visited], [allUrls];
      var depth := 0;
      while depth < maxDepth
        invariant Valid()
        invariant 0 <= depth <= Budget(maxDepth) && |frontiers| == depth + 1
        invariant frontiers[0] == {baseUrl} && current == frontiers[depth]
        invariant forall d :: 0 <= d < |frontiers| ==> frontiers[d] != {}
        invariant LevelChain(lib, domain, maxDepth, maxPages, fetch, frontiers, visits, known)
        invariant visits[0] == old(visited) && visits[depth] == visited
        invariant known[0] == old(allUrls) && known[depth] == allUrls
        decreases maxDepth - depth
      {
        current := ExpandLevel(fetch, current, depth);
        LevelChainSnoc(lib, domain, maxDepth, maxPages, fetch, frontiers, visits, known, current, visited, allUrls);
        frontiers, visits, known := frontiers + [current], visits + [visited], known + [allUrls];
        if current == {} {
          break;
        }
        depth := depth + 1;
      }
      lines := Ordering.SortedList(allUrls);
    }
  }

  /** The constructor's error path: `domain` empty raises `ValueError`. */
  method NewCrawler(lib: UrlLib, baseUrl: Url, maxDepth: int, maxPages: int) returns (r: Option<WebCrawler>)
    ensures r.None? <==> lib.netloc(baseUrl) == ""
    ensures r.Some? ==>
      && fresh(r.value) && r.value.Valid()
      && r.value.domain == lib.netloc(baseUrl) && r.value.baseUrl == baseUrl
      && r.value.maxDepth == maxDepth && r.value.maxPages == maxPages
      && r.value.visited == {} && r.value.allUrls == {}
  {
    if lib.netloc(baseUrl) == "" {
      return None;
    }
    var c := new WebCrawler(lib, baseUrl, maxDepth, maxPages);
    return Some(c);
  }
}
