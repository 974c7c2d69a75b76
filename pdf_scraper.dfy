/**
 * The PDF acquirer of research/PdfExtractor.py: `PDFScraper`, which fetches
 * the PDF links of a page list, names and stores each document without
 * overwriting anything, drops byte-identical duplicates and keeps an
 * append-only history of accepted URLs; and `LoadUrls`, which reads the
 * page list.
 */
module PdfExtractor {
  import opened Wrappers
  import opened Text

  newtype byte = n: int | 0 <= n < 256

  type Url = string
  type Bytes = seq<byte>

  /** The output directory: file name to contents. */
  type Directory = map<string, Bytes>

  /** The library calls the acquirer makes, left uninterpreted. */
  datatype Libs = Libs(
    join: (Url, string) -> Url,      // urljoin(base, href)
    basename: Url -> string,         // os.path.basename(urlparse(url).path)
    urlDigest: Url -> string,        // hashlib.md5(url.encode()).hexdigest()
    fileDigest: Bytes -> string)     // _calculate_file_hash, MD5 of the stored bytes

  /**
   * A streamed PDF response: status, the first `filename="..."` capture of
   * the Content-Disposition header (`None` when the header is absent or does
   * not match), and the body.
   */
  datatype Download = Download(status: int, disposition: Option<string>, body: Bytes)

  /** `requests.get(url, stream=True)`; `None` when it raises. */
  type FetchPdf = Url -> Option<Download>

  /** An `<a>` element: its `href` attribute if it has one, and its `class` list. */
  datatype Anchor = Anchor(href: Option<string>, classes: seq<string>)

  /** An element of the parsed page with the anchors inside it, in document order. */
  datatype Element = Element(tag: string, classes: seq<string>, anchors: seq<Anchor>)

  /** A fetched HTML page: status, and its elements as the parser lists them. */
  datatype Page = Page(status: int, elements: seq<Element>)

  /** `requests.get(url)` plus the parser; `None` when the request raises. */
  type FetchPage = Url -> Option<Page>

  predicate Fetched(r: Option<Download>) {
    r.Some? && r.value.status == 200
  }

  predicate PageFetched(r: Option<Page>) {
    r.Some? && r.value.status == 200
  }

  // ---------------------------------------------------------------------------
  // Choosing a file name

  /** `name.lower().endswith('.pdf')` */
  predicate IsPdfName(name: string) {
    EndsWith(Lower(name), ".pdf")
  }

  lemma PdfSuffixIsPdfName(stem: string)
    ensures IsPdfName(stem + ".pdf")
  {
  }

  /** `download_pdf`'s extension rule: `.pdf` is appended unless the name already ends in it, in any case. */
  function WithPdfExtension(name: string): (r: string)
    ensures IsPdfName(r)
    ensures r == name || r == name + ".pdf"
    ensures IsPdfName(name) <==> r == name
  {
    if IsPdfName(name) then name
    else
      PdfSuffixIsPdfName(name);
      name + ".pdf"
  }

  /** Python truthiness of an optional string: present and non-empty. */
  predicate Named(s: Option<string>) {
    s.Some? && s.value != ""
  }

  /**
   * `download_pdf`'s choice of a file name: the caller's name, else the
   * advertised Content-Disposition name, else the URL's basename when it
   * already names a PDF, else the MD5 hex digest of the URL; then `.pdf`
   * enforced.
   */
  function ChooseFilename(lib: Libs, url: Url, given: Option<string>, advertised: Option<string>): (name: string)
    ensures IsPdfName(name)
  {
    var picked :=
      if Named(given) then given.value
      else if Named(advertised) then advertised.value
      else if lib.basename(url) != "" && IsPdfName(lib.basename(url)) then lib.basename(url)
      else lib.urlDigest(url) + ".pdf";
    WithPdfExtension(picked)
  }

  /** The priority order of the sources of a file name. */
  lemma FilenamePriority(lib: Libs, url: Url, given: Option<string>, advertised: Option<string>)
    ensures var name := ChooseFilename(lib, url, given, advertised);
      var base := lib.basename(url);
      && (Named(given) ==>
            (name == given.value || name == given.value + ".pdf") && (IsPdfName(given.value) <==> name == given.value))
      && (!Named(given) && Named(advertised) ==>
            (name == advertised.value || name == advertised.value + ".pdf")
            && (IsPdfName(advertised.value) <==> name == advertised.value))
      && (!Named(given) && !Named(advertised) && base != "" && IsPdfName(base) ==> name == base)
      && (!Named(given) && !Named(advertised) && (base == "" || !IsPdfName(base)) ==>
            name == lib.urlDigest(url) + ".pdf")
  {
    PdfSuffixIsPdfName(lib.urlDigest(url));
  }

  // ---------------------------------------------------------------------------
  // Resolving a file-name collision

  /** `filename.replace('.pdf', '')` */
  function Stem(name: string): string {
    RemoveAll(name, ".pdf")
  }

  /** `f"{original_filename}_{counter}.pdf"` */
  function Candidate(stem: string, k: nat): string {
    stem + "_" + NatToString(k) + ".pdf"
  }

  lemma CandidateInjective(stem: string, j: nat, k: nat)
    requires Candidate(stem, j) == Candidate(stem, k)
    ensures j == k
  {
    var a, b := Candidate(stem, j), Candidate(stem, k);
    var n := |stem| + 1;
    assert |NatToString(j)| == |NatToString(k)|;
    assert NatToString(j) == a[n..|a| - 4] == b[n..|b| - 4] == NatToString(k);
    NatToStringInjective(j, k);
  }

  /** The first `n` suffixed candidates. */
  function CandidatesUpTo(stem: string, n: nat): set<string> {
    if n == 0 then {} else CandidatesUpTo(stem, n - 1) + {Candidate(stem, n)}
  }

  lemma {:induction false} CandidatesUpToMembers(stem: string, n: nat, x: string)
    ensures x in CandidatesUpTo(stem, n) <==> exists j: nat :: 1 <= j <= n && x == Candidate(stem, j)
  {
    if n > 0 {
      CandidatesUpToMembers(stem, n - 1, x);
    }
  }

  /** The first `n` candidates are `n` different names. */
  lemma {:induction false} CandidatesUpToSize(stem: string, n: nat)
    ensures |CandidatesUpTo(stem, n)| == n
  {
    if n > 0 {
      CandidatesUpToSize(stem, n - 1);
      if Candidate(stem, n) in CandidatesUpTo(stem, n - 1) {
        CandidatesUpToMembers(stem, n - 1, Candidate(stem, n));
        var j: nat :| 1 <= j <= n - 1 && Candidate(stem, n) == Candidate(stem, j);
        CandidateInjective(stem, j, n);
      }
    }
  }

  lemma SubsetSize<T>(a: set<T>, b: set<T>)
    requires a <= b
    ensures |a| <= |b|
  {
    assert b == a + (b - a);
  }

  /**
   * `path` is where `download_pdf`'s collision loop puts a file first named
   * `filename`: the name itself when it is free, otherwise the first free
   * suffixed candidate.
   */
  ghost predicate Resolves(dir: Directory, filename: string, path: string) {
    && path !in dir
    && (filename !in dir ==> path == filename)
    && (filename in dir ==>
          exists k: nat :: 1 <= k && path == Candidate(Stem(filename), k)
            && forall j: nat :: 1 <= j < k ==> Candidate(Stem(filename), j) in dir)
  }

  /** The collision rule picks one path. */
  lemma ResolvesUnique(dir: Directory, filename: string, p: string, q: string)
    requires Resolves(dir, filename, p) && Resolves(dir, filename, q)
    ensures p == q
  {
  }

  /** A resolved path still names a PDF. */
  lemma ResolvesToPdfName(dir: Directory, filename: string, path: string)
    requires IsPdfName(filename) && Resolves(dir, filename, path)
    ensures IsPdfName(path)
  {
  }

  /** `download_pdf`'s `while os.path.exists(filepath)` loop. */
  method ResolveCollision(dir: Directory, filename: string) returns (path: string)
    ensures Resolves(dir, filename, path)
  {
    var counter: nat := 1;
    var stem := Stem(filename);
    path := filename;
    while path in dir
      invariant counter >= 1
      invariant path == if counter == 1 then filename else Candidate(stem, counter - 1)
      invariant counter > 1 ==> filename in dir
      invariant forall j: nat :: 1 <= j < counter - 1 ==> Candidate(stem, j) in dir
      decreases |dir.Keys| + 2 - counter
    {
      if counter > 1 {
        forall x | x in CandidatesUpTo(stem, counter - 1)
          ensures x in dir.Keys
        {
          CandidatesUpToMembers(stem, counter - 1, x);
        }
        CandidatesUpToSize(stem, counter - 1);
        SubsetSize(CandidatesUpTo(stem, counter - 1), dir.Keys);
      }
      path := Candidate(stem, counter);
      counter := counter + 1;
    }
    if counter > 1 {
      assert exists k: nat :: (1 <= k && path == Candidate(stem, k)
        && forall j: nat :: 1 <= j < k ==> Candidate(stem, j) in dir)
      by {
        assert path == Candidate(stem, counter - 1);
      }
    }
  }

  // ---------------------------------------------------------------------------
  // Extracting the PDF links of a page

  /** `soup.select("span.pdf-downloads")` as a test on one element. */
  predicate IsPdfContainer(e: Element) {
    e.tag == "span" && "pdf-downloads" in e.classes
  }

  /** The anchor test of `extract_pdf_links`: a non-empty href that mentions `.pdf` in any case, or the class `download`. */
  predicate IsPdfAnchor(a: Anchor) {
    a.href.Some? && a.href.value != ""
    && (Contains(Lower(a.href.value), ".pdf") || "download" in a.classes)
  }

  function AnchorLinks(join: (Url, string) -> Url, base: Url, anchors: seq<Anchor>): seq<Url> {
    if anchors == [] then []
    else
      (if IsPdfAnchor(anchors[0]) then [join(base, anchors[0].href.value)] else [])
      + AnchorLinks(join, base, anchors[1..])
  }

  /** What `extract_pdf_links` returns for a parsed page. */
  function PdfLinks(join: (Url, string) -> Url, base: Url, elements: seq<Element>): seq<Url> {
    if elements == [] then []
    else
      (if IsPdfContainer(elements[0]) then AnchorLinks(join, base, elements[0].anchors) else [])
      + PdfLinks(join, base, elements[1..])
  }

  /** Document order: the links of consecutive anchors are consecutive. */
  lemma {:induction false} AnchorLinksAppend(join: (Url, string) -> Url, base: Url, a: seq<Anchor>, b: seq<Anchor>)
    ensures AnchorLinks(join, base, a + b) == AnchorLinks(join, base, a) + AnchorLinks(join, base, b)
  {
    if a == [] {
      assert a + b == b;
    } else {
      assert (a + b)[0] == a[0];
      assert (a + b)[1..] == a[1..] + b;
      AnchorLinksAppend(join, base, a[1..], b);
    }
  }

  /** Document order: the links of consecutive elements are consecutive. */
  lemma {:induction false} PdfLinksAppend(join: (Url, string) -> Url, base: Url, a: seq<Element>, b: seq<Element>)
    ensures PdfLinks(join, base, a + b) == PdfLinks(join, base, a) + PdfLinks(join, base, b)
  {
    if a == [] {
      assert a + b == b;
    } else {
      assert (a + b)[0] == a[0];
      assert (a + b)[1..] == a[1..] + b;
      PdfLinksAppend(join, base, a[1..], b);
    }
  }

  lemma {:induction false} AnchorLinksMembers(join: (Url, string) -> Url, base: Url, anchors: seq<Anchor>, u: Url)
    ensures u in AnchorLinks(join, base, anchors) <==>
      exists a :: a in anchors && IsPdfAnchor(a) && u == join(base, a.href.value)
  {
    if anchors != [] {
      AnchorLinksMembers(join, base, anchors[1..], u);
      assert forall a :: a in anchors <==> a == anchors[0] || a in anchors[1..];
    }
  }

  /**
   * A URL is extracted exactly when some qualifying anchor of some
   * `span.pdf-downloads` element resolves to it.
   */
  lemma {:induction false} PdfLinksMembers(join: (Url, string) -> Url, base: Url, elements: seq<Element>, u: Url)
    ensures u in PdfLinks(join, base, elements) <==>
      exists e, a :: e in elements && IsPdfContainer(e) && a in e.anchors && IsPdfAnchor(a)
        && u == join(base, a.href.value)
  {
    if elements != [] {
      PdfLinksMembers(join, base, elements[1..], u);
      AnchorLinksMembers(join, base, elements[0].anchors, u);
      assert forall e :: e in elements <==> e == elements[0] || e in elements[1..];
    }
  }

  // ---------------------------------------------------------------------------
  // The scraper

  function Sum(s: seq<nat>): nat {
    if s == [] then 0 else Sum(s[..|s| - 1]) + s[|s| - 1]
  }

  // ---------------------------------------------------------------------------
  // What a run of downloads does to the scraper's bookkeeping

  /** The scraper's bookkeeping: downloaded URLs, content digests of this run, history lines. */
  datatype Record = Record(urls: set<Url>, hashes: set<string>, history: seq<Url>)

  /** The test `download_pdf` makes of `url`: new, answered with 200, and with unseen bytes. */
  predicate Admits(lib: Libs, fetch: FetchPdf, r: Record, url: Url) {
    url !in r.urls && Fetched(fetch(url)) && lib.fileDigest(fetch(url).value.body) !in r.hashes
  }

  /** The bookkeeping after `download_pdf(url)`. */
  function Admit(lib: Libs, fetch: FetchPdf, r: Record, url: Url): Record {
    if Admits(lib, fetch, r, url) then
      Record(r.urls + {url}, r.hashes + {lib.fileDigest(fetch(url).value.body)}, r.history + [url])
    else r
  }

  /** The bookkeeping after `download_pdf` on each of `links` in turn. */
  function Downloads(lib: Libs, fetch: FetchPdf, r: Record, links: seq<Url>): Record
    decreases |links|
  {
    if links == [] then r
    else Admit(lib, fetch, Downloads(lib, fetch, r, links[..|links| - 1]), links[|links| - 1])
  }

  /** The links `scrape_page(url)` tries: those of the page, none when the page request fails. */
  function PageLinks(join: (Url, string) -> Url, fetchPage: FetchPage, url: Url): seq<Url> {
    if PageFetched(fetchPage(url)) then PdfLinks(join, url, fetchPage(url).value.elements) else []
  }

  /**
   * A run of downloads only adds: URLs, digests and history lines grow, by
   * one digest per history line, at most one line per link, and every new
   * line is one of the links, not known before, and not repeated.
   */
  lemma {:induction false} DownloadsGrow(lib: Libs, fetch: FetchPdf, r: Record, links: seq<Url>)
    ensures var r' := Downloads(lib, fetch, r, links);
      && r.urls <= r'.urls && r.hashes <= r'.hashes && r.history <= r'.history
      && |r'.history| - |r.history| == |r'.hashes| - |r.hashes| <= |links|
      && (forall k :: |r.history| <= k < |r'.history| ==>
            r'.history[k] in links && r'.history[k] !in r.urls && r'.history[k] in r'.urls)
      && (forall i, j :: |r.history| <= i < j < |r'.history| ==> r'.history[i] != r'.history[j])
  {
    if links != [] {
      var n := |links| - 1;
      var mid := Downloads(lib, fetch, r, links[..n]);
      DownloadsGrow(lib, fetch, r, links[..n]);
      var r' := Admit(lib, fetch, mid, links[n]);
      assert forall k :: |r.history| <= k < |mid.history| ==> r'.history[k] == mid.history[k];
      assert forall u :: u in links[..n] ==> u in links;
    }
  }

  /** Afterwards no link of the run would be accepted again. */
  lemma {:induction false} DownloadsComplete(lib: Libs, fetch: FetchPdf, r: Record, links: seq<Url>)
    ensures forall l :: l in links ==> !Admits(lib, fetch, Downloads(lib, fetch, r, links), l)
  {
    if links != [] {
      var n := |links| - 1;
      DownloadsComplete(lib, fetch, r, links[..n]);
      assert links == links[..n] + [links[n]];
    }
  }

  /**
   * `stages[i]` is the bookkeeping before page `urls[i]` and `stages[i + 1]`
   * the bookkeeping after `scrape_page` on it.
   */
  ghost predicate ScrapeStages(lib: Libs, fetchPdf: FetchPdf, fetchPage: FetchPage, urls: seq<Url>, stages: seq<Record>) {
    && |stages| == |urls| + 1
    && forall i :: 0 <= i < |urls| ==>
         stages[i + 1] == Downloads(lib, fetchPdf, stages[i], PageLinks(lib.join, fetchPage, urls[i]))
  }

  /** One more page extends the stages by the bookkeeping after it. */
  lemma StagesSnoc(lib: Libs, fetchPdf: FetchPdf, fetchPage: FetchPage, urls: seq<Url>, stages: seq<Record>, url: Url)
    requires ScrapeStages(lib, fetchPdf, fetchPage, urls, stages)
    ensures ScrapeStages(lib, fetchPdf, fetchPage, urls + [url],
                         stages + [Downloads(lib, fetchPdf, stages[|urls|], PageLinks(lib.join, fetchPage, url))])
  {
  }

  /**
   * `perPage[j]` counts the history lines page `urls[j]` added: at most one
   * per PDF link of the page, and as many as the digests it added.
   */
  ghost predicate PagesScraped(lib: Libs, fetchPdf: FetchPdf, fetchPage: FetchPage,
                               urls: seq<Url>, perPage: seq<nat>, stages: seq<Record>)
  {
    && ScrapeStages(lib, fetchPdf, fetchPage, urls, stages)
    && |perPage| == |urls|
    && (forall j :: 0 <= j < |urls| ==> perPage[j] == |stages[j + 1].history| - |stages[j].history|)
    && (forall j :: 0 <= j < |urls| ==> perPage[j] <= |PageLinks(lib.join, fetchPage, urls[j])|)
    && stages[0].history <= stages[|urls|].history
    && Sum(perPage) == |stages[|urls|].history| - |stages[0].history|
    && Sum(perPage) == |stages[|urls|].hashes| - |stages[0].hashes|
  }

  /** `scrape_page` on one more page extends `PagesScraped`. */
  lemma PagesScrapedSnoc(lib: Libs, fetchPdf: FetchPdf, fetchPage: FetchPage,
                         urls: seq<Url>, perPage: seq<nat>, stages: seq<Record>, url: Url, count: nat)
    requires PagesScraped(lib, fetchPdf, fetchPage, urls, perPage, stages)
    requires count == |Downloads(lib, fetchPdf, stages[|urls|], PageLinks(lib.join, fetchPage, url)).history|
                      - |stages[|urls|].history|
    ensures PagesScraped(lib, fetchPdf, fetchPage, urls + [url], perPage + [count],
                         stages + [Downloads(lib, fetchPdf, stages[|urls|], PageLinks(lib.join, fetchPage, url))])
  {
    var n := |urls|;
    var next := Downloads(lib, fetchPdf, stages[n], PageLinks(lib.join, fetchPage, url));
    DownloadsGrow(lib, fetchPdf, stages[n], PageLinks(lib.join, fetchPage, url));
    StagesSnoc(lib, fetchPdf, fetchPage, urls, stages, url);
    assert (perPage + [count])[..n] == perPage;
  }

  /** Across pages the bookkeeping only grows. */
  lemma {:induction false} StagesGrow(lib: Libs, fetchPdf: FetchPdf, fetchPage: FetchPage,
                                      urls: seq<Url>, stages: seq<Record>)
    requires ScrapeStages(lib, fetchPdf, fetchPage, urls, stages)
    ensures forall i :: 0 <= i < |stages| ==>
      stages[i].urls <= stages[|urls|].urls && stages[i].hashes <= stages[|urls|].hashes
  {
    var n := |urls|;
    if n > 0 {
      assert ScrapeStages(lib, fetchPdf, fetchPage, urls[..n - 1], stages[..n]);
      StagesGrow(lib, fetchPdf, fetchPage, urls[..n - 1], stages[..n]);
      DownloadsGrow(lib, fetchPdf, stages[n - 1], PageLinks(lib.join, fetchPage, urls[n - 1]));
      forall i | 0 <= i < n
        ensures stages[i].urls <= stages[n].urls && stages[i].hashes <= stages[n].hashes
      {
        assert stages[..n][i] == stages[i];
      }
    }
  }

  /** At the end no PDF link of any of the pages would be accepted again. */
  lemma StagesComplete(lib: Libs, fetchPdf: FetchPdf, fetchPage: FetchPage,
                       urls: seq<Url>, stages: seq<Record>)
    requires ScrapeStages(lib, fetchPdf, fetchPage, urls, stages)
    ensures forall i, l :: 0 <= i < |urls| && l in PageLinks(lib.join, fetchPage, urls[i]) ==>
      !Admits(lib, fetchPdf, stages[|urls|], l)
  {
    StagesGrow(lib, fetchPdf, fetchPage, urls, stages);
    forall i, l | 0 <= i < |urls| && l in PageLinks(lib.join, fetchPage, urls[i])
      ensures !Admits(lib, fetchPdf, stages[|urls|], l)
    {
      var links := PageLinks(lib.join, fetchPage, urls[i]);
      DownloadsComplete(lib, fetchPdf, stages[i], links);
      assert stages[i + 1] == Downloads(lib, fetchPdf, stages[i], links);
      AdmitsAntitone(lib, fetchPdf, stages[i + 1], stages[|urls|], l);
    }
  }

  /** What a bookkeeping state refuses, any state that knows more refuses too. */
  lemma AdmitsAntitone(lib: Libs, fetch: FetchPdf, r: Record, r': Record, url: Url)
    requires r.urls <= r'.urls && r.hashes <= r'.hashes
    ensures Admits(lib, fetch, r', url) ==> Admits(lib, fetch, r, url)
  {
  }

  /**
   * From `r` to `r'` the history only grew, and every line added came with a
   * fetched body whose digest was unseen at `r`, is known at `r'`, and
   * differs from the digests of the other added lines.
   */
  ghost predicate FreshDigests(lib: Libs, fetch: FetchPdf, r: Record, r': Record) {
    && r.history <= r'.history
    && (forall k :: |r.history| <= k < |r'.history| ==>
          Fetched(fetch(r'.history[k])) && lib.fileDigest(fetch(r'.history[k]).value.body) !in r.hashes
          && lib.fileDigest(fetch(r'.history[k]).value.body) in r'.hashes)
    && (forall i, j :: |r.history| <= i < j < |r'.history| ==>
          lib.fileDigest(fetch(r'.history[i]).value.body) != lib.fileDigest(fetch(r'.history[j]).value.body))
  }

  /** A run of downloads records only bodies of new content, no two alike. */
  lemma {:induction false} DownloadsDigests(lib: Libs, fetch: FetchPdf, r: Record, links: seq<Url>)
    ensures FreshDigests(lib, fetch, r, Downloads(lib, fetch, r, links))
  {
    if links != [] {
      var n := |links| - 1;
      var mid := Downloads(lib, fetch, r, links[..n]);
      DownloadsDigests(lib, fetch, r, links[..n]);
      DownloadsGrow(lib, fetch, r, links[..n]);
      var r' := Admit(lib, fetch, mid, links[n]);
      assert forall k :: |r.history| <= k < |mid.history| ==> r'.history[k] == mid.history[k];
    }
  }

  /** Fresh content in two runs, one after the other, is fresh content of both together. */
  lemma FreshDigestsTrans(lib: Libs, fetch: FetchPdf, r1: Record, r2: Record, r3: Record)
    requires FreshDigests(lib, fetch, r1, r2) && FreshDigests(lib, fetch, r2, r3)
    requires r1.hashes <= r2.hashes <= r3.hashes
    ensures FreshDigests(lib, fetch, r1, r3)
  {
    assert forall k :: |r1.history| <= k < |r2.history| ==> r3.history[k] == r2.history[k];
  }

  /** Across all pages, the history lines added came with fresh content, no two alike. */
  lemma {:induction false} StagesDigests(lib: Libs, fetchPdf: FetchPdf, fetchPage: FetchPage,
                                         urls: seq<Url>, stages: seq<Record>)
    requires ScrapeStages(lib, fetchPdf, fetchPage, urls, stages)
    ensures FreshDigests(lib, fetchPdf, stages[0], stages[|urls|])
  {
    var n := |urls|;
    if n > 0 {
      assert ScrapeStages(lib, fetchPdf, fetchPage, urls[..n - 1], stages[..n]);
      StagesDigests(lib, fetchPdf, fetchPage, urls[..n - 1], stages[..n]);
      StagesGrow(lib, fetchPdf, fetchPage, urls[..n - 1], stages[..n]);
      var links := PageLinks(lib.join, fetchPage, urls[n - 1]);
      DownloadsDigests(lib, fetchPdf, stages[n - 1], links);
      DownloadsGrow(lib, fetchPdf, stages[n - 1], links);
      FreshDigestsTrans(lib, fetchPdf, stages[0], stages[n - 1], stages[n]);
    }
  }

  // ---------------------------------------------------------------------------
  // What a run of downloads does to the output directory

  /**
   * `after` is `before` plus one new file per history line from `from` on:
   * `paths[k]` was free, differs from the other new paths, names a PDF and
   * holds the body fetched for `history[from + k]`. Nothing else is added
   * and no old file changes.
   */
  ghost predicate StoredFiles(fetch: FetchPdf, before: Directory, after: Directory,
                              history: seq<Url>, from: nat, paths: seq<string>)
  {
    && from + |paths| == |history|
    && (forall k :: 0 <= k < |paths| ==>
          && paths[k] !in before && paths[k] in after && IsPdfName(paths[k])
          && fetch(history[from + k]).Some? && after[paths[k]] == fetch(history[from + k]).value.body)
    && (forall i, j :: 0 <= i < j < |paths| ==> paths[i] != paths[j])
    && (forall f :: f in after <==> f in before || f in paths)
    && (forall f :: f in before ==> f in after && after[f] == before[f])
  }

  /** Storing one more body at a free PDF name extends `StoredFiles` by its history line. */
  lemma StoredSnoc(fetch: FetchPdf, before: Directory, after: Directory, history: seq<Url>, from: nat,
                   paths: seq<string>, url: Url, path: string)
    requires StoredFiles(fetch, before, after, history, from, paths)
    requires path !in after && IsPdfName(path) && fetch(url).Some?
    ensures StoredFiles(fetch, before, after[path := fetch(url).value.body], history + [url], from, paths + [path])
  {
    var after', paths', history' := after[path := fetch(url).value.body], paths + [path], history + [url];
    forall k | 0 <= k < |paths'|
      ensures && paths'[k] !in before && paths'[k] in after' && IsPdfName(paths'[k])
              && fetch(history'[from + k]).Some? && after'[paths'[k]] == fetch(history'[from + k]).value.body
    {
      if k < |paths| {
        assert paths'[k] == paths[k] && paths[k] in after && history'[from + k] == history[from + k];
      } else {
        assert paths'[k] == path && history'[from + k] == url;
      }
    }
    forall i, j | 0 <= i < j < |paths'|
      ensures paths'[i] != paths'[j]
    {
      assert paths'[i] == paths[i] && paths[i] in after;
    }
    forall f
      ensures f in after' <==> f in before || f in paths'
    {
      assert f in paths' <==> f in paths || f == path;
    }
  }

  /** Two runs of downloads, one after the other, store what each of them stored. */
  lemma StoredConcat(fetch: FetchPdf, f0: Directory, f1: Directory, f2: Directory,
                     h1: seq<Url>, h2: seq<Url>, from: nat, p1: seq<string>, p2: seq<string>)
    requires StoredFiles(fetch, f0, f1, h1, from, p1)
    requires StoredFiles(fetch, f1, f2, h2, |h1|, p2)
    requires h1 <= h2
    ensures StoredFiles(fetch, f0, f2, h2, from, p1 + p2)
  {
    var p := p1 + p2;
    forall k | 0 <= k < |p|
      ensures && p[k] !in f0 && p[k] in f2 && IsPdfName(p[k])
              && fetch(h2[from + k]).Some? && f2[p[k]] == fetch(h2[from + k]).value.body
    {
      if k < |p1| {
        assert p[k] == p1[k] && h2[from + k] == h1[from + k];
      } else {
        assert p[k] == p2[k - |p1|] && from + k == |h1| + (k - |p1|);
      }
    }
    forall i, j | 0 <= i < j < |p|
      ensures p[i] != p[j]
    {
      if j < |p1| {
        assert p[i] == p1[i] && p[j] == p1[j];
      } else if i >= |p1| {
        assert p[i] == p2[i - |p1|] && p[j] == p2[j - |p1|];
      } else {
        assert p[i] == p1[i] && p[i] in f1;
        assert p[j] == p2[j - |p1|];
      }
    }
    forall f
      ensures f in f2 <==> f in f0 || f in p
    {
      assert f in p <==> f in p1 || f in p2;
    }
  }

  /**
   * The files a run stored hold pairwise different content, none of it seen
   * at its start: duplicate content is stored once.
   */
  lemma StoredDigests(lib: Libs, fetch: FetchPdf, r: Record, r': Record,
                      before: Directory, after: Directory, paths: seq<string>)
    requires FreshDigests(lib, fetch, r, r')
    requires StoredFiles(fetch, before, after, r'.history, |r.history|, paths)
    ensures forall k :: 0 <= k < |paths| ==> lib.fileDigest(after[paths[k]]) !in r.hashes
    ensures forall i, j :: 0 <= i < j < |paths| ==> lib.fileDigest(after[paths[i]]) != lib.fileDigest(after[paths[j]])
  {
    var h, n := r'.history, |r.history|;
    forall i, j | 0 <= i < j < |paths|
      ensures lib.fileDigest(after[paths[i]]) != lib.fileDigest(after[paths[j]])
    {
      assert after[paths[i]] == fetch(h[n + i]).value.body;
      assert after[paths[j]] == fetch(h[n + j]).value.body;
    }
    forall k | 0 <= k < |paths|
      ensures lib.fileDigest(after[paths[k]]) !in r.hashes
    {
      assert after[paths[k]] == fetch(h[n + k]).value.body;
    }
  }

  class PdfScraper {
    const lib: Libs
    var downloadedUrls: set<Url>
    var downloadedHashes: set<string>
    /**
     * The records of download_history.txt, one per line, without the line
     * terminator (which `strip` removes on loading anyway).
     */
    var history: seq<Url>
    /** The other files of the output directory. */
    var files: Directory
    /** How many history lines were there at start-up. */
    ghost const loaded: nat
    /** Those lines, stripped: the URLs the loaded history names. */
    ghost const loadedUrls: set<Url>

    /**
     * Every URL the loaded history names is known; every line appended since is a
     * known URL, no two of them equal; and each of them came with one new
     * content digest.
     */
    ghost predicate Valid()
      reads this
    {
      && loaded <= |history|
      && loadedUrls <= downloadedUrls
      && (forall i :: loaded <= i < |history| ==> history[i] in downloadedUrls)
      && (forall i, j :: loaded <= i < j < |history| ==> history[i] != history[j])
      && |downloadedHashes| == |history| - loaded
    }

    /** `__init__`: `savedHistory` is the history file's lines, empty when it does not exist. */
    constructor (lib: Libs, files: Directory, savedHistory: seq<string>)
      ensures Valid()
      ensures this.lib == lib && this.files == files
      ensures history == savedHistory && loaded == |savedHistory|
      ensures loadedUrls == set line | line in savedHistory :: Strip(line)
      ensures downloadedUrls == set line | line in savedHistory :: Strip(line)
      ensures downloadedHashes == {}
    {
      this.lib := lib;
      this.files := files;
      history := savedHistory;
      loaded := |savedHistory|;
      loadedUrls := set line | line in savedHistory :: Strip(line);
      downloadedUrls := set line | line in savedHistory :: Strip(line);
      downloadedHashes := {};
    }

    /** The bookkeeping part of the scraper's state. */
    function State(): Record
      reads this
    {
      Record(downloadedUrls, downloadedHashes, history)
    }

    /** What `download_pdf` accepts: a new URL, a 200 response, and bytes not seen this run. */
    predicate Accepts(fetch: FetchPdf, url: Url)
      reads this
    {
      Admits(lib, fetch, State(), url)
    }

    /**
     * `download_pdf`. `path` is where the body was written when it was
     * written at all; on a duplicate it was removed again.
     */
    method DownloadPdf(fetch: FetchPdf, url: Url, filename: Option<string>) returns (ok: bool, ghost path: string)
      requires Valid()
      modifies this`downloadedUrls, this`downloadedHashes, this`history, this`files
      ensures Valid()
      ensures ok == old(Accepts(fetch, url))
      ensures State() == Admit(lib, fetch, old(State()), url)
      ensures !ok ==> && downloadedUrls == old(downloadedUrls) && downloadedHashes == old(downloadedHashes)
                      && history == old(history) && files == old(files)
      ensures url !in old(downloadedUrls) && Fetched(fetch(url)) ==>
        && Resolves(old(files), ChooseFilename(lib, url, filename, fetch(url).value.disposition), path)
        && IsPdfName(path)
      ensures ok ==>
        && files == old(files)[path := fetch(url).value.body]
        && downloadedHashes == old(downloadedHashes) + {lib.fileDigest(fetch(url).value.body)}
        && downloadedUrls == old(downloadedUrls) + {url}
        && history == old(history) + [url]
      ensures forall f :: f in old(files) ==> f in files && files[f] == old(files)[f]
    {
      path := "";
      if url in downloadedUrls {
        return false, path;
      }
      var response := fetch(url);
      if response.None? || response.value.status != 200 {
        return false, path;
      }
      var download := response.value;
      var name := ChooseFilename(lib, url, filename, download.disposition);
      var target := ResolveCollision(files, name);
      path := target;
      ResolvesToPdfName(files, name, target);
      ok := Store(url, target, download.body);
    }

    /**
     * The tail of `download_pdf`, from opening the file on: write `body` at the free name `target`,
     * then either remove it again as duplicate content or record `url`.
     */
    method Store(url: Url, target: string, body: Bytes) returns (ok: bool)
      requires Valid() && url !in downloadedUrls && target !in files
      modifies this`downloadedUrls, this`downloadedHashes, this`history, this`files
      ensures Valid()
      ensures ok == (lib.fileDigest(body) !in old(downloadedHashes))
      ensures !ok ==> && downloadedUrls == old(downloadedUrls) && downloadedHashes == old(downloadedHashes)
                      && history == old(history) && files == old(files)
      ensures ok ==>
        && files == old(files)[target := body]
        && downloadedHashes == old(downloadedHashes) + {lib.fileDigest(body)}
        && downloadedUrls == old(downloadedUrls) + {url}
        && history == old(history) + [url]
    {
      files := files[target := body];
      var digest := lib.fileDigest(files[target]);
      if digest in downloadedHashes {
        files := files - {target};
        assert files == old(files);
        return false;
      }
      downloadedHashes := downloadedHashes + {digest};
      downloadedUrls := downloadedUrls + {url};
      history := history + [url];
      ok := true;
    }

    /** `extract_pdf_links`: the qualifying anchors of the PDF containers, resolved, in document order. */
    method ExtractPdfLinks(elements: seq<Element>, base: Url) returns (links: seq<Url>)
      ensures links == PdfLinks(lib.join, base, elements)
    {
      var join := lib.join;
      links := [];
      var i := 0;
      while i < |elements|
        invariant 0 <= i <= |elements|
        invariant links == PdfLinks(join, base, elements[..i])
      {
        var container := elements[i];
        PdfLinksAppend(join, base, elements[..i], [container]);
        assert elements[..i + 1] == elements[..i] + [container];
        assert [container][1..] == [];
        if IsPdfContainer(container) {
          var found := ContainerLinks(container.anchors, base);
          links := links + found;
        }
        i := i + 1;
      }
      assert elements[..i] == elements;
    }

    /** The inner loop of `extract_pdf_links`: the qualifying anchors of one container, resolved, in order. */
    method ContainerLinks(anchors: seq<Anchor>, base: Url) returns (found: seq<Url>)
      ensures found == AnchorLinks(lib.join, base, anchors)
    {
      var join := lib.join;
      found := [];
      var j := 0;
      while j < |anchors|
        invariant 0 <= j <= |anchors|
        invariant found == AnchorLinks(join, base, anchors[..j])
      {
        var link := anchors[j];
        AnchorLinksAppend(join, base, anchors[..j], [link]);
        assert anchors[..j + 1] == anchors[..j] + [link];
        assert [link][1..] == [];
        if IsPdfAnchor(link) {
          found := found + [join(base, link.href.value)];
        }
        j := j + 1;
      }
      assert anchors[..j] == anchors;
    }

    /**
     * `scrape_page`: download every PDF link of one page and count the
     * accepted ones; `paths` are the files they were stored at.
     */
    method ScrapePage(fetchPage: FetchPage, fetchPdf: FetchPdf, url: Url) returns (count: nat, ghost paths: seq<string>)
      requires Valid()
      modifies this`downloadedUrls, this`downloadedHashes, this`history, this`files
      ensures Valid()
      ensures !PageFetched(fetchPage(url)) ==>
        && count == 0 && downloadedUrls == old(downloadedUrls) && downloadedHashes == old(downloadedHashes)
        && history == old(history) && files == old(files)
      ensures PageFetched(fetchPage(url)) ==>
        && count <= |PdfLinks(lib.join, url, fetchPage(url).value.elements)|
        && forall k :: |old(history)| <= k < |history| ==> history[k] in PdfLinks(lib.join, url, fetchPage(url).value.elements)
      ensures count == |history| - |old(history)| == |downloadedHashes| - |old(downloadedHashes)|
      ensures old(history) <= history
      ensures old(downloadedUrls) <= downloadedUrls && old(downloadedHashes) <= downloadedHashes
      ensures forall f :: f in old(files) ==> f in files && files[f] == old(files)[f]
      ensures State() == Downloads(lib, fetchPdf, old(State()), PageLinks(lib.join, fetchPage, url))
      ensures forall l :: l in PageLinks(lib.join, fetchPage, url) ==> !Accepts(fetchPdf, l)
      ensures StoredFiles(fetchPdf, old(files), files, history, |old(history)|, paths)
    {
      ghost var start := State();
      paths := [];
      var response := fetchPage(url);
      if response.None? || response.value.status != 200 {
        return 0, paths;
      }
      var links := ExtractPdfLinks(response.value.elements, url);
      count, paths := DownloadAll(fetchPdf, links);
      DownloadsGrow(lib, fetchPdf, start, links);
      DownloadsComplete(lib, fetchPdf, start, links);
    }

    /**
     * The loop of `scrape_page`: `download_pdf` on each link in turn,
     * counting the accepted ones; `paths` are the files they were stored at.
     */
    method DownloadAll(fetchPdf: FetchPdf, links: seq<Url>) returns (count: nat, ghost paths: seq<string>)
      requires Valid()
      modifies this`downloadedUrls, this`downloadedHashes, this`history, this`files
      ensures Valid()
      ensures State() == Downloads(lib, fetchPdf, old(State()), links)
      ensures count == |history| - |old(history)|
      ensures forall f :: f in old(files) ==> f in files && files[f] == old(files)[f]
      ensures StoredFiles(fetchPdf, old(files), files, history, |old(history)|, paths)
    {
      ghost var start := State();
      count, paths := 0, [];
      var i := 0;
      while i < |links|
        invariant Valid()
        invariant 0 <= i <= |links|
        invariant count == |history| - |start.history|
        invariant StoredFiles(fetchPdf, old(files), files, history, |start.history|, paths)
        invariant State() == Downloads(lib, fetchPdf, start, links[..i])
      {
        assert links[..i + 1][..i] == links[..i];
        ghost var before, lines := files, history;
        var ok;
        ghost var path;
        ok, path := DownloadPdf(fetchPdf, links[i], None);
        if ok {
          StoredSnoc(fetchPdf, old(files), before, lines, |start.history|, paths, links[i], path);
          count, paths := count + 1, paths + [path];
        }
        i := i + 1;
      }
      assert links[..i] == links;
    }

    /**
     * `scrape_multiple_pages`: `perPage[i]` is what `scrape_page` returned for
     * `urls[i]`, and `stages[i]` is the bookkeeping before that call.
     */
    method ScrapeMultiplePages(fetchPage: FetchPage, fetchPdf: FetchPdf, urls: seq<Url>)
      returns (total: nat, ghost perPage: seq<nat>, ghost stages: seq<Record>, ghost paths: seq<string>)
      requires Valid()
      modifies this`downloadedUrls, this`downloadedHashes, this`history, this`files
      ensures Valid()
      ensures |perPage| == |urls| && total == Sum(perPage)
      ensures total == |history| - |old(history)| == |downloadedHashes| - |old(downloadedHashes)|
      ensures old(history) <= history
      ensures old(downloadedUrls) <= downloadedUrls && old(downloadedHashes) <= downloadedHashes
      ensures forall f :: f in old(files) ==> f in files && files[f] == old(files)[f]
      ensures ScrapeStages(lib, fetchPdf, fetchPage, urls, stages)
      ensures stages[0] == old(State()) && stages[|urls|] == State()
      ensures forall i :: 0 <= i < |urls| ==> perPage[i] == |stages[i + 1].history| - |stages[i].history|
      ensures forall i :: 0 <= i < |urls| ==> perPage[i] <= |PageLinks(lib.join, fetchPage, urls[i])|
      ensures forall i, l :: 0 <= i < |urls| && l in PageLinks(lib.join, fetchPage, urls[i]) ==>
        !Accepts(fetchPdf, l)
      ensures StoredFiles(fetchPdf, old(files), files, history, |old(history)|, paths)
    {
      total := 0;
      perPage, stages, paths := [], [State()], [];
      var i := 0;
      while i < |urls|
        invariant Valid()
        invariant 0 <= i <= |urls| && total == Sum(perPage)
        invariant PagesScraped(lib, fetchPdf, fetchPage, urls[..i], perPage, stages)
        invariant stages[0] == old(State()) && stages[i] == State()
        invariant StoredFiles(fetchPdf, old(files), files, history, |old(history)|, paths)
      {
        var downloaded;
        ghost var pagePaths;
        downloaded, pagePaths := ScrapeNext(fetchPage, fetchPdf, urls[..i], urls[i], perPage, stages,
                                            old(files), |old(history)|, paths);
        assert urls[..i + 1] == urls[..i] + [urls[i]];
        total := total + downloaded;
        perPage, stages, paths := perPage + [downloaded], stages + [State()], paths + pagePaths;
        i := i + 1;
      }
      assert urls[..i] == urls;
      StagesGrow(lib, fetchPdf, fetchPage, urls, stages);
      StagesComplete(lib, fetchPdf, fetchPage, urls, stages);
    }

    /**
     * One pass of the loop of `scrape_multiple_pages`: `scrape_page` on `url`
     * after the pages `done`, whose counts, bookkeeping and stored files so
     * far are `perPage`, `stages` and `paths`.
     */
    method ScrapeNext(fetchPage: FetchPage, fetchPdf: FetchPdf, ghost done: seq<Url>, url: Url,
                      ghost perPage: seq<nat>, ghost stages: seq<Record>,
                      ghost files0: Directory, ghost from: nat, ghost paths: seq<string>)
      returns (downloaded: nat, ghost pagePaths: seq<string>)
      requires Valid()
      requires PagesScraped(lib, fetchPdf, fetchPage, done, perPage, stages) && stages[|done|] == State()
      requires StoredFiles(fetchPdf, files0, files, history, from, paths)
      modifies this`downloadedUrls, this`downloadedHashes, this`history, this`files
      ensures Valid()
      ensures PagesScraped(lib, fetchPdf, fetchPage, done + [url], perPage + [downloaded], stages + [State()])
      ensures StoredFiles(fetchPdf, files0, files, history, from, paths + pagePaths)
    {
      ghost var before, lines := files, history;
      downloaded, pagePaths := ScrapePage(fetchPage, fetchPdf, url);
      StoredConcat(fetchPdf, files0, before, files, lines, history, from, paths, pagePaths);
      PagesScrapedSnoc(lib, fetchPdf, fetchPage, done, perPage, stages, url, downloaded);
    }
  }

  // ---------------------------------------------------------------------------
  // Reading the page list

  /** `f` applied to every string of `xs`. */
  function MapAll(f: string -> string, xs: seq<string>): (r: seq<string>)
    ensures |r| == |xs| && forall i :: 0 <= i < |xs| ==> r[i] == f(xs[i])
  {
    seq(|xs|, i requires 0 <= i < |xs| => f(xs[i]))
  }

  lemma MapAllAppend(f: string -> string, a: seq<string>, b: seq<string>)
    ensures MapAll(f, a + b) == MapAll(f, a) + MapAll(f, b)
  {
    var whole, front, back := MapAll(f, a + b), MapAll(f, a), MapAll(f, b);
    forall k | 0 <= k < |whole|
      ensures whole[k] == (front + back)[k]
    {
      if k < |a| {
        assert (a + b)[k] == a[k];
      } else {
        assert (a + b)[k] == b[k - |a|];
      }
    }
  }

  /** The non-empty strings of `xs`, in order. */
  function NonEmpty(xs: seq<string>): seq<string> {
    if xs == [] then []
    else NonEmpty(xs[..|xs| - 1]) + (if xs[|xs| - 1] != "" then [xs[|xs| - 1]] else [])
  }

  /** The non-blank lines of a file, stripped, in file order. */
  function NonBlankLines(lines: seq<string>): seq<Url> {
    NonEmpty(MapAll(Strip, lines))
  }

  lemma {:induction false} NonEmptyAppend(a: seq<string>, b: seq<string>)
    ensures NonEmpty(a + b) == NonEmpty(a) + NonEmpty(b)
  {
    if b == [] {
      assert a + b == a;
    } else {
      var n := |b| - 1;
      assert (a + b)[..|a + b| - 1] == a + b[..n];
      assert (a + b)[|a + b| - 1] == b[n];
      NonEmptyAppend(a, b[..n]);
    }
  }

  lemma {:induction false} NonEmptyMembers(xs: seq<string>, u: string)
    ensures u in NonEmpty(xs) <==> u != "" && u in xs
  {
    if xs != [] {
      var n := |xs| - 1;
      NonEmptyMembers(xs[..n], u);
      assert xs == xs[..n] + [xs[n]];
    }
  }

  lemma {:induction false} NonEmptyLength(xs: seq<string>)
    ensures |NonEmpty(xs)| <= |xs|
    ensures (forall i :: 0 <= i < |xs| ==> xs[i] != "") ==> |NonEmpty(xs)| == |xs|
  {
    if xs != [] {
      var n := |xs| - 1;
      NonEmptyLength(xs[..n]);
      assert forall i :: 0 <= i < n ==> xs[..n][i] == xs[i];
    }
  }

  /** File order: the URLs of consecutive parts of a file are consecutive. */
  lemma NonBlankLinesAppend(a: seq<string>, b: seq<string>)
    ensures NonBlankLines(a + b) == NonBlankLines(a) + NonBlankLines(b)
  {
    MapAllAppend(Strip, a, b);
    NonEmptyAppend(MapAll(Strip, a), MapAll(Strip, b));
  }

  /** One more line adds its stripped form unless that is empty. */
  lemma NonBlankLinesSnoc(lines: seq<string>, line: string)
    ensures NonBlankLines(lines + [line]) == NonBlankLines(lines) + (if Strip(line) != "" then [Strip(line)] else [])
  {
    NonBlankLinesAppend(lines, [line]);
    var stripped := Strip(line);
    assert MapAll(Strip, [line]) == [stripped];
    NonEmptySingle(stripped);
  }

  lemma NonEmptySingle(x: string)
    ensures NonEmpty([x]) == if x != "" then [x] else []
  {
    assert [x][..0] == [];
  }

  /** Some line of `lines` strips to `u`. */
  ghost predicate StripsTo(lines: seq<string>, u: Url) {
    exists i :: 0 <= i < |lines| && Strip(lines[i]) == u
  }

  /** A URL is read exactly when some line strips to it and it is not blank. */
  lemma NonBlankLinesMembers(lines: seq<string>, u: Url)
    ensures u in NonBlankLines(lines) <==> u != "" && StripsTo(lines, u)
  {
    var stripped := MapAll(Strip, lines);
    NonEmptyMembers(stripped, u);
    if u in stripped {
      var i :| 0 <= i < |stripped| && stripped[i] == u;
      assert Strip(lines[i]) == u;
    }
    if StripsTo(lines, u) {
      var i :| 0 <= i < |lines| && Strip(lines[i]) == u;
      assert stripped[i] == u;
    }
  }

  /** Blank lines are dropped, nothing is added. */
  lemma NonBlankLinesLength(lines: seq<string>)
    ensures |NonBlankLines(lines)| <= |lines|
    ensures (forall i :: 0 <= i < |lines| ==> Strip(lines[i]) != "") ==> |NonBlankLines(lines)| == |lines|
  {
    NonEmptyLength(MapAll(Strip, lines));
  }

  class LoadUrls {
    /** The lines of the file at `file_path`. */
    const fileLines: seq<string>

    constructor (fileLines: seq<string>)
      ensures this.fileLines == fileLines
    {
      this.fileLines := fileLines;
    }

    /** `load_urls_from_file` */
    method LoadUrlsFromFile() returns (urls: seq<Url>)
      ensures urls == NonBlankLines(fileLines)
    {
      urls := [];
      var i := 0;
      while i < |fileLines|
        invariant 0 <= i <= |fileLines|
        invariant urls == NonBlankLines(fileLines[..i])
      {
        assert fileLines[..i + 1] == fileLines[..i] + [fileLines[i]];
        NonBlankLinesSnoc(fileLines[..i], fileLines[i]);
        var url := Strip(fileLines[i]);
        if url != "" {
          urls := urls + [url];
        }
        i := i + 1;
      }
      assert fileLines[..i] == fileLines;
    }
  }
}
