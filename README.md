# Web crawler and PDF scraper, modelled in Dafny

This project models the two decision engines of the repository.

- **The link-discovery crawler** is `WebCrawler` in `url-extractor/main.py`. It is a breadth-first walk over the pages of one domain, and `crawl` ends by writing every in-domain URL it found, in sorted order. The model is the class `UrlExtractor.WebCrawler`.
  - Its fields are the visited set and the discovered set, which the methods grow in place.
  - `extract_urls` expands one page. It has the three guards (already visited, too deep, page budget spent), a failed-request path and the link loop.
  - `crawl` is the level loop with its early stop, followed by `sorted(all_urls)`.
- **The PDF acquirer** is `PDFScraper` and `LoadUrls` in `research/PdfExtractor.py`. The model is the classes `PdfExtractor.PdfScraper` and `PdfExtractor.LoadUrls`.
  - The scraper holds four things: the set of downloaded URLs, the set of content digests, the append-only history file as a sequence of records, and the output directory as a map from file name to bytes.
  - `download_pdf` first rejects a known URL, then rejects a non-200 response. Otherwise it picks a file name, resolves collisions so that nothing is overwritten, and writes the bytes. Duplicate content is removed again; anything else is recorded as accepted.
  - `scrape_page` and `scrape_multiple_pages` count accepted downloads.
  - `extract_pdf_links` filters the anchors of `span.pdf-downloads` containers.
  - `load_urls_from_file` keeps the stripped non-blank lines of a file.

The network, the HTML parser, `urlparse`, `urljoin`, `os.path.basename` and MD5 are left uninterpreted. They are either function-typed fields of a datatype (`UrlExtractor.UrlLib`, `PdfExtractor.Libs`) or function parameters of the methods (`Fetch`, `FetchPage`, `FetchPdf`). A request that raises is `None`.

Python's string operations are modelled in `Text`: `endswith`, `in`, `lower` (ASCII letters), `strip` (Python's whitespace code points), `replace(pat, '')` and `str(int)`. Python's ordering of strings, and `sorted` over a set, are modelled in `Ordering`.

Three behaviours of the code worth noting:

- **`extract_urls` failure condition.** The request counts as failed only when `requests.get` raises, or when `raise_for_status` would raise, which is the case for a 4xx or 5xx status (main.py:49-50). A 3xx page that the library does not follow is still expanded.
- **The start URL.** `crawl` puts it in the first frontier but not in `all_urls` (main.py:71). It enters `all_urls` only if some crawled page links to it and it passes the filter (main.py:60-62), and it is visited only if its request succeeds. The visited set is therefore not a subset of the discovered set, and the sorted output lists the links found, not necessarily the start page.
- **Running the scraper twice.** Only URLs persist from one run to the next; the content digests do not. A URL that was rejected as duplicate content is therefore fetched and written again on the next run.

## Model

| member | source | states |
|---|---|---|
| Text.Strip | research/PdfExtractor.py:188 | the stripped line is no longer than the line; it neither starts nor ends with whitespace; it is empty exactly when every character of the line is whitespace |
| Text.StripInfix | research/PdfExtractor.py:188 | the stripped line is a contiguous part of the line, and every character of the line before and after that part is whitespace |
| Text.RemoveAll | research/PdfExtractor.py:81 | removing every `.pdf` never lengthens a name and leaves a name without `.pdf` unchanged |
| Text.NatToString | research/PdfExtractor.py:83 | the decimal form of the counter has at least one digit, and at least two exactly from 10 on |
| Text.NatToStringInjective | research/PdfExtractor.py:83 | different counters have different decimal forms |
| Ordering.LessIrreflexive | url-extractor/main.py:97 | no string sorts before itself |
| Ordering.LessTransitive | url-extractor/main.py:97 | string order is transitive |
| Ordering.LessTotal | url-extractor/main.py:97 | of two different strings one sorts before the other |
| Ordering.Least | url-extractor/main.py:97 | the chosen element of a non-empty set sorts before every other element |
| Ordering.SortedList | url-extractor/main.py:97 | `sorted(all_urls)` is strictly increasing, has exactly the set's elements and has one entry per element |
| UrlExtractor.EndsWithAny | url-extractor/main.py:39 | true exactly when the URL ends with one of the listed suffixes |
| UrlExtractor.IsValidUrlMeaning | url-extractor/main.py:35-39 | a URL passes the filter iff its netloc is the domain, its scheme is `http` or `https`, and it ends, case-sensitively, in none of `.pdf .jpg .png .gif .css .js` |
| UrlExtractor.NewLinksSnoc | url-extractor/main.py:57-62 | scanning one more href adds its joined URL exactly when the URL passes the filter and is neither known before nor taken by an earlier href |
| UrlExtractor.NewLinksCover | url-extractor/main.py:57-62 | after a page is scanned, every passing joined href is discovered, either before or by this page; every link the page adds is the join of one of its hrefs |
| UrlExtractor.DiscoveryExample | url-extractor/main.py:57-64 | a page whose anchors are `a`, `a` again and an off-domain link contributes `{a}` alone |
| UrlExtractor.WebCrawler.constructor | url-extractor/main.py:19-30 | the domain is the base URL's netloc; both sets start empty; the invariant holds |
| UrlExtractor.NewCrawler | url-extractor/main.py:27-33 | construction fails exactly when the base URL's netloc is empty; otherwise it yields a fresh crawler whose domain is that netloc and whose sets are empty |
| UrlExtractor.WebCrawler.ExtractUrls | url-extractor/main.py:41-68 | on a skip condition (visited, too deep, budget spent) or a failed request it returns the empty set and changes nothing; otherwise it marks the URL visited and returns exactly the passing joined links not discovered before. The result is disjoint from the old discovered set and is added to it; every discovered URL stays valid; the visited set grows by at most this URL and never exceeds the page budget |
| UrlExtractor.WebCrawler.CollectLinks | url-extractor/main.py:55-64 | the loop returns exactly the new passing links, and they are what it adds to `all_urls` |
| UrlExtractor.LevelExpandedStep | url-extractor/main.py:77-84 | one more `extract_urls` call on a frontier page, as its contract describes, extends the facts of a level to that page and its links |
| UrlExtractor.WebCrawler.ExpandPage | url-extractor/main.py:77-84 | one job of the level's thread pool: the level facts grow by that page and the links it returned |
| UrlExtractor.WebCrawler.ExpandLevel | url-extractor/main.py:72-88 | whatever order the frontier is walked in: only frontier pages become visited, each after a successful request; every passing link of a visited page ends up discovered; the next frontier is exactly what the level added to `all_urls`, each URL a link of a page it visited; a frontier page left unvisited failed or met a guard |
| UrlExtractor.WebCrawler.Crawl | url-extractor/main.py:70-98 | the crawl is a chain of levels, each turning its frontier into the next as `ExpandLevel` states; the first frontier is the start URL; there are at most `max_depth` levels; an early stop has an empty last frontier; every frontier before the last is non-empty; the chain starts at the old sets and ends at the new ones; the output is `sorted(all_urls)`: strictly increasing, with exactly the discovered URLs |
| UrlExtractor.LevelChainDiscovers | url-extractor/main.py:70-91 | along a crawl the discovered set only grows, every frontier after the first is what the level before discovered, and no URL appears in two such frontiers |
| UrlExtractor.LevelChainVisits | url-extractor/main.py:41-52 | along a crawl the visited set only grows, and every newly visited page lay in some frontier and was fetched successfully |
| UrlExtractor.LevelChainGuard | url-extractor/main.py:42-44 | within `max_depth` levels the depth guard never fires: a frontier page a level left unvisited failed or met the page budget |
| PdfExtractor.PdfSuffixIsPdfName | research/PdfExtractor.py:74-75 | a name with `.pdf` appended ends in `.pdf` after lower-casing |
| PdfExtractor.WithPdfExtension | research/PdfExtractor.py:74-75 | the result ends in `.pdf` in any case; it is the name itself exactly when the name already did, and the name plus `.pdf` otherwise |
| PdfExtractor.ChooseFilename | research/PdfExtractor.py:59-75 | the chosen file name always ends in `.pdf`, in any case |
| PdfExtractor.FilenamePriority | research/PdfExtractor.py:59-75 | the caller's name wins, then the Content-Disposition name, then the URL's basename if it is non-empty and already a PDF name, else the URL's MD5 hex digest with `.pdf`; a name that lacks `.pdf` gets it appended |
| PdfExtractor.CandidateInjective | research/PdfExtractor.py:83 | different counters give different suffixed candidates |
| PdfExtractor.CandidatesUpToMembers | research/PdfExtractor.py:80-86 | the first `n` candidates are exactly those with counters 1 to `n` |
| PdfExtractor.CandidatesUpToSize | research/PdfExtractor.py:80-86 | the first `n` candidates are `n` distinct names, so the loop cannot run past the directory's size |
| PdfExtractor.ResolvesUnique | research/PdfExtractor.py:79-86 | the collision rule determines one path |
| PdfExtractor.ResolvesToPdfName | research/PdfExtractor.py:74-86 | a resolved path still ends in `.pdf` |
| PdfExtractor.ResolveCollision | research/PdfExtractor.py:79-86 | the loop ends at a path absent from the directory: the name itself if it is free, otherwise the first free `stem_k.pdf` with every earlier candidate taken |
| PdfExtractor.AnchorLinksAppend | research/PdfExtractor.py:129-135 | links come out in anchor order |
| PdfExtractor.PdfLinksAppend | research/PdfExtractor.py:125-137 | links come out in container order |
| PdfExtractor.AnchorLinksMembers | research/PdfExtractor.py:129-135 | a link is produced iff some anchor has a non-empty href that contains `.pdf` in any case or has class `download`, and the href joins to that link |
| PdfExtractor.PdfLinksMembers | research/PdfExtractor.py:120-137 | a link is extracted iff a qualifying anchor inside some `span.pdf-downloads` container joins to it |
| PdfExtractor.PdfScraper.constructor | research/PdfExtractor.py:19-34 | the known URLs are the stripped history lines; no digest is known; the history and directory are as found |
| PdfExtractor.DownloadsGrow | research/PdfExtractor.py:40-106 | downloading a list of links only adds: URLs, digests and history lines grow, by one digest per history line and at most one line per link; every new line is one of the links, was not known before, and is not repeated |
| PdfExtractor.DownloadsComplete | research/PdfExtractor.py:155-157 | after downloading a list of links, none of them would be accepted again |
| PdfExtractor.DownloadsDigests | research/PdfExtractor.py:93-102 | every history line a run of downloads adds came with a fetched body whose digest was unseen before and is recorded after, and no two such bodies share a digest |
| PdfExtractor.AdmitsAntitone | research/PdfExtractor.py:41-98 | a URL refused by some bookkeeping state is refused by every state that knows more URLs and digests |
| PdfExtractor.PdfScraper.DownloadPdf | research/PdfExtractor.py:40-110 | returns true iff the URL is new, the status is 200 and the digest is unseen. On false, nothing changes: URL known, bad status, or duplicate content written and removed. On a fetched new URL, the path follows the collision rule and ends in `.pdf`. On true, the bytes are stored at that path, the digest and URL are added, and the URL is appended to the history once. No existing file is ever changed. The new bookkeeping is the old one after accepting or refusing this URL |
| PdfExtractor.PdfScraper.Store | research/PdfExtractor.py:87-106 | writing at a free name, then removing on a seen digest or recording otherwise: true iff the digest is new; on false the state is as before; on true the file, digest, URL and history record are added |
| PdfExtractor.PdfScraper.ExtractPdfLinks | research/PdfExtractor.py:120-137 | the loop returns exactly the extracted links of the page, in document order |
| PdfExtractor.PdfScraper.ContainerLinks | research/PdfExtractor.py:129-135 | the inner loop returns exactly the qualifying anchors of one container, resolved against the page, in anchor order |
| PdfExtractor.PdfScraper.DownloadAll | research/PdfExtractor.py:154-161 | the loop leaves the bookkeeping as `download_pdf` on each link in turn would, and the count is the number of history lines it added. The directory gains exactly one new file per accepted link: a distinct, previously free PDF name holding the body fetched for that link. No other file is added and no existing file changes |
| PdfExtractor.PdfScraper.ScrapePage | research/PdfExtractor.py:139-165 | a failed or non-200 page gives 0 and no change. Otherwise the count is at most the number of links, and every new history record is one of them. The count equals the growth of the history and of the digest set; no existing file changes. The new bookkeeping is the old one after downloading each of the page's links in turn, and afterwards none of those links would be accepted again. The files it added are exactly one per accepted link, at free PDF names, holding the fetched bodies |
| PdfExtractor.PagesScrapedSnoc | research/PdfExtractor.py:169-172 | scraping one more page extends the per-page record: its count is the history lines it added, at most its link count, and the running total still matches the growth of history and digests |
| PdfExtractor.StagesGrow | research/PdfExtractor.py:167-178 | across the pages the known URLs and digests only grow |
| PdfExtractor.StagesComplete | research/PdfExtractor.py:167-178 | after all pages, no PDF link of any of them would be accepted again |
| PdfExtractor.FreshDigestsTrans | research/PdfExtractor.py:167-172 | fresh, pairwise different content in two consecutive runs is fresh, pairwise different content of both together |
| PdfExtractor.StagesDigests | research/PdfExtractor.py:167-178 | over all pages, every history line added came with a fetched body whose digest was new at the start and is recorded at the end, and no two added lines have bodies with the same digest |
| PdfExtractor.PdfScraper.ScrapeMultiplePages | research/PdfExtractor.py:167-178 | the pages are scraped in order, each starting from the bookkeeping the previous one left; the k-th per-page count is what the k-th page added, at most its link count; the total is their sum and equals the growth of the history and of the digest set; afterwards no link of any page would be accepted again; the directory gains exactly one file per accepted link over all pages, at distinct free PDF names holding the fetched bodies, and no existing file changes |
| PdfExtractor.PdfScraper.ScrapeNext | research/PdfExtractor.py:169-172 | one pass of the page loop: the per-page record and the stored files so far are extended by what `scrape_page` on the next page did |
| PdfExtractor.StoredConcat | research/PdfExtractor.py:167-178 | the files stored by two consecutive runs are the files stored by both together, one per history line added in order |
| PdfExtractor.StoredDigests | research/PdfExtractor.py:93-102 | the files a run stored hold pairwise different content, none of it seen when the run began, so duplicate content is stored once |
| PdfExtractor.NonBlankLinesAppend | research/PdfExtractor.py:184-191 | input order is preserved: the URLs of consecutive parts of a file are consecutive |
| PdfExtractor.NonBlankLinesSnoc | research/PdfExtractor.py:187-190 | one more line adds its stripped form at the end, unless that is empty |
| PdfExtractor.NonBlankLinesMembers | research/PdfExtractor.py:184-191 | a URL is read iff it is non-empty and some line strips to it |
| PdfExtractor.NonBlankLinesLength | research/PdfExtractor.py:184-191 | at most one URL per line, and exactly one per line when no line is blank |
| PdfExtractor.LoadUrls.constructor | research/PdfExtractor.py:181-182 | the loader holds the file's lines |
| PdfExtractor.LoadUrls.LoadUrlsFromFile | research/PdfExtractor.py:184-191 | the loop returns the stripped non-blank lines in file order |

## Left out

- HTTP transport. Timeouts, headers, redirects, streaming in chunks, and the `Content-Type` warning (it only logs) are not modelled. A response is a status plus the anchors' hrefs, or status, Content-Disposition name and body.
- HTML parsing and CSS selection. A crawled page arrives as its list of hrefs. A scraped page arrives as elements, each with its tag, class list and anchors.
- The internals of `urlparse`, `urljoin`, `os.path.basename`, the Content-Disposition regular expression and MD5. They are uninterpreted functions, and MD5 is not assumed injective.
- The thread pool of `crawl`. Each level's `extract_urls` calls run one after another, in an arbitrary order. Page-budget overshoot under real threads is not modelled.
- `time.sleep`, logging, `print`, and the `main` entry points. They affect neither the state nor the results.
- File I/O. The output directory is a map, and the history file is a sequence of records kept apart from it; since every chosen name ends in `.pdf`, `download_history.txt` can never be a target. The output file of `crawl` is the returned list. Creating the output directory is not modelled.
- `os.path.join` is not modelled. File names are keys of the directory map.
- The KB size in the log message. It is floating-point and display-only.
- Exceptions raised after a mutation, such as a failing write or hash, are not modelled. `except` handlers are modelled only as the request failing before any change.
- The `ValueError` that `urlparse` raises on malformed input. The constructor models only the empty-netloc error.
- `str.lower` on non-ASCII letters. Only ASCII letters are mapped.
- Text.NatToString: states the length of the decimal form and injectivity, not its digit values, because only distinctness of the candidates matters to the collision loop.
- Text.RemoveAll: states only that the result is no longer and that a name without the pattern is unchanged, because the collision loop depends only on the candidates being distinct, whatever the stem is.
