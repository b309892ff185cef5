# go-web-crawler: a Dafny model of the crawler's pure core

go-web-crawler starts at a seed URL and crawls with a pool of indexer workers. Each
worker handles one page request at a time: it reads the site's robots.txt, fetches
the page and scrapes its anchors into `Link` records. Two reports group the stored
`(URL, ParentURL)` rows. This project models the sequential, deterministic parts of
that program and proves what they compute:

- `links.dfy` (module `Links`): the `Link` record and `NewLink`.
- `scrape.dfy` (module `Scrape`): `ScrapePage`. The parsed HTML tree is given as its
  nodes in the order the tree walk visits them. Each `href` of an `a` element is made
  absolute when it starts with `/` and is kept verbatim otherwise. A URL already
  collected from the same page is skipped.
- `indexer.dfy` (module `Indexer`): `ProcessPage` and `AuthorizeRobot`. This covers
  deriving `scheme://host` and the robots.txt URL, and deciding whether the page is
  fetched at all. URL parsing, HTTP GET, the robots.txt library, the HTML parser, MD5
  and the clock are the fields of an `Env` value, because they are foreign code.
- `reports.dfy` (module `Reports`): `AppendIfMissing` and the loops of the two
  reports that group rows into a `map<string, seq<string>>`. `sort.Strings` is
  modelled as insertion sort. It orders strings the way Go's `<` does.
- `cli.dfy` (module `Cli`): the decision logic of `start`. It takes the parsed flags
  as a record and decides to exit, run report 1 or 2, or crawl with clamped limits.
  It also models the exit loop of `main`.
- `edges.dfy` (module `Edges`): what the links `ScrapePage` builds look like as report
  rows. See "## Findings".
- `strings.dfy`, `seqs.dfy`, `wrappers.dfy`: Go string order and `strings.HasPrefix`,
  first-occurrence deduplication, and `Option`/`Result`.

Go compares strings byte by byte. Dafny's `string` is a sequence of Unicode scalar
values. For strings that are valid UTF-8, UTF-8 keeps code-point order, so the
lexicographic order on code points in `Strings.Less` agrees with Go. Other byte strings
are not modelled (see "## Left out"). MD5 (`GetMD5Hash`, defined in both gowc.go and
indexer.go) is a parameter `hash: string -> string`. `time.Now()` is a parameter
`clock: nat -> int`: the k-th link of a page gets reading `clock(k)`.

## Model

| member | source | states |
|---|---|---|
| Links.NewLink | link.go:17-24 | `URL` is the `url` argument, `Parent` is `parentID`, `ParentURL` is the `parentURL` argument, `ID` is left at 0 for the store's auto-increment key, `Created` is the clock reading |
| Links.NewLinkRoundTrip | link.go:17-24 | every link with ID 0 is exactly what `NewLink` builds from its own fields, so the constructor loses nothing |
| Links.NewLinkDeterministic | link.go:17-24 | two calls with equal arguments agree on every field except `Created`, and are equal exactly when the timestamps are |
| Scrape.Normalize | indexer.go:163-167 | an href that does not start with `/` is kept verbatim; one that does becomes a URL that starts with the root URL and gives back the href once the root URL is stripped |
| Scrape.ScrapePage | indexer.go:149-185 | the walk, the attribute loop and the existence scan compute the reference result `Scraped`. Link URLs are pairwise distinct. Every anchor href, normalised, is the URL of a link, and so of exactly one. Every link URL comes from some anchor href. There are at most as many links as anchor hrefs. `Parent` is `hash(parentURL)`, `ParentURL` is `hash(url)` (the argument order as written), `ID` is 0 and the k-th link has timestamp `clock(k)` |
| Scrape.ScrapeAnchor | indexer.go:160-180 | the attribute loop of one `a` element extends the links for the URLs seen so far exactly as if the normalised `href` values of that element, in attribute order, were appended to those URLs |
| Scrape.ContainsURL | indexer.go:169-174 | the scan over all links (it does not stop early) reports `true` exactly when some link already has the URL |
| Scrape.AppendIfNewURL | indexer.go:169-178 | the existence scan plus conditional append turns the links for the URLs seen so far into the links for those URLs plus one more: unchanged when the URL is already linked, one new link at the end otherwise |
| Scrape.ScrapeAttribute | indexer.go:161-179 | an attribute keyed `href` adds its normalised value to the URLs seen, through the existence scan; any other attribute leaves the links unchanged |
| Scrape.ScrapedDistinct | indexer.go:169-178 | no two links of the reference result share a URL |
| Scrape.ScrapedTargets | indexer.go:160-178 | a URL is the target of some link exactly when it is the normalised form of some anchor href of the page |
| Scrape.ScrapedOrder | indexer.go:169-178 | of two links, the earlier one has the URL whose first occurrence among the normalised hrefs comes first |
| Scrape.NonAnchorIgnored | indexer.go:156-161 | a non-element node or an element other than `a`, wherever it stands in the page, does not change the result |
| Scrape.NonHrefAttributeIgnored | indexer.go:160-161 | an attribute whose key is not `href`, wherever it stands, contributes no URL |
| Scrape.ScrapedPrefixStable | indexer.go:169-178 | a later duplicate neither replaces nor moves an earlier link: the links found on a prefix of the page are a prefix of the links found on the whole page |
| Seqs.Dedup | indexer.go:169-178 | keeping the first occurrence of each value gives a duplicate-free sequence with the same values and no more elements than the input |
| Seqs.DedupSnoc | indexer.go:169-178 | one scan step: a value already present changes nothing, and a new value is appended at the end |
| Seqs.DedupOrder | indexer.go:170-177 | the kept values appear in the order of their first occurrences |
| Indexer.RootURL | indexer.go:76 | the root URL splits back into the parsed scheme, the separator `://` and the parsed host |
| Indexer.RobotsURL | indexer.go:78 | the robots.txt URL starts with the root URL, and what follows it is exactly `/robots.txt` |
| Indexer.RobotsURLOfRequest | indexer.go:76-78 | the robots.txt URL is `scheme + "://" + host + "/robots.txt"`, starts with the root URL, and equals what link normalisation makes of the href `/robots.txt` |
| Indexer.NormalizedNotRootRelative | indexer.go:76 | when the parsed scheme holds no `/`, no normalised link starts with `/` |
| Indexer.AuthorizeRobot | indexer.go:123-146 | an error (failed GET or failed parse of robots.txt) always comes with `authorized == false`. There is no error exactly when both steps succeed, and then the answer is `TestAgent(href, "go-web-crawler")` on the parsed data. A failed GET's error is passed through |
| Indexer.ProcessPage | indexer.go:66-119 | the URL is unparsable exactly when `url.Parse` fails. Robots.txt is unavailable exactly when `AuthorizeRobot` reports an error. The page is refused exactly when there is no error and no permission. The page is fetched exactly when the URL parses, `AuthorizeRobot` reports no error, and `authorized` is true. A fetched page either fails the GET or yields the scrape of its parsed body against `scheme://host` |
| Reports.Insert | reports.go:98 | inserting into a sorted list gives a sorted list with one more copy of the item; the result has no duplicates when the list had none and lacked the item |
| Reports.SortStrings | reports.go:98 | `sort.Strings` returns the same strings (as a multiset) in ascending Go order, and keeps a duplicate-free list duplicate-free |
| Reports.AppendIfMissing | reports.go:91-101 | the result always contains `item`. A present item returns the slice unchanged. An absent item gives a permutation of the slice plus the item, one element longer and sorted ascending. Either way the result holds exactly the slice's elements and `item` |
| Reports.AppendIfMissingKeepsInvariant | reports.go:91-101 | on a sorted, duplicate-free slice the result is again sorted and duplicate-free, with the slice's elements plus `item` |
| Reports.AppendAll | reports.go:26-29 | a run of `AppendIfMissing` calls from the empty slice never holds more strings than items were added; `AppendAllSortedDistinct` states its contents |
| Reports.AppendAllSortedDistinct | reports.go:91-101 | any sequence of calls starting from the empty slice yields a sorted, duplicate-free slice holding exactly the items added |
| Reports.SortedDistinctUnique | reports.go:98 | a sorted, duplicate-free list is determined by its set of elements |
| Reports.Group | reports.go:26-29 | the grouping loop of either report (also reports.go:46-49) never leaves a key with an empty list; `GroupKeys`, `GroupListsSortedDistinct` and `GroupMembers` state the rest |
| Reports.GroupKeys | reports.go:26-29 | for either grouping, the keys of the map are exactly the keys of the rows |
| Reports.GroupListsSortedDistinct | reports.go:26-29 | for either grouping, each key's list is sorted and duplicate-free |
| Reports.GroupMembers | reports.go:26-29 | for either grouping, each key's list holds exactly the values of the rows with that key |
| Reports.GroupOrderIndependent | reports.go:46-49 | rows with the same members, in any order and with any repetition, give the same map |
| Reports.InboundLinksReport | reports.go:26-29 | the keys are the distinct `URL`s of the rows. `container[u]` is the sorted, duplicate-free set of `ParentURL`s of the rows with `URL == u` |
| Reports.ParentChildLinksReport | reports.go:46-49 | the keys are the distinct `ParentURL`s. `container[p]` is the sorted, duplicate-free set of `URL`s of the rows with `ParentURL == p` |
| Cli.Start | gowc.go:73-114 | every path returns 0. Exit with nothing to do exactly when `start` is empty and `report == 0`. Unknown report exactly when `report > 2`, or `report < 0` with an empty `start` (Go's `&&` binds tighter than its or-operator). Unsupported format exactly when those checks pass and the format is neither `"json"` nor `"tabular"`, on the crawl path too. Report 1 or 2 runs, whatever `start` is, exactly when the format is supported, with the JSON flag `format == "json"` (gowc.go:186-188). Crawl exactly when `start` is set, `report <= 0` and the format is supported. Queue size, workers and seconds below 1 become 100, 10 and 10; others pass through; all three end up at least 1 |
| Cli.ReportFormatIsJSON | gowc.go:186-188 | the JSON flag is set only for a supported format, and of the two supported formats it is set for `"json"` and not for `"tabular"` |
| Cli.DefaultsDoNothing | gowc.go:65-77 | with every flag at its declared default, `start` exits without a report or a crawl |
| Cli.DefaultCrawl | gowc.go:65-114 | with only `-start` given, the crawl runs with 1 worker, a queue of 100 and 10 seconds |
| Cli.ReportGuardPrecedence | gowc.go:79-82 | a report number above 2 is rejected even when `start` is set. A negative one beside a start URL passes the guard and the crawl goes ahead |
| Cli.MaxWorkersFallback | gowc.go:106-109 | a `max-workers` below 1 becomes 10, not the flag default of 1 that the log message names |
| Cli.MainLoop | gowc.go:56-60 | `main` exits at the first call of `start` that returns a non-negative code, with that code. It never exits while every call returns a negative code |
| Cli.MainExitsAfterOneCall | gowc.go:56-60 | since `start` returns 0 on every path it takes once the store opens, `main` exits after exactly one call, with status 0 |
| Edges.AsWrittenInboundReport | indexer.go:177 | with links built as written, the inbound report has the page's normalised anchor URLs as keys and lists only `hash(u)` under each `u` |
| Edges.AsWrittenLinkMissesParent | indexer.go:177 | concrete page `http://a.test/` with one anchor `/x`: the single link it yields has URL `http://a.test/x`, `Parent` the page's hash, and `ParentURL` the hash of `http://a.test/x`, which for any 32-character hash is not the page |
| Edges.ScrapedSingle | indexer.go:160-178 | a page with exactly one anchor href yields exactly one link, built from that href's normalised form with the first clock reading |
| Edges.AsWrittenReportMissesParent | indexer.go:177 | concrete page with one anchor `/x`: for any 32-character hash, the inbound report entry for `http://a.test/x` does not name the page `http://a.test/` |
| Edges.ParentMissing | indexer.go:177 | for any page, a linked URL `u` whose hash is not the page's URL is a key of the inbound report whose list does not contain the page's URL |
| Edges.IntendedLinks | link.go:17-24 | the corrected construction `NewLink(hash(parentURL), parentURL, url)` gives the same URLs, stamps and parent hash as the scrape, with `ParentURL` the page's URL |
| Edges.IntendedInboundReport | reports.go:26-29 | with the corrected construction, the inbound report has the page's normalised anchor URLs as keys and lists exactly the page's URL under each |

## Left out

- The dispatcher, the worker pool, `Indexer.Start`/`Stop` and the run-time deadline
  (dispatcher.go, indexer.go:39-63). They are goroutines and channels, and their
  point is concurrency.
- The SQLite store: `initDb`, `connect`, `disconnect` and the global mutex (gowc.go,
  db.go), and `GetReportData`. The reports take their rows as an input. The fatal
  exit when the query fails is not modelled.
- `OutputData`: JSON marshalling, tabular printing and Go's map iteration order.
- The JSON logging of the found links in `ProcessPage` and every other log line.
  `ProcessPage`'s outcome carries the links it would log instead. Logger and the
  help text (including the `-help` check in `main`) are output only.
- `ProcessPage` never stores links, never checks the store for duplicates and never
  pushes new requests onto `PageQueue` (indexer.go:102-111), so none of that is modelled.
- `h5.New` and its tree walk. The page arrives as the node sequence the walk visits.
  The parse error that `ScrapePage` discards is not modelled, and neither is the nil
  tree it could leave behind.
- MD5 and `time.Now()` are parameters. Nothing is assumed about them, except that the
  witnesses in `Edges.AsWrittenLinkMissesParent` and `Edges.AsWrittenReportMissesParent` assume a hash of MD5's hex length.
- `url.Parse` is a parameter that yields scheme and host or an error. Its grammar is
  not modelled.
- `PageRequest` is a record holding `href`, the only field `ProcessPage` and
  `AuthorizeRobot` read (indexer.go:68, 95, 145).
- HTTP is modelled as a fixed function of the URL (`Env.get`). The robots.txt GET
  (indexer.go:125) and the page GET (indexer.go:95) therefore always agree when the
  URLs are equal; a server that answers the same URL differently is not modelled.
- Cli.MainExitsAfterOneCall: the store's fatal exits are not modelled. `checkErr` calls
  `log.Fatalln` (status 1) when `sql.Open` or `CreateTablesIfNotExists` fails, on the
  crawl path through `initDb` (gowc.go:118, 139-140, 151-152; db.go:14-15, 26-27) and in
  `connect` on the report path. So status 0 holds only when the store opens.
- Cli.Start: for the same reason, "every path returns 0" covers only the runs where the
  store opens; a fatal exit inside `initDb` or `connect` ends the process with status 1.
- Strings that are not valid UTF-8. Go strings are arbitrary bytes, and `sort.Strings`
  (reports.go:98) compares them byte by byte. An href copied verbatim from a Latin-1
  page (indexer.go:163), or a row read back from the store, may hold such bytes. A
  Dafny `string` cannot, so `Strings.Less` covers only valid UTF-8.
- Flag parsing itself (`flag.Parse`, 64-bit range of `flag.Int`). The flags arrive
  as a parsed record with unbounded integers.

## Findings

| source | as written | input that shows it | evidently intended | confidence | as-written member | corrected member |
|---|---|---|---|---|---|---|
| indexer.go:177 | `NewLink(GetMD5Hash(parentURL), GetMD5Hash(url), url)` passes the hash of the child URL as `NewLink`'s `parentURL` parameter (link.go:17), so `ParentURL` never holds the linking page | page `http://a.test/` with the single anchor `href="/x"`: the one link `ProcessPage` logs as JSON (indexer.go:105-110) has `parent_url` (link.go:10) equal to `md5("http://a.test/x")`, not `http://a.test/`. If the links were stored, which this version never does, the inbound report would list that hash rather than the page under `http://a.test/x` (`Edges.AsWrittenReportMissesParent`) | `NewLink(GetMD5Hash(parentURL), parentURL, url)`, so that `parent_url` names the page and "Pages Linking To Page" would list it (`Edges.IntendedInboundReport`) | medium, not executed | Edges.AsWrittenLinkMissesParent | Edges.IntendedLinks |

`Scrape.ScrapePage` and `Indexer.ProcessPage` keep the construction as written, since
`ProcessPage` only logs those links (indexer.go:103-111). The report side of the model
(`Edges.IntendedLinks`, `Edges.IntendedInboundReport`) uses the corrected construction.
