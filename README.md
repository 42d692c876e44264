# pkpindex, modelled in Dafny

`pkpindex` harvests journal records from the PKP index. It walks the
journal info pages by numeric ID, from 1 up to the `-x` bound, and keeps
each page in a cache directory as `page-%06d.html`. An ID whose response
carries a `refresh` header (the site's way of saying "no such journal")
is marked by an empty file. When more than `-mssr` consecutive IDs answer
with a refresh, the crawl stops issuing requests.

Once the crawl is done, the program walks the cache directory and keeps
the non-empty files. From each file it takes the journal name and its
homepage, using the external `pup` HTML selector tool. It then guesses
the OAI-PMH endpoint from the homepage's suffix. Every cache write goes
through `WriteFileAtomic`, which writes a temporary file and renames it
over the target.

The model has these modules:

- `Base`: bytes, `Option`, and Go's `string(b)`.
- `Text`: `strings.TrimSpace`, `strings.HasSuffix`, and Go's byte-wise
  string order.
- `CacheLayout`: the file name of an ID. It proves the name parses back
  to its ID, that names are injective, and that their order matches ID
  order up to 999999.
- `Extractor`: `runPup`, the endpoint rule and `extractJournalInfo`.
- `AtomicFile`: `WriteFileAtomic`, both as a function and as the
  step-by-step method the source writes, proved equal.
- `Crawling`: one run of the `wrapFunc` closure as a function
  `CrawlStep`, the `for` loop as `CrawlRun`, and a class `Crawler` whose
  methods update the closure's variables in place. Each method is proved
  equal to those functions.
- `Extraction`: the `filepath.Walk` callback and `extractFromFiles`.

Everything outside the program is an input. This covers the upstream
response for each ID, the operating system's answer to each system call
of the atomic write, the output of `pup`, the result of reading a file,
and the entries a directory walk visits.

Where the code and its documentation differ, the model follows the code:

- The help text of `-x` calls the bound exclusive, but the ID is
  incremented before use, so ID `maxID` itself is processed: requested
  unless it is cached (`Crawling.MaxIdIsProcessed`). The lemma assumes
  `maxID <= maxSubsequentRefreshes + 1`, so that the early stop cannot
  fire first.
- A blank page does not give an all-empty record. Its endpoint is
  `"/oai"` (`Extractor.EndpointExamplesAppended`).
- A successful response with an empty body is stored as a zero-length
  file. It then looks exactly like a refresh marker and is skipped by the
  extraction.
- The stop test is a strict `>`. So `maxSubsequentRefreshes + 1`
  consecutive refreshes are stored before the crawl goes quiet
  (`Crawling.AllRefreshesStopAfterThreshold`).

## Model

| member | source | states |
|---|---|---|
| `Base.BytesToString` | extra/pkpindex/pkpindex.go:156 | `string(b)` keeps the length, and each character has the code of its byte |
| `Text.TrimSpace` | extra/pkpindex/pkpindex.go:104-106 | the trimmed text is no longer than the input, and it is empty exactly when the input is all white space |
| `Text.HasSuffix` | extra/pkpindex/pkpindex.go:132 | `strings.HasSuffix`: the string is at least as long as the suffix and ends with it; a definition, used by the endpoint rule and its lemmas |
| `Text.LexLess` | extra/pkpindex/pkpindex.go:187 | Go's byte-wise `<` on strings; a definition, related to numeric order by `CacheLayout.LexLessDigits` and `CacheLayout.PageFilenameOrder` |
| `Text.TrimSpaceCuts` | extra/pkpindex/pkpindex.go:104 | the trimmed text is an infix of the input that neither starts nor ends with white space, and only white space is cut off on each side |
| `CacheLayout.Decimal` | extra/pkpindex/pkpindex.go:187 | Go's `%d` of a non-negative number: a non-empty numeral of digits only; `CacheLayout.PaddedRoundTrip` proves that it reads back to the number |
| `CacheLayout.FormatPadded` | extra/pkpindex/pkpindex.go:187 | Go's `%0Nd`: the numeral left-filled with zeros to `N` characters and never cut; its round trip is `CacheLayout.PaddedRoundTrip` |
| `CacheLayout.PageFilename` | extra/pkpindex/pkpindex.go:187 | the name `page-%06d.html` of an ID; its length, parse round trip, injectivity and order are the lemmas below |
| `CacheLayout.PaddedRoundTrip` | extra/pkpindex/pkpindex.go:187 | the `%06d` numeral is all digits, and reading it back gives the ID, whatever its size |
| `CacheLayout.PageFilenameLength` | extra/pkpindex/pkpindex.go:187 | up to 999999 the numeral has exactly 6 digits and the name exactly 16 characters |
| `CacheLayout.ParsePageFilenameRoundTrip` | extra/pkpindex/pkpindex.go:187 | parsing a cache file name gives back its ID, for every ID |
| `CacheLayout.PageFilenameInjective` | extra/pkpindex/pkpindex.go:187-188 | two IDs with the same cache file name are equal, so each ID has its own file |
| `CacheLayout.LexLessDigits` | extra/pkpindex/pkpindex.go:187 | for numerals of equal length, string order is numeric order, in both directions |
| `CacheLayout.PageFilenameOrder` | extra/pkpindex/pkpindex.go:187 | up to 999999, one cache name sorts before another exactly when its ID is smaller |
| `CacheLayout.DecimalLeadingDigit` | extra/pkpindex/pkpindex.go:187 | a number in `[d·10^k, (d+1)·10^k)` has `k+1` digits and its first digit is `d` |
| `CacheLayout.OrderBreaksBeyondSixDigits` | extra/pkpindex/pkpindex.go:187 | past six digits the order breaks: every name of a 7-digit ID starting with 1 sorts before every name of a 6-digit ID starting with 9 |
| `Extractor.RunPup` | extra/pkpindex/pkpindex.go:103-118 | `runPup` with the `pup` process as an input; its contract is `Extractor.RunPupSpec` |
| `Extractor.RunPupSpec` | extra/pkpindex/pkpindex.go:103-118 | blank input gives "" whatever `pup` would answer; a failing `pup` gives ""; otherwise the result is `pup`'s output on the trimmed input, with white space trimmed; so a non-empty result means `pup` succeeded, and it never starts or ends with white space |
| `Extractor.ReplaceAnchoredSuffix` | extra/pkpindex/pkpindex.go:129-133 | `regexp.ReplaceAllString` for the pattern `/index$`: only a suffix can match; the endpoint lemmas state its effect |
| `Extractor.DeriveEndpoint` | extra/pkpindex/pkpindex.go:129-138 | the three-way `switch` on the homepage's suffix; `Extractor.EndpointIsRootPlusOai` and `Extractor.EndpointCases` state what it computes |
| `Extractor.EndpointIsRootPlusOai` | extra/pkpindex/pkpindex.go:129-138 | for every homepage, the endpoint is the site root (the homepage minus a trailing "/index" or "/") followed by "/oai", so it always ends in "/oai" |
| `Extractor.EndpointCases` | extra/pkpindex/pkpindex.go:131-138 | each branch of the switch gives its result; "/oai" is appended to the whole homepage exactly when neither suffix is present |
| `Extractor.EndpointOfIndexOrSlash` | extra/pkpindex/pkpindex.go:131-135 | `root/index` and `root/` give the same endpoint, `root/oai` |
| `Extractor.EndpointExamplesTrimmed` | extra/pkpindex/pkpindex.go:132-135 | `http://x/` and `http://x/index` both give `http://x/oai` |
| `Extractor.EndpointExamplesAppended` | extra/pkpindex/pkpindex.go:136-137 | `http://x` gives `http://x/oai`, and the empty homepage gives `/oai` |
| `Extractor.ExtractJournalInfo` | extra/pkpindex/pkpindex.go:121-144 | `extractJournalInfo` with `pup` as an input; its contract is `Extractor.ExtractJournalInfoSpec` |
| `Extractor.ExtractJournalInfoSpec` | extra/pkpindex/pkpindex.go:121-144 | the name is `runPup` of the page with `h3 text{}`, the homepage `runPup` with the `archiveLinks` selector; the endpoint is the homepage's root plus "/oai"; name and homepage are non-empty only when `pup` answered; a blank page gives `("", "", "/oai")` |
| `AtomicFile.TempName` | extra/pkpindex/pkpindex.go:267 | `ioutil.TempFile(dir, name)`: the target's name followed by a decimal random number; `Crawling.TempNameIsNoPage` proves it never is a page name |
| `AtomicFile.AtomicWrite` | extra/pkpindex/pkpindex.go:265-289 | the whole effect of `WriteFileAtomic` as a function of the directory and the system calls' answers; its contract is split over the three lemmas below |
| `AtomicFile.AtomicWriteCalls` | extra/pkpindex/pkpindex.go:265-289 | a failed creation makes no other call; otherwise the error is the first failure in the order write, sync, close, chmod, rename; close and chmod always happen; rename happens exactly when nothing failed before it; remove happens exactly when there is an error |
| `AtomicFile.AtomicWriteDir` | extra/pkpindex/pkpindex.go:265-289 | without error the target holds the data with the requested mode; with an error the target is untouched, and the directory is unchanged when creation failed or the removal succeeded; no other name but the temporary one ever changes |
| `AtomicFile.AtomicWriteEffects` | extra/pkpindex/pkpindex.go:265-289 | the two lemmas above together |
| `AtomicFile.FillTemp` | extra/pkpindex/pkpindex.go:271-280 | the temporary file ends with the bytes that were written and the mode chmod left; the first error of write, sync, close and chmod is kept; sync runs only after a complete write |
| `AtomicFile.WriteFileAtomic` | extra/pkpindex/pkpindex.go:265-289 | the step-by-step method, one error variable threaded through, has exactly the calls, error and directory of `AtomicWrite` |
| `Crawling.Iterations` | extra/pkpindex/pkpindex.go:178 | the number of times `for i := 0; i < *maxID; i++` runs: `maxID`, or none when it is not positive |
| `Crawling.Skipped` | extra/pkpindex/pkpindex.go:189-193 | the skip rule: the file exists and is non-empty, or it exists and force is off |
| `Crawling.CrawlStep` | extra/pkpindex/pkpindex.go:180-229 | one call of `wrapFunc`; its contract is spread over `StepCounts`, `StepResponse`, `StepRefreshes`, `StepFetches` and the lemmas after them |
| `Crawling.Exchange` | extra/pkpindex/pkpindex.go:198-228 | the request and its response handling; stated through `CrawlStep`'s lemmas and `Crawling.ExchangeFrame` |
| `Crawling.CrawlRun` | extra/pkpindex/pkpindex.go:178-231 | `n` iterations of the loop, ending at the first `log.Fatal`; its contract is spread over the run lemmas below |
| `Crawling.StepCounts` | extra/pkpindex/pkpindex.go:180-198 | a stopped step changes nothing; otherwise the counter goes up by one; the step skips exactly when the new ID's file is non-empty, or empty with force off; a skip changes nothing but the counter; the ID is requested exactly when it is not skipped |
| `Crawling.StepResponse` | extra/pkpindex/pkpindex.go:198-204 | a transport error and a status of 400 or more are fatal right after the request, in both directions; fatal outcomes other than a failed write leave the cache unchanged |
| `Crawling.StepRefreshes` | extra/pkpindex/pkpindex.go:206-216 | a response below 400 with a `refresh` header, to an ID that is not skipped: when the empty write succeeds, the step is `Refreshed`, the ID's file is empty with mode 0644, the streak grows by one and nothing else changes but the counter and the requests; when it fails, the step aborts with the write's error and the ID's entry is as it was |
| `Crawling.StepFetches` | extra/pkpindex/pkpindex.go:217-228 | any other response below 400, to an ID that is not skipped, resets the streak; a body that fails to read aborts with the cache unchanged; otherwise the body is written, and on success the step is `Fetched`, the ID's file holds the body with mode 0644 and one sleep follows; a failed write aborts with its error and leaves the ID's entry as it was |
| `Crawling.StepRefreshStores` | extra/pkpindex/pkpindex.go:206-216 | conversely, a `Refreshed` step had a refresh response, and it leaves an empty file at the new ID and one more refresh in the streak |
| `Crawling.StepFetchStores` | extra/pkpindex/pkpindex.go:217-228 | conversely, a `Fetched` step had a response without a refresh header and with a readable body, and it leaves that body at the new ID's file and resets the streak |
| `Crawling.StepBookkeeping` | extra/pkpindex/pkpindex.go:207-228 | only a fetched page sleeps, and the streak grows by at most one per step |
| `Crawling.TempNameIsNoPage` | extra/pkpindex/pkpindex.go:265-267 | a temporary name never equals a cache file name |
| `Crawling.WriteFrame` | extra/pkpindex/pkpindex.go:211-222 | writing one ID's page leaves every other ID's cache entry as it was |
| `Crawling.ExchangeFrame` | extra/pkpindex/pkpindex.go:198-228 | handling a response touches no cache entry but its own ID's |
| `Crawling.StepFrame` | extra/pkpindex/pkpindex.go:180-229 | a step touches no cache entry but the one of the ID it processes |
| `Crawling.IterateKeeps` | extra/pkpindex/pkpindex.go:178-231 | an invariant of one step holds after any number of iterations |
| `Crawling.IterateKeepsWithoutFatal` | extra/pkpindex/pkpindex.go:178-231 | when no step from an invariant state is fatal, a run ends in an invariant state with no fatal error |
| `Crawling.IterateFixpoint` | extra/pkpindex/pkpindex.go:178-231 | a state that a step leaves alone stays as it is for the rest of the loop |
| `Crawling.IterateCounts` | extra/pkpindex/pkpindex.go:178-231 | when each step raises the counter by at most one, `n` iterations raise it by at most `n` |
| `Crawling.IterateProgress` | extra/pkpindex/pkpindex.go:178-231 | when every step either stops for good or raises the counter by exactly one, a run without a fatal error has raised it by `n` or has stopped |
| `Crawling.CrawlCounts` | extra/pkpindex/pkpindex.go:178-184 | `n` iterations raise the counter by at least zero and at most `n` |
| `Crawling.StoppedCrawlIsInert` | extra/pkpindex/pkpindex.go:181-183 | once the streak is over the threshold, the rest of the loop changes nothing and is never fatal |
| `Crawling.CrawlProgress` | extra/pkpindex/pkpindex.go:178-184 | a run without a fatal error has processed one ID per iteration, unless the early stop fired |
| `Crawling.FollowsCompose` | extra/pkpindex/pkpindex.go:178-231 | "requests only appended, each new one within the counters" composes over consecutive runs |
| `Crawling.NewRequestsInRange` | extra/pkpindex/pkpindex.go:184-198 | a run only appends to the requests made so far, and each new request lies above the starting counter and at most at the final one |
| `Crawling.RequestsIncrease` | extra/pkpindex/pkpindex.go:184-198 | requests stay strictly increasing and never above the counter: no ID is requested twice |
| `Crawling.CrawlStaysInRange` | extra/pkpindex/pkpindex.go:176-186 | from a fresh start, requested IDs increase strictly and lie between 1 and the loop bound |
| `Crawling.CrawlTriesEveryId` | extra/pkpindex/pkpindex.go:178-231 | while the streak cannot pass the threshold, a run without a fatal error processes exactly `n` IDs |
| `Crawling.MaxIdIsProcessed` | extra/pkpindex/pkpindex.go:176-186 | with `1 <= maxID <= maxSubsequentRefreshes + 1`, a run without a fatal error brings the counter to `maxID`: ID `maxID` itself is processed, requested unless it is cached |
| `Crawling.StepKeepsUncached` | extra/pkpindex/pkpindex.go:189-198 | a step keeps the cache above the counter as the run found it, and requests only IDs that were not skippable |
| `Crawling.RequestsOnlyUncached` | extra/pkpindex/pkpindex.go:189-198 | every ID a run requests was not skippable in the cache it started from; in particular a non-empty page is never fetched again |
| `Crawling.FullyCachedCrawlIsOffline` | extra/pkpindex/pkpindex.go:189-193 | over a cache that holds a page for every ID the run reaches, no request is made and nothing is written |
| `Crawling.SentinelsUpToKeys` | extra/pkpindex/pkpindex.go:211 | the cache after `k` refreshes has an empty file for each ID from 1 to `k` and nothing above |
| `Crawling.RefreshWrite` | extra/pkpindex/pkpindex.go:211 | when writes succeed, the next empty file turns the cache of `k` refreshes into that of `k+1` |
| `Crawling.RefreshStep` | extra/pkpindex/pkpindex.go:206-216 | below the threshold, a refresh takes the state after `k` refreshes to the state after `k+1` |
| `Crawling.RefreshKeepsRefreshing` | extra/pkpindex/pkpindex.go:181-216 | while every response is a refresh, a state reached by refreshes alone stays such a state and never meets a fatal error |
| `Crawling.RefreshRun` | extra/pkpindex/pkpindex.go:178-231 | a run from such a state stays one, meets no fatal error, and ends having used every iteration or having stopped |
| `Crawling.AllRefreshesStopAfterThreshold` | extra/pkpindex/pkpindex.go:178-231 | when every response is a refresh and every write succeeds, a long enough run requests exactly the IDs 1 to `maxSubsequentRefreshes + 1`, leaves an empty file for each, never sleeps, and then goes quiet |
| `Crawling.Crawler.constructor` | extra/pkpindex/pkpindex.go:176-177 | a new crawler is at counter 0 with no streak, no requests and no sleeps |
| `Crawling.Crawler.Step` | extra/pkpindex/pkpindex.go:180-229 | one call of the closure updates the fields and returns the outcome exactly as `CrawlStep` |
| `Crawling.Crawler.Request` | extra/pkpindex/pkpindex.go:198-228 | the request and the handling of its response, exactly as `Exchange` |
| `Crawling.Crawler.StoreRefresh` | extra/pkpindex/pkpindex.go:207-216 | the refresh branch: the cache becomes the atomic write's directory, and the streak grows only if the write succeeded |
| `Crawling.Crawler.StorePage` | extra/pkpindex/pkpindex.go:217-228 | the page branch: the cache becomes the atomic write's directory, and a sleep happens only if the write succeeded |
| `Crawling.Crawler.Run` | extra/pkpindex/pkpindex.go:178-231 | the `for` loop updates the fields and reports the fatal error exactly as `CrawlRun` over `maxID` iterations (none when `maxID <= 0`) |
| `Extraction.Keeps` | extra/pkpindex/pkpindex.go:235-240 | the callback's filter: not a directory and a size above zero |
| `Extraction.Selected` | extra/pkpindex/pkpindex.go:234-243 | the paths the callback appends, in walk order; stated by `SelectedMembers`, `SelectedAscending` and `CollectFiles` |
| `Extraction.SelectedMembers` | extra/pkpindex/pkpindex.go:234-243 | a path is collected exactly when the walk visits it as a non-empty file that is not a directory |
| `Extraction.SelectedAscending` | extra/pkpindex/pkpindex.go:234-243 | collected paths keep the walk's strictly ascending order |
| `Extraction.CollectFiles` | extra/pkpindex/pkpindex.go:233-243 | the callback's appends produce exactly the selected paths, in order |
| `Extraction.CollectedPagesAreCachedPages` | extra/pkpindex/pkpindex.go:234-243 | over a walk of the harvest directory, an ID's file is collected exactly when it holds a non-empty page, so refresh markers are passed over |
| `Extraction.CollectedPagesInIdOrder` | extra/pkpindex/pkpindex.go:234-243 | up to 999999, collected pages come in increasing ID order |
| `Extraction.ReadablePrefix` | extra/pkpindex/pkpindex.go:148-155 | the count of readable files from the front: all before it are readable, and the one at it is not |
| `Extraction.Records` | extra/pkpindex/pkpindex.go:147-163 | the records of files that all read, one each, in order; stated by `RecordsAt` |
| `Extraction.RecordsAt` | extra/pkpindex/pkpindex.go:156-160 | there is one record per file, and the `i`-th record is extracted from the `i`-th file's bytes |
| `Extraction.ExtractEach` | extra/pkpindex/pkpindex.go:147-163 | the loop returns the records of the readable prefix, plus the first unreadable file or no error |
| `Extraction.ExtractFromFiles` | extra/pkpindex/pkpindex.go:147-163 | the same, with `extractJournalInfo` as the extraction |
| `Extraction.AllReadableGivesOneRecordEach` | extra/pkpindex/pkpindex.go:147-163 | when every file is readable there is no error, and one record per file built by `extractJournalInfo` |

## Left out

- Command-line flags and their defaults are not modelled. The XDG cache
  directory, the date tag and the base URL are left out, and the crawl
  takes `maxID`, `force` and `maxSubsequentRefreshes` as a `Config`.
- `-s` (the sleep duration) and `-verbose` are left out. A sleep is
  counted, not timed, and log output has no effect on the model.
- The URL built for each ID is left out. The upstream is a function from
  ID to response.
- The `pester` HTTP client is modelled only through its final answer.
  Its retries and 429 handling are out.
- Closing the response body is left out.
- Creating the harvest directory (`os.Stat` plus `os.MkdirAll`) and its
  failure are left out. The crawl starts from a given directory.
- `log.Fatal` is modelled as an `Aborted` outcome that ends the run. The
  process exit itself is not modelled.
- Crawling.CrawlStep: any `os.Stat` failure other than "does not exist"
  is not modelled. A file is cached exactly when its name is in the
  directory.
- AtomicFile.WriteFileAtomic: `ioutil.TempFile` retries random names on
  a clash. The model takes one random number as input and counts a clash
  as a failed creation.
- AtomicFile.WriteFileAtomic: the error of the final `os.Remove` is
  ignored, as in the source. A failed removal is modelled only by the
  temporary file staying behind.
- Directory paths are left out. The cache is one directory keyed by file
  name, and `path.Join` and `path.Split` are not modelled.
- `filepath.Walk` itself is left out. The entries it visits, in its
  order, are an input. The callback ignores its `err` argument and would
  dereference a nil `info` on a failed `lstat`; neither is modelled.
- `encoding/json` output and printing are left out.
- The external `pup` process is a function from input and selector to
  output or failure. `ioutil.ReadFile` is a function from path to bytes
  or failure.
- The every-200-files progress log in `extractFromFiles` is left out.
- Text.TrimSpace: only the ASCII white space (tab, line feed, vertical
  tab, form feed, carriage return, space) is modelled. Unicode white
  space such as U+0085 and U+00A0 is not trimmed.
- Integer widths are unbounded. Go's `int` counter cannot overflow for
  any realistic `-x`.
