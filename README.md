# random-walk-bot in Dafny

This project models the crawl engine of random-walk-bot and the three
Python scripts around it.

The crawl engine (main.js) drives a browser through a random walk over
cross-site links:
- From all open tabs it harvests the links that lead to another
  registrable domain (eTLD+1).
- It picks one of those links at random.
- It closes every tab except the one the link is on.
- It clicks the link.
- It records, step by step, the URLs every tab showed since the previous
  step.

The Python scripts:
- crawl.py starts one crawl per seed URL, each in a fresh directory named
  after the URL.
- analyze.py turns the trace logs into one row per navigated tab.
- aggcnt.py sums key counts read one JSON object per line and writes the
  25 largest totals.

Modules, one per file:

- `Outcomes` (outcomes.dfy): `Option`.
- `Strings` (strings.dfy): the string-prefix test both languages use.
- `NavReporter` (nav_reporter.dfy): the navigation tracer as a `Tracer`
  class. It holds:
  - the tag counter;
  - the tab-to-tag map;
  - the trace buffer.

  Each browser event handler is a method that updates this state in
  place. The report operation swaps the buffer out and renames the
  clicked tab's key. The function `Applied` says what each handler does to
  the state as a value, and lemmas state what every run of notifications
  keeps.
- `LinkHarvester` (link_harvester.dfy): the harvester's two nested loops as
  methods, proved equal to the function `Harvest`. Lemmas say what every
  harvested link satisfies and how each kind of failure is contained.
- `TabIsolator` (tab_isolator.dfy): `closeOtherPages`.
- `RandomPick` (random_pick.dfy): `getRandomInt` and `getRandomElement`.
  `Math.random()` is given as a fraction `num / den` in [0, 1).
- `RandomWalk` (random_walk.dfy): the walk loop `doRandomCrawl`. A step
  reports, harvests, picks, isolates and clicks. The walk ends when a step
  fails or when the deadline fires. The function `Walked` gives the records
  a walk pushes and the tracer's state after them, and `Outcome` gives how
  many steps it takes and how it ends.
- `Analyze` (analyze.dfy): analyze.py's loops over files, records and tab
  entries, together with:
  - the differing-field list;
  - the new query/fragment pairs and their score;
  - the key counter;
  - the document origins.
- `Crawl` (crawl.dfy): URL munging, the random tag, the collection
  directory, the job each seed URL gets, and the loop of `main`.
- `AggCount` (aggcnt.dfy): `dict(data)` per line, the in-place `Counter`
  updates and `most_common(25)`.

How the outside world is modelled:
- Browser calls that can fail appear as inputs to the model:
  - whether the seed page loaded;
  - the pages, anchors and hrefs the browser reports;
  - which closes reject and whether the click succeeds.
- These library functions are fields of a datatype of functions:
  - the URL parser and resolver;
  - the public-suffix lookup;
  - `urlparse` and `parse_qsl`.

  In the JavaScript, `None` stands for a call that throws.
- The deadline is modelled by giving the walk a finite sequence of steps.
  If the walk gets through all of them, the deadline fired first.

## Model

| member | source | states |
|---|---|---|
| NavReporter.Appended | main.js:88-89 | the trace of the tag gets the URL appended, created empty when absent; every other tag keeps its list |
| NavReporter.TagOf | main.js:104 | a tab has a tag exactly when it is in the tag map, and the tag is the map's value |
| NavReporter.RekeyedEntries | main.js:118-127 | in `Rekeyed`, the reference tab's entry, when present, moves to "clicked-tab" and leaves no numeric key; without it there is no "clicked-tab"; every other tag keeps its list and nothing else appears |
| NavReporter.RekeyedEmpty | main.js:117-133 | a report from an empty buffer has no entries |
| NavReporter.AppliedAllWellFormed | main.js:84-115 | any run of notifications keeps every live tag and every buffered tag below the tag counter and gives no two live tabs the same tag; the counter never goes back |
| NavReporter.ChangeAfterDestroyIgnored | main.js:102-115 | once a tab is destroyed, a URL change it reports leaves the state unchanged |
| NavReporter.TraceOnlyGrows | main.js:84-110 | until the next report, a buffered trace is only extended: what it held stays as its prefix |
| NavReporter.Tracer.ValidIsWellFormed | main.js:80-115 | a consistent tracer never gives two live tabs the same tag |
| NavReporter.Tracer.constructor | main.js:80-82 | the tag counter starts at 0, the tag map and the buffer empty |
| NavReporter.Tracer.OnTargetCreated | main.js:84-90 | a page target gets the next tag, which is larger than every live tag, and its trace starts with its URL; other targets change nothing |
| NavReporter.Tracer.OnTargetChanged | main.js:102-110 | the URL is appended to the trace of a page target that still has a tag; otherwise the buffer is unchanged |
| NavReporter.Tracer.OnTargetDestroyed | main.js:111-115 | only the target's map entry is removed; its pending trace stays |
| NavReporter.Tracer.Deliver | main.js:84-115 | the tracer's new state is exactly what the event's handler makes of the old one (`Applied`), and the tag counter never decreases |
| NavReporter.Tracer.Report | main.js:117-134 | the buffer is emptied; the record carries the document URL, the clicked URL and the old buffer re-keyed for the reference tab |
| NavReporter.ReportTwice | main.js:118-119 | a second report with no event in between has no entries |
| NavReporter.DestroyThenReport | main.js:111-127 | a destroyed tab's pending URLs are reported under their numeric tag, and there is no "clicked-tab" entry |
| LinkHarvester.AnchorLinkExactly | main.js:29-44 | one anchor (`AnchorLink`) pushes a candidate only when that candidate links from it: it resolves to an "http..." URL on another eTLD+1, with that domain and URL, on this page; it pushes nothing only when no candidate links from it |
| LinkHarvester.AnchorLinks | main.js:27-45 | every candidate one page's anchor loop pushes carries that page |
| LinkHarvester.HarvestMembers | main.js:21-51 | a link is in `Harvest` exactly when some open page's `PageLinks` has it |
| LinkHarvester.AnchorLinksComplete | main.js:27-45 | every anchor read before the first failing `page.evaluate` whose target qualifies yields its candidate |
| LinkHarvester.PageLinksComplete | main.js:24-48 | such a candidate is among its page's links when the page URL, its eTLD+1 and the anchor query all succeed |
| LinkHarvester.HarvestComplete | main.js:21-51 | a qualifying anchor's candidate reaches the harvest, whichever open page it sits on |
| LinkHarvester.AnchorLinksCount | main.js:27-45 | a page pushes exactly as many links as there are anchors, before the first failing `page.evaluate`, that yield a candidate |
| LinkHarvester.AnchorLinksSplit | main.js:27-45 | the anchors read without failure contribute independently of the anchors after them |
| LinkHarvester.AnchorLinksQualify | main.js:27-45 | every link one page's anchor loop pushes comes from one of its anchors, resolves to an "http..." URL and lies on another eTLD+1 than the page |
| LinkHarvester.HarvestedLinksQualify | main.js:21-51 | every harvested link qualifies for one of the open pages |
| LinkHarvester.BadHrefDropsOnlyItself | main.js:29-44 | an href that does not resolve drops only its own anchor |
| LinkHarvester.EvaluateFailureKeepsPrefix | main.js:24-48 | an href evaluation that throws ends the page's loop and keeps the links already pushed |
| LinkHarvester.HarvestAppend | main.js:23-49 | pages contribute independently, in page order |
| LinkHarvester.UnparsablePageContributesNothing | main.js:25 | a page whose URL does not parse contributes no link |
| LinkHarvester.HarvestLinks | main.js:21-51 | the outer loop over the pages returns exactly `Harvest` of the pages |
| LinkHarvester.CollectPageLinks | main.js:24-48 | one page's anchor loop pushes exactly that page's links after those already collected |
| TabIsolator.IndexOf | main.js:56 | -1 exactly when the page is absent, otherwise its first index |
| TabIsolator.CloseOtherPages | main.js:54-62 | fails exactly when the page is not open; otherwise it closes the list minus the found entry, in order, which is a permutation of the pages minus one copy of the page, and it succeeds exactly when no closed page rejects |
| TabIsolator.IsolationKeepsOnlyPage | main.js:60-61 | with distinct pages, the kept page is the only open page not closed |
| RandomPick.ScaledFloor | main.js:68 | `floor(random * k)` is below `k` for `k > 0` |
| RandomPick.RandomInt | main.js:65-69 | the result lies in [min, max) when the range is not empty |
| RandomPick.RandomElement | main.js:71-73 | the result is undefined exactly on an empty array, and is otherwise the element at the index `RandomIndex` draws |
| RandomPick.RandomIndex | main.js:72 | the index read lies within the array |
| RandomWalk.Chosen | main.js:156 | the picked link is one of the harvested links |
| RandomWalk.StepFailure | main.js:152-162 | a step can fail only by a harvest, isolation or click failure, never by a seed-load failure or the deadline |
| RandomWalk.DeliverAll | main.js:84-115 | after a step's notifications the tracer is in the state they lead to in order (`AppliedAll`), and stays consistent |
| RandomWalk.ReportStep | main.js:151 | the record carries the previous step's page URL and link, and its entries are the buffer after the step's notifications with `lastPage`'s tag renamed; the tracer keeps the notifications' state with an empty buffer |
| RandomWalk.TakeStep | main.js:152-162 | a step fails exactly as `StepFailure` says, and a step that completes has clicked a harvested link |
| RandomWalk.WalkStep | main.js:150-162 | one iteration pushes the walk's next record and leaves the tracer in the walk's next state (`Walked`); it fails exactly as `StepFailure` says, and otherwise hands the next step the chosen page's URL, the clicked link and the chosen page |
| RandomWalk.WalkedAt | main.js:147-160 | the walk holds one record per step; record `j` is headed by step `j - 1`'s choice and holds the traces collected since the previous report, with the reference page's tag renamed; after `n` reports the tracer has those traces' state and an empty buffer |
| RandomWalk.FirstRecordEmpty | main.js:147-151 | with an empty buffer and no notification before it, the first record has no entries |
| RandomWalk.ClickedTabIsChosenPage | main.js:151-160 | a record's "clicked-tab" entry is the trace of the page the previous step chose, and every other buffered tag keeps its own entry |
| RandomWalk.OutcomeAt | main.js:150-164 | once the steps before step `k` completed, step `k` decides the outcome: the deadline when there is no step `k`, its own failure when it fails |
| RandomWalk.EmptyHarvestEndsWalk | main.js:151-155 | an empty harvest ends the walk with "hey, we ran outta links..." after the step pushed its record |
| RandomWalk.DoRandomCrawl | main.js:137-165 | a failed seed load ends the walk with no record; otherwise there is one record per step begun, the first headed "START" and the seed URL and each later one by the previous step's choice, each equal to `Walked`'s; the number of records and the end are `Outcome`'s; a failing step has pushed its record first; the deadline ends the walk after every step completed |
| Analyze.DiffsFrom | analyze.py:57-60 | exactly the field names from position `i` on where the two URLs differ, in field order |
| Analyze.DifferingFields | analyze.py:57-61 | `["="]` exactly when the URLs agree on all six components; otherwise exactly the differing names, in field order |
| Analyze.NewFields | analyze.py:63-69 | a pair is new exactly when the navigated URL's query or fragment has it and neither of the clicked URL's does |
| Analyze.FieldScoreBound | analyze.py:70-72 | the score (`FieldScore`) is at least 10 per new pair, and 0 exactly when there is none |
| Analyze.FieldScoreRemove | analyze.py:70-72 | the sum does not depend on which pair is taken first |
| Analyze.NewFieldScore | analyze.py:70-72 | the loop computes `FieldScore` |
| Analyze.KeyCountAdd | analyze.py:74 | one more pair raises its key's count by one and leaves every other key's count alone |
| Analyze.AddKeyCounts | analyze.py:74 | every key's count grows by the number of new pairs with that key, and no zero entry appears |
| Analyze.TabLabel | analyze.py:83 | "same-tab" exactly for the "clicked-tab" key, "new-tab" for every other key |
| Analyze.JoinShape | analyze.py:78 | `"/".join(parts)` starts with the first part and ends with the last, and its length is the parts' lengths plus one separator between each two |
| Analyze.DifferingColumn | analyze.py:57-78 | the joined differing-fields column is "=" exactly when the two URLs split alike |
| Analyze.EntryRowColumns | analyze.py:76-91 | a row (`EntryRow`) has "=" exactly when the clicked and navigated URLs split alike, score 0 exactly when no pair is new, "same-tab" exactly for the "clicked-tab" key, and the record's and entry's own values in the other columns |
| Analyze.DocumentNetlocsExactly | analyze.py:38-42 | a netloc is collected exactly when some record's document URL other than "START" has it |
| Analyze.DocumentOrigins | analyze.py:38-43 | the origins (`DistinctDocumentOrigins`) are the seed netloc plus the netloc of every document URL that is not "START", and nothing else |
| Analyze.EntriesRowsCount | analyze.py:52-53 | exactly one row per tab entry with a non-empty URL list |
| Analyze.EntriesRowsSource | analyze.py:52-55 | each row uses the first URL of some non-empty entry and labels the tab by that entry's key |
| Analyze.AnalyzeEntry | analyze.py:53-91 | one entry yields its row and counter update when its list is not empty, and nothing otherwise |
| Analyze.AnalyzeRecord | analyze.py:47-91 | a record appends its entries' rows in order and adds their key counts |
| Analyze.AnalyzeFile | analyze.py:34-91 | an empty file gives nothing; otherwise its origins, and the rows and counts of every record after the first |
| Analyze.AnalyzeFiles | analyze.py:20-91 | the files in argument order give the concatenated rows, the origin sets of the files in order, and a counter equal to the summed key counts with no zero entry |
| Analyze.FilesOriginsAt | analyze.py:24-45 | there is one origin set per file, and each is that file's origins |
| Crawl.MungedUrlChars | crawl.py:22 | the munged URL (`MungedUrl`) has min(len, 64) characters; each allowed character is kept and any other becomes '_', so every character is allowed |
| Crawl.TagAlphabetDistinct | crawl.py:23 | the letters-and-digits alphabet has no repeated character, and each character is allowed in a munged name |
| Crawl.RandomTagChars | crawl.py:23 | the tag (`RandomTag`) is 8 pairwise-distinct letters or digits |
| Crawl.PathJoinShape | crawl.py:24 | `os.path.join(a, b)` ends with `b` and keeps `a` in front of a relative `b` |
| Crawl.CollectionDirBelowHost | crawl.py:24 | the collection directory (`CollectionDir`) is the hostname followed by the one component `munged.tag`, with a '/' between them when the hostname needs one; it is not empty and does not end in '/' |
| Crawl.JoinBelow | crawl.py:27-30 | joining a relative name onto such a directory puts exactly one '/' between them |
| Crawl.JobLayout | crawl.py:24-38 | in the job for a URL (`JobFor`), the log and trace files lie directly in the collection directory, which lies below the host; the command runs main.js on the URL with the trace file |
| Crawl.CrawlMain | crawl.py:15-24 | with no URL it ends with exit code 2 and no job; otherwise one job per URL, in order, stopping at the first URL without a hostname |
| AggCount.DictOfKeys | aggcnt.py:13 | `dict(data)` (`DictOf`) has exactly the keys the line names |
| AggCount.DictOfLastWins | aggcnt.py:13 | a repeated key within one line keeps the value of its last occurrence |
| AggCount.AddedCounts | aggcnt.py:13 | after `update` (`Added`), the counter has the keys of both, and each key counts its old count plus the line's value |
| AggCount.TotalIsSum | aggcnt.py:11-13 | a key's final count (`Total`) is the sum of its values across all lines, and a key is counted exactly when some line names it |
| AggCount.MaxKey | aggcnt.py:15 | the key found has a count at least as large as every other key's |
| AggCount.Counter.constructor | aggcnt.py:10 | the counter starts empty |
| AggCount.Counter.Update | aggcnt.py:13 | every key of the line gets its value added to its count; keys not in the line keep theirs |
| AggCount.Counter.MostCommon | aggcnt.py:15 | min(n, number of keys) rows of distinct keys, each with its own count, in non-increasing order, and no omitted key counts more than a written one |
| AggCount.SelectStep | aggcnt.py:15 | taking a largest remaining key as the next row keeps the selection invariant |
| AggCount.SelectionDone | aggcnt.py:15 | when n rows are taken or no key is left, the rows are those `most_common(n)` writes |
| AggCount.Aggregate | aggcnt.py:8-16 | the rows written are the 25 most common keys of the summed counter |

## Left out

- Browser and process lifecycle are not modelled:
  - the temporary profile directory, Xvfb and the browser launch;
  - `process.exit`;
  - writing the trace log.

  The walk returns its record list instead.
- `page.setUserAgent` in the 'targetcreated' handler is left out, because
  it changes nothing the tracer keeps.
- The walk takes the 'targetcreated' handler's work to happen before the
  next report, and every event to be delivered before the report of its
  step. The interleaving of asynchronous handlers and `await` points is
  not modelled.
- A page and its target are the same value in the model
  (`referencePage.target()`).
- The URL parser, the URL resolver and the public-suffix list are given
  functions. Their internals are not modelled.
- Console output from the JavaScript (`console.log`, `console.error`) is
  not modelled.
- The walk's deadline, the 15-second settle time and the navigation
  timeout are wall-clock behaviour. The model replaces them with a finite
  number of steps, so what the deadline interrupts within a step is not
  modelled.
- `Promise.all` in `closeOtherPages` is modelled by which closes reject. The
  concurrency and order of the closes are not modelled.
- RandomPick.RandomInt: covers whole bounds with `min <= max` only, the way
  its one caller uses it. The floating-point product and `Math.ceil` /
  `Math.floor` on fractional bounds are not modelled.
- `urlparse` and `parse_qsl` are not modelled. JSON loading, CSV writing,
  printing to standard error and file opening in analyze.py are not
  modelled either. The records are inputs and the rows are outputs.
- crawl.py:
  - `urlparse(url).hostname` is an input sequence, one entry per argument.
  - `random.sample` is an input: the positions it drew.
- crawl.py: `os.makedirs` (with `exist_ok=False`), opening the log file, the
  "Crawling" message and `subprocess.run` with `check=True` and its 300-second
  timeout are file and process I/O. They are not modelled. So the model
  does not capture:
  - a directory that already exists;
  - a crawl that exits non-zero;
  - the caught `TimeoutExpired`.
- Crawl.JobLayout: the trace file in the command is the joined path, not
  its `os.path.abspath` form, because the working directory is not
  modelled.
- crawl.py:16 tests `len(sys.argv)` and loops over `sys.argv[1:]`, while the
  usage line reads `argv[0]`. The model takes the two to be the same list,
  which is how `main(sys.argv)` calls it.
- AggCount.Counter.MostCommon: the order among keys with equal counts is not
  stated. `most_common` keeps insertion order there, which is library
  behaviour.
- AggCount: every count is an integer. `Counter.update` also accepts other
  numbers, and its fast path for an empty counter copies values directly.
  For integers that is the same as adding them to 0.
- aggcnt.py's JSON parsing and tab-separated output are not modelled. The
  lines are key/count pair lists and the rows are returned.
