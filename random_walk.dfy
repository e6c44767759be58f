/** The walk loop of main.js (`doRandomCrawl`): load the seed page, then step
    after step report the traces, harvest links, pick one at random, isolate
    its page and click it, until a step fails or the deadline fires. */
module RandomWalk {

  import opened Outcomes
  import opened NavReporter
  import opened RandomPick
  import opened TabIsolator
  import LinkHarvester

  /** What the browser does during one walk step, as the loop observes it. */
  datatype StepWorld<P, E> = StepWorld(
    /** lifecycle notifications delivered since the previous report */
    events: seq<Event<P>>,
    /** the harvester's result; `None` when it threw (`browser.pages()` failing) */
    harvest: Option<seq<LinkHarvester.Candidate<P, E>>>,
    /** the value of `Math.random()` used by `getRandomElement` */
    draw: Draw,
    /** `page.url()` of the chosen link's page */
    pageUrl: string,
    /** `browser.pages()` during isolation (`None`: it rejected), and the pages
        whose `close()` rejects */
    openPages: Option<seq<P>>,
    failsToClose: set<P>,
    /** whether `element.click()` resolved */
    clickOk: bool)

  /** How a run of the walk ends. The loop has no successful exit: either a
      step throws, or the deadline fires while it is still walking. */
  datatype WalkEnd =
    | SeedLoadFailed   // `page.goto(seedUrl)` rejected
    | HarvestFailed    // the harvester threw
    | OutOfLinks       // "hey, we ran outta links..."
    | PagesFailed      // `browser.pages()` rejected while isolating the page
    | PageNotOpen      // the chosen page was no longer open ("no such page in browser")
    | CloseFailed      // closing another page rejected
    | ClickFailed      // the click rejected
    | DeadlineReached  // the deadline fired first

  /** The link a step picks, when its harvest is not empty. */
  function Chosen<P, E>(w: StepWorld<P, E>): (c: LinkHarvester.Candidate<P, E>)
    requires ValidDraw(w.draw) && w.harvest.Some? && |w.harvest.value| > 0
    ensures c in w.harvest.value
  {
    RandomElement(w.harvest.value, w.draw).value
  }

  /** How step `w` ends the walk, if it does: no links harvested (or the
      harvester threw), the chosen page no longer open, a rejected close,
      a rejected click. `None`: the step runs to its end. */
  ghost function StepFailure<P, E>(w: StepWorld<P, E>): (r: Option<WalkEnd>)
    requires ValidDraw(w.draw)
    ensures r.Some? ==> r.value != SeedLoadFailed && r.value != DeadlineReached
  {
    if w.harvest.None? then Some(HarvestFailed)
    else if |w.harvest.value| == 0 then Some(OutOfLinks)
    else if w.openPages.None? then Some(PagesFailed)
    else
      var page := Chosen(w).page;
      if page !in w.openPages.value then Some(PageNotOpen)
      else if SomeCloseRejects(w.openPages.value, page, w.failsToClose) then Some(CloseFailed)
      else if !w.clickOk then Some(ClickFailed)
      else None
  }

  /** Some page other than (one copy of) `page` rejects its `close()`. */
  ghost predicate SomeCloseRejects<P>(openPages: seq<P>, page: P, failsToClose: set<P>)
  {
    exists p :: p in multiset(openPages) - multiset{page} && p in failsToClose
  }

  ghost predicate StepCompletes<P, E>(w: StepWorld<P, E>)
  {
    ValidDraw(w.draw) && StepFailure(w).None?
  }

  /** Step `i` of the walk runs to its end. */
  ghost predicate StepDone<P, E>(world: seq<StepWorld<P, E>>, i: nat)
  {
    i < |world| && StepCompletes(world[i])
  }

  /** The reference page of step `j`'s report (`lastPage`): the seed page on
      the first step, afterwards the page of the link step `j - 1` chose. */
  ghost function RefPage<P, E>(seedPage: P, world: seq<StepWorld<P, E>>, j: nat): P
    requires j > 0 ==> StepDone(world, j - 1)
  {
    if j == 0 then seedPage else Chosen(world[j - 1]).page
  }

  /** The document URL heading step `j`'s record (`lastDocUrl`). */
  ghost function DocHeader<P, E>(world: seq<StepWorld<P, E>>, j: nat): string
    requires j > 0 ==> StepDone(world, j - 1)
  {
    if j == 0 then "START" else world[j - 1].pageUrl
  }

  /** The clicked URL heading step `j`'s record (`lastUrl`). */
  ghost function UrlHeader<P, E>(seedUrl: string, world: seq<StepWorld<P, E>>, j: nat): string
    requires j > 0 ==> StepDone(world, j - 1)
  {
    if j == 0 then seedUrl else Chosen(world[j - 1]).url
  }

  /** The tracer's state when step `j` takes its report, from `s0` at the
      start: each step's notifications arrive, and each report empties the
      buffer. */
  ghost function Collected<P, E>(s0: TracerState<P>, world: seq<StepWorld<P, E>>, j: nat): TracerState<P>
    requires j < |world|
    decreases j
  {
    AppliedAll(if j == 0 then s0 else Collected(s0, world, j - 1).(traces := map[]), world[j].events)
  }

  /** The record step `j` pushes: headed by the seed on the first step, and
      afterwards by the page and link step `j - 1` chose; holding the traces
      collected up to the report, the reference page's tag renamed. */
  ghost function RecordAt<P, E>(s0: TracerState<P>, seedUrl: string, seedPage: P, world: seq<StepWorld<P, E>>, j: nat)
    : TraceRecord
    requires j < |world|
    requires j > 0 ==> StepDone(world, j - 1)
  {
    var s := Collected(s0, world, j);
    TraceRecord(DocHeader(world, j), UrlHeader(seedUrl, world, j),
                Rekeyed(s.traces, TagOf(s.tagMap, RefPage(seedPage, world, j))))
  }

  /** The steps before the last of the first `n` complete. */
  ghost predicate CompletesBefore<P, E>(world: seq<StepWorld<P, E>>, n: nat)
  {
    n <= |world| && forall i :: 0 <= i < n - 1 ==> StepDone(world, i)
  }

  /** The records of the first `n` steps, in order, and the tracer's state
      after the last of their reports. */
  ghost function Walked<P, E>(s0: TracerState<P>, seedUrl: string, seedPage: P, world: seq<StepWorld<P, E>>, n: nat)
    : (seq<TraceRecord>, TracerState<P>)
    requires CompletesBefore(world, n)
    decreases n
  {
    if n == 0 then ([], s0)
    else
      var prev := Walked(s0, seedUrl, seedPage, world, n - 1);
      var c := AppliedAll(prev.1, world[n - 1].events);
      (prev.0 + [TraceRecord(DocHeader(world, n - 1), UrlHeader(seedUrl, world, n - 1),
                             Rekeyed(c.traces, TagOf(c.tagMap, RefPage(seedPage, world, n - 1))))],
       c.(traces := map[]))
  }

  /** There is one record per step, the `j`th pushed by step `j`, and after
      `n` reports the tracer holds the state of the `n`th, its buffer empty. */
  lemma {:induction false} WalkedAt<P, E>(s0: TracerState<P>, seedUrl: string, seedPage: P, world: seq<StepWorld<P, E>>, n: nat)
    requires CompletesBefore(world, n)
    ensures |Walked(s0, seedUrl, seedPage, world, n).0| == n
    ensures forall j :: 0 <= j < n ==> Walked(s0, seedUrl, seedPage, world, n).0[j] == RecordAt(s0, seedUrl, seedPage, world, j)
    ensures n > 0 ==> Walked(s0, seedUrl, seedPage, world, n).1 == Collected(s0, world, n - 1).(traces := map[])
    decreases n
  {
    if n > 0 {
      WalkedAt(s0, seedUrl, seedPage, world, n - 1);
    }
  }

  /** A walk that starts with an empty buffer and sees no notification
      before its first report pushes a first record without entries. */
  lemma FirstRecordEmpty<P, E>(s0: TracerState<P>, seedUrl: string, seedPage: P, world: seq<StepWorld<P, E>>)
    requires |world| > 0 && world[0].events == [] && s0.traces == map[]
    ensures RecordAt(s0, seedUrl, seedPage, world, 0).tabNavigations == map[]
  {
    RekeyedEmpty(TagOf(s0.tagMap, seedPage));
  }

  /** A record's "clicked-tab" entry is the trace of the page the previous
      step chose, when that page still has a tag with a trace; its other
      entries keep their tags. */
  lemma ClickedTabIsChosenPage<P, E>(s0: TracerState<P>, seedUrl: string, seedPage: P, world: seq<StepWorld<P, E>>, j: nat)
    requires 0 < j < |world| && StepDone(world, j - 1)
    requires var s := Collected(s0, world, j);
      Chosen(world[j - 1]).page in s.tagMap && s.tagMap[Chosen(world[j - 1]).page] in s.traces
    ensures var s := Collected(s0, world, j);
      var tab := RecordAt(s0, seedUrl, seedPage, world, j).tabNavigations;
      var tt := s.tagMap[Chosen(world[j - 1]).page];
      && ClickedTab in tab && tab[ClickedTab] == s.traces[tt] && Tag(tt) !in tab
      && (forall t :: t in s.traces && t != tt ==> Tag(t) in tab && tab[Tag(t)] == s.traces[t])
  {
    var s := Collected(s0, world, j);
    RekeyedEntries(s.traces, TagOf(s.tagMap, Chosen(world[j - 1]).page));
  }

  /** How many records a walk from a loaded seed page pushes, and how it
      ends: at the first step that fails, or at the deadline. */
  ghost function Outcome<P, E>(world: seq<StepWorld<P, E>>): (nat, WalkEnd)
    requires forall k :: 0 <= k < |world| ==> ValidDraw(world[k].draw)
    decreases |world|
  {
    if world == [] then (0, DeadlineReached)
    else if StepFailure(world[0]).Some? then (1, StepFailure(world[0]).value)
    else
      var rest := Outcome(world[1..]);
      (rest.0 + 1, rest.1)
  }

  /** When the steps before `k` complete, the outcome is decided by step `k`:
      the deadline if there is none, its failure if it fails. */
  lemma {:induction false} OutcomeAt<P, E>(world: seq<StepWorld<P, E>>, k: nat)
    requires forall i :: 0 <= i < |world| ==> ValidDraw(world[i].draw)
    requires k <= |world|
    requires forall i :: 0 <= i < k ==> StepDone(world, i)
    ensures k == |world| ==> Outcome(world) == (k, DeadlineReached)
    ensures k < |world| && StepFailure(world[k]).Some? ==> Outcome(world) == (k + 1, StepFailure(world[k]).value)
    decreases k
  {
    if k > 0 {
      assert StepDone(world, 0);
      forall i | 0 <= i < k - 1 ensures StepDone(world[1..], i) {
        assert StepDone(world, i + 1) && world[1..][i] == world[i + 1];
      }
      OutcomeAt(world[1..], k - 1);
    }
  }

  /** A step whose harvest is empty ends the walk with "hey, we ran outta
      links...", after it pushed its own record. */
  lemma EmptyHarvestEndsWalk<P, E>(world: seq<StepWorld<P, E>>, k: nat)
    requires forall i :: 0 <= i < |world| ==> ValidDraw(world[i].draw)
    requires k < |world| && world[k].harvest == Some([])
    requires forall i :: 0 <= i < k ==> StepDone(world, i)
    ensures Outcome(world) == (k + 1, OutOfLinks)
  {
    OutcomeAt(world, k);
  }

  /** Hands the notifications of one step to the tracer, in order. */
  method DeliverAll<P(==)>(tracer: Tracer<P>, events: seq<Event<P>>)
    requires tracer.Valid()
    modifies tracer
    ensures tracer.Valid()
    ensures tracer.State() == AppliedAll(old(tracer.State()), events)
  {
    for i := 0 to |events|
      invariant tracer.Valid()
      invariant tracer.State() == AppliedAll(old(tracer.State()), events[..i])
    {
      assert events[..i + 1][..i] == events[..i];
      tracer.Deliver(events[i]);
    }
    assert events[..|events|] == events;
  }

  /** The start of a step: the notifications since the last report reach
      the tracer, then the report is taken against `lastPage`. */
  method ReportStep<P(==)>(tracer: Tracer<P>, events: seq<Event<P>>, lastDocUrl: string, lastPage: P, lastUrl: string)
    returns (rec: TraceRecord)
    requires tracer.Valid()
    modifies tracer
    ensures tracer.Valid()
    ensures tracer.State() == AppliedAll(old(tracer.State()), events).(traces := map[])
    ensures rec.tabNavigations == Rekeyed(AppliedAll(old(tracer.State()), events).traces,
                                          TagOf(AppliedAll(old(tracer.State()), events).tagMap, lastPage))
    ensures rec.documentUrl == lastDocUrl && rec.clickedUrl == lastUrl
  {
    DeliverAll(tracer, events);
    rec := tracer.Report(lastDocUrl, lastPage, lastUrl);
  }

  /** One step after its report: check the harvest, pick a link, isolate
      its page and click it. */
  method TakeStep<P(==), E>(w: StepWorld<P, E>)
    returns (chosen: Option<LinkHarvester.Candidate<P, E>>, failure: Option<WalkEnd>)
    requires ValidDraw(w.draw)
    ensures failure == StepFailure(w)
    ensures failure.None? ==> chosen == Some(Chosen(w)) && chosen.value in w.harvest.value
  {
    if w.harvest.None? {
      return None, Some(HarvestFailed);
    }
    var availableLinks := w.harvest.value;
    if |availableLinks| == 0 {
      return None, Some(OutOfLinks);
    }
    chosen := RandomElement(availableLinks, w.draw);
    if w.openPages.None? {
      return chosen, Some(PagesFailed);
    }
    var isolation := CloseOtherPages(w.openPages.value, chosen.value.page, w.failsToClose);
    if isolation.NoSuchPage? {
      return chosen, Some(PageNotOpen);
    }
    assert multiset(isolation.closed) == multiset(w.openPages.value) - multiset{chosen.value.page};
    if !isolation.allClosed {
      return chosen, Some(CloseFailed);
    }
    if !w.clickOk {
      return chosen, Some(ClickFailed);
    }
    failure := None;
  }

  /** The body of the walk loop for step `k`: its report pushes the walk's
      next record and leaves the tracer in the walk's next state; then the
      step fails as `StepFailure` says, or completes and hands the next
      step its headers and reference page. */
  method WalkStep<P(==), E>(tracer: Tracer<P>, ghost s0: TracerState<P>, seedUrl: string, seedPage: P,
                            world: seq<StepWorld<P, E>>, k: nat, traceQueue: seq<TraceRecord>,
                            lastDocUrl: string, lastPage: P, lastUrl: string)
    returns (queue: seq<TraceRecord>, failure: Option<WalkEnd>, docUrl: string, page: P, url: string)
    requires tracer.Valid()
    requires k < |world| && CompletesBefore(world, k + 1) && ValidDraw(world[k].draw)
    requires traceQueue == Walked(s0, seedUrl, seedPage, world, k).0
    requires tracer.State() == Walked(s0, seedUrl, seedPage, world, k).1
    requires lastDocUrl == DocHeader(world, k) && lastUrl == UrlHeader(seedUrl, world, k)
    requires lastPage == RefPage(seedPage, world, k)
    modifies tracer
    ensures tracer.Valid()
    ensures queue == Walked(s0, seedUrl, seedPage, world, k + 1).0
    ensures tracer.State() == Walked(s0, seedUrl, seedPage, world, k + 1).1
    ensures failure == StepFailure(world[k])
    ensures failure.None? ==>
      && (forall i :: 0 <= i < k + 1 ==> StepDone(world, i))
      && docUrl == DocHeader(world, k + 1) && url == UrlHeader(seedUrl, world, k + 1)
      && page == RefPage(seedPage, world, k + 1)
  {
    var rec := ReportStep(tracer, world[k].events, lastDocUrl, lastPage, lastUrl);
    queue := traceQueue + [rec];
    var chosen;
    chosen, failure := TakeStep(world[k]);
    docUrl, page, url := lastDocUrl, lastPage, lastUrl;
    if failure.None? {
      docUrl, page, url := world[k].pageUrl, chosen.value.page, chosen.value.url;
    }
  }

  /** The walk from the seed page `seedPage`. `world[k]` is what the browser
      does in step `k`; the deadline fires once all of `world` is walked. */
  method DoRandomCrawl<P(==), E>(tracer: Tracer<P>, seedUrl: string, seedPage: P, seedLoaded: bool,
                                 world: seq<StepWorld<P, E>>)
    returns (traceQueue: seq<TraceRecord>, end: WalkEnd)
    requires tracer.Valid()
    requires forall k :: 0 <= k < |world| ==> ValidDraw(world[k].draw)
    modifies tracer
    ensures tracer.Valid()
    ensures end == SeedLoadFailed <==> !seedLoaded
    ensures end == SeedLoadFailed ==> traceQueue == []
    // a loaded seed page: as many records and the end that the steps decide
    ensures seedLoaded ==> (|traceQueue|, end) == Outcome(world)
    // one record per step begun, as the steps before it shaped it
    ensures CompletesBefore(world, |traceQueue|)
    ensures traceQueue == Walked(old(tracer.State()), seedUrl, seedPage, world, |traceQueue|).0
    // a failing step has pushed its own record first, and failed the way `end` says
    ensures end != SeedLoadFailed && end != DeadlineReached ==>
      1 <= |traceQueue| <= |world| && StepFailure(world[|traceQueue| - 1]) == Some(end)
  {
    traceQueue := [];
    if !seedLoaded {
      return traceQueue, SeedLoadFailed;
    }
    ghost var s0 := tracer.State();
    var lastDocUrl, lastUrl, lastPage := "START", seedUrl, seedPage;
    var k := 0;
    while k < |world|
      invariant 0 <= k <= |world|
      invariant tracer.Valid()
      invariant forall i :: 0 <= i < k ==> StepDone(world, i)
      invariant |traceQueue| == k
      invariant traceQueue == Walked(s0, seedUrl, seedPage, world, k).0
      invariant tracer.State() == Walked(s0, seedUrl, seedPage, world, k).1
      invariant lastDocUrl == DocHeader(world, k) && lastUrl == UrlHeader(seedUrl, world, k)
      invariant lastPage == RefPage(seedPage, world, k)
    {
      var failure;
      traceQueue, failure, lastDocUrl, lastPage, lastUrl :=
        WalkStep(tracer, s0, seedUrl, seedPage, world, k, traceQueue, lastDocUrl, lastPage, lastUrl);
      if failure.Some? {
        OutcomeAt(world, k);
        return traceQueue, failure.value;
      }
      k := k + 1;
    }
    OutcomeAt(world, k);
    end := DeadlineReached;
  }
}
