/** The navigation tracer (`NavReporter` in main.js): it numbers every page
    target the browser creates, collects the URLs each tagged target shows
    between two walk steps, and hands the collected traces over as one record
    per step. */
module NavReporter {

  import opened Outcomes

  /** A key of a record's `tabNavigations` object: a tab tag, or the literal
      key "clicked-tab" that the reference tab's tag is renamed to. */
  datatype TraceKey = Tag(tag: nat) | ClickedTab

  /** One element of the trace log. */
  datatype TraceRecord = TraceRecord(
    documentUrl: string,
    clickedUrl: string,
    tabNavigations: map<TraceKey, seq<string>>)

  /** A browser lifecycle notification, carrying the target's type
      (`target.type()`) and, where the handler reads it, its URL. */
  datatype Event<Tab> =
    | TargetCreated(target: Tab, kind: string, url: string)
    | TargetChanged(target: Tab, kind: string, url: string)
    | TargetDestroyed(target: Tab, kind: string)

  /** The only target type the tracer follows. */
  const PageKind: string := "page"

  /** `traces[tt] = traces[tt] || []; traces[tt].push(url)`: the trace of `tag`,
      created empty when absent, with `url` appended. */
  function Appended(traces: map<nat, seq<string>>, tag: nat, url: string): (r: map<nat, seq<string>>)
    ensures r.Keys == traces.Keys + {tag}
    ensures tag !in traces ==> r[tag] == [url]
    ensures tag in traces ==> r[tag] == traces[tag] + [url]
    ensures forall k :: k in traces && k != tag ==> r[k] == traces[k]
  {
    traces[tag := (if tag in traces then traces[tag] else []) + [url]]
  }

  /** The tag the tracer currently holds for `tab` (`targetTagMap.get(target)`). */
  function TagOf<Tab>(tagMap: map<Tab, nat>, tab: Tab): (r: Option<nat>)
    ensures r.Some? <==> tab in tagMap
    ensures r.Some? ==> r.value == tagMap[tab]
  {
    if tab in tagMap then Some(tagMap[tab]) else None
  }

  /** The `tabNavigations` of a report built from the swapped-out buffer `data`:
      every numeric key is kept, except that the reference tab's tag, when it
      has an entry, is renamed to "clicked-tab". */
  function Rekeyed(data: map<nat, seq<string>>, refTag: Option<nat>): map<TraceKey, seq<string>>
  {
    map key | key in RekeyedKeys(data, refTag) :: if key.Tag? then data[key.tag] else data[refTag.value]
  }

  /** The keys of a re-keyed buffer: the tags other than the reference tab's,
      and "clicked-tab" when the reference tab has an entry. */
  function RekeyedKeys(data: map<nat, seq<string>>, refTag: Option<nat>): set<TraceKey>
  {
    (set k | k in data && Some(k) != refTag :: Tag(k))
    + (if refTag.Some? && refTag.value in data then {ClickedTab} else {})
  }

  /** The entries of a re-keyed buffer. */
  lemma RekeyedEntries(data: map<nat, seq<string>>, refTag: Option<nat>)
    ensures var r := Rekeyed(data, refTag);
      // the reference tab's entry moves to "clicked-tab" and leaves no numeric key
      && (refTag.Some? && refTag.value in data ==>
           ClickedTab in r && r[ClickedTab] == data[refTag.value] && Tag(refTag.value) !in r)
      // without such an entry there is no "clicked-tab" key at all
      && (!(refTag.Some? && refTag.value in data) ==> ClickedTab !in r)
      // every other tag keeps its own list
      && (forall t :: t in data && refTag != Some(t) ==> Tag(t) in r && r[Tag(t)] == data[t])
      // and nothing else appears
      && (forall k :: k in r && k.Tag? ==> k.tag in data && refTag != Some(k.tag))
  {
  }

  /** A report from an empty buffer has no entries, whatever the reference tab. */
  lemma RekeyedEmpty(refTag: Option<nat>)
    ensures Rekeyed(map[], refTag) == map[]
  {
    var r := Rekeyed(map[], refTag);
    assert forall k :: k !in r;
  }

  /** The tracer's state as a value: the tag counter, the live tab-to-tag
      map and the buffer of traces collected since the last report. */
  datatype TracerState<Tab> = TracerState(nextTag: nat, tagMap: map<Tab, nat>, traces: map<nat, seq<string>>)

  /** What the three handlers do to the state for one notification. */
  function Applied<Tab>(s: TracerState<Tab>, e: Event<Tab>): TracerState<Tab>
  {
    match e
    case TargetCreated(t, kind, url) =>
      if kind == PageKind then TracerState(s.nextTag + 1, s.tagMap[t := s.nextTag], Appended(s.traces, s.nextTag, url))
      else s
    case TargetChanged(t, kind, url) =>
      if kind == PageKind && t in s.tagMap then s.(traces := Appended(s.traces, s.tagMap[t], url))
      else s
    case TargetDestroyed(t, kind) =>
      if kind == PageKind then s.(tagMap := s.tagMap - {t}) else s
  }

  /** The state after the notifications, in order. */
  function AppliedAll<Tab>(s: TracerState<Tab>, events: seq<Event<Tab>>): TracerState<Tab>
    decreases |events|
  {
    if events == [] then s
    else Applied(AppliedAll(s, events[..|events| - 1]), events[|events| - 1])
  }

  /** Every live tag and every buffered tag was handed out already, and no
      two live tabs share a tag. */
  predicate WellFormed<Tab>(s: TracerState<Tab>)
  {
    && (forall t :: t in s.tagMap ==> s.tagMap[t] < s.nextTag)
    && (forall k :: k in s.traces ==> k < s.nextTag)
    && (forall t, u :: t in s.tagMap && u in s.tagMap && t != u ==> s.tagMap[t] != s.tagMap[u])
  }

  /** Any run of notifications keeps the state well formed, and the tag
      counter never goes back. */
  lemma {:induction false} AppliedAllWellFormed<Tab>(s: TracerState<Tab>, events: seq<Event<Tab>>)
    requires WellFormed(s)
    ensures WellFormed(AppliedAll(s, events))
    ensures AppliedAll(s, events).nextTag >= s.nextTag
    decreases |events|
  {
    if events != [] {
      var mid := AppliedAll(s, events[..|events| - 1]);
      AppliedAllWellFormed(s, events[..|events| - 1]);
      var e := events[|events| - 1];
      if e.TargetCreated? && e.kind == PageKind {
        var r := Applied(mid, e);
        forall t, u | t in r.tagMap && u in r.tagMap && t != u
          ensures r.tagMap[t] != r.tagMap[u]
        {
          if t != e.target && u != e.target {
            assert r.tagMap[t] == mid.tagMap[t] && r.tagMap[u] == mid.tagMap[u];
          }
        }
      }
    }
  }

  /** Once a tab is destroyed, a change it reports adds nothing to the buffer. */
  lemma ChangeAfterDestroyIgnored<Tab>(s: TracerState<Tab>, tab: Tab, url: string)
    ensures var d := Applied(s, TargetDestroyed(tab, PageKind));
      Applied(d, TargetChanged(tab, PageKind, url)) == d
  {
  }

  /** The URLs of a live tab's trace only grow: a notification appends to
      the tab's trace or leaves it alone. */
  lemma {:induction false} TraceOnlyGrows<Tab>(s: TracerState<Tab>, events: seq<Event<Tab>>, tag: nat)
    requires tag in s.traces
    ensures var r := AppliedAll(s, events);
      tag in r.traces && |r.traces[tag]| >= |s.traces[tag]|
      && r.traces[tag][..|s.traces[tag]|] == s.traces[tag]
    decreases |events|
  {
    if events != [] {
      var init := events[..|events| - 1];
      TraceOnlyGrows(s, init, tag);
      var mid := AppliedAll(s, init);
      var r := Applied(mid, events[|events| - 1]);
      assert r.traces[tag][..|mid.traces[tag]|] == mid.traces[tag];
    }
  }

  /** The tracer's state: the tag counter, the live tab-to-tag map and the
      buffer of traces collected since the last report. */
  class Tracer<Tab(==)> {
    var nextTag: nat
    var tagMap: map<Tab, nat>
    var traces: map<nat, seq<string>>
    /** The page targets in the order they were created: tag `i` was handed
        to `issued[i]`. */
    ghost var issued: seq<Tab>

    ghost predicate Valid()
      reads this
    {
      nextTag == |issued|
      && (forall t :: t in tagMap ==> tagMap[t] < nextTag && issued[tagMap[t]] == t)
      && (forall k :: k in traces ==> k < nextTag)
    }

    /** The fields as a value. */
    function State(): TracerState<Tab>
      reads this
    {
      TracerState(nextTag, tagMap, traces)
    }

    /** A valid tracer is well formed: `issued` tells the tabs apart. */
    lemma ValidIsWellFormed()
      requires Valid()
      ensures WellFormed(State())
    {
      forall t, u | t in tagMap && u in tagMap && t != u
        ensures tagMap[t] != tagMap[u]
      {
        assert issued[tagMap[t]] == t && issued[tagMap[u]] == u;
      }
    }

    /** The tracer as `NavReporter(browser)` sets it up. */
    constructor ()
      ensures Valid()
      ensures nextTag == 0 && tagMap == map[] && traces == map[] && issued == []
    {
      nextTag := 0;
      tagMap := map[];
      traces := map[];
      issued := [];
    }

    /** The 'targetcreated' handler: a page target gets the next tag, and
        its trace starts with its initial URL. Other targets change nothing. */
    method OnTargetCreated(target: Tab, kind: string, url: string)
      requires Valid()
      modifies this
      ensures Valid()
      ensures kind != PageKind ==> unchanged(this)
      ensures kind == PageKind ==>
        && nextTag == old(nextTag) + 1
        && issued == old(issued) + [target]
        && tagMap == old(tagMap)[target := old(nextTag)]
        && traces == old(traces)[old(nextTag) := [url]]
      // the new tag is larger than every tag handed out before
      ensures kind == PageKind ==> forall t :: t in old(tagMap) ==> old(tagMap)[t] < tagMap[target]
    {
      if kind == PageKind {
        var tt := nextTag;
        nextTag := nextTag + 1;
        issued := issued + [target];
        tagMap := tagMap[target := tt];
        traces := Appended(traces, tt, url);
      }
    }

    /** The 'targetchanged' handler: the URL is appended to the trace of a
        page target that still has a tag; any other target is ignored. */
    method OnTargetChanged(target: Tab, kind: string, url: string)
      requires Valid()
      modifies this`traces
      ensures Valid()
      ensures kind == PageKind && target in tagMap ==>
        traces == Appended(old(traces), tagMap[target], url)
      ensures !(kind == PageKind && target in tagMap) ==> traces == old(traces)
    {
      if kind == PageKind {
        var tt := TagOf(tagMap, target);
        if tt.Some? {
          traces := Appended(traces, tt.value, url);
        }
      }
    }

    /** The 'targetdestroyed' handler: only the tab's map entry goes; its
        pending trace stays in the buffer for the next report. */
    method OnTargetDestroyed(target: Tab, kind: string)
      requires Valid()
      modifies this`tagMap
      ensures Valid()
      ensures kind == PageKind ==> tagMap == old(tagMap) - {target}
      ensures kind != PageKind ==> tagMap == old(tagMap)
    {
      if kind == PageKind {
        tagMap := tagMap - {target};
      }
    }

    /** Delivers one lifecycle notification to its handler. */
    method Deliver(e: Event<Tab>)
      requires Valid()
      modifies this
      ensures Valid()
      ensures State() == Applied(old(State()), e)
      ensures nextTag >= old(nextTag)
    {
      match e
      case TargetCreated(t, kind, url) => OnTargetCreated(t, kind, url);
      case TargetChanged(t, kind, url) => OnTargetChanged(t, kind, url);
      case TargetDestroyed(t, kind) => OnTargetDestroyed(t, kind);
    }

    /** The report operation: swaps the whole buffer out for an empty one and
        returns it as a record, the reference tab's entry renamed. */
    method Report(referenceDocUrl: string, referencePage: Tab, clickedUrl: string) returns (rec: TraceRecord)
      requires Valid()
      modifies this`traces
      ensures Valid()
      ensures traces == map[]
      ensures rec.documentUrl == referenceDocUrl && rec.clickedUrl == clickedUrl
      ensures rec.tabNavigations == Rekeyed(old(traces), TagOf(tagMap, referencePage))
    {
      var data := traces;
      traces := map[];
      var tt := TagOf(tagMap, referencePage);
      rec := TraceRecord(referenceDocUrl, clickedUrl, Rekeyed(data, tt));
    }
  }

  /** Two reports with no event in between: the second has no entries. */
  method ReportTwice<Tab(==)>(tracer: Tracer<Tab>, docUrl: string, page: Tab, clickedUrl: string)
    returns (first: TraceRecord, second: TraceRecord)
    requires tracer.Valid()
    modifies tracer`traces
    ensures tracer.Valid() && tracer.traces == map[]
    ensures first.tabNavigations == Rekeyed(old(tracer.traces), TagOf(tracer.tagMap, page))
    ensures second.tabNavigations == map[]
  {
    first := tracer.Report(docUrl, page, clickedUrl);
    second := tracer.Report(docUrl, page, clickedUrl);
    RekeyedEmpty(TagOf(tracer.tagMap, page));
  }

  /** A destroyed tab's pending URLs survive into the next report: its tag
      no longer resolves, so they stay under their numeric key. */
  method DestroyThenReport<Tab(==)>(tracer: Tracer<Tab>, tab: Tab, docUrl: string, clickedUrl: string)
    returns (rec: TraceRecord)
    requires tracer.Valid()
    requires tab in tracer.tagMap && tracer.tagMap[tab] in tracer.traces
    modifies tracer
    ensures tracer.Valid() && tracer.traces == map[]
    ensures var tt := old(tracer.tagMap[tab]);
      Tag(tt) in rec.tabNavigations && rec.tabNavigations[Tag(tt)] == old(tracer.traces[tt])
      && ClickedTab !in rec.tabNavigations
  {
    tracer.OnTargetDestroyed(tab, PageKind);
    rec := tracer.Report(docUrl, tab, clickedUrl);
    RekeyedEntries(old(tracer.traces), None);
  }
}
