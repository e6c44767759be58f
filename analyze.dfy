/** The offline trace analysis (analyze.py): for every record after the
    seed record and every tab that navigated, one row comparing the clicked
    URL with the tab's first URL, plus the set of document origins and a
    counter of the query/fragment keys that appeared. URL splitting
    (`urlparse`) and query parsing (`parse_qsl`) are given functions. */
module Analyze {

  /** The six components `urlparse` returns, in its order. */
  datatype UrlParts = UrlParts(scheme: string, netloc: string, path: string,
                               params: string, query: string, fragment: string)

  /** A (key, value) pair from `parse_qsl`. */
  type Pair = (string, string)

  /** `urlparse` and `parse_qsl`, as the analysis uses them. */
  datatype UrlLib = UrlLib(urlparse: string -> UrlParts, parseQsl: string -> seq<Pair>)

  /** One trace record as loaded from the log: `tabNavigations` keeps the key
      order of the JSON object. */
  datatype Record = Record(documentUrl: string, clickedUrl: string,
                           tabNavigations: seq<(string, seq<string>)>)

  /** One tab-separated output row, in the order of its columns. */
  datatype Row = Row(differing: string, score: nat, seedNetloc: string, docNetloc: string,
                     clickUrl: string, tabLabel: string, tabCount: nat, navUrl: string, jsonFile: string)

  const FieldNames: seq<string> := ["scheme", "netloc", "path", "params", "query", "fragment"]
  const StartSentinel: string := "START"
  const ClickedTabKey: string := "clicked-tab"
  const NoDifference: string := "="

  /** `bits[i]` of a `urlparse` result. */
  function Field(u: UrlParts, i: nat): string
    requires i < 6
  {
    match i
    case 0 => u.scheme
    case 1 => u.netloc
    case 2 => u.path
    case 3 => u.params
    case 4 => u.query
    case _ => u.fragment
  }

  /** The position of a name in `FieldNames`; 6 for any other string. */
  function FieldRank(name: string): nat
  {
    if name == "scheme" then 0
    else if name == "netloc" then 1
    else if name == "path" then 2
    else if name == "params" then 3
    else if name == "query" then 4
    else if name == "fragment" then 5
    else 6
  }

  /** Each name of `FieldNames` ranks at its own position. */
  lemma FieldNamesRanked()
    ensures forall i :: 0 <= i < 6 ==> FieldRank(FieldNames[i]) == i
  {
  }

  /** Names listed in `FieldNames` order, each at most once. */
  predicate InFieldOrder(names: seq<string>)
  {
    forall a, b :: 0 <= a < b < |names| ==> FieldRank(names[a]) < FieldRank(names[b])
  }

  /** The comprehension over `enumerate(FIELD_NAMES)` from position `i` on. */
  function DiffsFrom(click: UrlParts, nav: UrlParts, i: nat): (r: seq<string>)
    requires i <= 6
    ensures forall x :: x in r ==> i <= FieldRank(x) < 6 && FieldNames[FieldRank(x)] == x
    ensures forall j :: i <= j < 6 ==> (FieldNames[j] in r <==> Field(click, j) != Field(nav, j))
    ensures InFieldOrder(r)
    decreases 6 - i
  {
    if i == 6 then []
    else
      var rest := DiffsFrom(click, nav, i + 1);
      FieldNamesRanked();
      if Field(click, i) != Field(nav, i) then [FieldNames[i]] + rest else rest
  }

  /** Two `urlparse` results are equal exactly when all six components are. */
  lemma PartsEqual(click: UrlParts, nav: UrlParts)
    requires forall j :: 0 <= j < 6 ==> Field(click, j) == Field(nav, j)
    ensures click == nav
  {
    assert Field(click, 0) == Field(nav, 0) && Field(click, 1) == Field(nav, 1);
    assert Field(click, 2) == Field(nav, 2) && Field(click, 3) == Field(nav, 3);
    assert Field(click, 4) == Field(nav, 4) && Field(click, 5) == Field(nav, 5);
  }

  /** `differing_fields`: the names of the components where the clicked URL
      and the navigated URL differ, in `FIELD_NAMES` order, or `["="]` when
      the two agree on all six. */
  function DifferingFields(click: UrlParts, nav: UrlParts): (r: seq<string>)
    ensures r == [NoDifference] <==> click == nav
    ensures click != nav ==>
      && InFieldOrder(r)
      && (forall x :: x in r ==> x in FieldNames)
      && (forall j :: 0 <= j < 6 ==> (FieldNames[j] in r <==> Field(click, j) != Field(nav, j)))
  {
    var d := DiffsFrom(click, nav, 0);
    if d == [] then
      PartsEqual(click, nav);
      [NoDifference]
    else
      var k := FieldRank(d[0]);
      assert Field(click, k) != Field(nav, k);
      assert FieldRank(NoDifference) == 6;
      d
  }

  /** `"/".join(parts)`. */
  function Join(sep: string, parts: seq<string>): string
  {
    if parts == [] then ""
    else if |parts| == 1 then parts[0]
    else parts[0] + sep + Join(sep, parts[1..])
  }

  /** The total length of some strings. */
  function Lengths(parts: seq<string>): nat
  {
    if parts == [] then 0 else |parts[0]| + Lengths(parts[1..])
  }

  /** The joined string starts with the first part and ends with the last,
      and holds every part and one separator between each two. */
  lemma {:induction false} JoinShape(sep: string, parts: seq<string>)
    requires parts != []
    ensures var r := Join(sep, parts);
      && |r| == Lengths(parts) + (|parts| - 1) * |sep|
      && |parts[0]| <= |r| && r[..|parts[0]|] == parts[0]
      && |parts[|parts| - 1]| <= |r| && r[|r| - |parts[|parts| - 1]|..] == parts[|parts| - 1]
  {
    if |parts| > 1 {
      var rest := parts[1..];
      JoinShape(sep, rest);
      var r, tail := Join(sep, parts), Join(sep, rest);
      assert r == parts[0] + sep + tail;
      assert rest[|rest| - 1] == parts[|parts| - 1];
      assert r[..|parts[0]|] == parts[0];
      assert r[|r| - |rest[|rest| - 1]|..] == tail[|tail| - |rest[|rest| - 1]|..];
    }
  }

  /** `set(parse_qsl(bits.query)) | set(parse_qsl(bits.fragment))`. */
  function PairSet(lib: UrlLib, bits: UrlParts): set<Pair>
  {
    (set p | p in lib.parseQsl(bits.query)) + (set p | p in lib.parseQsl(bits.fragment))
  }

  /** `new_fields`: the pairs the navigated URL carries in its query or
      fragment that the clicked URL carries in neither. */
  function NewFields(lib: UrlLib, click: UrlParts, nav: UrlParts): (r: set<Pair>)
    ensures forall p :: p in r <==>
      (p in lib.parseQsl(nav.query) || p in lib.parseQsl(nav.fragment))
      && p !in lib.parseQsl(click.query) && p !in lib.parseQsl(click.fragment)
  {
    PairSet(lib, nav) - PairSet(lib, click)
  }

  /** What one new pair adds to the score. */
  function Weight(p: Pair): nat
  {
    10 + |p.1|
  }

  /** `new_field_score`: the sum of `10 + len(value)` over the new pairs. */
  ghost function FieldScore(fields: set<Pair>): nat
  {
    if fields == {} then 0
    else
      var p :| p in fields;
      Weight(p) + FieldScore(fields - {p})
  }

  /** Every new pair adds at least 10, so the score is 0 exactly when no
      pair is new. */
  lemma {:induction false} FieldScoreBound(fields: set<Pair>)
    ensures FieldScore(fields) >= 10 * |fields|
    ensures FieldScore(fields) == 0 <==> fields == {}
    decreases |fields|
  {
    if fields != {} {
      var p :| p in fields && FieldScore(fields) == Weight(p) + FieldScore(fields - {p});
      assert |fields - {p}| == |fields| - 1;
      FieldScoreBound(fields - {p});
      assert Weight(p) >= 10;
    }
  }

  /** The sum does not depend on which pair is taken first. */
  lemma {:induction false} FieldScoreRemove(fields: set<Pair>, p: Pair)
    requires p in fields
    ensures FieldScore(fields) == Weight(p) + FieldScore(fields - {p})
    decreases |fields|
  {
    var q :| q in fields && FieldScore(fields) == Weight(q) + FieldScore(fields - {q});
    if q != p {
      var rest := fields - {p} - {q};
      assert fields - {q} - {p} == rest;
      assert p in fields - {q} && q in fields - {p};
      FieldScoreRemove(fields - {q}, p);
      assert FieldScore(fields - {q}) == Weight(p) + FieldScore(rest);
      FieldScoreRemove(fields - {p}, q);
      assert FieldScore(fields - {p}) == Weight(q) + FieldScore(rest);
    }
  }

  /** The generator sum, pair by pair. */
  method NewFieldScore(fields: set<Pair>) returns (score: nat)
    ensures score == FieldScore(fields)
  {
    score := 0;
    var rest := fields;
    while rest != {}
      invariant rest <= fields
      invariant score + FieldScore(rest) == FieldScore(fields)
      decreases |rest|
    {
      var p :| p in rest;
      FieldScoreRemove(rest, p);
      score := score + Weight(p);
      rest := rest - {p};
    }
  }

  /** How many of the new pairs carry key `k`: what
      `Counter(k for k, _ in new_fields)` holds for `k`. */
  function KeyCount(fields: set<Pair>, k: string): nat
  {
    |set p | p in fields && p.0 == k|
  }

  /** A `Counter`'s value for `k`, 0 when absent. */
  function Count(counter: map<string, nat>, k: string): nat
  {
    if k in counter then counter[k] else 0
  }

  /** A `Counter` holds no zero entries. */
  predicate PositiveCounts(counter: map<string, nat>)
  {
    forall k :: k in counter ==> counter[k] > 0
  }

  lemma KeyCountAdd(done: set<Pair>, p: Pair, k: string)
    requires p !in done
    ensures KeyCount(done + {p}, k) == KeyCount(done, k) + (if p.0 == k then 1 else 0)
  {
    var before := set q | q in done && q.0 == k;
    var after := set q | q in done + {p} && q.0 == k;
    if p.0 == k {
      assert after == before + {p};
    } else {
      assert after == before;
    }
  }

  /** Counting one more pair adds one to its key. */
  lemma AddOneKey(counter: map<string, nat>, added: map<string, nat>, done: set<Pair>, p: Pair)
    requires p !in done
    requires forall k :: Count(added, k) == Count(counter, k) + KeyCount(done, k)
    ensures forall k :: Count(added[p.0 := Count(added, p.0) + 1], k) == Count(counter, k) + KeyCount(done + {p}, k)
  {
    forall k
      ensures Count(added[p.0 := Count(added, p.0) + 1], k) == Count(counter, k) + KeyCount(done + {p}, k)
    {
      KeyCountAdd(done, p, k);
    }
  }

  /** `added_field_counter += Counter(k for k, _ in new_fields)`: every key
      grows by the number of new pairs carrying it. */
  method AddKeyCounts(counter: map<string, nat>, fields: set<Pair>) returns (added: map<string, nat>)
    requires PositiveCounts(counter)
    ensures PositiveCounts(added)
    ensures forall k :: Count(added, k) == Count(counter, k) + KeyCount(fields, k)
  {
    added := counter;
    var rest, done := fields, {};
    while rest != {}
      invariant rest + done == fields && rest !! done
      invariant PositiveCounts(added)
      invariant forall k :: Count(added, k) == Count(counter, k) + KeyCount(done, k)
      decreases |rest|
    {
      var p :| p in rest;
      AddOneKey(counter, added, done, p);
      added := added[p.0 := Count(added, p.0) + 1];
      rest, done := rest - {p}, done + {p};
    }
  }

  /** The tab column: "same-tab" for the tab the click came from, "new-tab"
      for every other tab. */
  function TabLabel(tabId: string): (r: string)
    ensures r == "same-tab" <==> tabId == ClickedTabKey
    ensures r == "new-tab" <==> tabId != ClickedTabKey
  {
    if tabId == ClickedTabKey then "same-tab" else "new-tab"
  }

  /** The netlocs of the document URLs of `records` other than "START". */
  function DocumentNetlocs(lib: UrlLib, records: seq<Record>): set<string>
    decreases |records|
  {
    if records == [] then {}
    else
      var rec := records[|records| - 1];
      DocumentNetlocs(lib, records[..|records| - 1])
      + (if rec.documentUrl != StartSentinel then {lib.urlparse(rec.documentUrl).netloc} else {})
  }

  /** `distinct_document_origins`: the document netlocs plus the seed URL's
      netloc. */
  function DistinctDocumentOrigins(lib: UrlLib, navData: seq<Record>): set<string>
    requires navData != []
  {
    DocumentNetlocs(lib, navData) + {lib.urlparse(navData[0].clickedUrl).netloc}
  }

  /** A netloc is a document netloc exactly when some record's document URL
      other than "START" has it. */
  lemma {:induction false} DocumentNetlocsExactly(lib: UrlLib, records: seq<Record>)
    ensures forall o :: o in DocumentNetlocs(lib, records) <==>
      exists i :: 0 <= i < |records| && records[i].documentUrl != StartSentinel
                  && lib.urlparse(records[i].documentUrl).netloc == o
    decreases |records|
  {
    if records != [] {
      var init := records[..|records| - 1];
      DocumentNetlocsExactly(lib, init);
      forall o | o in DocumentNetlocs(lib, records)
        ensures exists i :: 0 <= i < |records| && records[i].documentUrl != StartSentinel
                            && lib.urlparse(records[i].documentUrl).netloc == o
      {
        if o in DocumentNetlocs(lib, init) {
          var i :| 0 <= i < |init| && init[i].documentUrl != StartSentinel
                   && lib.urlparse(init[i].documentUrl).netloc == o;
          assert records[i] == init[i];
        }
      }
      forall o | exists i :: 0 <= i < |records| && records[i].documentUrl != StartSentinel
                             && lib.urlparse(records[i].documentUrl).netloc == o
        ensures o in DocumentNetlocs(lib, records)
      {
        var i :| 0 <= i < |records| && records[i].documentUrl != StartSentinel
                 && lib.urlparse(records[i].documentUrl).netloc == o;
        if i < |init| {
          assert init[i] == records[i];
        }
      }
    }
  }

  /** The origins are the seed netloc and the netlocs of the document URLs
      other than "START", and nothing else. */
  lemma DocumentOrigins(lib: UrlLib, navData: seq<Record>)
    requires navData != []
    ensures lib.urlparse(navData[0].clickedUrl).netloc in DistinctDocumentOrigins(lib, navData)
    ensures forall o :: o in DistinctDocumentOrigins(lib, navData) <==>
      o == lib.urlparse(navData[0].clickedUrl).netloc
      || exists i :: 0 <= i < |navData| && navData[i].documentUrl != StartSentinel
                     && lib.urlparse(navData[i].documentUrl).netloc == o
  {
    DocumentNetlocsExactly(lib, navData);
  }

  /** The row for one tab entry with a non-empty URL list: it compares the
      clicked URL with the first URL of the list. */
  ghost function EntryRow(lib: UrlLib, jsonFile: string, seedNetloc: string, rec: Record,
                          tabId: string, navUrl: string): Row
  {
    var clickBits := lib.urlparse(rec.clickedUrl);
    var navBits := lib.urlparse(navUrl);
    Row(Join("/", DifferingFields(clickBits, navBits)),
        FieldScore(NewFields(lib, clickBits, navBits)),
        seedNetloc, lib.urlparse(rec.documentUrl).netloc, rec.clickedUrl,
        TabLabel(tabId), |rec.tabNavigations|, navUrl, jsonFile)
  }

  /** The columns of an entry's row: "=" exactly when the clicked and the
      navigated URL split alike, a score of 0 exactly when no pair is new,
      "same-tab" exactly for the clicked tab, and the record's and the
      entry's own values elsewhere. */
  lemma EntryRowColumns(lib: UrlLib, jsonFile: string, seedNetloc: string, rec: Record,
                        tabId: string, navUrl: string)
    ensures var r := EntryRow(lib, jsonFile, seedNetloc, rec, tabId, navUrl);
      var click, nav := lib.urlparse(rec.clickedUrl), lib.urlparse(navUrl);
      && (r.differing == NoDifference <==> click == nav)
      && (r.score == 0 <==> NewFields(lib, click, nav) == {})
      && (r.tabLabel == "same-tab" <==> tabId == ClickedTabKey)
      && r.seedNetloc == seedNetloc && r.docNetloc == lib.urlparse(rec.documentUrl).netloc
      && r.clickUrl == rec.clickedUrl && r.tabCount == |rec.tabNavigations|
      && r.navUrl == navUrl && r.jsonFile == jsonFile
  {
    var click, nav := lib.urlparse(rec.clickedUrl), lib.urlparse(navUrl);
    FieldScoreBound(NewFields(lib, click, nav));
    DifferingColumn(click, nav);
  }

  /** The differing-fields column is "=" exactly when the two URLs split
      alike: otherwise it starts with a field name, which is longer. */
  lemma DifferingColumn(click: UrlParts, nav: UrlParts)
    ensures Join("/", DifferingFields(click, nav)) == NoDifference <==> click == nav
  {
    var d := DifferingFields(click, nav);
    if click == nav {
      assert d == [NoDifference];
    } else {
      assert d != [] by {
        assert FieldNames[0] in d || FieldNames[1] in d || FieldNames[2] in d
            || FieldNames[3] in d || FieldNames[4] in d || FieldNames[5] in d;
      }
      JoinShape("/", d);
      assert d[0] in FieldNames;
      assert |d[0]| >= 4;
      assert |Join("/", d)| >= 4;
    }
  }

  /** The rows of one entry: one when its URL list is not empty. */
  ghost function EntryRows(lib: UrlLib, jsonFile: string, seedNetloc: string, rec: Record,
                           tabId: string, navUrlList: seq<string>): seq<Row>
  {
    if navUrlList != [] then [EntryRow(lib, jsonFile, seedNetloc, rec, tabId, navUrlList[0])] else []
  }

  /** The rows of the entries `entries` of record `rec`: one per entry whose
      URL list is not empty, in entry order. */
  ghost function EntriesRows(lib: UrlLib, jsonFile: string, seedNetloc: string, rec: Record,
                             entries: seq<(string, seq<string>)>): seq<Row>
  {
    if entries == [] then []
    else
      var e := entries[|entries| - 1];
      EntriesRows(lib, jsonFile, seedNetloc, rec, entries[..|entries| - 1])
      + EntryRows(lib, jsonFile, seedNetloc, rec, e.0, e.1)
  }

  /** The key counts one entry adds: those of its new pairs when its URL
      list is not empty. */
  function EntryKeyCount(lib: UrlLib, rec: Record, navUrlList: seq<string>, k: string): nat
  {
    if navUrlList != [] then KeyCount(NewFields(lib, lib.urlparse(rec.clickedUrl), lib.urlparse(navUrlList[0])), k) else 0
  }

  /** The key counts added by the entries `entries` of record `rec`. */
  ghost function EntriesKeyCount(lib: UrlLib, rec: Record, entries: seq<(string, seq<string>)>, k: string): nat
  {
    if entries == [] then 0
    else
      var e := entries[|entries| - 1];
      EntriesKeyCount(lib, rec, entries[..|entries| - 1], k)
      + EntryKeyCount(lib, rec, e.1, k)
  }

  /** The rows of the records `records`, record after record. */
  ghost function RecordsRows(lib: UrlLib, jsonFile: string, seedNetloc: string, records: seq<Record>): seq<Row>
  {
    if records == [] then []
    else
      var rec := records[|records| - 1];
      RecordsRows(lib, jsonFile, seedNetloc, records[..|records| - 1])
      + EntriesRows(lib, jsonFile, seedNetloc, rec, rec.tabNavigations)
  }

  ghost function RecordsKeyCount(lib: UrlLib, records: seq<Record>, k: string): nat
  {
    if records == [] then 0
    else
      var rec := records[|records| - 1];
      RecordsKeyCount(lib, records[..|records| - 1], k) + EntriesKeyCount(lib, rec, rec.tabNavigations, k)
  }

  /** The number of entries whose URL list is not empty. */
  function NonEmptyCount(entries: seq<(string, seq<string>)>): nat
  {
    if entries == [] then 0
    else NonEmptyCount(entries[..|entries| - 1]) + (if entries[|entries| - 1].1 != [] then 1 else 0)
  }

  /** Exactly one row per entry with a non-empty URL list. */
  lemma {:induction false} EntriesRowsCount(lib: UrlLib, jsonFile: string, seedNetloc: string, rec: Record,
                                            entries: seq<(string, seq<string>)>)
    ensures |EntriesRows(lib, jsonFile, seedNetloc, rec, entries)| == NonEmptyCount(entries)
  {
    if entries != [] {
      EntriesRowsCount(lib, jsonFile, seedNetloc, rec, entries[..|entries| - 1]);
    }
  }

  /** Each row comes from an entry with a non-empty URL list, uses the first
      URL of that list and labels the tab by its key. */
  lemma {:induction false} EntriesRowsSource(lib: UrlLib, jsonFile: string, seedNetloc: string, rec: Record,
                                             entries: seq<(string, seq<string>)>, row: Row)
    requires row in EntriesRows(lib, jsonFile, seedNetloc, rec, entries)
    ensures exists j :: 0 <= j < |entries| && entries[j].1 != [] && row.navUrl == entries[j].1[0]
                        && row.tabLabel == TabLabel(entries[j].0)
  {
    var n := |entries| - 1;
    var init := entries[..n];
    if row in EntriesRows(lib, jsonFile, seedNetloc, rec, init) {
      EntriesRowsSource(lib, jsonFile, seedNetloc, rec, init, row);
      var j :| 0 <= j < n && init[j].1 != [] && row.navUrl == init[j].1[0] && row.tabLabel == TabLabel(init[j].0);
      assert entries[j] == init[j];
    } else {
      assert row.navUrl == entries[n].1[0] && row.tabLabel == TabLabel(entries[n].0);
    }
  }

  /** One entry of `tabNavigations`: a row and a counter update when its URL
      list is not empty, nothing otherwise. */
  method AnalyzeEntry(lib: UrlLib, jsonFile: string, seedNetloc: string, rec: Record,
                      tabId: string, navUrlList: seq<string>, counter: map<string, nat>)
    returns (row: seq<Row>, counter': map<string, nat>)
    requires PositiveCounts(counter)
    ensures row == EntryRows(lib, jsonFile, seedNetloc, rec, tabId, navUrlList)
    ensures PositiveCounts(counter')
    ensures forall k :: Count(counter', k) == Count(counter, k) + EntryKeyCount(lib, rec, navUrlList, k)
  {
    if navUrlList == [] {
      return [], counter;
    }
    var clickBits := lib.urlparse(rec.clickedUrl);
    var docBits := lib.urlparse(rec.documentUrl);
    var navUrl := navUrlList[0];
    var navBits := lib.urlparse(navUrl);
    var differing := DifferingFields(clickBits, navBits);
    var newFields := NewFields(lib, clickBits, navBits);
    var score := NewFieldScore(newFields);
    counter' := AddKeyCounts(counter, newFields);
    row := [Row(Join("/", differing), score, seedNetloc, docBits.netloc, rec.clickedUrl,
                TabLabel(tabId), |rec.tabNavigations|, navUrl, jsonFile)];
  }

  /** Entry `j` extends what the entries before it give. */
  lemma EntriesSnoc(lib: UrlLib, jsonFile: string, seedNetloc: string, rec: Record,
                    entries: seq<(string, seq<string>)>, j: nat)
    requires j < |entries|
    ensures EntriesRows(lib, jsonFile, seedNetloc, rec, entries[..j + 1])
         == EntriesRows(lib, jsonFile, seedNetloc, rec, entries[..j])
            + EntryRows(lib, jsonFile, seedNetloc, rec, entries[j].0, entries[j].1)
    ensures forall k :: EntriesKeyCount(lib, rec, entries[..j + 1], k)
                     == EntriesKeyCount(lib, rec, entries[..j], k) + EntryKeyCount(lib, rec, entries[j].1, k)
  {
    assert entries[..j + 1][..j] == entries[..j];
  }

  /** Adding entry `j`'s row and counts to those of the entries before it
      gives those of the entries up to `j`. */
  lemma EntriesStep(lib: UrlLib, jsonFile: string, seedNetloc: string, rec: Record,
                    entries: seq<(string, seq<string>)>, j: nat, rows: seq<Row>, rows': seq<Row>, row: seq<Row>,
                    counter: map<string, nat>, counter': map<string, nat>, next: map<string, nat>)
    requires j < |entries|
    requires rows' == rows + EntriesRows(lib, jsonFile, seedNetloc, rec, entries[..j])
    requires row == EntryRows(lib, jsonFile, seedNetloc, rec, entries[j].0, entries[j].1)
    requires forall k :: Count(counter', k) == Count(counter, k) + EntriesKeyCount(lib, rec, entries[..j], k)
    requires forall k :: Count(next, k) == Count(counter', k) + EntryKeyCount(lib, rec, entries[j].1, k)
    ensures rows' + row == rows + EntriesRows(lib, jsonFile, seedNetloc, rec, entries[..j + 1])
    ensures forall k :: Count(next, k) == Count(counter, k) + EntriesKeyCount(lib, rec, entries[..j + 1], k)
  {
    EntriesSnoc(lib, jsonFile, seedNetloc, rec, entries, j);
  }

  /** The rows of one record and the counter after it. */
  method AnalyzeRecord(lib: UrlLib, jsonFile: string, seedNetloc: string, rec: Record,
                       rows: seq<Row>, counter: map<string, nat>)
    returns (rows': seq<Row>, counter': map<string, nat>)
    requires PositiveCounts(counter)
    ensures rows' == rows + EntriesRows(lib, jsonFile, seedNetloc, rec, rec.tabNavigations)
    ensures PositiveCounts(counter')
    ensures forall k :: Count(counter', k) == Count(counter, k) + EntriesKeyCount(lib, rec, rec.tabNavigations, k)
  {
    var entries := rec.tabNavigations;
    rows', counter' := rows, counter;
    for j := 0 to |entries|
      invariant rows' == rows + EntriesRows(lib, jsonFile, seedNetloc, rec, entries[..j])
      invariant PositiveCounts(counter')
      invariant forall k :: Count(counter', k) == Count(counter, k) + EntriesKeyCount(lib, rec, entries[..j], k)
    {
      var row, next := AnalyzeEntry(lib, jsonFile, seedNetloc, rec, entries[j].0, entries[j].1, counter');
      EntriesStep(lib, jsonFile, seedNetloc, rec, entries, j, rows, rows', row, counter, counter', next);
      rows', counter' := rows' + row, next;
    }
    assert entries[..|entries|] == entries;
  }

  /** The seed netloc of a non-empty trace file. */
  function SeedNetloc(lib: UrlLib, navData: seq<Record>): string
    requires navData != []
  {
    lib.urlparse(navData[0].clickedUrl).netloc
  }

  /** The origins written for one trace file: none for an empty file. */
  function FileOrigins(lib: UrlLib, navData: seq<Record>): set<string>
  {
    if navData == [] then {} else DistinctDocumentOrigins(lib, navData)
  }

  /** The rows of one trace file: those of every record after the first. */
  ghost function FileRows(lib: UrlLib, jsonFile: string, navData: seq<Record>): seq<Row>
  {
    if navData == [] then [] else RecordsRows(lib, jsonFile, SeedNetloc(lib, navData), navData[1..])
  }

  /** The key counts one trace file adds. */
  ghost function FileKeyCount(lib: UrlLib, navData: seq<Record>, k: string): nat
  {
    if navData == [] then 0 else RecordsKeyCount(lib, navData[1..], k)
  }

  /** The analysis of one trace file: nothing for an empty file; otherwise
      the document origins, and the rows of every record but the first. */
  method AnalyzeFile(lib: UrlLib, jsonFile: string, navData: seq<Record>, counter: map<string, nat>)
    returns (rows: seq<Row>, origins: set<string>, counter': map<string, nat>)
    requires PositiveCounts(counter)
    ensures navData == [] ==> rows == [] && origins == {} && counter' == counter
    ensures origins == FileOrigins(lib, navData)
    ensures rows == FileRows(lib, jsonFile, navData)
    ensures PositiveCounts(counter')
    ensures forall k :: Count(counter', k) == Count(counter, k) + FileKeyCount(lib, navData, k)
  {
    rows, origins, counter' := [], {}, counter;
    if navData == [] {
      return;
    }
    var seedNetloc := SeedNetloc(lib, navData);
    origins := DistinctDocumentOrigins(lib, navData);
    var records := navData[1..];
    for i := 0 to |records|
      invariant rows == RecordsRows(lib, jsonFile, seedNetloc, records[..i])
      invariant PositiveCounts(counter')
      invariant forall k :: Count(counter', k) == Count(counter, k) + RecordsKeyCount(lib, records[..i], k)
    {
      assert records[..i + 1][..i] == records[..i];
      rows, counter' := AnalyzeRecord(lib, jsonFile, seedNetloc, records[i], rows, counter');
    }
    assert records[..|records|] == records;
  }

  /** The rows of the files `files`, file after file. */
  ghost function FilesRows(lib: UrlLib, files: seq<(string, seq<Record>)>): seq<Row>
  {
    if files == [] then []
    else
      FilesRows(lib, files[..|files| - 1]) + FileRows(lib, files[|files| - 1].0, files[|files| - 1].1)
  }

  /** The key counts of the files `files`. */
  ghost function FilesKeyCount(lib: UrlLib, files: seq<(string, seq<Record>)>, k: string): nat
  {
    if files == [] then 0
    else
      FilesKeyCount(lib, files[..|files| - 1], k) + FileKeyCount(lib, files[|files| - 1].1, k)
  }

  /** The origin sets written for the files `files`, one per file. */
  function FilesOrigins(lib: UrlLib, files: seq<(string, seq<Record>)>): seq<set<string>>
    decreases |files|
  {
    if files == [] then []
    else FilesOrigins(lib, files[..|files| - 1]) + [FileOrigins(lib, files[|files| - 1].1)]
  }

  /** One origin set per file, each that file's origins. */
  lemma {:induction false} FilesOriginsAt(lib: UrlLib, files: seq<(string, seq<Record>)>)
    ensures |FilesOrigins(lib, files)| == |files|
    ensures forall i :: 0 <= i < |files| ==> FilesOrigins(lib, files)[i] == FileOrigins(lib, files[i].1)
    decreases |files|
  {
    if files != [] {
      var init := files[..|files| - 1];
      FilesOriginsAt(lib, init);
      forall i | 0 <= i < |init|
        ensures FilesOrigins(lib, files)[i] == FileOrigins(lib, files[i].1)
      {
        assert init[i] == files[i];
      }
    }
  }

  /** File `i` extends what the files before it give. */
  lemma FilesSnoc(lib: UrlLib, files: seq<(string, seq<Record>)>, i: nat)
    requires i < |files|
    ensures FilesRows(lib, files[..i + 1]) == FilesRows(lib, files[..i]) + FileRows(lib, files[i].0, files[i].1)
    ensures FilesOrigins(lib, files[..i + 1]) == FilesOrigins(lib, files[..i]) + [FileOrigins(lib, files[i].1)]
    ensures forall k :: FilesKeyCount(lib, files[..i + 1], k) == FilesKeyCount(lib, files[..i], k) + FileKeyCount(lib, files[i].1, k)
  {
    assert files[..i + 1][..i] == files[..i];
  }

  /** `main`: the files in argument order, each given by its name and its
      loaded records. `origins` holds the sets of origins written to
      standard error, one per file. */
  method AnalyzeFiles(lib: UrlLib, files: seq<(string, seq<Record>)>)
    returns (rows: seq<Row>, origins: seq<set<string>>, counter: map<string, nat>)
    ensures rows == FilesRows(lib, files)
    ensures origins == FilesOrigins(lib, files)
    ensures PositiveCounts(counter)
    ensures forall k :: Count(counter, k) == FilesKeyCount(lib, files, k)
  {
    rows, origins, counter := [], [], map[];
    for i := 0 to |files|
      invariant rows == FilesRows(lib, files[..i])
      invariant origins == FilesOrigins(lib, files[..i])
      invariant PositiveCounts(counter)
      invariant forall k :: Count(counter, k) == FilesKeyCount(lib, files[..i], k)
    {
      var fileRows, fileOrigins, counter' := AnalyzeFile(lib, files[i].0, files[i].1, counter);
      FilesSnoc(lib, files, i);
      rows := rows + fileRows;
      origins := origins + [fileOrigins];
      counter := counter';
    }
    assert files[..|files|] == files;
  }
}
