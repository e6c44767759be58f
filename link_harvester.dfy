/** The link harvester of main.js (`LinkHarvester`): for every open page,
    every anchor whose resolved URL is an http(s)-like URL on another
    registrable domain (eTLD+1) than the page's own becomes a candidate. */
module LinkHarvester {

  import opened Outcomes
  import opened Strings

  /** The parts of a WHATWG `URL` object the harvester reads. */
  datatype Url = Url(protocol: string, hostname: string, href: string)

  /** The library calls the harvester relies on; `None` means the call throws.
      `parse` is `new URL(s)`, `resolve` is `new URL(href, base)` and `etld1`
      is `psl.domain(hostname)`. */
  datatype UrlLibrary = UrlLibrary(
    parse: string -> Option<Url>,
    resolve: (string, Url) -> Option<Url>,
    etld1: string -> Option<string>)

  /** One `a[href]` element of a page and what `page.evaluate(a => a.href, aTag)`
      gave for it (`None`: the evaluation threw). */
  datatype Anchor<E> = Anchor(element: E, href: Option<string>)

  /** What the harvester sees of one open page: the page, `page.url()`, and
      the result of `page.$$('a[href]')` (`None`: the query threw). */
  datatype PageView<P, E> = PageView(page: P, url: string, anchors: Option<seq<Anchor<E>>>)

  /** A harvested link: its eTLD+1, its absolute URL, its element and page. */
  datatype Candidate<P, E> = Candidate(domain: string, url: string, element: E, page: P)

  const HttpPrefix: string := "http"

  /** The inner `try` block for one anchor whose href was read: the candidate
      it pushes, if any. A failing resolution or eTLD+1 lookup drops the
      anchor, as do a non-http protocol and a same-site target. */
  function AnchorLink<P, E>(lib: UrlLibrary, pageUrl: Url, pageDomain: string, page: P, element: E, href: string)
    : Option<Candidate<P, E>>
  {
    match lib.resolve(href, pageUrl)
    case None => None
    case Some(u) =>
      if !StartsWith(u.protocol, HttpPrefix) then None
      else
        match lib.etld1(u.hostname)
        case None => None
        case Some(d) => if pageDomain != d then Some(Candidate(d, u.href, element, page)) else None
  }

  /** What one anchor pushes is a link from it on this page, and it pushes
      nothing only when no candidate links from it. */
  lemma AnchorLinkExactly<P, E>(lib: UrlLibrary, pageUrl: Url, pageDomain: string, page: P, element: E, href: string)
    ensures var r := AnchorLink(lib, pageUrl, pageDomain, page, element, href);
      && (r.Some? ==> r.value.page == page && LinkFrom(lib, pageUrl, pageDomain, Anchor(element, Some(href)), r.value))
      && (r.None? ==> forall d, u :: !LinkFrom(lib, pageUrl, pageDomain, Anchor(element, Some(href)), Candidate(d, u, element, page)))
  {
  }

  function OptionToSeq<T>(o: Option<T>): seq<T>
  {
    if o.Some? then [o.value] else []
  }

  /** The links one page's anchor loop pushes: one per qualifying anchor, up to
      the first anchor whose `page.evaluate` threw, which abandons the rest. */
  function AnchorLinks<P, E>(lib: UrlLibrary, pageUrl: Url, pageDomain: string, page: P, anchors: seq<Anchor<E>>)
    : (r: seq<Candidate<P, E>>)
    ensures forall c :: c in r ==> c.page == page
  {
    if anchors == [] || anchors[0].href.None? then []
    else OptionToSeq(AnchorLink(lib, pageUrl, pageDomain, page, anchors[0].element, anchors[0].href.value))
         + AnchorLinks(lib, pageUrl, pageDomain, page, anchors[1..])
  }

  /** The links one page contributes: none when its URL does not parse, its
      eTLD+1 lookup throws or its anchor query throws. */
  function PageLinks<P, E>(lib: UrlLibrary, v: PageView<P, E>): seq<Candidate<P, E>>
  {
    match lib.parse(v.url)
    case None => []
    case Some(pu) =>
      match lib.etld1(pu.hostname)
      case None => []
      case Some(pd) =>
        match v.anchors
        case None => []
        case Some(anchors) => AnchorLinks(lib, pu, pd, v.page, anchors)
  }

  /** All candidates of a harvest, page after page, in `browser.pages()` order. */
  function Harvest<P, E>(lib: UrlLibrary, pages: seq<PageView<P, E>>): seq<Candidate<P, E>>
  {
    if pages == [] then [] else PageLinks(lib, pages[0]) + Harvest(lib, pages[1..])
  }

  /** The harvest holds exactly the links of the open pages: each page's
      links are kept, and nothing else comes in. */
  lemma {:induction false} HarvestMembers<P, E>(lib: UrlLibrary, pages: seq<PageView<P, E>>)
    ensures forall c :: c in Harvest(lib, pages) ==> exists i :: 0 <= i < |pages| && c in PageLinks(lib, pages[i])
    ensures forall i, c :: 0 <= i < |pages| && c in PageLinks(lib, pages[i]) ==> c in Harvest(lib, pages)
  {
    if pages != [] {
      HarvestMembers(lib, pages[1..]);
      forall c | c in Harvest(lib, pages)
        ensures exists i :: 0 <= i < |pages| && c in PageLinks(lib, pages[i])
      {
        if c !in PageLinks(lib, pages[0]) {
          assert c in Harvest(lib, pages[1..]);
          var i :| 0 <= i < |pages[1..]| && c in PageLinks(lib, pages[1..][i]);
          assert pages[1..][i] == pages[i + 1];
        }
      }
      forall i, c | 0 <= i < |pages| && c in PageLinks(lib, pages[i])
        ensures c in Harvest(lib, pages)
      {
        if i > 0 {
          assert pages[1..][i - 1] == pages[i];
        }
      }
    }
  }

  /** A candidate that `page` may legitimately yield: `c` comes from one of its
      anchors, whose resolved URL has an "http..." protocol and eTLD+1
      `c.domain`, which differs from the page's own eTLD+1. */
  ghost predicate Qualifies<P, E>(lib: UrlLibrary, v: PageView<P, E>, c: Candidate<P, E>)
  {
    && c.page == v.page
    && v.anchors.Some?
    && lib.parse(v.url).Some?
    && var pu := lib.parse(v.url).value;
    && lib.etld1(pu.hostname).Some?
    && var pd := lib.etld1(pu.hostname).value;
    && exists a :: a in v.anchors.value && LinkFrom(lib, pu, pd, a, c)
  }

  ghost predicate LinkFrom<P, E>(lib: UrlLibrary, pageUrl: Url, pageDomain: string, a: Anchor<E>, c: Candidate<P, E>)
  {
    && a.element == c.element
    && a.href.Some?
    && lib.resolve(a.href.value, pageUrl).Some?
    && var u := lib.resolve(a.href.value, pageUrl).value;
    && StartsWith(u.protocol, HttpPrefix)
    && lib.etld1(u.hostname) == Some(c.domain)
    && c.url == u.href
    && c.domain != pageDomain
  }

  lemma {:induction false} AnchorLinksQualify<P, E>(lib: UrlLibrary, pu: Url, pd: string, page: P, anchors: seq<Anchor<E>>)
    ensures forall c :: c in AnchorLinks(lib, pu, pd, page, anchors) ==>
      c.page == page && exists a :: a in anchors && LinkFrom(lib, pu, pd, a, c)
  {
    if anchors != [] && anchors[0].href.Some? {
      AnchorLinksQualify(lib, pu, pd, page, anchors[1..]);
      forall c | c in AnchorLinks(lib, pu, pd, page, anchors)
        ensures c.page == page && exists a :: a in anchors && LinkFrom(lib, pu, pd, a, c)
      {
        if c in AnchorLinks(lib, pu, pd, page, anchors[1..]) {
          var a :| a in anchors[1..] && LinkFrom(lib, pu, pd, a, c);
          assert a in anchors;
        } else {
          assert LinkFrom(lib, pu, pd, anchors[0], c);
        }
      }
    }
  }

  /** Every harvested link is cross-site and http(s)-like, taken from an anchor
      of one of the open pages. */
  lemma {:induction false} HarvestedLinksQualify<P, E>(lib: UrlLibrary, pages: seq<PageView<P, E>>)
    ensures forall c :: c in Harvest(lib, pages) ==> exists v :: v in pages && Qualifies(lib, v, c)
  {
    if pages != [] {
      var first, rest := pages[0], pages[1..];
      HarvestedLinksQualify(lib, rest);
      forall c | c in Harvest(lib, pages) ensures exists v :: v in pages && Qualifies(lib, v, c) {
        if c in Harvest(lib, rest) {
          var v :| v in rest && Qualifies(lib, v, c);
          assert v in pages;
        } else {
          var pu := lib.parse(first.url).value;
          var pd := lib.etld1(pu.hostname).value;
          AnchorLinksQualify(lib, pu, pd, first.page, first.anchors.value);
          assert Qualifies(lib, first, c);
        }
      }
    }
  }

  /** Every anchor read before the first failing `page.evaluate` that
      links to another site yields its candidate. */
  lemma {:induction false} AnchorLinksComplete<P, E>(lib: UrlLibrary, pu: Url, pd: string, page: P,
                                                    anchors: seq<Anchor<E>>, j: nat, c: Candidate<P, E>)
    requires j < |anchors|
    requires forall i :: 0 <= i <= j ==> anchors[i].href.Some?
    requires c.page == page && LinkFrom(lib, pu, pd, anchors[j], c)
    ensures c in AnchorLinks(lib, pu, pd, page, anchors)
  {
    var a := anchors[0];
    if j == 0 {
      var l := AnchorLink(lib, pu, pd, page, a.element, a.href.value);
      assert a == Anchor(a.element, Some(a.href.value));
      assert l == Some(c);
    } else {
      AnchorLinksComplete(lib, pu, pd, page, anchors[1..], j - 1, c);
    }
  }

  /** Such an anchor's candidate is among its page's links, when the page's
      URL, its eTLD+1 and its anchor query all succeed. */
  lemma PageLinksComplete<P, E>(lib: UrlLibrary, v: PageView<P, E>, j: nat, c: Candidate<P, E>)
    requires lib.parse(v.url).Some? && lib.etld1(lib.parse(v.url).value.hostname).Some? && v.anchors.Some?
    requires j < |v.anchors.value|
    requires forall i :: 0 <= i <= j ==> v.anchors.value[i].href.Some?
    requires c.page == v.page
    requires LinkFrom(lib, lib.parse(v.url).value, lib.etld1(lib.parse(v.url).value.hostname).value, v.anchors.value[j], c)
    ensures c in PageLinks(lib, v)
  {
    var pu := lib.parse(v.url).value;
    AnchorLinksComplete(lib, pu, lib.etld1(pu.hostname).value, v.page, v.anchors.value, j, c);
  }

  /** An anchor whose href was read and yields a candidate. */
  predicate HasLink<P, E>(lib: UrlLibrary, pu: Url, pd: string, page: P, a: Anchor<E>)
  {
    a.href.Some? && AnchorLink(lib, pu, pd, page, a.element, a.href.value).Some?
  }

  /** The positions among the first `n` anchors that yield a candidate. */
  function Linked<P, E>(lib: UrlLibrary, pu: Url, pd: string, page: P, anchors: seq<Anchor<E>>, n: nat): set<nat>
    requires n <= |anchors|
  {
    set i: nat | i < n && HasLink(lib, pu, pd, page, anchors[i])
  }

  /** One more anchor adds its own position exactly when it yields a candidate. */
  lemma LinkedSnoc<P, E>(lib: UrlLibrary, pu: Url, pd: string, page: P, anchors: seq<Anchor<E>>, m: nat)
    requires m < |anchors|
    ensures |Linked(lib, pu, pd, page, anchors, m + 1)|
         == |Linked(lib, pu, pd, page, anchors, m)| + if HasLink(lib, pu, pd, page, anchors[m]) then 1 else 0
  {
    var before := Linked(lib, pu, pd, page, anchors, m);
    if HasLink(lib, pu, pd, page, anchors[m]) {
      assert Linked(lib, pu, pd, page, anchors, m + 1) == before + {m};
      assert m !in before;
    } else {
      assert Linked(lib, pu, pd, page, anchors, m + 1) == before;
    }
  }

  /** Of the anchors read before the first failing `page.evaluate`, exactly
      those with a link yield a candidate, one each. */
  lemma {:induction false} AnchorLinksCount<P, E>(lib: UrlLibrary, pu: Url, pd: string, page: P,
                                                 anchors: seq<Anchor<E>>, n: nat)
    requires n <= |anchors|
    requires forall i :: 0 <= i < n ==> anchors[i].href.Some?
    ensures |AnchorLinks(lib, pu, pd, page, anchors[..n])| == |Linked(lib, pu, pd, page, anchors, n)|
  {
    if n == 0 {
      assert Linked(lib, pu, pd, page, anchors, 0) == {};
    } else {
      var m := n - 1;
      AnchorLinksCount(lib, pu, pd, page, anchors, m);
      AnchorLinksSnoc(lib, pu, pd, page, anchors, m);
      LinkedSnoc(lib, pu, pd, page, anchors, m);
      var added := OptionToSeq(AnchorLink(lib, pu, pd, page, anchors[m].element, anchors[m].href.value));
      assert |added| == if HasLink(lib, pu, pd, page, anchors[m]) then 1 else 0;
    }
  }

  /** Anchors read without failure contribute independently of the ones
      after them. */
  lemma {:induction false} AnchorLinksSplit<P, E>(lib: UrlLibrary, pu: Url, pd: string, page: P, anchors: seq<Anchor<E>>, j: nat)
    requires j <= |anchors|
    requires forall i :: 0 <= i < j ==> anchors[i].href.Some?
    ensures AnchorLinks(lib, pu, pd, page, anchors)
         == AnchorLinks(lib, pu, pd, page, anchors[..j]) + AnchorLinks(lib, pu, pd, page, anchors[j..])
  {
    if j > 0 {
      AnchorLinksSplit(lib, pu, pd, page, anchors[1..], j - 1);
      assert anchors[..j][1..] == anchors[1..][..j - 1];
      assert anchors[1..][j - 1..] == anchors[j..];
    } else {
      assert anchors[..0] == [] && anchors[0..] == anchors;
    }
  }

  /** An anchor whose href does not resolve drops only itself: the anchors
      around it contribute what they would without it. */
  lemma BadHrefDropsOnlyItself<P, E>(lib: UrlLibrary, pu: Url, pd: string, page: P, anchors: seq<Anchor<E>>, j: nat)
    requires j < |anchors|
    requires forall i :: 0 <= i <= j ==> anchors[i].href.Some?
    requires lib.resolve(anchors[j].href.value, pu).None?
    ensures AnchorLinks(lib, pu, pd, page, anchors)
         == AnchorLinks(lib, pu, pd, page, anchors[..j]) + AnchorLinks(lib, pu, pd, page, anchors[j + 1..])
  {
    AnchorLinksSplit(lib, pu, pd, page, anchors, j);
    assert anchors[j..][1..] == anchors[j + 1..];
    assert AnchorLink(lib, pu, pd, page, anchors[j].element, anchors[j].href.value).None?;
  }

  /** An anchor whose `page.evaluate` throws ends the page: what the anchors
      before it pushed stays, nothing after it is looked at. */
  lemma {:induction false} EvaluateFailureKeepsPrefix<P, E>(lib: UrlLibrary, pu: Url, pd: string, page: P, anchors: seq<Anchor<E>>, j: nat)
    requires j < |anchors| && anchors[j].href.None?
    ensures AnchorLinks(lib, pu, pd, page, anchors) == AnchorLinks(lib, pu, pd, page, anchors[..j])
  {
    if j > 0 && anchors[0].href.Some? {
      EvaluateFailureKeepsPrefix(lib, pu, pd, page, anchors[1..], j - 1);
      assert anchors[..j][1..] == anchors[1..][..j - 1];
    }
  }

  /** One more anchor read without failure adds its own link at the end. */
  lemma {:induction false} AnchorLinksSnoc<P, E>(lib: UrlLibrary, pu: Url, pd: string, page: P, anchors: seq<Anchor<E>>, j: nat)
    requires j < |anchors|
    requires forall i :: 0 <= i <= j ==> anchors[i].href.Some?
    ensures AnchorLinks(lib, pu, pd, page, anchors[..j + 1])
         == AnchorLinks(lib, pu, pd, page, anchors[..j])
            + OptionToSeq(AnchorLink(lib, pu, pd, page, anchors[j].element, anchors[j].href.value))
  {
    if j > 0 {
      AnchorLinksSnoc(lib, pu, pd, page, anchors[1..], j - 1);
      assert anchors[..j + 1][1..] == anchors[1..][..j];
      assert anchors[..j][1..] == anchors[1..][..j - 1];
    }
  }

  /** Pages contribute independently: a page that fails takes away only its
      own links. */
  lemma {:induction false} HarvestAppend<P, E>(lib: UrlLibrary, ps: seq<PageView<P, E>>, qs: seq<PageView<P, E>>)
    ensures Harvest(lib, ps + qs) == Harvest(lib, ps) + Harvest(lib, qs)
  {
    if ps == [] {
      assert ps + qs == qs;
    } else {
      assert (ps + qs)[1..] == ps[1..] + qs;
      HarvestAppend(lib, ps[1..], qs);
    }
  }

  /** A qualifying anchor's candidate reaches the harvest, whichever open
      page it sits on. */
  lemma HarvestComplete<P, E>(lib: UrlLibrary, pages: seq<PageView<P, E>>, k: nat, j: nat, c: Candidate<P, E>)
    requires k < |pages|
    requires var v := pages[k];
      && lib.parse(v.url).Some? && lib.etld1(lib.parse(v.url).value.hostname).Some? && v.anchors.Some?
      && j < |v.anchors.value|
      && (forall i :: 0 <= i <= j ==> v.anchors.value[i].href.Some?)
      && c.page == v.page
      && LinkFrom(lib, lib.parse(v.url).value, lib.etld1(lib.parse(v.url).value.hostname).value, v.anchors.value[j], c)
    ensures c in Harvest(lib, pages)
  {
    PageLinksComplete(lib, pages[k], j, c);
    HarvestMembers(lib, pages);
  }

  /** A page whose URL does not parse contributes nothing. */
  lemma UnparsablePageContributesNothing<P, E>(lib: UrlLibrary, v: PageView<P, E>)
    requires lib.parse(v.url).None?
    ensures PageLinks(lib, v) == []
  {
  }

  /** The harvester's outer loop, over `browser.pages()` in order. */
  method HarvestLinks<P, E>(lib: UrlLibrary, pages: seq<PageView<P, E>>) returns (links: seq<Candidate<P, E>>)
    ensures links == Harvest(lib, pages)
  {
    links := [];
    var i := 0;
    while i < |pages|
      invariant 0 <= i <= |pages|
      invariant links == Harvest(lib, pages[..i])
    {
      assert pages[..i + 1] == pages[..i] + [pages[i]];
      HarvestAppend(lib, pages[..i], [pages[i]]);
      assert Harvest(lib, [pages[i]]) == PageLinks(lib, pages[i]) + Harvest(lib, []);
      links := CollectPageLinks(lib, pages[i], links);
      i := i + 1;
    }
    assert pages[..i] == pages;
  }

  /** The body of the outer `try` for one page: pushes the page's candidates
      onto `links`, anchor by anchor, until an anchor's `page.evaluate`
      throws. */
  method CollectPageLinks<P, E>(lib: UrlLibrary, v: PageView<P, E>, links: seq<Candidate<P, E>>)
    returns (pushed: seq<Candidate<P, E>>)
    ensures pushed == links + PageLinks(lib, v)
  {
    pushed := links;
    var pageUrl := lib.parse(v.url);
    if pageUrl.None? { return; }
    var pu := pageUrl.value;
    var pageEtld1 := lib.etld1(pu.hostname);
    if pageEtld1.None? || v.anchors.None? { return; }
    var pd, anchors := pageEtld1.value, v.anchors.value;
    var j := 0;
    while j < |anchors|
      invariant 0 <= j <= |anchors|
      invariant forall m :: 0 <= m < j ==> anchors[m].href.Some?
      invariant pushed == links + AnchorLinks(lib, pu, pd, v.page, anchors[..j])
    {
      var tagHref := anchors[j].href;
      if tagHref.None? {
        EvaluateFailureKeepsPrefix(lib, pu, pd, v.page, anchors, j);
        return;
      }
      AnchorLinksSnoc(lib, pu, pd, v.page, anchors, j);
      var tagUrl := lib.resolve(tagHref.value, pu);
      if tagUrl.Some? && StartsWith(tagUrl.value.protocol, HttpPrefix) {
        var tagEtld1 := lib.etld1(tagUrl.value.hostname);
        if tagEtld1.Some? && pd != tagEtld1.value {
          pushed := pushed + [Candidate(tagEtld1.value, tagUrl.value.href, anchors[j].element, v.page)];
        }
      }
      j := j + 1;
    }
    assert anchors[..j] == anchors;
  }
}
