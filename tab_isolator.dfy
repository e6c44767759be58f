/** `closeOtherPages` of main.js: keep one page open and close all others. */
module TabIsolator {

  /** `allPages.indexOf(page)`: the first index holding `page`, or -1. */
  function IndexOf<P(==)>(pages: seq<P>, page: P): (i: int)
    ensures -1 <= i < |pages|
    ensures i == -1 <==> page !in pages
    ensures 0 <= i ==> pages[i] == page && page !in pages[..i]
  {
    if pages == [] then -1
    else if pages[0] == page then 0
    else
      var i := IndexOf(pages[1..], page);
      assert pages[1..][..if i < 0 then 0 else i] == pages[1..1 + if i < 0 then 0 else i];
      if i < 0 then -1 else i + 1
  }

  /** How a call ends: the page was not open ('no such page in browser'), or
      every other page had `close()` called on it; `closed` lists those pages,
      and `allClosed` is false when one of the closes rejected, which rejects
      the whole `Promise.all` once the others were started. */
  datatype Isolation<P> = NoSuchPage | Closing(closed: seq<P>, allClosed: bool)

  /** The isolation step against the page list `browser.pages()` returned;
      `failsToClose` holds the pages whose `close()` rejects. */
  method CloseOtherPages<P(==)>(allPages: seq<P>, page: P, failsToClose: set<P>) returns (r: Isolation<P>)
    ensures r.NoSuchPage? <==> page !in allPages
    // exactly the list minus the entry at the found index is closed
    ensures r.Closing? ==>
      && var pi := IndexOf(allPages, page);
      && |r.closed| == |allPages| - 1
      && (forall j :: 0 <= j < pi ==> r.closed[j] == allPages[j])
      && (forall j :: pi < j < |allPages| ==> r.closed[j - 1] == allPages[j])
    ensures r.Closing? ==> multiset(r.closed) + multiset{page} == multiset(allPages)
    ensures r.Closing? ==> (r.allClosed <==> forall p :: p in r.closed ==> p !in failsToClose)
  {
    var pages := allPages;
    var pi := IndexOf(pages, page);
    if pi < 0 {
      return NoSuchPage;
    }
    SpliceOut(pages, pi);
    pages := pages[..pi] + pages[pi + 1..];
    r := Closing(pages, forall p :: p in pages ==> p !in failsToClose);
  }

  /** `splice(i, 1)`: the rest keeps the entries before `i` in place and
      shifts those after it down by one; together with the removed entry it
      is the whole list again. */
  lemma SpliceOut<P>(s: seq<P>, i: nat)
    requires i < |s|
    ensures var t := s[..i] + s[i + 1..];
      && |t| == |s| - 1
      && (forall j :: 0 <= j < i ==> t[j] == s[j])
      && (forall j :: i < j < |s| ==> t[j - 1] == s[j])
      && multiset(t) + multiset{s[i]} == multiset(s)
  {
    assert s == s[..i] + [s[i]] + s[i + 1..];
  }

  /** On a browser whose pages are distinct, the kept page is the only one
      left out, and every other page is closed. */
  lemma {:induction false} IsolationKeepsOnlyPage<P>(allPages: seq<P>, page: P, closed: seq<P>)
    requires forall i, j :: 0 <= i < j < |allPages| ==> allPages[i] != allPages[j]
    requires page in allPages
    requires multiset(closed) + multiset{page} == multiset(allPages)
    ensures page !in closed
    ensures forall p :: p in closed <==> p in allPages && p != page
  {
    var k :| 0 <= k < |allPages| && allPages[k] == page;
    assert multiset(allPages)[page] == 1 by {
      DistinctCount(allPages, page, k);
    }
    assert multiset(closed)[page] == 0;
    forall p ensures p in closed <==> p in allPages && p != page {
      assert p in closed <==> multiset(closed)[p] > 0;
      assert p in allPages <==> multiset(allPages)[p] > 0;
    }
  }

  /** In a sequence without repeats the element at `k` occurs once. */
  lemma {:induction false} DistinctCount<P>(s: seq<P>, x: P, k: nat)
    requires forall i, j :: 0 <= i < j < |s| ==> s[i] != s[j]
    requires k < |s| && s[k] == x
    ensures multiset(s)[x] == 1
    decreases |s|
  {
    if k == 0 {
      assert s == [s[0]] + s[1..];
      forall i | 0 <= i < |s[1..]| ensures s[1..][i] != x {
        assert s[1..][i] == s[i + 1];
      }
    } else {
      assert s == [s[0]] + s[1..];
      assert s[0] != x;
      forall i, j | 0 <= i < j < |s[1..]| ensures s[1..][i] != s[1..][j] {
        assert s[1..][i] == s[i + 1] && s[1..][j] == s[j + 1];
      }
      DistinctCount(s[1..], x, k - 1);
    }
  }
}
