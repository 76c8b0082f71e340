/** "Load more": page after page merged onto one growing canvas. */
module LoadMore {
  import opened Options
  import opened GraphRecords
  import opened GraphMerge
  import opened GraphMergeLaws

  /** The canvas after all pages. */
  function LoadAll(pages: seq<View>): View
    requires pages != []
  {
    if |pages| == 1 then pages[0] else Merged(LoadAll(pages[..|pages| - 1]), pages[|pages| - 1], true)
  }

  /** The page has finite budgets of its own and keeps them. */
  ghost predicate FitsItsBudgets(v: View) {
    var limits := LimitsOf(v);
    && limits.nodes.AtMost? && limits.edges.AtMost? && limits.sites.AtMost?
    && |v.nodes| <= limits.nodes.n && |v.edges| <= limits.edges.n && TotalSites(v.edges) <= limits.sites.n
  }

  ghost predicate EndsDelivered(edges: seq<Element>, canvas: seq<Element>, page: seq<Element>) {
    forall i :: 0 <= i < |edges| ==>
      && (Has(canvas, edges[i].source) || Has(page, edges[i].source))
      && (Has(canvas, edges[i].target) || Has(page, edges[i].target))
  }

  // ----- one more page -----

  lemma LocalRecords(v: View)
    ensures TotalSites(PageRecords(v.edges, v.metadata, true)) == TotalSites(v.edges)
    ensures forall i :: 0 <= i < |v.edges| ==> PageRecords(v.edges, v.metadata, true)[i].source == v.edges[i].source
                                               && PageRecords(v.edges, v.metadata, true)[i].target == v.edges[i].target
  {
    SameSites(v.edges, PageRecords(v.edges, v.metadata, true));
  }

  lemma SitesAddUp(canvas: View, page: View)
    ensures TotalSites(AllEdges(canvas, page, true)) <= TotalSites(canvas.edges) + TotalSites(page.edges)
  {
    var base, more := PageRecords(canvas.edges, canvas.metadata, true), PageRecords(page.edges, page.metadata, true);
    LocalRecords(canvas);
    LocalRecords(page);
    TotalSitesOfMap(base);
    TotalSitesOfAbsorb(MapOf(base), more);
  }

  lemma EndsAddUp(canvas: View, page: View)
    requires EndsWithin(canvas.edges, canvas.nodes) && EndsDelivered(page.edges, canvas.nodes, page.nodes)
    ensures EndsWithin(AllEdges(canvas, page, true), AllNodes(canvas, page, true))
  {
    var nodes := AllNodes(canvas, page, true);
    var base, more := PageRecords(canvas.edges, canvas.metadata, true), PageRecords(page.edges, page.metadata, true);
    forall id ensures Has(nodes, id) <==> Has(canvas.nodes, id) || Has(page.nodes, id) {
      AllRecordsKeys(canvas.nodes, canvas.metadata, page.nodes, page.metadata, true, id);
    }
    LocalRecords(canvas);
    LocalRecords(page);
    var ended := (e: Element) => Has(nodes, e.source) && Has(nodes, e.target);
    assert Each(base, ended) && Each(more, ended);
    EachMapOf(base, ended);
    EachAbsorbAll(MapOf(base), more, ended);
    assert Each(AllEdges(canvas, page, true), ended);
  }

  predicate Cuts(canvas: View, page: View) {
    Trim(AllNodes(canvas, page, true), AllEdges(canvas, page, true), CombinedLimits(canvas, page, true)).cut
  }

  /** A page that keeps its own budgets is taken up whole, and the budgets add up. */
  lemma PageFits(canvas: View, page: View)
    requires FitsItsBudgets(canvas) && FitsItsBudgets(page)
    requires EndsWithin(canvas.edges, canvas.nodes) && EndsDelivered(page.edges, canvas.nodes, page.nodes)
    ensures !Cuts(canvas, page)
    ensures LimitsOf(Merged(canvas, page, true)) == CombinedLimits(canvas, page, true)
    ensures FitsItsBudgets(Merged(canvas, page, true))
  {
    var limits := CombinedLimits(canvas, page, true);
    SitesAddUp(canvas, page);
    EndsAddUp(canvas, page);
    NothingToTrim(AllNodes(canvas, page, true), AllEdges(canvas, page, true), limits);
    BudgetsPersist(canvas, page);
  }

  lemma BudgetsPersist(canvas: View, page: View)
    requires var limits := CombinedLimits(canvas, page, true); limits.nodes.AtMost? && limits.edges.AtMost? && limits.sites.AtMost?
    ensures LimitsOf(Merged(canvas, page, true)) == CombinedLimits(canvas, page, true)
  {
    hide Trim, AllNodes, AllEdges;
  }

  // ----- the whole chain -----

  ghost predicate NodeIn(pages: seq<View>, id: string) {
    exists k :: 0 <= k < |pages| && Has(pages[k].nodes, id)
  }

  ghost predicate EdgeIn(pages: seq<View>, id: string) {
    exists k :: 0 <= k < |pages| && Has(pages[k].edges, id)
  }

  ghost predicate SiteInPages(pages: seq<View>, id: string, site: string) {
    exists k :: 0 <= k < |pages| && SiteIn(pages[k].edges, id, site)
  }

  /** The edges end in nodes of these pages. */
  ghost predicate EndsKnown(edges: seq<Element>, pages: seq<View>) {
    forall i :: 0 <= i < |edges| ==> NodeIn(pages, edges[i].source) && NodeIn(pages, edges[i].target)
  }

  /** Every page keeps its own budgets, and its edges end in nodes delivered with it or before it. */
  ghost predicate Loadable(pages: seq<View>) {
    && pages != []
    && (forall k :: 0 <= k < |pages| ==> FitsItsBudgets(pages[k]))
    && (forall k :: 0 <= k < |pages| ==> EndsKnown(pages[k].edges, pages[..k + 1]))
  }

  function TotalLimits(pages: seq<View>): Limits
    requires pages != []
  {
    var last := LimitsOf(pages[|pages| - 1]);
    if |pages| == 1 then last
    else
      var front := TotalLimits(pages[..|pages| - 1]);
      Limits(Sum(front.nodes, last.nodes), Sum(front.edges, last.edges), Sum(front.sites, last.sites))
  }

  lemma OnePageMore(front: seq<View>, last: View)
    ensures forall id :: NodeIn(front + [last], id) <==> NodeIn(front, id) || Has(last.nodes, id)
    ensures forall id :: EdgeIn(front + [last], id) <==> EdgeIn(front, id) || Has(last.edges, id)
    ensures forall id, site :: SiteInPages(front + [last], id, site) <==> SiteInPages(front, id, site) || SiteIn(last.edges, id, site)
  {
    var pages := front + [last];
    assert pages[|front|] == last;
    assert forall k :: 0 <= k < |front| ==> pages[k] == front[k];
    forall id ensures NodeIn(pages, id) <==> NodeIn(front, id) || Has(last.nodes, id) {
      if NodeIn(front, id) {
        var k :| 0 <= k < |front| && Has(front[k].nodes, id);
        assert Has(pages[k].nodes, id);
      }
    }
    forall id ensures EdgeIn(pages, id) <==> EdgeIn(front, id) || Has(last.edges, id) {
      if EdgeIn(front, id) {
        var k :| 0 <= k < |front| && Has(front[k].edges, id);
        assert Has(pages[k].edges, id);
      }
    }
    forall id, site ensures SiteInPages(pages, id, site) <==> SiteInPages(front, id, site) || SiteIn(last.edges, id, site) {
      if SiteInPages(front, id, site) {
        var k :| 0 <= k < |front| && SiteIn(front[k].edges, id, site);
        assert SiteIn(pages[k].edges, id, site);
      }
    }
  }

  lemma FrontIsLoadable(pages: seq<View>)
    requires Loadable(pages) && |pages| > 1
    ensures Loadable(pages[..|pages| - 1])
  {
    var front := pages[..|pages| - 1];
    forall k | 0 <= k < |front| ensures EndsKnown(front[k].edges, front[..k + 1]) {
      assert front[..k + 1] == pages[..k + 1];
    }
  }

  /** The canvas has exactly the nodes of the pages. */
  ghost predicate HoldsNodes(canvas: View, pages: seq<View>) {
    forall id :: Has(canvas.nodes, id) <==> NodeIn(pages, id)
  }

  ghost predicate HoldsEdges(canvas: View, pages: seq<View>) {
    forall id :: Has(canvas.edges, id) <==> EdgeIn(pages, id)
  }

  ghost predicate HoldsSites(canvas: View, pages: seq<View>) {
    forall id, site :: SiteIn(canvas.edges, id, site) <==> SiteInPages(pages, id, site)
  }

  /** Loading more loses nothing and adds nothing: the canvas is the union of the pages, and its budgets are their sums. */
  lemma {:induction false} LoadMoreLosesNothing(pages: seq<View>)
    requires Loadable(pages)
    ensures HoldsNodes(LoadAll(pages), pages) && HoldsEdges(LoadAll(pages), pages)
    ensures LimitsOf(LoadAll(pages)) == TotalLimits(pages)
    ensures FitsItsBudgets(LoadAll(pages)) && EndsWithin(LoadAll(pages).edges, LoadAll(pages).nodes)
    decreases |pages|
  {
    hide Merged, FitsItsBudgets, Trim, AllNodes, AllEdges;
    if |pages| == 1 {
      assert pages[..1] == pages;
      assert EndsKnown(pages[0].edges, pages[..0 + 1]);
    } else {
      var front, last := pages[..|pages| - 1], pages[|pages| - 1];
      assert pages == front + [last];
      FrontIsLoadable(pages);
      LoadMoreLosesNothing(front);
      OnePageMore(front, last);
      LastEndsDelivered(pages, LoadAll(front));
      PageFits(LoadAll(front), last);
      UncutHoldsBoth(LoadAll(front), last, true);
      MergeIsClosed(LoadAll(front), last, true);
    }
  }

  lemma LastEndsDelivered(pages: seq<View>, canvas: View)
    requires Loadable(pages) && |pages| > 1 && HoldsNodes(canvas, pages[..|pages| - 1])
    ensures EndsDelivered(pages[|pages| - 1].edges, canvas.nodes, pages[|pages| - 1].nodes)
  {
    hide FitsItsBudgets;
    var front, last := pages[..|pages| - 1], pages[|pages| - 1];
    OnePageMore(front, last);
    assert pages[..|pages| - 1 + 1] == pages == front + [last];
  }

  /** With more than one page, the canvas has the sites that the map of the first page holds and those of all later pages. */
  lemma {:induction false} SitesOfPages(pages: seq<View>, id: string, site: string)
    requires Loadable(pages) && |pages| > 1
    ensures Distinct(LoadAll(pages).edges)
    ensures SiteIn(LoadAll(pages).edges, id, site) <==> SiteAt(MapOf(pages[0].edges), id, site) || SiteInPages(pages[1..], id, site)
    decreases |pages|
  {
    hide Merged, FitsItsBudgets, Trim, AllNodes, AllEdges, SiteIn, SiteAt, MapOf;
    var front, last := pages[..|pages| - 1], pages[|pages| - 1];
    var canvas := LoadAll(front);
    assert pages == front + [last] && pages[1..] == front[1..] + [last];
    FrontIsLoadable(pages);
    LoadMoreLosesNothing(front);
    LastEndsDelivered(pages, canvas);
    PageFits(canvas, last);
    OnePageMore(front[1..], last);
    MergedIsDistinct(canvas, last, true);
    if |front| == 1 {
      FirstMergeSites(canvas, last, id, site);
      assert front[1..] == [];
    } else {
      SitesOfPages(front, id, site);
      UncutSites(canvas, last, id, site);
    }
  }

  lemma FirstMergeSites(canvas: View, page: View, id: string, site: string)
    requires !Cuts(canvas, page)
    ensures SiteIn(Merged(canvas, page, true).edges, id, site) <==> SiteAt(MapOf(canvas.edges), id, site) || SiteIn(page.edges, id, site)
  {
    hide Merged, Trim, MapOf;
    UncutHoldsBoth(canvas, page, true);
    MergedIsDistinct(canvas, page, true);
    SiteAtIsSiteIn(Merged(canvas, page, true).edges, id, site);
  }

  /** Every site of the first page also stands in the last record of its edge there, or on a later page. */
  ghost predicate FirstPageKeepsSites(pages: seq<View>)
    requires pages != []
  {
    var edges := pages[0].edges;
    forall i, site :: 0 <= i < |edges| && site in edges[i].Sites() ==>
      SiteAt(MapOf(edges), edges[i].id, site) || SiteInPages(pages[1..], edges[i].id, site)
  }

  /** Loading more keeps exactly the sites of all pages if and only if the first page loses none to a repeated edge. */
  lemma LoadMoreLosesNoSiteIff(pages: seq<View>)
    requires Loadable(pages) && |pages| > 1
    ensures HoldsSites(LoadAll(pages), pages) <==> FirstPageKeepsSites(pages)
  {
    hide LoadAll, Loadable, MapOf;
    var edges, canvas := pages[0].edges, LoadAll(pages);
    assert pages == [pages[0]] + pages[1..];
    forall id, site ensures SiteIn(canvas.edges, id, site) <==> SiteAt(MapOf(edges), id, site) || SiteInPages(pages[1..], id, site) {
      SitesOfPages(pages, id, site);
    }
    forall id, site ensures SiteInPages(pages, id, site) <==> SiteIn(edges, id, site) || SiteInPages(pages[1..], id, site) {
      FirstAndLater(pages, id, site);
    }
    forall id, site ensures SiteAt(MapOf(edges), id, site) ==> SiteIn(edges, id, site) {
      MapHasNoOtherSite(edges, id, site);
    }
    if HoldsSites(canvas, pages) {
      forall i, site | 0 <= i < |edges| && site in edges[i].Sites()
        ensures SiteAt(MapOf(edges), edges[i].id, site) || SiteInPages(pages[1..], edges[i].id, site)
      {
        assert SiteIn(edges, edges[i].id, site);
        assert SiteIn(canvas.edges, edges[i].id, site);
      }
    }
  }

  lemma FirstAndLater(pages: seq<View>, id: string, site: string)
    requires pages != []
    ensures SiteInPages(pages, id, site) <==> SiteIn(pages[0].edges, id, site) || SiteInPages(pages[1..], id, site)
  {
    hide SiteIn;
    var later := pages[1..];
    if SiteInPages(later, id, site) {
      var k :| 0 <= k < |later| && SiteIn(later[k].edges, id, site);
      assert SiteIn(pages[k + 1].edges, id, site);
    }
    if SiteInPages(pages, id, site) {
      var k :| 0 <= k < |pages| && SiteIn(pages[k].edges, id, site);
      assert k > 0 ==> SiteIn(later[k - 1].edges, id, site);
    }
  }

  lemma UncutSites(canvas: View, page: View, id: string, site: string)
    requires Distinct(canvas.edges) && !Cuts(canvas, page)
    ensures SiteIn(Merged(canvas, page, true).edges, id, site) <==> SiteIn(canvas.edges, id, site) || SiteIn(page.edges, id, site)
  {
    hide Merged, Trim;
    UncutHoldsBoth(canvas, page, true);
    MergedIsDistinct(canvas, page, true);
    MapOfDistinct(canvas.edges);
    SiteAtIsSiteIn(canvas.edges, id, site);
    SiteAtIsSiteIn(Merged(canvas, page, true).edges, id, site);
  }

  // ----- the last page completes the canvas -----

  ghost predicate Calm(e: Element) {
    !e.Truncated() && !e.EvidenceTruncated()
  }

  ghost predicate NotTruncated(e: Element) {
    !e.Truncated()
  }

  /** Nothing is missing from the slice except that there may be another page. */
  ghost predicate OnlyPaged(v: View) {
    && (v.status == Some(Complete) || (v.status == Some(Partial) && v.metadata.truncated && v.metadata.Paged()))
    && (v.metadata.truncated ==> v.metadata.Paged()) && !v.metadata.evidenceTruncated
    && Each(PageRecords(v.nodes, v.metadata, true), NotTruncated)
    && Each(PageRecords(v.edges, v.metadata, true), Calm)
  }

  /** A page that offers another one says that it is paged. */
  ghost predicate SaysSo(page: View) {
    page.metadata.continuation.Usable() ==> page.metadata.Paged()
  }

  lemma LocalStaysCalm(records: seq<Element>, metadata: Metadata)
    ensures Each(records, NotTruncated) ==> Each(PageRecords(records, metadata, true), NotTruncated)
    ensures Each(records, Calm) ==> Each(PageRecords(records, metadata, true), Calm)
  {
  }

  lemma CalmMerges()
    ensures forall l, r :: NotTruncated(l) && NotTruncated(r) ==> NotTruncated(MergeRecord(l, r))
    ensures forall l, r :: Calm(l) && Calm(r) ==> Calm(MergeRecord(l, r))
  {
    hide Deduplicated;
  }

  lemma AllCalm(canvas: View, page: View)
    requires OnlyPaged(canvas) && OnlyPaged(page)
    ensures Each(AllNodes(canvas, page, true), NotTruncated) && Each(AllEdges(canvas, page, true), Calm)
  {
    hide MergeRecord, MapOf, AbsorbAll, Calm, NotTruncated;
    CalmMerges();
    EachMapOf(PageRecords(canvas.nodes, canvas.metadata, true), NotTruncated);
    EachAbsorbAll(MapOf(PageRecords(canvas.nodes, canvas.metadata, true)), PageRecords(page.nodes, page.metadata, true), NotTruncated);
    EachMapOf(PageRecords(canvas.edges, canvas.metadata, true), Calm);
    EachAbsorbAll(MapOf(PageRecords(canvas.edges, canvas.metadata, true)), PageRecords(page.edges, page.metadata, true), Calm);
  }

  /** After a page that is taken up whole, only the offer of another page keeps the canvas from being complete. */
  lemma PageCompletes(canvas: View, page: View)
    requires OnlyPaged(canvas) && OnlyPaged(page) && SaysSo(page) && !Cuts(canvas, page)
    ensures var r := Merged(canvas, page, true);
            && r.metadata.truncated == r.metadata.continuation.available == page.metadata.continuation.Usable()
            && r.status == Some(if page.metadata.continuation.Usable() then Partial else Complete)
            && OnlyPaged(r)
  {
    hide Trim, AllNodes, AllEdges, CombinedLimits, PageRecords, LimitOf;
    var nodes, edges := AllNodes(canvas, page, true), AllEdges(canvas, page, true);
    UncutIsWhole(nodes, edges, CombinedLimits(canvas, page, true));
    AllCalm(canvas, page);
    var r := Merged(canvas, page, true);
    LocalStaysCalm(nodes, r.metadata);
    LocalStaysCalm(edges, r.metadata);
    assert !AnyTruncated(nodes) && !AnyTruncated(edges) && !AnyEvidenceTruncated(edges);
  }

  /** If paging was all that was missing, the canvas is complete exactly when the last page offers no other. */
  lemma {:induction false} LastPageCompletes(pages: seq<View>)
    requires Loadable(pages) && |pages| > 1
    requires forall k :: 0 <= k < |pages| ==> OnlyPaged(pages[k]) && SaysSo(pages[k])
    ensures var r, offered := LoadAll(pages), pages[|pages| - 1].metadata.continuation.Usable();
            && OnlyPaged(r) && r.metadata.truncated == r.metadata.continuation.available == offered
            && r.status == Some(if offered then Partial else Complete)
    decreases |pages|
  {
    hide Merged, OnlyPaged, FitsItsBudgets;
    var front, last := pages[..|pages| - 1], pages[|pages| - 1];
    FrontIsLoadable(pages);
    LoadMoreLosesNothing(front);
    if |front| > 1 {
      LastPageCompletes(front);
    }
    LastEndsDelivered(pages, LoadAll(front));
    PageFits(LoadAll(front), last);
    PageCompletes(LoadAll(front), last);
  }

  // ----- how long a cut counts -----

  /** The view without the mark that something was left out. */
  function Cleared(view: View): View {
    view.(metadata := view.metadata.(truncated := false))
  }

  function ClearedAt(pages: seq<View>, i: nat): seq<View>
    requires i < |pages|
  {
    pages[i := Cleared(pages[i])]
  }

  /** The last paging mark that the pages up to k carry. */
  function LastPaging(pages: seq<View>, k: nat): Flag
    requires k < |pages|
  {
    var own := pages[k].metadata.paginationTruncated;
    if own.Some? || k == 0 then own else LastPaging(pages, k - 1)
  }

  /** No canvas from page i on to the page before the last is marked as paged. */
  predicate NeverPaged(pages: seq<View>, i: nat) {
    forall k :: i <= k < |pages| - 1 ==> !Raised(LastPaging(pages, k))
  }

  /** Equal but for the mark, the status, and the reason that goes with the mark. */
  predicate SameBut(a: View, b: View) {
    && a.nodes == b.nodes && a.edges == b.edges && a.request == b.request
    && a.metadata.(truncated := false, continuation := a.metadata.continuation.(reason := None))
       == b.metadata.(truncated := false, continuation := b.metadata.continuation.(reason := None))
  }

  lemma {:induction false} LastPagingOfFront(pages: seq<View>, k: nat)
    requires k < |pages| - 1
    ensures LastPaging(pages[..|pages| - 1], k) == LastPaging(pages, k)
  {
    if k > 0 {
      LastPagingOfFront(pages, k - 1);
    }
  }

  lemma {:induction false} PagingOfCanvas(pages: seq<View>)
    requires pages != []
    ensures LoadAll(pages).metadata.paginationTruncated == LastPaging(pages, |pages| - 1)
    decreases |pages|
  {
    hide Trim, AllNodes, AllEdges, CombinedLimits;
    if |pages| > 1 {
      PagingOfCanvas(pages[..|pages| - 1]);
      LastPagingOfFront(pages, |pages| - 2);
    }
  }

  lemma SameMerges(a: View, b: View, page: View)
    requires SameBut(a, b)
    ensures SameBut(Merged(a, page, true), Merged(b, page, true))
    ensures a.metadata.truncated == b.metadata.truncated ==>
      Merged(a, page, true).metadata.truncated == Merged(b, page, true).metadata.truncated
  {
    hide Trim, MapOf, AbsorbAll, AnyTruncated, AnyEvidenceTruncated, LimitOf;
    assert LimitsOf(a) == LimitsOf(b);
    assert a.metadata.Paged() == b.metadata.Paged();
  }

  /** A page that is cut, and not for paging, differs from the page without the mark in the mark only. */
  lemma CutPageMerges(canvas: View, page: View)
    requires page.metadata.truncated && !page.metadata.Paged()
    ensures Merged(canvas, page, true).metadata.truncated
    ensures SameBut(Merged(canvas, page, true), Merged(canvas, Cleared(page), true))
  {
    hide Trim, MapOf, AbsorbAll, AnyTruncated, AnyEvidenceTruncated, LimitOf;
    assert LimitsOf(page) == LimitsOf(Cleared(page));
  }

  /** One more page on a canvas that remembers a cut, and on one that never knew it. */
  lemma CutStaysUnlessPaged(a: View, b: View, page: View)
    requires SameBut(a, b)
    ensures Merged(a, page, true).metadata.truncated
            <==> (a.metadata.truncated && !a.metadata.Paged()) || Merged(Cleared(a), page, true).metadata.truncated
    ensures Merged(Cleared(a), page, true).metadata.truncated == Merged(Cleared(b), page, true).metadata.truncated
    ensures a.metadata.Paged() == b.metadata.Paged()
  {
    hide Merged;
    CutCountsUnlessPaged(a, page);
    assert SameBut(Cleared(a), Cleared(b));
    SameMerges(Cleared(a), Cleared(b), page);
    assert Raised(a.metadata.paginationTruncated) == Raised(b.metadata.paginationTruncated);
  }

  /**
   Over any chain of pages, a cut that is not for paging counts in the end, beside whatever else is left out, if and only
   if no canvas from its page to the page before the last is marked as paged.
  */
  lemma {:induction false} CutCountsIffNeverPaged(pages: seq<View>, i: nat)
    requires i < |pages| && pages[i].metadata.truncated && !pages[i].metadata.Paged()
    ensures LoadAll(pages).metadata.truncated <==>
            LoadAll(ClearedAt(pages, i)).metadata.truncated || NeverPaged(pages, i)
    ensures SameBut(LoadAll(pages), LoadAll(ClearedAt(pages, i)))
    decreases |pages|
  {
    hide Merged;
    var n, other := |pages| - 1, ClearedAt(pages, i);
    if n > 0 {
      var front, canvas := pages[..n], LoadAll(pages[..n]);
      if i == n {
        assert other[..n] == front;
        CutPageMerges(canvas, pages[n]);
      } else {
        assert other[..n] == ClearedAt(front, i);
        var never := LoadAll(other[..n]);
        CutCountsIffNeverPaged(front, i);
        SameMerges(canvas, never, pages[n]);
        CutStaysUnlessPaged(canvas, never, pages[n]);
        CutStaysUnlessPaged(never, canvas, pages[n]);
        PagingOfCanvas(front);
        OneMorePage(pages, i);
      }
    }
  }

  lemma OneMorePage(pages: seq<View>, i: nat)
    requires i < |pages| - 1
    ensures NeverPaged(pages, i) <==>
            NeverPaged(pages[..|pages| - 1], i) && !Raised(LastPaging(pages[..|pages| - 1], |pages| - 2))
  {
    hide LastPaging;
    var front := pages[..|pages| - 1];
    forall k: nat | k < |front| ensures Raised(LastPaging(front, k)) == Raised(LastPaging(pages, k)) {
      LastPagingOfFront(pages, k);
    }
    assert Raised(LastPaging(front, |front| - 1)) == Raised(LastPaging(pages, |front| - 1));
    if NeverPaged(front, i) && !Raised(LastPaging(front, |front| - 1)) {
      forall k: nat | i <= k < |front| ensures !Raised(LastPaging(pages, k)) {
        assert Raised(LastPaging(front, k)) == Raised(LastPaging(pages, k));
      }
    }
  }
}
