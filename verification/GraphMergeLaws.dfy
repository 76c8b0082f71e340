/** What every merge of graph slices keeps, and what every sequence of merges keeps. */
module GraphMergeLaws {
  import opened Options
  import opened GraphRecords
  import opened GraphMerge

  // ----- what trimming leaves -----

  /** The same records up to their status: same ids, same ends, no more sites. */
  ghost predicate Trims(before: seq<Element>, after: seq<Element>) {
    && |after| == |before|
    && forall i :: 0 <= i < |before| ==>
         && after[i].id == before[i].id && after[i].source == before[i].source && after[i].target == before[i].target
         && after[i].Sites() <= before[i].Sites()
  }

  lemma TrimsHas(before: seq<Element>, after: seq<Element>, id: string)
    requires Trims(before, after)
    ensures Has(after, id) <==> Has(before, id)
  {
    if Has(before, id) {
      var i :| 0 <= i < |before| && before[i].id == id;
      assert after[i].id == id;
    }
  }

  lemma MarksTrim(nodes: seq<Element>, edges: seq<Element>)
    ensures Trims(nodes, MarkNodes(nodes)) && Trims(edges, MarkEdges(edges))
    ensures TotalSites(MarkEdges(edges)) == TotalSites(edges)
  {
    SameSites(edges, MarkEdges(edges));
  }

  lemma {:induction false} SameSites(a: seq<Element>, b: seq<Element>)
    requires |a| == |b| && forall i :: 0 <= i < |a| ==> a[i].Sites() == b[i].Sites()
    ensures TotalSites(a) == TotalSites(b)
  {
    if a != [] {
      SameSites(a[..|a| - 1], b[..|b| - 1]);
    }
  }

  /** The last edge gets what the ones before it left over. */
  lemma LastShare(edges: seq<Element>, limit: Limit) returns (share: Element)
    requires edges != []
    ensures var front, last := edges[..|edges| - 1], edges[|edges| - 1];
            var used := TotalSites(LimitSites(front, limit));
            && share == CutSites(last, limit.Minus(used))
            && LimitSites(edges, limit) == LimitSites(front, limit) + [share]
            && TotalSites(LimitSites(edges, limit)) == used + |share.Sites()|
            && TotalSites(edges) == TotalSites(front) + |last.Sites()|
  {
    var limited := LimitSites(edges[..|edges| - 1], limit);
    share := CutSites(edges[|edges| - 1], limit.Minus(TotalSites(limited)));
    TotalOfSum(limited, share);
  }

  lemma TrimsMore(front: seq<Element>, front': seq<Element>, e: Element, e': Element)
    requires Trims(front, front') && Trims([e], [e'])
    ensures Trims(front + [e], front' + [e'])
  {
    assert Trims([e], [e']) ==> [e'][0].Sites() <= [e][0].Sites();
  }

  lemma CutTrims(e: Element, limit: Limit)
    ensures Trims([e], [CutSites(e, limit)])
  {
  }

  lemma NothingTrims(none: seq<Element>)
    requires none == []
    ensures Trims([], none)
  {
  }

  lemma OneMoreTrims(front: seq<Element>, last: Element, limit: Limit)
    requires Trims(front, LimitSites(front, limit))
    ensures Trims(front + [last], LimitSites(front + [last], limit))
  {
    hide Trims, CutSites, TotalSites, LimitSites;
    assert (front + [last])[..|front|] == front;
    var share := LastShare(front + [last], limit);
    CutTrims(last, limit.Minus(TotalSites(LimitSites(front, limit))));
    TrimsMore(front, LimitSites(front, limit), last, share);
  }

  lemma {:induction false} LimitSitesTrims(edges: seq<Element>, limit: Limit)
    ensures Trims(edges, LimitSites(edges, limit))
  {
    hide Trims, LimitSites;
    if edges != [] {
      var front, last := edges[..|edges| - 1], edges[|edges| - 1];
      LimitSitesTrims(front, limit);
      OneMoreTrims(front, last, limit);
      assert edges == front + [last];
    } else {
      NothingTrims(LimitSites(edges, limit));
    }
  }

  /** Handing out sites stays within the budget. */
  lemma {:induction false} LimitSitesSpends(edges: seq<Element>, limit: Limit)
    ensures limit.Admits(TotalSites(LimitSites(edges, limit)))
    ensures TotalSites(LimitSites(edges, limit)) <= TotalSites(edges)
  {
    if edges != [] {
      LimitSitesSpends(edges[..|edges| - 1], limit);
      var share := LastShare(edges, limit);
    }
  }

  lemma WholeShare(e: Element, limit: Limit, used: nat)
    requires var share := CutSites(e, limit.Minus(used));
             |share.Sites()| == |e.Sites()| || limit.Admits(used + |e.Sites()|)
    ensures CutSites(e, limit.Minus(used)) == e
  {
    hide CutSites;
  }

  /** Nothing is taken away unless the budget is spent. */
  lemma {:induction false} LimitSitesKeeps(edges: seq<Element>, limit: Limit)
    requires TotalSites(LimitSites(edges, limit)) == TotalSites(edges) || limit.Admits(TotalSites(edges))
    ensures LimitSites(edges, limit) == edges
  {
    hide CutSites, LimitSites, TotalSites;
    if edges != [] {
      var front, last := edges[..|edges| - 1], edges[|edges| - 1];
      LimitSitesSpends(front, limit);
      var share := LastShare(edges, limit);
      LimitSitesKeeps(front, limit);
      WholeShare(last, limit, TotalSites(front));
      assert edges == front + [last];
    }
  }

  lemma TotalOfSum(records: seq<Element>, e: Element)
    ensures TotalSites(records + [e]) == TotalSites(records) + |e.Sites()|
  {
    assert (records + [e])[..|records|] == records;
  }

  lemma TrimIsClosed(nodes: seq<Element>, edges: seq<Element>, limits: Limits)
    ensures EndsWithin(Trim(nodes, edges, limits).edges, Trim(nodes, edges, limits).nodes)
  {
    hide Trims, MarkNodes, MarkEdges, LimitSites, EndsWithin, TotalSites;
    var keptNodes := Slice(nodes, limits.nodes);
    var keptEdges := Slice(Eligible(edges, keptNodes), limits.edges);
    var limited := LimitSites(keptEdges, limits.sites);
    LimitSitesTrims(keptEdges, limits.sites);
    MarksTrim(keptNodes, limited);
    EndsOfTrimmed(keptEdges, limited, keptNodes, keptNodes);
    EndsOfTrimmed(limited, limited, keptNodes, MarkNodes(keptNodes));
    EndsOfTrimmed(limited, MarkEdges(limited), keptNodes, keptNodes);
    EndsOfTrimmed(limited, MarkEdges(limited), keptNodes, MarkNodes(keptNodes));
  }

  lemma EndsOfTrimmed(edges: seq<Element>, edges': seq<Element>, nodes: seq<Element>, nodes': seq<Element>)
    requires EndsWithin(edges, nodes) && Trims(edges, edges') && Trims(nodes, nodes')
    ensures EndsWithin(edges', nodes')
  {
    forall i | 0 <= i < |edges'| ensures Has(nodes', edges'[i].source) && Has(nodes', edges'[i].target) {
      TrimsHas(nodes, nodes', edges[i].source);
      TrimsHas(nodes, nodes', edges[i].target);
    }
  }

  ghost predicate EndsWithin(edges: seq<Element>, nodes: seq<Element>) {
    forall i :: 0 <= i < |edges| ==> Has(nodes, edges[i].source) && Has(nodes, edges[i].target)
  }

  lemma TrimIsBounded(nodes: seq<Element>, edges: seq<Element>, limits: Limits)
    ensures var kept := Trim(nodes, edges, limits);
            limits.nodes.Admits(|kept.nodes|) && limits.edges.Admits(|kept.edges|) && limits.sites.Admits(TotalSites(kept.edges))
  {
    var keptEdges := Slice(Eligible(edges, Slice(nodes, limits.nodes)), limits.edges);
    LimitSitesSpends(keptEdges, limits.sites);
    MarksTrim([], LimitSites(keptEdges, limits.sites));
  }

  /** `cut` is down only if every record is still there as it was. */
  lemma UncutIsWhole(nodes: seq<Element>, edges: seq<Element>, limits: Limits)
    requires !Trim(nodes, edges, limits).cut
    ensures Trim(nodes, edges, limits) == Trimmed(nodes, edges, false)
  {
    var keptEdges := Slice(Eligible(edges, Slice(nodes, limits.nodes)), limits.edges);
    LimitSitesSpends(keptEdges, limits.sites);
    LimitSitesKeeps(keptEdges, limits.sites);
  }

  /** `cut` is up only if a node, an edge or a site is gone. */
  lemma CutIsReal(nodes: seq<Element>, edges: seq<Element>, limits: Limits)
    requires Trim(nodes, edges, limits).cut
    ensures var kept := Trim(nodes, edges, limits);
            |kept.nodes| < |nodes| || |kept.edges| < |edges| || TotalSites(kept.edges) < TotalSites(edges)
  {
    var keptNodes := Slice(nodes, limits.nodes);
    var keptEdges := Slice(Eligible(edges, keptNodes), limits.edges);
    LimitSitesSpends(keptEdges, limits.sites);
    MarksTrim(keptNodes, LimitSites(keptEdges, limits.sites));
  }

  // ----- one merge -----

  /** Every edge of a merged slice has both ends in it. */
  lemma MergeIsClosed(left: View, right: View, cumulative: bool)
    ensures EndsWithin(Merged(left, right, cumulative).edges, Merged(left, right, cumulative).nodes)
  {
    TrimIsClosed(AllNodes(left, right, cumulative), AllEdges(left, right, cumulative), CombinedLimits(left, right, cumulative));
  }

  /** Nodes, edges and sites stay within the combined budgets, and the sites used are counted. */
  lemma MergeIsBounded(left: View, right: View, cumulative: bool)
    ensures var limits, r := CombinedLimits(left, right, cumulative), Merged(left, right, cumulative);
            && limits.nodes.Admits(|r.nodes|) && limits.edges.Admits(|r.edges|) && limits.sites.Admits(TotalSites(r.edges))
            && r.metadata.sitesUsed == Some(TotalSites(r.edges))
  {
    TrimIsBounded(AllNodes(left, right, cumulative), AllEdges(left, right, cumulative), CombinedLimits(left, right, cumulative));
  }

  ghost predicate SameShape(a: seq<Element>, b: seq<Element>) {
    |a| == |b| && forall i :: 0 <= i < |a| ==> a[i].id == b[i].id && a[i].Sites() == b[i].Sites()
  }

  lemma PageRecordsShape(records: seq<Element>, metadata: Metadata, cumulative: bool)
    ensures SameShape(records, PageRecords(records, metadata, cumulative))
  {
  }

  lemma ShapeOfHas(a: seq<Element>, b: seq<Element>, id: string)
    requires SameShape(a, b)
    ensures Has(a, id) <==> Has(b, id)
    ensures IndexOf(a, id) == IndexOf(b, id)
  {
    var i, j := IndexOf(a, id), IndexOf(b, id);
    assert i < |a| ==> b[i].id == id;
    assert j < |b| ==> a[j].id == id;
  }

  lemma {:induction false} ShapeOfMap(a: seq<Element>, b: seq<Element>)
    requires SameShape(a, b)
    ensures SameShape(MapOf(a), MapOf(b))
  {
    hide IndexOf;
    if a != [] {
      var frontA, frontB := a[..|a| - 1], b[..|b| - 1];
      ShapeOfMap(frontA, frontB);
      ShapeOfHas(MapOf(frontA), MapOf(frontB), a[|a| - 1].id);
    }
  }

  lemma ShapeOfSites(a: seq<Element>, b: seq<Element>, id: string, site: string)
    requires SameShape(a, b)
    ensures SiteAt(a, id, site) <==> SiteAt(b, id, site)
    ensures SiteIn(a, id, site) <==> SiteIn(b, id, site)
  {
    ShapeOfHas(a, b, id);
    if SiteIn(a, id, site) {
      var i :| 0 <= i < |a| && a[i].id == id && site in a[i].Sites();
      assert b[i].id == id;
    }
    if SiteIn(b, id, site) {
      var i :| 0 <= i < |b| && b[i].id == id && site in b[i].Sites();
      assert a[i].id == id;
    }
  }

  /** The merged records have exactly the ids of both pages. */
  lemma AllRecordsKeys(left: seq<Element>, l: Metadata, right: seq<Element>, r: Metadata, cumulative: bool, id: string)
    ensures Has(AbsorbAll(MapOf(PageRecords(left, l, cumulative)), PageRecords(right, r, cumulative)), id)
            <==> Has(left, id) || Has(right, id)
  {
    var base, more := PageRecords(left, l, cumulative), PageRecords(right, r, cumulative);
    PageRecordsShape(left, l, cumulative);
    PageRecordsShape(right, r, cumulative);
    ShapeOfHas(left, base, id);
    ShapeOfHas(right, more, id);
    MapOfKeys(base);
    AbsorbAllKeys(MapOf(base), more);
  }

  /** The merged edges have exactly the sites of both pages; of two records of one id on the left the later counts. */
  lemma AllEdgesSites(left: View, right: View, cumulative: bool, id: string, site: string)
    ensures SiteAt(AllEdges(left, right, cumulative), id, site)
            <==> SiteAt(MapOf(left.edges), id, site) || SiteIn(right.edges, id, site)
  {
    var base := PageRecords(left.edges, left.metadata, cumulative);
    var more := PageRecords(right.edges, right.metadata, cumulative);
    PageRecordsShape(left.edges, left.metadata, cumulative);
    PageRecordsShape(right.edges, right.metadata, cumulative);
    ShapeOfMap(left.edges, base);
    ShapeOfSites(MapOf(left.edges), MapOf(base), id, site);
    ShapeOfSites(right.edges, more, id, site);
    MapOfKeys(base);
    AbsorbAllSites(MapOf(base), more, id, site);
  }

  /** r has every node, every edge and every site of both pages, and nothing else. */
  ghost predicate HoldsBoth(left: View, right: View, r: View) {
    && (forall id :: Has(r.nodes, id) <==> Has(left.nodes, id) || Has(right.nodes, id))
    && (forall id :: Has(r.edges, id) <==> Has(left.edges, id) || Has(right.edges, id))
    && (forall id, site :: SiteAt(r.edges, id, site) <==> SiteAt(MapOf(left.edges), id, site) || SiteIn(right.edges, id, site))
  }

  lemma UncutHoldsBoth(left: View, right: View, cumulative: bool)
    requires !Trim(AllNodes(left, right, cumulative), AllEdges(left, right, cumulative), CombinedLimits(left, right, cumulative)).cut
    ensures HoldsBoth(left, right, Merged(left, right, cumulative))
  {
    var nodes, edges := AllNodes(left, right, cumulative), AllEdges(left, right, cumulative);
    UncutIsWhole(nodes, edges, CombinedLimits(left, right, cumulative));
    forall id ensures Has(nodes, id) <==> Has(left.nodes, id) || Has(right.nodes, id) {
      AllRecordsKeys(left.nodes, left.metadata, right.nodes, right.metadata, cumulative, id);
    }
    forall id ensures Has(edges, id) <==> Has(left.edges, id) || Has(right.edges, id) {
      AllRecordsKeys(left.edges, left.metadata, right.edges, right.metadata, cumulative, id);
    }
    forall id, site ensures SiteAt(edges, id, site) <==> SiteAt(MapOf(left.edges), id, site) || SiteIn(right.edges, id, site) {
      AllEdgesSites(left, right, cumulative, id, site);
    }
  }

  /** A truncated slice never claims to be complete, and truncated evidence is truncation. */
  lemma TruncatedIsNotComplete(left: View, right: View, cumulative: bool)
    ensures var r := Merged(left, right, cumulative);
            && (r.metadata.truncated ==> r.status != Some(Complete))
            && (r.metadata.evidenceTruncated ==> r.metadata.truncated)
            && (left.metadata.evidenceTruncated || right.metadata.evidenceTruncated ==> r.metadata.evidenceTruncated)
  {
    hide Trim, AllNodes, AllEdges, CombinedLimits;
  }

  /** r has every node, every edge and every site that stands anywhere on the two pages, and nothing else. */
  ghost predicate HoldsAll(left: View, right: View, r: View) {
    && (forall id :: Has(r.nodes, id) <==> Has(left.nodes, id) || Has(right.nodes, id))
    && (forall id :: Has(r.edges, id) <==> Has(left.edges, id) || Has(right.edges, id))
    && (forall id, site :: SiteIn(r.edges, id, site) <==> SiteIn(left.edges, id, site) || SiteIn(right.edges, id, site))
  }

  /** Every site of a repeated edge also stands in the last record of the edge, or on the other page. */
  ghost predicate KeepsSites(edges: seq<Element>, others: seq<Element>) {
    forall i, site :: 0 <= i < |edges| && site in edges[i].Sites() ==>
      site in LastOf(edges, edges[i].id).value.Sites() || SiteIn(others, edges[i].id, site)
  }

  lemma MapHasNoOtherSite(edges: seq<Element>, id: string, site: string)
    ensures SiteAt(MapOf(edges), id, site) ==> SiteIn(edges, id, site)
  {
    MapOfHoldsLast(edges, id);
    MapOfKeys(edges);
    if SiteAt(MapOf(edges), id, site) {
      var last := LastOf(edges, id).value;
      var i :| 0 <= i < |edges| && edges[i] == last;
    }
  }

  lemma KeepsSitesInMap(edges: seq<Element>, others: seq<Element>)
    ensures KeepsSites(edges, others) <==>
      forall id, site :: SiteIn(edges, id, site) ==> SiteAt(MapOf(edges), id, site) || SiteIn(others, id, site)
  {
    hide MapOf, LastOf;
    MapOfKeys(edges);
    forall id ensures Get(MapOf(edges), id) == LastOf(edges, id) {
      MapOfHoldsLast(edges, id);
    }
    if forall id, site :: SiteIn(edges, id, site) ==> SiteAt(MapOf(edges), id, site) || SiteIn(others, id, site) {
      forall i, site | 0 <= i < |edges| && site in edges[i].Sites()
        ensures site in LastOf(edges, edges[i].id).value.Sites() || SiteIn(others, edges[i].id, site)
      {
        assert SiteIn(edges, edges[i].id, site);
      }
    }
  }

  lemma UncutSitesOfBoth(left: View, right: View, cumulative: bool)
    requires !Trim(AllNodes(left, right, cumulative), AllEdges(left, right, cumulative), CombinedLimits(left, right, cumulative)).cut
    ensures HoldsAll(left, right, Merged(left, right, cumulative)) <==> KeepsSites(left.edges, right.edges)
  {
    hide Merged, Trim, AllNodes, AllEdges, CombinedLimits, MapOf, SiteIn, SiteAt;
    var r := Merged(left, right, cumulative);
    UncutHoldsBoth(left, right, cumulative);
    MergedIsDistinct(left, right, cumulative);
    KeepsSitesInMap(left.edges, right.edges);
    forall id, site ensures SiteIn(r.edges, id, site) <==> SiteAt(MapOf(left.edges), id, site) || SiteIn(right.edges, id, site) {
      SiteAtIsSiteIn(r.edges, id, site);
    }
    forall id, site ensures SiteAt(MapOf(left.edges), id, site) ==> SiteIn(left.edges, id, site) {
      MapHasNoOtherSite(left.edges, id, site);
    }
  }

  /** An untruncated result has everything of both pages if and only if no site is lost to a repeated edge on the left. */
  lemma UntruncatedHoldsAllIff(left: View, right: View, cumulative: bool)
    requires !Merged(left, right, cumulative).metadata.truncated
    ensures HoldsAll(left, right, Merged(left, right, cumulative)) <==> KeepsSites(left.edges, right.edges)
  {
    hide Trim, AllNodes, AllEdges, CombinedLimits, HoldsAll, KeepsSites;
    UncutSitesOfBoth(left, right, cumulative);
  }

  /** So on a left page that repeats no edge, an untruncated result has everything of both pages. */
  lemma UntruncatedHoldsAll(left: View, right: View, cumulative: bool)
    requires !Merged(left, right, cumulative).metadata.truncated && Distinct(left.edges)
    ensures HoldsAll(left, right, Merged(left, right, cumulative))
  {
    hide Merged, HoldsAll, KeepsSites;
    UntruncatedHoldsAllIff(left, right, cumulative);
    DistinctKeepsSites(left.edges, right.edges);
  }

  /**
   Whatever a merge leaves out, it says so, unless it is a site of an earlier record of a repeated edge on the left:
   the result is marked truncated and does not claim to be complete.
  */
  lemma MergeIsHonest(left: View, right: View, cumulative: bool)
    ensures var r := Merged(left, right, cumulative);
            var marked := r.metadata.truncated && r.status != Some(Complete);
            && (!HoldsBoth(left, right, r) ==> marked)
            && (!HoldsAll(left, right, r) && KeepsSites(left.edges, right.edges) ==> marked)
  {
    hide Merged, HoldsAll, HoldsBoth, KeepsSites;
    if !Merged(left, right, cumulative).metadata.truncated {
      UntruncatedHoldsAllIff(left, right, cumulative);
      UntruncatedHoldsBoth(left, right, cumulative);
    }
    TruncatedIsNotComplete(left, right, cumulative);
  }

  lemma UntruncatedHoldsBoth(left: View, right: View, cumulative: bool)
    requires !Merged(left, right, cumulative).metadata.truncated
    ensures HoldsBoth(left, right, Merged(left, right, cumulative))
  {
    hide Trim, AllNodes, AllEdges, CombinedLimits, HoldsBoth;
    UncutHoldsBoth(left, right, cumulative);
  }

  lemma DistinctKeepsSites(edges: seq<Element>, others: seq<Element>)
    requires Distinct(edges)
    ensures KeepsSites(edges, others)
  {
    hide MapOf;
    KeepsSitesInMap(edges, others);
    MapOfDistinct(edges);
    forall id, site ensures SiteAt(edges, id, site) <==> SiteIn(edges, id, site) {
      SiteAtIsSiteIn(edges, id, site);
    }
  }

  lemma SiteAtIsSiteIn(records: seq<Element>, id: string, site: string)
    requires Distinct(records)
    ensures SiteAt(records, id, site) <==> SiteIn(records, id, site)
  {
    var i := IndexOf(records, id);
    if SiteAt(records, id, site) {
      assert records[i].id == id;
    }
    if SiteIn(records, id, site) {
      var j :| 0 <= j < |records| && records[j].id == id && site in records[j].Sites();
      assert i == j;
    }
  }

  /** The edges of an uncut merge have distinct ids. */
  lemma MergedIsDistinct(left: View, right: View, cumulative: bool)
    requires !Trim(AllNodes(left, right, cumulative), AllEdges(left, right, cumulative), CombinedLimits(left, right, cumulative)).cut
    ensures Distinct(Merged(left, right, cumulative).nodes) && Distinct(Merged(left, right, cumulative).edges)
  {
    UncutIsWhole(AllNodes(left, right, cumulative), AllEdges(left, right, cumulative), CombinedLimits(left, right, cumulative));
    MapOfKeys(PageRecords(left.nodes, left.metadata, cumulative));
    AbsorbAllKeys(MapOf(PageRecords(left.nodes, left.metadata, cumulative)), PageRecords(right.nodes, right.metadata, cumulative));
    MapOfKeys(PageRecords(left.edges, left.metadata, cumulative));
    AbsorbAllKeys(MapOf(PageRecords(left.edges, left.metadata, cumulative)), PageRecords(right.edges, right.metadata, cumulative));
  }

  // ----- a page that repeats an edge -----

  lemma {:induction false} AllEligible(edges: seq<Element>, nodes: seq<Element>)
    requires EndsWithin(edges, nodes)
    ensures Eligible(edges, nodes) == edges
  {
    hide Has, Eligible;
    if edges != [] {
      var front, last := edges[..|edges| - 1], edges[|edges| - 1];
      assert EndsWithin(front, nodes) && Has(nodes, last.source) && Has(nodes, last.target);
      AllEligible(front, nodes);
      OneMoreEligible(edges, nodes);
      assert edges == front + [last];
    } else {
      assert Eligible(edges, nodes) == [];
    }
  }

  lemma OneMoreEligible(edges: seq<Element>, nodes: seq<Element>)
    requires edges != [] && Has(nodes, edges[|edges| - 1].source) && Has(nodes, edges[|edges| - 1].target)
    ensures Eligible(edges, nodes) == Eligible(edges[..|edges| - 1], nodes) + [edges[|edges| - 1]]
  {
    hide Has;
  }

  lemma NothingToTrim(nodes: seq<Element>, edges: seq<Element>, limits: Limits)
    requires limits.nodes.Admits(|nodes|) && limits.edges.Admits(|edges|) && limits.sites.Admits(TotalSites(edges))
    requires EndsWithin(edges, nodes)
    ensures Trim(nodes, edges, limits) == Trimmed(nodes, edges, false)
  {
    hide EndsWithin, LimitSites, TotalSites, MarkNodes, MarkEdges, Eligible;
    AllEligible(edges, nodes);
    LimitSitesKeeps(edges, limits.sites);
  }

  const QUIET: Metadata :=
    Metadata(false, false, None, Continuation(false, None, Absent), Budgets(None, None, None), None, None, None)

  lemma OneRecord(e: Element)
    ensures MapOf([e]) == [e] && Has([e], e.id)
  {
    hide IndexOf;
    assert [e][..0] == [] && [e][0].id == e.id;
  }

  lemma LaterRecordWins(first: Element, second: Element)
    requires first.id == second.id
    ensures MapOf([first, second]) == [second]
  {
    hide IndexOf, MapOf;
    var both := [first, second];
    OneRecord(first);
    assert both[..1] == [first] && [first][0].id == second.id;
    assert MapOf(both) == Set([first], second) by { LastIsSet(both); }
  }

  lemma LastIsSet(records: seq<Element>)
    requires records != []
    ensures MapOf(records) == Set(MapOf(records[..|records| - 1]), records[|records| - 1])
  {
  }

  /** A slice with one node and nothing but a repeated edge at it. */
  function Repeating(node: Element, first: Element, second: Element): View {
    View([node], [first, second], Some(Complete), QUIET, None)
  }

  const NOTHING: View := View([], [], Some(Complete), QUIET, None)

  lemma RepeatingMerges(node: Element, first: Element, second: Element)
    requires first.id == second.id && second.source == second.target == node.id
    requires !node.Truncated() && !second.Truncated() && !second.EvidenceTruncated()
    ensures Merged(Repeating(node, first, second), NOTHING, false).edges == [second]
    ensures !Merged(Repeating(node, first, second), NOTHING, false).metadata.truncated
    ensures Merged(Repeating(node, first, second), NOTHING, false).status == Some(Complete)
  {
    hide Trim, MapOf, TotalSites, LimitSites, Eligible;
    OneRecord(node);
    LaterRecordWins(first, second);
    NothingToTrim([node], [second], Limits(Unlimited, Unlimited, Unlimited));
  }

  /** The site of the earlier record is gone, and nothing says so. */
  lemma RepeatedEdgeLosesSite(node: Element, first: Element, second: Element, site: string)
    requires first.id == second.id && second.source == second.target == node.id
    requires !node.Truncated() && !second.Truncated() && !second.EvidenceTruncated()
    requires site in first.Sites() && site !in second.Sites()
    ensures var left := Repeating(node, first, second);
            var r := Merged(left, NOTHING, false);
            && SiteIn(left.edges, first.id, site) && !SiteIn(r.edges, first.id, site)
            && !r.metadata.truncated && r.status == Some(Complete)
  {
    hide Merged;
    RepeatingMerges(node, first, second);
    assert Repeating(node, first, second).edges[0] == first;
  }

  // ----- budgets and reasons -----

  /** A budget of a page is its own value if it has one, else the requested one; a negative value is no budget. */
  lemma LimitsAre(own: Option<int>, requested: Option<int>, k: nat)
    ensures LimitOf(own, requested).Admits(k) <==>
            match own
            case Some(b) => b < 0 || k <= b
            case None => requested.None? || requested.value < 0 || k <= requested.value
  {
  }

  /** An expand stays within the budgets of both slices, no more and no less. */
  lemma SmallerAdmits(a: Limit, b: Limit, k: nat)
    ensures Smaller(a, b).Admits(k) <==> a.Admits(k) && b.Admits(k)
  {
  }

  /** A further page has what both budgets have together. */
  lemma SumAdmits(a: Limit, b: Limit, k: nat)
    ensures Sum(a, b).Admits(k) <==> exists i: nat, j: nat :: i + j == k && a.Admits(i) && b.Admits(j)
  {
    if Sum(a, b).Admits(k) {
      var i := if a.AtMost? && a.n < k then a.n else k;
      var j := k - i;
      if a.Unlimited? || b.Unlimited? || k <= a.n + b.n {
        if a.AtMost? {
          assert i + j == k && a.Admits(i) && b.Admits(j);
        } else {
          assert k + 0 == k && a.Admits(k) && b.Admits(0);
        }
      }
    }
  }

  /** So the expanded canvas fits both slices, and the paged one their sum. */
  lemma MergedFits(left: View, right: View)
    ensures var r, l, m := Merged(left, right, false), LimitsOf(left), LimitsOf(right);
            && l.nodes.Admits(|r.nodes|) && m.nodes.Admits(|r.nodes|) && l.edges.Admits(|r.edges|) && m.edges.Admits(|r.edges|)
            && l.sites.Admits(TotalSites(r.edges)) && m.sites.Admits(TotalSites(r.edges))
    ensures var r, l, m := Merged(left, right, true), LimitsOf(left), LimitsOf(right);
            l.nodes.AtMost? && m.nodes.AtMost? ==> |r.nodes| <= l.nodes.n + m.nodes.n
  {
    hide Trim, AllNodes, AllEdges, LimitsOf;
    var nodes, edges := AllNodes(left, right, false), AllEdges(left, right, false);
    var l, m := LimitsOf(left), LimitsOf(right);
    TrimIsBounded(nodes, edges, CombinedLimits(left, right, false));
    TrimIsBounded(AllNodes(left, right, true), AllEdges(left, right, true), CombinedLimits(left, right, true));
    var kept := Trim(nodes, edges, CombinedLimits(left, right, false));
    SmallerAdmits(l.nodes, m.nodes, |kept.nodes|);
    SmallerAdmits(l.edges, m.edges, |kept.edges|);
    SmallerAdmits(l.sites, m.sites, TotalSites(kept.edges));
  }

  /** Why the canvas is partial: a byte budget outweighs a budget, and a budget every other reason. */
  lemma ReasonOfMerged(left: View, right: View, cumulative: bool)
    ensures var r := Merged(left, right, cumulative).metadata;
            var first, second := left.metadata.continuation.reason, right.metadata.continuation.reason;
            r.continuation.reason ==
              if second == Some(ByteBudget) || (!cumulative && first == Some(ByteBudget)) then Some(ByteBudget)
              else if r.truncated then Some(Budget)
              else if cumulative || second.Some? then second else first
  {
    hide Trim, AllNodes, AllEdges, CombinedLimits;
  }

  /** Where neither slice says anything about its completeness, the merged one says that it is unknown. */
  lemma NothingSaid(left: View, right: View, cumulative: bool)
    requires left.status in {None, Some(OtherStatus(""))} && right.status in {None, Some(OtherStatus(""))}
    ensures Merged(left, right, cumulative).status == Some(UnknownStatus)
  {
    hide Trim, AllNodes, AllEdges, CombinedLimits;
  }

  /** Only a further page is read without its paging marks, and only if it is paged; everything else as it was delivered. */
  lemma RecordsAsDelivered(records: seq<Element>, metadata: Metadata, cumulative: bool, i: nat)
    requires i < |records|
    ensures var taken := PageRecords(records, metadata, cumulative);
            if cumulative && metadata.paginationTruncated == Some(true) && Raised(PaginationFlag(records[i])) then
              PaginationFlag(taken[i]) == None && !taken[i].Truncated() && taken[i].Sites() == records[i].Sites()
            else taken[i] == records[i]
  {
    PageLocalClears(records[i]);
  }

  /** In a paged merge a page that is partial for other reasons keeps the canvas partial. */
  lemma PartialStays(left: View, right: View)
    ensures var r := Merged(left, right, true);
            && (left.status == Some(Partial) && !(left.metadata.truncated && left.metadata.Paged()) ==> r.status != Some(Complete))
            && (right.status == Some(Partial) && !(right.metadata.truncated && right.metadata.Paged()) ==> r.status != Some(Complete))
            && (left.status == Some(UnknownStatus) || right.status == Some(UnknownStatus) ==> r.status == Some(UnknownStatus))
  {
    hide Trim, AllNodes, AllEdges, CombinedLimits;
  }

  // ----- exactly when a canvas says that something is missing -----

  ghost predicate SomeTruncated(records: seq<Element>) {
    exists e :: e in records && e.Truncated()
  }

  ghost predicate SomeEvidenceTruncated(records: seq<Element>) {
    exists e :: e in records && e.EvidenceTruncated()
  }

  /** The canvas holds fewer nodes, edges or sites than the two slices have together. */
  ghost predicate IsShort(left: View, right: View, cumulative: bool) {
    var r, nodes, edges := Merged(left, right, cumulative), AllNodes(left, right, cumulative), AllEdges(left, right, cumulative);
    |r.nodes| < |nodes| || |r.edges| < |edges| || TotalSites(r.edges) < TotalSites(edges)
  }

  /** The mark of a slice counts, unless a further page is merged and the mark only says that there is one. */
  predicate CountsAsCut(metadata: Metadata, cumulative: bool) {
    metadata.truncated && !(cumulative && metadata.Paged())
  }

  lemma AnyIsSome(records: seq<Element>)
    ensures AnyTruncated(records) <==> SomeTruncated(records)
    ensures AnyEvidenceTruncated(records) <==> SomeEvidenceTruncated(records)
  {
    if SomeTruncated(records) {
      var e :| e in records && e.Truncated();
      var i :| 0 <= i < |records| && records[i] == e;
      assert records[i].Truncated();
    }
    if SomeEvidenceTruncated(records) {
      var e :| e in records && e.EvidenceTruncated();
      var i :| 0 <= i < |records| && records[i] == e;
      assert records[i].EvidenceTruncated();
    }
  }

  lemma CutIffShort(left: View, right: View, cumulative: bool)
    ensures Trim(AllNodes(left, right, cumulative), AllEdges(left, right, cumulative), CombinedLimits(left, right, cumulative)).cut
            <==> IsShort(left, right, cumulative)
  {
    hide Trim, AllNodes, AllEdges, CombinedLimits, TotalSites;
    var nodes, edges, limits := AllNodes(left, right, cumulative), AllEdges(left, right, cumulative), CombinedLimits(left, right, cumulative);
    if Trim(nodes, edges, limits).cut {
      CutIsReal(nodes, edges, limits);
    } else {
      UncutIsWhole(nodes, edges, limits);
    }
  }

  /**
   The merged slice is marked truncated exactly if a mark of one of the two counts, a kept record carries one, evidence was
   cut, something is missing, or another page can be asked for; its evidence exactly if that of a slice or of a kept edge is.
  */
  lemma TruncatedIff(left: View, right: View, cumulative: bool)
    ensures var r := Merged(left, right, cumulative);
            && (r.metadata.evidenceTruncated <==>
                  left.metadata.evidenceTruncated || right.metadata.evidenceTruncated || SomeEvidenceTruncated(r.edges))
            && (r.metadata.truncated <==>
                  || CountsAsCut(left.metadata, cumulative) || CountsAsCut(right.metadata, cumulative)
                  || SomeTruncated(r.nodes) || SomeTruncated(r.edges) || r.metadata.evidenceTruncated
                  || IsShort(left, right, cumulative) || (cumulative && right.metadata.continuation.Usable()))
  {
    hide Trim, AllNodes, AllEdges, CombinedLimits, AnyTruncated, AnyEvidenceTruncated, IsShort;
    CutIffShort(left, right, cumulative);
    AnyIsSome(Merged(left, right, cumulative).nodes);
    AnyIsSome(Merged(left, right, cumulative).edges);
  }

  /** Another page is offered by the last page alone, after an expand also by either slice or because something is missing. */
  lemma OfferOfMerged(left: View, right: View, cumulative: bool)
    ensures var r := Merged(left, right, cumulative).metadata;
            && (r.continuation.available <==>
                  if cumulative then right.metadata.continuation.Usable()
                  else left.metadata.continuation.available || right.metadata.continuation.available || r.truncated)
            && (!r.continuation.available ==> r.continuation.token.Absent?)
  {
    hide Trim, AllNodes, AllEdges, CombinedLimits;
  }

  /** The merged slice answers the later request, where that is known, and shows the later paging mark and budgets. */
  lemma LaterFieldsWin(left: View, right: View, cumulative: bool)
    ensures var r := Merged(left, right, cumulative);
            && r.request == (if right.request.Some? then right.request else left.request)
            && r.metadata.paginationTruncated ==
               (if right.metadata.paginationTruncated.Some? then right.metadata.paginationTruncated else left.metadata.paginationTruncated)
    ensures var r, own := Merged(left, right, false).metadata.budgets, right.metadata.budgets;
            && (own.nodes.Some? ==> r.nodes == own.nodes) && (own.edges.Some? ==> r.edges == own.edges)
            && (own.sites.Some? ==> r.sites == own.sites)
  {
    hide Trim, AllNodes, AllEdges, CombinedLimits;
  }

  // ----- a cut canvas is as full as its budgets allow -----

  function Least(count: nat, limit: Limit): nat {
    if limit.Admits(count) then count else limit.n
  }

  /**
   What a merge keeps: as many nodes as the budget allows, of the edges between kept nodes as many as the budget allows, and of
   their sites too, always the first ones.
  */
  lemma TrimIsFull(nodes: seq<Element>, edges: seq<Element>, limits: Limits)
    ensures var kept := Trim(nodes, edges, limits);
            var between := Eligible(edges, nodes[..Least(|nodes|, limits.nodes)]);
            && |kept.nodes| == Least(|nodes|, limits.nodes)
            && (forall i :: 0 <= i < |kept.nodes| ==> kept.nodes[i].id == nodes[i].id)
            && |kept.edges| == Least(|between|, limits.edges)
            && (forall i :: 0 <= i < |kept.edges| ==> kept.edges[i].id == between[i].id && kept.edges[i].Sites() <= between[i].Sites())
            && TotalSites(kept.edges) == Least(TotalSites(between[..|kept.edges|]), limits.sites)
  {
    hide MarkNodes, MarkEdges, LimitSites, TotalSites, Eligible, Trims;
    var keptNodes := Slice(nodes, limits.nodes);
    assert keptNodes == nodes[..Least(|nodes|, limits.nodes)];
    var between := Eligible(edges, keptNodes);
    var keptEdges := Slice(between, limits.edges);
    assert keptEdges == between[..Least(|between|, limits.edges)];
    var limited := LimitSites(keptEdges, limits.sites);
    LimitSitesTrims(keptEdges, limits.sites);
    LimitSitesFills(keptEdges, limits.sites);
    MarksTrim(keptNodes, limited);
    TrimsTwice(keptEdges, limited, MarkEdges(limited));
    TrimsIds(keptNodes, MarkNodes(keptNodes));
    TrimsIds(keptEdges, limited);
  }

  /** Which records are marked: all nodes if there were too many, all edges if some are left out, and each edge short of sites. */
  lemma TrimMarks(nodes: seq<Element>, edges: seq<Element>, limits: Limits, i: nat)
    ensures var kept := Trim(nodes, edges, limits);
            && (i < |kept.nodes| ==> if |kept.nodes| < |nodes| then kept.nodes[i].Truncated() else kept.nodes[i] == nodes[i])
            && (i < |kept.edges| && |kept.edges| < |edges| ==> kept.edges[i].Truncated())
  {
    hide LimitSites, TotalSites, Eligible;
    var keptEdges := LimitSites(Slice(Eligible(edges, Slice(nodes, limits.nodes)), limits.edges), limits.sites);
    if i < |nodes| {
      MarkAddsOnly(nodes[i], false);
    }
    if i < |keptEdges| {
      EdgeMarked(keptEdges, i);
    }
  }

  /** An edge among too many is marked, and so is its evidence if its status says that it was cut. */
  lemma EdgeMarked(edges: seq<Element>, i: nat)
    requires i < |edges|
    ensures var m := MarkEdges(edges)[i];
            && m.Truncated() && m.id == edges[i].id && m.Sites() == edges[i].Sites()
            && (edges[i].status.Some? && edges[i].status.value.evidenceTruncated == Some(true) ==>
                  m.evidence == Some(Evidence(Some(true), Some(true))))
            && (edges[i].status.None? || edges[i].status.value.evidenceTruncated != Some(true) ==> m.evidence == edges[i].evidence)
  {
    MarkAddsOnly(edges[i], false);
    MarkAddsOnly(edges[i], true);
  }

  lemma TrimsTwice(a: seq<Element>, b: seq<Element>, c: seq<Element>)
    requires Trims(a, b) && Trims(b, c)
    ensures Trims(a, c)
    ensures |c| == |a| && forall i :: 0 <= i < |a| ==> c[i].id == a[i].id && c[i].Sites() <= a[i].Sites()
  {
    forall i | 0 <= i < |a| ensures c[i].Sites() <= a[i].Sites() {
      assert c[i].Sites() <= b[i].Sites() <= a[i].Sites();
    }
  }

  lemma TrimsIds(a: seq<Element>, b: seq<Element>)
    requires Trims(a, b)
    ensures |b| == |a| && forall i :: 0 <= i < |a| ==> b[i].id == a[i].id && b[i].Sites() <= a[i].Sites()
  {
  }

  /** The site budget is spent as far as there are sites. */
  lemma {:induction false} LimitSitesFills(edges: seq<Element>, limit: Limit)
    ensures TotalSites(LimitSites(edges, limit)) == Least(TotalSites(edges), limit)
  {
    hide CutSites, LimitSites, TotalSites;
    if edges != [] {
      var front, last := edges[..|edges| - 1], edges[|edges| - 1];
      LimitSitesFills(front, limit);
      var share := LastShare(edges, limit);
      ShareFills(last, limit, TotalSites(front));
    } else {
      NoSites(edges, limit);
    }
  }

  lemma NoSites(edges: seq<Element>, limit: Limit)
    requires edges == []
    ensures TotalSites(LimitSites(edges, limit)) == 0 == TotalSites(edges)
  {
    assert LimitSites(edges, limit) == [];
  }

  lemma ShareFills(e: Element, limit: Limit, before: nat)
    ensures var used := Least(before, limit);
            used + |CutSites(e, limit.Minus(used)).Sites()| == Least(before + |e.Sites()|, limit)
  {
    var remaining := limit.Minus(Least(before, limit));
    if !remaining.Admits(|e.Sites()|) {
      assert CutSites(e, remaining).Sites() == e.Sites()[..remaining.n];
    }
  }

  // ----- any sequence of merges -----

  datatype Step = Step(page: View, cumulative: bool)

  function MergeAll(start: View, steps: seq<Step>): View {
    if steps == [] then start
    else
      var last := steps[|steps| - 1];
      Merged(MergeAll(start, steps[..|steps| - 1]), last.page, last.cumulative)
  }

  /** Once evidence was cut in any contribution, every later slice says so. */
  lemma {:induction false} EvidenceStaysTruncated(start: View, steps: seq<Step>)
    requires start.metadata.evidenceTruncated || exists i :: 0 <= i < |steps| && steps[i].page.metadata.evidenceTruncated
    ensures var r := MergeAll(start, steps);
            r.metadata.evidenceTruncated && (steps != [] ==> r.metadata.truncated && r.status != Some(Complete))
  {
    hide Merged;
    if steps != [] {
      var front, last := steps[..|steps| - 1], steps[|steps| - 1];
      if !last.page.metadata.evidenceTruncated {
        if !start.metadata.evidenceTruncated {
          var i :| 0 <= i < |steps| && steps[i].page.metadata.evidenceTruncated;
          assert front[i] == steps[i];
        }
        EvidenceStaysTruncated(start, front);
      }
      TruncatedIsNotComplete(MergeAll(start, front), last.page, last.cumulative);
    }
  }

  /** The canvas at the start and after each merge. */
  ghost function Canvases(start: View, steps: seq<Step>): (r: seq<View>)
    ensures |r| == |steps| + 1
  {
    seq(|steps| + 1, i requires 0 <= i <= |steps| => MergeAll(start, steps[..i]))
  }

  lemma CanvasStep(start: View, steps: seq<Step>, t: nat)
    requires t < |steps|
    ensures MergeAll(start, steps[..t + 1]) == Merged(MergeAll(start, steps[..t]), steps[t].page, steps[t].cumulative)
  {
    assert steps[..t + 1][..t] == steps[..t];
  }

  /** If every canvas is below the one before it and below the page merged into it, it is below everything before it. */
  lemma {:induction false} BelowAll(canvases: seq<View>, steps: seq<Step>, below: (View, View) -> bool, n: nat)
    requires n <= |steps| && |canvases| == |steps| + 1
    requires forall a, b, c :: below(a, b) && below(b, c) ==> below(a, c)
    requires forall t :: 0 <= t < |steps| ==> below(canvases[t + 1], canvases[t]) && below(canvases[t + 1], steps[t].page)
    ensures forall i :: 0 <= i < n ==> below(canvases[n], canvases[i]) && below(canvases[n], steps[i].page)
  {
    if n > 0 {
      BelowAll(canvases, steps, below, n - 1);
      assert below(canvases[n - 1 + 1], canvases[n - 1]) && below(canvases[n - 1 + 1], steps[n - 1].page);
    }
  }

  ghost predicate NoFresher(v: View, than: View) {
    && NoStronger(v.metadata.freshness, than.metadata.freshness, FreshnessRank)
    && NoStronger(v.metadata.identityFreshness, than.metadata.identityFreshness, FreshnessRank)
  }

  lemma MergeIsNoFresher(left: View, right: View, cumulative: bool)
    ensures NoFresher(Merged(left, right, cumulative), left) && NoFresher(Merged(left, right, cumulative), right)
  {
    hide Trim, AllNodes, AllEdges, CombinedLimits;
    WeakestIsNoStronger(left.metadata.freshness, right.metadata.freshness, FreshnessRank);
    WeakestIsNoStronger(left.metadata.identityFreshness, right.metadata.identityFreshness, FreshnessRank);
  }

  /** No sequence of merges, paging or not, looks fresher than any slice that went into it. */
  lemma FreshnessNeverRises(start: View, steps: seq<Step>)
    requires steps != []
    ensures NoFresher(MergeAll(start, steps), start)
    ensures forall i :: 0 <= i < |steps| ==> NoFresher(MergeAll(start, steps), steps[i].page)
  {
    hide Merged;
    var canvases := Canvases(start, steps);
    forall t | 0 <= t < |steps| ensures NoFresher(canvases[t + 1], canvases[t]) && NoFresher(canvases[t + 1], steps[t].page) {
      CanvasStep(start, steps, t);
      MergeIsNoFresher(canvases[t], steps[t].page, steps[t].cumulative);
    }
    BelowAll(canvases, steps, NoFresher, |steps|);
    assert steps[..|steps|] == steps && canvases[0] == start;
  }

  /** What the start and the merged pages claim, in order. */
  function Claims<T>(start: View, steps: seq<Step>, claim: View -> Option<T>): (r: seq<Option<T>>)
    ensures |r| == |steps| + 1
  {
    if steps == [] then [claim(start)]
    else Claims(start, steps[..|steps| - 1], claim) + [claim(steps[|steps| - 1].page)]
  }

  function FreshnessClaim(v: View): Option<Freshness> {
    v.metadata.freshness
  }

  function IdentityClaim(v: View): Option<Freshness> {
    v.metadata.identityFreshness
  }

  function StatusClaim(v: View): Option<Completeness> {
    v.status
  }

  lemma MergedFreshness(left: View, right: View, cumulative: bool)
    ensures FreshnessClaim(Merged(left, right, cumulative)) == Weakest(FreshnessClaim(left), FreshnessClaim(right), FreshnessRank)
    ensures IdentityClaim(Merged(left, right, cumulative)) == Weakest(IdentityClaim(left), IdentityClaim(right), FreshnessRank)
  {
    hide Trim, AllNodes, AllEdges, CombinedLimits, Weakest, FreshnessRank;
  }

  /**
   Over any sequence of merges, paging or not, the canvas is stale exactly if a slice that went into it is, and current
   exactly if all slices that claim a freshness are; and so for the freshness of its identity.
  */
  lemma {:induction false} FreshnessSumsUp(start: View, steps: seq<Step>)
    ensures SumsUp(FreshnessClaim(MergeAll(start, steps)), Claims(start, steps, FreshnessClaim), Stale, Current)
    ensures SumsUp(IdentityClaim(MergeAll(start, steps)), Claims(start, steps, IdentityClaim), Stale, Current)
  {
    hide Merged, SumsUp, Weakest, FreshnessRank;
    if steps == [] {
      OneFreshness(FreshnessClaim(start));
      OneFreshness(IdentityClaim(start));
    } else {
      var front, last := steps[..|steps| - 1], steps[|steps| - 1];
      var canvas := MergeAll(start, front);
      FreshnessSumsUp(start, front);
      MergedFreshness(canvas, last.page, last.cumulative);
      OneMoreFreshness(FreshnessClaim(canvas), Claims(start, front, FreshnessClaim), FreshnessClaim(last.page));
      OneMoreFreshness(IdentityClaim(canvas), Claims(start, front, IdentityClaim), IdentityClaim(last.page));
    }
  }

  /** What one expand claims, from what the canvas and the answer claim. */
  lemma ExpandedStatus(left: View, right: View)
    ensures var r := Merged(left, right, false);
            && r.status.Some?
            && (left.status == Some(UnknownStatus) || right.status == Some(UnknownStatus) ==> r.status == Some(UnknownStatus))
            && (r.status == Some(Complete) <==>
                  && !r.metadata.truncated && (left.status.Some? || right.status.Some?)
                  && (left.status.Some? ==> left.status == Some(Complete)) && (right.status.Some? ==> right.status == Some(Complete)))
            && (left.status == Some(Partial) && right.status == Some(Complete) ==> r.status == Some(Partial))
            && (left.status == Some(Complete) && right.status == Some(Partial) ==> r.status == Some(Partial))
            && (left.status == Some(Complete) && right.status == Some(Complete) && r.metadata.truncated ==> r.status == Some(Partial))
  {
    hide Trim, AllNodes, AllEdges, CombinedLimits;
  }

  /**
   Over any sequence of expands, one slice of unknown completeness makes the canvas unknown, and the canvas is complete
   only if every slice that claims anything is and nothing was cut.
  */
  lemma {:induction false} StatusSumsUp(start: View, steps: seq<Step>)
    requires steps != [] && forall i :: 0 <= i < |steps| ==> !steps[i].cumulative
    ensures var r, made := MergeAll(start, steps), Made(Claims(start, steps, StatusClaim));
            && r.status.Some?
            && (UnknownStatus in made ==> r.status == Some(UnknownStatus))
            && (r.status == Some(Complete) ==> !r.metadata.truncated && made == {Complete})
  {
    hide Merged, Made;
    var front, last := steps[..|steps| - 1], steps[|steps| - 1];
    var canvas, claims := MergeAll(start, front), Claims(start, front, StatusClaim);
    MadeMore(claims, last.page.status);
    ExpandedStatus(canvas, last.page);
    if front != [] {
      StatusSumsUp(start, front);
    } else {
      MadeMore([], start.status);
      assert [] + [start.status] == [start.status];
      NothingMade<Completeness>();
    }
  }

  lemma NothingMade<T>()
    ensures Made<T>([]) == {}
  {
  }

  ghost predicate NoMoreComplete(v: View, than: View) {
    NoStronger(v.status, than.status, CompletenessRank) && (than.metadata.truncated ==> v.metadata.truncated)
  }

  lemma ExpandIsNoMoreComplete(left: View, right: View)
    ensures NoMoreComplete(Merged(left, right, false), left) && NoMoreComplete(Merged(left, right, false), right)
  {
    hide Trim, AllNodes, AllEdges, CombinedLimits;
    WeakestIsNoStronger(left.status, right.status, CompletenessRank);
  }

  /** Without paging, no sequence of merges claims more than any slice that went into it, nor forgets that one was cut. */
  lemma StatusNeverRises(start: View, steps: seq<Step>)
    requires steps != [] && forall i :: 0 <= i < |steps| ==> !steps[i].cumulative
    ensures NoMoreComplete(MergeAll(start, steps), start)
    ensures forall i :: 0 <= i < |steps| ==> NoMoreComplete(MergeAll(start, steps), steps[i].page)
  {
    hide Merged, CompletenessRank;
    var canvases := Canvases(start, steps);
    forall t | 0 <= t < |steps|
      ensures NoMoreComplete(canvases[t + 1], canvases[t]) && NoMoreComplete(canvases[t + 1], steps[t].page)
    {
      CanvasStep(start, steps, t);
      ExpandIsNoMoreComplete(canvases[t], steps[t].page);
    }
    BelowAll(canvases, steps, NoMoreComplete, |steps|);
    assert steps[..|steps|] == steps && canvases[0] == start;
  }

  // ----- what paging hides -----

  /**
   With paging, an earlier cut counts exactly as long as the canvas is not marked as paged: clearing the flag of a
   paged canvas changes nothing.
  */
  lemma CutCountsUnlessPaged(canvas: View, page: View)
    ensures var cleared := canvas.(metadata := canvas.metadata.(truncated := false));
            Merged(canvas, page, true).metadata.truncated
            <==> (canvas.metadata.truncated && !canvas.metadata.Paged()) || Merged(cleared, page, true).metadata.truncated
  {
    hide Trim, MapOf, AbsorbAll, LimitOf;
  }

  /** An earlier cut, with an offer to go on, is forgotten once a page that only continues comes between it and the last page. */
  lemma LaterPageHidesCut(reason: Option<Reason>, first: string, token: string)
    requires first != "" && token != ""
    ensures var cut := View([], [], Some(Partial), QUIET.(truncated := true, continuation := Continuation(true, reason, Given(first))), None);
            var next := View([], [], Some(Complete), QUIET.(truncated := true, paginationTruncated := Some(true),
                             continuation := Continuation(true, reason, Given(token))), None);
            var last := View([], [], Some(Complete), QUIET, None);
            var r := MergeAll(cut, [Step(next, true), Step(last, true)]);
            !r.metadata.truncated && r.status == Some(Complete)
  {
    var cut := View([], [], Some(Partial), QUIET.(truncated := true, continuation := Continuation(true, reason, Given(first))), None);
    var next := View([], [], Some(Complete), QUIET.(truncated := true, paginationTruncated := Some(true),
                     continuation := Continuation(true, reason, Given(token))), None);
    var last := View([], [], Some(Complete), QUIET, None);
    var canvas := Merged(cut, next, true);
    assert [Step(next, true), Step(last, true)][..1] == [Step(next, true)];
    assert [Step(next, true)][..0] == [];
    assert MergeAll(cut, [Step(next, true)]) == canvas;
    assert canvas.nodes == [] && canvas.edges == [] && canvas.status == Some(Partial) && canvas.metadata.truncated && canvas.metadata.Paged();
  }
}
