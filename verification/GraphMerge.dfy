/** Merging two bounded result pages into one graph slice. */
module GraphMerge {
  import opened Options
  import opened GraphRecords

  datatype Reason = ByteBudget | Budget | OtherReason(text: string)

  /** A field that may be missing or explicitly null: a missing one keeps the earlier value, null overrides it. */
  datatype TokenField = Absent | Null | Given(text: string)

  datatype Continuation = Continuation(available: bool, reason: Option<Reason>, token: TokenField)
  {
    /** There is a next page and a way to ask for it. */
    predicate Usable() {
      available && token.Given? && token.text != ""
    }
  }

  datatype Budgets = Budgets(nodes: Option<int>, edges: Option<int>, sites: Option<int>)

  datatype Metadata = Metadata(truncated: bool, evidenceTruncated: bool, paginationTruncated: Flag,
                               continuation: Continuation, budgets: Budgets,
                               freshness: Option<Freshness>, identityFreshness: Option<Freshness>, sitesUsed: Option<nat>)
  {
    predicate Paged() {
      Raised(paginationTruncated)
    }
  }

  datatype View = View(nodes: seq<Element>, edges: seq<Element>, status: Option<Completeness>, metadata: Metadata,
                       request: Option<Budgets>)

  // ----- budgets -----

  datatype Limit = Unlimited | AtMost(n: nat)
  {
    predicate Admits(k: nat) {
      Unlimited? || k <= n
    }

    function Minus(k: nat): Limit {
      if Unlimited? then Unlimited else AtMost(if k <= n then n - k else 0)
    }
  }

  datatype Limits = Limits(nodes: Limit, edges: Limit, sites: Limit)

  /** The page's own value, else the requested one; a value that is no budget is no limit. */
  function LimitOf(own: Option<int>, requested: Option<int>): Limit {
    var value := if own.Some? then own else requested;
    if value.Some? && value.value >= 0 then AtMost(value.value) else Unlimited
  }

  function LimitsOf(view: View): Limits {
    var asked := if view.request.Some? then view.request.value else Budgets(None, None, None);
    Limits(LimitOf(view.metadata.budgets.nodes, asked.nodes), LimitOf(view.metadata.budgets.edges, asked.edges),
           LimitOf(view.metadata.budgets.sites, asked.sites))
  }

  function Sum(a: Limit, b: Limit): Limit {
    if a.Unlimited? || b.Unlimited? then Unlimited else AtMost(a.n + b.n)
  }

  function Smaller(a: Limit, b: Limit): Limit {
    if a.Unlimited? then b else if b.Unlimited? then a else if a.n <= b.n then a else b
  }

  /** An expand stays within the smaller budget; a further page adds its own. */
  function CombinedLimits(left: View, right: View, cumulative: bool): Limits {
    var l, r := LimitsOf(left), LimitsOf(right);
    if cumulative then Limits(Sum(l.nodes, r.nodes), Sum(l.edges, r.edges), Sum(l.sites, r.sites))
    else Limits(Smaller(l.nodes, r.nodes), Smaller(l.edges, r.edges), Smaller(l.sites, r.sites))
  }

  // ----- trimming to the budgets -----

  function Slice(records: seq<Element>, limit: Limit): (r: seq<Element>)
    ensures r <= records && limit.Admits(|r|)
    ensures |r| < |records| <==> !limit.Admits(|records|)
  {
    if limit.Admits(|records|) then records else records[..limit.n]
  }

  /** The edges with both ends among the nodes. */
  function Eligible(edges: seq<Element>, nodes: seq<Element>): (r: seq<Element>)
    ensures |r| <= |edges|
    ensures |r| == |edges| ==> r == edges
    ensures forall i :: 0 <= i < |r| ==> r[i] in edges && Has(nodes, r[i].source) && Has(nodes, r[i].target)
  {
    if edges == [] then []
    else
      var front, last := Eligible(edges[..|edges| - 1], nodes), edges[|edges| - 1];
      if Has(nodes, last.source) && Has(nodes, last.target) then front + [last] else front
  }

  function CutSites(e: Element, remaining: Limit): (r: Element)
    ensures r.id == e.id && r.source == e.source && r.target == e.target && r.Sites() <= e.Sites()
    ensures remaining.Admits(|r.Sites()|)
    ensures remaining.Admits(|e.Sites()|) ==> r == e
    ensures r.Sites() != e.Sites() ==> r.Truncated() && r.EvidenceTruncated()
  {
    if remaining.Admits(|e.Sites()|) then e else MarkTruncated(e.(sites := Some(e.Sites()[..remaining.n])), true)
  }

  function LimitSites(edges: seq<Element>, limit: Limit): (r: seq<Element>)
    ensures |r| == |edges|
  {
    if edges == [] then []
    else
      var front := LimitSites(edges[..|edges| - 1], limit);
      front + [CutSites(edges[|edges| - 1], limit.Minus(TotalSites(front)))]
  }

  function MarkNodes(nodes: seq<Element>): (r: seq<Element>)
    ensures |r| == |nodes|
  {
    seq(|nodes|, i requires 0 <= i < |nodes| => MarkTruncated(nodes[i], false))
  }

  function MarkEdges(edges: seq<Element>): (r: seq<Element>)
    ensures |r| == |edges|
  {
    seq(|edges|, i requires 0 <= i < |edges| =>
      MarkTruncated(edges[i], edges[i].status.Some? && Raised(edges[i].status.value.evidenceTruncated)))
  }

  /** What is left of the merged records; `cut` says that a budget left something out. */
  datatype Trimmed = Trimmed(nodes: seq<Element>, edges: seq<Element>, cut: bool)

  function Trim(nodes: seq<Element>, edges: seq<Element>, limits: Limits): Trimmed {
    var keptNodes := Slice(nodes, limits.nodes);
    var eligible := Eligible(edges, keptNodes);
    var keptEdges := Slice(eligible, limits.edges);
    var limited := LimitSites(keptEdges, limits.sites);
    var nodeOverflow := !limits.nodes.Admits(|nodes|);
    var edgeOverflow := !limits.edges.Admits(|edges|) || |eligible| < |edges|;
    var siteOverflow := TotalSites(limited) < TotalSites(keptEdges);
    Trimmed(if nodeOverflow then MarkNodes(keptNodes) else keptNodes,
            if edgeOverflow then MarkEdges(limited) else limited,
            nodeOverflow || edgeOverflow || siteOverflow)
  }

  // ----- metadata and status -----

  function Later<T>(left: Option<T>, right: Option<T>): Option<T> {
    if right.Some? then right else left
  }

  function MergeContinuation(l: Continuation, r: Continuation): Continuation {
    Continuation(l.available || r.available,
                 if l.reason == Some(ByteBudget) || r.reason == Some(ByteBudget) then Some(ByteBudget) else Later(l.reason, r.reason),
                 if r.token.Absent? then l.token else r.token)
  }

  function MergeMetadata(l: Metadata, r: Metadata, sitesUsed: nat): Metadata {
    Metadata(l.truncated || r.truncated, l.evidenceTruncated || r.evidenceTruncated,
             Later(l.paginationTruncated, r.paginationTruncated), MergeContinuation(l.continuation, r.continuation),
             Budgets(Later(l.budgets.nodes, r.budgets.nodes), Later(l.budgets.edges, r.budgets.edges),
                     Later(l.budgets.sites, r.budgets.sites)),
             Weakest(l.freshness, r.freshness, FreshnessRank),
             Weakest(l.identityFreshness, r.identityFreshness, FreshnessRank), Some(sitesUsed))
  }

  function Persisted(limit: Limit, own: Option<int>): Option<int> {
    if limit.AtMost? then Some(limit.n) else own
  }

  /** A further page decides whether there is another one; only truncation that is not paging is kept. */
  function Cumulated(l: Metadata, r: Metadata, limits: Limits, sitesUsed: nat): Metadata {
    var m := MergeMetadata(l, r, sitesUsed);
    m.(truncated := (l.truncated && !l.Paged()) || (r.truncated && !r.Paged()),
       continuation := if r.continuation.Usable() then r.continuation else r.continuation.(available := false, token := Absent),
       budgets := Budgets(Persisted(limits.nodes, m.budgets.nodes), Persisted(limits.edges, m.budgets.edges),
                          Persisted(limits.sites, m.budgets.sites)))
  }

  predicate AnyTruncated(records: seq<Element>) {
    exists i :: 0 <= i < |records| && records[i].Truncated()
  }

  predicate AnyEvidenceTruncated(records: seq<Element>) {
    exists i :: 0 <= i < |records| && records[i].EvidenceTruncated()
  }

  function FinalMetadata(l: Metadata, r: Metadata, cumulative: bool, limits: Limits, kept: Trimmed): Metadata {
    var sitesUsed := TotalSites(kept.edges);
    var m := if cumulative then Cumulated(l, r, limits, sitesUsed) else MergeMetadata(l, r, sitesUsed);
    var evidence := m.evidenceTruncated || AnyEvidenceTruncated(kept.edges);
    var truncated := || m.truncated || AnyTruncated(kept.nodes) || AnyTruncated(kept.edges) || kept.cut
                     || (cumulative && m.continuation.available) || evidence;
    var available := if cumulative then m.continuation.Usable() else m.continuation.available || truncated;
    m.(truncated := truncated, evidenceTruncated := evidence,
       continuation := Continuation(available,
         if truncated && m.continuation.reason != Some(ByteBudget) then Some(Budget) else m.continuation.reason,
         if available then m.continuation.token else Absent))
  }

  /** A page that is partial only because there is another page counts as complete. */
  function StatusInput(view: View, cumulative: bool): Option<Completeness> {
    if cumulative && view.status == Some(Partial) && view.metadata.truncated && view.metadata.Paged() then Some(Complete)
    else view.status
  }

  function MergedStatus(left: View, right: View, cumulative: bool, truncated: bool): Completeness {
    var combined := Weakest(StatusInput(left, cumulative), StatusInput(right, cumulative), CompletenessRank);
    if truncated && combined == Some(Complete) then Partial
    else if combined.None? || combined.value == OtherStatus("") then UnknownStatus
    else combined.value
  }

  // ----- the merge -----

  function PageRecords(records: seq<Element>, metadata: Metadata, cumulative: bool): (r: seq<Element>)
    ensures |r| == |records|
  {
    if cumulative && metadata.Paged() then seq(|records|, i requires 0 <= i < |records| => PageLocal(records[i])) else records
  }

  function AllNodes(left: View, right: View, cumulative: bool): seq<Element> {
    AbsorbAll(MapOf(PageRecords(left.nodes, left.metadata, cumulative)), PageRecords(right.nodes, right.metadata, cumulative))
  }

  function AllEdges(left: View, right: View, cumulative: bool): seq<Element> {
    AbsorbAll(MapOf(PageRecords(left.edges, left.metadata, cumulative)), PageRecords(right.edges, right.metadata, cumulative))
  }

  function Merged(left: View, right: View, cumulative: bool): View {
    var limits := CombinedLimits(left, right, cumulative);
    var kept := Trim(AllNodes(left, right, cumulative), AllEdges(left, right, cumulative), limits);
    var metadata := FinalMetadata(left.metadata, right.metadata, cumulative, limits, kept);
    View(kept.nodes, kept.edges, Some(MergedStatus(left, right, cumulative, metadata.truncated)), metadata,
         if right.request.Some? then right.request else left.request)
  }

  method MergeSlices(left: View, right: View, cumulative: bool) returns (r: View)
    ensures r == Merged(left, right, cumulative)
  {
    var nodes := FillMap(PageRecords(left.nodes, left.metadata, cumulative), PageRecords(right.nodes, right.metadata, cumulative));
    var edges := FillMap(PageRecords(left.edges, left.metadata, cumulative), PageRecords(right.edges, right.metadata, cumulative));
    var limits := CombinedLimits(left, right, cumulative);
    var kept := TrimRecords(nodes, edges, limits);
    var metadata := FinalMetadata(left.metadata, right.metadata, cumulative, limits, kept);
    r := View(kept.nodes, kept.edges, Some(MergedStatus(left, right, cumulative, metadata.truncated)), metadata,
              if right.request.Some? then right.request else left.request);
  }

  method TrimRecords(nodes: seq<Element>, edges: seq<Element>, limits: Limits) returns (kept: Trimmed)
    ensures kept == Trim(nodes, edges, limits)
  {
    var nodeOverflow := !limits.nodes.Admits(|nodes|);
    var keptNodes := Slice(nodes, limits.nodes);
    var eligible := Eligible(edges, keptNodes);
    var edgeOverflow := !limits.edges.Admits(|edges|) || |eligible| < |edges|;
    var limited, siteOverflow := SpendSites(Slice(eligible, limits.edges), limits.sites);
    kept := Trimmed(if nodeOverflow then MarkNodes(keptNodes) else keptNodes,
                    if edgeOverflow then MarkEdges(limited) else limited,
                    nodeOverflow || edgeOverflow || siteOverflow);
  }

  method FillMap(left: seq<Element>, right: seq<Element>) returns (r: seq<Element>)
    ensures r == AbsorbAll(MapOf(left), right)
  {
    r := [];
    for i := 0 to |left|
      invariant r == MapOf(left[..i])
    {
      r := Set(r, left[i]);
      assert left[..i + 1][..i] == left[..i];
    }
    assert left[..|left|] == left;
    for i := 0 to |right|
      invariant r == AbsorbAll(MapOf(left), right[..i])
    {
      r := Set(r, Joined(r, right[i]));
      assert right[..i + 1][..i] == right[..i];
    }
    assert right[..|right|] == right;
  }

  /** The sites are handed out edge by edge until the budget is spent. */
  method SpendSites(edges: seq<Element>, limit: Limit) returns (limited: seq<Element>, overflow: bool)
    ensures limited == LimitSites(edges, limit)
    ensures overflow <==> TotalSites(limited) < TotalSites(edges)
  {
    limited, overflow := [], false;
    var used := 0;
    for i := 0 to |edges|
      invariant limited == LimitSites(edges[..i], limit)
      invariant used == TotalSites(limited) <= TotalSites(edges[..i])
      invariant overflow <==> used < TotalSites(edges[..i])
    {
      var edge := CutSites(edges[i], limit.Minus(used));
      assert edges[..i + 1][..i] == edges[..i];
      assert (limited + [edge])[..i] == limited;
      used := used + |edge.Sites()|;
      overflow := overflow || |edge.Sites()| < |edges[i].Sites()|;
      limited := limited + [edge];
    }
    assert edges[..|edges|] == edges;
  }
}
