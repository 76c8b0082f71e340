/** "Load more" as the explorer does it: the canvas after any number of pages is the one the paging laws are about. */
module LoadMoreRuns {
  import opened Options
  import opened GraphRecords
  import opened GraphMerge
  import H = GraphHistory
  import opened LoadMore

  function Again(n: nat): seq<H.Action> {
    seq(n, _ => H.LoadMorePages)
  }

  /** The state after loading n pages. */
  function Loaded(fetch: H.Params -> View, s: H.State, n: nat): H.State {
    H.Run(fetch, s, Again(n))
  }

  /** The first n times, another page is offered. */
  predicate Offers(fetch: H.Params -> View, s: H.State, n: nat) {
    forall k: nat :: k < n ==> H.Token(Loaded(fetch, s, k).view).Some?
  }

  /** The answer to the request of the state, with the token of a canvas. */
  function NextPage(fetch: H.Params -> View, s: H.State, canvas: View): View {
    if H.Token(canvas).Some? then fetch(s.params[H.ContinuationToken := H.Token(canvas).value]) else canvas
  }

  /** The canvas at first, then n pages, each asked for with the token of the pages before it. */
  function Pages(fetch: H.Params -> View, s: H.State, n: nat): (pages: seq<View>)
    ensures |pages| == n + 1
  {
    if n == 0 then [s.view]
    else
      var before := Pages(fetch, s, n - 1);
      before + [NextPage(fetch, s, LoadAll(before))]
  }

  lemma OneMoreAction(fetch: H.Params -> View, s: H.State, n: nat)
    ensures Loaded(fetch, s, n + 1) == H.Step(fetch, Loaded(fetch, s, n), H.LoadMorePages)
  {
    hide H.Step;
    assert Again(n + 1)[..n] == Again(n);
  }

  /** Loading n pages shows the first canvas and the n pages merged one after the other, under the same request. */
  lemma {:induction false} ExplorerLoadsAll(fetch: H.Params -> View, s: H.State, n: nat)
    requires H.ContinuationToken !in s.params && Offers(fetch, s, n)
    ensures Loaded(fetch, s, n).view == LoadAll(Pages(fetch, s, n))
    ensures Loaded(fetch, s, n).params == s.params
  {
    hide Merged, H.Step;
    if n == 0 {
      assert Again(0) == [];
    } else {
      ExplorerLoadsAll(fetch, s, n - 1);
      OneMoreAction(fetch, s, n - 1);
      H.PageAsks(fetch, Loaded(fetch, s, n - 1));
      var before := Pages(fetch, s, n - 1);
      assert Pages(fetch, s, n)[..n] == before;
    }
  }

  /**
   So if every page keeps its budgets and its edges end in delivered nodes, the explorer shows the nodes and the edges of all
   pages, within the sum of their budgets, and loses no site unless the first canvas repeats an edge.
  */
  lemma ExplorerShowsAllPages(fetch: H.Params -> View, s: H.State, n: nat)
    requires H.ContinuationToken !in s.params && Offers(fetch, s, n) && Loadable(Pages(fetch, s, n))
    ensures var view, pages := Loaded(fetch, s, n).view, Pages(fetch, s, n);
            && (forall id :: Has(view.nodes, id) <==> NodeIn(pages, id))
            && (forall id :: Has(view.edges, id) <==> EdgeIn(pages, id))
            && LimitsOf(view) == TotalLimits(pages)
            && (n > 0 ==> (HoldsSites(view, pages) <==> FirstPageKeepsSites(pages)))
  {
    hide LoadAll, Loadable, Pages, NodeIn, EdgeIn, HoldsSites, FirstPageKeepsSites, TotalLimits, LimitsOf;
    ExplorerLoadsAll(fetch, s, n);
    LoadMoreLosesNothing(Pages(fetch, s, n));
    if n > 0 {
      LoadMoreLosesNoSiteIff(Pages(fetch, s, n));
    }
  }

  /** And if paging is all that is missing, it is complete exactly when the last page offers no other. */
  lemma ExplorerCompletes(fetch: H.Params -> View, s: H.State, n: nat)
    requires H.ContinuationToken !in s.params && Offers(fetch, s, n) && n > 0 && Loadable(Pages(fetch, s, n))
    requires forall k :: 0 <= k <= n ==> OnlyPaged(Pages(fetch, s, n)[k]) && SaysSo(Pages(fetch, s, n)[k])
    ensures var view, last := Loaded(fetch, s, n).view, Pages(fetch, s, n)[n];
            view.status == Some(Complete) <==> !last.metadata.continuation.Usable()
  {
    hide LoadAll, Loadable, Pages, OnlyPaged, SaysSo;
    ExplorerLoadsAll(fetch, s, n);
    LastPageCompletes(Pages(fetch, s, n));
  }

  /** In every reachable state the request carries no token, so that all this holds of it. */
  lemma ReachableLoadsAll(fetch: H.Params -> View, saved: map<string, H.Saved>, actions: seq<H.Action>, n: nat)
    requires forall name :: name in saved ==> H.Standalone(saved[name].history)
    requires Offers(fetch, H.Run(fetch, H.Start(fetch, saved), actions), n)
    ensures var s := H.Run(fetch, H.Start(fetch, saved), actions);
            Loaded(fetch, s, n).view == LoadAll(Pages(fetch, s, n)) && Loaded(fetch, s, n).params == s.params
  {
    hide H.Run, Offers, LoadAll, Pages;
    H.EveryRunIsConsistent(fetch, saved, actions);
    ExplorerLoadsAll(fetch, H.Run(fetch, H.Start(fetch, saved), actions), n);
  }
}
