/** The explorer's history: navigation, merges, jumps and saved views over one canvas. */
module GraphHistory {
  import opened Options
  import opened GraphRecords
  import opened GraphMerge

  datatype Key = Root | Depth | Direction | ContinuationToken | Filter(name: string)

  /** The parameters of a graph request. */
  type Params = map<Key, string>

  /** One history entry: a request, and whether its result replaces the canvas or is merged into it. */
  datatype Entry = Entry(params: Params, append: bool, cumulative: bool)

  /** A saved view; older ones have no history, only the request. */
  datatype Saved = Saved(history: seq<Entry>, params: Params)

  datatype State = State(history: seq<Entry>, index: int, params: Params, view: View, saved: map<string, Saved>)

  datatype Action =
    | Expand(root: string, direction: string)
    | OpenResult(root: string)
    | ApplyFilters(values: map<string, string>)
    | LoadMorePages
    | JumpTo(target: int)
    | Back
    | Forward
    | SaveView(name: string)
    | LoadView(name: string)

  const FILTERS: set<string> := {"node_kind", "file", "component", "repository", "namespace", "status", "applicability"}

  function WithoutContinuation(params: Params): Params {
    params - {ContinuationToken}
  }

  function AddView(view: View, next: View, append: bool, cumulative: bool): View {
    if append then Merged(view, next, cumulative) else next
  }

  /** The canvas after the entries, one after the other. */
  function Replay(fetch: Params -> View, view: View, entries: seq<Entry>): View {
    if entries == [] then view
    else
      var last := entries[|entries| - 1];
      AddView(Replay(fetch, view, entries[..|entries| - 1]), fetch(last.params), last.append, last.cumulative)
  }

  function Token(view: View): Option<string> {
    if view.metadata.continuation.Usable() then Some(view.metadata.continuation.token.text) else None
  }

  // ----- requests -----

  function ExpandParams(params: Params, root: string, direction: string): Params {
    WithoutContinuation(params)[Root := root][Depth := "1"][Direction := direction]
  }

  function NewRootParams(params: Params, root: string): Params {
    WithoutContinuation(params)[Root := root] - {Depth, Direction}
  }

  /** Each filter is set to its value, or dropped. */
  function FilteredParams(params: Params, values: map<string, string>): Params {
    map key | key in params.Keys + (set name | name in FILTERS :: Filter(name))
              && key != ContinuationToken && (key.Filter? && key.name in FILTERS ==> key.name in values) ::
      if key.Filter? && key.name in FILTERS then values[key.name] else params[key]
  }

  // ----- one action -----

  function Start(fetch: Params -> View, saved: map<string, Saved>): State {
    State([Entry(map[], false, false)], 0, map[], fetch(map[]), saved)
  }

  /** A new entry drops the entries ahead. */
  function Pushed(s: State, entry: Entry): seq<Entry> {
    if 0 <= s.index < |s.history| then s.history[..s.index + 1] + [entry] else [entry]
  }

  function Navigated(fetch: Params -> View, s: State, params: Params): State {
    var history := Pushed(s, Entry(params, false, false));
    s.(history := history, index := |history| - 1, view := fetch(params), params := WithoutContinuation(params))
  }

  function MergePushed(fetch: Params -> View, s: State, params: Params, cumulative: bool): State {
    var history := Pushed(s, Entry(params, true, cumulative));
    s.(history := history, index := |history| - 1, view := AddView(s.view, fetch(params), true, cumulative),
       params := WithoutContinuation(params))
  }

  function Jumped(fetch: Params -> View, s: State, target: int): State {
    if target < 0 || target >= |s.history| then s
    else
      s.(index := target, view := Replay(fetch, s.view, s.history[..target + 1]),
         params := WithoutContinuation(s.history[target].params))
  }

  function Loaded(fetch: Params -> View, s: State, entry: Saved): State {
    if entry.history == [] then Navigated(fetch, s, entry.params)
    else
      s.(history := entry.history, index := |entry.history| - 1, view := Replay(fetch, s.view, entry.history),
         params := WithoutContinuation(entry.history[|entry.history| - 1].params))
  }

  function Shown(s: State): Saved {
    Saved(if 0 <= s.index < |s.history| then s.history[..s.index + 1] else [], s.params)
  }

  function Step(fetch: Params -> View, s: State, action: Action): State {
    match action
    case Expand(root, direction) => MergePushed(fetch, s, ExpandParams(s.params, root, direction), false)
    case OpenResult(root) => Navigated(fetch, s, NewRootParams(s.params, root))
    case ApplyFilters(values) => Navigated(fetch, s, FilteredParams(s.params, values))
    case LoadMorePages =>
      if Token(s.view).None? then s
      else MergePushed(fetch, s, s.params[ContinuationToken := Token(s.view).value], true)
    case JumpTo(target) => Jumped(fetch, s, target)
    case Back => if s.index <= 0 then s else Jumped(fetch, s, s.index - 1)
    case Forward => if s.index >= |s.history| - 1 then s else Jumped(fetch, s, s.index + 1)
    case SaveView(name) => s.(saved := s.saved[name := Shown(s)])
    case LoadView(name) => if name in s.saved then Loaded(fetch, s, s.saved[name]) else s
  }

  function Run(fetch: Params -> View, s: State, actions: seq<Action>): State {
    if actions == [] then s else Step(fetch, Run(fetch, s, actions[..|actions| - 1]), actions[|actions| - 1])
  }

  // ----- the explorer -----

  class Explorer {
    const fetch: Params -> View
    var history: seq<Entry>
    var historyIndex: int
    var currentParams: Params
    var view: View
    var saved: map<string, Saved>

    ghost function Current(): State
      reads this
    {
      State(history, historyIndex, currentParams, view, saved)
    }

    constructor (fetch: Params -> View, saved: map<string, Saved>)
      ensures this.fetch == fetch && Current() == Start(fetch, saved)
    {
      this.fetch := fetch;
      this.saved := saved;
      history := [Entry(map[], false, false)];
      historyIndex := 0;
      currentParams := map[];
      view := fetch(map[]);
    }

    method AddNext(next: View, append: bool, cumulative: bool)
      modifies this`view
      ensures view == AddView(old(view), next, append, cumulative)
    {
      if append {
        view := MergeSlices(view, next, cumulative);
      } else {
        view := next;
      }
    }

    method Push(entry: Entry)
      modifies this`history, this`historyIndex
      ensures history == Pushed(old(Current()), entry) && historyIndex == |history| - 1
    {
      history := if 0 <= historyIndex < |history| then history[..historyIndex + 1] else [];
      history := history + [entry];
      historyIndex := |history| - 1;
    }

    method Navigate(params: Params)
      modifies this
      ensures Current() == Navigated(fetch, old(Current()), params)
    {
      Push(Entry(params, false, false));
      AddNext(fetch(params), false, false);
      currentParams := WithoutContinuation(params);
    }

    method PushMerge(params: Params, cumulative: bool)
      modifies this
      ensures Current() == MergePushed(fetch, old(Current()), params, cumulative)
    {
      hide Merged, WithoutContinuation;
      AddNext(fetch(params), true, cumulative);
      currentParams := WithoutContinuation(params);
      Push(Entry(params, true, cumulative));
    }

    method ReplayHistory(entries: seq<Entry>)
      modifies this`view
      ensures view == Replay(fetch, old(view), entries)
    {
      hide Merged;
      for i := 0 to |entries|
        invariant view == Replay(fetch, old(view), entries[..i])
      {
        AddNext(fetch(entries[i].params), entries[i].append, entries[i].cumulative);
        assert entries[..i + 1][..i] == entries[..i];
      }
      assert entries[..|entries|] == entries;
    }

    method JumpToEntry(index: int)
      modifies this
      ensures Current() == Jumped(fetch, old(Current()), index)
    {
      if index < 0 || index >= |history| {
        return;
      }
      historyIndex := index;
      ReplayHistory(history[..index + 1]);
      currentParams := WithoutContinuation(history[index].params);
    }

    method LoadSaved(entry: Saved)
      modifies this
      ensures Current() == Loaded(fetch, old(Current()), entry)
    {
      if entry.history != [] {
        history := entry.history;
        historyIndex := |history| - 1;
        ReplayHistory(history);
        currentParams := WithoutContinuation(history[historyIndex].params);
      } else {
        Navigate(entry.params);
      }
    }

    method Perform(action: Action)
      modifies this
      ensures Current() == Step(fetch, old(Current()), action)
    {
      match action
      case Expand(root, direction) => PushMerge(ExpandParams(currentParams, root, direction), false);
      case OpenResult(root) => Navigate(NewRootParams(currentParams, root));
      case ApplyFilters(values) => Navigate(FilteredParams(currentParams, values));
      case LoadMorePages =>
        var token := Token(view);
        if token.Some? {
          PushMerge(currentParams[ContinuationToken := token.value], true);
        }
      case JumpTo(target) => JumpToEntry(target);
      case Back =>
        if historyIndex > 0 {
          JumpToEntry(historyIndex - 1);
        }
      case Forward =>
        if historyIndex < |history| - 1 {
          JumpToEntry(historyIndex + 1);
        }
      case SaveView(name) =>
        saved := saved[name := Saved(if 0 <= historyIndex < |history| then history[..historyIndex + 1] else [], currentParams)];
      case LoadView(name) =>
        if name in saved {
          LoadSaved(saved[name]);
        }
    }
  }

  // ----- what every run keeps -----

  /** A replay of these entries starts by replacing the canvas. */
  ghost predicate Standalone(entries: seq<Entry>) {
    entries != [] ==> !entries[0].append
  }

  /** The canvas is what its own history says, and the current request carries no continuation. */
  ghost predicate Consistent(fetch: Params -> View, s: State) {
    && 0 <= s.index < |s.history| && Standalone(s.history)
    && s.view == Replay(fetch, s.view, s.history[..s.index + 1])
    && s.params == WithoutContinuation(s.history[s.index].params)
    && forall name :: name in s.saved ==> Standalone(s.saved[name].history)
  }

  /** A replay that starts by replacing the canvas does not depend on the canvas. */
  lemma {:induction false} ReplayFromAnywhere(fetch: Params -> View, v: View, w: View, entries: seq<Entry>)
    requires entries != [] && Standalone(entries)
    ensures Replay(fetch, v, entries) == Replay(fetch, w, entries)
  {
    hide Merged;
    if |entries| > 1 {
      ReplayFromAnywhere(fetch, v, w, entries[..|entries| - 1]);
    }
  }

  lemma ReplayOneMore(fetch: Params -> View, v: View, entries: seq<Entry>, entry: Entry)
    ensures Replay(fetch, v, entries + [entry]) ==
            AddView(Replay(fetch, v, entries), fetch(entry.params), entry.append, entry.cumulative)
  {
    hide Merged;
    assert (entries + [entry])[..|entries|] == entries;
  }

  lemma PushKeeps(fetch: Params -> View, s: State, params: Params, append: bool, cumulative: bool)
    requires Consistent(fetch, s)
    ensures var history := Pushed(s, Entry(params, append, cumulative));
            Consistent(fetch, s.(history := history, index := |history| - 1, params := WithoutContinuation(params),
                                 view := AddView(s.view, fetch(params), append, cumulative)))
  {
    hide Merged, AddView, WithoutContinuation;
    var entry := Entry(params, append, cumulative);
    var before, history := s.history[..s.index + 1], Pushed(s, entry);
    var view := AddView(s.view, fetch(params), append, cumulative);
    ReplayOneMore(fetch, s.view, before, entry);
    ReplayFromAnywhere(fetch, s.view, view, history);
    assert history[..|history| - 1 + 1] == history;
  }

  lemma JumpKeeps(fetch: Params -> View, s: State, target: int)
    requires Consistent(fetch, s)
    ensures Consistent(fetch, Jumped(fetch, s, target))
  {
    hide Merged, WithoutContinuation;
    if 0 <= target < |s.history| {
      ReplayFromAnywhere(fetch, s.view, Jumped(fetch, s, target).view, s.history[..target + 1]);
    }
  }

  lemma LoadKeeps(fetch: Params -> View, s: State, entry: Saved)
    requires Consistent(fetch, s) && Standalone(entry.history)
    ensures Consistent(fetch, Loaded(fetch, s, entry))
  {
    hide Merged, WithoutContinuation;
    if entry.history == [] {
      PushKeeps(fetch, s, entry.params, false, false);
    } else {
      ReplayFromAnywhere(fetch, s.view, Loaded(fetch, s, entry).view, entry.history);
      assert entry.history[..|entry.history|] == entry.history;
    }
  }

  lemma StepKeeps(fetch: Params -> View, s: State, action: Action)
    requires Consistent(fetch, s)
    ensures Consistent(fetch, Step(fetch, s, action))
  {
    hide Merged, WithoutContinuation, Replay;
    match action
    case Expand(root, direction) => PushKeeps(fetch, s, ExpandParams(s.params, root, direction), true, false);
    case OpenResult(root) => PushKeeps(fetch, s, NewRootParams(s.params, root), false, false);
    case ApplyFilters(values) => PushKeeps(fetch, s, FilteredParams(s.params, values), false, false);
    case LoadMorePages =>
      if Token(s.view).Some? {
        PushKeeps(fetch, s, s.params[ContinuationToken := Token(s.view).value], true, true);
      }
    case JumpTo(target) => JumpKeeps(fetch, s, target);
    case Back => JumpKeeps(fetch, s, s.index - 1);
    case Forward => JumpKeeps(fetch, s, s.index + 1);
    case SaveView(name) =>
    case LoadView(name) =>
      if name in s.saved {
        LoadKeeps(fetch, s, s.saved[name]);
      }
  }

  lemma StartIsConsistent(fetch: Params -> View, saved: map<string, Saved>)
    requires forall name :: name in saved ==> Standalone(saved[name].history)
    ensures Consistent(fetch, Start(fetch, saved))
  {
    var s := Start(fetch, saved);
    assert s.history[..1] == s.history && s.history[..1][..0] == [];
    assert WithoutContinuation(map[]) == map[];
  }

  /** In every reachable state the canvas is the replay of its history, and the current request has no continuation. */
  lemma {:induction false} EveryRunIsConsistent(fetch: Params -> View, saved: map<string, Saved>, actions: seq<Action>)
    requires forall name :: name in saved ==> Standalone(saved[name].history)
    ensures Consistent(fetch, Run(fetch, Start(fetch, saved), actions))
    ensures ContinuationToken !in Run(fetch, Start(fetch, saved), actions).params
  {
    hide Step, Replay;
    if actions == [] {
      StartIsConsistent(fetch, saved);
    } else {
      EveryRunIsConsistent(fetch, saved, actions[..|actions| - 1]);
      StepKeeps(fetch, Run(fetch, Start(fetch, saved), actions[..|actions| - 1]), actions[|actions| - 1]);
    }
  }

  /** Back and forward again is as if nothing had happened. */
  lemma BackAndForward(fetch: Params -> View, s: State)
    requires Consistent(fetch, s) && s.index > 0
    ensures Step(fetch, Step(fetch, s, Back), Forward) == s
  {
    hide Merged, WithoutContinuation;
    var back := Step(fetch, s, Back);
    ReplayFromAnywhere(fetch, back.view, s.view, s.history[..s.index + 1]);
  }

  /** A view saved in any state and loaded in any other shows the same canvas under the same request. */
  lemma SaveAndLoad(fetch: Params -> View, s: State, other: State)
    requires Consistent(fetch, s)
    ensures var loaded := Loaded(fetch, other, Shown(s));
            loaded.view == s.view && loaded.params == s.params && loaded.history == s.history[..s.index + 1]
  {
    hide Merged, WithoutContinuation;
    ReplayFromAnywhere(fetch, other.view, s.view, s.history[..s.index + 1]);
  }

  // ----- what each action asks for and shows -----

  predicate SameRequestBut(a: Params, b: Params, keys: set<Key>) {
    a - keys == b - keys
  }

  /** An expand asks for one step from its node in its direction, and is merged within the smaller budgets. */
  lemma ExpandAsks(fetch: Params -> View, s: State, root: string, direction: string)
    ensures var after := Step(fetch, s, Expand(root, direction));
            && Root in after.params && after.params[Root] == root
            && Direction in after.params && after.params[Direction] == direction
            && Depth in after.params && after.params[Depth] == "1" && ContinuationToken !in after.params
            && SameRequestBut(after.params, s.params, {Root, Direction, Depth, ContinuationToken})
            && after.view == Merged(s.view, fetch(after.params), false)
  {
    hide Merged;
    var params := ExpandParams(s.params, root, direction);
    assert WithoutContinuation(params) == params;
  }

  /** A search result asks for its own surroundings and replaces the canvas. */
  lemma ResultAsks(fetch: Params -> View, s: State, root: string)
    ensures var after := Step(fetch, s, OpenResult(root));
            && Root in after.params && after.params[Root] == root
            && Depth !in after.params && Direction !in after.params && ContinuationToken !in after.params
            && SameRequestBut(after.params, s.params, {Root, Direction, Depth, ContinuationToken})
            && after.view == fetch(after.params)
  {
    var params := NewRootParams(s.params, root);
    assert WithoutContinuation(params) == params;
  }

  /** Applied filters replace the canvas by the answer to the new request. */
  lemma FiltersAsk(fetch: Params -> View, s: State, values: map<string, string>)
    ensures var after := Step(fetch, s, ApplyFilters(values));
            ContinuationToken !in after.params && after.view == fetch(after.params)
  {
    var params := FilteredParams(s.params, values);
    assert WithoutContinuation(params) == params;
  }

  /** A further page asks for the same with the offered token, and is merged within the sum of the budgets. */
  lemma PageAsks(fetch: Params -> View, s: State)
    requires Token(s.view).Some? && ContinuationToken !in s.params
    ensures var after := Step(fetch, s, LoadMorePages);
            && after.params == s.params
            && after.view == Merged(s.view, fetch(s.params[ContinuationToken := Token(s.view).value]), true)
  {
    hide Merged;
    assert WithoutContinuation(s.params[ContinuationToken := Token(s.view).value]) == s.params;
  }

  /** Each of these adds one entry behind the shown one, drops what was ahead, and keeps the saved views. */
  lemma NewEntry(fetch: Params -> View, s: State, action: Action)
    requires 0 <= s.index < |s.history|
    requires action.Expand? || action.OpenResult? || action.ApplyFilters? || (action.LoadMorePages? && Token(s.view).Some?)
    ensures var after := Step(fetch, s, action);
            && after.index == s.index + 1 && |after.history| == s.index + 2
            && after.history[..s.index + 1] == s.history[..s.index + 1]
            && after.history[s.index + 1].append == (action.Expand? || action.LoadMorePages?)
            && after.history[s.index + 1].cumulative == action.LoadMorePages?
            && after.saved == s.saved
  {
    hide Merged;
  }

  /** A jump shows the entry it names, under its request, and leaves the history alone; out of range it does nothing. */
  lemma JumpShows(fetch: Params -> View, s: State, target: int)
    ensures var after := Step(fetch, s, JumpTo(target));
            && after.history == s.history && after.saved == s.saved
            && (if 0 <= target < |s.history| then
                  && after.index == target && after.view == Replay(fetch, s.view, s.history[..target + 1])
                  && SameRequestBut(after.params, s.history[target].params, {ContinuationToken})
                  && ContinuationToken !in after.params
                else after == s)
  {
    hide Merged;
  }

  /** Back and forward move by one entry, and not beyond the ends. */
  lemma BackAndForwardMove(fetch: Params -> View, s: State)
    requires 0 <= s.index < |s.history|
    ensures Step(fetch, s, Back).index == if s.index == 0 then 0 else s.index - 1
    ensures Step(fetch, s, Forward).index == if s.index == |s.history| - 1 then s.index else s.index + 1
    ensures Step(fetch, s, Back).history == Step(fetch, s, Forward).history == s.history
  {
    hide Merged, Replay;
  }

  /** A saved view holds the shown entries and the request, under its name only; loading an unknown name does nothing. */
  lemma SavedIsShown(fetch: Params -> View, s: State, name: string, other: string)
    requires 0 <= s.index < |s.history|
    ensures var after := Step(fetch, s, SaveView(name));
            && name in after.saved && after.saved[name] == Saved(s.history[..s.index + 1], s.params)
            && (other != name ==> (other in after.saved <==> other in s.saved) &&
                                  (other in s.saved ==> after.saved[other] == s.saved[other]))
            && after.(saved := s.saved) == s
    ensures other !in s.saved ==> Step(fetch, s, LoadView(other)) == s
  {
  }

  // ----- filters and traversal parameters -----

  ghost predicate SameFilters(a: Params, b: Params) {
    forall name :: (Filter(name) in a <==> Filter(name) in b) && (Filter(name) in a ==> a[Filter(name)] == b[Filter(name)])
  }

  predicate KeepsRequest(action: Action) {
    action.Expand? || action.OpenResult? || action.LoadMorePages?
  }

  /** However often the user expands, follows search results or loads more, the applied filters stay. */
  lemma {:induction false} FiltersStay(fetch: Params -> View, s: State, actions: seq<Action>)
    requires forall i :: 0 <= i < |actions| ==> KeepsRequest(actions[i])
    ensures SameFilters(Run(fetch, s, actions).params, s.params)
  {
    hide Merged;
    if actions != [] {
      FiltersStay(fetch, s, actions[..|actions| - 1]);
      assert KeepsRequest(actions[|actions| - 1]);
    }
  }

  ghost predicate FreshRoot(params: Params, root: string) {
    Root in params && params[Root] == root && Depth !in params && Direction !in params
  }

  lemma LoadMoreKeepsRoot(fetch: Params -> View, s: State, root: string)
    requires FreshRoot(s.params, root)
    ensures FreshRoot(Step(fetch, s, LoadMorePages).params, root)
  {
    hide Merged;
  }

  /** A search result is a new root: no depth or direction of an earlier expand goes along, nor with the pages after it. */
  lemma {:induction false} NewRootForgetsTraversal(fetch: Params -> View, s: State, root: string, actions: seq<Action>)
    requires forall i :: 0 <= i < |actions| ==> actions[i].LoadMorePages?
    ensures FreshRoot(Run(fetch, Step(fetch, s, OpenResult(root)), actions).params, root)
  {
    if actions == [] {
      hide Merged;
    } else {
      hide Step, FreshRoot;
      var before := Run(fetch, Step(fetch, s, OpenResult(root)), actions[..|actions| - 1]);
      NewRootForgetsTraversal(fetch, s, root, actions[..|actions| - 1]);
      LoadMoreKeepsRoot(fetch, before, root);
      assert actions[|actions| - 1] == LoadMorePages;
    }
  }

  /** Applying filters sets exactly the given ones and leaves the rest of the request alone. */
  lemma AppliedFilters(fetch: Params -> View, s: State, values: map<string, string>, key: Key)
    requires Consistent(fetch, s)
    ensures var after := Step(fetch, s, ApplyFilters(values)).params;
            if key.Filter? && key.name in {"node_kind", "file", "component", "repository", "namespace", "status", "applicability"} then
              (key in after <==> key.name in values) && (key in after ==> after[key] == values[key.name])
            else
              (key in after <==> key in s.params) && (key in after ==> after[key] == s.params[key])
  {
    hide Merged, Replay;
    assert ContinuationToken !in s.params;
  }

  // ----- continuation tokens -----

  /** The server binds each token to the request that minted it, whatever page of it was asked for. */
  ghost predicate Mints(fetch: Params -> View, bound: string -> Params) {
    forall params :: var token := fetch(params).metadata.continuation.token;
                     token.Given? ==> bound(token.text) == WithoutContinuation(params)
  }

  /** Every answer of the server has the field, null when there is no further page. */
  ghost predicate CarriesToken(fetch: Params -> View) {
    forall params :: !fetch(params).metadata.continuation.token.Absent?
  }

  /** "Load more" would send the token with the request it is bound to. */
  ghost predicate TokenFits(view: View, params: Params, bound: string -> Params) {
    Token(view).Some? ==> bound(Token(view).value) == params
  }

  /** The token after a merge: a further page decides about it, and so does an expand that has the field. */
  lemma TokenOfMerged(left: View, right: View, cumulative: bool)
    ensures cumulative ==> Token(Merged(left, right, cumulative)) == Token(right)
    ensures !cumulative && right.metadata.continuation.token.Null? ==> Token(Merged(left, right, cumulative)) == None
    ensures !cumulative && right.metadata.continuation.token.Given? ==>
      var r, text := Merged(left, right, cumulative), right.metadata.continuation.token.text;
      Token(r) == if text != "" && (left.metadata.continuation.available || right.metadata.continuation.available ||
                                    r.metadata.truncated) then Some(text) else None
  {
    hide Trim, AllNodes, AllEdges, CombinedLimits;
  }

  lemma {:induction false} ReplayedTokenFits(fetch: Params -> View, bound: string -> Params, view: View, entries: seq<Entry>)
    requires Mints(fetch, bound) && CarriesToken(fetch) && entries != [] && Standalone(entries)
    ensures TokenFits(Replay(fetch, view, entries), WithoutContinuation(entries[|entries| - 1].params), bound)
  {
    hide Merged, WithoutContinuation;
    var last := entries[|entries| - 1];
    var before, next := Replay(fetch, view, entries[..|entries| - 1]), fetch(last.params);
    if last.append {
      TokenOfMerged(before, next, last.cumulative);
    }
  }

  /** In every reachable state the offered token belongs to the current request: "Load more" continues what is shown. */
  lemma LoadMoreContinuesTheRequest(fetch: Params -> View, bound: string -> Params, saved: map<string, Saved>, actions: seq<Action>)
    requires Mints(fetch, bound) && CarriesToken(fetch)
    requires forall name :: name in saved ==> Standalone(saved[name].history)
    ensures var s := Run(fetch, Start(fetch, saved), actions); TokenFits(s.view, s.params, bound)
  {
    hide Merged, Run, Replay, Start, TokenFits, Mints, CarriesToken;
    EveryRunIsConsistent(fetch, saved, actions);
    var s := Run(fetch, Start(fetch, saved), actions);
    ReplayedTokenFits(fetch, bound, s.view, s.history[..s.index + 1]);
  }

  /** Where an answer left the field out, the earlier token would stay on the canvas. */
  lemma MissingFieldKeepsToken(left: View, right: View)
    requires right.metadata.continuation.token.Absent? && Token(left).Some?
    ensures Token(Merged(left, right, false)) == Token(left)
  {
    hide Trim, AllNodes, AllEdges, CombinedLimits;
  }
}
