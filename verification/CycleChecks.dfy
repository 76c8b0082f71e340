/** The three depth-first cycle checks: declared build graph, resolved call graph, platform layers. */
module CycleChecks {
  import opened Options

  /** Successors in the order they are visited; the keys are the graph's own nodes. */
  type Graph = map<string, seq<string>>

  predicate Edge(graph: Graph, a: string, b: string) {
    a in graph && b in graph[a]
  }

  predicate IsWalk(graph: Graph, path: seq<string>) {
    forall i :: 0 <= i < |path| - 1 ==> Edge(graph, path[i], path[i + 1])
  }

  predicate ClosedWalk(graph: Graph, path: seq<string>) {
    |path| >= 2 && path[0] == path[|path| - 1] && IsWalk(graph, path)
  }

  ghost predicate Acyclic(graph: Graph) {
    forall path :: !ClosedWalk(graph, path)
  }

  predicate Distinct(path: seq<string>) {
    forall i, j :: 0 <= i < j < |path| ==> path[i] != path[j]
  }

  /** A closed walk that passes through no node twice. */
  predicate SimpleCycle(graph: Graph, path: seq<string>) {
    ClosedWalk(graph, path) && Distinct(path[1..])
  }

  /** Every node comes after all its successors, but for the edges that are left out. */
  ghost predicate FinishedBut(graph: Graph, order: seq<string>, cut: set<(string, string)>) {
    forall i, d :: 0 <= i < |order| && Edge(graph, order[i], d) && d in graph && (order[i], d) !in cut ==> d in order[..i]
  }

  ghost predicate Finished(graph: Graph, order: seq<string>) {
    FinishedBut(graph, order, {})
  }

  /** The walk takes one of these edges. */
  ghost predicate Uses(path: seq<string>, edges: set<(string, string)>) {
    exists i :: 0 <= i < |path| - 1 && (path[i], path[i + 1]) in edges
  }

  function NodesOf(path: seq<string>): set<string> {
    set n | n in path
  }

  function IndexOf(path: seq<string>, node: string): (i: nat)
    requires node in path
    ensures i < |path| && path[i] == node && node !in path[..i]
  {
    if path[0] == node then 0 else 1 + IndexOf(path[1..], node)
  }

  // ----- a finishing order rules out closed walks -----

  lemma {:induction false} WalkStaysBefore(graph: Graph, order: seq<string>, cut: set<(string, string)>, path: seq<string>, k: nat)
    requires FinishedBut(graph, order, cut) && (forall n :: n in graph ==> n in order) && !Uses(path, cut)
    requires IsWalk(graph, path) && |path| >= 1
    requires forall i :: 0 <= i < |path| ==> path[i] in graph
    requires 0 < k < |path|
    ensures IndexOf(order, path[k]) < IndexOf(order, path[0])
  {
    var i := IndexOf(order, path[k - 1]);
    assert Edge(graph, path[k - 1], path[k - 1 + 1]);
    assert (path[k - 1], path[k - 1 + 1]) !in cut;
    assert path[k] in order[..i];
    var j :| 0 <= j < i && order[j] == path[k];
    FirstIndex(order, path[k], j);
    if k > 1 {
      WalkStaysBefore(graph, order, cut, path, k - 1);
    }
  }

  lemma {:induction false} FirstIndex(path: seq<string>, node: string, j: nat)
    requires j < |path| && path[j] == node
    ensures IndexOf(path, node) <= j
  {
    if path[0] != node {
      FirstIndex(path[1..], node, j - 1);
    }
  }

  /** Every closed walk takes one of the edges that are left out. */
  lemma ClosedWalksUse(graph: Graph, order: seq<string>, cut: set<(string, string)>, path: seq<string>)
    requires FinishedBut(graph, order, cut) && (forall n :: n in graph ==> n in order)
    requires ClosedWalk(graph, path)
    ensures Uses(path, cut)
  {
    if !Uses(path, cut) {
      var last := |path| - 1;
      forall i | 0 <= i < |path| ensures path[i] in graph {
        assert i < last ==> Edge(graph, path[i], path[i + 1]);
        assert Edge(graph, path[0], path[1]);
      }
      WalkStaysBefore(graph, order, cut, path, last);
      assert false;
    }
  }

  lemma FinishedIsAcyclic(graph: Graph, order: seq<string>)
    requires Finished(graph, order) && (forall n :: n in graph ==> n in order)
    ensures Acyclic(graph)
  {
    forall path ensures !ClosedWalk(graph, path) {
      if ClosedWalk(graph, path) {
        ClosedWalksUse(graph, order, {}, path);
        assert false;
      }
    }
  }

  lemma TailIsWalk(graph: Graph, path: seq<string>, i: nat)
    requires IsWalk(graph, path) && i <= |path|
    ensures IsWalk(graph, path[i..])
  {
    var tail := path[i..];
    forall k | 0 <= k < |tail| - 1 ensures Edge(graph, tail[k], tail[k + 1]) {
      assert Edge(graph, path[i + k], path[i + k + 1]);
    }
  }

  /** Closing a simple path at one of its own nodes. */
  lemma BackEdgeCycle(graph: Graph, path: seq<string>, node: string)
    requires IsWalk(graph, path) && Distinct(path) && node in path
    requires Edge(graph, path[|path| - 1], node)
    ensures SimpleCycle(graph, path[IndexOf(path, node)..] + [node])
  {
    var i := IndexOf(path, node);
    var tail := path[i..];
    TailIsWalk(graph, path, i);
    assert (tail + [node])[1..] == tail[1..] + [node];
  }

  lemma FinishOne(graph: Graph, order: seq<string>, cut: set<(string, string)>, node: string)
    requires FinishedBut(graph, order, cut)
    requires forall d :: Edge(graph, node, d) && d in graph && (node, d) !in cut ==> d in order
    ensures FinishedBut(graph, order + [node], cut)
  {
    var longer := order + [node];
    forall i, d | 0 <= i < |longer| && Edge(graph, longer[i], d) && d in graph && (longer[i], d) !in cut
      ensures d in longer[..i]
    {
      if i < |order| {
        assert d in order[..i];
        assert longer[..i] == order[..i];
      } else {
        assert longer[..i] == order;
      }
    }
  }

  /** The edge that closes a reported cycle. */
  function Closing(cycle: seq<string>): (string, string) {
    if |cycle| < 2 then ("", "") else (cycle[|cycle| - 2], cycle[|cycle| - 1])
  }

  function Closings(cycles: seq<seq<string>>): set<(string, string)> {
    set c | c in cycles :: Closing(c)
  }

  lemma MoreClosings(cycles: seq<seq<string>>, cycle: seq<string>)
    ensures Closings(cycles + [cycle]) == Closings(cycles) + {Closing(cycle)}
  {
    assert forall c :: c in cycles + [cycle] <==> c in cycles || c == cycle;
  }

  lemma PrefixClosings(a: seq<seq<string>>, b: seq<seq<string>>)
    requires a <= b
    ensures Closings(a) <= Closings(b)
  {
    assert forall c :: c in a ==> c in b;
  }

  lemma CutMore(graph: Graph, order: seq<string>, cut: set<(string, string)>, more: set<(string, string)>)
    requires FinishedBut(graph, order, cut) && cut <= more
    ensures FinishedBut(graph, order, more)
  {
  }

  // ----- _cycle_errors and find_module_cycles -----

  /**
   The collecting walk.  The declared-graph check skips successors that are not keys and keeps every
   report; the resolved-graph check visits them as sinks and drops repeated reports.
  */
  class CycleCollector {
    const graph: Graph
    const resolved: bool
    ghost const universe: set<string>
    var visiting: seq<string>
    var visited: set<string>
    var cycles: seq<seq<string>>
    ghost var finished: seq<string>

    ghost predicate Valid()
      reads this
    {
      && graph.Keys <= universe
      && (forall a, b :: Edge(graph, a, b) ==> b in universe)
      && (forall n :: n in visiting ==> n in universe)
      && IsWalk(graph, visiting) && Distinct(visiting)
      && visited == NodesOf(finished)
      && (forall n :: n in visiting ==> n !in visited)
      && (forall c :: c in cycles ==> SimpleCycle(graph, c))
      && FinishedBut(graph, finished, Closings(cycles))
      && (resolved ==> forall i, j :: 0 <= i < j < |cycles| ==> cycles[i] != cycles[j])
    }

    constructor (graph: Graph, resolved: bool)
      ensures Valid() && this.graph == graph && this.resolved == resolved
      ensures visiting == [] && visited == {} && cycles == []
    {
      this.graph := graph;
      this.resolved := resolved;
      universe := graph.Keys + (set a, b | a in graph && b in graph[a] :: b);
      visiting, visited, cycles, finished := [], {}, [], [];
    }

    method Visit(node: string)
      requires Valid() && node in universe
      requires visiting != [] ==> Edge(graph, visiting[|visiting| - 1], node)
      modifies this
      ensures Valid() && visiting == old(visiting)
      ensures old(visited) <= visited && old(cycles) <= cycles
      ensures node in visited || (visiting != [] && (visiting[|visiting| - 1], node) in Closings(cycles))
      decreases universe - NodesOf(visiting)
    {
      if node in visiting {
        Report(node);
        return;
      }
      if node in visited {
        return;
      }
      Enter(node);
      var dependencies := if node in graph then graph[node] else [];
      for i := 0 to |dependencies|
        invariant Valid() && visiting == old(visiting) + [node]
        invariant old(visited) <= visited && old(cycles) <= cycles
        invariant forall d :: d in dependencies[..i] && d in graph ==> d in visited || (node, d) in Closings(cycles)
      {
        assert Edge(graph, node, dependencies[i]);
        ghost var before := cycles;
        if resolved || dependencies[i] in graph {
          Visit(dependencies[i]);
        }
        PrefixClosings(before, cycles);
        assert dependencies[..i + 1] == dependencies[..i] + [dependencies[i]];
      }
      assert dependencies[..|dependencies|] == dependencies;
      Finish(node);
    }

    /** The node is on the path already: the path from it onwards is a cycle. */
    method Report(node: string)
      requires Valid() && node in visiting && Edge(graph, visiting[|visiting| - 1], node)
      modifies this`cycles
      ensures Valid() && cycles != [] && old(cycles) <= cycles
      ensures (visiting[|visiting| - 1], node) in Closings(cycles)
    {
      BackEdgeCycle(graph, visiting, node);
      var cycle := visiting[IndexOf(visiting, node)..] + [node];
      assert Closing(cycle) == (visiting[|visiting| - 1], node);
      MoreClosings(cycles, cycle);
      CutMore(graph, finished, Closings(cycles), Closings(cycles + [cycle]));
      if !resolved || cycle !in cycles {
        cycles := cycles + [cycle];
      }
    }

    /** Puts a new node on top of the path. */
    method Enter(node: string)
      requires Valid() && node in universe && node !in visiting && node !in visited
      requires visiting != [] ==> Edge(graph, visiting[|visiting| - 1], node)
      modifies this`visiting
      ensures Valid() && visiting == old(visiting) + [node]
      ensures NodesOf(visiting) == NodesOf(old(visiting)) + {node}
    {
      visiting := visiting + [node];
    }

    /** Moves the node on top of the path to the finished ones. */
    method Finish(node: string)
      requires Valid() && visiting != [] && visiting[|visiting| - 1] == node
      requires forall d :: Edge(graph, node, d) && d in graph && (node, d) !in Closings(cycles) ==> d in visited
      modifies this
      ensures Valid() && visiting == old(visiting)[..|old(visiting)| - 1]
      ensures visited == old(visited) + {node} && cycles == old(cycles)
    {
      FinishOne(graph, finished, Closings(cycles), node);
      visiting := visiting[..|visiting| - 1];
      visited := visited + {node};
      finished := finished + [node];
    }
  }

  lemma SimpleCycleIsCyclic(graph: Graph, path: seq<string>)
    requires SimpleCycle(graph, path)
    ensures !Acyclic(graph)
  {
  }

  lemma RepeatedEndIsCyclic(graph: Graph, path: seq<string>)
    requires RepeatedEnd(graph, path)
    ensures !Acyclic(graph)
  {
    assert ClosedWalk(graph, path[..|path| - 1]);
  }

  lemma AllVisited(graph: Graph, nodes: seq<string>, visited: set<string>)
    requires NodesOf(nodes) == graph.Keys && forall n :: n in nodes ==> n in visited
    ensures forall n :: n in graph ==> n in visited
  {
    forall n | n in graph ensures n in visited {
      assert n in NodesOf(nodes);
    }
  }

  /**
   Reports no cycle exactly when the graph has none, and every reported list is a closed walk along
   real edges that repeats no node but its ends.  Every closed walk takes the closing edge of a reported cycle: without
   these edges the graph has no cycle.
  */
  method FindCycles(graph: Graph, nodes: seq<string>, resolved: bool) returns (cycles: seq<seq<string>>)
    requires NodesOf(nodes) == graph.Keys
    ensures cycles == [] <==> Acyclic(graph)
    ensures forall c :: c in cycles ==> SimpleCycle(graph, c)
    ensures forall path :: ClosedWalk(graph, path) ==> Uses(path, Closings(cycles))
    ensures resolved ==> forall i, j :: 0 <= i < j < |cycles| ==> cycles[i] != cycles[j]
  {
    hide SimpleCycle, Acyclic, FinishedBut, ClosedWalk, Uses;
    var collector := new CycleCollector(graph, resolved);
    for i := 0 to |nodes|
      invariant fresh(collector) && collector.Valid() && collector.graph == graph && collector.visiting == []
      invariant collector.resolved == resolved
      invariant forall n :: n in nodes[..i] ==> n in collector.visited
    {
      assert nodes[i] in NodesOf(nodes);
      collector.Visit(nodes[i]);
      assert nodes[..i + 1] == nodes[..i] + [nodes[i]];
    }
    cycles := collector.cycles;
    assert nodes[..|nodes|] == nodes;
    AllVisited(graph, nodes, collector.visited);
    forall path | ClosedWalk(graph, path) ensures Uses(path, Closings(cycles)) {
      ClosedWalksUse(graph, collector.finished, Closings(cycles), path);
    }
    if cycles == [] {
      NoClosings();
      FinishedIsAcyclic(graph, collector.finished);
    } else {
      assert cycles[0] in cycles;
      SimpleCycleIsCyclic(graph, cycles[0]);
    }
  }

  lemma NoClosings()
    ensures Closings([]) == {}
  {
  }

  // ----- the first-cycle variant of the platform contract -----

  class FirstCycle {
    const graph: Graph
    var visiting: set<string>
    var visited: set<string>
    ghost var finished: seq<string>

    ghost predicate Valid()
      reads this
    {
      && (forall a, b :: Edge(graph, a, b) ==> b in graph)
      && visiting <= graph.Keys
      && visited == NodesOf(finished)
      && visiting !! visited
      && Finished(graph, finished)
    }

    constructor (graph: Graph)
      requires forall a, b :: Edge(graph, a, b) ==> b in graph
      ensures Valid() && this.graph == graph && visiting == {}
    {
      this.graph := graph;
      visiting, visited, finished := {}, {}, [];
    }

    method Visit(node: string, path: seq<string>) returns (found: Option<seq<string>>)
      requires Valid() && node in graph
      requires IsWalk(graph, path) && path != [] && path[|path| - 1] == node
      requires visiting == NodesOf(path[..|path| - 1])
      modifies this
      ensures found.None? ==> Valid() && visiting == old(visiting) && old(visited) <= visited && node in visited
      ensures found.Some? ==> RepeatedEnd(graph, found.value)
      decreases graph.Keys - visiting
    {
      if node in visiting {
        var start := IndexOf(path, node);
        IndexInPrefix(path, node, |path| - 1);
        CloseAt(graph, path, start);
        return Some(path[start..] + [node]);
      }
      if node in visited {
        return None;
      }
      visiting := visiting + {node};
      assert path[..|path| - 1] + [node] == path;
      var dependencies := graph[node];
      for i := 0 to |dependencies|
        invariant Valid() && visiting == old(visiting) + {node} && old(visited) <= visited
        invariant forall d :: d in dependencies[..i] ==> d in visited
      {
        var longer := path + [dependencies[i]];
        assert Edge(graph, node, dependencies[i]);
        assert longer[..|longer| - 1] == path;
        assert visiting == NodesOf(path);
        found := Visit(dependencies[i], longer);
        if found.Some? {
          return;
        }
      }
      assert dependencies[..|dependencies|] == dependencies;
      FinishOne(graph, finished, {}, node);
      visiting := visiting - {node};
      visited := visited + {node};
      finished := finished + [node];
      found := None;
    }
  }

  /** What the platform check returns: a closed walk whose last node is written once more. */
  predicate RepeatedEnd(graph: Graph, path: seq<string>) {
    |path| >= 3 && ClosedWalk(graph, path[..|path| - 1]) && path[|path| - 1] == path[|path| - 2]
  }

  lemma CloseAt(graph: Graph, path: seq<string>, i: nat)
    requires IsWalk(graph, path) && i < |path| - 1 && path[i] == path[|path| - 1]
    ensures RepeatedEnd(graph, path[i..] + [path[i]])
  {
    TailIsWalk(graph, path, i);
    var tail := path[i..];
    assert tail[0] == path[i] && tail[|tail| - 1] == path[|path| - 1];
    assert (tail + [path[i]])[..|tail|] == tail;
  }

  lemma {:induction false} IndexInPrefix(path: seq<string>, node: string, k: nat)
    requires k <= |path| && node in path[..k]
    ensures IndexOf(path, node) < k
  {
    var j :| 0 <= j < k && path[..k][j] == node;
    FirstIndex(path, node, j);
  }

  lemma OneNodeWalk(graph: Graph, node: string)
    ensures IsWalk(graph, [node]) && NodesOf([node][..0]) == {}
  {
  }

  /** The platform check answers None if and only if the graph is acyclic. */
  method FindFirstCycle(graph: Graph, nodes: seq<string>) returns (found: Option<seq<string>>)
    requires NodesOf(nodes) == graph.Keys
    requires forall a, b :: Edge(graph, a, b) ==> b in graph
    ensures found.None? <==> Acyclic(graph)
    ensures found.Some? ==> RepeatedEnd(graph, found.value)
  {
    hide RepeatedEnd, Acyclic, Finished;
    var walk := new FirstCycle(graph);
    for i := 0 to |nodes|
      invariant fresh(walk) && walk.Valid() && walk.graph == graph && walk.visiting == {}
      invariant forall n :: n in nodes[..i] ==> n in walk.visited
    {
      assert nodes[i] in NodesOf(nodes);
      OneNodeWalk(graph, nodes[i]);
      found := walk.Visit(nodes[i], [nodes[i]]);
      if found.Some? {
        RepeatedEndIsCyclic(graph, found.value);
        return;
      }
    }
    assert nodes[..|nodes|] == nodes;
    AllVisited(graph, nodes, walk.visited);
    FinishedIsAcyclic(graph, walk.finished);
    found := None;
  }
}
