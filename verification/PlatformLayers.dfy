/** The layering part of the platform contract, and what it guarantees about module dependencies. */
module PlatformLayers {
  import opened CycleChecks
  import opened Options

  datatype Layer = Layer(id: string, dependsOn: seq<string>)

  datatype Module = Module(id: string, allowed: seq<string>)

  datatype LayerError =
    | DuplicateLayers
    | MissingLayers(ids: set<string>)
    | UnknownLayer(layer: string, dependency: string)
    | LayerCycle(path: seq<string>)
    | MappingMismatch
    | UnknownPlatformLayer(id: string, layer: string)
    | UnmappedDependency(id: string, dependency: string)
    | RejectedDependency(id: string, dependency: string)

  const REQUIRED_LAYERS: set<string> :=
    {"foundation", "workspace", "frontend", "extraction", "model", "persistence", "derivation", "query", "proof",
     "product"}

  function LayerIds(layers: seq<Layer>): (ids: seq<string>)
    ensures |ids| == |layers|
  {
    seq(|layers|, i requires 0 <= i < |layers| => layers[i].id)
  }

  function ModuleIds(modules: seq<Module>): set<string> {
    set m | m in modules :: m.id
  }

  // ----- what acceptance means -----

  predicate DependsOn(layers: seq<Layer>, a: string, b: string) {
    exists l :: l in layers && l.id == a && b in l.dependsOn
  }

  /** The graph holds exactly the declared dependencies between declared layers. */
  ghost predicate IsLayerGraph(layers: seq<Layer>, graph: Graph) {
    && graph.Keys == NodesOf(LayerIds(layers))
    && forall a, b :: Edge(graph, a, b) <==> a in graph && b in graph && DependsOn(layers, a, b)
  }

  predicate AllKnown(layers: seq<Layer>) {
    forall l, d :: l in layers && d in l.dependsOn ==> d in LayerIds(layers)
  }

  ghost predicate LayersAccepted(layers: seq<Layer>, graph: Graph) {
    && Distinct(LayerIds(layers))
    && REQUIRED_LAYERS <= NodesOf(LayerIds(layers))
    && AllKnown(layers)
    && Acyclic(graph)
  }

  predicate DependencyAccepted(mapping: map<string, string>, graph: Graph, id: string, dependency: string)
    requires id in mapping
  {
    dependency == id ||
    (dependency in mapping && (mapping[dependency] == mapping[id] || Edge(graph, mapping[id], mapping[dependency])))
  }

  predicate MappingAccepted(mapping: map<string, string>, modules: seq<Module>, graph: Graph) {
    && mapping.Keys == ModuleIds(modules)
    && (forall id :: id in mapping ==> mapping[id] in graph)
    && forall m, d :: m in modules && d in m.allowed ==> m.id in mapping && DependencyAccepted(mapping, graph, m.id, d)
  }

  /** The ten layers that every accepted contract has. */
  lemma AcceptedHasLayers(layers: seq<Layer>, graph: Graph, id: string)
    requires LayersAccepted(layers, graph)
    requires id == "foundation" || id == "workspace" || id == "frontend" || id == "extraction" || id == "model" ||
             id == "persistence" || id == "derivation" || id == "query" || id == "proof" || id == "product"
    ensures id in LayerIds(layers)
  {
    assert id in NodesOf(LayerIds(layers));
  }

  // ----- the checks -----

  method ValidateLayers(layers: seq<Layer>) returns (errors: seq<LayerError>, graph: Graph)
    ensures IsLayerGraph(layers, graph)
    ensures errors == [] <==> LayersAccepted(layers, graph)
  {
    errors := [];
    var ids := LayerIds(layers);
    var unique := AreDistinct(ids);
    if !unique {
      errors := errors + [DuplicateLayers];
    }
    var missing := REQUIRED_LAYERS - NodesOf(ids);
    if missing != {} {
      errors := errors + [MissingLayers(missing)];
    }
    if missing == {} {
      forall id | id in REQUIRED_LAYERS ensures id in NodesOf(ids) {
        assert id !in missing;
      }
    }
    var unknown;
    graph, unknown := BuildLayerGraph(layers);
    errors := errors + unknown;
    if graph != map[] && unknown == [] {
      var cycle := FindFirstCycle(graph, ids);
      if cycle.Some? {
        errors := errors + [LayerCycle(cycle.value)];
      }
    } else if graph == map[] {
      EmptyIsAcyclic(graph);
    }
  }

  lemma EmptyIsAcyclic(graph: Graph)
    requires graph == map[]
    ensures Acyclic(graph)
  {
    forall path ensures !ClosedWalk(graph, path) {
      assert |path| >= 2 ==> !Edge(graph, path[0], path[0 + 1]);
    }
  }

  method AreDistinct(ids: seq<string>) returns (distinct: bool)
    ensures distinct == Distinct(ids)
  {
    var seen: set<string> := {};
    for i := 0 to |ids|
      invariant seen == NodesOf(ids[..i]) && Distinct(ids[..i])
    {
      if ids[i] in seen {
        var j :| 0 <= j < i && ids[..i][j] == ids[i];
        assert ids[j] == ids[i];
        return false;
      }
      assert ids[..i + 1] == ids[..i] + [ids[i]];
      seen := seen + {ids[i]};
    }
    assert ids[..|ids|] == ids;
    return true;
  }

  method BuildLayerGraph(layers: seq<Layer>) returns (graph: Graph, unknown: seq<LayerError>)
    ensures IsLayerGraph(layers, graph)
    ensures unknown == [] <==> AllKnown(layers)
  {
    var ids := LayerIds(layers);
    graph := map id | id in ids :: [];
    unknown := [];
    for i := 0 to |layers|
      invariant graph.Keys == NodesOf(ids)
      invariant forall a, b :: Edge(graph, a, b) <==> a in graph && b in graph && DependsOn(layers[..i], a, b)
      invariant unknown == [] <==> forall l, d :: l in layers[..i] && d in l.dependsOn ==> d in ids
    {
      assert ids[i] == layers[i].id;
      var unknownHere;
      graph, unknownHere := AddDependencies(graph, layers[i]);
      unknown := unknown + unknownHere;
      ExtendDependsOn(layers, i);
    }
    assert layers[..|layers|] == layers;
  }

  method AddDependencies(before: Graph, layer: Layer) returns (graph: Graph, unknown: seq<LayerError>)
    requires layer.id in before
    ensures graph.Keys == before.Keys
    ensures forall a, b :: Edge(graph, a, b) <==>
              Edge(before, a, b) || (a == layer.id && b in layer.dependsOn && b in before)
    ensures unknown == [] <==> forall d :: d in layer.dependsOn ==> d in before
  {
    graph, unknown := before, [];
    for k := 0 to |layer.dependsOn|
      invariant graph.Keys == before.Keys
      invariant forall a, b :: Edge(graph, a, b) <==>
        Edge(before, a, b) || (a == layer.id && b in layer.dependsOn[..k] && b in before)
      invariant unknown == [] <==> forall d :: d in layer.dependsOn[..k] ==> d in before
    {
      var dependency := layer.dependsOn[k];
      assert forall d :: d in layer.dependsOn[..k + 1] <==> d in layer.dependsOn[..k] || d == dependency;
      if dependency !in graph {
        unknown := unknown + [UnknownLayer(layer.id, dependency)];
      } else {
        ghost var shorter := graph;
        graph := graph[layer.id := graph[layer.id] + [dependency]];
        assert forall a, b :: Edge(graph, a, b) <==> Edge(shorter, a, b) || (a == layer.id && b == dependency);
      }
    }
    assert layer.dependsOn[..|layer.dependsOn|] == layer.dependsOn;
  }

  lemma ExtendDependsOn(layers: seq<Layer>, i: nat)
    requires i < |layers|
    ensures forall a, b :: DependsOn(layers[..i + 1], a, b) <==>
              DependsOn(layers[..i], a, b) || (a == layers[i].id && b in layers[i].dependsOn)
    ensures forall l :: l in layers[..i + 1] <==> l in layers[..i] || l == layers[i]
  {
    assert layers[..i + 1] == layers[..i] + [layers[i]];
    forall a, b
      ensures DependsOn(layers[..i + 1], a, b) <==>
              DependsOn(layers[..i], a, b) || (a == layers[i].id && b in layers[i].dependsOn)
    {
      if a == layers[i].id && b in layers[i].dependsOn {
        assert layers[i] in layers[..i + 1];
      }
    }
  }

  method ValidateModuleMapping(mapping: map<string, string>, modules: seq<Module>, graph: Graph)
    returns (errors: seq<LayerError>)
    ensures errors == [] <==> MappingAccepted(mapping, modules, graph)
  {
    errors := [];
    if mapping.Keys != ModuleIds(modules) {
      errors := errors + [MappingMismatch];
    }
    var pending := mapping.Keys;
    while pending != {}
      invariant pending <= mapping.Keys
      invariant errors == [] <==>
        mapping.Keys == ModuleIds(modules) && forall id :: id in mapping && id !in pending ==> mapping[id] in graph
    {
      var id :| id in pending;
      if mapping[id] !in graph {
        errors := errors + [UnknownPlatformLayer(id, mapping[id])];
      }
      pending := pending - {id};
    }
    for i := 0 to |modules|
      invariant errors == [] <==>
        && mapping.Keys == ModuleIds(modules)
        && (forall id :: id in mapping ==> mapping[id] in graph)
        && (forall m, d :: m in modules[..i] && d in m.allowed ==>
              m.id in mapping && DependencyAccepted(mapping, graph, m.id, d))
    {
      var entry := modules[i];
      assert forall m :: m in modules[..i + 1] <==> m in modules[..i] || m == entry;
      assert entry.id in ModuleIds(modules);
      if entry.id in mapping && mapping[entry.id] in graph {
        var rejected := CheckDependencies(mapping, graph, entry);
        errors := errors + rejected;
      }
    }
    assert modules[..|modules|] == modules;
  }

  method CheckDependencies(mapping: map<string, string>, graph: Graph, m: Module) returns (errors: seq<LayerError>)
    requires m.id in mapping && mapping[m.id] in graph
    ensures errors == [] <==> forall d :: d in m.allowed ==> DependencyAccepted(mapping, graph, m.id, d)
  {
    errors := [];
    var source := mapping[m.id];
    for i := 0 to |m.allowed|
      invariant errors == [] <==> forall d :: d in m.allowed[..i] ==> DependencyAccepted(mapping, graph, m.id, d)
    {
      var dependency := m.allowed[i];
      assert forall d :: d in m.allowed[..i + 1] <==> d in m.allowed[..i] || d == dependency;
      ghost var passed := errors == [];
      ghost var accepted := DependencyAccepted(mapping, graph, m.id, dependency);
      if dependency != m.id {
        if dependency !in mapping {
          errors := errors + [UnmappedDependency(m.id, dependency)];
        } else if mapping[dependency] != source && mapping[dependency] !in graph[source] {
          errors := errors + [RejectedDependency(m.id, dependency)];
        }
      }
      assert errors == [] <==> passed && accepted;
    }
    assert m.allowed[..|m.allowed|] == m.allowed;
  }

  method ValidateContract(layers: seq<Layer>, mapping: map<string, string>, manifest: Option<seq<Module>>)
    returns (errors: seq<LayerError>, ghost graph: Graph)
    ensures IsLayerGraph(layers, graph)
    ensures errors == [] <==>
      LayersAccepted(layers, graph) && (manifest.Some? ==> MappingAccepted(mapping, manifest.value, graph))
    ensures errors == [] && manifest.Some? ==> CyclesStayInLayers(mapping, manifest.value)
  {
    var layerGraph;
    errors, layerGraph := ValidateLayers(layers);
    graph := layerGraph;
    if manifest.Some? {
      var mappingErrors := ValidateModuleMapping(mapping, manifest.value, layerGraph);
      errors := errors + mappingErrors;
      if errors == [] {
        Layering(mapping, manifest.value, layerGraph);
      }
    }
  }

  // ----- the layering theorem -----

  predicate ModuleDependency(modules: seq<Module>, a: string, b: string) {
    exists m :: m in modules && m.id == a && b in m.allowed
  }

  predicate IsModuleWalk(modules: seq<Module>, path: seq<string>) {
    forall i :: 0 <= i < |path| - 1 ==> ModuleDependency(modules, path[i], path[i + 1])
  }

  predicate IsModuleCycle(modules: seq<Module>, path: seq<string>) {
    |path| >= 2 && path[0] == path[|path| - 1] && IsModuleWalk(modules, path)
  }

  ghost predicate CyclesStayInLayers(mapping: map<string, string>, modules: seq<Module>) {
    forall path :: IsModuleCycle(modules, path) ==> InOneLayer(mapping, path)
  }

  predicate InOneLayer(mapping: map<string, string>, path: seq<string>) {
    && (forall i :: 0 <= i < |path| ==> path[i] in mapping)
    && forall i :: 0 <= i < |path| ==> mapping[path[i]] == mapping[path[0]]
  }

  /** If the contract is accepted, no cycle of allowed module dependencies leaves its layer. */
  lemma Layering(mapping: map<string, string>, modules: seq<Module>, graph: Graph)
    requires MappingAccepted(mapping, modules, graph) && Acyclic(graph)
    ensures CyclesStayInLayers(mapping, modules)
  {
    forall path | IsModuleCycle(modules, path) ensures InOneLayer(mapping, path) {
      CycleInOneLayer(mapping, modules, graph, path);
    }
  }

  /** Consecutive layers are equal or joined by an edge of the layer graph. */
  predicate IsStutteringWalk(graph: Graph, layers: seq<string>) {
    forall i :: 0 <= i < |layers| - 1 ==> layers[i] == layers[i + 1] || Edge(graph, layers[i], layers[i + 1])
  }

  function Compressed(layers: seq<string>): (r: seq<string>)
    requires |layers| >= 1
    ensures 1 <= |r| <= |layers| && r[0] == layers[0] && r[|r| - 1] == layers[|layers| - 1]
    ensures |r| == 1 ==> forall i :: 0 <= i < |layers| ==> layers[i] == layers[0]
  {
    var last := |layers| - 1;
    if last == 0 then layers
    else
      var r := Compressed(layers[..last]);
      if layers[last] == layers[last - 1] then r else r + [layers[last]]
  }

  lemma {:induction false} CompressedIsWalk(graph: Graph, layers: seq<string>)
    requires |layers| >= 1 && IsStutteringWalk(graph, layers)
    ensures IsWalk(graph, Compressed(layers))
  {
    var last := |layers| - 1;
    if last > 0 {
      var shorter := layers[..last];
      forall i | 0 <= i < |shorter| - 1
        ensures shorter[i] == shorter[i + 1] || Edge(graph, shorter[i], shorter[i + 1])
      {
        assert layers[i] == layers[i + 1] || Edge(graph, layers[i], layers[i + 1]);
      }
      CompressedIsWalk(graph, shorter);
      assert layers[last - 1] == layers[last - 1 + 1] || Edge(graph, layers[last - 1], layers[last - 1 + 1]);
    }
  }

  lemma CycleInOneLayer(mapping: map<string, string>, modules: seq<Module>, graph: Graph, path: seq<string>)
    requires MappingAccepted(mapping, modules, graph) && Acyclic(graph)
    requires IsModuleCycle(modules, path)
    ensures InOneLayer(mapping, path)
  {
    var last := |path| - 1;
    forall i | 0 <= i < last
      ensures path[i] in mapping && DependencyAccepted(mapping, graph, path[i], path[i + 1])
    {
      assert ModuleDependency(modules, path[i], path[i + 1]);
    }
    assert path[0] in mapping && DependencyAccepted(mapping, graph, path[0], path[0 + 1]);
    assert path[last] in mapping;
    var layers := seq(|path|, i requires 0 <= i < |path| => mapping[path[i]]);
    assert IsStutteringWalk(graph, layers);
    CompressedIsWalk(graph, layers);
    var compressed := Compressed(layers);
    assert !ClosedWalk(graph, compressed);
    assert |compressed| == 1;
    forall i | 0 <= i < |path| ensures mapping[path[i]] == mapping[path[0]] {
      assert layers[i] == layers[0];
    }
  }
}
