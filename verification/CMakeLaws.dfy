/** The graph of a program without variables and expressions, read off its commands. */
module CMakeLaws {
  import opened Options
  import opened CMakeText
  import opened CMakeExpansion
  import opened CMakeWalk
  import opened CMakeExpressions
  import opened CMakeSoundness

  // ----- what the commands say -----

  predicate IsSource(kind: Kind) {
    kind in {AddLibrary, AddExecutable, TargetSources}
  }

  predicate IsFor(c: Command, target: string) {
    c.tokens != [] && c.tokens[0] == target
  }

  predicate IsVisibility(token: string) {
    token == "PUBLIC" || token == "PRIVATE" || token == "INTERFACE"
  }

  /** The targets linked to a target. */
  ghost function Linked(commands: seq<Command>, target: string): set<string> {
    set c, token | c in commands && c.kind.TargetLinkLibraries? && IsFor(c, target) && token in c.tokens[1..] &&
                   !IsVisibility(token) :: token
  }

  ghost function DependedOn(commands: seq<Command>, target: string): set<string> {
    set c, token | c in commands && c.kind.AddDependencies? && IsFor(c, target) && token in c.tokens[1..] &&
                   !IsVisibility(token) :: token
  }

  /** The files of the repository among the sources of a target. */
  ghost function SourceFiles(commands: seq<Command>, target: string): set<string> {
    set c, token | c in commands && IsSource(c.kind) && IsFor(c, target) && token in c.tokens[1..] &&
                   (StartsWith(token, "src/") || StartsWith(token, "python/")) :: token
  }

  /** No command of a target has a variable or an expression. */
  predicate IsWrittenOut(c: Command) {
    IsBranching(c.kind) || c.kind.ListCommand? || c.kind.SetCommand? || forall t :: t in c.tokens ==> HasNone(t, '$')
  }

  predicate AllWrittenOut(commands: seq<Command>) {
    forall c :: c in commands ==> IsWrittenOut(c)
  }

  // ----- one token, one command, all commands -----

  function When(b: bool, token: string): set<string> {
    if b then {token} else {}
  }

  /** What a walk has recorded for a target. */
  datatype Record = Record(links: set<string>, references: set<string>, edges: set<string>, sourceEdges: set<string>) {
    function And(r: Record): Record {
      Record(links + r.links, references + r.references, edges + r.edges, sourceEdges + r.sourceEdges)
    }
  }

  function RecordOf(walk: Walk, target: string): Record {
    Record(At(walk.links, target), At(walk.references, target), At(walk.edges, target), At(walk.sourceEdges, target))
  }

  function OfToken(kind: Kind, token: string): Record {
    var linked := When(kind.TargetLinkLibraries? && !IsVisibility(token), token);
    Record(linked, linked, When(kind.AddDependencies? && !IsVisibility(token), token),
           When(IsSource(kind) && (StartsWith(token, "src/") || StartsWith(token, "python/")), token))
  }

  function OfTokens(kind: Kind, tokens: seq<string>): Record {
    if tokens == [] then Record({}, {}, {}, {}) else OfToken(kind, tokens[0]).And(OfTokens(kind, tokens[1..]))
  }

  lemma WrittenToken(token: string)
    requires HasNone(token, '$')
    ensures !Contains(token, "${") && !Contains(token, "$<") && ObjectsOf(token).None? && !StartsWith(token, "${")
  {
    NoDollar(token, "${");
    NoDollar(token, "$<");
    NoDollar(token, "$<" + OBJECTS);
    assert !IsAt(token, "$<" + OBJECTS, 0);
  }

  lemma AddedAt(relation: Relation, key: string, names: set<string>, t: string)
    ensures At(Added(relation, key, names), t) == At(relation, t) + if t == key then names else {}
  {
  }

  lemma TokenRecord(walk: Walk, kind: Kind, target: string, token: string, targets: set<string>, t: string)
    requires kind in {TargetLinkLibraries, AddDependencies} || IsSource(kind)
    requires HasNone(token, '$')
    ensures RecordOf(TargetToken(walk, kind, target, token, targets), t)
         == RecordOf(walk, t).And(if t == target then OfToken(kind, token) else Record({}, {}, {}, {}))
    ensures TargetToken(walk, kind, target, token, targets).errors == walk.errors
  {
    hide LinkToken, DependencyToken, SourceToken, RecordOf, OfToken;
    LinkRecord(walk, target, token, t);
    DependencyRecord(walk, target, token, targets, t);
    SourceRecord(walk, kind, target, token, targets, t);
  }

  lemma LinkRecord(walk: Walk, target: string, token: string, t: string)
    requires HasNone(token, '$')
    ensures RecordOf(LinkToken(walk, target, token), t)
         == RecordOf(walk, t).And(if t == target then OfToken(TargetLinkLibraries, token) else Record({}, {}, {}, {}))
    ensures LinkToken(walk, target, token).errors == walk.errors
  {
    hide Contains, StartsWith, At, Added, IsVisibility;
    WrittenToken(token);
    IsAKeyword(token);
    AddedAt(walk.links, target, {token}, t);
    AddedAt(walk.references, target, {token}, t);
    assert PlainReference(token, target) == Found({token}, []);
    assert walk.errors + [] == walk.errors;
  }

  lemma DependencyRecord(walk: Walk, target: string, token: string, targets: set<string>, t: string)
    requires HasNone(token, '$')
    ensures RecordOf(DependencyToken(walk, target, token, targets), t)
         == RecordOf(walk, t).And(if t == target then OfToken(AddDependencies, token) else Record({}, {}, {}, {}))
    ensures DependencyToken(walk, target, token, targets).errors == walk.errors
  {
    hide Contains, StartsWith, At, Added, IsVisibility, Reference;
    WrittenToken(token);
    IsAKeyword(token);
    AddedAt(walk.edges, target, {token}, t);
  }

  lemma SourceRecord(walk: Walk, kind: Kind, target: string, token: string, targets: set<string>, t: string)
    requires HasNone(token, '$')
    ensures IsSource(kind) ==>
      RecordOf(SourceToken(walk, target, token, targets), t)
      == RecordOf(walk, t).And(if t == target then OfToken(kind, token) else Record({}, {}, {}, {}))
    ensures SourceToken(walk, target, token, targets).errors == walk.errors
  {
    hide Contains, StartsWith, ObjectsOf, At, Added, IsVisibility, Reference;
    WrittenToken(token);
    AddedAt(walk.sourceEdges, target, {token}, t);
  }

  lemma IsAKeyword(token: string)
    ensures token in VISIBILITY <==> IsVisibility(token)
  {
  }

  lemma {:induction false} TokensRecord(walk: Walk, kind: Kind, target: string, tokens: seq<string>, targets: set<string>, t: string)
    requires kind in {TargetLinkLibraries, AddDependencies} || IsSource(kind)
    requires forall token :: token in tokens ==> HasNone(token, '$')
    ensures RecordOf(TargetTokens(walk, kind, target, tokens, targets), t)
         == RecordOf(walk, t).And(if t == target then OfTokens(kind, tokens) else Record({}, {}, {}, {}))
    ensures TargetTokens(walk, kind, target, tokens, targets).errors == walk.errors
    decreases |tokens|
  {
    hide TargetToken, OfToken, RecordOf;
    if tokens != [] {
      TokenRecord(walk, kind, target, tokens[0], targets, t);
      TokensRecord(TargetToken(walk, kind, target, tokens[0], targets), kind, target, tokens[1..], targets, t);
    }
  }

  function OfCommand(c: Command, t: string): Record {
    if IsFor(c, t) && (c.kind in {TargetLinkLibraries, AddDependencies} || IsSource(c.kind)) then OfTokens(c.kind, c.tokens[1..])
    else Record({}, {}, {}, {})
  }

  function OfCommands(commands: seq<Command>, t: string): Record {
    if commands == [] then Record({}, {}, {}, {}) else OfCommand(commands[0], t).And(OfCommands(commands[1..], t))
  }

  lemma CommandRecord(walk: Walk, c: Command, targets: set<string>, t: string)
    requires IsWrittenOut(c)
    ensures RecordOf(Step(walk, c, targets), t) == RecordOf(walk, t).And(OfCommand(c, t))
  {
    hide Condition, StepBranch, StepList, StepSet, TargetTokens, OfTokens, RecordOf;
    NothingRecorded(walk, c, t);
    if c.tokens != [] && (c.kind in {TargetLinkLibraries, AddDependencies} || IsSource(c.kind)) {
      TokensRecord(walk, c.kind, c.tokens[0], c.tokens[1..], targets, t);
    } else if c.tokens != [] && c.kind.AddCustomTarget? {
      CustomTargetRecords(walk, c.tokens[0], c.tokens[1..], targets);
    }
  }

  lemma NothingRecorded(walk: Walk, c: Command, t: string)
    ensures IsBranching(c.kind) ==> RecordOf(StepBranch(walk, c.kind, Condition(c.tokens)), t) == RecordOf(walk, t)
    ensures c.tokens != [] ==> RecordOf(StepList(walk, c.tokens), t) == RecordOf(walk, t)
    ensures c.tokens != [] ==> RecordOf(StepSet(walk, c.tokens), t) == RecordOf(walk, t)
    ensures RecordOf(walk, t).And(Record({}, {}, {}, {})) == RecordOf(walk, t)
  {
    hide Condition, StepBranch, StepList, StepSet, RecordOf;
    if IsBranching(c.kind) {
      BranchRecordsNothing(walk, c.kind, Condition(c.tokens), t);
    }
    if c.tokens != [] {
      ListRecordsNothing(walk, c.tokens, t);
      SetRecordsNothing(walk, c.tokens, t);
    }
  }

  lemma BranchRecordsNothing(walk: Walk, kind: Kind, condition: Truth, t: string)
    requires IsBranching(kind)
    ensures RecordOf(StepBranch(walk, kind, condition), t) == RecordOf(walk, t)
  {
    hide At, BranchedStack, BranchErrors;
  }

  lemma AssignedRecordsNothing(walk: Walk, name: string, earlier: seq<string>, expansion: Expansion, t: string)
    ensures RecordOf(Assigned(walk, name, earlier, expansion), t) == RecordOf(walk, t)
  {
    hide At, Deduplicated, ActiveCondition;
  }

  lemma ListRecordsNothing(walk: Walk, tokens: seq<string>, t: string)
    requires tokens != []
    ensures RecordOf(StepList(walk, tokens), t) == RecordOf(walk, t)
  {
    hide At, Assigned, Expand;
    if |tokens| >= 3 {
      AssignedRecordsNothing(walk, tokens[1], Values(walk.variables, tokens[1]), Expand(tokens[2..], walk.variables, tokens[0], []), t);
    }
  }

  lemma SetRecordsNothing(walk: Walk, tokens: seq<string>, t: string)
    requires tokens != []
    ensures RecordOf(StepSet(walk, tokens), t) == RecordOf(walk, t)
  {
    hide At, Assigned, SetExpansion, FormOf, Kept;
    AssignedRecordsNothing(walk, tokens[0], Kept(walk, tokens[0]), SetExpansion(walk, tokens, FormOf(tokens)), t);
  }

  lemma {:induction false} CustomTargetRecords(walk: Walk, target: string, tokens: seq<string>, targets: set<string>)
    ensures TargetTokens(walk, AddCustomTarget, target, tokens, targets) == walk
    decreases |tokens|
  {
    if tokens != [] {
      CustomTargetRecords(walk, target, tokens[1..], targets);
    }
  }

  lemma {:induction false} WalkRecord(walk: Walk, commands: seq<Command>, targets: set<string>, t: string)
    requires AllWrittenOut(commands)
    ensures RecordOf(WalkFrom(walk, commands, targets), t) == RecordOf(walk, t).And(OfCommands(commands, t))
    decreases |commands|
  {
    hide Step, RecordOf, OfCommand, IsWrittenOut;
    if commands != [] {
      CommandRecord(walk, commands[0], targets, t);
      WalkRecord(Step(walk, commands[0], targets), commands[1..], targets, t);
    }
  }

  // ----- the same as sets over the commands -----

  lemma {:induction false} OfTokensIs(kind: Kind, tokens: seq<string>)
    ensures var r := OfTokens(kind, tokens);
            && r.links == r.references
            && r.links == (set k | k in tokens && kind.TargetLinkLibraries? && !IsVisibility(k))
            && r.edges == (set k | k in tokens && kind.AddDependencies? && !IsVisibility(k))
            && r.sourceEdges == (set k | k in tokens && IsSource(kind) && (StartsWith(k, "src/") || StartsWith(k, "python/")))
  {
    hide StartsWith, IsVisibility;
    if tokens != [] {
      OfTokensIs(kind, tokens[1..]);
      assert tokens == [tokens[0]] + tokens[1..];
    }
  }

  lemma FirstOfCommands(commands: seq<Command>, t: string)
    requires commands != []
    ensures Linked(commands, t) == Linked(commands[..1], t) + Linked(commands[1..], t)
    ensures DependedOn(commands, t) == DependedOn(commands[..1], t) + DependedOn(commands[1..], t)
    ensures SourceFiles(commands, t) == SourceFiles(commands[..1], t) + SourceFiles(commands[1..], t)
  {
    hide StartsWith, IsVisibility, IsSource;
    assert commands == commands[..1] + commands[1..];
    assert forall c :: c in commands <==> c in commands[..1] || c in commands[1..];
  }

  lemma OneCommand(c: Command, t: string)
    ensures OfCommand(c, t) == Record(Linked([c], t), Linked([c], t), DependedOn([c], t), SourceFiles([c], t))
  {
    hide StartsWith, IsVisibility, OfTokens;
    if IsFor(c, t) {
      OfTokensIs(c.kind, c.tokens[1..]);
    }
    assert forall d :: d in [c] <==> d == c;
  }

  lemma {:induction false} OfCommandsIs(commands: seq<Command>, t: string)
    ensures OfCommands(commands, t)
         == Record(Linked(commands, t), Linked(commands, t), DependedOn(commands, t), SourceFiles(commands, t))
    decreases |commands|
  {
    hide OfCommand, Linked, DependedOn, SourceFiles;
    if commands != [] {
      OneCommand(commands[0], t);
      OfCommandsIs(commands[1..], t);
      FirstOfCommands(commands, t);
      assert commands[..1] == [commands[0]];
    } else {
      NoCommands(t);
    }
  }

  lemma NoCommands(t: string)
    ensures Linked([], t) == {} && DependedOn([], t) == {} && SourceFiles([], t) == {}
  {
  }

  lemma CompletedAt(walk: Walk, targets: set<string>, t: string)
    ensures At(Completed(walk, targets).edges, t) == At(walk.edges, t) + At(walk.references, t) * targets
    ensures Completed(walk, targets).links == walk.links && Completed(walk, targets).sourceEdges == walk.sourceEdges
    ensures Completed(walk, targets).references == walk.references
  {
  }

  /**
   Of a program without variables and expressions in its targets, whatever its branches: a target's links and references are
   the arguments it links, its edges the declared ones among them and everything it depends on, and its source edges the
   sources of the repository.
  */
  lemma WrittenOutGraph(commands: seq<Command>, t: string)
    requires AllWrittenOut(commands)
    ensures var graph := Graph(commands);
            && At(graph.links, t) == At(graph.references, t) == Linked(commands, t)
            && At(graph.edges, t) == DependedOn(commands, t) + Linked(commands, t) * Targets(commands)
            && At(graph.sourceEdges, t) == SourceFiles(commands, t)
  {
    hide AllWrittenOut, Linked, DependedOn, SourceFiles, Targets, WalkFrom, OfCommands;
    var targets := Targets(commands);
    WalkRecord(START, commands, targets, t);
    OfCommandsIs(commands, t);
    CompletedAt(WalkFrom(START, commands, targets), targets, t);
  }

  /** The variables that are set outside of the file. */
  lemma ExternalNames(name: string)
    ensures IsOpaque(name) <==>
      || name == "CMAKE_CURRENT_BINARY_DIR" || name == "CMAKE_CURRENT_SOURCE_DIR" || name == "CMAKE_DL_LIBS"
      || name == "CIDX_CLANG_TIDY_EXECUTABLE" || name == "CIDX_SOUFFLE_EXECUTABLE" || name == "CIDX_SOUFFLE_INCLUDE_DIR"
      || name == "LLVM_LIBRARY_DIR" || name == "LLVM_VERSION_MAJOR" || name == "_cidx_macos_sdk"
      || name == "_cidx_cmake_root" || name == "_cidx_llvm_cmakedir"
  {
  }

  predicate NoRepeats(items: seq<string>) {
    forall i, j :: 0 <= i < j < |items| ==> items[i] != items[j]
  }

  /** Assigned items stand once each, the earlier ones first. */
  lemma {:induction false} DeduplicatedOnce(a: seq<string>, b: seq<string>)
    ensures NoRepeats(Deduplicated(a + b)) && Deduplicated(a) <= Deduplicated(a + b)
    ensures NoRepeats(a) ==> Deduplicated(a) == a
    decreases |a| + |b|
  {
    hide NoRepeats;
    if b != [] {
      assert (a + b)[..|a + b| - 1] == a + b[..|b| - 1];
      DeduplicatedOnce(a, b[..|b| - 1]);
      OneMoreItem(Deduplicated(a + b[..|b| - 1]), b[|b| - 1]);
    } else if a != [] {
      assert a + b == a && a[..|a| - 1] + [] == a[..|a| - 1];
      DeduplicatedOnce(a[..|a| - 1], []);
      assert a == a[..|a| - 1] + [a[|a| - 1]];
      OneMoreItem(Deduplicated(a[..|a| - 1]), a[|a| - 1]);
      OneMoreItem(a[..|a| - 1], a[|a| - 1]);
    } else {
      NothingRepeats();
    }
  }

  lemma NothingRepeats()
    ensures NoRepeats([])
  {
  }

  lemma OneMoreItem(items: seq<string>, item: string)
    ensures NoRepeats(items + [item]) <==> NoRepeats(items) && item !in items
  {
    var more := items + [item];
    if NoRepeats(more) {
      forall i, j | 0 <= i < j < |items| ensures items[i] != items[j] {
        assert more[i] != more[j];
      }
      forall i | 0 <= i < |items| ensures items[i] != item {
        assert more[i] != more[|items|];
      }
    }
  }

  /** A value in which no variable occurs is stored as it is. */
  lemma {:induction false} WrittenValues(values: seq<string>, variables: Variables, context: string, stack: seq<string>)
    requires forall v :: v in values ==> HasNone(v, '$')
    ensures Expand(values, variables, context, stack) == Expansion(values, [])
  {
    if values != [] {
      assert values[0] in values;
      NoDollar(values[0], "${");
      NoReferences(values[0]);
      WrittenValues(values[1..], variables, context, stack);
    }
  }

  /** set(<name> <values>..): outside of branches the variable holds the values, in an undecided one also its earlier items. */
  lemma SetStores(walk: Walk, name: string, values: seq<string>, targets: set<string>)
    requires values != [] && (forall v :: v in values ==> HasNone(v, '$')) && NoRepeats(values)
    requires "CACHE" !in [name] + values && "PARENT_SCOPE" !in [name] + values
    ensures var next := Step(walk, Command(SetCommand, [name] + values), targets);
            && next.errors == walk.errors
            && (ActiveCondition(walk.stack) == True ==> next.variables == walk.variables[name := values])
            && (ActiveCondition(walk.stack) == False ==> next.variables == walk.variables)
            && (ActiveCondition(walk.stack) == Unknown ==>
                  next.variables == walk.variables[name := Deduplicated(Values(walk.variables, name) + values)])
  {
    hide Expand, ActiveCondition, Deduplicated, NoRepeats;
    var tokens := [name] + values;
    assert tokens[1..] == values;
    WrittenValues(values, walk.variables, name, [name]);
    DeduplicatedOnce(values, []);
    assert [] + values == values && values + [] == values && walk.errors + [] == walk.errors;
  }

  /** set(<name> <value> CACHE <type> <text>) stores the value alone; with fewer arguments, or CACHE elsewhere, it is an error. */
  lemma CachedStores(walk: Walk, name: string, value: string, kind: string, text: string, targets: set<string>)
    requires HasNone(value, '$') && ActiveCondition(walk.stack) == True
    requires "PARENT_SCOPE" !in [name, value, "CACHE", kind, text] && name != "CACHE" && value != "CACHE"
    ensures Step(walk, Command(SetCommand, [name, value, "CACHE", kind, text]), targets)
         == walk.(variables := walk.variables[name := [value]])
    ensures var short := [name, value, "CACHE"];
            Step(walk, Command(SetCommand, short), targets) == walk.(errors := walk.errors + [UnsupportedSet(short)])
  {
    hide Expand, ActiveCondition;
    var tokens, short := [name, value, "CACHE", kind, text], [name, value, "CACHE"];
    CacheThird(tokens);
    CacheThird(short);
    WrittenValues([value], walk.variables, name, []);
    assert [] + [value] == [value] && [value][..0] == [] && Deduplicated([value]) == [value];
    assert walk.errors + [] == walk.errors;
    assert forall t :: t in short ==> t in tokens;
  }

  lemma CacheThird(tokens: seq<string>)
    requires |tokens| >= 3 && tokens[0] != "CACHE" && tokens[1] != "CACHE" && tokens[2] == "CACHE"
    ensures "CACHE" in tokens && FirstIndexOf(tokens, "CACHE") == 2
  {
    var second, third := tokens[1..], tokens[1..][1..];
    assert second[0] == tokens[1] && third[0] == tokens[2] && "CACHE" in third && "CACHE" in second;
    assert FirstIndexOf(third, "CACHE") == 0 && FirstIndexOf(second, "CACHE") == 1;
  }

  /** A variable cannot be set from itself: that is reported as a cycle. */
  lemma SelfReferenceIsReported(walk: Walk, name: string, targets: set<string>)
    requires IsName(name) && name !in {"CACHE", "PARENT_SCOPE"}
    ensures VariableCycle(name, [name, name]) in Step(walk, Command(SetCommand, [name, Quoted(name)]), targets).errors
  {
    var tokens := [name, Quoted(name)];
    assert tokens[1..] == [Quoted(name)] && [Quoted(name)][1..] == [];
    assert Quoted(name)[0] == '$' && "CACHE" !in tokens && "PARENT_SCOPE" !in tokens;
    QuotedIsExact(name);
    assert [name] + [name] == [name, name];
    ExpandSingle(name, walk.variables, name, [name]);
    assert Expand([Quoted(name)], walk.variables, name, [name]) == Expansion([], [VariableCycle(name, [name, name])]);
  }

  /** The declared targets are the first arguments of the three commands that declare one. */
  lemma TargetsAreDeclared(commands: seq<Command>, name: string)
    ensures name in Targets(commands) <==>
            exists c :: c in commands && c.kind in {AddLibrary, AddExecutable, AddCustomTarget} && IsFor(c, name)
  {
  }
}
