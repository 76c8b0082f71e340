/**
 The walk against the runs it stands for: without parse errors it covers the variables, references and
 dependencies of all of them.
*/
module CMakeSoundness {
  import opened Options
  import opened CMakeText
  import opened CMakeExpansion
  import opened CMakeWalk
  import opened CMakeConditions
  import opened CMakeExpressions
  import opened CMakeRuns

  // ----- what a program has to observe -----

  /** No command assigns a variable that the walk takes to be set outside the project. */
  predicate KeepsOpaque(commands: seq<Command>) {
    forall c :: c in commands ==> AssignsNoOpaque(c)
  }

  predicate AssignsNoOpaque(c: Command) {
    && (c.kind == SetCommand && c.tokens != [] ==> !IsOpaque(c.tokens[0]))
    && (c.kind == ListCommand && |c.tokens| >= 2 ==> !IsOpaque(c.tokens[1]))
  }

  /** The walk looks through the variables of this argument, wherever it reads it at all. */
  predicate Followed(kind: Kind, token: string) {
    || !Contains(token, "${")
    || kind.TargetLinkLibraries?
    || (kind.AddDependencies? && (Contains(token, "$<") || StartsWith(token, "${")))
    || (!kind.AddDependencies? && ObjectsOf(token).None? &&
        (Contains(token, "$<") || StartsWith(token, "${") || (token != "" && token[0] != '$')))
  }

  /** Names of variables and targets are written out, and every other argument is followed. */
  predicate NamesDirectly(c: Command) {
    || IsBranching(c.kind) || c.tokens == []
    || (!Contains(c.tokens[0], "${") &&
        (if c.kind.ListCommand? then |c.tokens| >= 2 ==> !Contains(c.tokens[1], "${")
         else c.kind.SetCommand? || c.kind.AddCustomTarget? || forall t :: t in c.tokens[1..] ==> Followed(c.kind, t)))
  }

  predicate AllNamesDirect(commands: seq<Command>) {
    forall c :: c in commands ==> NamesDirectly(c)
  }

  // ----- covering -----

  ghost predicate Covers(walked: Variables, run: Variables) {
    && (forall n :: n in walked ==> !IsOpaque(n))
    && (forall n :: n in run ==> n in walked && Elements(run[n]) <= Elements(walked[n]))
    && (forall n, x :: n in run && x in run[n] ==> IsInert(x))
  }

  /** With nothing undecided, both sides hold the same items. */
  ghost predicate Matches(walked: Variables, run: Variables) {
    && Covers(walked, run)
    && walked.Keys == run.Keys
    && (forall n :: n in walked ==> Elements(walked[n]) <= Elements(run[n]))
  }

  /** Unknown stands for either value. */
  predicate Allows(t: Truth, b: bool) {
    (t == True ==> b) && (t == False ==> !b)
  }

  predicate FrameAllows(f: Frame, r: RunFrame) {
    Allows(f.prior, r.taken) && Allows(f.active, r.active) && f.elseSeen == r.elseSeen
  }

  predicate StackAllows(walked: seq<Frame>, run: seq<RunFrame>) {
    |walked| == |run| && forall i :: 0 <= i < |walked| ==> FrameAllows(walked[i], run[i])
  }

  predicate Within(a: Relation, b: Relation) {
    forall t :: t in a ==> a[t] <= At(b, t)
  }

  predicate WithinTargets(a: Relation, b: Relation, targets: set<string>) {
    forall t :: t in a ==> a[t] * targets <= At(b, t)
  }

  ghost predicate CoversRun(walk: Walk, run: Run, targets: set<string>) {
    && Covers(walk.variables, run.variables)
    && StackAllows(walk.stack, run.stack)
    && WithinTargets(run.dependencies, walk.edges, targets)
    && Within(run.references, walk.references)
  }

  // ----- expansion covers evaluation -----

  lemma InertExpandsToItself(item: string, variables: Variables, context: string, stack: seq<string>)
    requires IsInert(item)
    requires forall n :: n in variables || n in stack ==> !IsOpaque(n)
    ensures ExpandValue(item, variables, context, stack) == Expansion([item], [])
  {
    var names := References(item);
    if ExactReference(item).None? && names != [] {
      assert item != "";
      InertEmbedded(item, item, names, variables, context, stack);
    } else if ExactReference(item).Some? {
      assert names[0] in names;
    }
  }

  lemma {:induction false} InertEmbedded(value: string, item: string, names: seq<string>, variables: Variables,
                                         context: string, stack: seq<string>)
    requires forall n :: n in names ==> IsOpaque(n)
    requires forall n :: n in variables || n in stack ==> !IsOpaque(n)
    ensures ExpandEmbedded(value, item, names, variables, context, stack)
         == Expansion(if item != "" then [item] else [], [])
    decreases |names|
  {
    if names != [] {
      assert IsOpaque(names[0]);
      ReplaceBySame(item, Quoted(names[0]));
      InertEmbedded(value, item, names[1..], variables, context, stack);
    }
  }

  /** An inert item among the values survives expansion. */
  lemma {:induction false} InertSurvives(values: seq<string>, x: string, variables: Variables, context: string,
                                         stack: seq<string>)
    requires x in values && IsInert(x)
    requires forall n :: n in variables || n in stack ==> !IsOpaque(n)
    ensures x in Expand(values, variables, context, stack).items
  {
    if values[0] == x {
      InertExpandsToItself(x, variables, context, stack);
    } else {
      InertSurvives(values[1..], x, variables, context, stack);
    }
  }

  lemma NameCovered(name: string, walked: Variables, run: Variables, context: string, stack: seq<string>)
    requires Covers(walked, run) && (forall n :: n in stack ==> !IsOpaque(n))
    requires ExpandName(name, walked, context, stack).errors == []
    ensures Elements(EvaluateName(name, run)) <= Elements(ExpandName(name, walked, context, stack).items)
  {
    if name in run {
      forall x | x in run[name] ensures x in ExpandName(name, walked, context, stack).items {
        assert x in Elements(walked[name]);
        InertSurvives(walked[name], x, walked, context, stack + [name]);
      }
    }
  }

  lemma {:induction false} EmbeddedCovered(value: string, substituted: string, names: seq<string>, walked: Variables,
                                           run: Variables, context: string, stack: seq<string>)
    requires Covers(walked, run) && (forall n :: n in stack ==> !IsOpaque(n))
    requires ExpandEmbedded(value, substituted, names, walked, context, stack).errors == []
    requires EvaluateEmbedded(substituted, names, run).supported
    ensures EvaluateEmbedded(substituted, names, run).items
         == ExpandEmbedded(value, substituted, names, walked, context, stack).items
    ensures forall x :: x in EvaluateEmbedded(substituted, names, run).items ==> IsInert(x)
    decreases |names|
  {
    hide IsInert, ReplaceFirst, ExpandName, EvaluateName;
    if names != [] {
      var items := EvaluateName(names[0], run);
      var replacement := ExpandName(names[0], walked, context, stack);
      NameCovered(names[0], walked, run, context, stack);
      assert items[0] in Elements(items);
      assert replacement.items[0] == items[0];
      EmbeddedCovered(value, ReplaceFirst(substituted, Quoted(names[0]), items[0]), names[1..], walked, run, context,
                      stack);
    }
  }

  predicate IsPlainName(name: string) {
    name != "" && forall k :: 0 <= k < |name| ==> name[k] !in {'$', ';', '{', '}'}
  }

  lemma SourceDirectories()
    ensures IsPlainName("CMAKE_CURRENT_BINARY_DIR")
    ensures IsPlainName("CMAKE_CURRENT_SOURCE_DIR")
    ensures IsPlainName("CIDX_CLANG_TIDY_EXECUTABLE")
  {
  }

  lemma ToolDirectories()
    ensures IsPlainName("_cidx_macos_sdk")
    ensures IsPlainName("CIDX_SOUFFLE_EXECUTABLE")
    ensures IsPlainName("CIDX_SOUFFLE_INCLUDE_DIR")
  {
  }

  lemma LibraryDirectories()
    ensures IsPlainName("LLVM_LIBRARY_DIR")
    ensures IsPlainName("LLVM_VERSION_MAJOR")
    ensures IsPlainName("_cidx_cmake_root")
    ensures IsPlainName("_cidx_llvm_cmakedir")
    ensures IsPlainName("CMAKE_DL_LIBS")
  {
  }

  lemma OpaqueNames(name: string)
    requires IsOpaque(name)
    ensures IsPlainName(name)
  {
    hide IsPlainName;
    SourceDirectories();
    ToolDirectories();
    LibraryDirectories();
  }

  lemma SecondOfMatch(s: string, p: string, i: nat)
    requires |p| >= 2 && IsAt(s, p, i)
    ensures i + 1 < |s| && s[i] == p[0] && s[i + 1] == p[1]
  {
    assert s[i..i + |p|][0] == s[i] && s[i..i + |p|][1] == s[i + 1];
  }

  lemma NotThere(s: string, p: string)
    requires |p| >= 2 && forall i :: 0 <= i < |s| - 1 ==> !(s[i] == p[0] && s[i + 1] == p[1])
    ensures !Contains(s, p)
  {
    forall i: nat | i <= |s| && IsAt(s, p, i) ensures false {
      SecondOfMatch(s, p, i);
    }
  }

  /** A reference to an external variable stays as it is written. */
  lemma OpaqueIsInert(name: string)
    requires IsOpaque(name)
    ensures IsInert(Quoted(name))
  {
    OpaqueNames(name);
    QuotedIsExact(name);
    var s := Quoted(name);
    assert s[1] == '{' && forall k :: 2 <= k < |s| - 1 ==> s[k] == name[k - 2];
    NotThere(s, "$ENV{");
    NotThere(s, "$CACHE{");
    forall i | 0 <= i < |s| && IsAt(s, "${", i) ensures ReferenceEnd(s, i).Some? {
      SecondOfMatch(s, "${", i);
      assert i == 0;
    }
  }

  lemma ValueCovered(value: string, walked: Variables, run: Variables, context: string, stack: seq<string>)
    requires Covers(walked, run) && (forall n :: n in stack ==> !IsOpaque(n))
    requires ExpandValue(value, walked, context, stack).errors == []
    requires EvaluateValue(value, run).supported
    ensures Elements(EvaluateValue(value, run).items) <= Elements(ExpandValue(value, walked, context, stack).items)
    ensures forall x :: x in EvaluateValue(value, run).items ==> IsInert(x)
  {
    hide IsClean, ItemsOf, EvaluateEmbedded, ExpandEmbedded, ExpandName;
    match ExactReference(value)
    case Some(name) =>
      NameCovered(name, walked, run, context, stack);
      if name !in run && IsOpaque(name) {
        OpaqueIsInert(name);
      }
    case None =>
      if References(value) != [] {
        EmbeddedCovered(value, value, References(value), walked, run, context, stack);
        EmbeddedIsWhole(value, References(value), run);
      } else {
        CleanIsOneItem(value);
      }
  }

  /** Without errors, expansion covers what any covered run computes. */
  lemma {:induction false} ExpansionCovers(values: seq<string>, walked: Variables, run: Variables, context: string,
                                           stack: seq<string>)
    requires Covers(walked, run) && (forall n :: n in stack ==> !IsOpaque(n))
    requires Expand(values, walked, context, stack).errors == []
    requires Evaluate(values, run).supported
    ensures Elements(Evaluate(values, run).items) <= Elements(Expand(values, walked, context, stack).items)
    ensures forall x :: x in Evaluate(values, run).items ==> IsInert(x)
  {
    if values != [] {
      var first, rest := ExpandValue(values[0], walked, context, stack), Expand(values[1..], walked, context, stack);
      assert first.errors + rest.errors == [];
      ValueCovered(values[0], walked, run, context, stack);
      ExpansionCovers(values[1..], walked, run, context, stack);
      forall x | x in Evaluate(values, run).items
        ensures IsInert(x) && x in Expand(values, walked, context, stack).items
      {
        if x in EvaluateValue(values[0], run).items {
          assert x in Elements(EvaluateValue(values[0], run).items);
          assert x in first.items;
        } else {
          assert x in Elements(Evaluate(values[1..], run).items);
          assert x in rest.items;
        }
      }
    }
  }

  // ----- references cover references -----

  lemma {:induction false} PlainReferencesInclude(tokens: seq<string>, token: string, context: string, truth: GenexTruth)
    requires PlainReferences(tokens, context).errors == []
    requires token in tokens && !Contains(token, "${") && IsShaped(token) && HasNone(token, ';')
    ensures ActualReference(token, truth) <= PlainReferences(tokens, context).names
  {
    hide IsShaped, PlainReference, ActualReference, HasNone;
    var head := if Contains(tokens[0], "${") then Found({}, []) else PlainReference(tokens[0], context);
    assert head.errors + PlainReferences(tokens[1..], context).errors == [];
    if tokens[0] == token {
      PlainReferenceCovers(token, context, truth);
    } else {
      PlainReferencesInclude(tokens[1..], token, context, truth);
    }
  }

  lemma ExpandOnly(token: string, variables: Variables, context: string)
    ensures Expand([token], variables, context, []) == ExpandValue(token, variables, context, [])
  {
    hide ExpandValue;
    assert [token][1..] == [];
    assert Expand([], variables, context, []) == Expansion([], []);
  }

  /** What an evaluated argument refers to is among the computed references of the argument. */
  lemma ReferenceCovers(token: string, walked: Variables, run: Variables, context: string, item: string, truth: GenexTruth)
    requires Covers(walked, run)
    requires Reference(token, walked, context).errors == []
    requires EvaluateValue(token, run).supported && item in EvaluateValue(token, run).items
    requires !Contains(item, "${") && IsShaped(item)
    ensures IsClean(item) && ActualReference(item, truth) <= Reference(token, walked, context).names
  {
    hide IsClean, Expand, ExpandValue, ActualReference, PlainReference, PlainReferences, IsShaped, Covers, EvaluateValue;
    if Contains(token, "${") {
      var expanded := Expand([token], walked, context, []);
      ExpandOnly(token, walked, context);
      assert expanded.errors + PlainReferences(expanded.items, context).errors == [];
      ValueCovered(token, walked, run, context, []);
      assert item in Elements(EvaluateValue(token, run).items);
      WordRefersToItself(item, truth);
      PlainReferencesInclude(expanded.items, item, context, truth);
    } else {
      PlainEvaluates(token, run);
      WordRefersToItself(token, truth);
      PlainReferenceCovers(token, context, truth);
    }
  }

  // ----- errors are never forgotten -----

  lemma {:induction false} TokensKeepErrors(walk: Walk, kind: Kind, target: string, tokens: seq<string>, targets: set<string>)
    ensures walk.errors <= TargetTokens(walk, kind, target, tokens, targets).errors
    decreases |tokens|
  {
    hide TargetToken;
    if tokens != [] {
      TokenGrows(walk, kind, target, tokens[0], targets);
      TokensKeepErrors(TargetToken(walk, kind, target, tokens[0], targets), kind, target, tokens[1..], targets);
    }
  }

  lemma SetKeepsErrors(walk: Walk, tokens: seq<string>, form: SetForm)
    requires tokens != [] && (form.Bare? <==> |tokens| == 1)
    ensures walk.errors <= StepSetAs(walk, tokens, form).errors
    ensures StepSetAs(walk, tokens, form).errors == walk.errors + SetExpansion(walk, tokens, form).errors
  {
  }

  lemma StepKeepsErrors(walk: Walk, command: Command, targets: set<string>)
    ensures walk.errors <= Step(walk, command, targets).errors
  {
    var tokens := command.tokens;
    if IsBranching(command.kind) || tokens == [] || command.kind.ListCommand? {
    } else if command.kind.SetCommand? {
      SetKeepsErrors(walk, tokens, FormOf(tokens));
    } else {
      TokensKeepErrors(walk, command.kind, tokens[0], tokens[1..], targets);
    }
  }

  lemma {:induction false} WalkKeepsErrors(walk: Walk, commands: seq<Command>, targets: set<string>)
    ensures walk.errors <= WalkFrom(walk, commands, targets).errors
    decreases |commands|
  {
    if commands != [] {
      StepKeepsErrors(walk, commands[0], targets);
      WalkKeepsErrors(Step(walk, commands[0], targets), commands[1..], targets);
    }
  }

  // ----- one step -----

  lemma ActiveAllows(walked: seq<Frame>, run: seq<RunFrame>)
    requires StackAllows(walked, run)
    ensures Allows(ActiveCondition(walked), Executing(run))
  {
    if ActiveCondition(walked) == False {
      var f :| f in walked && f.active == False;
      var i :| 0 <= i < |walked| && walked[i] == f;
      assert FrameAllows(walked[i], run[i]);
      assert run[i] in run && !run[i].active;
    } else if ActiveCondition(walked) == True {
      forall r | r in run ensures r.active {
        var i :| 0 <= i < |run| && run[i] == r;
        assert FrameAllows(walked[i], run[i]);
        assert walked[i] in walked;
      }
    }
  }

  /** The run after an assignment. */
  function Assigning(run: Run, name: string, items: seq<string>): Run {
    run.(variables := run.variables[name := items])
  }

  lemma AssignmentCovered(walk: Walk, run: Run, targets: set<string>, name: string, kept: seq<string>, earlier: seq<string>,
                          expansion: Expansion, items: seq<string>)
    requires CoversRun(walk, run, targets) && !IsOpaque(name)
    requires ActiveCondition(walk.stack) != False
    requires Elements(earlier) <= Elements(kept)
    requires forall x :: x in earlier ==> IsInert(x)
    requires Elements(items) <= Elements(expansion.items)
    requires forall x :: x in items ==> IsInert(x)
    ensures CoversRun(Assigned(walk, name, kept, expansion), Assigning(run, name, earlier + items), targets)
  {
    forall x | x in earlier + items ensures IsInert(x) && x in kept + expansion.items {
      if x in earlier {
        assert x in Elements(earlier);
      } else {
        assert x in Elements(items);
      }
    }
    assert Elements(earlier + items) <= Elements(Deduplicated(kept + expansion.items));
  }

  /** An assignment the run skips is covered when the walk knows that or keeps the earlier items. */
  lemma SkippedAssignmentCovered(walk: Walk, run: Run, targets: set<string>, name: string, kept: seq<string>,
                                 expansion: Expansion)
    requires CoversRun(walk, run, targets) && !IsOpaque(name)
    requires ActiveCondition(walk.stack) != False ==> Elements(Values(walk.variables, name)) <= Elements(kept)
    ensures CoversRun(Assigned(walk, name, kept, expansion), run, targets)
  {
    var next := Assigned(walk, name, kept, expansion).variables;
    forall n | n in run.variables ensures n in next && Elements(run.variables[n]) <= Elements(next[n]) {
      if n == name && ActiveCondition(walk.stack) != False {
        assert Elements(walk.variables[n]) <= Elements(kept) <= Elements(kept + expansion.items);
      }
    }
  }

  lemma AppendOf(run: Run, name: string, values: seq<string>)
    ensures RunAppend(run, ["APPEND"] + ([name] + values)) == Assigning(run, name, Values(run.variables, name) + values)
  {
    var arguments := ["APPEND"] + ([name] + values);
    assert arguments[0] == "APPEND" && arguments[1] == name && arguments[2..] == values;
  }

  /** What `list(APPEND)` leaves in a run: its name is written out, its values are evaluated. */
  lemma AppendRuns(run: Run, tokens: seq<string>)
    requires |tokens| >= 2 && tokens[0] == "APPEND" && !Contains(tokens[1], "${")
    requires Evaluate(tokens, run.variables).supported
    ensures var arguments, values := Evaluate(tokens, run.variables), Evaluate(tokens[2..], run.variables);
            && RunAppend(run, arguments.items) == Assigning(run, tokens[1], Values(run.variables, tokens[1]) + values.items)
            && values.supported && arguments.items != []
  {
    hide Evaluate, Contains, RunAppend, Values, IsClean;
    NoReferenceInWords();
    PlainHead(tokens, run.variables);
    PlainHead(tokens[1..], run.variables);
    assert tokens[1..][1..] == tokens[2..];
    AppendOf(run, tokens[1], Evaluate(tokens[2..], run.variables).items);
  }

  lemma NoReferenceInWords()
    ensures !Contains("APPEND", "${") && !Contains("CACHE", "${") && IsClean("CACHE")
  {
    assert HasNone("APPEND", '$') && HasNone("CACHE", '$') && HasNone("CACHE", ';');
    NoDollar("APPEND", "${");
    NoDollar("CACHE", "${");
    WordIsClean("CACHE");
  }

  lemma WordIsClean(s: string)
    requires s != "" && HasNone(s, '$') && HasNone(s, ';')
    ensures IsClean(s)
  {
    NoDollar(s, "${");
    NoDollar(s, "$ENV{");
    NoDollar(s, "$CACHE{");
  }

  lemma FirstOfMatch(s: string, p: string, i: nat)
    requires p != "" && IsAt(s, p, i)
    ensures i < |s| && s[i] == p[0]
  {
    assert s[i..i + |p|][0] == s[i];
  }

  lemma NoDollar(s: string, p: string)
    requires p != "" && p[0] == '$' && forall i :: 0 <= i < |s| ==> s[i] != '$'
    ensures !Contains(s, p)
  {
    forall i: nat | i <= |s| && IsAt(s, p, i) ensures i < |s| && s[i] == '$' {
      FirstOfMatch(s, p, i);
    }
  }

  lemma ListCovered(walk: Walk, run: Run, targets: set<string>, tokens: seq<string>)
    requires CoversRun(walk, run, targets) && tokens != [] && ActiveCondition(walk.stack) != False
    requires AssignsNoOpaque(Command(ListCommand, tokens)) && NamesDirectly(Command(ListCommand, tokens))
    requires StepList(walk, tokens).errors == [] && Evaluate(tokens, run.variables).supported
    ensures CoversRun(StepList(walk, tokens), RunAppend(run, Evaluate(tokens, run.variables).items), targets)
    ensures Evaluate(tokens, run.variables).items != []
  {
    assert |tokens| >= 3 && tokens[0] == "APPEND";
    var name, kept := tokens[1], Values(walk.variables, tokens[1]);
    var expansion := Expand(tokens[2..], walk.variables, tokens[0], []);
    assert walk.errors + expansion.errors == [];
    AppendRuns(run, tokens);
    ExpansionCovers(tokens[2..], walk.variables, run.variables, tokens[0], []);
    AssignmentCovered(walk, run, targets, name, kept, Values(run.variables, name), expansion,
                      Evaluate(tokens[2..], run.variables).items);
  }

  lemma SkippedListCovered(walk: Walk, run: Run, targets: set<string>, tokens: seq<string>)
    requires CoversRun(walk, run, targets) && tokens != []
    requires AssignsNoOpaque(Command(ListCommand, tokens)) && StepList(walk, tokens).errors == []
    ensures CoversRun(StepList(walk, tokens), run, targets)
  {
    assert |tokens| >= 3 && tokens[0] == "APPEND";
    SkippedAssignmentCovered(walk, run, targets, tokens[1], Values(walk.variables, tokens[1]),
                             Expand(tokens[2..], walk.variables, tokens[0], []));
  }

  /** What a supported `set` leaves in a run: the forms that have a meaning store the evaluated values. */
  lemma SetRuns(run: Run, tokens: seq<string>)
    requires tokens != [] && !Contains(tokens[0], "${") && Evaluate(tokens, run.variables).supported
    ensures var arguments, values := Evaluate(tokens, run.variables), Evaluate(tokens[1..], run.variables);
            && arguments.items == [tokens[0]] + values.items && values.supported
            && (RunSet(run, arguments.items).supported && run.supported ==>
                  RunSet(run, arguments.items) == Assigning(run, tokens[0], values.items))
  {
    hide FormOf, Evaluate;
    PlainHead(tokens, run.variables);
    var items, values := Evaluate(tokens, run.variables).items, Evaluate(tokens[1..], run.variables).items;
    assert items[1..] == values;
  }

  /** A cached `set` is still one when it is evaluated, so no supported run executes it. */
  lemma CachedStays(tokens: seq<string>, run: Run)
    requires tokens != [] && !Contains(tokens[0], "${") && FormOf(tokens).Cached?
    requires Evaluate(tokens, run.variables).supported
    ensures Evaluate(tokens, run.variables).items != [] && !RunSet(run, Evaluate(tokens, run.variables).items).supported
  {
    hide Evaluate, IsClean, Contains;
    var items := Evaluate(tokens, run.variables).items;
    assert tokens[0] != "CACHE" && "CACHE" in tokens[1..] by {
      CacheBehind(tokens);
    }
    NoReferenceInWords();
    PlainStays(tokens[1..], "CACHE", run.variables);
    PlainHead(tokens, run.variables);
    assert |items| > 1 && "CACHE" in items;
  }

  lemma CacheBehind(tokens: seq<string>)
    requires tokens != [] && FormOf(tokens).Cached?
    ensures tokens[0] != "CACHE" && "CACHE" in tokens[1..]
  {
    assert tokens == [tokens[0]] + tokens[1..];
  }

  lemma SetCovered(walk: Walk, run: Run, targets: set<string>, tokens: seq<string>, form: SetForm)
    requires CoversRun(walk, run, targets) && tokens != [] && form == FormOf(tokens) && run.supported
    requires !IsOpaque(tokens[0]) && !Contains(tokens[0], "${") && ActiveCondition(walk.stack) != False
    requires StepSetAs(walk, tokens, form).errors == [] && Evaluate(tokens, run.variables).supported
    requires Evaluate(tokens, run.variables).items != [] ==> RunSet(run, Evaluate(tokens, run.variables).items).supported
    ensures Evaluate(tokens, run.variables).items != []
    ensures CoversRun(StepSetAs(walk, tokens, form), RunSet(run, Evaluate(tokens, run.variables).items), targets)
  {
    var name, values := tokens[0], Evaluate(tokens[1..], run.variables).items;
    var expansion := SetExpansion(walk, tokens, form);
    SetKeepsErrors(walk, tokens, form);
    SetRuns(run, tokens);
    if form.Cached? {
      CachedStays(tokens, run);
    }
    if form.Plain? {
      ExpansionCovers(tokens[1..], walk.variables, run.variables, name, [name]);
    } else {
      assert values == [];
    }
    AssignmentCovered(walk, run, targets, name, Kept(walk, name), [], expansion, values);
    assert [] + values == values;
  }

  lemma SkippedSetCovered(walk: Walk, run: Run, targets: set<string>, tokens: seq<string>, form: SetForm)
    requires CoversRun(walk, run, targets) && tokens != [] && (form.Bare? <==> |tokens| == 1)
    requires !IsOpaque(tokens[0]) && ActiveCondition(walk.stack) != True
    requires StepSetAs(walk, tokens, form).errors == []
    ensures CoversRun(StepSetAs(walk, tokens, form), run, targets)
  {
    SetKeepsErrors(walk, tokens, form);
    SkippedAssignmentCovered(walk, run, targets, tokens[0], Kept(walk, tokens[0]), SetExpansion(walk, tokens, form));
  }

  // ----- the arguments of a target -----

  /** The walk after an argument records everything an evaluated item of it refers to. */
  ghost predicate RecordsItem(next: Walk, kind: Kind, target: string, item: string, targets: set<string>, truth: GenexTruth) {
    && ItemReferences(kind, item, truth) <= At(next.references, target)
    && ItemDependencies(kind, item) * targets <= At(next.edges, target)
  }

  /** The walk only ever adds edges and references. */
  ghost predicate Grows(walk: Walk, next: Walk) {
    && next.variables == walk.variables && next.stack == walk.stack && walk.errors <= next.errors
    && (forall t :: At(walk.edges, t) <= At(next.edges, t))
    && (forall t :: At(walk.references, t) <= At(next.references, t))
  }

  lemma AddedGrows(relation: Relation, key: string, names: set<string>)
    ensures forall t :: At(relation, t) <= At(Added(relation, key, names), t)
    ensures names <= At(Added(relation, key, names), key)
  {
  }

  lemma LinkGrows(walk: Walk, target: string, token: string)
    ensures Grows(walk, LinkToken(walk, target, token))
  {
    hide Reference;
  }

  lemma DependencyGrows(walk: Walk, target: string, token: string, targets: set<string>)
    ensures Grows(walk, DependencyToken(walk, target, token, targets))
  {
    hide Reference, Contains, StartsWith;
  }

  lemma SourceGrows(walk: Walk, target: string, token: string, targets: set<string>)
    ensures Grows(walk, SourceToken(walk, target, token, targets))
  {
    hide Reference, Contains, StartsWith, ObjectsOf, IsSourcePath, At, Added, Find, PlainReference;
    var found := Reference(token, walk.variables, target);
    var names := match ObjectsOf(token) case Some(library) => {library} case None => found.names;
    AddedGrows(walk.references, target, names);
    AddedGrows(walk.edges, target, names);
    AddedGrows(walk.edges, target, names * targets);
  }

  lemma TokenGrows(walk: Walk, kind: Kind, target: string, token: string, targets: set<string>)
    ensures Grows(walk, TargetToken(walk, kind, target, token, targets))
  {
    hide LinkToken, DependencyToken, SourceToken;
    LinkGrows(walk, target, token);
    DependencyGrows(walk, target, token, targets);
    SourceGrows(walk, target, token, targets);
  }

  /** A shaped reference to the objects of a library. */
  lemma ObjectsShaped(token: string, truth: GenexTruth)
    requires ObjectsOf(token).Some? && IsShaped(token)
    ensures ActualReference(token, truth) <= {ObjectsOf(token).value}
  {
    hide Split, CloseFrom;
    var library := ObjectsOf(token).value;
    assert IsAt(token, "$<", 0) by {
      assert token[0..2] == token[..2 + |OBJECTS|][..2] == ("$<" + OBJECTS)[..2] == "$<";
    }
    OneExpression(token, truth);
    var inner := token[2..|token| - 1];
    assert inner[0..|OBJECTS|] == token[0..2 + |OBJECTS|][2..] == OBJECTS;
    assert inner[|OBJECTS|..] == library;
    NoExpression(library, truth);
    NothingMeans(truth);
  }

  /** A text keeps its first character when that is no dollar sign: only references are replaced. */
  lemma {:induction false} FirstStays(substituted: string, names: seq<string>, variables: Variables, item: string)
    requires substituted != "" && substituted[0] != '$' && item in EvaluateEmbedded(substituted, names, variables).items
    ensures item != "" && item[0] == substituted[0]
    decreases |names|
  {
    if names != [] {
      var text := Semicolons(EvaluateName(names[0], variables));
      FirstOfReplaced(substituted, Quoted(names[0]), text);
      FirstStays(ReplaceFirst(substituted, Quoted(names[0]), text), names[1..], variables, item);
    }
  }

  lemma FirstOfReplaced(s: string, p: string, r: string)
    requires s != "" && p != "" && s[0] != p[0]
    ensures ReplaceFirst(s, p, r) != "" && ReplaceFirst(s, p, r)[0] == s[0]
  {
    var found := Find(s, p, 0);
    if found.Some? {
      FirstOfMatch(s, p, found.value);
    }
  }

  lemma PathHoldsNoExpression(token: string, variables: Variables, item: string)
    requires token != "" && token[0] != '$' && !Contains(token, "$<")
    requires EvaluateValue(token, variables).supported && item in EvaluateValue(token, variables).items && IsShaped(item)
    ensures !Contains(item, "$<")
  {
    hide Contains, EvaluateEmbedded;
    if References(token) != [] {
      EmbeddedIsWhole(token, References(token), variables);
      FirstStays(token, References(token), variables, item);
    } else {
      CleanIsOneItem(token);
    }
    if Contains(item, "$<") {
      ShapedStartsWithDollar(item);
    }
  }

  lemma ShapedStartsWithDollar(item: string)
    requires IsShaped(item) && Contains(item, "$<")
    ensures item != "" && item[0] == '$'
  {
    FirstOfMatch(item, "$<", 0);
  }

  lemma VisibilityIsPlain(token: string)
    requires token in VISIBILITY
    ensures !Contains(token, "${") && !Contains(token, "$<") && ObjectsOf(token).None?
  {
    assert token in ["PUBLIC", "PRIVATE", "INTERFACE"];
    assert forall i :: 0 <= i < |token| ==> token[i] != '$';
    NoDollar(token, "${");
    NoDollar(token, "$<");
    NoDollar(token, "$<" + OBJECTS);
    assert !IsAt(token, "$<" + OBJECTS, 0);
  }

  lemma LinkRecords(walk: Walk, run: Variables, target: string, token: string, item: string, targets: set<string>, truth: GenexTruth)
    requires Covers(walk.variables, run) && LinkToken(walk, target, token).errors == []
    requires EvaluateValue(token, run).supported && item in EvaluateValue(token, run).items && IsReadable(item)
    ensures RecordsItem(LinkToken(walk, target, token), TargetLinkLibraries, target, item, targets, truth)
  {
    if token in VISIBILITY {
      VisibilityIsPlain(token);
      PlainEvaluates(token, run);
    } else if NamesTarget(item) {
      assert walk.errors + Reference(token, walk.variables, target).errors == [];
      ReferenceCovers(token, walk.variables, run, target, item, truth);
    }
  }

  lemma DependencyRecords(walk: Walk, run: Variables, target: string, token: string, item: string, targets: set<string>,
                          truth: GenexTruth)
    requires Covers(walk.variables, run) && DependencyToken(walk, target, token, targets).errors == []
    requires EvaluateValue(token, run).supported && item in EvaluateValue(token, run).items && IsReadable(item)
    requires Followed(AddDependencies, token)
    ensures RecordsItem(DependencyToken(walk, target, token, targets), AddDependencies, target, item, targets, truth)
  {
    hide Reference, EvaluateValue, ObjectsOf, Inner, Split, At, Added, Covers, ActualReference, IsShaped, IsClean;
    var found := Reference(token, walk.variables, target);
    AddedGrows(walk.references, target, found.names);
    AddedGrows(walk.edges, target, found.names * targets);
    AddedGrows(walk.edges, target, {token});
    if token in VISIBILITY {
      VisibilityIsPlain(token);
      PlainEvaluates(token, run);
    } else if Contains(token, "$<") || StartsWith(token, "${") {
      if NamesTarget(item) {
        assert walk.errors + Reference(token, walk.variables, target).errors == [];
        ReferenceCovers(token, walk.variables, run, target, item, truth);
        WordRefersToItself(item, truth);
      }
    } else {
      PlainEvaluates(token, run);
    }
  }

  lemma WordRefersToItself(item: string, truth: GenexTruth)
    requires IsClean(item)
    ensures HasNone(item, ';')
    ensures !Contains(item, "$<") ==> ActualReference(item, truth) == {item}
  {
    if !Contains(item, "$<") {
      NoExpression(item, truth);
      OneItem(item);
      assert Elements([item]) == {item};
    }
  }

  lemma SourceRecords(walk: Walk, run: Variables, kind: Kind, target: string, token: string, item: string, targets: set<string>,
                      truth: GenexTruth)
    requires kind in {AddLibrary, AddExecutable, TargetSources}
    requires Covers(walk.variables, run) && SourceToken(walk, target, token, targets).errors == []
    requires EvaluateValue(token, run).supported && item in EvaluateValue(token, run).items && IsReadable(item)
    requires Followed(kind, token)
    ensures RecordsItem(SourceToken(walk, target, token, targets), kind, target, item, targets, truth)
  {
    hide ActualReference, Reference, EvaluateValue, IsShaped, IsClean;
    if ObjectsOf(token).Some? {
      PlainEvaluates(token, run);
      if NamesTarget(item) {
        ObjectsShaped(token, truth);
      }
    } else if Contains(token, "$<") || StartsWith(token, "${") {
      if NamesTarget(item) {
        assert walk.errors + Reference(token, walk.variables, target).errors == [];
        ReferenceCovers(token, walk.variables, run, target, item, truth);
      }
    } else if Contains(token, "${") {
      if NamesTarget(item) {
        PathHoldsNoExpression(token, run, item);
      }
    } else {
      PlainEvaluates(token, run);
    }
  }

  lemma TokenRecords(walk: Walk, run: Variables, kind: Kind, target: string, token: string, item: string, targets: set<string>,
                     truth: GenexTruth)
    requires kind in {TargetLinkLibraries, AddDependencies, AddLibrary, AddExecutable, TargetSources}
    requires Covers(walk.variables, run) && TargetToken(walk, kind, target, token, targets).errors == []
    requires EvaluateValue(token, run).supported && item in EvaluateValue(token, run).items && IsReadable(item)
    requires Followed(kind, token)
    ensures RecordsItem(TargetToken(walk, kind, target, token, targets), kind, target, item, targets, truth)
  {
    hide RecordsItem, LinkToken, DependencyToken, SourceToken, Followed, EvaluateValue;
    if kind.TargetLinkLibraries? {
      LinkRecords(walk, run, target, token, item, targets, truth);
    } else if kind.AddDependencies? {
      DependencyRecords(walk, run, target, token, item, targets, truth);
    } else {
      SourceRecords(walk, run, kind, target, token, item, targets, truth);
    }
  }

  /** Items that the walk has recorded are covered, whatever else the run has established before. */
  lemma {:induction false} RecordedItemsCovered(walk: Walk, run: Run, kind: Kind, target: string, items: seq<string>,
                                                targets: set<string>, world: World)
    requires CoversRun(walk, run, targets)
    requires forall x :: x in items ==> RecordsItem(walk, kind, target, x, targets, world.truth)
    ensures CoversRun(walk, RunItems(run, kind, target, items, world), targets)
    decreases |items|
  {
    hide ItemReferences, ItemDependencies, OuterReferences, IsReadable, Covers, StackAllows;
    if items != [] {
      assert RecordsItem(walk, kind, target, items[0], targets, world.truth);
      RecordedItemsCovered(walk, RunItem(run, kind, target, items[0], world), kind, target, items[1..], targets, world);
    }
  }

  lemma TokenKeepsCover(walk: Walk, run: Run, kind: Kind, target: string, token: string, targets: set<string>)
    requires CoversRun(walk, run, targets)
    ensures CoversRun(TargetToken(walk, kind, target, token, targets), run, targets)
  {
    hide TargetToken, Covers, StackAllows;
    TokenGrows(walk, kind, target, token, targets);
  }

  lemma {:induction false} TokensCovered(walk: Walk, run: Run, kind: Kind, target: string, tokens: seq<string>,
                                         targets: set<string>, world: World)
    requires CoversRun(walk, run, targets)
    requires kind in {TargetLinkLibraries, AddDependencies, AddLibrary, AddExecutable, TargetSources}
    requires TargetTokens(walk, kind, target, tokens, targets).errors == []
    requires Evaluate(tokens, run.variables).supported && forall t :: t in tokens ==> Followed(kind, t)
    requires AllReadable(Evaluate(tokens, run.variables).items)
    ensures CoversRun(TargetTokens(walk, kind, target, tokens, targets),
                      RunItems(run, kind, target, Evaluate(tokens, run.variables).items, world), targets)
    decreases |tokens|
  {
    hide TargetToken, Followed, EvaluateValue;
    if tokens != [] {
      var next := TargetToken(walk, kind, target, tokens[0], targets);
      var first := EvaluateValue(tokens[0], run.variables).items;
      var rest := Evaluate(tokens[1..], run.variables).items;
      TokensKeepErrors(next, kind, target, tokens[1..], targets);
      TokenKeepsCover(walk, run, kind, target, tokens[0], targets);
      forall x | x in first ensures RecordsItem(next, kind, target, x, targets, world.truth) {
        TokenRecords(walk, run.variables, kind, target, tokens[0], x, targets, world.truth);
      }
      ReadableParts(first, rest);
      RecordedItemsCovered(next, run, kind, target, first, targets, world);
      var nextRun := RunItems(run, kind, target, first, world);
      RunItemsKeeps(run, kind, target, first, world);
      TokensCovered(next, nextRun, kind, target, tokens[1..], targets, world);
      RunItemsOfSum(run, kind, target, first, rest, world);
    }
  }

  lemma ReadableParts(a: seq<string>, b: seq<string>)
    ensures AllReadable(a + b) <==> AllReadable(a) && AllReadable(b)
  {
    hide IsReadable;
    assert forall x :: x in a + b <==> x in a || x in b;
  }

  /** Target commands are recorded in every branch, so a run that skips one is still covered. */
  lemma {:induction false} SkippedTokensCovered(walk: Walk, run: Run, kind: Kind, target: string, tokens: seq<string>,
                                                targets: set<string>)
    requires CoversRun(walk, run, targets)
    ensures CoversRun(TargetTokens(walk, kind, target, tokens, targets), run, targets)
    decreases |tokens|
  {
    hide TargetToken, CoversRun;
    if tokens != [] {
      TokenKeepsCover(walk, run, kind, target, tokens[0], targets);
      SkippedTokensCovered(TargetToken(walk, kind, target, tokens[0], targets), run, kind, target, tokens[1..], targets);
    }
  }

  lemma SkippedStepCovered(walk: Walk, run: Run, command: Command, targets: set<string>)
    requires CoversRun(walk, run, targets) && AssignsNoOpaque(command) && !IsBranching(command.kind)
    requires Step(walk, command, targets).errors == []
    requires command.kind.AddCustomTarget? || ActiveCondition(walk.stack) != True
    ensures CoversRun(Step(walk, command, targets), run, targets)
  {
    hide CoversRun;
    var tokens := command.tokens;
    if tokens == [] {
    } else if command.kind.ListCommand? {
      SkippedListCovered(walk, run, targets, tokens);
    } else if command.kind.SetCommand? {
      SkippedSetCovered(walk, run, targets, tokens, FormOf(tokens));
    } else {
      SkippedTokensCovered(walk, run, command.kind, tokens[0], tokens[1..], targets);
    }
  }

  lemma ExecutedStepCovered(walk: Walk, run: Run, command: Command, targets: set<string>, world: World)
    requires CoversRun(walk, run, targets) && AssignsNoOpaque(command) && NamesDirectly(command) && !IsBranching(command.kind)
    requires Step(walk, command, targets).errors == [] && run.supported && ActiveCondition(walk.stack) != False
    requires Evaluate(command.tokens, run.variables).supported && !command.kind.AddCustomTarget?
    requires Executed(run, command.kind, Evaluate(command.tokens, run.variables).items, world).supported
    ensures CoversRun(Step(walk, command, targets),
                      Executed(run, command.kind, Evaluate(command.tokens, run.variables).items, world), targets)
  {
    hide CoversRun, Followed, RunAppend, RunSet;
    var tokens := command.tokens;
    if tokens == [] {
    } else if command.kind.ListCommand? {
      assert command == Command(ListCommand, tokens);
      ListCovered(walk, run, targets, tokens);
    } else if command.kind.SetCommand? {
      SetCovered(walk, run, targets, tokens, FormOf(tokens));
    } else {
      PlainHead(tokens, run.variables);
      var items := Evaluate(tokens, run.variables).items;
      assert items[1..] == Evaluate(tokens[1..], run.variables).items;
      RunItemsKeeps(run, command.kind, tokens[0], items[1..], world);
      TokensCovered(walk, run, command.kind, tokens[0], tokens[1..], targets, world);
    }
  }

  lemma StepCovered(walk: Walk, run: Run, command: Command, targets: set<string>, choice: bool, world: World)
    requires CoversRun(walk, run, targets) && AssignsNoOpaque(command) && NamesDirectly(command)
    requires Step(walk, command, targets).errors == []
    requires RunStep(run, command, choice, world).supported
    ensures CoversRun(Step(walk, command, targets), RunStep(run, command, choice, world), targets)
  {
    hide Step, Covers, Within, WithinTargets, Executed, Evaluate, NamesDirectly, AssignsNoOpaque;
    if IsBranching(command.kind) {
      BranchCovered(walk, run, command, targets, choice, world);
    } else {
      ActiveAllows(walk.stack, run.stack);
      if !Executing(run.stack) {
        SkippedStepCovered(walk, run, command, targets);
      } else {
        StepKeepsUnsupported(run, command, choice, world);
        var items := Evaluate(command.tokens, run.variables).items;
        assert run.(supported := run.supported && Evaluate(command.tokens, run.variables).supported) == run;
        if command.kind.AddCustomTarget? {
          CustomTargetRuns(run, items, world);
          SkippedStepCovered(walk, run, command, targets);
        } else {
          ExecutedStepCovered(walk, run, command, targets, world);
        }
      }
    }
  }

  lemma CustomTargetRuns(run: Run, items: seq<string>, world: World)
    ensures Executed(run, AddCustomTarget, items, world) == run
  {
  }

  lemma BranchCovered(walk: Walk, run: Run, command: Command, targets: set<string>, choice: bool, world: World)
    requires CoversRun(walk, run, targets) && IsBranching(command.kind)
    ensures CoversRun(Step(walk, command, targets), RunStep(run, command, choice, world), targets)
  {
    hide Condition, Constant;
    var condition := Condition(command.tokens);
    ConditionIsConstant(command.tokens);
    BranchStackAllows(walk.stack, run.stack, command.kind, condition, Decide(command.tokens, choice));
  }

  lemma BranchStackAllows(walked: seq<Frame>, run: seq<RunFrame>, kind: Kind, condition: Truth, decided: bool)
    requires StackAllows(walked, run) && IsBranching(kind) && Allows(condition, decided)
    ensures StackAllows(BranchedStack(walked, kind, condition), BranchedRun(run, kind, decided))
  {
    if walked != [] && !kind.If? {
      var last := |walked| - 1;
      var top, actual := walked[last], run[last];
      assert FrameAllows(top, actual);
      if kind.ElseIf? {
        ReplacedTopAllows(walked, run,
                          Frame(PriorAfter(top.prior, condition), SiblingActive(top.prior, condition), false),
                          RunFrame(actual.taken || decided, !actual.taken && decided, false));
      } else if kind.Else? {
        ReplacedTopAllows(walked, run, Frame(top.prior, Negated(top.prior), true),
                          RunFrame(actual.taken, !actual.taken, true));
      }
    }
  }

  lemma ReplacedTopAllows(walked: seq<Frame>, run: seq<RunFrame>, f: Frame, r: RunFrame)
    requires StackAllows(walked, run) && walked != [] && FrameAllows(f, r)
    ensures StackAllows(walked[..|walked| - 1] + [f], run[..|run| - 1] + [r])
  {
  }

  // ----- the theorem -----

  lemma {:induction false} WalkCovers(walk: Walk, run: Run, commands: seq<Command>, targets: set<string>,
                                      choices: nat -> bool, position: nat, world: World)
    requires CoversRun(walk, run, targets) && KeepsOpaque(commands) && AllNamesDirect(commands)
    requires WalkFrom(walk, commands, targets).errors == []
    requires RunFrom(run, commands, choices, position, world).supported
    ensures CoversRun(WalkFrom(walk, commands, targets), RunFrom(run, commands, choices, position, world), targets)
    decreases |commands|
  {
    hide CoversRun, Step, RunStep, AssignsNoOpaque, NamesDirectly;
    if commands != [] {
      var next := Step(walk, commands[0], targets);
      var nextRun := RunStep(run, commands[0], choices(position), world);
      WalkKeepsErrors(next, commands[1..], targets);
      RunKeepsUnsupported(nextRun, commands[1..], choices, position + 1, world);
      StepCovered(walk, run, commands[0], targets, choices(position), world);
      WalkCovers(next, nextRun, commands[1..], targets, choices, position + 1, world);
    }
  }

  /** Each variable's items, each target's references and each target's dependencies are among the computed ones. */
  ghost predicate CoveredBy(run: Run, graph: Walk, targets: set<string>) {
    && (forall n :: n in run.variables ==> n in graph.variables && Elements(run.variables[n]) <= Elements(graph.variables[n]))
    && Within(run.references, graph.references)
    && (forall t :: ActualDependencies(run, t, targets) <= At(graph.edges, t))
  }

  /** The dependencies that the values of external variables make are among the computed ones. */
  ghost predicate OuterCovered(run: Run, graph: Walk, targets: set<string>) {
    forall t :: At(run.outer, t) * targets <= At(graph.edges, t)
  }

  lemma CompletedCovers(walk: Walk, run: Run, targets: set<string>)
    requires CoversRun(walk, run, targets)
    ensures CoveredBy(run, Completed(walk, targets), targets) <==> OuterCovered(run, Completed(walk, targets), targets)
  {
    var graph := Completed(walk, targets);
    forall t ensures (At(run.dependencies, t) + At(run.references, t)) * targets <= At(graph.edges, t) {
      assert At(run.dependencies, t) * targets <= At(walk.edges, t);
      assert At(run.references, t) <= At(walk.references, t);
    }
    forall t ensures ActualDependencies(run, t, targets)
                  == (At(run.dependencies, t) + At(run.references, t)) * targets + At(run.outer, t) * targets {
    }
    if CoveredBy(run, graph, targets) {
      forall t ensures At(run.outer, t) * targets <= At(graph.edges, t) {
        assert ActualDependencies(run, t, targets) <= At(graph.edges, t);
      }
    }
  }

  /**
   If no parse error is recorded, no external variable is assigned and names are written out, then a supported run,
   however it decides the unknown conditions, is covered if and only if no value of an external variable makes a
   dependency that the walk has not found otherwise.
  */
  lemma GraphIsSound(commands: seq<Command>, choices: nat -> bool, world: World)
    requires KeepsOpaque(commands) && AllNamesDirect(commands) && Graph(commands).errors == []
    requires RunAll(commands, choices, world).supported
    ensures var run, graph, targets := RunAll(commands, choices, world), Graph(commands), Targets(commands);
            CoveredBy(run, graph, targets) <==> OuterCovered(run, graph, targets)
  {
    hide KeepsOpaque, AllNamesDirect, CoveredBy, OuterCovered;
    var targets := Targets(commands);
    WalkCovers(START, FRESH, commands, targets, choices, 0, world);
    CompletedCovers(WalkFrom(START, commands, targets), RunAll(commands, choices, world), targets);
  }
}
