/** Where the walk is exact, and which programs it is sound for, by their text alone. */
module CMakeExactness {
  import opened Options
  import opened CMakeText
  import opened CMakeExpansion
  import opened CMakeWalk
  import opened CMakeExpressions
  import opened CMakeRuns
  import opened CMakeSoundness

  // ----- with every condition known the walk computes the same items -----

  predicate AllKnown(commands: seq<Command>) {
    forall c :: c in commands && c.kind in {If, ElseIf} ==> Condition(c.tokens) != Unknown
  }

  predicate Decided(stack: seq<Frame>) {
    forall f :: f in stack ==> f.prior != Unknown && f.active != Unknown
  }

  ghost predicate MatchesRun(walk: Walk, run: Run, targets: set<string>) {
    CoversRun(walk, run, targets) && Matches(walk.variables, run.variables) && Decided(walk.stack)
  }

  lemma {:induction false} InertValuesStay(values: seq<string>, variables: Variables, context: string, stack: seq<string>)
    requires forall x :: x in values ==> IsInert(x)
    requires forall n :: n in variables || n in stack ==> !IsOpaque(n)
    ensures Expand(values, variables, context, stack) == Expansion(values, [])
  {
    if values != [] {
      InertExpandsToItself(values[0], variables, context, stack);
      InertValuesStay(values[1..], variables, context, stack);
    }
  }

  lemma NameMatches(name: string, walked: Variables, run: Variables, context: string, stack: seq<string>)
    requires Matches(walked, run) && (forall n :: n in stack ==> !IsOpaque(n))
    requires ExpandName(name, walked, context, stack).errors == []
    ensures Elements(ExpandName(name, walked, context, stack).items) == Elements(EvaluateName(name, run))
  {
    if name in walked {
      forall x | x in walked[name] ensures IsInert(x) {
        assert x in Elements(walked[name]);
        assert x in run[name];
      }
      InertValuesStay(walked[name], walked, context, stack + [name]);
    }
  }

  lemma {:induction false} ExpansionMatches(values: seq<string>, walked: Variables, run: Variables, context: string,
                                            stack: seq<string>)
    requires Matches(walked, run) && (forall n :: n in stack ==> !IsOpaque(n))
    requires Expand(values, walked, context, stack).errors == []
    requires Evaluate(values, run).supported
    ensures Elements(Expand(values, walked, context, stack).items) == Elements(Evaluate(values, run).items)
  {
    if values != [] {
      var first, rest := ExpandValue(values[0], walked, context, stack), Expand(values[1..], walked, context, stack);
      assert first.errors + rest.errors == [];
      ExpansionMatches(values[1..], walked, run, context, stack);
      ValueMatches(values[0], walked, run, context, stack);
      ElementsOfSum(first.items, rest.items);
      ElementsOfSum(EvaluateValue(values[0], run).items, Evaluate(values[1..], run).items);
    }
  }

  lemma ElementsOfSum(a: seq<string>, b: seq<string>)
    ensures Elements(a + b) == Elements(a) + Elements(b)
  {
  }

  lemma ValueMatches(value: string, walked: Variables, run: Variables, context: string, stack: seq<string>)
    requires Matches(walked, run) && (forall n :: n in stack ==> !IsOpaque(n))
    requires ExpandValue(value, walked, context, stack).errors == []
    requires EvaluateValue(value, run).supported
    ensures Elements(ExpandValue(value, walked, context, stack).items) == Elements(EvaluateValue(value, run).items)
  {
    match ExactReference(value)
    case Some(name) => NameMatches(name, walked, run, context, stack);
    case None =>
      if References(value) != [] {
        EmbeddedCovered(value, value, References(value), walked, run, context, stack);
        EmbeddedIsWhole(value, References(value), run);
      } else {
        CleanIsOneItem(value);
      }
  }

  lemma ActiveDecided(walked: seq<Frame>, run: seq<RunFrame>)
    requires StackAllows(walked, run) && Decided(walked)
    ensures ActiveCondition(walked) == if Executing(run) then True else False
  {
    ActiveAllows(walked, run);
  }

  lemma AssignmentMatches(walk: Walk, run: Run, name: string, kept: seq<string>, earlier: seq<string>,
                          expansion: Expansion, items: seq<string>)
    requires Matches(walk.variables, run.variables) && ActiveCondition(walk.stack) == True
    requires Covers(Assigned(walk, name, kept, expansion).variables, Assigning(run, name, earlier + items).variables)
    requires Elements(kept) == Elements(earlier)
    requires Elements(expansion.items) == Elements(items)
    ensures Matches(Assigned(walk, name, kept, expansion).variables, Assigning(run, name, earlier + items).variables)
  {
    ElementsOfSum(kept, expansion.items);
    ElementsOfSum(earlier, items);
  }

  lemma AppendMatches(walk: Walk, run: Run, targets: set<string>, tokens: seq<string>)
    requires MatchesRun(walk, run, targets) && tokens != [] && ActiveCondition(walk.stack) == True
    requires AssignsNoOpaque(Command(ListCommand, tokens)) && NamesDirectly(Command(ListCommand, tokens))
    requires StepList(walk, tokens).errors == [] && Evaluate(tokens, run.variables).supported
    ensures Matches(StepList(walk, tokens).variables, RunAppend(run, Evaluate(tokens, run.variables).items).variables)
  {
    hide Matches, Evaluate, Expand, RunAppend;
    ListCovered(walk, run, targets, tokens);
    assert |tokens| >= 3 && tokens[0] == "APPEND";
    var expansion := Expand(tokens[2..], walk.variables, tokens[0], []);
    assert walk.errors + expansion.errors == [];
    AppendRuns(run, tokens);
    ExpansionMatches(tokens[2..], walk.variables, run.variables, tokens[0], []);
    SameValues(walk.variables, run.variables, tokens[1]);
    AssignmentMatches(walk, run, tokens[1], Values(walk.variables, tokens[1]), Values(run.variables, tokens[1]),
                      expansion, Evaluate(tokens[2..], run.variables).items);
  }

  lemma SameValues(walked: Variables, run: Variables, name: string)
    requires Matches(walked, run)
    ensures Elements(Values(walked, name)) == Elements(Values(run, name))
  {
  }

  lemma SetMatches(walk: Walk, run: Run, targets: set<string>, tokens: seq<string>, form: SetForm)
    requires MatchesRun(walk, run, targets) && tokens != [] && form == FormOf(tokens) && run.supported
    requires !IsOpaque(tokens[0]) && !Contains(tokens[0], "${") && ActiveCondition(walk.stack) == True
    requires StepSetAs(walk, tokens, form).errors == [] && Evaluate(tokens, run.variables).supported
    requires Evaluate(tokens, run.variables).items != [] ==> RunSet(run, Evaluate(tokens, run.variables).items).supported
    ensures Evaluate(tokens, run.variables).items != []
    ensures Matches(StepSetAs(walk, tokens, form).variables, RunSet(run, Evaluate(tokens, run.variables).items).variables)
  {
    hide Matches, Evaluate, Expand, RunSet, FormOf;
    SetCovered(walk, run, targets, tokens, form);
    SetKeepsErrors(walk, tokens, form);
    SetRuns(run, tokens);
    var values := Evaluate(tokens[1..], run.variables).items;
    if form.Cached? {
      CachedStays(tokens, run);
    }
    if form.Plain? {
      ExpansionMatches(tokens[1..], walk.variables, run.variables, tokens[0], [tokens[0]]);
    } else {
      NoValues(tokens, run.variables);
    }
    assert [] + values == values;
    AssignmentMatches(walk, run, tokens[0], [], [], SetExpansion(walk, tokens, form), values);
  }

  lemma NoValues(tokens: seq<string>, variables: Variables)
    ensures |tokens| == 1 ==> Evaluate(tokens[1..], variables).items == []
  {
  }

  lemma {:induction false} TokensKeepState(walk: Walk, kind: Kind, target: string, tokens: seq<string>, targets: set<string>)
    ensures var next := TargetTokens(walk, kind, target, tokens, targets);
            next.variables == walk.variables && next.stack == walk.stack
    decreases |tokens|
  {
    hide TargetToken;
    if tokens != [] {
      TokenGrows(walk, kind, target, tokens[0], targets);
      TokensKeepState(TargetToken(walk, kind, target, tokens[0], targets), kind, target, tokens[1..], targets);
    }
  }

  lemma BranchStaysDecided(stack: seq<Frame>, kind: Kind, condition: Truth)
    requires Decided(stack) && IsBranching(kind)
    requires kind.If? || kind.ElseIf? ==> condition != Unknown
    ensures Decided(BranchedStack(stack, kind, condition))
  {
    if stack != [] {
      assert stack[|stack| - 1] in stack;
    }
  }

  lemma StepStaysDecided(walk: Walk, command: Command, targets: set<string>)
    requires Decided(walk.stack)
    requires command.kind in {If, ElseIf} ==> Condition(command.tokens) != Unknown
    ensures Decided(Step(walk, command, targets).stack)
  {
    hide Condition, Expand, FormOf;
    var tokens := command.tokens;
    if IsBranching(command.kind) {
      BranchStaysDecided(walk.stack, command.kind, Condition(tokens));
    } else if tokens != [] && !command.kind.ListCommand? && !command.kind.SetCommand? {
      TokensKeepState(walk, command.kind, tokens[0], tokens[1..], targets);
    }
  }

  /** The run's variables after the arguments of a command that assigns none. */
  lemma ItemsKeepVariables(run: Run, command: Command, world: World)
    requires !command.kind.ListCommand? && !command.kind.SetCommand?
    ensures Executed(run, command.kind, Evaluate(command.tokens, run.variables).items, world).variables == run.variables
  {
    hide Evaluate;
    var items := Evaluate(command.tokens, run.variables).items;
    if items != [] {
      RunItemsKeeps(run, command.kind, items[0], items[1..], world);
    }
  }

  lemma ExecutedStepMatches(walk: Walk, run: Run, command: Command, targets: set<string>, world: World)
    requires MatchesRun(walk, run, targets) && AssignsNoOpaque(command) && NamesDirectly(command) && !IsBranching(command.kind)
    requires Step(walk, command, targets).errors == [] && run.supported && ActiveCondition(walk.stack) == True
    requires Evaluate(command.tokens, run.variables).supported
    requires Executed(run, command.kind, Evaluate(command.tokens, run.variables).items, world).supported
    ensures Matches(Step(walk, command, targets).variables,
                    Executed(run, command.kind, Evaluate(command.tokens, run.variables).items, world).variables)
  {
    hide MatchesRun, Matches, Followed, RunAppend, RunSet, StepSetAs, TargetTokens;
    assert Matches(walk.variables, run.variables) by { MatchesOf(walk, run, targets); }
    var tokens := command.tokens;
    if tokens == [] {
    } else if command.kind.ListCommand? {
      assert command == Command(ListCommand, tokens);
      PlainHeadOfList(walk, run, tokens);
      AppendMatches(walk, run, targets, tokens);
    } else if command.kind.SetCommand? {
      SetMatches(walk, run, targets, tokens, FormOf(tokens));
    } else {
      TokensKeepState(walk, command.kind, tokens[0], tokens[1..], targets);
      ItemsKeepVariables(run, command, world);
    }
  }

  lemma MatchesOf(walk: Walk, run: Run, targets: set<string>)
    requires MatchesRun(walk, run, targets)
    ensures Matches(walk.variables, run.variables)
  {
  }

  lemma PlainHeadOfList(walk: Walk, run: Run, tokens: seq<string>)
    requires tokens != [] && StepList(walk, tokens).errors == [] && Evaluate(tokens, run.variables).supported
    ensures Evaluate(tokens, run.variables).items != []
  {
    assert tokens[0] == "APPEND";
    NoReferenceInWords();
    PlainHead(tokens, run.variables);
  }

  lemma StepMatches(walk: Walk, run: Run, command: Command, targets: set<string>, choice: bool, world: World)
    requires MatchesRun(walk, run, targets) && AssignsNoOpaque(command) && NamesDirectly(command)
    requires Step(walk, command, targets).errors == []
    requires RunStep(run, command, choice, world).supported
    ensures CoversRun(Step(walk, command, targets), RunStep(run, command, choice, world), targets)
    ensures Matches(Step(walk, command, targets).variables, RunStep(run, command, choice, world).variables)
  {
    hide Covers, Matches, Step, Executed, Evaluate, NamesDirectly, AssignsNoOpaque;
    StepCovered(walk, run, command, targets, choice, world);
    if IsBranching(command.kind) {
      BranchKeepsVariables(walk, command, targets);
    } else {
      ActiveDecided(walk.stack, run.stack);
      if Executing(run.stack) {
        StepKeepsUnsupported(run, command, choice, world);
        assert run.(supported := run.supported && Evaluate(command.tokens, run.variables).supported) == run;
        ExecutedStepMatches(walk, run, command, targets, world);
      } else {
        IdleStepKeeps(walk, command, targets);
      }
    }
  }

  lemma BranchKeepsVariables(walk: Walk, command: Command, targets: set<string>)
    requires IsBranching(command.kind)
    ensures Step(walk, command, targets).variables == walk.variables
  {
  }

  lemma IdleStepKeeps(walk: Walk, command: Command, targets: set<string>)
    requires ActiveCondition(walk.stack) == False
    ensures Step(walk, command, targets).variables == walk.variables
  {
    hide Expand, FormOf, TargetTokens;
    var tokens := command.tokens;
    if tokens != [] && !IsBranching(command.kind) && !command.kind.ListCommand? && !command.kind.SetCommand? {
      TokensKeepState(walk, command.kind, tokens[0], tokens[1..], targets);
    }
  }

  lemma {:induction false} WalkMatches(walk: Walk, run: Run, commands: seq<Command>, targets: set<string>,
                                       choices: nat -> bool, position: nat, world: World)
    requires MatchesRun(walk, run, targets) && KeepsOpaque(commands) && AllNamesDirect(commands) && AllKnown(commands)
    requires WalkFrom(walk, commands, targets).errors == []
    requires RunFrom(run, commands, choices, position, world).supported
    ensures MatchesRun(WalkFrom(walk, commands, targets), RunFrom(run, commands, choices, position, world), targets)
    decreases |commands|
  {
    hide CoversRun, Matches, Step, RunStep, Decided, NamesDirectly, AssignsNoOpaque, Condition;
    if commands != [] {
      var next := Step(walk, commands[0], targets);
      var nextRun := RunStep(run, commands[0], choices(position), world);
      WalkKeepsErrors(next, commands[1..], targets);
      RunKeepsUnsupported(nextRun, commands[1..], choices, position + 1, world);
      StepMatches(walk, run, commands[0], targets, choices(position), world);
      StepStaysDecided(walk, commands[0], targets);
      WalkMatches(next, nextRun, commands[1..], targets, choices, position + 1, world);
    }
  }

  /** The computed variables hold exactly the items of the run. */
  ghost predicate SameItems(graph: Walk, run: Run) {
    && graph.variables.Keys == run.variables.Keys
    && forall n :: n in run.variables ==> Elements(graph.variables[n]) == Elements(run.variables[n])
  }

  /** When every condition is known, the computed variables hold exactly the items of any supported run. */
  lemma KnownWalkIsExact(commands: seq<Command>, choices: nat -> bool, world: World)
    requires KeepsOpaque(commands) && AllNamesDirect(commands) && AllKnown(commands) && Graph(commands).errors == []
    requires RunAll(commands, choices, world).supported
    ensures SameItems(Graph(commands), RunAll(commands, choices, world))
  {
    hide KeepsOpaque, AllNamesDirect, AllKnown;
    WalkMatches(START, FRESH, commands, Targets(commands), choices, 0, world);
  }

  // ----- programs whose runs are all supported -----

  const KEYWORDS: set<string> := {"CACHE", "PARENT_SCOPE"}

  /** An argument that evaluates to itself, is no keyword of `set` and is read as it is meant. */
  predicate IsSettled(item: string) {
    IsInert(item) && item !in KEYWORDS && IsReadable(item)
  }

  /** Every argument is one reference or evaluates to itself. */
  predicate HasSettledText(c: Command) {
    IsBranching(c.kind) || forall t :: t in c.tokens ==> IsSettled(t) || ExactReference(t).Some?
  }

  predicate AllSettled(commands: seq<Command>) {
    forall c :: c in commands ==> HasSettledText(c)
  }

  /** The arguments of a program that evaluate to themselves: the only items that its runs ever hold. */
  function Texts(commands: seq<Command>): set<string> {
    set c, t | c in commands && !IsBranching(c.kind) && t in c.tokens && IsSettled(t) :: t
  }

  predicate IsText(t: string, texts: set<string>) {
    t in texts || (ExactReference(t).Some? && !IsSettled(t))
  }

  predicate KnowsNoOpaque(variables: Variables) {
    forall n :: n in variables ==> !IsOpaque(n)
  }

  predicate Holds(variables: Variables, texts: set<string>) {
    forall n, x :: n in variables && x in variables[n] ==> x in texts
  }

  ghost predicate AreSettled(texts: set<string>) {
    forall x :: x in texts ==> IsSettled(x)
  }

  lemma {:induction false} InertEvaluates(item: string, names: seq<string>, variables: Variables)
    requires IsInert(item) && (forall n :: n in names ==> IsOpaque(n)) && KnowsNoOpaque(variables)
    ensures EvaluateEmbedded(item, names, variables) == Evaluation([item], true)
    decreases |names|
  {
    if names != [] {
      assert IsOpaque(names[0]);
      ReplaceBySame(item, Quoted(names[0]));
      InertEvaluates(item, names[1..], variables);
    }
  }

  lemma QuotedIsSettled(name: string)
    requires IsName(name) && IsOpaque(name)
    ensures IsSettled(Quoted(name))
  {
    OpaqueIsInert(name);
    assert Quoted(name)[0] == '$';
    assert Quoted(name)[0..2] == "${";
    assert IsAt(Quoted(name), "${", 0);
  }

  lemma TextValue(token: string, variables: Variables, texts: set<string>)
    requires IsText(token, texts) && AreSettled(texts)
    requires KnowsNoOpaque(variables) && Holds(variables, texts)
    ensures EvaluateValue(token, variables).supported
    ensures forall x :: x in EvaluateValue(token, variables).items ==> x in texts
  {
    hide IsInert, IsOpaque, References, IsReadable, ItemsOf;
    match ExactReference(token)
    case Some(name) =>
      if name !in variables && IsOpaque(name) {
        QuotedIsSettled(name);
      }
    case None =>
      InertItem(token, variables);
  }

  lemma InertItem(token: string, variables: Variables)
    requires IsInert(token) && KnowsNoOpaque(variables) && ExactReference(token).None?
    ensures EvaluateValue(token, variables) == Evaluation([token], true)
  {
    CleanIsOneItem(token);
    if References(token) != [] {
      InertEvaluates(token, References(token), variables);
    }
  }

  lemma {:induction false} TextEvaluation(tokens: seq<string>, variables: Variables, texts: set<string>)
    requires AreSettled(texts) && forall t :: t in tokens ==> IsText(t, texts)
    requires KnowsNoOpaque(variables) && Holds(variables, texts)
    ensures Evaluate(tokens, variables).supported
    ensures forall x :: x in Evaluate(tokens, variables).items ==> x in texts
  {
    hide IsText, EvaluateValue, KnowsNoOpaque, Holds, AreSettled;
    if tokens != [] {
      TextValue(tokens[0], variables, texts);
      TextEvaluation(tokens[1..], variables, texts);
    }
  }

  /** Every item of the run is a text of the program, and no value of an external variable has named a target. */
  ghost predicate Settled(run: Run, texts: set<string>, targets: set<string>) {
    && run.supported && KnowsNoOpaque(run.variables) && Holds(run.variables, texts)
    && forall t :: At(run.outer, t) !! targets
  }

  /** What an argument refers to through external variables is no target. */
  ghost predicate NamesNoTarget(text: string, outer: string -> string, targets: set<string>) {
    Contains(text, "${") ==> forall truth :: ActualReference(Instantiated(text, outer), truth) !! targets
  }

  ghost predicate TextsNameNoTarget(texts: set<string>, outer: string -> string, targets: set<string>) {
    forall x :: x in texts ==> NamesNoTarget(x, outer, targets)
  }

  lemma SettledSet(run: Run, name: string, values: seq<string>, texts: set<string>, targets: set<string>)
    requires Settled(run, texts, targets) && AreSettled(texts)
    requires !IsOpaque(name) && name !in KEYWORDS && forall x :: x in values ==> x in texts
    ensures Settled(RunSet(run, [name] + values), texts, targets)
  {
    hide IsOpaque, IsInert, IsReadable;
    var arguments := [name] + values;
    assert arguments[1..] == values;
    assert "CACHE" !in arguments && "PARENT_SCOPE" !in arguments;
  }

  lemma SettledAppend(run: Run, head: string, name: string, values: seq<string>, texts: set<string>, targets: set<string>)
    requires Settled(run, texts, targets) && !IsOpaque(name) && forall x :: x in values ==> x in texts
    ensures Settled(RunAppend(run, [head] + ([name] + values)), texts, targets)
  {
    hide IsOpaque;
    var arguments := [head] + ([name] + values);
    assert arguments[1] == name && arguments[2..] == values;
  }

  lemma NamedArguments(tokens: seq<string>, variables: Variables, texts: set<string>)
    requires tokens != [] && !Contains(tokens[0], "${")
    requires AreSettled(texts) && forall t :: t in tokens ==> IsText(t, texts)
    requires KnowsNoOpaque(variables) && Holds(variables, texts)
    ensures var values := Evaluate(tokens[1..], variables).items;
            Evaluate(tokens, variables).items == [tokens[0]] + values && forall x :: x in values ==> x in texts
    ensures tokens[0] in texts
  {
    hide EvaluateValue, KnowsNoOpaque, Holds, IsClean, IsReadable;
    PlainHead(tokens, variables);
    NoReferences(tokens[0]);
    assert tokens[0] in tokens && IsText(tokens[0], texts);
    TextEvaluation(tokens, variables, texts);
    TextEvaluation(tokens[1..], variables, texts);
  }

  lemma SettledListStep(run: Run, tokens: seq<string>, texts: set<string>, targets: set<string>)
    requires Settled(run, texts, targets) && AreSettled(texts) && tokens != []
    requires AssignsNoOpaque(Command(ListCommand, tokens)) && NamesDirectly(Command(ListCommand, tokens))
    requires forall t :: t in tokens ==> IsText(t, texts)
    ensures Settled(RunAppend(run, Evaluate(tokens, run.variables).items), texts, targets)
  {
    hide IsText, AreSettled, IsOpaque, Evaluate, RunAppend, Holds, KnowsNoOpaque;
    NamedArguments(tokens, run.variables, texts);
    if |tokens| == 1 {
      NoValues(tokens, run.variables);
      ShortAppend(run, tokens[0]);
    } else {
      NamedArguments(tokens[1..], run.variables, texts);
      SettledAppend(run, tokens[0], tokens[1], Evaluate(tokens[1..][1..], run.variables).items, texts, targets);
    }
  }

  lemma ShortAppend(run: Run, head: string)
    ensures RunAppend(run, [head] + []) == run
  {
  }

  lemma SettledSetStep(run: Run, tokens: seq<string>, texts: set<string>, targets: set<string>)
    requires Settled(run, texts, targets) && AreSettled(texts)
    requires tokens != [] && !IsOpaque(tokens[0]) && !Contains(tokens[0], "${")
    requires forall t :: t in tokens ==> IsText(t, texts)
    ensures Evaluate(tokens, run.variables).items != []
    ensures Settled(RunSet(run, Evaluate(tokens, run.variables).items), texts, targets)
  {
    hide IsText, IsOpaque, IsInert, IsReadable, Evaluate, RunSet, Holds, KnowsNoOpaque;
    NamedArguments(tokens, run.variables, texts);
    SettledSet(run, tokens[0], Evaluate(tokens[1..], run.variables).items, texts, targets);
  }

  /** The targets that external values name stay none. */
  lemma {:induction false} SettledItems(run: Run, kind: Kind, target: string, items: seq<string>, texts: set<string>,
                                        targets: set<string>, world: World)
    requires Settled(run, texts, targets) && AreSettled(texts) && TextsNameNoTarget(texts, world.outer, targets)
    requires forall x :: x in items ==> x in texts
    ensures Settled(RunItems(run, kind, target, items, world), texts, targets)
    decreases |items|
  {
    hide Holds, KnowsNoOpaque, RunItem, Settled, AreSettled, TextsNameNoTarget;
    if items != [] {
      SettledItem(run, kind, target, items[0], texts, targets, world);
      SettledItems(RunItem(run, kind, target, items[0], world), kind, target, items[1..], texts, targets, world);
    }
  }

  lemma SettledItem(run: Run, kind: Kind, target: string, item: string, texts: set<string>, targets: set<string>, world: World)
    requires Settled(run, texts, targets) && AreSettled(texts) && TextsNameNoTarget(texts, world.outer, targets)
    requires item in texts
    ensures Settled(RunItem(run, kind, target, item, world), texts, targets)
  {
    hide Holds, KnowsNoOpaque, ItemReferences, ItemDependencies, ActualReference, Instantiated, IsInert, IsReadable;
    hide Added, At;
    assert IsSettled(item) && NamesNoTarget(item, world.outer, targets);
    assert OuterReferences(kind, item, world) !! targets;
    AddedStaysApart(run.outer, target, OuterReferences(kind, item, world), targets);
  }

  lemma AddedStaysApart(relation: Relation, key: string, names: set<string>, targets: set<string>)
    requires (forall t :: At(relation, t) !! targets) && names !! targets
    ensures forall t :: At(Added(relation, key, names), t) !! targets
  {
    forall t ensures At(Added(relation, key, names), t) !! targets {
      assert At(relation, t) !! targets;
    }
  }

  lemma SettledStep(run: Run, command: Command, texts: set<string>, targets: set<string>, choice: bool, world: World)
    requires Settled(run, texts, targets) && AreSettled(texts) && TextsNameNoTarget(texts, world.outer, targets)
    requires AssignsNoOpaque(command) && NamesDirectly(command)
    requires IsBranching(command.kind) || forall t :: t in command.tokens ==> IsText(t, texts)
    ensures Settled(RunStep(run, command, choice, world), texts, targets)
  {
    hide IsText, AreSettled, TextsNameNoTarget, Evaluate, RunSet, RunAppend, Followed, IsOpaque, Holds, KnowsNoOpaque;
    var tokens := command.tokens;
    if !IsBranching(command.kind) && Executing(run.stack) {
      TextEvaluation(tokens, run.variables, texts);
      assert run.(supported := run.supported && Evaluate(tokens, run.variables).supported) == run;
      if tokens == [] {
        NothingEvaluates(run.variables);
      } else if command.kind.ListCommand? {
        assert command == Command(ListCommand, tokens);
        SettledListStep(run, tokens, texts, targets);
      } else if command.kind.SetCommand? {
        SettledSetStep(run, tokens, texts, targets);
      } else {
        var items := Evaluate(tokens, run.variables).items;
        if items != [] {
          SettledItems(run, command.kind, items[0], items[1..], texts, targets, world);
        }
      }
    }
  }

  lemma NothingEvaluates(variables: Variables)
    ensures Evaluate([], variables) == Evaluation([], true)
  {
  }

  /** Every argument of these commands is a text or one reference. */
  ghost predicate WithTexts(commands: seq<Command>, texts: set<string>) {
    forall c, t :: c in commands && !IsBranching(c.kind) && t in c.tokens ==> IsText(t, texts)
  }

  /** No decision makes a settled run unsupported, and its items stay texts of the program. */
  lemma {:induction false} RunStaysSettled(run: Run, commands: seq<Command>, texts: set<string>, targets: set<string>,
                                           choices: nat -> bool, position: nat, world: World)
    requires Settled(run, texts, targets) && AreSettled(texts) && TextsNameNoTarget(texts, world.outer, targets)
    requires KeepsOpaque(commands) && AllNamesDirect(commands) && WithTexts(commands, texts)
    ensures Settled(RunFrom(run, commands, choices, position, world), texts, targets)
    decreases |commands|
  {
    hide Settled, RunStep, AssignsNoOpaque, NamesDirectly, IsText, AreSettled, TextsNameNoTarget;
    if commands != [] {
      SettledStep(run, commands[0], texts, targets, choices(position), world);
      RunStaysSettled(RunStep(run, commands[0], choices(position), world), commands[1..], texts, targets, choices,
                      position + 1, world);
    }
  }

  lemma ProgramTexts(commands: seq<Command>)
    requires AllSettled(commands)
    ensures AreSettled(Texts(commands)) && WithTexts(commands, Texts(commands))
  {
    hide IsSettled;
    forall c, t | c in commands && !IsBranching(c.kind) && t in c.tokens ensures IsText(t, Texts(commands)) {
      assert HasSettledText(c);
    }
  }

  /**
   Conditions on the text of the program alone: names are written out, no external variable is assigned, and
   every argument is one reference, or one item with only external references and at most one expression that is read as
   it is meant.
  */
  ghost predicate Readable(commands: seq<Command>) {
    KeepsOpaque(commands) && AllNamesDirect(commands) && AllSettled(commands)
  }

  /** With these values of external variables, no argument that mentions one refers to a declared target. */
  ghost predicate OuterNamesNoTarget(commands: seq<Command>, outer: string -> string) {
    TextsNameNoTarget(Texts(commands), outer, Targets(commands))
  }

  lemma FreshIsSettled(texts: set<string>, targets: set<string>)
    ensures Settled(FRESH, texts, targets)
  {
  }

  /** Whether a run is supported can be read off the program. */
  lemma ReadableRuns(commands: seq<Command>, choices: nat -> bool, world: World)
    requires Readable(commands)
    ensures RunAll(commands, choices, world).supported
    ensures Holds(RunAll(commands, choices, world).variables, Texts(commands))
  {
    hide KeepsOpaque, AllNamesDirect, AllSettled, Holds;
    ProgramTexts(commands);
    FreshIsSettled(Texts(commands), {});
    NothingIsNamed(Texts(commands), world.outer);
    RunStaysSettled(FRESH, commands, Texts(commands), {}, choices, 0, world);
  }

  lemma NothingIsNamed(texts: set<string>, outer: string -> string)
    ensures TextsNameNoTarget(texts, outer, {})
  {
  }

  lemma OuterStaysApart(commands: seq<Command>, choices: nat -> bool, world: World)
    requires Readable(commands) && OuterNamesNoTarget(commands, world.outer)
    ensures OuterCovered(RunAll(commands, choices, world), Graph(commands), Targets(commands))
  {
    hide KeepsOpaque, AllNamesDirect, AllSettled, Holds, TextsNameNoTarget;
    var targets := Targets(commands);
    ProgramTexts(commands);
    FreshIsSettled(Texts(commands), targets);
    RunStaysSettled(FRESH, commands, Texts(commands), targets, choices, 0, world);
    forall t ensures At(RunAll(commands, choices, world).outer, t) * targets == {} {
      assert At(RunAll(commands, choices, world).outer, t) !! targets;
    }
  }

  /**
   A readable program whose walk records no error is covered in every run, whatever it decides, if and only if the
   values of external variables make no other dependency; and they make none if no argument that mentions one refers to a
   declared target.
  */
  lemma ReadableGraphIsSound(commands: seq<Command>)
    requires Readable(commands) && Graph(commands).errors == []
    ensures forall choices, world ::
              CoveredBy(RunAll(commands, choices, world), Graph(commands), Targets(commands)) <==>
              OuterCovered(RunAll(commands, choices, world), Graph(commands), Targets(commands))
    ensures forall choices: nat -> bool, world: World :: OuterNamesNoTarget(commands, world.outer) ==>
              CoveredBy(RunAll(commands, choices, world), Graph(commands), Targets(commands))
  {
    hide KeepsOpaque, AllNamesDirect, AllSettled, CoveredBy, OuterCovered, Graph, RunAll, OuterNamesNoTarget, Holds;
    forall choices: nat -> bool, world: World
      ensures CoveredBy(RunAll(commands, choices, world), Graph(commands), Targets(commands)) <==>
              OuterCovered(RunAll(commands, choices, world), Graph(commands), Targets(commands))
      ensures OuterNamesNoTarget(commands, world.outer) ==>
              CoveredBy(RunAll(commands, choices, world), Graph(commands), Targets(commands))
    {
      ReadableRuns(commands, choices, world);
      GraphIsSound(commands, choices, world);
      if OuterNamesNoTarget(commands, world.outer) {
        OuterStaysApart(commands, choices, world);
      }
    }
  }

  /** And if it has no unknown condition, its variables are computed exactly. */
  lemma ReadableGraphIsExact(commands: seq<Command>)
    requires Readable(commands) && AllKnown(commands) && Graph(commands).errors == []
    ensures forall choices, world :: SameItems(Graph(commands), RunAll(commands, choices, world))
  {
    hide KeepsOpaque, AllNamesDirect, AllSettled, AllKnown, SameItems, Graph, RunAll, Holds;
    forall choices: nat -> bool, world: World ensures SameItems(Graph(commands), RunAll(commands, choices, world)) {
      ReadableRuns(commands, choices, world);
      KnownWalkIsExact(commands, choices, world);
    }
  }

  // ----- variables inside a longer text -----

  /** Where each variable stands for one walked item that is what the run joins its items to, the texts agree. */
  lemma {:induction false} TextsAgree(value: string, substituted: string, names: seq<string>, walked: Variables, run: Variables,
                                      context: string, stack: seq<string>)
    requires forall n :: n in names ==>
               ExpandName(n, walked, context, stack) == Expansion([Semicolons(EvaluateName(n, run))], [])
    ensures ExpandEmbedded(value, substituted, names, walked, context, stack)
         == Expansion(EvaluateEmbedded(substituted, names, run).items, [])
    decreases |names|
  {
    hide ExpandName, EvaluateName, Semicolons;
    if names != [] {
      assert names[0] in names;
      var text := Semicolons(EvaluateName(names[0], run));
      TextsAgree(value, ReplaceFirst(substituted, Quoted(names[0]), text), names[1..], walked, run, context, stack);
    }
  }

  lemma {:induction false} ReferenceIsThere(s: string, i: nat, name: string)
    requires i <= |s| && name in ReferencesFrom(s, i)
    ensures Find(s, Quoted(name), 0).Some?
    decreases |s| - i
  {
    match ReferenceEnd(s, i)
    case Some(e) =>
      if s[i + 2..e - 1] == name {
        assert IsAt(s, Quoted(name), i);
      } else {
        ReferenceIsThere(s, e, name);
      }
    case None => ReferenceIsThere(s, i + 1, name);
  }

  lemma ReplacementsDiffer(s: string, p: string, a: string, b: string)
    requires Find(s, p, 0).Some?
    ensures ReplaceFirst(s, p, a) == ReplaceFirst(s, p, b) <==> a == b
  {
    var i := Find(s, p, 0).value;
    var before, after := s[..i], s[i + |p|..];
    if before + a + after == before + b + after {
      assert |a| == |b|;
      assert a == (before + a + after)[i..i + |a|] == (before + b + after)[i..i + |b|] == b;
    }
  }

  /** With one variable in a text the walk computes the run's text exactly when it has the run's joined items for it. */
  lemma OneReferenceAgreesIff(value: string, name: string, walked: Variables, run: Variables, context: string, stack: seq<string>)
    requires ExactReference(value).None? && References(value) == [name]
    requires ExpandValue(value, walked, context, stack).errors == []
    ensures |ExpandName(name, walked, context, stack).items| == 1
    ensures ExpandValue(value, walked, context, stack).items == EvaluateEmbedded(value, [name], run).items
            <==> ExpandName(name, walked, context, stack).items[0] == Semicolons(EvaluateName(name, run))
  {
    hide ExpandName, EvaluateName, Semicolons, ExactReference, ReplaceFirst, References;
    var names, r, text := [name], ExpandName(name, walked, context, stack), Semicolons(EvaluateName(name, run));
    assert names[1..] == [];
    OneReplaced(value, name, walked, run, context, stack);
    assert |r.items| == 1;
    ReferenceOfValue(value, name);
    ReplacementsDiffer(value, Quoted(name), r.items[0], text);
  }

  /** The items of a text: none when it is empty. */
  function TextItems(text: string): seq<string> {
    if text != "" then [text] else []
  }

  lemma OneReplaced(value: string, name: string, walked: Variables, run: Variables, context: string, stack: seq<string>)
    ensures var r := ExpandName(name, walked, context, stack);
            ExpandEmbedded(value, value, [name], walked, context, stack) ==
              if |r.items| != 1 then Expansion([], r.errors + [MultiValued(context, value)])
              else Expansion(TextItems(ReplaceFirst(value, Quoted(name), r.items[0])), r.errors)
    ensures EvaluateEmbedded(value, [name], run).items ==
            TextItems(ReplaceFirst(value, Quoted(name), Semicolons(EvaluateName(name, run))))
  {
    hide ExpandName, EvaluateName, Semicolons, ReplaceFirst;
    var r := ExpandName(name, walked, context, stack);
    assert [name][1..] == [];
    assert r.errors + [] == r.errors;
  }

  lemma ReferenceOfValue(value: string, name: string)
    requires name in References(value)
    ensures Find(value, Quoted(name), 0).Some?
  {
    ReferenceIsThere(value, 0, name);
  }
}
