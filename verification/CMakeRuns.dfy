/**
 What a CMake program does when it is run: every argument of a command is evaluated, then the command is
 executed.  A run decides every condition the walk does not know and every generator-expression condition, and
 it knows the values that external variables have outside of the file.
*/
module CMakeRuns {
  import opened Options
  import opened CMakeText
  import opened CMakeExpansion
  import opened CMakeWalk
  import opened CMakeConditions
  import opened CMakeExpressions

  // ----- evaluation -----

  /** One item that stays as it is written when it is expanded again: its references are external. */
  predicate IsInert(item: string) {
    IsClean(item) && forall n :: n in References(item) ==> IsOpaque(n)
  }

  function Semicolons(items: seq<string>): string {
    if items == [] then "" else if |items| == 1 then items[0] else items[0] + ";" + Semicolons(items[1..])
  }

  datatype Evaluation = Evaluation(items: seq<string>, supported: bool)

  /** A set variable stands for its items, an external one for itself, an unset one for nothing. */
  function EvaluateName(name: string, variables: Variables): seq<string> {
    if name in variables then variables[name] else if IsOpaque(name) then [Quoted(name)] else []
  }

  /**
   Inside a longer text a variable is replaced by its joined items.  The run is supported when that is
   one item each time and when the resulting text is one item that does not happen to spell a new reference.
  */
  function EvaluateEmbedded(substituted: string, names: seq<string>, variables: Variables): Evaluation
    decreases |names|
  {
    if names == [] then Evaluation(if substituted != "" then [substituted] else [], IsInert(substituted))
    else
      var items := EvaluateName(names[0], variables);
      var rest := EvaluateEmbedded(ReplaceFirst(substituted, Quoted(names[0]), Semicolons(items)), names[1..], variables);
      rest.(supported := rest.supported && |items| == 1)
  }

  /** The items of the text that an evaluation leaves. */
  function Separated(whole: Evaluation): Evaluation {
    Evaluation(if whole.items == [] then [] else ItemsOf(whole.items[0]), whole.supported)
  }

  /** A reference to an external variable stands for its value, which is filled in where the item is used. */
  function EvaluateValue(value: string, variables: Variables): Evaluation {
    match ExactReference(value)
    case Some(name) => Evaluation(EvaluateName(name, variables), true)
    case None =>
      var names := References(value);
      Separated(if names == [] then Evaluation([value], IsInert(value)) else EvaluateEmbedded(value, names, variables))
  }

  function Evaluate(values: seq<string>, variables: Variables): Evaluation {
    if values == [] then Evaluation([], true)
    else
      var first, rest := EvaluateValue(values[0], variables), Evaluate(values[1..], variables);
      Evaluation(first.items + rest.items, first.supported && rest.supported)
  }

  /** The truth of generator-expression conditions, and the values of external variables. */
  datatype World = World(truth: GenexTruth, outer: string -> string)

  // ----- commands -----

  datatype RunFrame = RunFrame(taken: bool, active: bool, elseSeen: bool)

  datatype Run = Run(
    variables: Variables,
    stack: seq<RunFrame>,
    dependencies: Relation,
    references: Relation,
    outer: Relation,
    supported: bool)

  const FRESH := Run(map[], [], map[], map[], map[], true)

  predicate Executing(stack: seq<RunFrame>) {
    forall f :: f in stack ==> f.active
  }

  /** A constant decides for itself, any other condition as the run has it. */
  function Decide(condition: seq<string>, choice: bool): bool {
    match Constant(condition)
    case Some(b) => b
    case None => choice
  }

  function BranchedRun(stack: seq<RunFrame>, kind: Kind, condition: bool): seq<RunFrame>
    requires IsBranching(kind)
  {
    if kind.If? then stack + [RunFrame(condition, condition, false)]
    else if stack == [] then stack
    else
      var top, below := stack[|stack| - 1], stack[..|stack| - 1];
      if kind.EndIf? then below
      else if top.elseSeen then stack
      else if kind.ElseIf? then below + [RunFrame(top.taken || condition, !top.taken && condition, false)]
      else below + [RunFrame(top.taken, !top.taken, true)]
  }

  /** Whether the argument refers to targets by what is written in the file. */
  predicate NamesTarget(item: string) {
    !Contains(item, "${") && item !in {"PUBLIC", "PRIVATE", "INTERFACE"}
  }

  /** The targets an evaluated argument refers to. */
  function ItemReferences(kind: Kind, item: string, truth: GenexTruth): set<string> {
    if NamesTarget(item) && (kind.TargetLinkLibraries? || Contains(item, "$<")) then ActualReference(item, truth) else {}
  }

  /** The target an evaluated argument of `add_dependencies` names outright. */
  function ItemDependencies(kind: Kind, item: string): set<string> {
    if kind.AddDependencies? && NamesTarget(item) && !Contains(item, "$<") then {item} else {}
  }

  /** The targets an evaluated argument refers to once the values of external variables are filled in. */
  function OuterReferences(kind: Kind, item: string, world: World): set<string> {
    if !Contains(item, "${") then {}
    else
      var text := Instantiated(item, world.outer);
      if kind.TargetLinkLibraries? || kind.AddDependencies? || Contains(text, "$<") then ActualReference(text, world.truth)
      else {}
  }

  /** An expression in an argument is one that the walk reads as it is meant; see `IsShaped`. */
  predicate IsReadable(item: string) {
    Contains(item, "${") || IsShaped(item)
  }

  /** One argument of a target. */
  function RunItem(run: Run, kind: Kind, target: string, item: string, world: World): Run {
    run.(dependencies := Added(run.dependencies, target, ItemDependencies(kind, item)),
         references := Added(run.references, target, ItemReferences(kind, item, world.truth)),
         outer := Added(run.outer, target, OuterReferences(kind, item, world)),
         supported := run.supported && IsReadable(item))
  }

  function RunItems(run: Run, kind: Kind, target: string, items: seq<string>, world: World): Run
    decreases |items|
  {
    if items == [] then run else RunItems(RunItem(run, kind, target, items[0], world), kind, target, items[1..], world)
  }

  /** The cache and parent-scope forms are given no meaning here. */
  function RunSet(run: Run, arguments: seq<string>): Run
    requires arguments != []
  {
    if FormOf(arguments) in {Bare, Plain} then run.(variables := run.variables[arguments[0] := arguments[1..]])
    else run.(supported := false)
  }

  function RunAppend(run: Run, arguments: seq<string>): Run {
    if |arguments| < 2 || arguments[0] != "APPEND" then run
    else run.(variables := run.variables[arguments[1] := Values(run.variables, arguments[1]) + arguments[2..]])
  }

  function Executed(run: Run, kind: Kind, arguments: seq<string>, world: World): Run {
    if arguments == [] then run
    else if kind.ListCommand? then RunAppend(run, arguments)
    else if kind.SetCommand? then RunSet(run, arguments)
    else if kind.AddCustomTarget? then run
    else RunItems(run, kind, arguments[0], arguments[1..], world)
  }

  function RunStep(run: Run, command: Command, choice: bool, world: World): Run {
    if IsBranching(command.kind) then
      run.(stack := BranchedRun(run.stack, command.kind, Decide(command.tokens, choice)))
    else if !Executing(run.stack) then run
    else
      var arguments := Evaluate(command.tokens, run.variables);
      Executed(run.(supported := run.supported && arguments.supported), command.kind, arguments.items, world)
  }

  /** One concrete run: `choices` decides the unknown condition of each command by its position. */
  function RunFrom(run: Run, commands: seq<Command>, choices: nat -> bool, position: nat, world: World): Run
    decreases |commands|
  {
    if commands == [] then run
    else RunFrom(RunStep(run, commands[0], choices(position), world), commands[1..], choices, position + 1, world)
  }

  function RunAll(commands: seq<Command>, choices: nat -> bool, world: World): Run {
    RunFrom(FRESH, commands, choices, 0, world)
  }

  /** The dependencies on declared targets that a run establishes. */
  function ActualDependencies(run: Run, target: string, targets: set<string>): set<string> {
    (At(run.dependencies, target) + At(run.references, target) + At(run.outer, target)) * targets
  }

  // ----- arguments without variables -----

  lemma CleanIsOneItem(text: string)
    requires IsClean(text)
    ensures ItemsOf(text) == [text]
  {
    OneItem(text);
  }

  /** A supported text is one item. */
  lemma {:induction false} EmbeddedIsWhole(substituted: string, names: seq<string>, variables: Variables)
    ensures var whole := EvaluateEmbedded(substituted, names, variables); whole.supported ==> Separated(whole) == whole
    decreases |names|
  {
    if names != [] {
      EmbeddedIsWhole(ReplaceFirst(substituted, Quoted(names[0]), Semicolons(EvaluateName(names[0], variables))), names[1..],
                      variables);
    } else if IsInert(substituted) {
      CleanIsOneItem(substituted);
    }
  }

  lemma PlainEvaluates(token: string, variables: Variables)
    requires !Contains(token, "${")
    ensures EvaluateValue(token, variables).supported <==> IsClean(token)
    ensures IsClean(token) ==> EvaluateValue(token, variables) == Evaluation([token], true)
  {
    hide IsClean, ItemsOf;
    NoReferences(token);
    if IsClean(token) {
      CleanIsOneItem(token);
    }
  }

  lemma PlainHead(tokens: seq<string>, variables: Variables)
    requires tokens != [] && !Contains(tokens[0], "${")
    ensures Evaluate(tokens, variables).supported <==> IsClean(tokens[0]) && Evaluate(tokens[1..], variables).supported
    ensures IsClean(tokens[0]) ==>
      Evaluate(tokens, variables).items == [tokens[0]] + Evaluate(tokens[1..], variables).items
  {
    hide IsClean, EvaluateValue;
    PlainEvaluates(tokens[0], variables);
  }

  lemma {:induction false} PlainStays(tokens: seq<string>, token: string, variables: Variables)
    requires token in tokens && !Contains(token, "${") && IsClean(token)
    ensures token in Evaluate(tokens, variables).items
  {
    hide IsClean, EvaluateValue;
    if tokens[0] == token {
      PlainEvaluates(token, variables);
    } else {
      PlainStays(tokens[1..], token, variables);
    }
  }

  lemma {:induction false} RunItemsOfSum(run: Run, kind: Kind, target: string, a: seq<string>, b: seq<string>, world: World)
    ensures RunItems(run, kind, target, a + b, world) == RunItems(RunItems(run, kind, target, a, world), kind, target, b, world)
    decreases |a|
  {
    hide RunItem;
    if a == [] {
      assert a + b == b;
    } else {
      assert (a + b)[1..] == a[1..] + b;
      RunItemsOfSum(RunItem(run, kind, target, a[0], world), kind, target, a[1..], b, world);
    }
  }

  predicate AllReadable(items: seq<string>) {
    forall x :: x in items ==> IsReadable(x)
  }

  lemma FirstIsReadable(items: seq<string>)
    requires items != []
    ensures AllReadable(items) <==> IsReadable(items[0]) && AllReadable(items[1..])
  {
    hide IsReadable;
    assert items == [items[0]] + items[1..];
  }

  lemma {:induction false} RunItemsKeeps(run: Run, kind: Kind, target: string, items: seq<string>, world: World)
    ensures var r := RunItems(run, kind, target, items, world);
            && r.variables == run.variables && r.stack == run.stack
            && (r.supported <==> run.supported && AllReadable(items))
    decreases |items|
  {
    hide ItemReferences, ItemDependencies, OuterReferences, IsReadable, Added;
    if items != [] {
      hide AllReadable;
      RunItemsKeeps(RunItem(run, kind, target, items[0], world), kind, target, items[1..], world);
      FirstIsReadable(items);
    }
  }

  // ----- an unsupported step is never forgotten -----

  lemma ExecutedKeepsUnsupported(run: Run, kind: Kind, arguments: seq<string>, world: World)
    ensures Executed(run, kind, arguments, world).supported ==> run.supported
  {
    if arguments != [] {
      RunItemsKeeps(run, kind, arguments[0], arguments[1..], world);
    }
  }

  lemma StepKeepsUnsupported(run: Run, command: Command, choice: bool, world: World)
    ensures RunStep(run, command, choice, world).supported ==> run.supported
    ensures RunStep(run, command, choice, world).supported && !IsBranching(command.kind) && Executing(run.stack) ==>
              Evaluate(command.tokens, run.variables).supported
  {
    hide Executed, Evaluate;
    if !IsBranching(command.kind) && Executing(run.stack) {
      var arguments := Evaluate(command.tokens, run.variables);
      ExecutedKeepsUnsupported(run.(supported := run.supported && arguments.supported), command.kind, arguments.items, world);
    }
  }

  lemma {:induction false} RunKeepsUnsupported(run: Run, commands: seq<Command>, choices: nat -> bool, position: nat,
                                               world: World)
    ensures RunFrom(run, commands, choices, position, world).supported ==> run.supported
    decreases |commands|
  {
    hide RunStep;
    if commands != [] {
      StepKeepsUnsupported(run, commands[0], choices(position), world);
      RunKeepsUnsupported(RunStep(run, commands[0], choices(position), world), commands[1..], choices, position + 1, world);
    }
  }
}
