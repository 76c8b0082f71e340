/** What the hypotheses of the soundness theorem exclude: programs in which the walk misses something. */
module CMakeEscapes {
  import opened Options
  import opened CMakeText
  import opened CMakeExpansion
  import opened CMakeWalk
  import opened CMakeConditions
  import opened CMakeExpressions
  import opened CMakeRuns
  import opened CMakeSoundness
  import opened CMakeExactness

  // ----- one reference inside a text -----

  /** No character that takes part in a reference, a list or a generator expression. */
  predicate IsPlain(s: string) {
    HasNone(s, '$') && HasNone(s, '{') && HasNone(s, '}') && HasNone(s, '<') && HasNone(s, '>') && HasNone(s, ';')
  }

  predicate IsWord(s: string) {
    s != "" && IsPlain(s) && s !in KEYWORDS
  }

  function Around(before: string, name: string, after: string): string {
    before + Quoted(name) + after
  }

  lemma MatchAt(s: string, p: string, i: nat, k: nat)
    requires k < |p|
    ensures IsAt(s, p, i) ==> i + k < |s| && s[i + k] == p[k]
  {
    if IsAt(s, p, i) {
      assert s[i..i + |p|][k] == s[i + k];
    }
  }

  lemma NoBraceNoReference(s: string)
    requires HasNone(s, '{')
    ensures !Contains(s, "${")
  {
    forall i: nat | i <= |s| ensures !IsAt(s, "${", i) {
      MatchAt(s, "${", i, 1);
    }
  }

  lemma PlainHasNone(s: string)
    requires IsPlain(s)
    ensures !Contains(s, "${") && !Contains(s, "$<") && (s != "" ==> IsClean(s)) && IsShaped(s) && IsReadable(s)
  {
    NoDollar(s, "${");
    NoDollar(s, "$<");
    if s != "" {
      WordIsClean(s);
    }
  }

  lemma CharactersAround(before: string, name: string, after: string)
    ensures var s, m := Around(before, name, after), |before|;
            && |s| == m + |name| + 3 + |after| && s[m] == '$' && s[m + 1] == '{' && s[m + 2 + |name|] == '}'
            && (forall k :: 0 <= k < m ==> s[k] == before[k])
            && (forall k :: 0 <= k < |name| ==> s[m + 2 + k] == name[k])
            && (forall k :: 0 <= k < |after| ==> s[m + 3 + |name| + k] == after[k])
            && s[m..m + |name| + 3] == Quoted(name) && s[m + 2..m + 2 + |name|] == name
            && s[..m] == before && s[m + |name| + 3..] == after
  {
    var s := Around(before, name, after);
    assert s == before + (Quoted(name) + after);
  }

  lemma {:induction false} NoDollarFrom(s: string, i: nat)
    requires i <= |s| && forall k :: i <= k < |s| ==> s[k] != '$'
    ensures ReferencesFrom(s, i) == []
    decreases |s| - i
  {
    if i < |s| {
      MatchAt(s, "${", i, 0);
      assert ReferenceEnd(s, i) == None;
      NoDollarFrom(s, i + 1);
    }
  }

  lemma ReferenceHere(before: string, name: string, after: string)
    requires IsName(name)
    ensures ReferenceEnd(Around(before, name, after), |before|) == Some(|before| + |name| + 3)
  {
    var s, m := Around(before, name, after), |before|;
    CharactersAround(before, name, after);
    assert s[m..m + 2] == "${";
    var e := NextBrace(s, m + 2);
    forall k | m + 2 <= k < m + 2 + |name| ensures s[k] !in {'{', '}'} {
      assert s[k] == name[k - m - 2];
    }
  }

  lemma NoReferenceBefore(before: string, name: string, after: string, i: nat)
    requires HasNone(before, '{') && i < |before|
    ensures !IsAt(Around(before, name, after), "${", i) && !IsAt(Around(before, name, after), Quoted(name), i)
  {
    var s := Around(before, name, after);
    CharactersAround(before, name, after);
    assert s[i + 1] != '{';
    MatchAt(s, "${", i, 1);
    MatchAt(s, Quoted(name), i, 1);
  }

  lemma {:induction false} ReferencesAround(before: string, name: string, after: string, i: nat)
    requires IsName(name) && HasNone(before, '{') && HasNone(after, '$') && i <= |before|
    ensures ReferencesFrom(Around(before, name, after), i) == [name]
    decreases |before| - i
  {
    hide Around, ReferenceEnd, HasNone;
    var s, m := Around(before, name, after), |before|;
    CharactersAround(before, name, after);
    if i < m {
      NoEndBefore(before, name, after, i);
      ReferencesAround(before, name, after, i + 1);
    } else {
      ReferenceHere(before, name, after);
      NothingAfter(before, name, after);
      assert [name] + [] == [name];
    }
  }

  lemma NoEndBefore(before: string, name: string, after: string, i: nat)
    requires HasNone(before, '{') && i < |before|
    ensures ReferenceEnd(Around(before, name, after), i) == None
  {
    NoReferenceBefore(before, name, after, i);
  }

  lemma NothingAfter(before: string, name: string, after: string)
    requires HasNone(after, '$')
    ensures |before| + |name| + 3 <= |Around(before, name, after)|
    ensures ReferencesFrom(Around(before, name, after), |before| + |name| + 3) == []
  {
    hide Around, ReferenceEnd;
    var s, e := Around(before, name, after), |before| + |name| + 3;
    CharactersAround(before, name, after);
    forall k | e <= k < |s| ensures s[k] != '$' {
      assert s[k] == after[k - e];
    }
    NoDollarFrom(s, e);
  }

  lemma {:induction false} FindAround(before: string, name: string, after: string, i: nat)
    requires HasNone(before, '{') && i <= |before|
    ensures Find(Around(before, name, after), Quoted(name), i) == Some(|before|)
    decreases |before| - i
  {
    var s := Around(before, name, after);
    CharactersAround(before, name, after);
    if i < |before| {
      NoReferenceBefore(before, name, after, i);
      FindAround(before, name, after, i + 1);
    }
  }

  /** A text around one variable with one item evaluates to the text around the item. */
  lemma TextEvaluates(before: string, name: string, after: string, item: string, variables: Variables)
    requires IsName(name) && HasNone(before, '{') && HasNone(after, '$') && HasNone(after, '{') && HasNone(item, '{')
    requires before != "" && name in variables && variables[name] == [item] && IsClean(before + item + after)
    ensures Contains(Around(before, name, after), "${")
    ensures EvaluateValue(Around(before, name, after), variables) == Evaluation([before + item + after], true)
  {
    var token, text := Around(before, name, after), before + item + after;
    ReferencesAround(before, name, after, 0);
    assert References(token) == [name];
    FindAround(before, name, after, 0);
    CharactersAround(before, name, after);
    assert ReplaceFirst(token, Quoted(name), item) == text;
    assert IsAt(token, "${", |before|) by { assert token[|before|..|before| + 2] == "${"; }
    NotExact(before, name, after);
    NoBraceNoReference(text);
    NoReferences(text);
    assert EvaluateName(name, variables) == [item];
    assert [name][1..] == [];
    assert EvaluateEmbedded(text, [], variables) == Evaluation([text], true);
    CleanIsOneItem(text);
  }

  lemma NotExact(before: string, name: string, after: string)
    requires before != "" && References(Around(before, name, after)) == [name]
    ensures ExactReference(Around(before, name, after)) == None
  {
    match ExactReference(Around(before, name, after))
    case None =>
    case Some(n) => SameName(n, name);
  }

  lemma SameName(a: string, b: string)
    requires [a] == [b]
    ensures a == b && |Quoted(a)| == |b| + 3
  {
    assert [a][0] == [b][0];
  }

  // ----- one assignment -----

  /** set(<name> <item>) */
  function Assign(name: string, item: string): Command {
    Command(SetCommand, [name, item])
  }

  lemma PlainForm(name: string, value: string)
    requires name !in KEYWORDS && value !in KEYWORDS
    ensures FormOf([name, value]).Plain?
  {
    assert "CACHE" !in [name, value] && "PARENT_SCOPE" !in [name, value];
  }

  lemma ExpandsPlain(item: string, variables: Variables, context: string, stack: seq<string>)
    requires !Contains(item, "${")
    ensures Expand([item], variables, context, stack) == Expansion([item], [])
  {
    NoReferences(item);
    assert [item][1..] == [];
    assert Expand([], variables, context, stack) == Expansion([], []);
  }

  lemma SetsOneItem(walk: Walk, name: string, value: string, item: string, targets: set<string>)
    requires name !in walk.variables && ActiveCondition(walk.stack) != False
    requires FormOf([name, value]).Plain?
    requires Expand([value], walk.variables, name, [name]) == Expansion([item], [])
    ensures Step(walk, Assign(name, value), targets) == walk.(variables := walk.variables[name := [item]])
  {
    hide FormOf, Expand;
    var tokens := [name, value];
    assert tokens[1..] == [value];
    assert Kept(walk, name) == [];
    assert [] + [item] == [item] && [item][..0] == [];
    assert Deduplicated([item]) == [item];
    assert walk.errors + [] == walk.errors;
  }

  lemma EvaluatesPair(first: string, second: string, variables: Variables)
    ensures var a, b := EvaluateValue(first, variables), EvaluateValue(second, variables);
            Evaluate([first, second], variables) == Evaluation(a.items + b.items, a.supported && b.supported)
  {
    hide EvaluateValue;
    var b := EvaluateValue(second, variables);
    assert [first, second][1..] == [second] && [second][1..] == [];
    assert Evaluate([], variables) == Evaluation([], true);
    assert b.items + [] == b.items;
  }

  lemma RunSets(run: Run, name: string, value: string, choice: bool, world: World)
    requires run.stack == [] && !Contains(name, "${") && IsClean(name)
    requires FormOf([name] + EvaluateValue(value, run.variables).items) in {Bare, Plain}
    ensures RunStep(run, Assign(name, value), choice, world)
         == run.(variables := run.variables[name := EvaluateValue(value, run.variables).items],
                 supported := run.supported && EvaluateValue(value, run.variables).supported)
  {
    hide EvaluateValue, FormOf;
    PlainEvaluates(name, run.variables);
    EvaluatesPair(name, value, run.variables);
    var items := EvaluateValue(value, run.variables).items;
    assert ([name] + items)[1..] == items && ([name] + items)[0] == name;
  }

  /** Both sides after set(<name> <item>) with plain words. */
  lemma FirstAssignment(name: string, item: string, targets: set<string>, choice: bool, world: World)
    requires IsWord(name) && IsWord(item)
    ensures Step(START, Assign(name, item), targets) == START.(variables := map[name := [item]])
    ensures RunStep(FRESH, Assign(name, item), choice, world) == FRESH.(variables := map[name := [item]])
  {
    PlainHasNone(name);
    PlainHasNone(item);
    PlainForm(name, item);
    ExpandsPlain(item, START.variables, name, [name]);
    assert ActiveCondition([]) == True;
    SetsOneItem(START, name, item, item, targets);
    PlainEvaluates(item, FRESH.variables);
    assert [name] + [item] == [name, item];
    RunSets(FRESH, name, item, choice, world);
    assert map[][name := [item]] == map[name := [item]];
  }

  // ----- arguments that the walk does not follow -----

  lemma Unfold3(walk: Walk, run: Run, c: seq<Command>, targets: set<string>, choices: nat -> bool, world: World)
    requires |c| == 3
    ensures WalkFrom(walk, c, targets) == Step(Step(Step(walk, c[0], targets), c[1], targets), c[2], targets)
    ensures RunFrom(run, c, choices, 0, world)
         == RunStep(RunStep(RunStep(run, c[0], choices(0), world), c[1], choices(1), world), c[2], choices(2), world)
  {
    hide Step, RunStep;
    var w, r := Step(walk, c[0], targets), RunStep(run, c[0], choices(0), world);
    var x, s := Step(w, c[1], targets), RunStep(r, c[1], choices(1), world);
    assert c[1..][1..] == c[2..] && c[2..][1..] == [];
    assert WalkFrom(w, c[1..], targets) == WalkFrom(x, c[2..], targets);
    assert RunFrom(r, c[1..], choices, 1, world) == RunFrom(s, c[2..], choices, 2, world);
    assert WalkFrom(x, c[2..], targets) == WalkFrom(Step(x, c[2], targets), [], targets);
    assert RunFrom(s, c[2..], choices, 2, world) == RunFrom(RunStep(s, c[2], choices(2), world), [], choices, 3, world);
  }

  lemma CustomTargetIdles(walk: Walk, run: Run, name: string, targets: set<string>, choice: bool, world: World)
    requires !Contains(name, "${") && IsClean(name)
    ensures Step(walk, Command(AddCustomTarget, [name]), targets) == walk
    ensures RunStep(run, Command(AddCustomTarget, [name]), choice, world) == run
  {
    PlainEvaluates(name, run.variables);
    PlainHead([name], run.variables);
    assert [name][1..] == [];
  }

  lemma OneToken(walk: Walk, run: Run, kind: Kind, target: string, token: string, item: string, targets: set<string>,
                 choice: bool, world: World)
    requires kind in {TargetLinkLibraries, AddDependencies, AddLibrary, AddExecutable, TargetSources}
    requires !Contains(target, "${") && IsClean(target) && run.stack == []
    requires EvaluateValue(token, run.variables) == Evaluation([item], true)
    ensures Step(walk, Command(kind, [target, token]), targets) == TargetToken(walk, kind, target, token, targets)
    ensures RunStep(run, Command(kind, [target, token]), choice, world) == RunItem(run, kind, target, item, world)
  {
    hide EvaluateValue, TargetToken, RunItem, IsClean;
    PlainEvaluates(target, run.variables);
    EvaluatesPair(target, token, run.variables);
    assert [target] + [item] == [target, item] && [target, item][1..] == [item];
    assert [target, token][1..] == [token] && [token][1..] == [];
    assert run.(supported := run.supported && true) == run;
    var next := TargetToken(walk, kind, target, token, targets);
    assert TargetTokens(next, kind, target, [], targets) == next;
    assert TargetTokens(walk, kind, target, [token], targets) == TargetTokens(next, kind, target, [token][1..], targets);
    OneItemRuns(run, kind, target, item, world);
  }

  lemma OneItemRuns(run: Run, kind: Kind, target: string, item: string, world: World)
    ensures RunItems(run, kind, target, [item], world) == RunItem(run, kind, target, item, world)
  {
    hide RunItem;
    assert [item][1..] == [];
    assert RunItems(RunItem(run, kind, target, item, world), kind, target, [], world) == RunItem(run, kind, target, item, world);
  }

  /** set(<name> <item>) add_custom_target(<before><item><after>) add_dependencies(<target> <before>${<name>}<after>) */
  function DependencyOnText(before: string, name: string, after: string, item: string, target: string): seq<Command> {
    [Assign(name, item), Command(AddCustomTarget, [before + item + after]),
     Command(AddDependencies, [target, Around(before, name, after)])]
  }

  /** The walk records no error, the run is supported and assigns no external variable, and yet a dependency is missed. */
  ghost predicate DependencyEscapes(c: seq<Command>, choices: nat -> bool, world: World, target: string, missed: string) {
    && Graph(c).errors == [] && RunAll(c, choices, world).supported && KeepsOpaque(c)
    && missed in ActualDependencies(RunAll(c, choices, world), target, Targets(c))
    && missed !in At(Graph(c).edges, target)
  }

  lemma TargetsOf(c: seq<Command>, i: nat)
    requires i < |c| && DeclaresTarget(c[i])
    ensures c[i].tokens[0] in Targets(c)
  {
    assert c[i] in c;
  }

  /**
   A dependency written as a text around a variable: the walk records the text as it stands.  Every such argument
   has a program in which the dependency is missed.
  */
  lemma DependencyOnTextEscapes(before: string, name: string, after: string, item: string, target: string,
                                choices: nat -> bool, world: World)
    requires IsWord(name) && IsWord(item) && IsWord(target) && !IsOpaque(name)
    requires before != "" && IsPlain(before) && IsPlain(after) && before + item + after !in VISIBILITY
    ensures !Followed(AddDependencies, Around(before, name, after))
    ensures DependencyEscapes(DependencyOnText(before, name, after, item, target), choices, world, target, before + item + after)
  {
    hide DependencyOnText, Around, IsPlain, IsWord, ActualReference;
    var c, text, token := DependencyOnText(before, name, after, item, target), before + item + after, Around(before, name, after);
    DependencyOnTextStates(before, name, after, item, target, Targets(c), choices, world);
    DependencyOnTextFacts(before, name, after, item, target);
  }

  lemma DependencyOnTextFacts(before: string, name: string, after: string, item: string, target: string)
    requires IsWord(name) && IsWord(item) && IsWord(target) && !IsOpaque(name)
    requires before != "" && IsPlain(before) && IsPlain(after)
    ensures var c, token := DependencyOnText(before, name, after, item, target), Around(before, name, after);
            && !Followed(AddDependencies, token) && KeepsOpaque(c) && before + item + after in Targets(c)
            && token != before + item + after
  {
    hide IsOpaque;
    var c, token := DependencyOnText(before, name, after, item, target), Around(before, name, after);
    TextIsNoReference(before, name, after);
    CharactersAround(before, name, after);
    PlainText(before, item, after);
    assert IsAt(token, "${", |before|) by { assert token[|before|..|before| + 2] == "${"; }
    PlainHasNone(before + item + after);
    TargetsOf(c, 1);
  }

  lemma DependencyOnTextStates(before: string, name: string, after: string, item: string, target: string, targets: set<string>,
                               choices: nat -> bool, world: World)
    requires IsWord(name) && IsWord(item) && IsWord(target)
    requires before != "" && IsPlain(before) && IsPlain(after) && before + item + after !in VISIBILITY
    ensures var c := DependencyOnText(before, name, after, item, target);
            && WalkFrom(START, c, targets)
               == START.(variables := map[name := [item]], edges := map[target := {Around(before, name, after)}])
            && RunAll(c, choices, world)
               == FRESH.(variables := map[name := [item]], dependencies := map[target := {before + item + after}],
                         references := map[target := {}], outer := map[target := {}])
  {
    hide Step, RunStep, Around, IsOpaque, ActualReference, Reference, EvaluateValue, Find, References;
    var c, text, token := DependencyOnText(before, name, after, item, target), before + item + after, Around(before, name, after);
    PlainText(before, item, after);
    PlainHasNone(text);
    PlainHasNone(target);
    FirstAssignment(name, item, targets, choices(0), world);
    Unfold3(START, FRESH, c, targets, choices, world);
    var walk, run := START.(variables := map[name := [item]]), FRESH.(variables := map[name := [item]]);
    CustomTargetIdles(walk, run, text, targets, choices(1), world);
    TextEvaluates(before, name, after, item, run.variables);
    TextIsNoReference(before, name, after);
    OneToken(walk, run, AddDependencies, target, token, text, targets, choices(2), world);
    AddedToNothing(target, {token});
    AddedToNothing(target, {text});
    AddedToNothing(target, {});
    assert c[0] == Assign(name, item) && c[1] == Command(AddCustomTarget, [text]);
    assert ItemDependencies(AddDependencies, text) == {text} && ItemReferences(AddDependencies, text, world.truth) == {};
  }

  lemma PlainOuter(kind: Kind, item: string, world: World)
    requires !Contains(item, "${")
    ensures OuterReferences(kind, item, world) == {}
  {
  }

  lemma AddedToNothing(target: string, names: set<string>)
    ensures Added(map[], target, names) == map[target := names]
  {
    assert At(map[], target) + names == names;
  }

  lemma PlainText(before: string, item: string, after: string)
    requires IsPlain(before) && IsPlain(item) && IsPlain(after)
    ensures IsPlain(before + item + after)
  {
  }

  lemma TextIsNoReference(before: string, name: string, after: string)
    requires before != "" && IsPlain(before) && IsPlain(after) && IsPlain(name)
    ensures var token := Around(before, name, after);
            !Contains(token, "$<") && !StartsWith(token, "${") && ObjectsOf(token).None? && token !in VISIBILITY
  {
    var token := Around(before, name, after);
    CharactersAround(before, name, after);
    assert HasNone(token, '<');
    forall i: nat | i <= |token| ensures !IsAt(token, "$<", i) {
      MatchAt(token, "$<", i, 1);
    }
    MatchAt(token, "${", 0, 0);
    MatchAt(token, "$<" + OBJECTS, 0, 0);
    assert token[|before|] == '$';
    assert forall v :: v in VISIBILITY ==> HasNone(v, '$') by {
      forall v | v in VISIBILITY ensures HasNone(v, '$') {
        assert v in ["PUBLIC", "PRIVATE", "INTERFACE"];
      }
    }
  }

  // ----- objects of a library named by a variable -----

  /** set(<name> <item>) add_custom_target(<item>) add_library(<target> $<TARGET_OBJECTS:${<name>}>) */
  function ObjectsThrough(name: string, item: string, target: string): seq<Command> {
    [Assign(name, item), Command(AddCustomTarget, [item]), Command(AddLibrary, [target, Around("$<" + OBJECTS, name, ">")])]
  }

  lemma {:induction false} NestingToEnd(s: string, i: nat)
    requires i < |s| && s[|s| - 1] == '>' && forall k :: i <= k < |s| - 1 ==> s[k] !in {'$', '>'}
    ensures Nesting(s, i) == -1
    decreases |s| - i
  {
    MatchAt(s, "$<", i, 0);
    if i < |s| - 1 {
      NestingToEnd(s, i + 1);
    }
  }

  lemma ObjectsCharacters()
    ensures |OBJECTS| == 15 && HasNone(OBJECTS, '{') && HasNone(OBJECTS, '$') && HasNone(OBJECTS, '>') && HasNone(OBJECTS, ';')
    ensures ("$<" + OBJECTS)[0] == '$' && HasNone("$<" + OBJECTS, '{')
  {
  }

  lemma {:induction false} CloseAfter(s: string, i: nat, k: nat, depth: nat)
    requires i <= k <= |s| && forall n :: i <= n < k ==> s[n] !in {'$', '>'}
    ensures CloseFrom(s, i, depth) == CloseFrom(s, k, depth)
    decreases k - i
  {
    if i < k {
      MatchAt(s, "$<", i, 0);
      CloseAfter(s, i + 1, k, depth);
    }
  }

  /** The reference to the objects of a library is shaped and refers to the library. */
  lemma ObjectsRead(item: string, truth: GenexTruth)
    requires IsPlain(item)
    ensures var text := "$<" + OBJECTS + item + ">";
            && Contains(text, "$<") && IsShaped(text) && IsClean(text)
            && Value(text, truth) == Meaning("", {item}) && ActualReference(text, truth) == {item}
  {
    hide Split, ItemsOf, IsClean, Expression;
    var text, inner := "$<" + OBJECTS + item + ">", OBJECTS + item;
    ObjectsCharacters();
    assert text == "$<" + inner + ">" && text[2..|text| - 1] == inner;
    assert IsAt(text, "$<", 0) by { assert text[0..2] == "$<"; }
    forall k | 2 <= k < |text| - 1 ensures text[k] !in {'$', '>'} {
      assert text[k] == inner[k - 2];
    }
    CloseAfter(text, 2, |text| - 1, 1);
    MatchAt(text, "$<", |text| - 1, 1);
    assert CloseFrom(text, 2, 1) == Some(|text| - 1);
    assert StartsWith(inner, OBJECTS) && inner[|OBJECTS|..] == item;
    OneExpression(text, truth);
    PlainHasNone(item);
    ObjectsExpression(item, truth);
    NothingMeans(truth);
    ObjectsAreClean(item);
  }

  lemma ObjectsExpression(item: string, truth: GenexTruth)
    requires !Contains(item, "$<")
    ensures Expression(OBJECTS + item, truth) == Meaning("", {item})
  {
    hide Split;
    var inner := OBJECTS + item;
    assert inner[0..|OBJECTS|] == OBJECTS && inner[|OBJECTS|..] == item;
    NoExpression(item, truth);
  }

  lemma ObjectsAreClean(item: string)
    requires IsPlain(item)
    ensures IsClean("$<" + OBJECTS + item + ">")
  {
    var text, inner := "$<" + OBJECTS + item + ">", OBJECTS + item;
    ObjectsCharacters();
    assert text[1] == '<' && forall k :: 2 <= k < |text| - 1 ==> text[k] == inner[k - 2];
    assert HasNone(inner, '$') && HasNone(inner, ';');
    NotThere(text, "$ENV{");
    NotThere(text, "$CACHE{");
    NotThere(text, "${");
  }

  lemma ObjectsTaken(name: string)
    requires IsPlain(name)
    ensures ObjectsOf(Around("$<" + OBJECTS, name, ">")) == Some(Quoted(name))
    ensures Contains(Around("$<" + OBJECTS, name, ">"), "${")
  {
    var token := Around("$<" + OBJECTS, name, ">");
    ObjectsCharacters();
    CharactersAround("$<" + OBJECTS, name, ">");
    assert token[0..2 + |OBJECTS|] == "$<" + OBJECTS;
    assert token[2 + |OBJECTS|..|token| - 1] == Quoted(name);
    assert IsAt(token, "${", 17) by { assert token[17..19] == "${"; }
  }

  lemma ObjectsThroughStates(name: string, item: string, target: string, targets: set<string>, choices: nat -> bool, world: World)
    requires IsWord(name) && IsWord(item) && IsWord(target)
    ensures var c, library := ObjectsThrough(name, item, target), {Quoted(name)};
            && WalkFrom(START, c, targets)
               == START.(variables := map[name := [item]], edges := map[target := library], references := map[target := library])
            && RunAll(c, choices, world)
               == FRESH.(variables := map[name := [item]], dependencies := map[target := {}], references := map[target := {item}],
                         outer := map[target := {}])
  {
    hide Step, RunStep, Around, IsOpaque, ActualReference, Reference, EvaluateValue, Find, References, ObjectsOf, Inner, IsClean, IsShaped, OuterReferences;
    var c, text, token := ObjectsThrough(name, item, target), "$<" + OBJECTS + item + ">", Around("$<" + OBJECTS, name, ">");
    PlainHasNone(item);
    PlainHasNone(target);
    FirstAssignment(name, item, targets, choices(0), world);
    Unfold3(START, FRESH, c, targets, choices, world);
    var walk, run := START.(variables := map[name := [item]]), FRESH.(variables := map[name := [item]]);
    CustomTargetIdles(walk, run, item, targets, choices(1), world);
    ObjectsCharacters();
    ObjectsRead(item, world.truth);
    TextEvaluates("$<" + OBJECTS, name, ">", item, run.variables);
    OneToken(walk, run, AddLibrary, target, token, text, targets, choices(2), world);
    ObjectsTaken(name);
    ObjectsNameTarget(item);
    PlainOuter(AddLibrary, text, world);
    AddedToNothing(target, {Quoted(name)});
    AddedToNothing(target, {item});
    AddedToNothing(target, {});
    assert c[0] == Assign(name, item) && c[1] == Command(AddCustomTarget, [item]);
    assert ItemDependencies(AddLibrary, text) == {} && ItemReferences(AddLibrary, text, world.truth) == {item};
  }

  lemma ObjectsNameTarget(item: string)
    requires IsPlain(item)
    ensures NamesTarget("$<" + OBJECTS + item + ">")
  {
    var text := "$<" + OBJECTS + item + ">";
    ObjectsCharacters();
    assert HasNone(text, '{');
    NoBraceNoReference(text);
    assert text[0] == '$';
  }

  /** The library is named by a variable: the walk records the reference as the name of the library. */
  lemma ObjectsThroughEscapes(name: string, item: string, target: string, choices: nat -> bool, world: World)
    requires IsWord(name) && IsWord(item) && IsWord(target) && !IsOpaque(name)
    ensures DependencyEscapes(ObjectsThrough(name, item, target), choices, world, target, item)
    ensures !Followed(AddLibrary, Around("$<" + OBJECTS, name, ">"))
  {
    hide Around, IsOpaque, ActualReference, WalkFrom, RunAll, Contains, ObjectsOf;
    var c := ObjectsThrough(name, item, target);
    ObjectsThroughStates(name, item, target, Targets(c), choices, world);
    ObjectsTaken(name);
    TargetsOf(c, 1);
    assert Quoted(name)[0] == '$' && item[0] != '$';
    assert KeepsOpaque(c);
  }

  // ----- a variable named by a variable -----

  /** set(<name> <item>) set(${<name>} <value>) */
  function NamedThrough(name: string, item: string, value: string): seq<Command> {
    [Assign(name, item), Assign(Quoted(name), value)]
  }

  lemma OpaqueIsPlain(name: string)
    requires IsOpaque(name)
    ensures name != "" && name[0] != '$'
  {
    assert name in ["CMAKE_CURRENT_BINARY_DIR", "CMAKE_CURRENT_SOURCE_DIR", "CIDX_CLANG_TIDY_EXECUTABLE", "_cidx_macos_sdk",
                    "CIDX_SOUFFLE_EXECUTABLE", "CIDX_SOUFFLE_INCLUDE_DIR", "LLVM_LIBRARY_DIR", "LLVM_VERSION_MAJOR",
                    "_cidx_cmake_root", "_cidx_llvm_cmakedir", "CMAKE_DL_LIBS"];
  }

  lemma EvaluatesExact(name: string, variables: Variables)
    requires IsName(name)
    ensures EvaluateValue(Quoted(name), variables) == Evaluation(EvaluateName(name, variables), true)
  {
    QuotedIsExact(name);
  }

  lemma Unfold2(walk: Walk, run: Run, c: seq<Command>, targets: set<string>, choices: nat -> bool, world: World)
    requires |c| == 2
    ensures WalkFrom(walk, c, targets) == Step(Step(walk, c[0], targets), c[1], targets)
    ensures RunFrom(run, c, choices, 0, world) == RunStep(RunStep(run, c[0], choices(0), world), c[1], choices(1), world)
  {
    hide Step, RunStep;
    var w, r := Step(walk, c[0], targets), RunStep(run, c[0], choices(0), world);
    assert c[1..][1..] == [];
    assert WalkFrom(w, c[1..], targets) == WalkFrom(Step(w, c[1], targets), [], targets);
    assert RunFrom(r, c[1..], choices, 1, world) == RunFrom(RunStep(r, c[1], choices(1), world), [], choices, 2, world);
  }

  lemma QuotedIsNotOpaque(name: string)
    ensures !IsOpaque(Quoted(name)) && Contains(Quoted(name), "${")
  {
    assert Quoted(name)[0..2] == "${" && Quoted(name)[0] == '$';
    assert IsAt(Quoted(name), "${", 0);
    if IsOpaque(Quoted(name)) {
      OpaqueIsPlain(Quoted(name));
    }
  }

  lemma NamedThroughStates(name: string, item: string, value: string, targets: set<string>, choices: nat -> bool, world: World)
    requires IsWord(name) && IsWord(item) && IsWord(value)
    ensures var c := NamedThrough(name, item, value);
            && WalkFrom(START, c, targets) == START.(variables := map[name := [item]][Quoted(name) := [value]])
            && RunAll(c, choices, world) == FRESH.(variables := map[name := [item]][item := [value]])
  {
    hide Step, RunStep, EvaluateValue, FormOf, Contains;
    var c := NamedThrough(name, item, value);
    Unfold2(START, FRESH, c, targets, choices, world);
    FirstAssignment(name, item, targets, choices(0), world);
    var walk, run := START.(variables := map[name := [item]]), FRESH.(variables := map[name := [item]]);
    assert Quoted(name)[0] == '$';
    PlainHasNone(value);
    PlainForm(Quoted(name), value);
    ExpandsPlain(value, walk.variables, Quoted(name), [Quoted(name)]);
    assert ActiveCondition(walk.stack) == True;
    SetsOneItem(walk, Quoted(name), value, value, targets);
    PlainEvaluates(value, run.variables);
    EvaluatesExact(name, run.variables);
    EvaluatesPair(Quoted(name), value, run.variables);
    assert [item] + [value] == [item, value];
    PlainForm(item, value);
    NamedRuns(run, Quoted(name), item, value, choices(1), world);
  }

  /** The run assigns the variable that the name stands for; the walk assigns one that is called "${<name>}". */
  lemma NamedThroughEscapes(name: string, item: string, value: string, choices: nat -> bool, world: World)
    requires IsWord(name) && IsWord(item) && IsWord(value) && !IsOpaque(name) && name != item
    ensures var c := NamedThrough(name, item, value);
            && Graph(c).errors == [] && RunAll(c, choices, world).supported && KeepsOpaque(c)
            && item in RunAll(c, choices, world).variables && item !in Graph(c).variables
    ensures !NamesDirectly(Assign(Quoted(name), value))
  {
    hide IsOpaque, RunAll, WalkFrom;
    var c := NamedThrough(name, item, value);
    NamedThroughStates(name, item, value, Targets(c), choices, world);
    QuotedIsNotOpaque(name);
    assert Quoted(name)[0] == '$';
  }

  lemma NamedRuns(run: Run, name: string, item: string, value: string, choice: bool, world: World)
    requires run.stack == [] && Evaluate([name, value], run.variables) == Evaluation([item, value], true)
    requires FormOf([item, value]).Plain?
    ensures RunStep(run, Assign(name, value), choice, world) == run.(variables := run.variables[item := [value]])
  {
    hide Evaluate, FormOf;
    assert [item, value][1..] == [value];
    assert run.(supported := run.supported && true) == run;
  }

  // ----- a variable that some runs leave unset -----

  /** if(<condition>) set(<name> <item>) endif() set(<other> <before>${<name>}) */
  function UnsetInText(condition: seq<string>, name: string, item: string, other: string, before: string): seq<Command> {
    [Command(If, condition), Assign(name, item), Command(EndIf, []), Assign(other, Around(before, name, ""))]
  }

  lemma Unfold4(walk: Walk, run: Run, c: seq<Command>, targets: set<string>, choices: nat -> bool, world: World)
    requires |c| == 4
    ensures WalkFrom(walk, c, targets)
         == Step(Step(Step(Step(walk, c[0], targets), c[1], targets), c[2], targets), c[3], targets)
    ensures RunFrom(run, c, choices, 0, world)
         == RunStep(RunStep(RunStep(RunStep(run, c[0], choices(0), world), c[1], choices(1), world), c[2], choices(2), world),
                    c[3], choices(3), world)
  {
    hide Step, RunStep;
    var w, r := Step(walk, c[0], targets), RunStep(run, c[0], choices(0), world);
    var x, s := Step(w, c[1], targets), RunStep(r, c[1], choices(1), world);
    var y, t := Step(x, c[2], targets), RunStep(s, c[2], choices(2), world);
    assert c[1..][1..] == c[2..] && c[2..][1..] == c[3..] && c[3..][1..] == [] && c[3..][0] == c[3];
    assert WalkFrom(w, c[1..], targets) == WalkFrom(x, c[2..], targets) == WalkFrom(y, c[3..], targets);
    assert RunFrom(r, c[1..], choices, 1, world) == RunFrom(s, c[2..], choices, 2, world) == RunFrom(t, c[3..], choices, 3, world);
    assert WalkFrom(y, c[3..], targets) == WalkFrom(Step(y, c[3], targets), [], targets);
    assert RunFrom(t, c[3..], choices, 3, world) == RunFrom(RunStep(t, c[3], choices(3), world), [], choices, 4, world);
  }

  lemma OpenBranch(condition: seq<string>, targets: set<string>, choice: bool, world: World)
    requires Condition(condition) == Unknown && !choice
    ensures Step(START, Command(If, condition), targets) == START.(stack := [Frame(Unknown, Unknown, false)])
    ensures RunStep(FRESH, Command(If, condition), choice, world) == FRESH.(stack := [RunFrame(false, false, false)])
  {
    hide Condition, Constant;
    ConditionIsConstant(condition);
  }

  lemma OpenStates()
    ensures ActiveCondition([Frame(Unknown, Unknown, false)]) == Unknown && !Executing([RunFrame(false, false, false)])
  {
    assert [Frame(Unknown, Unknown, false)][0] in [Frame(Unknown, Unknown, false)];
    assert [RunFrame(false, false, false)][0] in [RunFrame(false, false, false)];
  }

  lemma CloseBranch(walk: Walk, run: Run, targets: set<string>, choice: bool, world: World)
    requires |walk.stack| == 1 && |run.stack| == 1
    ensures Step(walk, Command(EndIf, []), targets) == walk.(stack := [])
    ensures RunStep(run, Command(EndIf, []), choice, world) == run.(stack := [])
  {
    assert walk.errors + [] == walk.errors;
  }

  lemma TextExpands(before: string, name: string, item: string, variables: Variables, context: string, stack: seq<string>)
    requires IsWord(name) && IsWord(item) && IsWord(before)
    requires name in variables && variables[name] == [item] && name !in stack
    ensures Expand([Around(before, name, "")], variables, context, stack) == Expansion([before + item], [])
  {
    hide Around, Find, References, ExactReference;
    var token := Around(before, name, "");
    TextShape(before, name, item);
    PlainHasNone(item);
    ExpandsPlain(item, variables, context, stack + [name]);
    assert ExpandName(name, variables, context, stack) == Expansion([item], []);
    assert [name][1..] == [] && [token][1..] == [];
    assert ExpandEmbedded(token, before + item, [], variables, context, stack) == Expansion([before + item], []);
    assert ExpandEmbedded(token, token, [name], variables, context, stack) == Expansion([before + item], []);
    assert Expand([], variables, context, stack) == Expansion([], []);
  }

  lemma TextShape(before: string, name: string, item: string)
    requires IsWord(name) && IsPlain(item) && IsWord(before)
    ensures var token := Around(before, name, "");
            References(token) == [name] && ExactReference(token) == None && ReplaceFirst(token, Quoted(name), item) == before + item
  {
    hide References, ExactReference, Find;
    ReferencesFromStart(before, name);
    NotExact(before, name, "");
    FindAround(before, name, "", 0);
    CharactersAround(before, name, "");
    assert before + item + "" == before + item;
  }

  lemma ReferencesFromStart(before: string, name: string)
    requires IsWord(name) && IsWord(before)
    ensures References(Around(before, name, "")) == [name]
  {
    ReferencesAround(before, name, "", 0);
  }

  lemma TextUnset(before: string, name: string, variables: Variables)
    requires IsWord(name) && IsWord(before) && name !in variables && !IsOpaque(name)
    ensures EvaluateValue(Around(before, name, ""), variables) == Evaluation([before], false)
  {
    OneItem(before);
    hide Around, Find, References, ExactReference;
    var token := Around(before, name, "");
    TextShape(before, name, "");
    assert before + "" == before && [name][1..] == [];
    assert EvaluateName(name, variables) == [] && Semicolons([]) == "";
    assert EvaluateEmbedded(before, [], variables).items == [before];
    assert EvaluateEmbedded(token, [name], variables) == Evaluation([before], false);
  }

  lemma UnsetInTextStates(condition: seq<string>, name: string, item: string, other: string, before: string,
                          targets: set<string>, choices: nat -> bool, world: World)
    requires Condition(condition) == Unknown && !choices(0) && !IsOpaque(name)
    requires IsWord(name) && IsWord(item) && IsWord(other) && IsWord(before) && name != other
    ensures var c := UnsetInText(condition, name, item, other, before);
            && WalkFrom(START, c, targets) == START.(variables := map[name := [item]][other := [before + item]])
            && RunAll(c, choices, world) == FRESH.(variables := map[other := [before]], supported := false)
  {
    hide Step, RunStep, Condition, Around, IsOpaque, EvaluateValue, Expand, FormOf, Executing, ActiveCondition;
    var c, token := UnsetInText(condition, name, item, other, before), Around(before, name, "");
    Unfold4(START, FRESH, c, targets, choices, world);
    OpenBranch(condition, targets, choices(0), world);
    OpenStates();
    var w1, r1 := START.(stack := [Frame(Unknown, Unknown, false)]), FRESH.(stack := [RunFrame(false, false, false)]);
    PlainHasNone(item);
    PlainHasNone(other);
    PlainForm(name, item);
    ExpandsPlain(item, w1.variables, name, [name]);
    SetsOneItem(w1, name, item, item, targets);
    SkipsStep(r1, Assign(name, item), choices(1), world);
    var w2 := w1.(variables := map[name := [item]]);
    CloseBranch(w2, r1, targets, choices(2), world);
    var w3 := START.(variables := map[name := [item]]);
    NoFrames();
    TextIsNoKeyword(before, name);
    PlainForm(other, token);
    TextExpands(before, name, item, w3.variables, other, [other]);
    SetsOneItem(w3, other, token, before + item, targets);
    TextUnset(before, name, FRESH.variables);
    PlainForm(other, before);
    assert [other] + [before] == [other, before];
    RunSets(FRESH, other, token, choices(3), world);
  }

  lemma NoFrames()
    ensures ActiveCondition([]) == True
  {
  }

  lemma SkipsStep(run: Run, command: Command, choice: bool, world: World)
    requires !IsBranching(command.kind) && !Executing(run.stack)
    ensures RunStep(run, command, choice, world) == run
  {
  }

  lemma TextIsNoKeyword(before: string, name: string)
    ensures Around(before, name, "") !in KEYWORDS
  {
    var s := Around(before, name, "");
    CharactersAround(before, name, "");
    assert s[|before|] == '$';
    assert HasNone("CACHE", '$') && HasNone("PARENT_SCOPE", '$');
  }

  /**
   Why a run has to be supported: the walk takes the item for granted inside the text, but a run that skips the
   branch has nothing there.
  */
  lemma UnsetInsideTextEscapes(condition: seq<string>, name: string, item: string, other: string, before: string,
                               choices: nat -> bool, world: World)
    requires Condition(condition) == Unknown && !choices(0) && !IsOpaque(name) && !IsOpaque(other)
    requires IsWord(name) && IsWord(item) && IsWord(other) && IsWord(before) && name != other
    ensures var c := UnsetInText(condition, name, item, other, before);
            var graph, run := Graph(c), RunAll(c, choices, world);
            && KeepsOpaque(c) && AllNamesDirect(c) && graph.errors == [] && !run.supported
            && other in run.variables && run.variables[other] == [before]
            && other in graph.variables && graph.variables[other] == [before + item]
  {
    hide Condition, Around, IsOpaque, RunAll, WalkFrom, Contains;
    var c := UnsetInText(condition, name, item, other, before);
    UnsetInTextStates(condition, name, item, other, before, Targets(c), choices, world);
    PlainHasNone(name);
    PlainHasNone(other);
  }

  // ----- an external variable that the file assigns -----

  /** set(<first> ${<external>}) set(<external> <item>) set(<second> ${<first>}) */
  function AssignedExternal(first: string, second: string, external: string, item: string): seq<Command> {
    [Assign(first, Quoted(external)), Assign(external, item), Assign(second, Quoted(first))]
  }

  lemma ExpandsName(name: string, variables: Variables, context: string, stack: seq<string>)
    requires IsName(name)
    ensures Expand([Quoted(name)], variables, context, stack) == ExpandName(name, variables, context, stack)
  {
    ExpandSingle(name, variables, context, stack);
  }

  lemma QuotedIsNoKeyword(name: string)
    ensures Quoted(name) !in KEYWORDS
  {
    assert Quoted(name)[0] == '$';
  }

  lemma AssignedExternalWalks(first: string, second: string, external: string, item: string, targets: set<string>)
    requires IsWord(first) && IsWord(second) && IsWord(external) && IsWord(item) && IsOpaque(external)
    requires !IsOpaque(first) && !IsOpaque(second) && first != second
    ensures var c := AssignedExternal(first, second, external, item);
            Step(Step(Step(START, c[0], targets), c[1], targets), c[2], targets)
            == START.(variables := map[first := [Quoted(external)]][external := [item]][second := [item]])
  {
    hide Step, FormOf, Expand, Contains;
    NoFrames();
    QuotedIsNoKeyword(external);
    PlainForm(first, Quoted(external));
    ExpandsName(external, map[], first, [first]);
    SetsOneItem(START, first, Quoted(external), Quoted(external), targets);
    var w1 := START.(variables := map[first := [Quoted(external)]]);
    PlainHasNone(item);
    PlainForm(external, item);
    ExpandsPlain(item, w1.variables, external, [external]);
    SetsOneItem(w1, external, item, item, targets);
    var w2 := w1.(variables := map[first := [Quoted(external)]][external := [item]]);
    QuotedIsNoKeyword(first);
    PlainForm(second, Quoted(first));
    ExpandsName(first, w2.variables, second, [second]);
    ExpandsName(external, w2.variables, second, [second] + [first]);
    ExpandsPlain(item, w2.variables, second, [second] + [first] + [external]);
    SetsOneItem(w2, second, Quoted(first), item, targets);
  }

  lemma AssignedExternalRuns(first: string, second: string, external: string, item: string, choices: nat -> bool, world: World)
    requires IsWord(first) && IsWord(second) && IsWord(external) && IsWord(item) && IsOpaque(external)
    requires !IsOpaque(first) && !IsOpaque(second) && first != second
    ensures var c := AssignedExternal(first, second, external, item);
            RunStep(RunStep(RunStep(FRESH, c[0], choices(0), world), c[1], choices(1), world), c[2], choices(2), world)
            == FRESH.(variables := map[first := [Quoted(external)]][external := [item]][second := [Quoted(external)]])
  {
    hide RunStep, FormOf, EvaluateValue, Contains;
    QuotedIsNoKeyword(external);
    PlainHasNone(first);
    PlainHasNone(second);
    PlainHasNone(external);
    PlainHasNone(item);
    PlainForm(first, Quoted(external));
    PlainForm(external, item);
    PlainForm(second, Quoted(external));
    EvaluatesExact(external, map[]);
    assert [first] + [Quoted(external)] == [first, Quoted(external)];
    RunSets(FRESH, first, Quoted(external), choices(0), world);
    var r1 := FRESH.(variables := map[first := [Quoted(external)]]);
    PlainEvaluates(item, r1.variables);
    assert [external] + [item] == [external, item];
    RunSets(r1, external, item, choices(1), world);
    var r2 := r1.(variables := map[first := [Quoted(external)]][external := [item]]);
    EvaluatesExact(first, r2.variables);
    assert [second] + [Quoted(external)] == [second, Quoted(external)];
    RunSets(r2, second, Quoted(first), choices(2), world);
  }

  /**
   Why external variables must not be assigned: the first variable keeps the outer value in the run, while the walk
   expands its stored reference again and finds the new item.
  */
  lemma AssignedExternalEscapes(first: string, second: string, external: string, item: string, choices: nat -> bool, world: World)
    requires IsWord(first) && IsWord(second) && IsWord(external) && IsWord(item) && IsOpaque(external)
    requires !IsOpaque(first) && !IsOpaque(second) && first != second
    ensures var c := AssignedExternal(first, second, external, item);
            var graph, run := Graph(c), RunAll(c, choices, world);
            && graph.errors == [] && run.supported && AllNamesDirect(c) && !KeepsOpaque(c)
            && second in run.variables && run.variables[second] == [Quoted(external)]
            && second in graph.variables && graph.variables[second] == [item]
  {
    hide IsOpaque, Step, RunStep, Contains;
    var c := AssignedExternal(first, second, external, item);
    Unfold3(START, FRESH, c, Targets(c), choices, world);
    AssignedExternalWalks(first, second, external, item, Targets(c));
    AssignedExternalRuns(first, second, external, item, choices, world);
    PlainHasNone(first);
    PlainHasNone(second);
    PlainHasNone(external);
    assert c[1] in c && !AssignsNoOpaque(c[1]);
  }

  // ----- two variables in one text -----

  /** With two variables the texts can agree although neither variable does: the condition is exact for one only. */
  lemma TwoReferencesAgreeByChance(a: string, b: string, x: string, y: string, z: string, context: string)
    requires IsWord(a) && IsWord(b) && IsWord(x) && IsWord(y) && IsWord(z) && a != b
    ensures var value, names := Quoted(a) + Quoted(b), [a, b];
            var walked, run := map[a := [x + y], b := [z]], map[a := [x], b := [y + z]];
            && ExpandEmbedded(value, value, names, walked, context, []) == Expansion([x + y + z], [])
            && EvaluateEmbedded(value, names, run).items == [x + y + z]
            && ExpandName(a, walked, context, []).items[..] != [Semicolons(EvaluateName(a, run))]
  {
    hide Find, References, ExactReference, Contains, Expand;
    var value, walked, run := Quoted(a) + Quoted(b), map[a := [x + y], b := [z]], map[a := [x], b := [y + z]];
    TwoReplaced(a, b, x + y, z);
    TwoReplaced(a, b, x, y + z);
    PlainHasNone(x + y);
    PlainHasNone(z);
    ExpandsPlain(x + y, walked, context, [] + [a]);
    ExpandsPlain(z, walked, context, [] + [b]);
    assert [a, b][1..] == [b] && [b][1..] == [];
    assert x + (y + z) == x + y + z;
    assert ExpandEmbedded(value, x + y + z, [], walked, context, []) == Expansion([x + y + z], []);
    assert ExpandEmbedded(value, x + y + Quoted(b), [b], walked, context, []) == Expansion([x + y + z], []);
    assert EvaluateEmbedded(x + y + z, [], run).items == [x + y + z];
    assert EvaluateEmbedded(x + Quoted(b), [b], run).items == [x + y + z];
  }

  lemma TwoReplaced(a: string, b: string, first: string, second: string)
    requires HasNone(first, '{')
    ensures ReplaceFirst(Quoted(a) + Quoted(b), Quoted(a), first) == first + Quoted(b)
    ensures ReplaceFirst(first + Quoted(b), Quoted(b), second) == first + second
  {
    hide ReplaceFirst;
    ReplaceAround("", a, Quoted(b), first);
    ReplaceAround(first, b, "", second);
    assert Around("", a, Quoted(b)) == Quoted(a) + Quoted(b) && "" + first + Quoted(b) == first + Quoted(b);
    assert Around(first, b, "") == first + Quoted(b) && first + second + "" == first + second;
  }

  lemma ReplaceAround(before: string, name: string, after: string, item: string)
    requires HasNone(before, '{')
    ensures ReplaceFirst(Around(before, name, after), Quoted(name), item) == before + item + after
  {
    hide Around, Find;
    FindAround(before, name, after, 0);
    CharactersAround(before, name, after);
  }
}
