/** Arguments that are read otherwise than they are meant, and values of external variables that name a target. */
module CMakeTextEscapes {
  import opened Options
  import opened CMakeText
  import opened CMakeExpansion
  import opened CMakeWalk
  import opened CMakeExpressions
  import opened CMakeRuns
  import opened CMakeSoundness
  import opened CMakeExactness
  import opened CMakeEscapes

  const TARGET_KINDS: set<Kind> := {TargetLinkLibraries, AddDependencies, AddLibrary, AddExecutable, TargetSources}

  /** add_custom_target(<a>) add_custom_target(<b>) and one command with one argument for a target. */
  function Uses(a: string, b: string, kind: Kind, target: string, token: string): seq<Command> {
    [Command(AddCustomTarget, [a]), Command(AddCustomTarget, [b]), Command(kind, [target, token])]
  }

  /** The walk records no error, names are written out and no external variable is assigned; a dependency is missed. */
  ghost predicate IsMissed(c: seq<Command>, choices: nat -> bool, world: World, target: string, missed: string) {
    && Graph(c).errors == [] && KeepsOpaque(c) && AllNamesDirect(c)
    && missed in ActualDependencies(RunAll(c, choices, world), target, Targets(c))
    && missed !in At(Graph(c).edges, target)
  }

  lemma UsesStates(a: string, b: string, kind: Kind, target: string, token: string, targets: set<string>,
                   choices: nat -> bool, world: World)
    requires IsWord(a) && IsWord(b) && IsWord(target) && kind in TARGET_KINDS
    ensures var c, evaluated := Uses(a, b, kind, target, token), EvaluateValue(token, map[]);
            && WalkFrom(START, c, targets) == TargetToken(START, kind, target, token, targets)
            && RunAll(c, choices, world)
               == RunItems(FRESH.(supported := evaluated.supported), kind, target, evaluated.items, world)
  {
    hide Step, RunStep, IsClean, EvaluateValue;
    var c := Uses(a, b, kind, target, token);
    PlainHasNone(a);
    PlainHasNone(b);
    Unfold3(START, FRESH, c, targets, choices, world);
    CustomTargetIdles(START, FRESH, a, targets, choices(0), world);
    CustomTargetIdles(START, FRESH, b, targets, choices(1), world);
    LastStates(kind, target, token, targets, choices(2), world);
  }

  lemma LastStates(kind: Kind, target: string, token: string, targets: set<string>, choice: bool, world: World)
    requires IsWord(target) && kind in TARGET_KINDS
    ensures var evaluated, command := EvaluateValue(token, map[]), Command(kind, [target, token]);
            && Step(START, command, targets) == TargetToken(START, kind, target, token, targets)
            && RunStep(FRESH, command, choice, world)
               == RunItems(FRESH.(supported := evaluated.supported), kind, target, evaluated.items, world)
  {
    hide EvaluateValue, TargetToken, RunItem, IsClean;
    PlainHasNone(target);
    PlainEvaluates(target, map[]);
    EvaluatesPair(target, token, map[]);
    var items := EvaluateValue(token, map[]).items;
    assert ([target] + items)[1..] == items;
    assert [target, token][1..] == [token] && [token][1..] == [];
    var next := TargetToken(START, kind, target, token, targets);
    assert TargetTokens(next, kind, target, [], targets) == next;
    assert TargetTokens(START, kind, target, [token], targets) == TargetTokens(next, kind, target, [token][1..], targets);
  }

  /** A walk that reads one name from an expression. */
  lemma OneNameRead(kind: Kind, target: string, token: string, name: string, targets: set<string>)
    requires kind in TARGET_KINDS && Contains(token, "$<") && !Contains(token, "${") && ObjectsOf(token).None?
    requires PlainReference(token, target) == Found({name}, [])
    ensures var walk := TargetToken(START, kind, target, token, targets);
            walk.errors == [] && At(Completed(walk, targets).edges, target) <= {name}
  {
    hide Contains, PlainReference, ObjectsOf, IsSourcePath;
    assert START.errors + [] == [];
  }

  lemma UsesNames(a: string, b: string, kind: Kind, target: string, token: string)
    requires IsWord(a) && IsWord(b) && IsWord(target) && kind in TARGET_KINDS
    ensures var c := Uses(a, b, kind, target, token);
            KeepsOpaque(c) && a in Targets(c) && b in Targets(c) && (Followed(kind, token) ==> AllNamesDirect(c))
  {
    hide Followed;
    PlainHasNone(a);
    PlainHasNone(b);
    PlainHasNone(target);
    var c := Uses(a, b, kind, target, token);
    TargetsOf(c, 0);
    TargetsOf(c, 1);
    assert [target, token][1..] == [token] && [a][1..] == [] && [b][1..] == [];
  }

  /** One readable argument, as far as a run goes: what it means, against the one name the walk reads. */
  lemma OneNameEscapes(a: string, b: string, kind: Kind, target: string, token: string, name: string, missed: string,
                       choices: nat -> bool, world: World)
    requires IsWord(a) && IsWord(b) && IsWord(target) && kind in TARGET_KINDS
    requires Contains(token, "$<") && !Contains(token, "${") && ObjectsOf(token).None? && IsClean(token)
    requires token !in VISIBILITY && PlainReference(token, target) == Found({name}, [])
    requires missed in {a, b} && missed != name && missed in ActualReference(token, world.truth)
    ensures IsMissed(Uses(a, b, kind, target, token), choices, world, target, missed)
  {
    hide Contains, PlainReference, ObjectsOf, IsClean, ActualReference, EvaluateValue, TargetToken, WalkFrom, RunAll, KeepsOpaque,
         AllNamesDirect, OuterReferences, ItemDependencies, Targets, Uses, Added;
    var c := Uses(a, b, kind, target, token);
    var targets := Targets(c);
    UsesStates(a, b, kind, target, token, targets, choices, world);
    UsesNames(a, b, kind, target, token);
    OneNameRead(kind, target, token, name, targets);
    PlainEvaluates(token, map[]);
    OneItemRuns(FRESH, kind, target, token, world);
    assert FRESH.(supported := true) == FRESH;
    NoVariableIsFollowed(kind, token);
    NoKeyword(token);
    AddedGrows(FRESH.references, target, ActualReference(token, world.truth));
    assert missed in At(RunAll(c, choices, world).references, target);
  }

  lemma NoKeyword(token: string)
    ensures token !in VISIBILITY <==> token !in {"PUBLIC", "PRIVATE", "INTERFACE"}
  {
  }

  // ----- scans over stretches without brackets -----

  lemma {:induction false} NestingAfter(s: string, i: nat, k: nat)
    requires i <= k <= |s| && forall n :: i <= n < k ==> s[n] !in {'$', '>'}
    ensures Nesting(s, i) == Nesting(s, k)
    decreases k - i
  {
    if i < k {
      MatchAt(s, "$<", i, 0);
      NestingAfter(s, i + 1, k);
    }
  }

  lemma {:induction false} FindAfter(s: string, i: nat, k: nat)
    requires i <= k <= |s| && IsAt(s, "$<", k) && forall n :: i <= n < k ==> s[n] != '$'
    ensures Find(s, "$<", i) == Some(k)
    decreases k - i
  {
    if i < k {
      MatchAt(s, "$<", i, 0);
      FindAfter(s, i + 1, k);
    }
  }

  lemma {:induction false} NextPiece(value: string, separator: char, start: nat, index: nat, k: nat)
    requires start <= index <= k < |value| && value[k] == separator && separator !in {'$', '>'}
    requires forall n :: index <= n < k ==> value[n] !in {'$', separator}
    ensures SplitFrom(value, separator, start, index, 0) == [value[start..k]] + SplitFrom(value, separator, k + 1, k + 1, 0)
    decreases k - index
  {
    MatchAt(value, "$<", index, 0);
    if index < k {
      NextPiece(value, separator, start, index + 1, k);
    }
  }

  lemma {:induction false} LastPiece(value: string, separator: char, start: nat, index: nat)
    requires start <= index <= |value| && forall n :: index <= n < |value| ==> value[n] !in {'$', separator}
    ensures SplitFrom(value, separator, start, index, 0) == [value[start..]]
    decreases |value| - index
  {
    if index < |value| {
      MatchAt(value, "$<", index, 0);
      LastPiece(value, separator, start, index + 1);
    }
  }

  lemma SplitsInTwo(a: string, b: string, separator: char)
    requires HasNone(a, '$') && HasNone(b, '$') && HasNone(a, separator) && HasNone(b, separator) && separator !in {'$', '>'}
    ensures Split(a + [separator] + b, separator) == [a, b]
  {
    var value := a + [separator] + b;
    assert forall n :: |a| + 1 <= n < |value| ==> value[n] == b[n - |a| - 1];
    NextPiece(value, separator, 0, 0, |a|);
    LastPiece(value, separator, |a| + 1, |a| + 1);
    assert value[0..|a|] == a && value[|a| + 1..] == b;
  }

  lemma SplitsAtCommas(value: string, i: nat, j: nat)
    requires i < j < |value| && value[i] == value[j] == ','
    requires forall n :: 0 <= n < |value| && n != i && n != j ==> value[n] !in {'$', ','}
    ensures Split(value, ',') == [value[0..i], value[i + 1..j], value[j + 1..]]
  {
    hide SplitFrom;
    NextPiece(value, ',', 0, 0, i);
    NextPiece(value, ',', i + 1, i + 1, j);
    LastPiece(value, ',', j + 1, j + 1);
  }

  lemma SplitsInThree(a: string, b: string, c: string)
    requires HasNone(a, '$') && HasNone(b, '$') && HasNone(c, '$')
    requires HasNone(a, ',') && HasNone(b, ',') && HasNone(c, ',')
    ensures Split(a + "," + b + "," + c, ',') == [a, b, c]
  {
    hide Split;
    var value, second := a + "," + b + "," + c, |a| + 1 + |b|;
    ThreeParts(a, b, c);
    forall n | 0 <= n < |value| && n != |a| && n != second ensures value[n] !in {'$', ','} {
      var character := if n < |a| then a[n] else if n < second then b[n - |a| - 1] else c[n - second - 1];
      assert value[n] == character;
    }
    SplitsAtCommas(value, |a|, second);
  }

  lemma ThreeParts(a: string, b: string, c: string)
    ensures var value, second := a + "," + b + "," + c, |a| + 1 + |b|;
            && |value| == second + 1 + |c| && value[|a|] == ',' && value[second] == ','
            && value[0..|a|] == a && value[|a| + 1..second] == b && value[second + 1..] == c
            && (forall n :: 0 <= n < |a| ==> value[n] == a[n])
            && (forall n :: |a| < n < second ==> value[n] == b[n - |a| - 1])
            && (forall n :: second < n < |value| ==> value[n] == c[n - second - 1])
  {
  }

  // ----- an expression inside the name of a library -----

  function Wrapped(inner: string): string {
    "$<" + inner + ">"
  }

  /** No character that has a meaning between the brackets of an expression. */
  predicate IsParameter(s: string) {
    IsPlain(s) && HasNone(s, ',')
  }

  function Choice(condition: string, a: string, b: string): string {
    "IF:" + (condition + "," + a + "," + b)
  }

  /** $<TARGET_OBJECTS:$<IF:<condition>,<a>,<b>>> */
  function ObjectsOfChoice(condition: string, a: string, b: string): string {
    Wrapped(OBJECTS + Wrapped(Choice(condition, a, b)))
  }

  lemma WrappedCharacters(inner: string)
    ensures var s := Wrapped(inner);
            && |s| == |inner| + 3 && s[0] == '$' && s[1] == '<' && s[|s| - 1] == '>' && s[2..|s| - 1] == inner
            && (forall k :: 2 <= k < |s| - 1 ==> s[k] == inner[k - 2])
            && IsAt(s, "$<", 0) && Contains(s, "$<") && Find(s, "$<", 0) == Some(0)
  {
    var s := Wrapped(inner);
    assert s[0..2] == "$<";
    assert s[2..|s| - 1] == inner;
  }

  /** Brackets around a text without brackets belong together. */
  lemma WrappedCloses(inner: string)
    requires HasNone(inner, '$') && HasNone(inner, '>')
    ensures CloseFrom(Wrapped(inner), 2, 1) == Some(|inner| + 2)
    ensures Nesting(Wrapped(inner), 0) == 0
  {
    hide Wrapped;
    var s := Wrapped(inner);
    WrappedCharacters(inner);
    CloseAfter(s, 2, |s| - 1, 1);
    NestingAfter(s, 2, |s| - 1);
    MatchAt(s, "$<", |s| - 1, 1);
  }

  lemma WrappedMeans(inner: string, truth: GenexTruth)
    requires HasNone(inner, '$') && HasNone(inner, '>')
    ensures Value(Wrapped(inner), truth) == Expression(inner, truth)
  {
    hide Value, Expression, CloseFrom, Wrapped;
    WrappedCharacters(inner);
    WrappedCloses(inner);
    OneExpression(Wrapped(inner), truth);
  }

  lemma ChoiceMeans(condition: string, a: string, b: string, truth: GenexTruth)
    requires IsParameter(condition) && IsParameter(a) && IsParameter(b)
    ensures HasNone(Choice(condition, a, b), '$') && HasNone(Choice(condition, a, b), '>') && HasNone(Choice(condition, a, b), ';')
    ensures HasNone(Choice(condition, a, b), '{')
    ensures Expression(Choice(condition, a, b), truth) == Meaning(if truth(condition) then a else b, {})
  {
    hide Value, Split;
    var choice, parameters := Choice(condition, a, b), condition + "," + a + "," + b;
    assert choice[0..3] == "IF:" && choice[3..] == parameters;
    assert choice[0] == 'I' && OBJECTS[0] == 'T';
    MatchAt(choice, OBJECTS, 0, 0);
    SplitsInThree(condition, a, b);
    PlainHasNone(a);
    PlainHasNone(b);
    NoExpression(a, truth);
    NoExpression(b, truth);
  }

  /** Brackets from 0 to the end around brackets from `open` to the character before. */
  lemma BothClose(s: string, open: nat)
    requires IsAt(s, "$<", 0) && 2 <= open && open + 4 <= |s| && IsAt(s, "$<", open)
    requires s[|s| - 2] == '>' && s[|s| - 1] == '>'
    requires forall k :: 2 <= k < |s| - 2 && k != open ==> s[k] !in {'$', '>'}
    ensures CloseFrom(s, 2, 1) == Some(|s| - 1) && Nesting(s, 0) == 0
  {
    hide CloseFrom, Nesting;
    CloseAfter(s, 2, open, 1);
    CloseAfter(s, open + 2, |s| - 2, 2);
    NestingAfter(s, 2, open);
    NestingAfter(s, open + 2, |s| - 2);
    LastClose(s, |s| - 2);
    OpenStep(s, 0, 0);
    OpenStep(s, open, 1);
  }

  lemma OpenStep(s: string, i: nat, depth: nat)
    requires IsAt(s, "$<", i)
    ensures CloseFrom(s, i, depth) == CloseFrom(s, i + 2, depth + 1) && Nesting(s, i) == 1 + Nesting(s, i + 2)
  {
    MatchAt(s, "$<", i, 0);
  }

  lemma LastClose(s: string, i: nat)
    requires i + 2 == |s| && s[i] == '>' && s[i + 1] == '>'
    ensures CloseFrom(s, i, 2) == Some(i + 1) && Nesting(s, i) == -2
  {
    MatchAt(s, "$<", i, 0);
    MatchAt(s, "$<", i + 1, 0);
    assert Nesting(s, i + 2) == 0;
    assert CloseFrom(s, i + 1, 1) == Some(i + 1);
  }

  lemma DoubleCloses(before: string, inner: string)
    requires HasNone(before, '$') && HasNone(before, '>') && HasNone(inner, '$') && HasNone(inner, '>')
    ensures var s := Wrapped(before + Wrapped(inner));
            CloseFrom(s, 2, 1) == Some(|s| - 1) && Nesting(s, 0) == 0
  {
    hide CloseFrom, Nesting, Wrapped, Find, Contains;
    var library := Wrapped(inner);
    var middle := before + library;
    var s, open := Wrapped(middle), |before| + 2;
    WrappedCharacters(inner);
    WrappedCharacters(middle);
    forall k | 2 <= k < |s| - 2 && k != open ensures s[k] !in {'$', '>'} {
      var character := if k < open then before[k - 2] else if k == open + 1 then '<' else inner[k - open - 2];
      assert s[k] == middle[k - 2] == character;
    }
    assert s[open] == middle[open - 2] == '$' && s[open + 1] == middle[open - 1] == '<';
    assert s[open..open + 2] == "$<";
    assert s[|s| - 2] == middle[|middle| - 1] == '>';
    BothClose(s, open);
  }

  lemma ObjectsOfExpression(library: string, truth: GenexTruth)
    ensures Expression(OBJECTS + library, truth) == Meaning("", {Value(library, truth).text} + Value(library, truth).objects)
    ensures StartsWith(OBJECTS + library, OBJECTS) && (OBJECTS + library)[|OBJECTS|..] == library
  {
    hide Value, Split;
    var inner := OBJECTS + library;
    assert inner[0..|OBJECTS|] == OBJECTS && inner[|OBJECTS|..] == library;
  }

  lemma ObjectsOfChoiceMeans(condition: string, a: string, b: string, truth: GenexTruth)
    requires IsParameter(condition) && IsParameter(a) && IsParameter(b)
    ensures (if truth(condition) then a else b) in ActualReference(ObjectsOfChoice(condition, a, b), truth)
  {
    hide Value, Expression, CloseFrom, Choice, Wrapped, IsParameter;
    var choice := Choice(condition, a, b);
    ChoiceMeans(condition, a, b, truth);
    WrappedMeans(choice, truth);
    ObjectsCharacters();
    DoubleCloses(OBJECTS, choice);
    WrappedCharacters(OBJECTS + Wrapped(choice));
    OneExpression(ObjectsOfChoice(condition, a, b), truth);
    ObjectsOfExpression(Wrapped(choice), truth);
  }

  lemma ObjectsOfChoiceIsRead(condition: string, a: string, b: string, context: string)
    requires IsParameter(condition) && IsParameter(a) && IsParameter(b)
    ensures var token, library := ObjectsOfChoice(condition, a, b), Wrapped(Choice(condition, a, b));
            && PlainReference(token, context) == Found({library}, [])
            && ObjectsOf(token).None? && !IsShaped(token)
  {
    hide CloseFrom, Nesting, Choice, Wrapped, IsParameter, Split, Find, PlainReferences;
    var choice := Choice(condition, a, b);
    var token, library := ObjectsOfChoice(condition, a, b), Wrapped(choice);
    ChoiceMeans(condition, a, b, c => true);
    ObjectsCharacters();
    DoubleCloses(OBJECTS, choice);
    WrappedCharacters(choice);
    WrappedCharacters(OBJECTS + library);
    ObjectsOfExpression(library, c => true);
    assert token[2..|token| - 1] == OBJECTS + library;
    assert Inner(token) == Some(OBJECTS + library);
    assert token[17..|token| - 1] == library && library[|library| - 1] in library;
  }

  lemma NoBraceIsClean(s: string)
    requires s != "" && HasNone(s, ';') && forall k :: 0 <= k < |s| - 1 && s[k] == '$' ==> s[k + 1] == '<'
    ensures IsClean(s) && !Contains(s, "${")
  {
    NotThere(s, "$ENV{");
    NotThere(s, "$CACHE{");
    NotThere(s, "${");
  }

  lemma WrappedIsNoKeyword(inner: string)
    ensures Wrapped(inner) !in VISIBILITY
  {
    assert Wrapped(inner)[0] == '$';
  }

  lemma ObjectsOfChoiceIsClean(condition: string, a: string, b: string)
    requires IsParameter(condition) && IsParameter(a) && IsParameter(b)
    ensures IsClean(ObjectsOfChoice(condition, a, b)) && !Contains(ObjectsOfChoice(condition, a, b), "${")
  {
    hide Wrapped, Choice, IsParameter, IsClean, Contains, Expression;
    var choice := Choice(condition, a, b);
    var library, token := Wrapped(choice), ObjectsOfChoice(condition, a, b);
    ChoiceMeans(condition, a, b, c => true);
    ObjectsCharacters();
    WrappedCharacters(choice);
    WrappedCharacters(OBJECTS + library);
    assert forall k :: 17 <= k < |token| - 1 ==> token[k] == library[k - 17];
    assert forall k :: 2 <= k < 17 ==> token[k] == OBJECTS[k - 2];
    NoBraceIsClean(token);
  }

  /**
   The library is named by an expression: the walk records the text of the expression as the name of the library, in every
   kind of target command, and misses the library that the condition chooses.
  */
  lemma ExpressionInNameEscapes(condition: string, a: string, b: string, kind: Kind, target: string,
                                choices: nat -> bool, world: World)
    requires IsParameter(condition) && IsParameter(a) && IsParameter(b)
    requires IsWord(a) && IsWord(b) && IsWord(target) && kind in TARGET_KINDS
    ensures var token := ObjectsOfChoice(condition, a, b);
            && IsMissed(Uses(a, b, kind, target, token), choices, world, target, if world.truth(condition) then a else b)
            && !IsReadable(token)
  {
    hide IsMissed, IsParameter, ObjectsOfChoice, IsClean, IsShaped, PlainReference, ObjectsOf, ActualReference, Uses;
    var token, library := ObjectsOfChoice(condition, a, b), Wrapped(Choice(condition, a, b));
    ObjectsOfChoiceMeans(condition, a, b, world.truth);
    ObjectsOfChoiceIsRead(condition, a, b, target);
    ObjectsOfChoiceIsClean(condition, a, b);
    ChoiceIsNoWord(condition, a, b);
    OneNameEscapes(a, b, kind, target, token, library, if world.truth(condition) then a else b, choices, world);
  }

  lemma ChoiceIsNoWord(condition: string, a: string, b: string)
    ensures var library, token := Wrapped(Choice(condition, a, b)), ObjectsOfChoice(condition, a, b);
            && (IsWord(a) ==> library != a) && (IsWord(b) ==> library != b)
            && token !in VISIBILITY && Contains(token, "$<")
  {
    hide Wrapped, Contains;
    WrappedCharacters(Choice(condition, a, b));
    WrappedCharacters(OBJECTS + Wrapped(Choice(condition, a, b)));
    WrappedIsNoKeyword(OBJECTS + Wrapped(Choice(condition, a, b)));
  }

  // ----- two expressions in one argument -----

  function ObjectsText(library: string): string {
    Wrapped(OBJECTS + library)
  }

  /** $<TARGET_OBJECTS:<a>><between>$<TARGET_OBJECTS:<b>> */
  function TwoLibraries(a: string, between: string, b: string): string {
    ObjectsText(a) + between + ObjectsText(b)
  }

  /** Two pairs of brackets, the first one up to `end`, the second one from `open` to the end. */
  lemma BothRowsClose(s: string, end: nat, open: nat)
    requires IsAt(s, "$<", 0) && 2 <= end < open && open + 3 <= |s| && IsAt(s, "$<", open)
    requires s[end] == '>' && s[|s| - 1] == '>'
    requires forall k :: 2 <= k < |s| - 1 && k != end && k != open ==> s[k] !in {'$', '>'}
    ensures CloseFrom(s, 2, 1) == Some(end) && Nesting(s, 0) == 0
    ensures Find(s, "$<", 0) == Some(0)
  {
    hide CloseFrom, Nesting;
    CloseAfter(s, 2, end, 1);
    NestingAfter(s, 2, end);
    NestingAfter(s, end + 1, open);
    NestingAfter(s, open + 2, |s| - 1);
    CloseStep(s, end);
    CloseStep(s, |s| - 1);
    NothingNests(s);
    OpenStep(s, 0, 0);
    OpenStep(s, open, 0);
  }

  lemma CloseStep(s: string, i: nat)
    requires i < |s| && s[i] == '>'
    ensures CloseFrom(s, i, 1) == Some(i) && Nesting(s, i) == Nesting(s, i + 1) - 1
  {
    MatchAt(s, "$<", i, 0);
  }

  lemma NothingNests(s: string)
    ensures Nesting(s, |s|) == 0
  {
  }

  lemma TwoCharacters(a: string, between: string, b: string)
    requires IsPlain(a) && IsPlain(between) && IsPlain(b)
    ensures var s, end := TwoLibraries(a, between, b), |a| + 17;
            var open := end + 1 + |between|;
            && |s| == open + |b| + 18 && s[end] == '>' && s[|s| - 1] == '>' && s[0] == '$' && s[1] == '<' && s[open] == '$'
            && s[open + 1] == '<'
            && (forall k :: 2 <= k < |s| - 1 && k != end && k != open ==> s[k] !in {'$', '>', ';'})
            && s[2..end] == OBJECTS + a && s[end + 1..] == between + ObjectsText(b)
  {
    var s, end := TwoLibraries(a, between, b), |a| + 17;
    var open := end + 1 + |between|;
    ObjectsCharacters();
    var first, second := ObjectsText(a), ObjectsText(b);
    WrappedCharacters(OBJECTS + a);
    WrappedCharacters(OBJECTS + b);
    assert s == first + (between + second);
    assert s[end + 1..] == between + second;
    assert s[2..end] == first[2..|first| - 1];
    ObjectsName(a);
    ObjectsName(b);
    forall k | 2 <= k < |s| - 1 && k != end && k != open ensures s[k] !in {'$', '>', ';'} {
      var character := if k < end then first[k] else if k < open then between[k - end - 1] else second[k - open];
      assert s[k] == character;
    }
    assert s[open] == second[0] && s[open + 1] == second[1] && s[|s| - 1] == second[|second| - 1];
  }

  lemma ObjectsName(library: string)
    requires IsPlain(library)
    ensures var inner := OBJECTS + library; HasNone(inner, '$') && HasNone(inner, '>') && HasNone(inner, ';')
  {
    ObjectsCharacters();
  }

  lemma BehindTextCharacters(between: string, b: string)
    requires IsPlain(between) && IsPlain(b)
    ensures var s, open := between + ObjectsText(b), |between|;
            && open + 3 <= |s| && s[open..open + 2] == "$<" && s[|s| - 1] == '>' && s[open + 2..|s| - 1] == OBJECTS + b
            && (forall k :: 0 <= k < open ==> s[k] != '$')
            && (forall k :: open + 2 <= k < |s| - 1 ==> s[k] !in {'$', '>'})
  {
    hide ObjectsText, Find, Contains;
    var s, open, text := between + ObjectsText(b), |between|, ObjectsText(b);
    ObjectsTextIs(b);
    WrappedCharacters(OBJECTS + b);
    ObjectsName(b);
    assert s[open..] == text && s[open..open + 2] == text[0..2];
    assert s[open + 2..|s| - 1] == text[2..|text| - 1];
    forall k | open + 2 <= k < |s| - 1 ensures s[k] !in {'$', '>'} {
      assert s[k] == text[k - open] == (OBJECTS + b)[k - open - 2];
    }
  }

  lemma BehindText(between: string, b: string, truth: GenexTruth)
    requires IsPlain(between) && IsPlain(b)
    ensures b in Value(between + ObjectsText(b), truth).objects
  {
    hide Value, Expression, CloseFrom, Find, ObjectsText, IsPlain;
    var s, open := between + ObjectsText(b), |between|;
    BehindTextCharacters(between, b);
    FindAfter(s, 0, open);
    CloseAfter(s, open + 2, |s| - 1, 1);
    CloseStep(s, |s| - 1);
    FirstExpression(s, open, |s| - 1, truth);
    PlainHasNone(b);
    ObjectsExpression(b, truth);
  }

  lemma ObjectsTextIs(library: string)
    ensures ObjectsText(library) == Wrapped(OBJECTS + library)
  {
  }

  lemma TwoLibrariesMean(a: string, between: string, b: string, truth: GenexTruth)
    requires IsPlain(a) && IsPlain(between) && IsPlain(b)
    ensures {a, b} <= ActualReference(TwoLibraries(a, between, b), truth)
  {
    hide Value, Expression, CloseFrom, Find, Nesting, TwoLibraries, ObjectsText, ItemsOf;
    var s, end := TwoLibraries(a, between, b), |a| + 17;
    TwoCharacters(a, between, b);
    TwoClose(s, end, end + 1 + |between|);
    FirstExpression(s, 0, end, truth);
    PlainHasNone(a);
    ObjectsExpression(a, truth);
    BehindText(between, b, truth);
  }

  lemma TwoClose(s: string, end: nat, open: nat)
    requires 2 <= end < open && open + 3 <= |s| && s[0] == s[open] == '$' && s[1] == s[open + 1] == '<'
    requires s[end] == '>' && s[|s| - 1] == '>'
    requires forall k :: 2 <= k < |s| - 1 && k != end && k != open ==> s[k] !in {'$', '>', ';'}
    ensures CloseFrom(s, 2, 1) == Some(end) && Nesting(s, 0) == 0 && Find(s, "$<", 0) == Some(0) && IsAt(s, "$<", 0)
  {
    hide CloseFrom, Nesting, Find;
    assert s[0..2] == "$<" && s[open..open + 2] == "$<";
    BothRowsClose(s, end, open);
  }

  /** The name that the walk reads: from the first library to the end of the second. */
  function NameOfTwo(a: string, between: string, b: string): string {
    var s := TwoLibraries(a, between, b);
    if 17 <= |s| - 1 then s[17..|s| - 1] else ""
  }

  lemma TwoLibrariesAreRead(a: string, between: string, b: string, context: string)
    requires IsPlain(a) && IsPlain(between) && IsPlain(b)
    ensures var token := TwoLibraries(a, between, b);
            && PlainReference(token, context) == Found({NameOfTwo(a, between, b)}, [])
            && ObjectsOf(token).None? && !IsShaped(token) && IsClean(token)
            && !Contains(token, "${") && Contains(token, "$<") && token !in VISIBILITY
            && NameOfTwo(a, between, b) != a && NameOfTwo(a, between, b) != b
  {
    hide CloseFrom, Nesting, TwoLibraries, ObjectsText, Split, Find, IsClean, Contains;
    var s, end := TwoLibraries(a, between, b), |a| + 17;
    var open := end + 1 + |between|;
    TwoCharacters(a, between, b);
    TwoClose(s, end, open);
    NoBraceIsClean(s);
    var inner, name := s[2..|s| - 1], s[17..|s| - 1];
    assert Contains(s, "$<");
    assert Inner(s) == Some(inner) by { InnerOf(s); }
    ObjectsCharacters();
    assert inner[0..15] == s[2..end][0..15] == (OBJECTS + a)[0..15] == OBJECTS;
    assert inner[15..] == name;
    assert name[open - 17] == '$' && name[end - 17] == '>';
    assert s[17..|s| - 1] == name && name[end - 17] in name;
    assert s[0] == '$';
  }

  lemma InnerOf(token: string)
    requires |token| >= 3 && IsAt(token, "$<", 0) && token[|token| - 1] == '>' && Nesting(token, 0) == 0
    ensures Inner(token) == Some(token[2..|token| - 1])
  {
  }

  /** Two expressions in a row: the walk takes them for one, and misses both libraries. */
  lemma TwoExpressionsEscape(a: string, between: string, b: string, kind: Kind, target: string, missed: string,
                             choices: nat -> bool, world: World)
    requires IsWord(a) && IsWord(b) && IsWord(target) && IsPlain(between) && kind in TARGET_KINDS && missed in {a, b}
    ensures var token := TwoLibraries(a, between, b);
            IsMissed(Uses(a, b, kind, target, token), choices, world, target, missed) && !IsReadable(token)
  {
    hide IsMissed, IsPlain, TwoLibraries, NameOfTwo, IsClean, IsShaped, PlainReference, ObjectsOf, ActualReference, Uses,
         Contains;
    TwoLibrariesMean(a, between, b, world.truth);
    TwoLibrariesAreRead(a, between, b, target);
    OneNameEscapes(a, b, kind, target, TwoLibraries(a, between, b), NameOfTwo(a, between, b), missed, choices, world);
  }

  // ----- a list in one argument -----

  lemma ListEvaluates(a: string, b: string, variables: Variables)
    requires IsWord(a) && IsWord(b)
    ensures var list := a + ";" + b;
            && EvaluateValue(list, variables) == Evaluation([a, b], false)
            && !Contains(list, "${") && !Contains(list, "$<") && !IsClean(list) && list !in VISIBILITY
  {
    hide Split, References, ExactReference;
    var list := a + ";" + b;
    assert list[|a|] == ';';
    assert HasNone(list, '$');
    NoDollar(list, "${");
    NoDollar(list, "$<");
    NoReferences(list);
    SplitsInTwo(a, b, ';');
    assert [a, b][1..] == [b] && [b][1..] == [];
    assert NonEmpty([]) == [] && NonEmpty([b]) == [b] && NonEmpty([a, b]) == [a] + [b];
  }

  /** The walk stores a list as one item, the run as its items. */
  lemma ListStaysWhole(name: string, a: string, b: string, targets: set<string>, choice: bool, world: World)
    requires IsWord(name) && IsWord(a) && IsWord(b)
    ensures Step(START, Assign(name, a + ";" + b), targets).variables == map[name := [a + ";" + b]]
    ensures Step(START, Assign(name, a + ";" + b), targets).errors == []
    ensures RunStep(FRESH, Assign(name, a + ";" + b), choice, world).variables == map[name := [a, b]]
  {
    hide EvaluateValue, FormOf, Expand, IsClean, ActiveCondition, Contains;
    var list := a + ";" + b;
    ListEvaluates(a, b, map[]);
    assert list[|a|] == ';' && HasNone("CACHE", ';') && HasNone("PARENT_SCOPE", ';');
    PlainHasNone(name);
    PlainForm(name, list);
    ExpandsPlain(list, START.variables, name, [name]);
    NoFrames();
    SetsOneItem(START, name, list, list, targets);
    assert [name] + [a, b] == [name, a, b];
    assert "CACHE" !in [name, a, b] && "PARENT_SCOPE" !in [name, a, b];
    assert FormOf([name, a, b]).Plain? by { ThreePlain(name, a, b); }
    RunSets(FRESH, name, list, choice, world);
  }

  lemma ThreePlain(name: string, a: string, b: string)
    requires "CACHE" !in [name, a, b] && "PARENT_SCOPE" !in [name, a, b]
    ensures FormOf([name, a, b]).Plain?
  {
  }

  lemma TwoItemsRun(run: Run, kind: Kind, target: string, a: string, b: string, world: World)
    ensures RunItems(run, kind, target, [a, b], world) == RunItem(RunItem(run, kind, target, a, world), kind, target, b, world)
  {
    hide RunItem;
    assert [a, b][1..] == [b];
    OneItemRuns(RunItem(run, kind, target, a, world), kind, target, b, world);
  }

  lemma NoVariableIsFollowed(kind: Kind, token: string)
    requires !Contains(token, "${")
    ensures Followed(kind, token)
  {
  }

  /** A list in one argument of `add_dependencies`: the walk records it as the name of one target, and misses both. */
  lemma ListEscapes(a: string, b: string, target: string, missed: string, choices: nat -> bool, world: World)
    requires IsWord(a) && IsWord(b) && IsWord(target) && missed in {a, b} && missed !in VISIBILITY
    ensures IsMissed(Uses(a, b, AddDependencies, target, a + ";" + b), choices, world, target, missed)
    ensures !IsClean(a + ";" + b)
  {
    hide RunAll, WalkFrom, EvaluateValue, KeepsOpaque, AllNamesDirect, ItemReferences, OuterReferences, IsClean, IsShaped, Contains,
         IsReadable, Uses, Targets, Followed;
    var list := a + ";" + b;
    var c := Uses(a, b, AddDependencies, target, list);
    ListEvaluates(a, b, map[]);
    PlainHasNone(a);
    PlainHasNone(b);
    UsesStates(a, b, AddDependencies, target, list, Targets(c), choices, world);
    UsesNames(a, b, AddDependencies, target, list);
    TwoItemsRun(FRESH.(supported := false), AddDependencies, target, a, b, world);
    assert list[|a|] == ';';
    assert IsPlain(missed) && missed != list;
    assert !StartsWith(list, "${") by {
      MatchAt(list, "${", 0, 0);
    }
    assert Followed(AddDependencies, list) by {
      NoVariableIsFollowed(AddDependencies, list);
    }
    assert missed in At(RunAll(c, choices, world).dependencies, target);
  }

  // ----- a target named by the value of an external variable -----

  /** The walk passes over what is left of an external variable. */
  lemma OuterIsSkipped(text: string, target: string, targets: set<string>)
    requires IsSettled(text) && Contains(text, "${")
    ensures var walk := TargetToken(START, TargetLinkLibraries, target, text, targets);
            walk.errors == [] && At(Completed(walk, targets).edges, target) == {}
  {
    hide IsClean, Contains, ExpandValue, Expand, PlainReference, IsReadable;
    if text in VISIBILITY {
      VisibilityIsPlain(text);
    }
    InertExpandsToItself(text, map[], target, []);
    ExpandOnly(text, map[], target);
    assert PlainReferences([text][1..], target) == Found({}, []);
    assert [text][1..] == [];
    assert PlainReferences([text], target) == Found({}, []);
    assert Reference(text, map[], target) == Found({}, []);
    assert START.errors + [] == [];
  }

  lemma SettledEvaluates(text: string)
    requires IsSettled(text) && Contains(text, "${")
    ensures EvaluateValue(text, map[]) == Evaluation([text], true)
  {
    hide IsClean, IsReadable, Contains;
    if ExactReference(text).Some? {
      assert References(text)[0] in References(text);
    } else {
      InertItem(text, map[]);
    }
  }

  /**
   Why the values of external variables must name no target: whatever declared target such an argument refers to with these
   values, the walk misses it, although the program is readable and the run supported.
  */
  lemma OuterNameEscapes(text: string, target: string, missed: string, choices: nat -> bool, world: World)
    requires IsSettled(text) && Contains(text, "${") && IsWord(target) && IsWord(missed)
    requires missed in ActualReference(Instantiated(text, world.outer), world.truth)
    ensures var c := Uses(missed, missed, TargetLinkLibraries, target, text);
            && IsMissed(c, choices, world, target, missed) && Readable(c) && RunAll(c, choices, world).supported
  {
    hide RunAll, WalkFrom, EvaluateValue, KeepsOpaque, AllNamesDirect, ActualReference, Instantiated, IsInert, IsReadable, Contains,
         AllSettled, TargetToken, At;
    var c := Uses(missed, missed, TargetLinkLibraries, target, text);
    var targets := Targets(c);
    UsesStates(missed, missed, TargetLinkLibraries, target, text, targets, choices, world);
    UsesNames(missed, missed, TargetLinkLibraries, target, text);
    SettledEvaluates(text);
    OneItemRuns(FRESH, TargetLinkLibraries, target, text, world);
    OuterIsSkipped(text, target, targets);
    assert FRESH.(supported := true) == FRESH;
    assert missed in At(RunAll(c, choices, world).outer, target) by {
      AddedGrows(FRESH.outer, target, OuterReferences(TargetLinkLibraries, text, world));
    }
    UsesAreSettled(missed, target, text);
    assert Followed(TargetLinkLibraries, text);
    ReadableRuns(c, choices, world);
  }

  lemma UsesAreSettled(a: string, target: string, text: string)
    requires IsWord(a) && IsWord(target) && IsSettled(text)
    ensures AllSettled(Uses(a, a, TargetLinkLibraries, target, text))
  {
    hide IsSettled;
    WordIsSettled(a);
    WordIsSettled(target);
  }

  lemma WordIsSettled(word: string)
    requires IsWord(word)
    ensures IsSettled(word)
  {
    PlainHasNone(word);
    NoReferences(word);
  }
}
