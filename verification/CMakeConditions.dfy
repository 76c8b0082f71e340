/** What the condition of an `if` says on its own, and that the walk reads exactly that. */
module CMakeConditions {
  import opened Options
  import opened CMakeText
  import opened CMakeExpansion
  import opened CMakeWalk

  /** Equal but for the case of letters; the word is in capitals. */
  predicate Spells(token: string, word: string) {
    |token| == |word| && forall k :: 0 <= k < |word| ==> SameLetter(token[k], word[k])
  }

  predicate SameLetter(c: char, capital: char) {
    c == capital || ('A' <= capital <= 'Z' && c == capital - 'A' + 'a')
  }

  /** The words that `if` takes for a constant. */
  predicate SpellsFalse(token: string) {
    Spells(token, "0") || Spells(token, "OFF") || Spells(token, "NO") || Spells(token, "N") || Spells(token, "FALSE") ||
    Spells(token, "IGNORE") || Spells(token, "NOTFOUND")
  }

  predicate SpellsTrue(token: string) {
    Spells(token, "1") || Spells(token, "ON") || Spells(token, "YES") || Spells(token, "Y") || Spells(token, "TRUE")
  }

  /** NOT in front of more; a quoted text that begins with NOT and a blank counts as NOT too. */
  predicate Negates(token: string) {
    Spells(token, "NOT") || (|token| >= 4 && Spells(token[..4], "NOT "))
  }

  /** The value of a constant behind any number of NOT; anything else is left to the run. */
  function Constant(tokens: seq<string>): Option<bool> {
    if tokens == [] then None
    else if |tokens| == 1 then
      if SpellsFalse(tokens[0]) then Some(false) else if SpellsTrue(tokens[0]) then Some(true) else None
    else if !Negates(tokens[0]) then None
    else
      match Constant(tokens[1..])
      case None => None
      case Some(b) => Some(!b)
  }

  function TruthOf(constant: Option<bool>): Truth {
    match constant
    case None => Unknown
    case Some(b) => if b then True else False
  }

  predicate IsCapital(word: string) {
    forall k :: 0 <= k < |word| ==> !('a' <= word[k] <= 'z')
  }

  lemma UpperSpells(token: string, word: string)
    requires IsCapital(word)
    ensures Upper(token) == word <==> Spells(token, word)
  {
    if Upper(token) == word {
      forall k | 0 <= k < |word| ensures SameLetter(token[k], word[k]) {
        assert Upper(token)[k] == word[k];
      }
    }
    if Spells(token, word) {
      forall k | 0 <= k < |word| ensures Upper(token)[k] == word[k] {
        assert SameLetter(token[k], word[k]);
      }
      assert Upper(token) == word;
    }
  }

  lemma FalseWords(token: string)
    ensures Upper(token) in {"0", "FALSE", "OFF", "NO", "N", "IGNORE", "NOTFOUND"} <==> SpellsFalse(token)
  {
    hide Upper, Spells;
    UpperSpells(token, "0");
    UpperSpells(token, "FALSE");
    UpperSpells(token, "OFF");
    UpperSpells(token, "NO");
    UpperSpells(token, "N");
    UpperSpells(token, "IGNORE");
    UpperSpells(token, "NOTFOUND");
  }

  lemma TrueWords(token: string)
    ensures Upper(token) in {"1", "TRUE", "ON", "YES", "Y"} <==> SpellsTrue(token)
  {
    hide Upper, Spells;
    UpperSpells(token, "1");
    UpperSpells(token, "TRUE");
    UpperSpells(token, "ON");
    UpperSpells(token, "YES");
    UpperSpells(token, "Y");
  }

  /** An expression of several words is none of the constants, for it has a blank. */
  lemma SeveralWords(tokens: seq<string>)
    requires |tokens| > 1
    ensures Upper(Spaced(tokens)) !in {"0", "FALSE", "OFF", "NO", "N", "IGNORE", "NOTFOUND", "1", "TRUE", "ON", "YES", "Y"}
    ensures StartsWith(Upper(Spaced(tokens)), "NOT ") <==> Negates(tokens[0])
  {
    var text := Spaced(tokens);
    var rest := Spaced(tokens[1..]);
    assert text == tokens[0] + " " + rest;
    var upper, n := Upper(text), |tokens[0]|;
    assert upper[n] == ' ';
    BlankIsNoConstant(upper, n);
    StartsWithNot(tokens[0], rest);
  }

  lemma BlankIsNoConstant(s: string, n: nat)
    requires n < |s| && s[n] == ' '
    ensures s !in {"0", "FALSE", "OFF", "NO", "N", "IGNORE", "NOTFOUND", "1", "TRUE", "ON", "YES", "Y"}
  {
  }

  lemma StartsWithNot(first: string, rest: string)
    ensures StartsWith(Upper(first + " " + rest), "NOT ") <==> Negates(first)
  {
    var text := first + " " + rest;
    if |text| >= 4 {
      var head := text[..4];
      assert Upper(text)[0..4] == Upper(head);
      UpperSpells(head, "NOT ");
      if |first| >= 4 {
        assert head == first[..4];
        assert |first| != 3;
      } else if |first| == 3 {
        assert head == first + " ";
        assert Spells(head, "NOT ") <==> Spells(first, "NOT") by {
          if Spells(head, "NOT ") {
            forall k | 0 <= k < 3 ensures SameLetter(first[k], "NOT"[k]) {
              assert SameLetter(head[k], "NOT "[k]);
            }
          }
          if Spells(first, "NOT") {
            forall k | 0 <= k < 4 ensures SameLetter(head[k], "NOT "[k]) {
              assert k < 3 ==> SameLetter(first[k], "NOT"[k]);
            }
          }
        }
      } else {
        assert !SameLetter(head[|first|], "NOT "[|first|]);
      }
    }
  }

  /** The walk reads a condition as true or false exactly when it is a constant behind any number of NOT. */
  lemma {:induction false} ConditionIsConstant(tokens: seq<string>)
    ensures Condition(tokens) == TruthOf(Constant(tokens))
  {
    hide Upper, Spells, SpellsFalse, SpellsTrue, Negates, Spaced, StartsWith;
    if |tokens| == 1 {
      OneWord(tokens);
      FalseWords(tokens[0]);
      TrueWords(tokens[0]);
    } else if |tokens| > 1 {
      SeveralWords(tokens);
      ConditionIsConstant(tokens[1..]);
    }
  }

  /** One word is a constant or unknown: nothing is left for a NOT at its beginning. */
  lemma OneWord(tokens: seq<string>)
    requires |tokens| == 1
    ensures Condition(tokens) == if Upper(tokens[0]) in {"0", "FALSE", "OFF", "NO", "N", "IGNORE", "NOTFOUND"} then False
                                 else if Upper(tokens[0]) in {"1", "TRUE", "ON", "YES", "Y"} then True else Unknown
  {
    hide Upper;
    assert tokens[1..] == [];
    assert Condition([]) == Unknown;
  }

  // ----- what that means for a branch -----

  predicate HasNoBranches(commands: seq<Command>) {
    forall c :: c in commands ==> !IsBranching(c.kind)
  }

  function Branch(condition: seq<string>, body: seq<Command>): seq<Command> {
    [Command(If, condition)] + body + [Command(EndIf, [])]
  }

  /** Two walks that differ in the branch stack only. */
  predicate SameButStack(a: Walk, b: Walk) {
    a.(stack := []) == b.(stack := [])
  }

  lemma {:induction false} WalkOfSum(walk: Walk, a: seq<Command>, b: seq<Command>, targets: set<string>)
    ensures WalkFrom(walk, a + b, targets) == WalkFrom(WalkFrom(walk, a, targets), b, targets)
    decreases |a|
  {
    hide Step;
    if a == [] {
      assert a + b == b;
    } else {
      assert (a + b)[1..] == a[1..] + b;
      WalkOfSum(Step(walk, a[0], targets), a[1..], b, targets);
    }
  }

  lemma {:induction false} TokensIgnoreStack(walk: Walk, stack: seq<Frame>, kind: Kind, target: string, tokens: seq<string>,
                                             targets: set<string>)
    ensures TargetTokens(walk.(stack := stack), kind, target, tokens, targets)
         == TargetTokens(walk, kind, target, tokens, targets).(stack := stack)
    ensures TargetTokens(walk, kind, target, tokens, targets).stack == walk.stack
    decreases |tokens|
  {
    hide TargetToken;
    if tokens != [] {
      TokenIgnoresStack(walk, stack, kind, target, tokens[0], targets);
      TokensIgnoreStack(TargetToken(walk, kind, target, tokens[0], targets), stack, kind, target, tokens[1..], targets);
    }
  }

  lemma TokenIgnoresStack(walk: Walk, stack: seq<Frame>, kind: Kind, target: string, token: string, targets: set<string>)
    ensures TargetToken(walk.(stack := stack), kind, target, token, targets)
         == TargetToken(walk, kind, target, token, targets).(stack := stack)
    ensures TargetToken(walk, kind, target, token, targets).stack == walk.stack
  {
    hide LinkToken, DependencyToken, SourceToken;
    LinkIgnoresStack(walk, stack, target, token);
    DependencyIgnoresStack(walk, stack, target, token, targets);
    SourceIgnoresStack(walk, stack, target, token, targets);
  }

  lemma LinkIgnoresStack(walk: Walk, stack: seq<Frame>, target: string, token: string)
    ensures LinkToken(walk.(stack := stack), target, token) == LinkToken(walk, target, token).(stack := stack)
    ensures LinkToken(walk, target, token).stack == walk.stack
  {
    hide Reference, Added, At;
  }

  lemma DependencyIgnoresStack(walk: Walk, stack: seq<Frame>, target: string, token: string, targets: set<string>)
    ensures DependencyToken(walk.(stack := stack), target, token, targets)
         == DependencyToken(walk, target, token, targets).(stack := stack)
    ensures DependencyToken(walk, target, token, targets).stack == walk.stack
  {
    hide Reference, Contains, StartsWith, Added, At, Referred;
    var moved := walk.(stack := stack);
    var found := Reference(token, walk.variables, target);
    ReferredIgnoresStack(walk, stack, target, found);
    if token in VISIBILITY {
    } else if Contains(token, "$<") || StartsWith(token, "${") {
      assert DependencyToken(moved, target, token, targets) == Referred(moved, target, found).(edges := Added(walk.edges, target, found.names * targets));
    } else {
      assert DependencyToken(moved, target, token, targets) == moved.(edges := Added(walk.edges, target, {token}));
    }
  }

  lemma ReferredIgnoresStack(walk: Walk, stack: seq<Frame>, target: string, found: Found)
    ensures Referred(walk.(stack := stack), target, found) == Referred(walk, target, found).(stack := stack)
    ensures Referred(walk, target, found).stack == walk.stack
    ensures Referred(walk, target, found).variables == walk.variables
  {
    hide Added;
  }

  lemma SourceIgnoresStack(walk: Walk, stack: seq<Frame>, target: string, token: string, targets: set<string>)
    ensures SourceToken(walk.(stack := stack), target, token, targets)
         == SourceToken(walk, target, token, targets).(stack := stack)
    ensures SourceToken(walk, target, token, targets).stack == walk.stack
  {
    hide Reference, ObjectsOf, Contains, StartsWith, IsSourcePath, Added, At, Referred;
    var moved, found := walk.(stack := stack), Reference(token, walk.variables, target);
    ReferredIgnoresStack(walk, stack, target, found);
    var names := set n | n in found.names && IsSourcePath(n);
    if ObjectsOf(token).Some? {
    } else if Contains(token, "$<") || StartsWith(token, "${") {
      assert SourceToken(moved, target, token, targets)
          == Referred(moved, target, found).(edges := Added(walk.edges, target, found.names * targets),
                                             sourceEdges := Added(walk.sourceEdges, target, names));
    } else if IsSourcePath(token) {
      assert SourceToken(moved, target, token, targets) == moved.(sourceEdges := Added(walk.sourceEdges, target, {token}));
    }
  }

  lemma AssignedIgnoresStack(walk: Walk, stack: seq<Frame>, name: string, earlier: seq<string>, expansion: Expansion)
    requires ActiveCondition(stack) == ActiveCondition(walk.stack)
    ensures Assigned(walk.(stack := stack), name, earlier, expansion) == Assigned(walk, name, earlier, expansion).(stack := stack)
  {
    hide Deduplicated, ActiveCondition;
  }

  lemma ListIgnoresStack(walk: Walk, stack: seq<Frame>, tokens: seq<string>)
    requires tokens != [] && ActiveCondition(stack) == ActiveCondition(walk.stack)
    ensures StepList(walk.(stack := stack), tokens) == StepList(walk, tokens).(stack := stack)
    ensures StepList(walk, tokens).stack == walk.stack
  {
    hide Expand, Assigned, ActiveCondition;
    if |tokens| >= 3 && tokens[0] == "APPEND" {
      var expansion := Expand(tokens[2..], walk.variables, tokens[0], []);
      AssignedIgnoresStack(walk, stack, tokens[1], Values(walk.variables, tokens[1]), expansion);
      AssignedKeepsStack(walk, tokens[1], Values(walk.variables, tokens[1]), expansion);
    }
  }

  lemma AssignedKeepsStack(walk: Walk, name: string, earlier: seq<string>, expansion: Expansion)
    ensures Assigned(walk, name, earlier, expansion).stack == walk.stack
  {
  }

  lemma SetIgnoresStack(walk: Walk, stack: seq<Frame>, tokens: seq<string>)
    requires tokens != [] && ActiveCondition(stack) == ActiveCondition(walk.stack)
    ensures StepSet(walk.(stack := stack), tokens) == StepSet(walk, tokens).(stack := stack)
    ensures StepSet(walk, tokens).stack == walk.stack
  {
    hide Expand, Assigned, ActiveCondition, FormOf, SetExpansion;
    var form := FormOf(tokens);
    var expansion := SetExpansion(walk, tokens, form);
    SetExpansionIgnoresStack(walk, stack, tokens, form);
    AssignedIgnoresStack(walk, stack, tokens[0], Kept(walk, tokens[0]), expansion);
    AssignedKeepsStack(walk, tokens[0], Kept(walk, tokens[0]), expansion);
  }

  lemma SetExpansionIgnoresStack(walk: Walk, stack: seq<Frame>, tokens: seq<string>, form: SetForm)
    requires tokens != [] && (form.Bare? <==> |tokens| == 1)
    ensures SetExpansion(walk.(stack := stack), tokens, form) == SetExpansion(walk, tokens, form)
  {
    hide Expand;
  }

  /** Under a true condition a command does what it does without it. */
  lemma TrueStep(walk: Walk, command: Command, targets: set<string>)
    requires !IsBranching(command.kind)
    requires ActiveCondition(walk.stack) == True
    ensures var inside := walk.(stack := walk.stack + [Frame(True, True, false)]);
            Step(inside, command, targets) == Step(walk, command, targets).(stack := inside.stack)
    ensures Step(walk, command, targets).stack == walk.stack
  {
    hide StepList, StepSet, TargetTokens, ActiveCondition;
    var inside := walk.stack + [Frame(True, True, false)];
    TrueFrame(walk.stack);
    if command.tokens != [] {
      ListIgnoresStack(walk, inside, command.tokens);
      SetIgnoresStack(walk, inside, command.tokens);
      TokensIgnoreStack(walk, inside, command.kind, command.tokens[0], command.tokens[1..], targets);
    }
  }

  lemma TrueFrame(stack: seq<Frame>)
    ensures ActiveCondition(stack + [Frame(True, True, false)]) == ActiveCondition(stack)
  {
    var inside := stack + [Frame(True, True, false)];
    assert forall f :: f in inside <==> f in stack || f == Frame(True, True, false);
  }

  lemma {:induction false} TrueBody(walk: Walk, body: seq<Command>, targets: set<string>)
    requires HasNoBranches(body) && ActiveCondition(walk.stack) == True
    ensures var inside := walk.(stack := walk.stack + [Frame(True, True, false)]);
            WalkFrom(inside, body, targets) == WalkFrom(walk, body, targets).(stack := inside.stack)
    ensures WalkFrom(walk, body, targets).stack == walk.stack
    decreases |body|
  {
    hide Step, ActiveCondition;
    if body != [] {
      TrueStep(walk, body[0], targets);
      TrueBody(Step(walk, body[0], targets), body[1..], targets);
    }
  }

  lemma OpensFrame(walk: Walk, condition: seq<string>, targets: set<string>)
    ensures var truth := Condition(condition);
            Step(walk, Command(If, condition), targets) == walk.(stack := walk.stack + [Frame(truth, truth, false)])
  {
    hide Condition;
    assert walk.errors + [] == walk.errors;
  }

  lemma ClosesFrame(walk: Walk, frame: Frame, targets: set<string>)
    requires walk.stack != [] && walk.stack[|walk.stack| - 1] == frame
    ensures Step(walk, Command(EndIf, []), targets) == walk.(stack := walk.stack[..|walk.stack| - 1])
  {
    assert walk.errors + [] == walk.errors;
  }

  lemma BranchUnfolds(walk: Walk, condition: seq<string>, body: seq<Command>, targets: set<string>)
    ensures WalkFrom(walk, Branch(condition, body), targets)
         == Step(WalkFrom(Step(walk, Command(If, condition), targets), body, targets), Command(EndIf, []), targets)
  {
    hide Step;
    var open, close := [Command(If, condition)], [Command(EndIf, [])];
    WalkOfSum(walk, open + body, close, targets);
    WalkOfSum(walk, open, body, targets);
    assert open[1..] == [] && close[1..] == [];
    var inside := Step(walk, open[0], targets);
    assert WalkFrom(inside, [], targets) == inside;
    assert WalkFrom(walk, open, targets) == inside;
    var after := WalkFrom(inside, body, targets);
    assert WalkFrom(Step(after, close[0], targets), [], targets) == Step(after, close[0], targets);
    assert WalkFrom(after, close, targets) == Step(after, close[0], targets);
  }

  /** The commands between `if` with a true constant and `endif` are walked as if they stood alone. */
  lemma TrueBranchIsTaken(walk: Walk, condition: seq<string>, body: seq<Command>, targets: set<string>)
    requires HasNoBranches(body) && Constant(condition) == Some(true) && ActiveCondition(walk.stack) == True
    ensures WalkFrom(walk, Branch(condition, body), targets) == WalkFrom(walk, body, targets)
  {
    hide Step, ActiveCondition, Condition, Constant;
    ConditionIsConstant(condition);
    BranchUnfolds(walk, condition, body, targets);
    OpensFrame(walk, condition, targets);
    TrueBody(walk, body, targets);
    var inside := WalkFrom(walk.(stack := walk.stack + [Frame(True, True, false)]), body, targets);
    ClosesFrame(inside, Frame(True, True, false), targets);
    assert (walk.stack + [Frame(True, True, false)])[..|walk.stack|] == walk.stack;
  }

  lemma FalseFrame(stack: seq<Frame>)
    ensures ActiveCondition(stack + [Frame(False, False, false)]) == False
  {
    var inside := stack + [Frame(False, False, false)];
    assert inside[|stack|] in inside;
  }

  lemma FalseStep(walk: Walk, command: Command, targets: set<string>)
    requires !IsBranching(command.kind) && ActiveCondition(walk.stack) == False
    ensures Step(walk, command, targets).variables == walk.variables && Step(walk, command, targets).stack == walk.stack
  {
    hide Expand, FormOf, TargetTokens, ActiveCondition;
    if command.tokens != [] {
      TokensAssignNothing(walk, command.kind, command.tokens[0], command.tokens[1..], targets);
    }
  }

  lemma {:induction false} TokensAssignNothing(walk: Walk, kind: Kind, target: string, tokens: seq<string>, targets: set<string>)
    ensures TargetTokens(walk, kind, target, tokens, targets).variables == walk.variables
    ensures TargetTokens(walk, kind, target, tokens, targets).stack == walk.stack
    decreases |tokens|
  {
    hide TargetToken;
    if tokens != [] {
      TokenAssignsNothing(walk, kind, target, tokens[0], targets);
      TokensAssignNothing(TargetToken(walk, kind, target, tokens[0], targets), kind, target, tokens[1..], targets);
    }
  }

  lemma TokenAssignsNothing(walk: Walk, kind: Kind, target: string, token: string, targets: set<string>)
    ensures TargetToken(walk, kind, target, token, targets).variables == walk.variables
    ensures TargetToken(walk, kind, target, token, targets).stack == walk.stack
  {
    hide Reference, ObjectsOf, Contains, StartsWith, IsSourcePath, Added, At;
  }

  lemma {:induction false} FalseBody(walk: Walk, body: seq<Command>, targets: set<string>)
    requires HasNoBranches(body) && ActiveCondition(walk.stack) == False
    ensures WalkFrom(walk, body, targets).variables == walk.variables && WalkFrom(walk, body, targets).stack == walk.stack
    decreases |body|
  {
    hide Step, ActiveCondition;
    if body != [] {
      FalseStep(walk, body[0], targets);
      FalseBody(Step(walk, body[0], targets), body[1..], targets);
    }
  }

  /** Between `if` with a false constant and `endif` no variable is assigned. */
  lemma FalseBranchIsSkipped(walk: Walk, condition: seq<string>, body: seq<Command>, targets: set<string>)
    requires HasNoBranches(body) && Constant(condition) == Some(false)
    ensures WalkFrom(walk, Branch(condition, body), targets).variables == walk.variables
    ensures WalkFrom(walk, Branch(condition, body), targets).stack == walk.stack
  {
    hide Step, ActiveCondition, Condition, Constant;
    ConditionIsConstant(condition);
    BranchUnfolds(walk, condition, body, targets);
    OpensFrame(walk, condition, targets);
    FalseFrame(walk.stack);
    var open := walk.(stack := walk.stack + [Frame(False, False, false)]);
    FalseBody(open, body, targets);
    ClosesFrame(WalkFrom(open, body, targets), Frame(False, False, false), targets);
    assert open.stack[..|walk.stack|] == walk.stack;
  }
}
