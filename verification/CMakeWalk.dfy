/** The three-valued walk over a parsed list of CMake commands. */
module CMakeWalk {
  import opened Options
  import opened CMakeText
  import opened CMakeExpansion

  datatype Kind =
    | If
    | ElseIf
    | Else
    | EndIf
    | ListCommand
    | SetCommand
    | AddLibrary
    | AddExecutable
    | AddCustomTarget
    | TargetLinkLibraries
    | TargetSources
    | AddDependencies

  datatype Command = Command(kind: Kind, tokens: seq<string>)

  datatype Truth = False | Unknown | True

  const VISIBILITY: set<string> := {"PUBLIC", "PRIVATE", "INTERFACE"}

  // ----- conditions -----

  function Upper(s: string): (r: string)
    ensures |r| == |s|
  {
    seq(|s|, i requires 0 <= i < |s| => if 'a' <= s[i] <= 'z' then s[i] - 'a' + 'A' else s[i])
  }

  function Spaced(tokens: seq<string>): string {
    if tokens == [] then "" else if |tokens| == 1 then tokens[0] else tokens[0] + " " + Spaced(tokens[1..])
  }

  function Negated(t: Truth): Truth {
    match t
    case True => False
    case False => True
    case Unknown => Unknown
  }

  function Condition(tokens: seq<string>): Truth {
    if tokens == [] then Unknown
    else
      var expression := Upper(Spaced(tokens));
      if expression in {"0", "FALSE", "OFF", "NO", "N", "IGNORE", "NOTFOUND"} then False
      else if expression in {"1", "TRUE", "ON", "YES", "Y"} then True
      else if StartsWith(expression, "NOT ") then Negated(Condition(tokens[1..]))
      else Unknown
  }

  /** The state of a later branch, given whether an earlier branch was taken. */
  function SiblingActive(prior: Truth, condition: Truth): Truth {
    match prior
    case True => False
    case False => condition
    case Unknown => Unknown
  }

  function PriorAfter(prior: Truth, condition: Truth): Truth {
    match prior
    case True => True
    case False => condition
    case Unknown => Unknown
  }

  datatype Frame = Frame(prior: Truth, active: Truth, elseSeen: bool)

  function ActiveCondition(stack: seq<Frame>): Truth {
    if exists f :: f in stack && f.active == False then False
    else if exists f :: f in stack && f.active == Unknown then Unknown
    else True
  }

  // ----- references to targets -----

  datatype Found = Found(names: set<string>, errors: seq<ParseError>) {
    function Join(next: Found): Found {
      Found(names + next.names, errors + next.errors)
    }
  }

  const OBJECTS := "TARGET_OBJECTS:"

  /** The references of a token that holds no variable. */
  function PlainReference(token: string, context: string): Found
    decreases |token|
  {
    if !Contains(token, "$<") then Found({token}, [])
    else
      match Inner(token)
      case None => Found({}, [UnsupportedGenex(context, token)])
      case Some(inner) =>
        if StartsWith(inner, OBJECTS) then Found({inner[|OBJECTS|..]}, [])
        else if StartsWith(inner, "IF:") then
          var parts := Split(inner[3..], ',');
          if |parts| != 3 then Found({}, [UnsupportedIf(context, token)])
          else
            PartsAreShort(inner[3..], ',');
            var condition := if StartsWith(parts[0], "$<BOOL:") then Found({}, [])
                             else PlainReference(parts[0], context);
            condition.Join(PlainReference(parts[1], context)).Join(PlainReference(parts[2], context))
        else
          var parts := Split(inner, ':');
          PartsAreShort(inner, ':');
          if |parts| == 2 && StartsWith(parts[0], "$") then PlainReference(parts[1], context)
          else Found({}, [UnsupportedGenex(context, token)])
  }

  lemma PartsAreShort(value: string, separator: char)
    ensures forall k :: 0 <= k < |Split(value, separator)| ==> |Split(value, separator)[k]| <= |value|
  {
    forall k | 0 <= k < |Split(value, separator)| ensures |Split(value, separator)[k]| <= |value| {
      PartsAreStretches(value, separator, 0, 0, 0, k);
    }
  }

  /** The recursive calls need not look for variables again: no stretch of a plain token holds one. */
  lemma StretchHoldsNoMore(token: string, p: string, a: nat, b: nat)
    requires a <= b <= |token| && !Contains(token, p)
    ensures !Contains(token[a..b], p)
  {
    forall i: nat | i <= b - a ensures !IsAt(token[a..b], p, i) {
      if IsAt(token[a..b], p, i) {
        SliceOfSlice(token, a, b, i, i + |p|);
        assert IsAt(token, p, a + i);
      }
    }
  }

  lemma SliceOfSlice(s: string, a: nat, b: nat, i: nat, j: nat)
    requires a <= b <= |s| && i <= j <= b - a
    ensures s[a..b][i..j] == s[a + i..a + j]
  {
    var inner, outer := s[a..b][i..j], s[a + i..a + j];
    assert |inner| == |outer|;
    forall k | 0 <= k < |inner| ensures inner[k] == outer[k] {
      assert inner[k] == s[a..b][i + k] == s[a + (i + k)];
    }
  }

  function PlainReferences(tokens: seq<string>, context: string): Found {
    if tokens == [] then Found({}, [])
    else
      (if Contains(tokens[0], "${") then Found({}, []) else PlainReference(tokens[0], context))
      .Join(PlainReferences(tokens[1..], context))
  }

  function Reference(token: string, variables: Variables, context: string): Found {
    if Contains(token, "${") then
      var expanded := Expand([token], variables, context, []);
      Found({}, expanded.errors).Join(PlainReferences(expanded.items, context))
    else PlainReference(token, context)
  }

  // ----- the walk -----

  type Relation = map<string, set<string>>

  function At(relation: Relation, key: string): set<string> {
    if key in relation then relation[key] else {}
  }

  function Added(relation: Relation, key: string, names: set<string>): Relation {
    relation[key := At(relation, key) + names]
  }

  datatype Walk = Walk(
    variables: Variables,
    stack: seq<Frame>,
    errors: seq<ParseError>,
    links: Relation,
    edges: Relation,
    sourceEdges: Relation,
    references: Relation)

  const START := Walk(map[], [], [], map[], map[], map[], map[])

  function Failed(walk: Walk, error: ParseError): Walk {
    walk.(errors := walk.errors + [error])
  }

  /** The items without later repetitions. */
  function Deduplicated(items: seq<string>): (r: seq<string>)
    ensures Elements(r) == Elements(items)
  {
    if items == [] then []
    else
      var r := Deduplicated(items[..|items| - 1]);
      var last := items[|items| - 1];
      assert items == items[..|items| - 1] + [last];
      assert Elements(items) == Elements(items[..|items| - 1]) + {last};
      assert Elements(r + [last]) == Elements(r) + {last};
      if last in r then r else r + [last]
  }

  function Values(variables: Variables, name: string): seq<string> {
    if name in variables then variables[name] else []
  }

  predicate IsSourcePath(token: string) {
    StartsWith(token, "src/") || StartsWith(token, "python/")
  }

  /** The library in a token that is nothing but a reference to a library's objects. */
  function ObjectsOf(token: string): Option<string> {
    if StartsWith(token, "$<" + OBJECTS) && |token| > 3 + |OBJECTS| && token[|token| - 1] == '>' &&
       '>' !in token[2 + |OBJECTS|..|token| - 1]
    then Some(token[2 + |OBJECTS|..|token| - 1])
    else None
  }

  predicate IsBranching(kind: Kind) {
    kind in {If, ElseIf, Else, EndIf}
  }

  /** The commands that open, switch and close conditional branches; an error leaves the stack alone. */
  function BranchedStack(stack: seq<Frame>, kind: Kind, condition: Truth): seq<Frame>
    requires IsBranching(kind)
  {
    if kind.If? then stack + [Frame(condition, condition, false)]
    else if stack == [] then stack
    else
      var top, below := stack[|stack| - 1], stack[..|stack| - 1];
      if kind.EndIf? then below
      else if top.elseSeen then stack
      else if kind.ElseIf? then
        below + [Frame(PriorAfter(top.prior, condition), SiblingActive(top.prior, condition), false)]
      else below + [Frame(top.prior, Negated(top.prior), true)]
  }

  function BranchErrors(stack: seq<Frame>, kind: Kind): seq<ParseError>
    requires IsBranching(kind)
  {
    if kind.If? then []
    else if stack == [] then
      [if kind.ElseIf? then ElseIfWithoutIf else if kind.Else? then ElseWithoutIf else EndIfWithoutIf]
    else if !kind.EndIf? && stack[|stack| - 1].elseSeen then [if kind.ElseIf? then ElseIfAfterElse else DuplicateElse]
    else []
  }

  function StepBranch(walk: Walk, kind: Kind, condition: Truth): Walk
    requires IsBranching(kind)
  {
    walk.(stack := BranchedStack(walk.stack, kind, condition), errors := walk.errors + BranchErrors(walk.stack, kind))
  }

  /** Stores what an assignment leaves in a variable; an undecided branch keeps the old items too. */
  function Assigned(walk: Walk, name: string, earlier: seq<string>, expansion: Expansion): Walk {
    var noted := walk.(errors := walk.errors + expansion.errors);
    if ActiveCondition(walk.stack) == False then noted
    else noted.(variables := walk.variables[name := Deduplicated(earlier + expansion.items)])
  }

  function StepAppend(walk: Walk, tokens: seq<string>): Walk
    requires |tokens| >= 3
  {
    Assigned(walk, tokens[1], Values(walk.variables, tokens[1]), Expand(tokens[2..], walk.variables, tokens[0], []))
  }

  function StepList(walk: Walk, tokens: seq<string>): Walk
    requires tokens != []
  {
    if |tokens| < 3 || tokens[0] != "APPEND" then Failed(walk, UnsupportedList(tokens)) else StepAppend(walk, tokens)
  }

  function FirstIndexOf(tokens: seq<string>, token: string): nat
    requires token in tokens
  {
    if tokens[0] == token then 0 else 1 + FirstIndexOf(tokens[1..], token)
  }

  datatype SetForm = Bare | Scoped | BadCache | Cached | Plain

  function FormOf(tokens: seq<string>): (form: SetForm)
    requires tokens != []
    ensures form.Bare? <==> |tokens| == 1
  {
    if |tokens| == 1 then Bare
    else if "PARENT_SCOPE" in tokens then Scoped
    else if "CACHE" in tokens then
      if FirstIndexOf(tokens, "CACHE") != 2 || |tokens| < 4 then BadCache else Cached
    else Plain
  }

  /** The items an undecided assignment keeps. */
  function Kept(walk: Walk, name: string): seq<string> {
    if ActiveCondition(walk.stack) == Unknown then Values(walk.variables, name) else []
  }

  function SetExpansion(walk: Walk, tokens: seq<string>, form: SetForm): Expansion
    requires tokens != [] && (form.Bare? <==> |tokens| == 1)
  {
    match form
    case Bare => Expansion([], [])
    case Scoped => Expansion([], [ScopedSet(tokens)])
    case BadCache => Expansion([], [UnsupportedSet(tokens)])
    case Cached => Expand([tokens[1]], walk.variables, tokens[0], [])
    case Plain => Expand(tokens[1..], walk.variables, tokens[0], [tokens[0]])
  }

  function StepSetAs(walk: Walk, tokens: seq<string>, form: SetForm): Walk
    requires tokens != [] && (form.Bare? <==> |tokens| == 1)
  {
    var expansion := SetExpansion(walk, tokens, form);
    if form.Scoped? || form.BadCache? then walk.(errors := walk.errors + expansion.errors)
    else Assigned(walk, tokens[0], Kept(walk, tokens[0]), expansion)
  }

  function StepSet(walk: Walk, tokens: seq<string>): Walk
    requires tokens != []
  {
    StepSetAs(walk, tokens, FormOf(tokens))
  }

  function Referred(walk: Walk, target: string, found: Found): Walk {
    walk.(references := Added(walk.references, target, found.names), errors := walk.errors + found.errors)
  }

  function LinkToken(walk: Walk, target: string, token: string): Walk {
    if token in VISIBILITY then walk
    else
      Referred(walk.(links := Added(walk.links, target, {token})), target,
               Reference(token, walk.variables, target))
  }

  function SourceToken(walk: Walk, target: string, token: string, targets: set<string>): Walk {
    match ObjectsOf(token)
    case Some(library) =>
      walk.(edges := Added(walk.edges, target, {library}), references := Added(walk.references, target, {library}))
    case None =>
      if Contains(token, "$<") || StartsWith(token, "${") then
        var found := Reference(token, walk.variables, target);
        Referred(walk, target, found).(
          edges := Added(walk.edges, target, found.names * targets),
          sourceEdges := Added(walk.sourceEdges, target, set n | n in found.names && IsSourcePath(n)))
      else if IsSourcePath(token) then walk.(sourceEdges := Added(walk.sourceEdges, target, {token}))
      else walk
  }

  function DependencyToken(walk: Walk, target: string, token: string, targets: set<string>): Walk {
    if token in VISIBILITY then walk
    else if Contains(token, "$<") || StartsWith(token, "${") then
      var found := Reference(token, walk.variables, target);
      Referred(walk, target, found).(edges := Added(walk.edges, target, found.names * targets))
    else walk.(edges := Added(walk.edges, target, {token}))
  }

  function TargetToken(walk: Walk, kind: Kind, target: string, token: string, targets: set<string>): Walk {
    match kind
    case TargetLinkLibraries => LinkToken(walk, target, token)
    case AddDependencies => DependencyToken(walk, target, token, targets)
    case AddLibrary => SourceToken(walk, target, token, targets)
    case AddExecutable => SourceToken(walk, target, token, targets)
    case TargetSources => SourceToken(walk, target, token, targets)
    case _ => walk
  }

  function TargetTokens(walk: Walk, kind: Kind, target: string, tokens: seq<string>, targets: set<string>): Walk
    decreases |tokens|
  {
    if tokens == [] then walk
    else TargetTokens(TargetToken(walk, kind, target, tokens[0], targets), kind, target, tokens[1..], targets)
  }

  function Step(walk: Walk, command: Command, targets: set<string>): Walk {
    var tokens := command.tokens;
    if IsBranching(command.kind) then StepBranch(walk, command.kind, Condition(tokens))
    else if tokens == [] then walk
    else if command.kind.ListCommand? then StepList(walk, tokens)
    else if command.kind.SetCommand? then StepSet(walk, tokens)
    else TargetTokens(walk, command.kind, tokens[0], tokens[1..], targets)
  }

  function WalkFrom(walk: Walk, commands: seq<Command>, targets: set<string>): Walk
    decreases |commands|
  {
    if commands == [] then walk else WalkFrom(Step(walk, commands[0], targets), commands[1..], targets)
  }

  predicate DeclaresTarget(command: Command) {
    command.tokens != [] && command.kind in {AddLibrary, AddExecutable, AddCustomTarget}
  }

  function Targets(commands: seq<Command>): set<string> {
    set c | c in commands && DeclaresTarget(c) :: c.tokens[0]
  }

  /** Every reference to a declared target becomes an edge. */
  function Completed(walk: Walk, targets: set<string>): Walk {
    walk.(edges := map t | t in walk.edges.Keys + walk.references.Keys ::
                     At(walk.edges, t) + At(walk.references, t) * targets)
  }

  function Graph(commands: seq<Command>): Walk {
    Completed(WalkFrom(START, commands, Targets(commands)), Targets(commands))
  }

  // ----- the walk as a loop -----

  method CMakeGraph(commands: seq<Command>) returns (walk: Walk)
    ensures walk == Graph(commands)
  {
    var targets: set<string> := {};
    for i := 0 to |commands|
      invariant targets == Targets(commands[..i])
    {
      assert commands[..i + 1] == commands[..i] + [commands[i]];
      if DeclaresTarget(commands[i]) {
        targets := targets + {commands[i].tokens[0]};
      }
    }
    assert commands[..|commands|] == commands;
    walk := START;
    assert commands[0..] == commands;
    for i := 0 to |commands|
      invariant WalkFrom(walk, commands[i..], targets) == WalkFrom(START, commands, targets)
    {
      assert commands[i..][0] == commands[i] && commands[i..][1..] == commands[i + 1..];
      walk := VisitCommand(walk, commands[i], targets);
    }
    assert commands[|commands|..] == [];
    walk := Completed(walk, targets);
  }

  method VisitCommand(walk: Walk, command: Command, targets: set<string>) returns (next: Walk)
    ensures next == Step(walk, command, targets)
  {
    var tokens := command.tokens;
    if IsBranching(command.kind) {
      next := VisitBranch(walk, command.kind, tokens);
    } else if tokens == [] {
      next := walk;
    } else if command.kind.ListCommand? {
      next := VisitList(walk, tokens);
    } else if command.kind.SetCommand? {
      next := VisitSet(walk, tokens);
    } else if command.kind.TargetLinkLibraries? {
      next := VisitLinks(walk, tokens[0], tokens[1..]);
    } else if command.kind.AddDependencies? {
      next := VisitDependencies(walk, tokens[0], tokens[1..], targets);
    } else if command.kind.AddCustomTarget? {
      CustomTargetKeeps(walk, tokens[0], tokens[1..], targets);
      next := walk;
    } else {
      next := VisitSources(walk, command.kind, tokens[0], tokens[1..], targets);
    }
  }

  lemma {:induction false} CustomTargetKeeps(walk: Walk, target: string, tokens: seq<string>, targets: set<string>)
    ensures TargetTokens(walk, AddCustomTarget, target, tokens, targets) == walk
    decreases |tokens|
  {
    if tokens != [] {
      CustomTargetKeeps(walk, target, tokens[1..], targets);
    }
  }

  /** if, elseif, else and endif push, change and pop the innermost frame. */
  method VisitBranch(walk: Walk, kind: Kind, tokens: seq<string>) returns (next: Walk)
    requires IsBranching(kind)
    ensures next == StepBranch(walk, kind, Condition(tokens))
  {
    var stack, errors := walk.stack, walk.errors;
    if kind.If? {
      var condition := Condition(tokens);
      stack := stack + [Frame(condition, condition, false)];
    } else if stack == [] {
      errors := errors + [if kind.ElseIf? then ElseIfWithoutIf else if kind.Else? then ElseWithoutIf else EndIfWithoutIf];
    } else {
      var last := |stack| - 1;
      var frame := stack[last];
      if kind.EndIf? {
        stack := stack[..last];
      } else if frame.elseSeen {
        errors := errors + [if kind.ElseIf? then ElseIfAfterElse else DuplicateElse];
      } else if kind.ElseIf? {
        var condition := Condition(tokens);
        frame := frame.(active := SiblingActive(frame.prior, condition));
        frame := frame.(prior := PriorAfter(frame.prior, condition));
        stack := stack[last := frame];
      } else {
        stack := stack[last := frame.(active := Negated(frame.prior), elseSeen := true)];
      }
    }
    assert walk.errors + [] == walk.errors;
    next := walk.(stack := stack, errors := errors);
  }

  /** The references of one token: its variables are expanded, and what comes out is read item by item. */
  method FollowReference(token: string, variables: Variables, context: string) returns (found: Found)
    ensures found == Reference(token, variables, context)
  {
    if !Contains(token, "${") {
      return PlainReference(token, context);
    }
    var items, errors := ExpandValues([token], variables, context, []);
    found := Found({}, errors);
    for i := 0 to |items|
      invariant found.Join(PlainReferences(items[i..], context)) == Found({}, errors).Join(PlainReferences(items, context))
    {
      assert items[i..][0] == items[i] && items[i..][1..] == items[i + 1..];
      var head := if Contains(items[i], "${") then Found({}, []) else PlainReference(items[i], context);
      JoinAssociates(found, head, PlainReferences(items[i + 1..], context));
      found := found.Join(head);
    }
    assert items[|items|..] == [] && found.errors + [] == found.errors;
  }

  lemma JoinAssociates(a: Found, b: Found, c: Found)
    ensures a.Join(b).Join(c) == a.Join(b.Join(c))
  {
    assert (a.errors + b.errors) + c.errors == a.errors + (b.errors + c.errors);
  }

  /** One token further in a loop over the tokens of a target. */
  lemma NextToken(walk: Walk, kind: Kind, target: string, tokens: seq<string>, i: nat, targets: set<string>)
    requires i < |tokens|
    ensures TargetTokens(walk, kind, target, tokens[i..], targets)
         == TargetTokens(TargetToken(walk, kind, target, tokens[i], targets), kind, target, tokens[i + 1..], targets)
  {
    assert tokens[i..][0] == tokens[i] && tokens[i..][1..] == tokens[i + 1..];
  }

  method VisitLinks(walk: Walk, target: string, tokens: seq<string>) returns (next: Walk)
    ensures forall targets :: TargetTokens(walk, TargetLinkLibraries, target, tokens, targets) == next
  {
    hide TargetTokens, Reference;
    next := walk;
    for i := 0 to |tokens|
      invariant TargetTokens(next, TargetLinkLibraries, target, tokens[i..], {})
             == TargetTokens(walk, TargetLinkLibraries, target, tokens, {})
    {
      NextToken(next, TargetLinkLibraries, target, tokens, i, {});
      var token := tokens[i];
      if token !in VISIBILITY {
        var found := FollowReference(token, next.variables, target);
        next := next.(links := Added(next.links, target, {token}),
                      references := Added(next.references, target, found.names), errors := next.errors + found.errors);
      }
    }
    NoTokensLeft(next, TargetLinkLibraries, target, tokens, {});
    LinksNeedNoTargets(walk, target, tokens);
  }

  lemma NoTokensLeft(walk: Walk, kind: Kind, target: string, tokens: seq<string>, targets: set<string>)
    ensures TargetTokens(walk, kind, target, tokens[|tokens|..], targets) == walk
  {
  }

  lemma {:induction false} LinksNeedNoTargets(walk: Walk, target: string, tokens: seq<string>)
    ensures forall targets :: TargetTokens(walk, TargetLinkLibraries, target, tokens, targets)
                           == TargetTokens(walk, TargetLinkLibraries, target, tokens, {})
    decreases |tokens|
  {
    hide LinkToken;
    if tokens != [] {
      LinksNeedNoTargets(LinkToken(walk, target, tokens[0]), target, tokens[1..]);
    }
  }

  method VisitSources(walk: Walk, kind: Kind, target: string, tokens: seq<string>, targets: set<string>) returns (next: Walk)
    requires kind in {AddLibrary, AddExecutable, TargetSources}
    ensures next == TargetTokens(walk, kind, target, tokens, targets)
  {
    hide TargetTokens, Reference, ObjectsOf, Contains, StartsWith;
    next := walk;
    for i := 0 to |tokens|
      invariant TargetTokens(next, kind, target, tokens[i..], targets) == TargetTokens(walk, kind, target, tokens, targets)
    {
      NextToken(next, kind, target, tokens, i, targets);
      var token := tokens[i];
      var library := ObjectsOf(token);
      if library.Some? {
        next := next.(edges := Added(next.edges, target, {library.value}),
                      references := Added(next.references, target, {library.value}));
      } else if Contains(token, "$<") || StartsWith(token, "${") {
        var found := FollowReference(token, next.variables, target);
        next := next.(references := Added(next.references, target, found.names), errors := next.errors + found.errors);
        next := next.(edges := Added(next.edges, target, found.names * targets));
        next := next.(sourceEdges := Added(next.sourceEdges, target, set n | n in found.names && IsSourcePath(n)));
      } else if IsSourcePath(token) {
        next := next.(sourceEdges := Added(next.sourceEdges, target, {token}));
      }
    }
    NoTokensLeft(next, kind, target, tokens, targets);
  }

  method VisitDependencies(walk: Walk, target: string, tokens: seq<string>, targets: set<string>) returns (next: Walk)
    ensures next == TargetTokens(walk, AddDependencies, target, tokens, targets)
  {
    hide TargetTokens, Reference, Contains, StartsWith;
    next := walk;
    for i := 0 to |tokens|
      invariant TargetTokens(next, AddDependencies, target, tokens[i..], targets)
             == TargetTokens(walk, AddDependencies, target, tokens, targets)
    {
      NextToken(next, AddDependencies, target, tokens, i, targets);
      var token := tokens[i];
      if token in VISIBILITY {
      } else if Contains(token, "$<") || StartsWith(token, "${") {
        var found := FollowReference(token, next.variables, target);
        next := next.(references := Added(next.references, target, found.names), errors := next.errors + found.errors);
        next := next.(edges := Added(next.edges, target, found.names * targets));
      } else {
        next := next.(edges := Added(next.edges, target, {token}));
      }
    }
    NoTokensLeft(next, AddDependencies, target, tokens, targets);
  }

  method VisitList(walk: Walk, tokens: seq<string>) returns (next: Walk)
    requires tokens != []
    ensures next == StepList(walk, tokens)
  {
    if |tokens| < 3 || tokens[0] != "APPEND" {
      return Failed(walk, UnsupportedList(tokens));
    }
    var values, errors := ExpandValues(tokens[2..], walk.variables, tokens[0], []);
    next := Assigned(walk, tokens[1], Values(walk.variables, tokens[1]), Expansion(values, errors));
  }

  method VisitSet(walk: Walk, tokens: seq<string>) returns (next: Walk)
    requires tokens != []
    ensures next == StepSet(walk, tokens)
  {
    hide Expand, Deduplicated, ActiveCondition, Values;
    var target := tokens[0];
    var values, errors := [], [];
    if |tokens| == 1 {
    } else if "PARENT_SCOPE" in tokens {
      return Failed(walk, ScopedSet(tokens));
    } else if "CACHE" in tokens {
      if FirstIndexOf(tokens, "CACHE") != 2 || |tokens| < 4 {
        return Failed(walk, UnsupportedSet(tokens));
      }
      values, errors := ExpandValues([tokens[1]], walk.variables, target, []);
    } else {
      values, errors := ExpandValues(tokens[1..], walk.variables, target, [target]);
    }
    next := walk.(errors := walk.errors + errors);
    var active := ActiveCondition(walk.stack);
    if active == False {
      return;
    }
    if active == Unknown {
      values := Values(walk.variables, target) + values;
    } else {
      assert values == [] + values;
    }
    next := next.(variables := walk.variables[target := Deduplicated(values)]);
  }
}
