/** Recursive expansion of CMake variable references with a guard against cycles. */
module CMakeExpansion {
  import opened Options
  import opened CMakeText

  type Variables = map<string, seq<string>>

  datatype ParseError =
    | VariableCycle(context: string, path: seq<string>)
    | Unresolved(context: string, name: string)
    | MultiValued(context: string, value: string)
    | UnsupportedGenex(context: string, token: string)
    | UnsupportedIf(context: string, token: string)
    | UnsupportedList(tokens: seq<string>)
    | UnsupportedSet(tokens: seq<string>)
    | ScopedSet(tokens: seq<string>)
    | ElseIfAfterElse
    | ElseIfWithoutIf
    | DuplicateElse
    | ElseWithoutIf
    | EndIfWithoutIf

  const OPAQUE_VARIABLES: set<string> :=
    {"CMAKE_CURRENT_BINARY_DIR", "CMAKE_CURRENT_SOURCE_DIR", "CIDX_CLANG_TIDY_EXECUTABLE", "_cidx_macos_sdk",
     "CIDX_SOUFFLE_EXECUTABLE", "CIDX_SOUFFLE_INCLUDE_DIR", "LLVM_LIBRARY_DIR", "LLVM_VERSION_MAJOR",
     "_cidx_cmake_root", "_cidx_llvm_cmakedir"}

  /** Variables set outside the project: a reference to one is kept as it is written. */
  predicate IsOpaque(name: string) {
    name in OPAQUE_VARIABLES || name == "CMAKE_DL_LIBS"
  }

  datatype Expansion = Expansion(items: seq<string>, errors: seq<ParseError>) {
    function Then(next: Expansion): Expansion {
      Expansion(items + next.items, errors + next.errors)
    }
  }

  function Elements(s: seq<string>): set<string> {
    set x | x in s
  }

  function Expand(values: seq<string>, variables: Variables, context: string, stack: seq<string>): Expansion
    decreases variables.Keys - Elements(stack), 3, |values|
  {
    if values == [] then Expansion([], [])
    else ExpandValue(values[0], variables, context, stack).Then(Expand(values[1..], variables, context, stack))
  }

  function ExpandValue(value: string, variables: Variables, context: string, stack: seq<string>): Expansion
    decreases variables.Keys - Elements(stack), 2, 0
  {
    match ExactReference(value)
    case Some(name) => ExpandName(name, variables, context, stack)
    case None =>
      var names := References(value);
      if names == [] then Expansion([value], [])
      else ExpandEmbedded(value, value, names, variables, context, stack)
  }

  /** Replaces the remaining references inside a longer text; each must stand for exactly one item. */
  function ExpandEmbedded(value: string, substituted: string, names: seq<string>, variables: Variables,
                          context: string, stack: seq<string>): Expansion
    decreases variables.Keys - Elements(stack), 1, |names|
  {
    if names == [] then Expansion(if substituted != "" then [substituted] else [], [])
    else
      var replacement := ExpandName(names[0], variables, context, stack);
      if |replacement.items| != 1 then Expansion([], replacement.errors + [MultiValued(context, value)])
      else
        var next := ReplaceFirst(substituted, Quoted(names[0]), replacement.items[0]);
        var rest := ExpandEmbedded(value, next, names[1..], variables, context, stack);
        Expansion(rest.items, replacement.errors + rest.errors)
  }

  function ExpandName(name: string, variables: Variables, context: string, stack: seq<string>): Expansion
    decreases variables.Keys - Elements(stack), 0, 0
  {
    if name in stack then Expansion([], [VariableCycle(context, stack + [name])])
    else if name !in variables then
      if IsOpaque(name) then Expansion([Quoted(name)], []) else Expansion([], [Unresolved(context, name)])
    else
      GrowsStack(variables, stack, name);
      Expand(variables[name], variables, context, stack + [name])
  }

  lemma GrowsStack(variables: Variables, stack: seq<string>, name: string)
    requires name !in stack && name in variables
    ensures variables.Keys - Elements(stack + [name]) < variables.Keys - Elements(stack)
  {
    assert Elements(stack + [name]) == Elements(stack) + {name};
    assert name in variables.Keys - Elements(stack);
  }

  // ----- the expansion with accumulators -----

  predicate AllExact(values: seq<string>) {
    forall v :: v in values ==> ExactReference(v).Some?
  }

  /** Terminates for every variable map, cyclic ones included. */
  method ExpandValues(values: seq<string>, variables: Variables, context: string, stack: seq<string>)
    returns (expanded: seq<string>, errors: seq<ParseError>)
    ensures Expansion(expanded, errors) == Expand(values, variables, context, stack)
    decreases variables.Keys - Elements(stack), if AllExact(values) then 0 else 2, 1
  {
    expanded, errors := [], [];
    for i := 0 to |values|
      invariant Expansion(expanded, errors).Then(Expand(values[i..], variables, context, stack))
             == Expand(values, variables, context, stack)
    {
      var items, found := ExpandOne(values[i], variables, context, stack);
      UnfoldExpand(values, i, variables, context, stack);
      ThenAssociates(Expansion(expanded, errors), Expansion(items, found),
                     Expand(values[i + 1..], variables, context, stack));
      expanded, errors := expanded + items, errors + found;
    }
    assert values[|values|..] == [];
  }

  lemma UnfoldExpand(values: seq<string>, i: nat, variables: Variables, context: string, stack: seq<string>)
    requires i < |values|
    ensures Expand(values[i..], variables, context, stack)
         == ExpandValue(values[i], variables, context, stack).Then(Expand(values[i + 1..], variables, context, stack))
  {
    assert values[i..][0] == values[i] && values[i..][1..] == values[i + 1..];
  }

  lemma ThenAssociates(a: Expansion, b: Expansion, c: Expansion)
    ensures a.Then(b).Then(c) == a.Then(b.Then(c))
  {
  }

  method ExpandOne(value: string, variables: Variables, context: string, stack: seq<string>)
    returns (items: seq<string>, errors: seq<ParseError>)
    ensures Expansion(items, errors) == ExpandValue(value, variables, context, stack)
    decreases variables.Keys - Elements(stack), if ExactReference(value).Some? then 0 else 2, 0
  {
    var exact := ExactReference(value);
    if exact.None? {
      items, errors := ExpandInside(value, variables, context, stack);
      return;
    }
    var name := exact.value;
    if name in stack {
      return [], [VariableCycle(context, stack + [name])];
    }
    if name !in variables {
      if IsOpaque(name) {
        return [value], [];
      }
      return [], [Unresolved(context, name)];
    }
    GrowsStack(variables, stack, name);
    items, errors := ExpandValues(variables[name], variables, context, stack + [name]);
  }

  method ExpandInside(value: string, variables: Variables, context: string, stack: seq<string>)
    returns (items: seq<string>, errors: seq<ParseError>)
    requires ExactReference(value).None?
    ensures Expansion(items, errors) == ExpandValue(value, variables, context, stack)
    decreases variables.Keys - Elements(stack), 1, 1
  {
    var names := References(value);
    if names == [] {
      return [value], [];
    }
    items, errors := ExpandNames(value, names, variables, context, stack);
  }

  method ExpandNames(value: string, names: seq<string>, variables: Variables, context: string, stack: seq<string>)
    returns (items: seq<string>, errors: seq<ParseError>)
    requires forall n :: n in names ==> IsName(n)
    ensures Expansion(items, errors) == ExpandEmbedded(value, value, names, variables, context, stack)
    decreases variables.Keys - Elements(stack), 1, 0
  {
    var substituted := value;
    errors := [];
    assert names[0..] == names;
    ghost var whole := ExpandEmbedded(value, value, names, variables, context, stack);
    ghost var rest := whole;
    for i := 0 to |names|
      invariant rest == ExpandEmbedded(value, substituted, names[i..], variables, context, stack)
      invariant WithErrors(errors, rest) == whole
    {
      UnfoldEmbedded(value, substituted, names, i, variables, context, stack);
      var replacements, found := ExpandValues([Quoted(names[i])], variables, context, stack);
      if |replacements| != 1 {
        ErrorsAssociate(errors, found, Expansion([], [MultiValued(context, value)]));
        return [], errors + found + [MultiValued(context, value)];
      }
      substituted := ReplaceFirst(substituted, Quoted(names[i]), replacements[0]);
      rest := ExpandEmbedded(value, substituted, names[i + 1..], variables, context, stack);
      ErrorsAssociate(errors, found, rest);
      errors := errors + found;
    }
    assert names[|names|..] == [];
    items := if substituted != "" then [substituted] else [];
  }

  lemma ErrorsAssociate(a: seq<ParseError>, b: seq<ParseError>, rest: Expansion)
    ensures WithErrors(a, WithErrors(b, rest)) == WithErrors(a + b, rest)
  {
  }

  lemma UnfoldEmbedded(value: string, substituted: string, names: seq<string>, i: nat, variables: Variables,
                       context: string, stack: seq<string>)
    requires i < |names| && IsName(names[i])
    ensures AllExact([Quoted(names[i])])
    ensures var r := Expand([Quoted(names[i])], variables, context, stack);
            var rest := ExpandEmbedded(value, substituted, names[i..], variables, context, stack);
            if |r.items| != 1 then
              rest == WithErrors(r.errors, Expansion([], [MultiValued(context, value)]))
            else
              rest == WithErrors(r.errors,
                                 ExpandEmbedded(value, ReplaceFirst(substituted, Quoted(names[i]), r.items[0]),
                                                names[i + 1..], variables, context, stack))
  {
    assert names[i..][0] == names[i] && names[i..][1..] == names[i + 1..];
    ExpandSingle(names[i], variables, context, stack);
  }

  function WithErrors(errors: seq<ParseError>, rest: Expansion): Expansion {
    Expansion(rest.items, errors + rest.errors)
  }

  lemma ExpandSingle(name: string, variables: Variables, context: string, stack: seq<string>)
    requires IsName(name)
    ensures AllExact([Quoted(name)])
    ensures Expand([Quoted(name)], variables, context, stack) == ExpandName(name, variables, context, stack)
  {
    QuotedIsExact(name);
    assert [Quoted(name)][1..] == [];
    assert Expand([], variables, context, stack) == Expansion([], []);
  }

  // ----- a reachable cycle is reported -----

  predicate RefersTo(values: seq<string>, name: string) {
    exists v :: v in values && name in References(v)
  }

  /** Each name is referred to by the values of the one before it. */
  predicate IsChain(variables: Variables, values: seq<string>, path: seq<string>) {
    && |path| >= 1 && RefersTo(values, path[0])
    && forall i :: 0 <= i < |path| - 1 ==> path[i] in variables && RefersTo(variables[path[i]], path[i + 1])
  }

  predicate Distinct(path: seq<string>) {
    forall i, j :: 0 <= i < j < |path| ==> path[i] != path[j]
  }

  lemma {:induction false} QuietValues(values: seq<string>, variables: Variables, context: string,
                                       stack: seq<string>, value: string)
    requires Expand(values, variables, context, stack).errors == [] && value in values
    ensures ExpandValue(value, variables, context, stack).errors == []
  {
    if values[0] != value {
      QuietValues(values[1..], variables, context, stack, value);
    }
  }

  lemma {:induction false} QuietEmbedded(value: string, substituted: string, names: seq<string>, variables: Variables,
                                         context: string, stack: seq<string>, name: string)
    requires ExpandEmbedded(value, substituted, names, variables, context, stack).errors == [] && name in names
    ensures ExpandName(name, variables, context, stack).errors == []
    decreases |names|
  {
    var replacement := ExpandName(names[0], variables, context, stack);
    if names[0] != name {
      QuietEmbedded(value, ReplaceFirst(substituted, Quoted(names[0]), replacement.items[0]), names[1..],
                    variables, context, stack, name);
    }
  }

  lemma QuietReference(values: seq<string>, variables: Variables, context: string, stack: seq<string>, name: string)
    requires Expand(values, variables, context, stack).errors == [] && RefersTo(values, name)
    ensures ExpandName(name, variables, context, stack).errors == []
  {
    var value :| value in values && name in References(value);
    QuietValues(values, variables, context, stack, value);
    if ExactReference(value).None? {
      QuietEmbedded(value, value, References(value), variables, context, stack, name);
    }
  }

  /** If nothing is recorded, no chain of references repeats a name or meets the stack. */
  lemma {:induction false} QuietChain(values: seq<string>, variables: Variables, context: string,
                                      stack: seq<string>, path: seq<string>)
    requires Expand(values, variables, context, stack).errors == []
    requires IsChain(variables, values, path)
    ensures Distinct(path) && forall n :: n in path ==> n !in stack
    decreases |path|
  {
    QuietReference(values, variables, context, stack, path[0]);
    if |path| > 1 {
      var rest := path[1..];
      assert path[0] in variables && RefersTo(variables[path[0]], path[0 + 1]);
      forall i | 0 <= i < |rest| - 1 ensures rest[i] in variables && RefersTo(variables[rest[i]], rest[i + 1]) {
        assert path[i + 1] in variables && RefersTo(variables[path[i + 1]], path[i + 1 + 1]);
      }
      QuietChain(variables[path[0]], variables, context, stack + [path[0]], rest);
      assert path[0] in stack + [path[0]];
      assert path == [path[0]] + rest;
    }
  }

  /** A reference cycle that can be reached from the values is always recorded. */
  lemma CycleIsReported(values: seq<string>, variables: Variables, context: string, stack: seq<string>, path: seq<string>)
    requires IsChain(variables, values, path) && (!Distinct(path) || exists n :: n in path && n in stack)
    ensures Expand(values, variables, context, stack).errors != []
  {
    if Expand(values, variables, context, stack).errors == [] {
      QuietChain(values, variables, context, stack, path);
      assert false;
    }
  }
}
