/** The string scans of the CMake reader: variable references and generator expressions. */
module CMakeText {
  import opened Options

  predicate IsAt(s: string, p: string, i: nat) {
    i + |p| <= |s| && s[i..i + |p|] == p
  }

  predicate StartsWith(s: string, p: string) {
    IsAt(s, p, 0)
  }

  function Find(s: string, p: string, from: nat): (r: Option<nat>)
    requires from <= |s|
    ensures r.Some? ==> IsAt(s, p, r.value)
    ensures r.None? ==> forall i :: from <= i <= |s| ==> !IsAt(s, p, i)
    decreases |s| - from
  {
    if IsAt(s, p, from) then Some(from)
    else if from == |s| then None
    else Find(s, p, from + 1)
  }

  predicate Contains(s: string, p: string): (r: bool)
    ensures r <==> exists i: nat :: i <= |s| && IsAt(s, p, i)
  {
    Find(s, p, 0).Some?
  }

  /** Python's s.replace(p, r, 1). */
  function ReplaceFirst(s: string, p: string, r: string): string {
    match Find(s, p, 0)
    case None => s
    case Some(i) => s[..i] + r + s[i + |p|..]
  }

  // ----- variable references -----

  /** The next brace at or after j. */
  function NextBrace(s: string, j: nat): (e: nat)
    requires j <= |s|
    ensures j <= e <= |s| && (e < |s| ==> s[e] in {'{', '}'})
    ensures forall k :: j <= k < e ==> s[k] !in {'{', '}'}
    decreases |s| - j
  {
    if j == |s| || s[j] in {'{', '}'} then j else NextBrace(s, j + 1)
  }

  predicate IsName(name: string) {
    name != "" && forall k :: 0 <= k < |name| ==> name[k] !in {'{', '}'}
  }

  /** The text of a reference to a variable. */
  function Quoted(name: string): string {
    "${" + name + "}"
  }

  /** The end of the reference that starts at i, if one does. */
  function ReferenceEnd(s: string, i: nat): (r: Option<nat>)
    ensures r.Some? ==> i + 3 < r.value <= |s| && IsName(s[i + 2..r.value - 1])
    ensures r.Some? ==> s[i..r.value] == Quoted(s[i + 2..r.value - 1])
  {
    if !IsAt(s, "${", i) then None
    else
      var e := NextBrace(s, i + 2);
      if e < |s| && s[e] == '}' && e > i + 2 then Some(e + 1) else None
  }

  /** The names of the references from position i on, left to right and without overlap. */
  function ReferencesFrom(s: string, i: nat): (names: seq<string>)
    requires i <= |s|
    ensures forall n :: n in names ==> IsName(n)
    decreases |s| - i
  {
    if i == |s| then []
    else
      match ReferenceEnd(s, i)
      case Some(e) => [s[i + 2..e - 1]] + ReferencesFrom(s, e)
      case None => ReferencesFrom(s, i + 1)
  }

  function References(s: string): (names: seq<string>)
    ensures forall n :: n in names ==> IsName(n)
  {
    ReferencesFrom(s, 0)
  }

  /** The variable a value refers to when the value is nothing but one reference. */
  function ExactReference(s: string): (r: Option<string>)
    ensures r.Some? ==> s == Quoted(r.value) && IsName(r.value) && References(s) == [r.value]
  {
    match ReferenceEnd(s, 0)
    case Some(e) =>
      if e == |s| then
        assert s[0..e] == s && ReferencesFrom(s, e) == [];
        Some(s[2..e - 1])
      else None
    case None => None
  }

  lemma QuotedIsExact(name: string)
    requires IsName(name)
    ensures ExactReference(Quoted(name)) == Some(name)
  {
    var s := Quoted(name);
    var e := NextBrace(s, 2);
    assert s[|s| - 1] == '}';
    assert forall k :: 2 <= k < |s| - 1 ==> s[k] == name[k - 2];
    assert e == |s| - 1;
    assert s[2..e] == name;
  }

  /** Without an opening there is no reference. */
  lemma NoReferences(s: string)
    requires !Contains(s, "${")
    ensures References(s) == [] && ExactReference(s) == None
  {
    NoReferencesFrom(s, 0);
    assert !IsAt(s, "${", 0);
  }

  lemma {:induction false} NoReferencesFrom(s: string, i: nat)
    requires i <= |s| && !Contains(s, "${")
    ensures ReferencesFrom(s, i) == []
    decreases |s| - i
  {
    if i < |s| {
      assert !IsAt(s, "${", i);
      NoReferencesFrom(s, i + 1);
    }
  }

  lemma ReplaceBySame(s: string, p: string)
    ensures ReplaceFirst(s, p, p) == s
  {
    var f := Find(s, p, 0);
    if f.Some? {
      assert s == s[..f.value] + s[f.value..f.value + |p|] + s[f.value + |p|..];
    }
  }

  // ----- generator expressions -----

  /** Openings minus closings from position i on; an opening "$<" is read as one symbol. */
  function Nesting(s: string, i: nat): int
    requires i <= |s|
    decreases |s| - i
  {
    if i == |s| then 0
    else if IsAt(s, "$<", i) then 1 + Nesting(s, i + 2)
    else if s[i] == '>' then Nesting(s, i + 1) - 1
    else Nesting(s, i + 1)
  }

  /** What is inside the outermost brackets of a token. */
  function Inner(token: string): (r: Option<string>)
    ensures r.Some? ==> token == "$<" + r.value + ">" && |r.value| < |token|
  {
    if StartsWith(token, "$<") && token[|token| - 1] == '>' && Nesting(token, 0) == 0 then
      assert token == token[..2] + token[2..|token| - 1] + [token[|token| - 1]];
      Some(token[2..|token| - 1])
    else None
  }

  /** The scan accepts exactly the tokens that open with "$<", end with ">" and nest to zero overall. */
  method GenexInner(token: string) returns (r: Option<string>)
    ensures r == Inner(token)
  {
    if !StartsWith(token, "$<") {
      return None;
    }
    var depth, index := 1, 2;
    while index < |token|
      invariant 2 <= index <= |token|
      invariant depth + Nesting(token, index) == Nesting(token, 0)
      invariant index == |token| ==> token[|token| - 1] != '>' || Nesting(token, 0) != 0
      decreases |token| - index
    {
      if IsAt(token, "$<", index) {
        depth, index := depth + 1, index + 2;
        continue;
      }
      if token[index] == '>' {
        depth := depth - 1;
        if depth == 0 && index == |token| - 1 {
          assert Nesting(token, index + 1) == 0;
          return Some(token[2..index]);
        }
      }
      index := index + 1;
    }
    return None;
  }

  /** The pieces of a value between separators that are outside every bracket. */
  function SplitFrom(value: string, separator: char, start: nat, index: nat, depth: nat): (parts: seq<string>)
    requires start <= index <= |value|
    ensures |parts| >= 1
    decreases |value| - index
  {
    if index == |value| then [value[start..]]
    else if IsAt(value, "$<", index) then SplitFrom(value, separator, start, index + 2, depth + 1)
    else if value[index] == '>' && depth > 0 then SplitFrom(value, separator, start, index + 1, depth - 1)
    else if value[index] == separator && depth == 0 then
      [value[start..index]] + SplitFrom(value, separator, index + 1, index + 1, depth)
    else SplitFrom(value, separator, start, index + 1, depth)
  }

  function Split(value: string, separator: char): (parts: seq<string>)
    ensures |parts| >= 1
  {
    SplitFrom(value, separator, 0, 0, 0)
  }

  method SplitGenex(value: string, separator: char) returns (parts: seq<string>)
    ensures parts == Split(value, separator)
  {
    parts := [];
    var start, depth, index := 0, 0, 0;
    while index < |value|
      invariant 0 <= start <= index <= |value| && depth >= 0
      invariant parts + SplitFrom(value, separator, start, index, depth) == Split(value, separator)
      decreases |value| - index
    {
      if IsAt(value, "$<", index) {
        depth, index := depth + 1, index + 2;
        continue;
      }
      if value[index] == '>' && depth > 0 {
        depth := depth - 1;
      } else if value[index] == separator && depth == 0 {
        parts := parts + [value[start..index]];
        start := index + 1;
      }
      index := index + 1;
    }
    parts := parts + [value[start..]];
  }

  function Joined(parts: seq<string>, separator: char): string
    requires |parts| >= 1
  {
    if |parts| == 1 then parts[0] else parts[0] + [separator] + Joined(parts[1..], separator)
  }

  /** Splitting loses nothing: the pieces joined by the separator are the value again. */
  lemma SplitKeepsText(value: string, separator: char)
    ensures Joined(Split(value, separator), separator) == value
  {
    SplitFromKeepsText(value, separator, 0, 0, 0);
  }

  lemma {:induction false} SplitFromKeepsText(value: string, separator: char, start: nat, index: nat, depth: nat)
    requires start <= index <= |value|
    ensures Joined(SplitFrom(value, separator, start, index, depth), separator) == value[start..]
    decreases |value| - index
  {
    if index == |value| {
    } else if IsAt(value, "$<", index) {
      SplitFromKeepsText(value, separator, start, index + 2, depth + 1);
    } else if value[index] == '>' && depth > 0 {
      SplitFromKeepsText(value, separator, start, index + 1, depth - 1);
    } else if value[index] == separator && depth == 0 {
      SplitFromKeepsText(value, separator, index + 1, index + 1, depth);
      var rest := SplitFrom(value, separator, index + 1, index + 1, depth);
      var parts := [value[start..index]] + rest;
      assert parts[1..] == rest;
      assert value[start..] == value[start..index] + [separator] + value[index + 1..];
    } else {
      SplitFromKeepsText(value, separator, start, index + 1, depth);
    }
  }

  /** Every piece is a stretch of the value. */
  lemma {:induction false} PartsAreStretches(value: string, separator: char, start: nat, index: nat, depth: nat, k: nat)
    requires start <= index <= |value|
    requires k < |SplitFrom(value, separator, start, index, depth)|
    ensures exists a: nat, b: nat :: a <= b <= |value| && SplitFrom(value, separator, start, index, depth)[k] == value[a..b]
    decreases |value| - index
  {
    var parts := SplitFrom(value, separator, start, index, depth);
    if index == |value| {
      assert parts[0] == value[start..|value|];
    } else if IsAt(value, "$<", index) {
      PartsAreStretches(value, separator, start, index + 2, depth + 1, k);
    } else if value[index] == '>' && depth > 0 {
      PartsAreStretches(value, separator, start, index + 1, depth - 1, k);
    } else if value[index] == separator && depth == 0 {
      if k == 0 {
        assert parts[0] == value[start..index];
      } else {
        PartsAreStretches(value, separator, index + 1, index + 1, depth, k - 1);
      }
    } else {
      PartsAreStretches(value, separator, start, index + 1, depth, k);
    }
  }
}
