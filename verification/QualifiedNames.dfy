/** Stripping a rendered C++ name back to its bare qualified form. */
module QualifiedNames {
  import opened Options

  /** The qualifiers a printed signature can end with, in the order they are tried. */
  type Suffix = k: nat | k < 4

  function Text(k: Suffix): (t: string)
    ensures |t| >= 2
  {
    if k == 0 then " const" else if k == 1 then " volatile" else if k == 2 then " &&" else " &"
  }

  predicate EndsWith(s: string, suffix: string) {
    |suffix| <= |s| && s[|s| - |suffix|..] == suffix
  }

  /** The suffix that s ends with, if any: they exclude one another. */
  function SuffixOf(s: string): (r: Option<Suffix>)
    ensures r.Some? ==> EndsWith(s, Text(r.value))
    ensures r.None? ==> forall k: Suffix :: !EndsWith(s, Text(k))
  {
    if EndsWith(s, Text(0)) then Some(0)
    else if EndsWith(s, Text(1)) then Some(1)
    else if EndsWith(s, Text(2)) then Some(2)
    else if EndsWith(s, Text(3)) then Some(3)
    else None
  }

  function Chopped(s: string, k: Suffix): (r: string)
    requires EndsWith(s, Text(k))
    ensures |r| < |s| && s == r + Text(k)
  {
    s[..|s| - |Text(k)|]
  }

  /** s without its trailing cv and reference qualifiers. */
  function Stripped(s: string): string
    decreases |s|
  {
    match SuffixOf(s)
    case None => s
    case Some(k) => Stripped(Chopped(s, k))
  }

  /** Opening minus closing parentheses. */
  function Depth(s: string): int {
    if s == "" then 0
    else Depth(s[..|s| - 1]) + if s[|s| - 1] == '(' then 1 else if s[|s| - 1] == ')' then -1 else 0
  }

  /** Every parenthesis has its partner. */
  ghost predicate Balanced(s: string) {
    Depth(s) == 0 && forall i :: 0 <= i <= |s| ==> Depth(s[..i]) >= 0
  }

  /** Scanning s[..i] from the right with `depth` parentheses still open: where the last one opens, or |s|. */
  function OpenedAt(s: string, i: nat, depth: int): (r: nat)
    requires i <= |s|
    ensures r < i || r == |s|
    decreases i
  {
    if i == 0 then |s|
    else if s[i - 1] == ')' then OpenedAt(s, i - 1, depth + 1)
    else if s[i - 1] == '(' then if depth == 1 then i - 1 else OpenedAt(s, i - 1, depth - 1)
    else OpenedAt(s, i - 1, depth)
  }

  function Bare(name: string): string {
    var s := Stripped(name);
    if !EndsWith(s, ")") then name
    else
      var i := OpenedAt(s, |s|, 0);
      if i < |s| then s[..i] else name
  }

  // ----- the stripping loops -----

  method BareQualName(name: string) returns (r: string)
    ensures r == Bare(name)
  {
    var s := StripSuffixes(name);
    if !EndsWith(s, ")") {
      return name;
    }
    var depth, i := 0, |s|;
    while i > 0
      invariant 0 <= i <= |s|
      invariant OpenedAt(s, i, depth) == OpenedAt(s, |s|, 0)
    {
      i := i - 1;
      if s[i] == ')' {
        depth := depth + 1;
      } else if s[i] == '(' {
        depth := depth - 1;
        if depth == 0 {
          return s[..i];
        }
      }
    }
    return name;
  }

  method StripSuffixes(name: string) returns (s: string)
    ensures s == Stripped(name)
  {
    hide Text, Stripped, EndsWith;
    var endings := [" const", " volatile", " &&", " &"];
    TextsAre();
    s := name;
    var changed := true;
    while changed
      invariant Stripped(s) == Stripped(name)
      invariant !changed ==> Stripped(s) == s
      decreases |s|, changed
    {
      changed := false;
      ghost var before := s;
      for k := 0 to 4
        invariant Stripped(s) == Stripped(name)
        invariant if changed then |s| < |before| else s == before
        invariant !changed ==> forall j: Suffix :: j < k ==> !EndsWith(s, Text(j))
      {
        assert endings[k] == Text(k);
        if EndsWith(s, endings[k]) {
          SuffixIsUnique(s, k);
          StrippedOf(s);
          s := Chopped(s, k);
          changed := true;
        }
      }
      StrippedOf(s);
    }
  }

  lemma TextsAre()
    ensures Text(0) == " const" && Text(1) == " volatile" && Text(2) == " &&" && Text(3) == " &"
  {
  }

  lemma StrippedOf(s: string)
    ensures Stripped(s) == match SuffixOf(s) { case None => s case Some(k) => Stripped(Chopped(s, k)) }
  {
  }

  lemma EndOfSuffix(s: string, suffix: string)
    requires |suffix| >= 2
    ensures EndsWith(s, suffix) ==> |s| >= 2 && s[|s| - 1] == suffix[|suffix| - 1] && s[|s| - 2] == suffix[|suffix| - 2]
  {
    if EndsWith(s, suffix) {
      var tail := s[|s| - |suffix|..];
      assert tail[|suffix| - 1] == s[|s| - 1] && tail[|suffix| - 2] == s[|s| - 2];
    }
  }

  lemma SuffixIsUnique(s: string, k: Suffix)
    requires EndsWith(s, Text(k))
    ensures SuffixOf(s) == Some(k)
  {
    EndOfSuffix(s, Text(0));
    EndOfSuffix(s, Text(1));
    EndOfSuffix(s, Text(2));
    EndOfSuffix(s, Text(3));
  }

  // ----- stripping undoes printing -----

  function Qualifiers(suffixes: seq<Suffix>): string {
    if suffixes == [] then "" else Qualifiers(suffixes[..|suffixes| - 1]) + Text(suffixes[|suffixes| - 1])
  }

  /** A name as it is printed with its signature. */
  function Rendered(base: string, parameters: string, suffixes: seq<Suffix>): string {
    base + "(" + parameters + ")" + Qualifiers(suffixes)
  }

  lemma {:induction false} StrippedRendered(text: string, suffixes: seq<Suffix>)
    requires SuffixOf(text).None?
    ensures Stripped(text + Qualifiers(suffixes)) == text
    decreases |suffixes|
  {
    if suffixes == [] {
      assert text + Qualifiers(suffixes) == text;
    } else {
      var k, rest := suffixes[|suffixes| - 1], suffixes[..|suffixes| - 1];
      var longer := text + Qualifiers(rest);
      var s := text + Qualifiers(suffixes);
      assert s == longer + Text(k);
      assert s[|s| - |Text(k)|..] == Text(k);
      SuffixIsUnique(s, k);
      assert Chopped(s, k) == longer;
      StrippedRendered(text, rest);
    }
  }

  lemma {:induction false} DepthOfSum(a: string, b: string)
    ensures Depth(a + b) == Depth(a) + Depth(b)
    decreases |b|
  {
    if b == "" {
      assert a + b == a;
    } else {
      var rest := b[..|b| - 1];
      assert (a + b)[..|a + b| - 1] == a + rest;
      DepthOfSum(a, rest);
    }
  }

  /** s from j on without its last character. */
  function Body(s: string, j: nat): string
    requires j < |s|
  {
    s[j..|s| - 1]
  }

  function Weight(c: char): int {
    if c == '(' then 1 else if c == ')' then -1 else 0
  }

  /** One more character on the left. */
  lemma DepthOfBody(s: string, i: nat)
    requires 0 < i < |s|
    ensures Depth(Body(s, i - 1)) == Weight(s[i - 1]) + Depth(Body(s, i))
  {
    var one := [s[i - 1]];
    assert Body(s, i - 1) == one + Body(s, i);
    DepthOfSum(one, Body(s, i));
    assert one[..0] == "";
  }

  /** Inside a balanced text, what is left of a point never closes more than it opens. */
  lemma BodyOfBalanced(s: string, from: nat, i: nat)
    requires from <= i < |s| && Balanced(Body(s, from))
    ensures Depth(Body(s, i)) <= 0
  {
    var middle := Body(s, from);
    assert middle == middle[..i - from] + Body(s, i);
    DepthOfSum(middle[..i - from], Body(s, i));
    assert Depth(middle[..i - from]) >= 0;
  }

  /** The scan through a balanced text comes out on the other side with the same depth. */
  lemma {:induction false} ScanThrough(s: string, from: nat, i: nat, depth: int)
    requires from <= i <= |s| - 1 && depth >= 1
    requires Balanced(Body(s, from))
    requires depth == 1 - Depth(Body(s, i))
    ensures OpenedAt(s, i, depth) == OpenedAt(s, from, 1)
    decreases i
  {
    if i != from {
      DepthOfBody(s, i);
      BodyOfBalanced(s, from, i - 1);
      ScanThrough(s, from, i - 1, 1 - Depth(Body(s, i - 1)));
    } else {
      assert Body(s, i) == Body(s, from);
    }
  }

  /** Stripping a printed name gives its base, whatever the base, the balanced parameters and the qualifiers. */
  lemma BareOfRendered(base: string, parameters: string, suffixes: seq<Suffix>)
    requires Balanced(parameters)
    ensures Bare(Rendered(base, parameters, suffixes)) == base
  {
    var text := base + "(" + parameters + ")";
    assert text[|text| - 1] == ')';
    NoSuffix(text);
    StrippedRendered(text, suffixes);
    assert Rendered(base, parameters, suffixes) == text + Qualifiers(suffixes);
    assert EndsWith(text, ")");
    var from := |base| + 1;
    assert Body(text, from) == parameters;
    assert Body(text, |text| - 1) == "";
    ScanThrough(text, from, |text| - 1, 1);
    assert text[|base|] == '(';
    assert OpenedAt(text, from, 1) == |base|;
    assert text[..|base|] == base;
  }

  lemma NoSuffix(s: string)
    requires s != "" && s[|s| - 1] == ')'
    ensures SuffixOf(s).None?
  {
    EndOfSuffix(s, Text(0));
    EndOfSuffix(s, Text(1));
    EndOfSuffix(s, Text(2));
    EndOfSuffix(s, Text(3));
  }

  // ----- and only printing is undone -----

  lemma {:induction false} StrippedQualifiers(name: string) returns (suffixes: seq<Suffix>)
    ensures name == Stripped(name) + Qualifiers(suffixes)
    decreases |name|
  {
    match SuffixOf(name)
    case None => suffixes := [];
    case Some(k) =>
      var shorter := Chopped(name, k);
      var rest := StrippedQualifiers(shorter);
      suffixes := rest + [k];
      assert suffixes[..|suffixes| - 1] == rest;
      assert Qualifiers(suffixes) == Qualifiers(rest) + Text(k);
      Associates(Stripped(name), Qualifiers(rest), Text(k));
  }

  lemma Associates(a: string, b: string, c: string)
    ensures (a + b) + c == a + (b + c)
  {
  }

  /** If the scan finds an opening, the text after it is balanced from the right. */
  lemma {:induction false} FoundIsBalanced(s: string, i: nat, depth: int)
    requires i <= |s| - 1 && depth >= 1
    requires depth == 1 - Depth(Body(s, i))
    requires forall j :: i <= j <= |s| - 1 ==> Depth(Body(s, j)) <= 0
    requires OpenedAt(s, i, depth) < |s|
    ensures var open := OpenedAt(s, i, depth);
            && open < i && s[open] == '(' && Depth(Body(s, open + 1)) == 0
            && forall j :: open < j <= |s| - 1 ==> Depth(Body(s, j)) <= 0
    decreases i
  {
    hide Depth, Body;
    if i > 0 {
      DepthOfBody(s, i);
      if s[i - 1] != '(' || depth != 1 {
        FoundIsBalanced(s, i - 1, 1 - Depth(Body(s, i - 1)));
      }
    }
  }

  lemma BalancedFromRight(p: string)
    requires Depth(p) == 0 && forall j :: 0 <= j <= |p| ==> Depth(p[j..]) <= 0
    ensures Balanced(p)
  {
    forall i | 0 <= i <= |p| ensures Depth(p[..i]) >= 0 {
      assert p == p[..i] + p[i..];
      DepthOfSum(p[..i], p[i..]);
    }
  }

  /**
   A name is changed only if it is the printed form of the answer: anything else, in particular a name
   without a closing parenthesis or with unbalanced ones, is returned as it is.
  */
  lemma ChangedOnlyIfRendered(name: string) returns (parameters: string, suffixes: seq<Suffix>)
    requires Bare(name) != name
    ensures Balanced(parameters)
    ensures name == Rendered(Bare(name), parameters, suffixes)
  {
    suffixes := StrippedQualifiers(name);
    parameters := ParametersFound(Stripped(name));
  }

  lemma ParametersFound(s: string) returns (parameters: string)
    requires EndsWith(s, ")")
    requires OpenedAt(s, |s|, 0) < |s|
    ensures Balanced(parameters)
    ensures s == s[..OpenedAt(s, |s|, 0)] + "(" + parameters + ")"
  {
    var last := |s| - 1;
    assert s[last..][0] == s[last] == ')';
    assert Body(s, last) == "";
    FoundIsBalanced(s, last, 1);
    var open := OpenedAt(s, last, 1);
    parameters := Body(s, open + 1);
    forall j | 0 <= j <= |parameters| ensures Depth(parameters[j..]) <= 0 {
      assert parameters[j..] == Body(s, open + 1 + j);
    }
    BalancedFromRight(parameters);
  }

  ghost predicate Printed(name: string) {
    exists base, parameters, suffixes :: Balanced(parameters) && name == Rendered(base, parameters, suffixes)
  }

  /** Both directions at once: exactly the printed names are stripped. */
  lemma ChangedIffPrinted(name: string)
    ensures Bare(name) != name <==> Printed(name)
  {
    if Bare(name) != name {
      var parameters, suffixes := ChangedOnlyIfRendered(name);
      assert Printed(name);
    }
    if Printed(name) {
      var base, parameters, suffixes :| Balanced(parameters) && name == Rendered(base, parameters, suffixes);
      BareOfRendered(base, parameters, suffixes);
      assert |base| < |name|;
    }
  }
}
