/**
 What the text of an evaluated argument means when the build files are generated: its generator expressions are
 evaluated, nested and adjacent ones too, and what is left is split at semicolons.
*/
module CMakeExpressions {
  import opened Options
  import opened CMakeText
  import opened CMakeExpansion
  import opened CMakeWalk

  /** The truth of generator-expression conditions, by their text. */
  type GenexTruth = string -> bool

  /** A text, and the libraries whose objects it stands for besides. */
  datatype Meaning = Meaning(text: string, objects: set<string>)

  /** The bracket that closes the expression whose inside starts at i, with `depth` expressions open. */
  function CloseFrom(s: string, i: nat, depth: nat): (r: Option<nat>)
    requires i <= |s|
    ensures r.Some? ==> i <= r.value < |s| && s[r.value] == '>'
    decreases |s| - i
  {
    if i == |s| then None
    else if IsAt(s, "$<", i) then CloseFrom(s, i + 2, depth + 1)
    else if s[i] == '>' then if depth <= 1 then Some(i) else CloseFrom(s, i + 1, depth - 1)
    else CloseFrom(s, i + 1, depth)
  }

  /** The first expression is evaluated in its place, then the rest of the text. */
  function Value(s: string, truth: GenexTruth): Meaning
    decreases |s|, 0
  {
    match Find(s, "$<", 0)
    case None => Meaning(s, {})
    case Some(i) =>
      match CloseFrom(s, i + 2, 1)
      case None => Meaning(s, {})
      case Some(j) =>
        var first, rest := Expression(s[i + 2..j], truth), Value(s[j + 1..], truth);
        Meaning(s[..i] + first.text + rest.text, first.objects + rest.objects)
  }

  /** The inside of one expression; its parameters are evaluated before it is. */
  function Expression(inner: string, truth: GenexTruth): Meaning
    decreases |inner|, 1
  {
    if StartsWith(inner, OBJECTS) then
      var library := Value(inner[|OBJECTS|..], truth);
      Meaning("", {library.text} + library.objects)
    else if StartsWith(inner, "IF:") then
      var parts := Split(inner[3..], ',');
      PartsAreShort(inner[3..], ',');
      if |parts| != 3 then Meaning("", {}) else Value(if truth(parts[0]) then parts[1] else parts[2], truth)
    else
      var parts := Split(inner, ':');
      if |parts| > 1 && truth(parts[0]) then
        HeadIsShort(inner, ':');
        Value(inner[|parts[0]| + 1..], truth)
      else Meaning("", {})
  }

  lemma HeadIsShort(value: string, separator: char)
    requires |Split(value, separator)| > 1
    ensures var head := Split(value, separator)[0];
            |head| < |value| && value == head + [separator] + value[|head| + 1..]
    ensures var parts := Split(value, separator); |parts| == 2 ==> value[|parts[0]| + 1..] == parts[1]
  {
    var parts := Split(value, separator);
    SplitKeepsText(value, separator);
    var rest := Joined(parts[1..], separator);
    assert value == parts[0] + [separator] + rest;
    assert value[|parts[0]| + 1..] == rest;
  }

  function NonEmpty(parts: seq<string>): seq<string> {
    if parts == [] then []
    else if parts[0] == "" then NonEmpty(parts[1..])
    else [parts[0]] + NonEmpty(parts[1..])
  }

  /** The list items of a text; a semicolon inside an expression does not separate. */
  function ItemsOf(text: string): seq<string> {
    NonEmpty(Split(text, ';'))
  }

  /** Every target name a text refers to. */
  function ActualReference(text: string, truth: GenexTruth): set<string> {
    var meaning := Value(text, truth);
    meaning.objects + Elements(ItemsOf(meaning.text))
  }

  /** Each reference to an external variable is replaced by its value. */
  function InstantiatedFrom(text: string, i: nat, outer: string -> string): string
    requires i <= |text|
    decreases |text| - i
  {
    if i == |text| then ""
    else
      match ReferenceEnd(text, i)
      case Some(e) => outer(text[i + 2..e - 1]) + InstantiatedFrom(text, e, outer)
      case None => [text[i]] + InstantiatedFrom(text, i + 1, outer)
  }

  function Instantiated(text: string, outer: string -> string): string {
    InstantiatedFrom(text, 0, outer)
  }

  // ----- texts that the walk reads as they are meant -----

  /**
   One item, with no reference inside the name of another.  References to the environment and to the cache are given
   no meaning here.
  */
  predicate IsClean(text: string) {
    && text != "" && HasNone(text, ';')
    && !Contains(text, "$ENV{") && !Contains(text, "$CACHE{")
    && (forall i :: 0 <= i < |text| && IsAt(text, "${", i) ==> ReferenceEnd(text, i).Some?)
  }

  /** No expression, or one that spans the text, with none inside the name of a library; so for the parts it may stand for. */
  predicate IsShaped(text: string)
    decreases |text|
  {
    || !Contains(text, "$<")
    || (IsAt(text, "$<", 0) && CloseFrom(text, 2, 1) == Some(|text| - 1) &&
        var inner := text[2..|text| - 1];
        if StartsWith(inner, OBJECTS) then !Contains(inner[|OBJECTS|..], "$<")
        else if StartsWith(inner, "IF:") then
          var parts := Split(inner[3..], ',');
          PartsAreShort(inner[3..], ',');
          |parts| == 3 ==> IsShaped(parts[1]) && IsShaped(parts[2])
        else
          var parts := Split(inner, ':');
          PartsAreShort(inner, ':');
          |parts| == 2 ==> IsShaped(parts[1]))
  }

  predicate HasNone(s: string, c: char) {
    forall k :: 0 <= k < |s| ==> s[k] != c
  }

  lemma {:induction false} OnePiece(value: string, separator: char, index: nat, depth: nat)
    requires index <= |value| && HasNone(value, separator)
    ensures SplitFrom(value, separator, 0, index, depth) == [value]
    decreases |value| - index
  {
    if index == |value| {
      assert value[0..] == value;
    } else if IsAt(value, "$<", index) {
      OnePiece(value, separator, index + 2, depth + 1);
    } else if value[index] == '>' && depth > 0 {
      OnePiece(value, separator, index + 1, depth - 1);
    } else {
      OnePiece(value, separator, index + 1, depth);
    }
  }

  lemma OneItem(text: string)
    requires HasNone(text, ';')
    ensures ItemsOf(text) == if text == "" then [] else [text]
  {
    OnePiece(text, ';', 0, 0);
    assert [text][1..] == [] && NonEmpty([]) == [];
    assert NonEmpty([text]) == if text == "" then [] else [text];
  }

  lemma PieceHasNone(value: string, separator: char, c: char, k: nat)
    requires HasNone(value, c) && k < |Split(value, separator)|
    ensures HasNone(Split(value, separator)[k], c)
  {
    PartsAreStretches(value, separator, 0, 0, 0, k);
    var part := Split(value, separator)[k];
    var a: nat, b: nat :| a <= b <= |value| && part == value[a..b];
    forall i | 0 <= i < |part| ensures part[i] != c {
      assert part[i] == value[a + i];
    }
  }

  lemma NoExpression(text: string, truth: GenexTruth)
    requires !Contains(text, "$<")
    ensures Value(text, truth) == Meaning(text, {})
  {
  }

  lemma FirstExpression(s: string, i: nat, j: nat, truth: GenexTruth)
    requires i <= |s| && Find(s, "$<", 0) == Some(i) && CloseFrom(s, i + 2, 1) == Some(j)
    ensures var first, rest := Expression(s[i + 2..j], truth), Value(s[j + 1..], truth);
            Value(s, truth) == Meaning(s[..i] + first.text + rest.text, first.objects + rest.objects)
  {
    hide Expression, CloseFrom, Find;
  }

  /** A text that is one expression means what the expression means. */
  lemma OneExpression(text: string, truth: GenexTruth)
    requires IsAt(text, "$<", 0) && CloseFrom(text, 2, 1) == Some(|text| - 1)
    ensures |text| >= 3 && Value(text, truth) == Expression(text[2..|text| - 1], truth)
  {
    hide Expression, CloseFrom, Value;
    var meaning := Expression(text[2..|text| - 1], truth);
    assert Find(text, "$<", 0) == Some(0);
    FirstExpression(text, 0, |text| - 1, truth);
    assert text[|text| - 1 + 1..] == "" && text[..0] == "";
    NothingMeans(truth);
    AddsNothing(meaning);
  }

  lemma AddsNothing(meaning: Meaning)
    ensures Meaning("" + meaning.text + "", meaning.objects + {}) == meaning
  {
    assert "" + meaning.text + "" == meaning.text;
  }

  lemma NothingMeans(truth: GenexTruth)
    ensures Value("", truth) == Meaning("", {}) && ItemsOf("") == []
  {
    NoExpression("", truth);
    OneItem("");
  }

  lemma NoNames()
    ensures Elements([]) == {}
  {
  }

  /** What a shaped text refers to is among the names that the walk reads from it without an error. */
  lemma {:induction false} PlainReferenceCovers(token: string, context: string, truth: GenexTruth)
    requires PlainReference(token, context).errors == []
    requires IsShaped(token) && HasNone(token, ';')
    ensures ActualReference(token, truth) <= PlainReference(token, context).names
    decreases |token|
  {
    hide CloseFrom, ItemsOf, Split;
    if !Contains(token, "$<") {
      NoExpression(token, truth);
      OneItem(token);
    } else {
      OneExpression(token, truth);
      var inner := token[2..|token| - 1];
      assert Inner(token) == Some(inner);
      if StartsWith(inner, OBJECTS) {
        NoExpression(inner[|OBJECTS|..], truth);
        NothingMeans(truth);
      } else if StartsWith(inner, "IF:") {
        var parts := Split(inner[3..], ',');
        PartsAreShort(inner[3..], ',');
        assert HasNone(inner[3..], ';');
        forall k: nat | k < |parts| ensures HasNone(parts[k], ';') {
          PieceHasNone(inner[3..], ',', ';', k);
        }
        PlainReferenceCovers(parts[1], context, truth);
        PlainReferenceCovers(parts[2], context, truth);
      } else {
        var parts := Split(inner, ':');
        PartsAreShort(inner, ':');
        HeadIsShort(inner, ':');
        assert HasNone(inner, ';');
        PieceHasNone(inner, ':', ';', 1);
        PlainReferenceCovers(parts[1], context, truth);
        NothingMeans(truth);
      }
    }
  }
}
