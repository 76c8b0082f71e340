/** What the walk reads from the forms of generator expressions it knows, for all plain parameters. */
module CMakeReferenceLaws {
  import opened Options
  import opened CMakeText
  import opened CMakeExpansion
  import opened CMakeWalk
  import opened CMakeExpressions
  import opened CMakeSoundness
  import opened CMakeEscapes
  import opened CMakeTextEscapes

  lemma InsideOf(inner: string)
    requires HasNone(inner, '$') && HasNone(inner, '>')
    ensures Inner(Wrapped(inner)) == Some(inner) && Contains(Wrapped(inner), "$<")
  {
    hide Nesting, Find;
    WrappedCharacters(inner);
    WrappedCloses(inner);
  }

  lemma PlainWord(word: string, context: string)
    requires IsPlain(word)
    ensures PlainReference(word, context) == Found({word}, [])
  {
    PlainHasNone(word);
  }

  /** $<TARGET_OBJECTS:<library>> */
  lemma ObjectsReadAs(library: string, context: string)
    requires IsPlain(library)
    ensures PlainReference("$<TARGET_OBJECTS:" + library + ">", context) == Found({library}, [])
    ensures library != "" ==> ObjectsOf("$<TARGET_OBJECTS:" + library + ">") == Some(library)
  {
    hide Nesting, Find, Contains;
    var inner := OBJECTS + library;
    var token := Wrapped(inner);
    ObjectsName(library);
    InsideOf(inner);
    assert inner[0..|OBJECTS|] == OBJECTS && inner[|OBJECTS|..] == library;
    assert "$<TARGET_OBJECTS:" + library + ">" == token;
    ObjectsCharacters();
    assert token[0..17] == "$<" + OBJECTS && token[17..|token| - 1] == library;
  }

  /** A choice whose parts are known. */
  lemma PartsReadAs(token: string, inner: string, condition: string, a: string, b: string, context: string)
    requires Contains(token, "$<") && Inner(token) == Some(inner) && inner[..] != "" && inner[0] == 'I' && StartsWith(inner, "IF:")
    requires Split(inner[3..], ',') == [condition, a, b]
    requires PlainReference(a, context) == Found({a}, []) && PlainReference(b, context) == Found({b}, [])
    ensures StartsWith(condition, "$<BOOL:") ==> PlainReference(token, context) == Found({a, b}, [])
    ensures !StartsWith(condition, "$<BOOL:") && PlainReference(condition, context) == Found({condition}, []) ==>
      PlainReference(token, context) == Found({condition, a, b}, [])
  {
    hide Find, Contains, Split, Nesting;
    assert OBJECTS[0] == 'T';
    MatchAt(inner, OBJECTS, 0, 0);
    PartsAreShort(inner[3..], ',');
    assert {} + {a} + {b} == {a, b} && {condition} + {a} + {b} == {condition, a, b};
  }

  /** $<IF:<condition>,<a>,<b>>: both choices, and a plain condition like a name. */
  lemma ChoiceReadAs(condition: string, a: string, b: string, context: string)
    requires IsParameter(condition) && IsParameter(a) && IsParameter(b)
    ensures PlainReference("$<IF:" + (condition + "," + a + "," + b) + ">", context) == Found({condition, a, b}, [])
  {
    hide Nesting, Find, Contains, Split, IsParameter, PlainReference;
    var choice, parameters := Choice(condition, a, b), condition + "," + a + "," + b;
    ChoiceMeans(condition, a, b, c => true);
    InsideOf(choice);
    assert choice[0..3] == "IF:" && choice[3..] == parameters;
    ParameterIsPlain(condition);
    ParameterIsPlain(a);
    ParameterIsPlain(b);
    SplitsInThree(condition, a, b);
    WordsRead(condition, a, b, context);
    assert "$<IF:" + parameters + ">" == Wrapped(choice);
    MatchAt(condition, "$<BOOL:", 0, 0);
    PartsReadAs(Wrapped(choice), choice, condition, a, b, context);
  }

  lemma ParameterIsPlain(s: string)
    requires IsParameter(s)
    ensures IsPlain(s) && HasNone(s, '$') && HasNone(s, ',') && HasNone(s, '>')
  {
  }

  lemma WordsRead(condition: string, a: string, b: string, context: string)
    requires IsParameter(condition) && IsParameter(a) && IsParameter(b)
    ensures PlainReference(condition, context) == Found({condition}, [])
    ensures PlainReference(a, context) == Found({a}, []) && PlainReference(b, context) == Found({b}, [])
  {
    PlainWord(condition, context);
    PlainWord(a, context);
    PlainWord(b, context);
  }

  /** Inside brackets nothing separates. */
  lemma {:induction false} BracketsHold(value: string, separator: char, start: nat, index: nat, k: nat)
    requires start <= index <= k <= |value| && forall n :: index <= n < k ==> value[n] !in {'$', '>'}
    ensures SplitFrom(value, separator, start, index, 1) == SplitFrom(value, separator, start, k, 1)
    decreases k - index
  {
    if index < k {
      MatchAt(value, "$<", index, 0);
      BracketsHold(value, separator, start, index + 1, k);
    }
  }

  lemma SplitsBehindBrackets(value: string, close: nat, comma: nat)
    requires IsAt(value, "$<", 0) && 2 <= close && close + 1 < comma < |value|
    requires value[close] == '>' && value[close + 1] == ',' && value[comma] == ','
    requires forall n :: 2 <= n < |value| && n != close && n != close + 1 && n != comma ==> value[n] !in {'$', '>', ','}
    ensures Split(value, ',') == [value[0..close + 1], value[close + 2..comma], value[comma + 1..]]
  {
    hide SplitFrom;
    FirstBracket(value);
    BracketsHold(value, ',', 0, 2, close);
    LastBracket(value, close);
    NextPiece(value, ',', 0, close + 1, close + 1);
    NextPiece(value, ',', close + 2, close + 2, comma);
    LastPiece(value, ',', comma + 1, comma + 1);
  }

  lemma FirstBracket(value: string)
    requires IsAt(value, "$<", 0)
    ensures SplitFrom(value, ',', 0, 0, 0) == SplitFrom(value, ',', 0, 2, 1)
  {
    assert |value| >= 2;
  }

  lemma LastBracket(value: string, close: nat)
    requires close < |value| && value[close] == '>'
    ensures SplitFrom(value, ',', 0, close, 1) == SplitFrom(value, ',', 0, close + 1, 0)
  {
    MatchAt(value, "$<", close, 0);
  }

  /** The characters of $<BOOL:<x>>,<a>,<b>. */
  lemma BoolCharacters(x: string, a: string, b: string)
    requires IsParameter(x) && IsParameter(a) && IsParameter(b)
    ensures var head, value := Wrapped("BOOL:" + x), Wrapped("BOOL:" + x) + ("," + (a + ("," + b)));
            var close, comma := |x| + 7, |x| + 9 + |a|;
            && |value| == comma + 1 + |b| && IsAt(value, "$<", 0) && value[close] == '>' && value[close + 1] == ',' && value[comma] == ','
            && (forall n :: 2 <= n < |value| && n != close && n != close + 1 && n != comma ==> value[n] !in {'$', '>', ','})
            && value[0..close + 1] == head && value[close + 2..comma] == a && value[comma + 1..] == b
  {
    hide Find, Contains;
    var inner := "BOOL:" + x;
    var head, value := Wrapped(inner), Wrapped(inner) + ("," + (a + ("," + b)));
    var close, comma := |x| + 7, |x| + 9 + |a|;
    WrappedCharacters(inner);
    assert value[0..2] == head[0..2];
    forall n | 2 <= n < |value| && n != close && n != close + 1 && n != comma ensures value[n] !in {'$', '>', ','} {
      var character := if n < close then inner[n - 2] else if n < comma then a[n - close - 2] else b[n - comma - 1];
      assert value[n] == character;
    }
  }

  /** $<IF:$<BOOL:<x>>,<a>,<b>>: both choices; the condition names nothing. */
  lemma BoolChoiceReadAs(x: string, a: string, b: string, context: string)
    requires IsParameter(x) && IsParameter(a) && IsParameter(b)
    ensures PlainReference(Wrapped("IF:" + (Wrapped("BOOL:" + x) + ("," + (a + ("," + b))))), context) == Found({a, b}, [])
  {
    hide Nesting, Find, Contains, Split, IsParameter, Wrapped, PlainReference;
    var head, value := Wrapped("BOOL:" + x), Wrapped("BOOL:" + x) + ("," + (a + ("," + b)));
    var inner := "IF:" + value;
    BoolCharacters(x, a, b);
    SplitsBehindBrackets(value, |x| + 7, |x| + 9 + |a|);
    BoolInside(x, a, b);
    assert inner[0..3] == "IF:" && inner[3..] == value;
    WordsRead(x, a, b, context);
    BoolStarts(x);
    PartsReadAs(Wrapped(inner), inner, head, a, b, context);
  }

  lemma BoolStarts(x: string)
    ensures StartsWith(Wrapped("BOOL:" + x), "$<BOOL:")
  {
    assert Wrapped("BOOL:" + x)[0..7] == "$<BOOL:";
  }

  lemma BoolInside(x: string, a: string, b: string)
    requires IsParameter(x) && IsParameter(a) && IsParameter(b)
    ensures var inner := "IF:" + (Wrapped("BOOL:" + x) + ("," + (a + ("," + b))));
            Inner(Wrapped(inner)) == Some(inner) && Contains(Wrapped(inner), "$<")
  {
    hide Find, Contains, IsParameter, Nesting, Wrapped;
    var value := Wrapped("BOOL:" + x) + ("," + (a + ("," + b)));
    var inner := "IF:" + value;
    var s, open, close := Wrapped(inner), 5, |x| + 12;
    BoolCharacters(x, a, b);
    WrappedCharacters(inner);
    assert forall k :: 3 <= k < |inner| ==> inner[k] == value[k - 3];
    assert forall k :: 5 <= k < |s| - 1 ==> s[k] == value[k - 5];
    assert s[open..open + 2] == value[0..2];
    forall k | open + 2 <= k < |s| - 1 && k != close ensures s[k] !in {'$', '>'} {
      assert s[k] == value[k - 5];
    }
    assert s[2] == 'I' && s[3] == 'F' && s[4] == ':';
    OpenStep(s, 0, 0);
    NestingAfter(s, 2, open);
    OpenStep(s, open, 0);
    NestingAfter(s, open + 2, close);
    CloseStep(s, close);
    NestingAfter(s, close + 1, |s| - 1);
    CloseStep(s, |s| - 1);
    NothingNests(s);
  }
}
