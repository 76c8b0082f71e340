/** The generated C++ literals that carry the SQL seed text. */
module LiteralPrinter {
  import opened Options

  const WIDTH: nat := 72

  /** The longest run of backslashes that fits in a chunk, before escaping. */
  const RUN: nat := WIDTH / 2

  // ----- escaping -----

  /** Every occurrence of one character replaced, as `str.replace` does. */
  function Replaced(s: string, c: char, text: string): string {
    if s == "" then "" else (if s[0] == c then text else [s[0]]) + Replaced(s[1..], c, text)
  }

  function Escape(c: char): (unit: string)
    ensures 1 <= |unit| <= 2
  {
    if c == '\\' then "\\\\" else if c == '"' then "\\\"" else if c == '\n' then "\\n" else [c]
  }

  function EscapeAll(s: string): (r: string)
    ensures |s| <= |r| <= 2 * |s|
  {
    if s == "" then "" else Escape(s[0]) + EscapeAll(s[1..])
  }

  function ThreeReplaces(s: string): string {
    Replaced(Replaced(Replaced(s, '\\', "\\\\"), '"', "\\\""), '\n', "\\n")
  }

  // ----- what a C++ compiler reads back: section 5.13.3 [lex.ccon] of ISO C++20 -----

  /** The simple escape sequences. */
  function Simple(c: char): Option<char> {
    if c == '\\' || c == '"' || c == '\'' || c == '?' then Some(c)
    else if c == 'n' then Some('\n')
    else if c == 't' then Some('\t')
    else if c == 'r' then Some('\r')
    else if c == 'a' then Some(7 as char)
    else if c == 'b' then Some(8 as char)
    else if c == 'v' then Some(11 as char)
    else if c == 'f' then Some(12 as char)
    else None
  }

  function Prepend(c: Option<char>, rest: Option<string>): Option<string> {
    if c.Some? && rest.Some? then Some([c.value] + rest.value) else None
  }

  /** The text between the quotes of one literal; None when a quote or a line end would break it. */
  function Decode(s: string): Option<string> {
    if s == "" then Some("")
    else if s[0] == '"' || s[0] == '\n' then None
    else if s[0] != '\\' then Prepend(Some(s[0]), Decode(s[1..]))
    else if |s| == 1 then None
    else Prepend(Simple(s[1]), Decode(s[2..]))
  }

  /** Adjacent literals are decoded one by one, then joined. */
  function DecodeAll(chunks: seq<string>): Option<string> {
    if chunks == [] then Some("")
    else
      var front, last := DecodeAll(chunks[..|chunks| - 1]), Decode(chunks[|chunks| - 1]);
      if front.Some? && last.Some? then Some(front.value + last.value) else None
  }

  predicate Backslashes(s: string) {
    forall k :: 0 <= k < |s| ==> s[k] == '\\'
  }

  /** More than 36 characters are left at i, and 36 of them, a chunk of 72 when escaped, are backslashes. */
  predicate Stuck(sql: string, i: nat) {
    i + 36 < |sql| && Backslashes(sql[i..i + 36])
  }

  ghost predicate Printable(sql: string) {
    forall i: nat :: !Stuck(sql, i)
  }

  /** No chunk is empty, too long or ends inside an escape. */
  ghost predicate EachFits(chunks: seq<string>) {
    forall k :: 0 <= k < |chunks| ==> 1 <= |chunks[k]| <= 72 && Decode(chunks[k]).Some?
  }

  // ----- the printer -----

  /**
   The chunks between the quotes. None stands for the point from which the loop of the source never
   returns: the trimmed chunk is empty, so the remaining text no longer shrinks.
  */
  method PrintLiteral(sql: string) returns (r: Option<seq<string>>)
    ensures r.Some? <==> Printable(sql)
    ensures r.Some? ==> DecodeAll(r.value) == Some(sql)
    ensures r.Some? ==> EachFits(r.value)
  {
    var escaped := ThreeReplaces(sql);
    ThreeReplacesAreOne(sql);
    var chunks: seq<string> := [];
    ghost var pos := 0;
    assert sql[0..] == sql && sql[..0] == "";
    while escaped != ""
      invariant Progress(sql, chunks, pos)
      invariant escaped == EscapeAll(sql[pos..])
      decreases |escaped|
    {
      var chunk := FirstChunk(escaped);
      if chunk == "" {
        StuckIfEmpty(sql[pos..]);
        StuckFrom(sql, pos, 0);
        return None;
      }
      pos := NextChunk(sql, chunks, pos, chunk);
      chunks := chunks + [chunk];
      escaped := escaped[|chunk|..];
    }
    assert sql[..pos] == sql;
    return Some(chunks);
  }

  /** The chunks carry sql[..pos], and nothing before pos stops the printer. */
  ghost predicate Progress(sql: string, chunks: seq<string>, pos: nat) {
    pos <= |sql| && DecodeAll(chunks) == Some(sql[..pos]) && EachFits(chunks) && FreeBefore(sql, pos)
  }

  ghost predicate FreeBefore(sql: string, pos: nat) {
    forall i: nat :: i < pos ==> !Stuck(sql, i)
  }

  lemma NextChunk(sql: string, chunks: seq<string>, pos: nat, chunk: string) returns (next: nat)
    requires Progress(sql, chunks, pos)
    requires chunk != "" && IsFirstChunk(EscapeAll(sql[pos..]), |chunk|) && chunk == EscapeAll(sql[pos..])[..|chunk|]
    ensures pos < next && Progress(sql, chunks + [chunk], next)
    ensures EscapeAll(sql[pos..])[|chunk|..] == EscapeAll(sql[next..])
  {
    hide Decode, EscapeAll, IsFirstChunk, Progress;
    ProgressBound(sql, chunks, pos);
    var rest := sql[pos..];
    FirstChunkFits(EscapeAll(rest), |chunk|);
    var m := ChunkDecodes(rest, chunk);
    next := pos + m;
    ChunkFollows(sql, chunks, pos, chunk, m);
    assert rest[m..] == sql[next..];
  }

  lemma FirstChunkFits(escaped: string, n: nat)
    requires IsFirstChunk(escaped, n)
    ensures n <= WIDTH && n <= |escaped|
  {
  }

  lemma ProgressBound(sql: string, chunks: seq<string>, pos: nat)
    requires Progress(sql, chunks, pos)
    ensures pos <= |sql|
  {
  }

  lemma ChunkFollows(sql: string, chunks: seq<string>, pos: nat, chunk: string, m: nat)
    requires Progress(sql, chunks, pos) && pos + m <= |sql| && 1 <= |chunk| <= WIDTH
    requires IsFirstChunk(EscapeAll(sql[pos..]), |chunk|) && |chunk| == |EscapeAll(sql[pos..][..m])|
    requires Decode(chunk) == Some(sql[pos..][..m])
    ensures Progress(sql, chunks + [chunk], pos + m) && sql[pos..][m..] == sql[pos + m..]
  {
    hide Decode, DecodeAll, EscapeAll, Stuck, IsFirstChunk, FreeBefore, EachFits;
    Advance(sql, pos, m);
    StillFree(sql, pos, |chunk|, m);
    DecodeOneMore(chunks, chunk, sql[..pos], sql[pos..][..m]);
  }

  lemma ChunkDecodes(rest: string, chunk: string) returns (m: nat)
    requires chunk != "" && IsFirstChunk(EscapeAll(rest), |chunk|) && chunk == EscapeAll(rest)[..|chunk|]
    ensures 0 < m <= |rest|
    ensures Decode(chunk) == Some(rest[..m]) && |chunk| == |EscapeAll(rest[..m])|
    ensures EscapeAll(rest)[|chunk|..] == EscapeAll(rest[m..])
  {
    m := Boundary(rest, |chunk|);
    DecodeEscaped(rest[..m]);
  }

  lemma StillFree(sql: string, pos: nat, n: nat, m: nat)
    requires FreeBefore(sql, pos) && pos + m <= |sql|
    requires IsFirstChunk(EscapeAll(sql[pos..]), n) && n == |EscapeAll(sql[pos..][..m])|
    ensures FreeBefore(sql, pos + m)
  {
    forall i: nat | pos <= i < pos + m ensures !Stuck(sql, i) {
      NotStuckInside(sql[pos..], n, m, i - pos);
      StuckFrom(sql, pos, i - pos);
    }
  }

  lemma DecodeOneMore(chunks: seq<string>, chunk: string, before: string, text: string)
    requires DecodeAll(chunks) == Some(before) && Decode(chunk) == Some(text)
    requires EachFits(chunks) && 1 <= |chunk| <= WIDTH
    ensures DecodeAll(chunks + [chunk]) == Some(before + text)
    ensures EachFits(chunks + [chunk])
  {
    var longer := chunks + [chunk];
    assert longer[..|longer| - 1] == chunks;
  }

  lemma Advance(sql: string, pos: nat, m: nat)
    requires pos + m <= |sql|
    ensures sql[..pos] + sql[pos..][..m] == sql[..pos + m] && sql[pos..][m..] == sql[pos + m..]
  {
  }

  /** The first chunk, without a backslash at its end unless it is the last one. */
  predicate IsFirstChunk(escaped: string, n: nat) {
    && n <= |escaped| && n <= WIDTH
    && (|escaped| <= WIDTH ==> n == |escaped|)
    && (|escaped| > WIDTH ==> (n > 0 ==> escaped[n - 1] != '\\') && Backslashes(escaped[n..WIDTH]))
  }

  method FirstChunk(escaped: string) returns (chunk: string)
    ensures IsFirstChunk(escaped, |chunk|) && chunk == escaped[..|chunk|]
  {
    if |escaped| <= WIDTH {
      return escaped;
    }
    chunk := escaped[..WIDTH];
    while chunk != "" && chunk[|chunk| - 1] == '\\'
      invariant |chunk| <= WIDTH && chunk == escaped[..|chunk|]
      invariant Backslashes(escaped[|chunk|..WIDTH])
      decreases |chunk|
    {
      chunk := chunk[..|chunk| - 1];
    }
  }

  // ----- the three replaces are one pass over the characters -----

  lemma {:induction false} ReplacedOfSum(a: string, b: string, c: char, text: string)
    ensures Replaced(a + b, c, text) == Replaced(a, c, text) + Replaced(b, c, text)
  {
    if a == "" {
      assert a + b == b;
    } else {
      assert (a + b)[1..] == a[1..] + b;
      ReplacedOfSum(a[1..], b, c, text);
    }
  }

  lemma ReplacedPair(x: char, y: char, c: char, text: string)
    ensures Replaced([x], c, text) == if x == c then text else [x]
    ensures x != c && y != c ==> Replaced([x, y], c, text) == [x, y]
  {
    assert [x][1..] == "" && [x, y][1..] == [y] && [y][1..] == "";
  }

  lemma ThreeReplacesOfOne(c: char)
    ensures ThreeReplaces([c]) == Escape(c)
  {
    ReplacedPair(c, c, '\\', "\\\\");
    ReplacedPair(c, c, '"', "\\\"");
    ReplacedPair(c, c, '\n', "\\n");
    ReplacedPair('\\', '\\', '"', "\\\"");
    ReplacedPair('\\', '\\', '\n', "\\n");
    ReplacedPair('\\', '"', '\n', "\\n");
  }

  /** No replace touches what an earlier one put in, so their order and number do not show. */
  lemma {:induction false} ThreeReplacesAreOne(s: string)
    ensures ThreeReplaces(s) == EscapeAll(s)
  {
    if s != "" {
      var one, rest := [s[0]], s[1..];
      assert s == one + rest;
      ReplacedOfSum(one, rest, '\\', "\\\\");
      var one1, rest1 := Replaced(one, '\\', "\\\\"), Replaced(rest, '\\', "\\\\");
      ReplacedOfSum(one1, rest1, '"', "\\\"");
      var one2, rest2 := Replaced(one1, '"', "\\\""), Replaced(rest1, '"', "\\\"");
      ReplacedOfSum(one2, rest2, '\n', "\\n");
      ThreeReplacesOfOne(s[0]);
      ThreeReplacesAreOne(rest);
    }
  }

  // ----- escaped text -----

  lemma {:induction false} EscapeOfSum(a: string, b: string)
    ensures EscapeAll(a + b) == EscapeAll(a) + EscapeAll(b)
  {
    if a == "" {
      assert a + b == b;
    } else {
      assert (a + b)[1..] == a[1..] + b;
      EscapeOfSum(a[1..], b);
    }
  }

  lemma {:induction false} DecodeEscaped(s: string)
    ensures Decode(EscapeAll(s)) == Some(s)
  {
    if s != "" {
      var unit, rest := Escape(s[0]), EscapeAll(s[1..]);
      assert (unit + rest)[|unit|..] == rest;
      DecodeEscaped(s[1..]);
      assert s == [s[0]] + s[1..];
    }
  }

  /** A cut at the end, or behind a character that is no backslash, splits no escape. */
  lemma {:induction false} Boundary(s: string, n: nat) returns (m: nat)
    requires 0 < n <= |EscapeAll(s)|
    requires n == |EscapeAll(s)| || EscapeAll(s)[n - 1] != '\\'
    ensures 0 < m <= |s|
    ensures EscapeAll(s)[..n] == EscapeAll(s[..m]) && EscapeAll(s)[n..] == EscapeAll(s[m..])
  {
    var unit, rest := Escape(s[0]), EscapeAll(s[1..]);
    if n <= |unit| {
      m := 1;
      assert s[..1] == [s[0]] && s[..1][1..] == "";
    } else {
      assert EscapeAll(s)[n - 1] == rest[n - |unit| - 1];
      var k := Boundary(s[1..], n - |unit|);
      m := k + 1;
      Shifted(s, k);
      Cut(unit, rest, n);
    }
  }

  lemma Shifted(s: string, k: nat)
    requires k < |s|
    ensures s[..k + 1] == [s[0]] + s[1..][..k] && s[..k + 1][1..] == s[1..][..k] && s[k + 1..] == s[1..][k..]
  {
  }

  lemma Cut(a: string, b: string, n: nat)
    requires |a| <= n <= |a| + |b|
    ensures (a + b)[..n] == a + b[..n - |a|] && (a + b)[n..] == b[n - |a|..]
  {
  }

  lemma {:induction false} EscapedBackslashes(s: string)
    requires Backslashes(s)
    ensures |EscapeAll(s)| == 2 * |s| && Backslashes(EscapeAll(s))
  {
    if s != "" {
      EscapedBackslashes(s[1..]);
    }
  }

  lemma {:induction false} BackslashesEscaped(s: string, k: nat)
    requires 2 * k <= |EscapeAll(s)| && Backslashes(EscapeAll(s)[..2 * k])
    ensures k <= |s| && Backslashes(s[..k])
    decreases k
  {
    if k > 0 {
      var unit, rest := Escape(s[0]), EscapeAll(s[1..]);
      var whole := EscapeAll(s)[..2 * k];
      assert whole[0] == '\\' && whole[1] == '\\';
      assert s[0] == '\\';
      assert rest[..2 * (k - 1)] == whole[2..];
      BackslashesEscaped(s[1..], k - 1);
      assert s[..k] == [s[0]] + s[1..][..k - 1];
    }
  }

  // ----- where the printer gets stuck -----

  lemma StuckFrom(sql: string, pos: nat, i: nat)
    requires pos <= |sql|
    ensures Stuck(sql, pos + i) <==> Stuck(sql[pos..], i)
  {
    if pos + i + RUN < |sql| {
      assert sql[pos..][i..i + RUN] == sql[pos + i..pos + i + RUN];
    }
  }

  lemma StuckIfEmpty(rest: string)
    requires rest != "" && IsFirstChunk(EscapeAll(rest), 0)
    ensures Stuck(rest, 0)
  {
    assert EscapeAll(rest)[..2 * RUN] == EscapeAll(rest)[0..WIDTH];
    BackslashesEscaped(rest, RUN);
    assert rest[0..0 + RUN] == rest[..RUN];
  }

  /** A chunk never runs past a place where the printer would get stuck. */
  lemma NotStuckInside(rest: string, n: nat, m: nat, i: nat)
    requires IsFirstChunk(EscapeAll(rest), n)
    requires i < m <= |rest| && n == |EscapeAll(rest[..m])|
    ensures !Stuck(rest, i)
  {
    if Stuck(rest, i) {
      var start := RunEscaped(rest, i);
      PrefixIsShorter(rest, i, m);
      LastInRun(EscapeAll(rest), start, n);
    }
  }

  lemma PrefixIsShorter(rest: string, i: nat, m: nat)
    requires i < m <= |rest|
    ensures |EscapeAll(rest[..i])| < |EscapeAll(rest[..m])|
  {
    EscapeOfSum(rest[..i], rest[i..m]);
    assert rest[..m] == rest[..i] + rest[i..m];
  }

  lemma LastInRun(escaped: string, start: nat, n: nat)
    requires start < n <= WIDTH && start + WIDTH < |escaped|
    requires Backslashes(escaped[start..start + WIDTH])
    ensures escaped[n - 1] == '\\'
  {
    assert escaped[n - 1] == escaped[start..start + WIDTH][n - 1 - start];
  }

  lemma RunEscaped(rest: string, i: nat) returns (start: nat)
    requires Stuck(rest, i)
    ensures start == |EscapeAll(rest[..i])| && start + WIDTH < |EscapeAll(rest)|
    ensures Backslashes(EscapeAll(rest)[start..start + WIDTH])
  {
    hide EscapeAll;
    var before, run, after := rest[..i], rest[i..i + RUN], rest[i + RUN..];
    start := |EscapeAll(before)|;
    EscapeOfThree(before, run, after);
    EscapedBackslashes(run);
    assert rest == before + run + after;
  }

  lemma EscapeOfThree(a: string, b: string, c: string)
    ensures var s := EscapeAll(a + b + c);
            && |s| == |EscapeAll(a)| + |EscapeAll(b)| + |EscapeAll(c)|
            && s[|EscapeAll(a)|..|EscapeAll(a)| + |EscapeAll(b)|] == EscapeAll(b)
  {
    EscapeOfSum(a, b);
    EscapeOfSum(a + b, c);
    Middle(EscapeAll(a), EscapeAll(b), EscapeAll(c));
  }

  lemma Middle(a: string, b: string, c: string)
    ensures (a + b + c)[|a|..|a| + |b|] == b
  {
  }
}
