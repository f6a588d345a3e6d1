/** The placeholders of a launcher script, found the way `re.findall` finds them: scanning
    left to right, taking the longest match at each position and resuming after it.
    `$run.<letters>`: the character after `$run` is any character but a newline, then one
    or more ASCII letters. `$sample.<path>`: one or more of `.`, `[`, `]`, `_`, letters and
    digits. */
module Tokens {
  import opened Strings

  datatype TokenKind = RunField | SamplePath

  /** The characters the repeated class of a token's pattern accepts. */
  predicate InClass(kind: TokenKind, c: char)
  {
    match kind
    case RunField => IsAsciiLetter(c)
    case SamplePath => c == '.' || c == '[' || c == ']' || c == '_' || IsAsciiLetter(c) || IsAsciiDigit(c)
  }

  /** The length of the fixed part of a token: `$run` and one character, or `$sample.`. */
  function Lead(kind: TokenKind): nat
  {
    match kind
    case RunField => 5
    case SamplePath => 8
  }

  /** The fixed part of a token's pattern matches at position `i`. */
  predicate LeadAt(kind: TokenKind, s: string, i: nat)
  {
    && i + Lead(kind) <= |s|
    && match kind
       case RunField => s[i..i + 4] == "$run" && s[i + 4] != '\n'
       case SamplePath => s[i..i + 8] == "$sample."
  }

  /** How many characters of the class follow position `i`: the greedy repetition. */
  function ClassRun(kind: TokenKind, s: string, i: nat): (n: nat)
    requires i <= |s|
    ensures i + n <= |s|
    ensures forall j :: i <= j < i + n ==> InClass(kind, s[j])
    ensures i + n == |s| || !InClass(kind, s[i + n])
    decreases |s| - i
  {
    if i == |s| || !InClass(kind, s[i]) then 0 else 1 + ClassRun(kind, s, i + 1)
  }

  /** The length of the match at position `i`, or 0 when the pattern does not match there. */
  function MatchLength(kind: TokenKind, s: string, i: nat): (n: nat)
    requires i <= |s|
    ensures n > 0 ==> i + n <= |s| && IsToken(kind, s[i..i + n])
  {
    if LeadAt(kind, s, i) && ClassRun(kind, s, i + Lead(kind)) >= 1
    then
      var n := Lead(kind) + ClassRun(kind, s, i + Lead(kind));
      assert s[i..i + n][..Lead(kind)] == s[i..i + Lead(kind)];
      n
    else 0
  }

  /** What a token looks like: the fixed part, then at least one character of the class. */
  predicate IsToken(kind: TokenKind, t: string)
  {
    && LeadAt(kind, t, 0)
    && |t| > Lead(kind)
    && forall j :: Lead(kind) <= j < |t| ==> InClass(kind, t[j])
  }

  /** The matches from position `i` on. */
  function TokensFrom(kind: TokenKind, s: string, i: nat): (tokens: seq<string>)
    requires i <= |s|
    ensures forall k :: 0 <= k < |tokens| ==> |tokens[k]| > 0
    decreases |s| - i
  {
    if i == |s| then []
    else
      var n := MatchLength(kind, s, i);
      if n > 0 then [s[i..i + n]] + TokensFrom(kind, s, i + n) else TokensFrom(kind, s, i + 1)
  }

  /** `re.findall(pattern, s)`. */
  function FindAll(kind: TokenKind, s: string): (tokens: seq<string>)
    ensures forall k :: 0 <= k < |tokens| ==> |tokens[k]| > 0
  {
    TokensFrom(kind, s, 0)
  }

  /** Every match from position `i` on has the shape of the pattern. */
  lemma {:induction false} MatchesFromAreTokens(kind: TokenKind, s: string, i: nat)
    requires i <= |s|
    ensures forall k :: 0 <= k < |TokensFrom(kind, s, i)| ==> IsToken(kind, TokensFrom(kind, s, i)[k])
    decreases |s| - i
  {
    if i < |s| {
      var n := MatchLength(kind, s, i);
      if n > 0 {
        MatchesFromAreTokens(kind, s, i + n);
      } else {
        MatchesFromAreTokens(kind, s, i + 1);
      }
    }
  }

  /** Every match has the shape of the pattern: the fixed part, then one or more characters
      of the class. */
  lemma MatchesAreTokens(kind: TokenKind, s: string)
    ensures forall k :: 0 <= k < |FindAll(kind, s)| ==> IsToken(kind, FindAll(kind, s)[k])
  {
    MatchesFromAreTokens(kind, s, 0);
  }

  /** No match starts at a character other than `$`. */
  lemma {:induction false} SkipPlain(kind: TokenKind, s: string, i: nat, j: nat)
    requires i <= j <= |s|
    requires forall k :: i <= k < j ==> s[k] != '$'
    ensures TokensFrom(kind, s, i) == TokensFrom(kind, s, j)
    decreases j - i
  {
    if i < j {
      assert MatchLength(kind, s, i) == 0 by {
        if i + 4 <= |s| {
          assert s[i..i + 4][0] == s[i];
        }
        if i + 8 <= |s| {
          assert s[i..i + 8][0] == s[i];
        }
      }
      SkipPlain(kind, s, i + 1, j);
    }
  }

  /** A text without `$` holds no token. */
  lemma TokensWithoutDollar(kind: TokenKind, s: string)
    requires '$' !in s
    ensures FindAll(kind, s) == []
  {
    SkipPlain(kind, s, 0, |s|);
  }

  /** The greedy repetition stops exactly where the class ends. */
  lemma {:induction false} ClassRunExact(kind: TokenKind, s: string, i: nat, n: nat)
    requires i + n <= |s|
    requires forall j :: i <= j < i + n ==> InClass(kind, s[j])
    requires i + n == |s| || !InClass(kind, s[i + n])
    ensures ClassRun(kind, s, i) == n
    decreases n
  {
    if n > 0 {
      ClassRunExact(kind, s, i + 1, n - 1);
    }
  }

  /** A token written at position `i` and not followed by a character of its class is
      matched there whole. */
  lemma TokenMatches(kind: TokenKind, s: string, i: nat, tok: string)
    requires IsToken(kind, tok)
    requires i + |tok| <= |s| && s[i..i + |tok|] == tok
    requires i + |tok| == |s| || !InClass(kind, s[i + |tok|])
    ensures MatchLength(kind, s, i) == |tok|
  {
    var l := Lead(kind);
    assert forall j :: i <= j < i + |tok| ==> s[j] == tok[j - i];
    assert s[i..i + l] == tok[0..l];
    match kind {
      case RunField => assert s[i..i + 4] == tok[0..4];
      case SamplePath => assert s[i..i + 8] == tok[0..8];
    }
    ClassRunExact(kind, s, i + l, |tok| - l);
  }

  /** A match is taken whole, and the scan resumes after it. */
  lemma TokensFromMatch(kind: TokenKind, s: string, i: nat, e: nat)
    requires i < e <= |s| && MatchLength(kind, s, i) == e - i
    ensures TokensFrom(kind, s, i) == [s[i..e]] + TokensFrom(kind, s, e)
  {
  }

  /** Scanning from `j`, a token at `i..e` with no `$` between `j` and `i` is the next match. */
  lemma NextTokenAt(kind: TokenKind, s: string, j: nat, i: nat, e: nat)
    requires j <= i < e <= |s| && IsToken(kind, s[i..e])
    requires e == |s| || !InClass(kind, s[e])
    requires forall k :: j <= k < i ==> s[k] != '$'
    ensures TokensFrom(kind, s, j) == [s[i..e]] + TokensFrom(kind, s, e)
  {
    var tok := s[i..e];
    assert |tok| == e - i && i + |tok| == e;
    assert s[i..i + |tok|] == tok;
    TokenMatches(kind, s, i, tok);
    TokensFromMatch(kind, s, i, e);
    SkipPlain(kind, s, j, i);
  }

  /** A token at `i..e` with no `$` before or after it is the one match. */
  lemma OneTokenAt(kind: TokenKind, s: string, i: nat, e: nat)
    requires i < e <= |s| && IsToken(kind, s[i..e])
    requires e == |s| || !InClass(kind, s[e])
    requires forall k :: 0 <= k < i ==> s[k] != '$'
    requires forall k :: e <= k < |s| ==> s[k] != '$'
    ensures TokensFrom(kind, s, 0) == [s[i..e]]
  {
    NextTokenAt(kind, s, 0, i, e);
    SkipPlain(kind, s, e, |s|);
  }

  /** A single token between two texts without `$`, not followed by a character of its
      class, is the one match. */
  lemma TokensOfOne(kind: TokenKind, x: string, tok: string, y: string)
    requires IsToken(kind, tok)
    requires '$' !in x && '$' !in y
    requires y == [] || !InClass(kind, y[0])
    ensures FindAll(kind, x + tok + y) == [tok]
  {
    var s := x + tok + y;
    var i, e := |x|, |x| + |tok|;
    assert s[i..e] == tok;
    forall k | 0 <= k < i ensures s[k] != '$' {
      assert s[k] == x[k];
    }
    forall k | e <= k < |s| ensures s[k] != '$' {
      assert s[k] == y[k - e];
    }
    OneTokenAt(kind, s, i, e);
  }

  /** Two tokens at `i..e` and `i2..e2`, with no `$` outside them, are the two matches. */
  lemma TwoTokensAt(kind: TokenKind, s: string, i: nat, e: nat, i2: nat, e2: nat)
    requires i < e <= i2 < e2 <= |s| && IsToken(kind, s[i..e]) && IsToken(kind, s[i2..e2])
    requires !InClass(kind, s[e]) && (e2 == |s| || !InClass(kind, s[e2]))
    requires forall k :: 0 <= k < i ==> s[k] != '$'
    requires forall k :: e <= k < i2 ==> s[k] != '$'
    requires forall k :: e2 <= k < |s| ==> s[k] != '$'
    ensures FindAll(kind, s) == [s[i..e], s[i2..e2]]
  {
    NextTokenAt(kind, s, 0, i, e);
    NextTokenAt(kind, s, e, i2, e2);
    SkipPlain(kind, s, e2, |s|);
  }

  /** A token written twice, between texts without `$`, is matched twice. */
  lemma TokensOfTwo(kind: TokenKind, x: string, tok: string, z: string, y: string)
    requires IsToken(kind, tok)
    requires '$' !in x && '$' !in z && '$' !in y
    requires z != [] && !InClass(kind, z[0])
    requires y == [] || !InClass(kind, y[0])
    ensures FindAll(kind, x + tok + z + tok + y) == [tok, tok]
  {
    var s := x + tok + z + tok + y;
    var i, e := |x|, |x| + |tok|;
    var i2, e2 := e + |z|, e + |z| + |tok|;
    assert s[i..e] == tok && s[i2..e2] == tok && s[e] == z[0];
    forall k | 0 <= k < i ensures s[k] != '$' {
      assert s[k] == x[k];
    }
    forall k | e <= k < i2 ensures s[k] != '$' {
      assert s[k] == z[k - e];
    }
    forall k | e2 <= k < |s| ensures s[k] != '$' {
      assert s[k] == y[k - e2];
    }
    TwoTokensAt(kind, s, i, e, i2, e2);
  }
}
