/** The few pieces of Python's `str` behaviour that the launcher's pipeline relies on:
    `strip()`, `split(sep)`, `replace(old, new)`, `str(int)` and `int(text)`. */
module Strings {

  datatype Option<+T> = None | Some(value: T)

  /** The failures of the pipeline, one per Python exception it can raise or re-raise. */
  datatype Error =
    | BadMetadata                        // format_metadata re-raises every failure as one generic Exception
    | WrongFileCount(files: seq<string>) // ValueError "Number of sequence files is not two"
    | RowOutOfRange(row: nat)            // IndexError from a positional lookup with a label
    | UnpackMismatch(text: string)       // ValueError from a two-way tuple unpack of a split
    | NotAnInteger(text: string)         // ValueError from int()
    | MissingKey(key: string)            // KeyError
    | NotSubscriptable                   // TypeError: the value does not support that subscript
    | IndexOutOfRange(index: nat)        // IndexError on a list or a string
    | NotAString(key: string)            // TypeError: str.replace with a replacement that is not a str

  datatype Result<+T> = Ok(value: T) | Err(error: Error) {
    predicate IsFailure() { Err? }
    function PropagateFailure<U>(): Result<U> requires Err? { Err(error) }
    function Extract(): T requires Ok? { value }
  }

  predicate IsAsciiLetter(c: char) { 'a' <= c <= 'z' || 'A' <= c <= 'Z' }

  predicate IsAsciiDigit(c: char) { '0' <= c <= '9' }

  /** Python's `str.isspace()`: the characters `str.strip()` removes. */
  predicate IsSpace(c: char) {
    var n := c as int;
    (9 <= n <= 13) || (28 <= n <= 32) || n == 0x85 || n == 0xA0 || n == 0x1680
    || (0x2000 <= n <= 0x200A) || n == 0x2028 || n == 0x2029 || n == 0x202F
    || n == 0x205F || n == 0x3000
  }

  predicate AllSpace(s: string) { forall i :: 0 <= i < |s| ==> IsSpace(s[i]) }

  predicate StartsWith(s: string, prefix: string) { |prefix| <= |s| && s[..|prefix|] == prefix }

  predicate EndsWith(s: string, suffix: string) { |suffix| <= |s| && s[|s| - |suffix|..] == suffix }

  /** `s.lstrip()`: the suffix of `s` left after dropping its leading whitespace. */
  function LStrip(s: string): (r: string)
    ensures |r| <= |s| && r == s[|s| - |r|..]
    ensures AllSpace(s[..|s| - |r|])
    ensures r == [] || !IsSpace(r[0])
  {
    if s != [] && IsSpace(s[0]) then
      var r := LStrip(s[1..]);
      assert s[1..][..|s[1..]| - |r|] == s[1..|s| - |r|];
      r
    else s
  }

  /** `s.rstrip()`: the prefix of `s` left after dropping its trailing whitespace. */
  function RStrip(s: string): (r: string)
    ensures |r| <= |s| && r == s[..|r|]
    ensures AllSpace(s[|r|..])
    ensures r == [] || !IsSpace(r[|r| - 1])
  {
    if s != [] && IsSpace(s[|s| - 1]) then
      var r := RStrip(s[..|s| - 1]);
      assert s[..|s| - 1][|r|..] == s[|r|..|s| - 1];
      r
    else s
  }

  /** `s.strip()`: a slice of `s` framed by whitespace only, and itself neither starting
      nor ending with whitespace. */
  function Strip(s: string): (r: string)
    ensures exists i, j :: 0 <= i <= j <= |s| && r == s[i..j] && AllSpace(s[..i]) && AllSpace(s[j..])
    ensures r == [] || (!IsSpace(r[0]) && !IsSpace(r[|r| - 1]))
  {
    var l := LStrip(s);
    var r := RStrip(l);
    var i := |s| - |l|;
    assert r == s[i..i + |r|];
    assert s[i + |r|..] == l[|r|..];
    assert AllSpace(s[..i]) && AllSpace(s[i + |r|..]);
    r
  }

  /** A string with no whitespace at either end is left alone by `strip()`. */
  lemma StripUnchanged(s: string)
    requires s == [] || (!IsSpace(s[0]) && !IsSpace(s[|s| - 1]))
    ensures Strip(s) == s
  {
    assert LStrip(s) == s;
  }

  /** `sep.join(parts)`. */
  function Join(parts: seq<string>, sep: char): string
  {
    if parts == [] then ""
    else if |parts| == 1 then parts[0]
    else parts[0] + [sep] + Join(parts[1..], sep)
  }

  /** The position of the first `c` in `s`. */
  function IndexOf(s: string, c: char): (i: nat)
    requires c in s
    ensures i < |s| && s[i] == c && c !in s[..i]
  {
    if s[0] == c then 0
    else
      var i := IndexOf(s[1..], c) + 1;
      assert s[..i] == [s[0]] + s[1..][..i - 1];
      i
  }

  /** `s.split(sep)` for a one-character separator: the pieces between separators, which
      joined back give `s`. */
  function Split(s: string, sep: char): (parts: seq<string>)
    ensures |parts| >= 1
    ensures forall i :: 0 <= i < |parts| ==> sep !in parts[i]
    ensures Join(parts, sep) == s
    decreases |s|
  {
    if sep !in s then [s]
    else
      var i := IndexOf(s, sep);
      var rest := Split(s[i + 1..], sep);
      var parts := [s[..i]] + rest;
      assert parts[1..] == rest;
      assert s == s[..i] + [sep] + s[i + 1..];
      parts
  }

  /** The other half of the round trip: splitting a join gives the pieces back, when no
      piece contains the separator. */
  lemma {:induction false} SplitJoin(parts: seq<string>, sep: char)
    requires |parts| >= 1
    requires forall i :: 0 <= i < |parts| ==> sep !in parts[i]
    ensures Split(Join(parts, sep), sep) == parts
  {
    if |parts| > 1 {
      SplitJoin(parts[1..], sep);
      SplitPrefix(parts[0], Join(parts[1..], sep), sep);
      assert [parts[0]] + parts[1..] == parts;
    }
  }

  lemma SplitPrefix(a: string, b: string, sep: char)
    requires sep !in a
    ensures Split(a + [sep] + b, sep) == [a] + Split(b, sep)
  {
    var s := a + [sep] + b;
    assert s[|a|] == sep;
    var i := IndexOf(s, sep);
    assert s[..|a|] == a;
    assert i <= |a| by {
      assert forall k :: |a| < k <= |s| ==> s[..k][|a|] == sep;
    }
    assert s[..i] == a && s[i + 1..] == b;
  }

  /** `s.replace(pat, rep)`: every non-overlapping occurrence of `pat`, found left to
      right, replaced by `rep`. */
  function ReplaceAll(s: string, pat: string, rep: string): string
    requires |pat| > 0
    decreases |s|
  {
    if |s| < |pat| then s
    else if s[..|pat|] == pat then rep + ReplaceAll(s[|pat|..], pat, rep)
    else [s[0]] + ReplaceAll(s[1..], pat, rep)
  }

  /** A pattern starting with a character that `s` does not contain leaves `s` unchanged. */
  lemma {:induction false} ReplaceAllAbsent(s: string, pat: string, rep: string)
    requires |pat| > 0 && pat[0] !in s
    ensures ReplaceAll(s, pat, rep) == s
  {
    if |s| >= |pat| {
      assert s[..|pat|][0] == s[0];
      ReplaceAllAbsent(s[1..], pat, rep);
      assert [s[0]] + s[1..] == s;
    }
  }

  /** Replacing a pattern by itself is the identity. */
  lemma {:induction false} ReplaceAllSelf(s: string, pat: string)
    requires |pat| > 0
    ensures ReplaceAll(s, pat, pat) == s
    decreases |s|
  {
    if |s| >= |pat| {
      if s[..|pat|] == pat {
        ReplaceAllSelf(s[|pat|..], pat);
        assert s[..|pat|] + s[|pat|..] == s;
      } else {
        ReplaceAllSelf(s[1..], pat);
        assert [s[0]] + s[1..] == s;
      }
    }
  }

  /** A string whose first character does not start the pattern keeps that character. */
  lemma ReplaceAllSkip(s: string, pat: string, rep: string)
    requires |pat| > 0 && s != [] && s[0] != pat[0]
    ensures ReplaceAll(s, pat, rep) == [s[0]] + ReplaceAll(s[1..], pat, rep)
  {
    if |s| >= |pat| {
      assert s[..|pat|][0] == s[0];
    } else {
      assert ReplaceAll(s[1..], pat, rep) == s[1..];
      assert [s[0]] + s[1..] == s;
    }
  }

  /** The single occurrence of `pat` in `x + pat + y` is the one replaced, when `pat`
      starts with a character that neither `x` nor `y` contains. */
  lemma {:induction false} ReplaceAllOnce(x: string, pat: string, y: string, rep: string)
    requires |pat| > 0 && pat[0] !in x && pat[0] !in y
    ensures ReplaceAll(x + pat + y, pat, rep) == x + rep + y
  {
    var s := x + pat + y;
    if x == [] {
      assert s[..|pat|] == pat && s[|pat|..] == y;
      ReplaceAllAbsent(y, pat, rep);
    } else {
      ReplaceAllSkip(s, pat, rep);
      assert s[1..] == x[1..] + pat + y;
      ReplaceAllOnce(x[1..], pat, y, rep);
      assert [x[0]] + x[1..] == x;
    }
  }

  /** Up to and including the first occurrence of `pat`, when nothing before it starts
      the pattern: the text before is kept and the occurrence replaced. */
  lemma {:induction false} ReplaceAllAfter(x: string, pat: string, rest: string, rep: string)
    requires |pat| > 0 && pat[0] !in x
    ensures ReplaceAll(x + pat + rest, pat, rep) == x + rep + ReplaceAll(rest, pat, rep)
  {
    var s := x + pat + rest;
    if x == [] {
      assert s[..|pat|] == pat && s[|pat|..] == rest;
    } else {
      ReplaceAllSkip(s, pat, rep);
      assert s[1..] == x[1..] + pat + rest;
      ReplaceAllAfter(x[1..], pat, rest, rep);
      assert [x[0]] + x[1..] == x;
    }
  }

  /** Both occurrences of `pat` in `x + pat + z + pat + y` are replaced, when `pat` starts
      with a character that none of `x`, `z` and `y` contains. */
  lemma ReplaceAllTwice(x: string, pat: string, z: string, y: string, rep: string)
    requires |pat| > 0 && pat[0] !in x && pat[0] !in z && pat[0] !in y
    ensures ReplaceAll(x + pat + z + pat + y, pat, rep) == x + rep + z + rep + y
  {
    var rest := z + pat + y;
    assert x + pat + z + pat + y == x + pat + rest;
    ReplaceAllAfter(x, pat, rest, rep);
    ReplaceAllAfter(z, pat, y, rep);
    ReplaceAllAbsent(y, pat, rep);
    assert x + rep + (z + rep + y) == x + rep + z + rep + y;
  }

  function DigitChar(d: nat): char
    requires d < 10
  {
    ['0', '1', '2', '3', '4', '5', '6', '7', '8', '9'][d]
  }

  function DigitValue(c: char): nat
    requires IsAsciiDigit(c)
  {
    (c as int - '0' as int) as nat
  }

  /** `str(n)` for a natural number: decimal digits, no leading zero. */
  function NatToString(n: nat): (r: string)
    ensures |r| >= 1 && (forall i :: 0 <= i < |r| ==> IsAsciiDigit(r[i]))
    ensures |r| > 1 ==> r[0] != '0'
  {
    if n < 10 then [DigitChar(n)] else NatToString(n / 10) + [DigitChar(n % 10)]
  }

  /** `str(i)` for any int. */
  function IntToString(i: int): string
  {
    if i < 0 then "-" + NatToString(-i) else NatToString(i)
  }

  /** The value of a string of decimal digits, underscores skipped. */
  function DigitsValue(s: string): nat
    requires forall i :: 0 <= i < |s| ==> IsAsciiDigit(s[i]) || s[i] == '_'
  {
    if s == [] then 0
    else if s[|s| - 1] == '_' then DigitsValue(s[..|s| - 1])
    else DigitsValue(s[..|s| - 1]) * 10 + DigitValue(s[|s| - 1])
  }

  /** What Python's `int(text)` accepts out of the characters a path token may hold:
      digits, with single underscores only between two digits. */
  predicate IsPyIntLiteral(s: string)
  {
    && |s| >= 1
    && (forall i :: 0 <= i < |s| ==> IsAsciiDigit(s[i]) || s[i] == '_')
    && IsAsciiDigit(s[0]) && IsAsciiDigit(s[|s| - 1])
    && (forall i :: 0 <= i < |s| - 1 ==> !(s[i] == '_' && s[i + 1] == '_'))
  }

  /** `int(text)` over that alphabet: the value, or None where Python raises ValueError. */
  function ParsePyInt(s: string): Option<nat>
  {
    if IsPyIntLiteral(s) then Some(DigitsValue(s)) else None
  }

  /** `int(str(n)) == n`. */
  lemma {:induction false} ParsePrintedNat(n: nat)
    ensures ParsePyInt(NatToString(n)) == Some(n)
  {
    DigitsOfNat(n);
  }

  lemma {:induction false} DigitsOfNat(n: nat)
    ensures DigitsValue(NatToString(n)) == n
  {
    var s := NatToString(n);
    if n < 10 {
      assert s[..0] == [];
    } else {
      DigitsOfNat(n / 10);
      assert s[..|s| - 1] == NatToString(n / 10);
    }
  }
}
