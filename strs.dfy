/**
 * Python string operations used throughout the pipeline, on `seq<char>`:
 * whitespace classes, `strip`, `split()`, `" ".join`, `replace`, `in`,
 * `split(sep)` and decimal integers.
 */
module Strs {
  import opened Wrappers

  /** Python's `str.isspace()`: the code points `split()` and `strip()` treat as whitespace. */
  predicate IsSpace(c: char) {
    c == ' ' || ('\t' <= c <= '\r') || ('\U{1C}' <= c <= '\U{1F}') || c == '\U{85}' || c == '\U{A0}'
    || c == '\U{1680}' || ('\U{2000}' <= c <= '\U{200A}') || c == '\U{2028}' || c == '\U{2029}'
    || c == '\U{202F}' || c == '\U{205F}' || c == '\U{3000}'
  }

  predicate IsDigit(c: char) { '0' <= c <= '9' }

  predicate IsUpper(c: char) { 'A' <= c <= 'Z' }

  /** `str.isalnum()` restricted to ASCII letters and digits. */
  predicate IsAlnum(c: char) { IsDigit(c) || 'a' <= c <= 'z' || IsUpper(c) }

  /** `str.lower()` on one ASCII character. */
  function Lower(c: char): (r: char)
    ensures !IsUpper(r)
    ensures IsAlnum(c) <==> IsAlnum(r)
    ensures !IsUpper(c) ==> r == c
  {
    if IsUpper(c) then (c as int - 'A' as int + 'a' as int) as char else c
  }

  predicate AllDigits(s: string) { forall i :: 0 <= i < |s| ==> IsDigit(s[i]) }

  predicate AllSpace(s: string) { forall i :: 0 <= i < |s| ==> IsSpace(s[i]) }

  /** The string has a character that is not whitespace. */
  predicate HasInk(s: string) { exists i :: 0 <= i < |s| && !IsSpace(s[i]) }

  /** A token of `str.split()`: non-empty and free of whitespace. */
  predicate IsWord(w: string) { w != [] && forall i :: 0 <= i < |w| ==> !IsSpace(w[i]) }

  // ---------------------------------------------------------------- strip

  /** `str.lstrip()`: drops the leading whitespace run. */
  function StripLeft(s: string): (r: string)
    ensures |r| <= |s|
    ensures r == [] || !IsSpace(r[0])
  {
    if s != [] && IsSpace(s[0]) then StripLeft(s[1..]) else s
  }

  /** `str.rstrip()`: drops the trailing whitespace run. */
  function StripRight(s: string): (r: string)
    ensures |r| <= |s|
    ensures r == [] || !IsSpace(r[|r| - 1])
  {
    if s != [] && IsSpace(s[|s| - 1]) then StripRight(s[..|s| - 1]) else s
  }

  /** `lstrip()` returns a suffix of its input. */
  lemma {:induction false} StripLeftSuffix(s: string)
    ensures StripLeft(s) == s[|s| - |StripLeft(s)|..]
  {
    if s != [] && IsSpace(s[0]) {
      StripLeftSuffix(s[1..]);
      assert s[1..][|s| - 1 - |StripLeft(s[1..])|..] == s[|s| - |StripLeft(s)|..];
    }
  }

  /** `rstrip()` returns a prefix of its input. */
  lemma {:induction false} StripRightPrefix(s: string)
    ensures StripRight(s) == s[..|StripRight(s)|]
  {
    if s != [] && IsSpace(s[|s| - 1]) {
      StripRightPrefix(s[..|s| - 1]);
      assert s[..|s| - 1][..|StripRight(s)|] == s[..|StripRight(s)|];
    }
  }

  /** `lstrip()` drops only whitespace. */
  lemma {:induction false} StripLeftDropsSpace(s: string)
    ensures AllSpace(s[..|s| - |StripLeft(s)|])
  {
    if s != [] && IsSpace(s[0]) {
      StripLeftDropsSpace(s[1..]);
      var n := |s| - |StripLeft(s)|;
      forall i | 0 <= i < n ensures IsSpace(s[..n][i]) {
        if i > 0 { assert s[..n][i] == s[1..][..n - 1][i - 1]; }
      }
    }
  }

  /** `rstrip()` drops only whitespace. */
  lemma {:induction false} StripRightDropsSpace(s: string)
    ensures AllSpace(s[|StripRight(s)|..])
  {
    if s != [] && IsSpace(s[|s| - 1]) {
      var t := s[..|s| - 1];
      StripRightDropsSpace(t);
      var n := |StripRight(s)|;
      forall i | 0 <= i < |s| - n ensures IsSpace(s[n..][i]) {
        if i < |s| - 1 - n { assert s[n..][i] == t[n..][i]; }
      }
    }
  }

  /** `str.strip()`. */
  function Strip(s: string): (r: string)
    ensures |r| <= |s|
  {
    StripRight(StripLeft(s))
  }

  /** `strip()` leaves no whitespace at either end. */
  lemma StripEnds(s: string)
    ensures var r := Strip(s); r == [] || (!IsSpace(r[0]) && !IsSpace(r[|r| - 1]))
  {
    StripRightPrefix(StripLeft(s));
  }

  /** `strip()` removes only whitespace: the input is whitespace, then the result, then whitespace. */
  lemma StripShape(s: string) returns (i: nat, j: nat)
    ensures i <= j <= |s| && Strip(s) == s[i..j]
    ensures AllSpace(s[..i]) && AllSpace(s[j..])
  {
    var l := StripLeft(s);
    StripLeftSuffix(s);
    StripRightPrefix(l);
    StripLeftDropsSpace(s);
    StripRightDropsSpace(l);
    i := |s| - |l|;
    j := i + |StripRight(l)|;
    assert s[j..] == l[|StripRight(l)|..];
  }

  /** `strip()` yields the empty string exactly when the input is all whitespace. */
  lemma StripEmptyIff(s: string)
    ensures Strip(s) == [] <==> !HasInk(s)
  {
    var i, j := StripShape(s);
    if Strip(s) == [] {
      forall k | 0 <= k < |s| ensures IsSpace(s[k]) {
        if k < i { assert s[..i][k] == s[k]; } else { assert s[j..][k - j] == s[k]; }
      }
    } else {
      assert s[i] == Strip(s)[0];
    }
  }

  lemma StripIdempotent(s: string)
    ensures Strip(Strip(s)) == Strip(s)
  {
    StripEnds(s);
    StripOfStripped(Strip(s));
  }

  /** A string with no whitespace at either end is its own `strip()`. */
  lemma StripOfStripped(s: string)
    requires s == [] || (!IsSpace(s[0]) && !IsSpace(s[|s| - 1]))
    ensures Strip(s) == s
  {
  }

  // ------------------------------------------------------------ split()

  /** The longest whitespace-free prefix. */
  function TakeWord(s: string): (w: string)
    ensures |w| <= |s| && w == s[..|w|]
    ensures forall i :: 0 <= i < |w| ==> !IsSpace(w[i])
    ensures |w| == |s| || IsSpace(s[|w|])
    ensures s != [] && !IsSpace(s[0]) ==> |w| >= 1
  {
    if s == [] || IsSpace(s[0]) then [] else [s[0]] + TakeWord(s[1..])
  }

  /** `str.split()` with no separator: the maximal whitespace-free runs, in order. */
  function Words(s: string): (ws: seq<string>)
    ensures forall i :: 0 <= i < |ws| ==> IsWord(ws[i])
    decreases |s|
  {
    if s == [] then []
    else if IsSpace(s[0]) then Words(s[1..])
    else
      var w := TakeWord(s);
      [w] + Words(s[|w|..])
  }

  /** `" ".join(ws)`. */
  function JoinSpace(ws: seq<string>): string {
    if ws == [] then "" else if |ws| == 1 then ws[0] else ws[0] + " " + JoinSpace(ws[1..])
  }

  lemma {:induction false} JoinSpaceAppend(a: seq<string>, b: seq<string>)
    requires a != [] && b != []
    ensures JoinSpace(a + b) == JoinSpace(a) + " " + JoinSpace(b)
    decreases |a|
  {
    if |a| == 1 {
      assert (a + b)[1..] == b;
    } else {
      assert (a + b)[1..] == a[1..] + b;
      JoinSpaceAppend(a[1..], b);
    }
  }

  lemma TakeWordOfWordThen(w: string, x: string)
    requires IsWord(w)
    requires x == [] || IsSpace(x[0])
    ensures TakeWord(w + x) == w
    decreases |w|
  {
    if |w| > 1 {
      assert (w + x)[1..] == w[1..] + x;
      TakeWordOfWordThen(w[1..], x);
    } else {
      assert (w + x)[1..] == x;
    }
  }

  /** Splitting a space-joined list of words gives the words back. */
  lemma {:induction false} WordsOfJoin(ws: seq<string>)
    requires forall i :: 0 <= i < |ws| ==> IsWord(ws[i])
    ensures Words(JoinSpace(ws)) == ws
    decreases |ws|
  {
    if ws == [] {
    } else {
      var w := ws[0];
      var x := if |ws| == 1 then "" else " " + JoinSpace(ws[1..]);
      assert JoinSpace(ws) == w + x;
      TakeWordOfWordThen(w, x);
      assert (w + x)[|w|..] == x;
      if |ws| > 1 {
        WordsOfJoin(ws[1..]);
        assert x[1..] == JoinSpace(ws[1..]);
      }
    }
  }

  /** `split()` is unchanged by surrounding whitespace: `split()` of a string equals that of its strip. */
  lemma {:induction false} WordsOfSpacePrefix(a: string, s: string)
    requires AllSpace(a)
    ensures Words(a + s) == Words(s)
    decreases |a|
  {
    if a != [] {
      assert (a + s)[1..] == a[1..] + s;
      WordsOfSpacePrefix(a[1..], s);
    } else {
      assert a + s == s;
    }
  }

  // ----------------------------------------------------------- counting

  /** Occurrences of `c` in `s`. */
  function Count(s: string, c: char): nat {
    if s == [] then 0 else (if s[0] == c then 1 else 0) + Count(s[1..], c)
  }

  lemma {:induction false} CountAppend(a: string, b: string, c: char)
    ensures Count(a + b, c) == Count(a, c) + Count(b, c)
    decreases |a|
  {
    if a != [] {
      assert (a + b)[1..] == a[1..] + b;
      CountAppend(a[1..], b, c);
    } else {
      assert a + b == b;
    }
  }

  /** Number of characters that are not whitespace. */
  function InkCount(s: string): nat {
    if s == [] then 0 else (if IsSpace(s[0]) then 0 else 1) + InkCount(s[1..])
  }

  lemma {:induction false} InkCountAppend(a: string, b: string)
    ensures InkCount(a + b) == InkCount(a) + InkCount(b)
    decreases |a|
  {
    if a != [] {
      assert (a + b)[1..] == a[1..] + b;
      InkCountAppend(a[1..], b);
    } else {
      assert a + b == b;
    }
  }

  lemma {:induction false} InkCountOfInkFree(s: string)
    requires forall i :: 0 <= i < |s| ==> !IsSpace(s[i])
    ensures InkCount(s) == |s|
    decreases |s|
  {
    if s != [] { InkCountOfInkFree(s[1..]); }
  }

  /** Total length of a list of strings. */
  function SumLens(ws: seq<string>): nat {
    if ws == [] then 0 else |ws[0]| + SumLens(ws[1..])
  }

  lemma {:induction false} SumLensAppend(a: seq<string>, b: seq<string>)
    ensures SumLens(a + b) == SumLens(a) + SumLens(b)
    decreases |a|
  {
    if a != [] {
      assert (a + b)[1..] == a[1..] + b;
      SumLensAppend(a[1..], b);
    } else {
      assert a + b == b;
    }
  }

  /** The words of `split()` hold exactly the non-whitespace characters of the text. */
  lemma {:induction false} SumLensOfWords(s: string)
    ensures SumLens(Words(s)) == InkCount(s)
    decreases |s|
  {
    if s == [] {
    } else if IsSpace(s[0]) {
      SumLensOfWords(s[1..]);
    } else {
      var w := TakeWord(s);
      assert s == w + s[|w|..];
      InkCountAppend(w, s[|w|..]);
      InkCountOfInkFree(w);
      SumLensOfWords(s[|w|..]);
    }
  }

  // ------------------------------------------------------------ replace

  /** `s.replace(c, "")`. */
  function Remove(s: string, c: char): (r: string)
    ensures |r| == |s| - Count(s, c)
    ensures forall i :: 0 <= i < |r| ==> r[i] != c
  {
    if s == [] then "" else (if s[0] == c then "" else [s[0]]) + Remove(s[1..], c)
  }

  lemma {:induction false} RemoveAppend(a: string, b: string, c: char)
    ensures Remove(a + b, c) == Remove(a, c) + Remove(b, c)
    decreases |a|
  {
    if a != [] {
      assert (a + b)[1..] == a[1..] + b;
      RemoveAppend(a[1..], b, c);
    } else {
      assert a + b == b;
    }
  }

  /** `s.replace(c, t)` for a one-character pattern. */
  function ReplaceChar(s: string, c: char, t: string): (r: string)
    ensures |r| == |s| + Count(s, c) * (|t| - 1)
  {
    if s == [] then "" else (if s[0] == c then t else [s[0]]) + ReplaceChar(s[1..], c, t)
  }

  lemma {:induction false} ReplaceCharAppend(a: string, b: string, c: char, t: string)
    ensures ReplaceChar(a + b, c, t) == ReplaceChar(a, c, t) + ReplaceChar(b, c, t)
    decreases |a|
  {
    if a != [] {
      assert (a + b)[1..] == a[1..] + b;
      ReplaceCharAppend(a[1..], b, c, t);
    } else {
      assert a + b == b;
    }
  }

  /** Replacing `c` by a text without `c` leaves no `c` behind. */
  lemma {:induction false} ReplaceCharRemoves(s: string, c: char, t: string)
    requires Count(t, c) == 0
    ensures Count(ReplaceChar(s, c, t), c) == 0
    decreases |s|
  {
    if s != [] {
      ReplaceCharRemoves(s[1..], c, t);
      CountAppend(if s[0] == c then t else [s[0]], ReplaceChar(s[1..], c, t), c);
    }
  }

  /** A text without `c` is left as it is. */
  lemma {:induction false} ReplaceCharAbsent(s: string, c: char, t: string)
    requires Count(s, c) == 0
    ensures ReplaceChar(s, c, t) == s
    decreases |s|
  {
    if s != [] { ReplaceCharAbsent(s[1..], c, t); }
  }

  /** Replacing one character by another changes exactly the positions holding it. */
  lemma {:induction false} ReplaceCharPointwise(s: string, c: char, d: char)
    ensures |ReplaceChar(s, c, [d])| == |s|
    ensures forall i :: 0 <= i < |s| ==> ReplaceChar(s, c, [d])[i] == (if s[i] == c then d else s[i])
    decreases |s|
  {
    if s != [] {
      ReplaceCharPointwise(s[1..], c, d);
      var r := ReplaceChar(s, c, [d]);
      assert r == [if s[0] == c then d else s[0]] + ReplaceChar(s[1..], c, [d]);
      forall i | 0 < i < |s| ensures r[i] == (if s[i] == c then d else s[i]) {
        assert r[i] == ReplaceChar(s[1..], c, [d])[i - 1];
      }
    }
  }

  /** A string in which `c` appears nowhere counts it zero times. */
  lemma {:induction false} CountNone(s: string, c: char)
    requires forall i :: 0 <= i < |s| ==> s[i] != c
    ensures Count(s, c) == 0
    decreases |s|
  {
    if s != [] { CountNone(s[1..], c); }
  }

  /** A string of decimal digits holds no character that is not a digit. */
  lemma {:induction false} CountOfDigits(s: string, c: char)
    requires AllDigits(s) && !IsDigit(c)
    ensures Count(s, c) == 0
    decreases |s|
  {
    if s != [] { CountOfDigits(s[1..], c); }
  }

  // ----------------------------------------------------- in, find, split

  /** `p` occurs in `s` starting at index `i`. */
  predicate OccursAt(s: string, p: string, i: nat) {
    i + |p| <= |s| && s[i..i + |p|] == p
  }

  /** Python's `p in s`. */
  predicate Contains(s: string, p: string) {
    exists i: nat :: i <= |s| && OccursAt(s, p, i)
  }

  /** The first index at or after `from` where `p` occurs in `s`. */
  function IndexFrom(s: string, p: string, from: nat): (r: Option<nat>)
    requires from <= |s|
    ensures r.Some? ==> from <= r.value && OccursAt(s, p, r.value)
    ensures r.Some? ==> forall j: nat :: from <= j < r.value ==> !OccursAt(s, p, j)
    ensures r.None? ==> forall j: nat :: from <= j ==> !OccursAt(s, p, j)
    decreases |s| - from
  {
    if from + |p| > |s| then None
    else if s[from..from + |p|] == p then Some(from)
    else if from == |s| then None
    else IndexFrom(s, p, from + 1)
  }

  /** Python's `s.find(p)`, with `None` for -1. */
  function IndexOf(s: string, p: string): (r: Option<nat>)
    ensures r.Some? ==> OccursAt(s, p, r.value)
    ensures r.Some? ==> forall j: nat :: j < r.value ==> !OccursAt(s, p, j)
    ensures r.None? <==> !Contains(s, p)
  {
    IndexFrom(s, p, 0)
  }

  /** Python's `s.split(sep)` for a non-empty separator. */
  function Split(s: string, sep: string): (parts: seq<string>)
    requires sep != []
    ensures |parts| >= 1
    decreases |s|
  {
    match IndexOf(s, sep)
    case None => [s]
    case Some(i) => [s[..i]] + Split(s[i + |sep|..], sep)
  }

  /** The first piece of `split(sep)` is the text before the first separator (all of it if none). */
  lemma SplitFirst(s: string, sep: string)
    requires sep != []
    ensures Split(s, sep)[0] == (match IndexOf(s, sep) case None => s case Some(i) => s[..i])
  {
  }

  /** Splitting on a character at its first occurrence. */
  lemma SplitAtFirstChar(a: string, c: char, b: string)
    requires Count(a, c) == 0
    ensures Split(a + [c] + b, [c]) == [a] + Split(b, [c])
  {
    var s := a + [c] + b;
    assert OccursAt(s, [c], |a|) by { assert s[|a|..|a| + 1] == [c]; }
    match IndexOf(s, [c])
    case None =>
    case Some(i) =>
      if i < |a| {
        assert s[i..i + 1] == [c];
        assert a[i] == c;
        CountPositive(a, c, i);
      }
      assert s[..|a|] == a;
      assert s[|a| + 1..] == b;
  }

  /** A string holding `c` somewhere counts it at least once. */
  lemma {:induction false} CountPositive(s: string, c: char, i: nat)
    requires i < |s| && s[i] == c
    ensures Count(s, c) > 0
    decreases i
  {
    if i > 0 { CountPositive(s[1..], c, i - 1); }
  }

  /** A string without `c` is a single piece when split on `c`. */
  lemma SplitWithout(s: string, c: char)
    requires Count(s, c) == 0
    ensures Split(s, [c]) == [s]
  {
    match IndexOf(s, [c])
    case None =>
    case Some(i) =>
      assert s[i..i + 1] == [c];
      CountPositive(s, c, i);
  }

  /** A one-character separator splits a string into one more piece than it occurs. */
  lemma {:induction false} SplitCharCount(s: string, c: char)
    ensures |Split(s, [c])| == Count(s, c) + 1
    decreases |s|
  {
    match IndexOf(s, [c])
    case None =>
      CountZero(s, c);
    case Some(i) =>
      assert s == s[..i] + [c] + s[i + 1..];
      CountAppend(s[..i] + [c], s[i + 1..], c);
      CountAppend(s[..i], [c], c);
      forall j: nat ensures !OccursAt(s[..i], [c], j) {
        if j + 1 <= i { assert !OccursAt(s, [c], j); assert s[..i][j..j + 1] == s[j..j + 1]; }
      }
      CountZero(s[..i], c);
      SplitCharCount(s[i + 1..], c);
  }

  lemma {:induction false} CountZero(s: string, c: char)
    requires forall j: nat :: !OccursAt(s, [c], j)
    ensures Count(s, c) == 0
    decreases |s|
  {
    if s != [] {
      assert !OccursAt(s, [c], 0);
      assert s[0..1] == [s[0]];
      forall j: nat ensures !OccursAt(s[1..], [c], j) {
        if j + 1 <= |s[1..]| {
          assert s[1..][j..j + 1] == s[j + 1..j + 2];
          assert !OccursAt(s, [c], j + 1);
        }
      }
      CountZero(s[1..], c);
    }
  }

  // ------------------------------------------------------------ numbers

  function DigitChar(d: nat): (c: char)
    requires d < 10
    ensures IsDigit(c)
  {
    ('0' as int + d) as char
  }

  function DigitValue(c: char): nat
    requires IsDigit(c)
  {
    c as int - '0' as int
  }

  /** Python's `str(n)` for a non-negative integer. */
  function Digits(n: nat): (r: string)
    ensures |r| >= 1 && AllDigits(r)
  {
    if n < 10 then [DigitChar(n)] else Digits(n / 10) + [DigitChar(n % 10)]
  }

  /** `int(s)` for a string of decimal digits (the empty string reads as 0). */
  function ParseNat(s: string): nat
    requires AllDigits(s)
  {
    if s == [] then 0 else ParseNat(s[..|s| - 1]) * 10 + DigitValue(s[|s| - 1])
  }

  /** Reading back the decimal digits of `n` gives `n`. */
  lemma {:induction false} ParseDigits(n: nat)
    ensures ParseNat(Digits(n)) == n
  {
    if n >= 10 {
      var d := Digits(n);
      assert d[..|d| - 1] == Digits(n / 10);
      ParseDigits(n / 10);
    }
  }

  /** Python's `int(x)` on a float: truncation toward zero. */
  function Trunc(x: real): (r: int)
    ensures x >= 0.0 ==> r as real <= x < r as real + 1.0
    ensures x < 0.0 ==> r as real - 1.0 < x <= r as real
  {
    if x >= 0.0 then x.Floor else -((-x).Floor)
  }

  /** Truncating a non-negative quotient is integer division. */
  lemma TruncQuotient(a: nat, b: nat)
    requires b > 0
    ensures Trunc(a as real / b as real) == a / b
  {
    var q, r := a / b, a % b;
    assert a == q * b + r;
    assert (a as real) / (b as real) == q as real + (r as real) / (b as real);
    assert 0.0 <= (r as real) / (b as real) < 1.0;
  }

  // ------------------------------------------------------------ paths

  /** `dir / name` for a `pathlib.Path`, as `str()` renders it. */
  function JoinPath(dir: string, name: string): (r: string)
    ensures |r| == |dir| + 1 + |name| && r[|dir|] == '/'
  {
    dir + "/" + name
  }

  // ------------------------------------------------------ blanks and ink

  /** Every whitespace character of `s` is the plain space ' '. */
  predicate BlanksAreSpaces(s: string) {
    forall i :: 0 <= i < |s| && IsSpace(s[i]) ==> s[i] == ' '
  }

  /**
   * Removing the ' ' characters keeps at least the non-whitespace ones, and exactly
   * those when ' ' is the only whitespace in `s`.
   */
  lemma {:induction false} InkCountOfRemove(s: string)
    ensures InkCount(s) <= |Remove(s, ' ')|
    ensures BlanksAreSpaces(s) ==> InkCount(s) == |Remove(s, ' ')|
    decreases |s|
  {
    if s != [] {
      InkCountOfRemove(s[1..]);
      if BlanksAreSpaces(s) {
        assert forall i :: 0 <= i < |s| - 1 ==> s[1..][i] == s[i + 1];
      }
    }
  }

  /** A string has a non-whitespace character exactly when it counts one. */
  lemma {:induction false} InkCountPositive(s: string)
    ensures InkCount(s) > 0 <==> HasInk(s)
    decreases |s|
  {
    if s != [] {
      InkCountPositive(s[1..]);
      if HasInk(s[1..]) {
        var i :| 0 <= i < |s| - 1 && !IsSpace(s[1..][i]);
        assert s[i + 1] == s[1..][i];
      }
      if HasInk(s) && IsSpace(s[0]) {
        var i :| 0 <= i < |s| && !IsSpace(s[i]);
        assert s[1..][i - 1] == s[i];
      }
    }
  }

  /** `split()` finds no word exactly when the text is blank. */
  lemma WordsEmptyIff(s: string)
    ensures Words(s) == [] <==> !HasInk(s)
  {
    SumLensOfWords(s);
    InkCountPositive(s);
    var ws := Words(s);
    if ws != [] {
      assert IsWord(ws[0]);
    }
  }

  /** A string without `c` is unchanged by removing `c`. */
  lemma {:induction false} RemoveAbsent(s: string, c: char)
    requires forall i :: 0 <= i < |s| ==> s[i] != c
    ensures Remove(s, c) == s
    decreases |s|
  {
    if s != [] {
      RemoveAbsent(s[1..], c);
      assert [s[0]] + s[1..] == s;
    }
  }

  /** Joining words with ' ' and removing the ' ' leaves all their characters. */
  lemma {:induction false} RemoveSpaceOfJoin(ws: seq<string>)
    requires forall i :: 0 <= i < |ws| ==> IsWord(ws[i])
    ensures |Remove(JoinSpace(ws), ' ')| == SumLens(ws)
    decreases |ws|
  {
    if ws != [] {
      assert IsWord(ws[0]);
      RemoveAbsent(ws[0], ' ');
      if |ws| > 1 {
        RemoveSpaceOfJoin(ws[1..]);
        RemoveAppend(ws[0] + " ", JoinSpace(ws[1..]), ' ');
        RemoveAppend(ws[0], " ", ' ');
      }
    }
  }
}
