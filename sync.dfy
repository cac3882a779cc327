/**
 * The narration-to-scene synchroniser of main.py: WebVTT timestamps, text
 * normalisation and the greedy single forward pass that assigns every scene a
 * duration from the word-boundary cues of one continuous narration track.
 */
module Sync {
  import opened Wrappers
  import opened Strs

  // ------------------------------------------------------------ normalize

  /** main.py `normalize`: the alphanumeric characters of `s`, lower-cased, in order. */
  function Normalize(s: string): (r: string)
    ensures |r| <= |s|
    ensures forall i :: 0 <= i < |r| ==> IsAlnum(r[i]) && !IsUpper(r[i])
  {
    if s == [] then "" else (if IsAlnum(s[0]) then [Lower(s[0])] else "") + Normalize(s[1..])
  }

  /** Normalising a concatenation normalises each part: the result keeps the input's order. */
  lemma {:induction false} NormalizeAppend(a: string, b: string)
    ensures Normalize(a + b) == Normalize(a) + Normalize(b)
    decreases |a|
  {
    if a == [] {
      assert a + b == b;
    } else {
      assert (a + b)[1..] == a[1..] + b;
      NormalizeAppend(a[1..], b);
    }
  }

  /** A string of lower-case alphanumerics is already normal. */
  lemma {:induction false} NormalizeFixes(s: string)
    requires forall i :: 0 <= i < |s| ==> IsAlnum(s[i]) && !IsUpper(s[i])
    ensures Normalize(s) == s
    decreases |s|
  {
    if s != [] { NormalizeFixes(s[1..]); }
  }

  /** One character normalises to its lower-case form when it is alphanumeric, and to nothing otherwise. */
  lemma NormalizeChar(c: char)
    ensures Normalize([c]) == if IsAlnum(c) then [Lower(c)] else []
  {
  }

  /**
   * Each character of the input contributes in its own place: an alphanumeric one
   * exactly its lower-case form, any other one nothing. With `NormalizeAppend` this
   * determines the result for every input.
   */
  lemma NormalizeAt(s: string, j: int)
    requires 0 <= j < |s|
    ensures Normalize(s) == Normalize(s[..j]) + (if IsAlnum(s[j]) then [Lower(s[j])] else []) + Normalize(s[j+1..])
  {
    var pre, c, post := s[..j], [s[j]], s[j+1..];
    var rest := c + post;
    assert rest == s[j..] by {
      assert |rest| == |s[j..]|;
      forall t | 0 <= t < |rest| ensures rest[t] == s[j..][t] {
        if t > 0 { assert rest[t] == post[t - 1]; }
      }
    }
    assert s == pre + rest by { assert s == s[..j] + s[j..]; }
    assert Normalize(s) == Normalize(pre) + Normalize(rest) by { NormalizeAppend(pre, rest); }
    assert Normalize(rest) == Normalize(c) + Normalize(post) by { NormalizeAppend(c, post); }
    NormalizeChar(s[j]);
  }

  /** Every alphanumeric character of the input survives, lower-cased. */
  lemma NormalizeKeeps(s: string, j: int)
    requires 0 <= j < |s| && IsAlnum(s[j])
    ensures Lower(s[j]) in Normalize(s)
  {
    NormalizeAt(s, j);
    var n := Normalize(s[..j]);
    assert Normalize(s)[|n|] == Lower(s[j]);
  }

  /** Every character of the result is the lower-case form of an alphanumeric input character. */
  lemma {:induction false} NormalizeFrom(s: string, i: int)
    requires 0 <= i < |Normalize(s)|
    ensures exists j :: 0 <= j < |s| && IsAlnum(s[j]) && Normalize(s)[i] == Lower(s[j])
    decreases |s|
  {
    if IsAlnum(s[0]) && i == 0 {
      assert IsAlnum(s[0]) && Normalize(s)[i] == Lower(s[0]);
    } else {
      var k := if IsAlnum(s[0]) then i - 1 else i;
      assert Normalize(s)[i] == Normalize(s[1..])[k];
      NormalizeFrom(s[1..], k);
      var j :| 0 <= j < |s[1..]| && IsAlnum(s[1..][j]) && Normalize(s[1..])[k] == Lower(s[1..][j]);
      assert s[j + 1] == s[1..][j];
    }
  }

  lemma NormalizeIdempotent(s: string)
    ensures Normalize(Normalize(s)) == Normalize(s)
  {
    NormalizeFixes(Normalize(s));
  }

  // ----------------------------------------------------------- vtt_to_sec

  /** An unsigned decimal literal: digits, optionally a point and more digits, at least one digit. */
  function ParseUnsigned(t: string): (r: Result<real>)
    ensures r.Ok? ==> r.value >= 0.0
  {
    var parts := Split(t, ".");
    if |parts| > 2 then Err("ValueError")
    else
      var whole := parts[0];
      var frac := if |parts| == 2 then parts[1] else "";
      if !AllDigits(whole) || !AllDigits(frac) || (whole == [] && frac == []) then Err("ValueError")
      else Ok(ParseNat(whole) as real + Fraction(frac))
  }

  /** The value `0.d1d2...dn` of the digits after a decimal point. */
  function Fraction(ds: string): (r: real)
    requires AllDigits(ds)
    ensures 0.0 <= r < 1.0
  {
    if ds == [] then 0.0 else (DigitValue(ds[0]) as real + Fraction(ds[1..])) / 10.0
  }

  /** Three digits after the point are thousandths. */
  lemma FractionOfThree(t: string)
    requires |t| == 3 && AllDigits(t)
    ensures Fraction(t) == ParseNat(t) as real / 1000.0
  {
    var a, b, c := DigitValue(t[0]), DigitValue(t[1]), DigitValue(t[2]);
    assert t[1..][0] == t[1] && t[1..][1..] == t[2..] && t[2..][0] == t[2] && t[2..][1..] == [];
    assert Fraction(t[2..]) == c as real / 10.0;
    assert Fraction(t[1..]) == (b as real + c as real / 10.0) / 10.0;
    assert t[..2][..1] == t[..1] && t[..1][..0] == [] && t[..2][1] == t[1] && t[..1][0] == t[0];
    assert ParseNat(t[..1]) == a;
    assert ParseNat(t[..2]) == a * 10 + b;
    assert ParseNat(t) == (a * 10 + b) * 10 + c;
  }

  /** Python `float(s)` on a decimal literal with optional sign and surrounding whitespace. */
  function ParseDecimal(s: string): Result<real> {
    var t := Strip(s);
    if t != [] && (t[0] == '-' || t[0] == '+') then
      var v := ParseUnsigned(t[1..]);
      if v.Err? then v else Ok(if t[0] == '-' then -v.value else v.value)
    else ParseUnsigned(t)
  }

  /** main.py `vtt_to_sec`: `h:m:s` to seconds; anything other than exactly three fields raises. */
  function VttToSec(t: string): Result<real> {
    var parts := Split(t, ":");
    if |parts| != 3 then Err("ValueError")
    else
      var h := ParseDecimal(parts[0]);
      var m := ParseDecimal(parts[1]);
      var s := ParseDecimal(parts[2]);
      if h.Err? then h else if m.Err? then m else if s.Err? then s
      else Ok(h.value * 3600.0 + m.value * 60.0 + s.value)
  }

  /** A timestamp without exactly two ':' raises, so the hours-omitted `mm:ss.ttt` form is rejected. */
  lemma VttNeedsTwoColons(t: string)
    requires Count(t, ':') != 2
    ensures VttToSec(t).Err?
  {
    SplitCharCount(t, ':');
  }

  /** A timestamp whose three fields hold no ':' splits into exactly those fields. */
  lemma VttFieldsSplit(h: string, m: string, s: string)
    requires Count(h, ':') == 0 && Count(m, ':') == 0 && Count(s, ':') == 0
    ensures Split(h + ":" + m + ":" + s, ":") == [h, m, s]
  {
    var ms := m + [':'] + s;
    assert h + ":" + m + ":" + s == h + [':'] + ms;
    SplitAtFirstChar(h, ':', ms);
    SplitAtFirstChar(m, ':', s);
    SplitWithout(s, ':');
    assert [h] + ([m] + [s]) == [h, m, s];
  }

  /** `vtt_to_sec("H:M:S")` is `H*3600 + M*60 + S` for any three fields free of ':'. */
  lemma VttToSecFields(h: string, m: string, s: string)
    requires Count(h, ':') == 0 && Count(m, ':') == 0 && Count(s, ':') == 0
    requires ParseDecimal(h).Ok? && ParseDecimal(m).Ok? && ParseDecimal(s).Ok?
    ensures var r := VttToSec(h + ":" + m + ":" + s);
            r.Ok? && r.value == ParseDecimal(h).value * 3600.0 + ParseDecimal(m).value * 60.0 + ParseDecimal(s).value
  {
    VttFieldsSplit(h, m, s);
    VttToSecOfSplit(h + ":" + m + ":" + s, h, m, s);
  }

  lemma VttToSecOfSplit(t: string, h: string, m: string, s: string)
    requires Split(t, ":") == [h, m, s]
    requires ParseDecimal(h).Ok? && ParseDecimal(m).Ok? && ParseDecimal(s).Ok?
    ensures VttToSec(t).Ok? && VttToSec(t).value == ParseDecimal(h).value * 3600.0 + ParseDecimal(m).value * 60.0 + ParseDecimal(s).value
  {
  }

  /** `n < 100` as two decimal digits, zero-padded. */
  function Pad2(n: nat): (r: string)
    requires n < 100
    ensures |r| == 2 && AllDigits(r)
  {
    [DigitChar(n / 10), DigitChar(n % 10)]
  }

  /** `n < 1000` as three decimal digits, zero-padded. */
  function Pad3(n: nat): (r: string)
    requires n < 1000
    ensures |r| == 3 && AllDigits(r)
  {
    [DigitChar(n / 100), DigitChar(n / 10 % 10), DigitChar(n % 10)]
  }

  /** The ranges of the four fields of a cue time with two-digit hours. */
  predicate TimeFields(hh: nat, mm: nat, ss: nat, ms: nat) {
    hh < 100 && mm < 60 && ss < 60 && ms < 1000
  }

  /** A cue time `hh:mm:ss.ttt` as the subtitle track writes it (two-digit hours). */
  function Timestamp(hh: nat, mm: nat, ss: nat, ms: nat): string
    requires TimeFields(hh, mm, ss, ms)
  {
    Pad2(hh) + ":" + Pad2(mm) + ":" + SecondsText(ss, ms)
  }

  /** The seconds field `ss.ttt` of a cue time. */
  function SecondsText(ss: nat, ms: nat): string
    requires ss < 100 && ms < 1000
  {
    Pad2(ss) + "." + Pad3(ms)
  }

  lemma DigitRoundTrip(d: nat)
    requires d < 10
    ensures DigitValue(DigitChar(d)) == d
  {
  }

  lemma Pad2Value(n: nat)
    requires n < 100
    ensures ParseNat(Pad2(n)) == n
  {
    var r := Pad2(n);
    DigitRoundTrip(n / 10);
    DigitRoundTrip(n % 10);
    assert r[..1] == [r[0]] && r[..1][..0] == [];
    assert ParseNat(r[..1]) == n / 10;
  }

  lemma Pad3Value(n: nat)
    requires n < 1000
    ensures ParseNat(Pad3(n)) == n
  {
    var r := Pad3(n);
    var q := n / 10;
    assert n / 100 == q / 10;
    DigitRoundTrip(q / 10);
    DigitRoundTrip(q % 10);
    DigitRoundTrip(n % 10);
    assert r[..2] == [r[0], r[1]] && r[..2][..1] == [r[0]] && r[..1] == [r[0]] && r[..1][..0] == [];
    assert ParseNat(r[..1]) == q / 10;
    assert ParseNat(r[..2]) == q;
  }

  lemma PlainDigitsParse(d: string)
    requires d != [] && AllDigits(d)
    ensures ParseDecimal(d).Ok? && ParseDecimal(d).value == ParseNat(d) as real
  {
    StripOfStripped(d);
    CountOfDigits(d, '.');
    SplitCharCount(d, '.');
    assert Split(d, ".")[0] == d by { SplitFirst(d, "."); }
  }

  /** A two-digit field reads back as its value and holds no ':'. */
  lemma Pad2Field(n: nat)
    requires n < 100
    ensures ParseDecimal(Pad2(n)).Ok? && ParseDecimal(Pad2(n)).value == n as real && Count(Pad2(n), ':') == 0
  {
    Pad2Value(n);
    PlainDigitsParse(Pad2(n));
    CountOfDigits(Pad2(n), ':');
  }

  /** The seconds field `ss.ttt` splits at its point into the two padded numbers. */
  lemma SecondsSplit(s: string, t: string)
    requires AllDigits(s) && AllDigits(t)
    ensures Split(s + "." + t, ".") == [s, t]
  {
    assert s + "." + t == s + ['.'] + t;
    CountOfDigits(s, '.');
    CountOfDigits(t, '.');
    SplitAtFirstChar(s, '.', t);
    SplitWithout(t, '.');
  }

  /** A literal `whole.frac` of digits reads as `whole + frac / 10^|frac|`. */
  lemma ParseUnsignedPoint(x: string, whole: string, frac: string)
    requires Split(x, ".") == [whole, frac] && whole != [] && AllDigits(whole) && AllDigits(frac)
    ensures ParseUnsigned(x).Ok? && ParseUnsigned(x).value == ParseNat(whole) as real + Fraction(frac)
  {
  }

  /** Without surrounding whitespace or a sign, `float` reads the unsigned literal. */
  lemma ParseDecimalUnsigned(x: string)
    requires x != [] && IsDigit(x[0]) && !IsSpace(x[|x| - 1])
    ensures ParseDecimal(x) == ParseUnsigned(x)
  {
    StripOfStripped(x);
  }

  /** The seconds field `ss.ttt` reads as `ss + ttt / 1000` and holds no ':'. */
  lemma SecondsField(ss: nat, ms: nat)
    requires ss < 100 && ms < 1000
    ensures var frac := SecondsText(ss, ms);
            ParseDecimal(frac).Ok? && ParseDecimal(frac).value == ss as real + ms as real / 1000.0 && Count(frac, ':') == 0
  {
    var s, t := Pad2(ss), Pad3(ms);
    var frac := s + "." + t;
    assert ParseUnsigned(frac).Ok? && ParseUnsigned(frac).value == ss as real + ms as real / 1000.0 by {
      Pad2Value(ss);
      Pad3Value(ms);
      SecondsSplit(s, t);
      ParseUnsignedPoint(frac, s, t);
      FractionOfThree(t);
    }
    assert ParseDecimal(frac) == ParseUnsigned(frac) by {
      assert frac[0] == s[0];
      assert frac[|frac| - 1] == t[2];
      ParseDecimalUnsigned(frac);
    }
    assert Count(frac, ':') == 0 by {
      CountOfDigits(s, ':');
      CountOfDigits(t, ':');
      CountAppend(s + ".", t, ':');
      CountAppend(s, ".", ':');
    }
  }

  /** Reading a formatted cue time gives back its value in seconds. */
  lemma VttToSecOfTimestamp(hh: nat, mm: nat, ss: nat, ms: nat)
    requires TimeFields(hh, mm, ss, ms)
    ensures var r := VttToSec(Timestamp(hh, mm, ss, ms));
            r.Ok? && r.value == hh as real * 3600.0 + mm as real * 60.0 + (ss as real + ms as real / 1000.0)
  {
    var h, m, frac := Pad2(hh), Pad2(mm), SecondsText(ss, ms);
    Pad2Field(hh);
    Pad2Field(mm);
    SecondsField(ss, ms);
    VttToSecValue(Timestamp(hh, mm, ss, ms), h, m, frac, hh as real, mm as real, ss as real + ms as real / 1000.0);
  }

  lemma VttToSecValue(t: string, h: string, m: string, s: string, vh: real, vm: real, vs: real)
    requires Count(h, ':') == 0 && Count(m, ':') == 0 && Count(s, ':') == 0
    requires ParseDecimal(h).Ok? && ParseDecimal(h).value == vh
    requires ParseDecimal(m).Ok? && ParseDecimal(m).value == vm
    requires ParseDecimal(s).Ok? && ParseDecimal(s).value == vs
    requires t == h + ":" + m + ":" + s
    ensures VttToSec(t).Ok? && VttToSec(t).value == vh * 3600.0 + vm * 60.0 + vs
  {
    VttFieldsSplit(h, m, s);
    VttToSecOfSplit(t, h, m, s);
  }

  // --------------------------------------------------- the greedy matcher

  /** A caption as the WebVTT reader returns it: start and end time as text, and the cue text. */
  datatype VttCue = VttCue(start: string, end: string, text: string)

  /**
   * A cue with its two times passed through `vtt_to_sec`; `Err` where that call raises.
   * `vtt_to_sec` is pure, so reading a time up front and failing when the matcher
   * first uses it behaves as calling it at that point.
   */
  datatype Cue = Cue(start: Result<real>, end: Result<real>, text: string)

  function ReadCues(raw: seq<VttCue>): seq<Cue> {
    seq(|raw|, i requires 0 <= i < |raw| => Cue(VttToSec(raw[i].start), VttToSec(raw[i].end), raw[i].text))
  }

  /** A scene dict of main.py: `text`, `image_prompt`, and the `duration` the matcher writes. */
  datatype SyncScene = SyncScene(text: string, imagePrompt: string, duration: Option<real>)

  /** The end time a scene keeps when no cue stops it, and the duration of a scene reached with no cues left. */
  const FallbackSeconds: real := 3.0

  /** The floor on every matched scene's duration. */
  const MinSeconds: real := 1.0

  function Max(a: real, b: real): real { if a >= b then a else b }

  /** One step of the accumulation buffer: `(acc + " " + cue_text).strip()`. */
  function Accumulate(acc: string, text: string): string {
    Strip(acc + " " + text)
  }

  /** The two stopping conditions: the normalised scene text occurs in the normalised
      accumulation, or the latter is at least as long. */
  predicate Stops(target: string, acc: string) {
    var an := Normalize(acc);
    Contains(an, target) || |an| >= |target|
  }

  /** Folds `step` over the texts of cues `k..j-1`, starting from `acc`. */
  function FoldTexts(step: (string, string) -> string, acc: string, cues: seq<Cue>, k: nat, j: nat): string
    requires k <= j <= |cues|
    decreases j - k
  {
    if j == k then acc else step(FoldTexts(step, acc, cues, k, j - 1), cues[j - 1].text)
  }

  /** Folding from `k` is folding from `k + 1` after one step on cue `k`. */
  lemma {:induction false} FoldTextsShift(step: (string, string) -> string, acc: string, cues: seq<Cue>, k: nat, j: nat)
    requires k < j <= |cues|
    ensures FoldTexts(step, step(acc, cues[k].text), cues, k + 1, j) == FoldTexts(step, acc, cues, k, j)
    decreases j - k
  {
    if j > k + 1 { FoldTextsShift(step, acc, cues, k, j - 1); }
  }

  /** The accumulation after consuming cues `k..j-1` onto `acc`. */
  function AccFrom(acc: string, cues: seq<Cue>, k: nat, j: nat): string
    requires k <= j <= |cues|
  {
    FoldTexts(Accumulate, acc, cues, k, j)
  }

  /** Where the scan of one scene leaves the cursor, and the start and end it found. */
  datatype Scan = Scan(next: nat, start: real, end: real)

  /**
   * The inner `while` of main.py:80-98 from cursor `k` with buffer `acc`, for any
   * accumulation `step` and stopping test `stops`: the start is read from the first cue
   * met with an empty buffer, and the scan ends after the first cue whose accumulation
   * stops it, taking that cue's end.
   */
  function ScanWith(step: (string, string) -> string, stops: string -> bool,
                    cues: seq<Cue>, k: nat, acc: string, start: real, end: real): (r: Result<Scan>)
    requires k <= |cues|
    ensures r.Ok? ==> k <= r.value.next <= |cues|
    ensures r.Ok? && k < |cues| ==> k < r.value.next
    decreases |cues| - k
  {
    if k == |cues| then Ok(Scan(k, start, end))
    else
      var s := if acc == "" then cues[k].start else Ok(start);
      if s.Err? then Err(s.error)
      else
        var acc' := step(acc, cues[k].text);
        if stops(acc') then
          (if cues[k].end.Err? then Err(cues[k].end.error) else Ok(Scan(k + 1, s.value, cues[k].end.value)))
        else ScanWith(step, stops, cues, k + 1, acc', s.value, end)
  }

  /** The stopping test of main.py:93-96 for the normalised scene text `target`. */
  function StopsFor(target: string): string -> bool {
    acc => Stops(target, acc)
  }

  /** The scan main.py performs: accumulation by `Accumulate`, stopping by `Stops`. */
  function ScanScene(target: string, cues: seq<Cue>, k: nat, acc: string, start: real, end: real): (r: Result<Scan>)
    requires k <= |cues|
    ensures r.Ok? ==> k <= r.value.next <= |cues|
    ensures r.Ok? && k < |cues| ==> k < r.value.next
  {
    ScanWith(Accumulate, StopsFor(target), cues, k, acc, start, end)
  }

  /** What the matcher decides for one scene: the cues `first..next-1` it consumed, the
      start and end it settled on and the duration it wrote. */
  datatype SceneSpan = SceneSpan(first: nat, next: nat, start: real, end: real, duration: real)

  /** One iteration of the scene loop (main.py:67-105) with the cursor at `k`. */
  function SpanScene(text: string, cues: seq<Cue>, k: nat, isLast: bool): (r: Result<SceneSpan>)
    requires k <= |cues|
    ensures r.Ok? ==> r.value.first == k <= r.value.next <= |cues|
    ensures r.Ok? && k < |cues| ==> k < r.value.next && r.value.duration == Max(MinSeconds, r.value.end - r.value.start)
    ensures r.Ok? && k == |cues| ==> r.value.next == k && r.value.duration == FallbackSeconds
    ensures r.Ok? ==> r.value.duration >= MinSeconds
  {
    if k < |cues| then
      var sc := ScanScene(Normalize(text), cues, k, "", 0.0, FallbackSeconds);
      if sc.Err? then Err(sc.error)
      else
        var e := if isLast then cues[|cues| - 1].end else Ok(sc.value.end);
        if e.Err? then Err(e.error)
        else Ok(SceneSpan(k, sc.value.next, sc.value.start, e.value, Max(MinSeconds, e.value - sc.value.start)))
    else Ok(SceneSpan(k, k, 0.0, FallbackSeconds, FallbackSeconds))
  }

  /** The scene loop from scene `i` with the cursor at `k`. */
  function PlanFrom(texts: seq<string>, cues: seq<Cue>, i: nat, k: nat): (r: Result<seq<SceneSpan>>)
    requires i <= |texts| && k <= |cues|
    ensures r.Ok? ==> |r.value| == |texts| - i
    decreases |texts| - i
  {
    if i == |texts| then Ok([])
    else
      var sp := SpanScene(texts[i], cues, k, i == |texts| - 1);
      if sp.Err? then Err(sp.error)
      else
        var rest := PlanFrom(texts, cues, i + 1, sp.value.next);
        if rest.Err? then Err(rest.error) else Ok([sp.value] + rest.value)
  }

  /** The whole synchronisation of `texts` against `cues`; `Err` where `vtt_to_sec` raises. */
  function Plan(texts: seq<string>, cues: seq<Cue>): Result<seq<SceneSpan>> {
    PlanFrom(texts, cues, 0, 0)
  }

  function Texts(scenes: seq<SyncScene>): (r: seq<string>)
    ensures |r| == |scenes| && forall i :: 0 <= i < |r| ==> r[i] == scenes[i].text
  {
    if scenes == [] then [] else [scenes[0].text] + Texts(scenes[1..])
  }

  function Prepend(done: seq<SceneSpan>, r: Result<seq<SceneSpan>>): Result<seq<SceneSpan>> {
    if r.Err? then r else Ok(done + r.value)
  }

  /**
   * The inner `while` of main.py:80-98 for one scene, from cursor `k`: `ok` is false
   * where `vtt_to_sec` raised, and otherwise the cursor, start and end it leaves.
   */
  method ScanCues(target: string, cues: seq<Cue>, k0: nat) returns (ok: bool, k: nat, startSec: real, endSec: real)
    requires k0 <= |cues|
    ensures ok <==> ScanScene(target, cues, k0, "", 0.0, FallbackSeconds).Ok?
    ensures ok ==> ScanScene(target, cues, k0, "", 0.0, FallbackSeconds).value == Scan(k, startSec, endSec)
  {
    ghost var scan := ScanScene(target, cues, k0, "", 0.0, FallbackSeconds);
    var acc: string := "";
    k, startSec, endSec := k0, 0.0, FallbackSeconds;
    while k < |cues|
      invariant k0 <= k <= |cues|
      invariant scan == ScanScene(target, cues, k, acc, startSec, endSec)
      decreases |cues| - k
    {
      var cue := cues[k];
      if acc == "" {
        if cue.start.Err? {
          return false, k, startSec, endSec;
        }
        startSec := cue.start.value;
      }
      acc := Accumulate(acc, cue.text);
      var accNorm := Normalize(acc);
      if Contains(accNorm, target) || |accNorm| >= |target| {
        if cue.end.Err? {
          return false, k, startSec, endSec;
        }
        endSec := cue.end.value;
        k := k + 1;
        return true, k, startSec, endSec;
      }
      k := k + 1;
    }
    return true, k, startSec, endSec;
  }

  lemma PrependStep(done: seq<SceneSpan>, span: SceneSpan, r: Result<seq<SceneSpan>>)
    ensures Prepend(done, if r.Err? then Err(r.error) else Ok([span] + r.value)) == Prepend(done + [span], r)
  {
    if r.Ok? { assert done + ([span] + r.value) == done + [span] + r.value; }
  }

  /**
   * One iteration of the scene loop (main.py:67-105) with the cursor at `k`: `ok` is
   * false where `vtt_to_sec` raised, and otherwise the scene's cue range, start, end
   * and duration.
   */
  method MatchScene(text: string, cues: seq<Cue>, k0: nat, isLast: bool)
    returns (ok: bool, k: nat, startSec: real, endSec: real, duration: real)
    requires k0 <= |cues|
    ensures ok <==> SpanScene(text, cues, k0, isLast).Ok?
    ensures ok ==> SpanScene(text, cues, k0, isLast).value == SceneSpan(k0, k, startSec, endSec, duration)
  {
    k, startSec, endSec := k0, 0.0, FallbackSeconds;
    if k < |cues| {
      var scanned;
      scanned, k, startSec, endSec := ScanCues(Normalize(text), cues, k);
      if !scanned {
        return false, k, startSec, endSec, 0.0;
      }
      if isLast {
        var e := cues[|cues| - 1].end;
        if e.Err? {
          return false, k, startSec, endSec, 0.0;
        }
        endSec := e.value;
      }
      duration := Max(MinSeconds, endSec - startSec);
    } else {
      duration := FallbackSeconds;
    }
    return true, k, startSec, endSec, duration;
  }

  /**
   * The spans the scene loop completes from scene `i` and cue `k` before `vtt_to_sec`
   * raises: all of them when nothing raises.
   */
  function Completed(texts: seq<string>, cues: seq<Cue>, i: nat, k: nat): (r: seq<SceneSpan>)
    requires i <= |texts| && k <= |cues|
    ensures |r| <= |texts| - i
    decreases |texts| - i
  {
    if i == |texts| then []
    else
      var sp := SpanScene(texts[i], cues, k, i == |texts| - 1);
      if sp.Err? then [] else [sp.value] + Completed(texts, cues, i + 1, sp.value.next)
  }

  /**
   * The completed spans are the plan when it succeeds; when it fails they stop short
   * of the last scene, at the scene whose cue time is malformed.
   */
  lemma {:induction false} CompletedIsPlan(texts: seq<string>, cues: seq<Cue>, i: nat, k: nat)
    requires i <= |texts| && k <= |cues|
    ensures PlanFrom(texts, cues, i, k).Ok? ==> Completed(texts, cues, i, k) == PlanFrom(texts, cues, i, k).value
    ensures PlanFrom(texts, cues, i, k).Err? ==> |Completed(texts, cues, i, k)| < |texts| - i
    decreases |texts| - i
  {
    if i < |texts| {
      var sp := SpanScene(texts[i], cues, k, i == |texts| - 1);
      if sp.Ok? {
        CompletedIsPlan(texts, cues, i + 1, sp.value.next);
      }
    }
  }

  /** The scene loop advanced past scene `i`, whose span is `span`. */
  lemma PlanAdvance(texts: seq<string>, cues: seq<Cue>, done: seq<SceneSpan>, i: nat, k: nat, span: SceneSpan)
    requires i < |texts| && k <= |cues|
    requires SpanScene(texts[i], cues, k, i == |texts| - 1).Ok?
    requires SpanScene(texts[i], cues, k, i == |texts| - 1).value == span
    ensures span.next <= |cues|
    ensures Prepend(done, PlanFrom(texts, cues, i, k)) == Prepend(done + [span], PlanFrom(texts, cues, i + 1, span.next))
    ensures done + Completed(texts, cues, i, k) == (done + [span]) + Completed(texts, cues, i + 1, span.next)
  {
    assert Completed(texts, cues, i, k) == [span] + Completed(texts, cues, i + 1, span.next);
    var rest := PlanFrom(texts, cues, i + 1, span.next);
    assert PlanFrom(texts, cues, i, k) == if rest.Err? then Err(rest.error) else Ok([span] + rest.value);
    PrependStep(done, span, rest);
  }

  /** Where `vtt_to_sec` raises for scene `i`, the plan fails and no further span is completed. */
  lemma PlanStop(texts: seq<string>, cues: seq<Cue>, done: seq<SceneSpan>, i: nat, k: nat)
    requires i < |texts| && k <= |cues|
    requires SpanScene(texts[i], cues, k, i == |texts| - 1).Err?
    ensures PlanFrom(texts, cues, i, k).Err?
    ensures done + Completed(texts, cues, i, k) == done
  {
    assert Completed(texts, cues, i, k) == [];
  }

  /**
   * The scenes after the loop has written the durations of `spans`, one per scene from
   * the first: texts and image prompts are kept, and scenes past the spans are untouched.
   */
  function Written(orig: seq<SyncScene>, spans: seq<SceneSpan>): (r: seq<SyncScene>)
    requires |spans| <= |orig|
    ensures |r| == |orig|
    ensures forall i :: 0 <= i < |r| ==> r[i].text == orig[i].text && r[i].imagePrompt == orig[i].imagePrompt
    ensures forall i :: 0 <= i < |spans| ==> r[i].duration == Some(spans[i].duration)
    ensures forall i :: |spans| <= i < |r| ==> r[i] == orig[i]
  {
    seq(|orig|, i requires 0 <= i < |orig| => if i < |spans| then orig[i].(duration := Some(spans[i].duration)) else orig[i])
  }

  /** Writing one more span changes exactly the next scene's duration. */
  lemma WrittenStep(orig: seq<SyncScene>, done: seq<SceneSpan>, span: SceneSpan)
    requires |done| < |orig|
    ensures Written(orig, done + [span])
              == Written(orig, done)[|done| := orig[|done|].(duration := Some(span.duration))]
  {
  }

  /**
   * main.py:57-105: writes every scene's `duration` in place. `ok` is false where
   * `vtt_to_sec` raised; the scenes before that point keep the durations already
   * written and the rest are untouched.
   */
  method Synchronise(scenes: array<SyncScene>, cues: seq<Cue>) returns (ok: bool)
    modifies scenes
    ensures ok <==> Plan(Texts(old(scenes[..])), cues).Ok?
    ensures scenes[..] == Written(old(scenes[..]), Completed(Texts(old(scenes[..])), cues, 0, 0))
    ensures ok ==> Completed(Texts(old(scenes[..])), cues, 0, 0) == Plan(Texts(old(scenes[..])), cues).value
  {
    ghost var orig := scenes[..];
    ghost var texts := Texts(orig);
    ghost var done: seq<SceneSpan> := [];
    var k: nat := 0;
    var i := 0;
    assert PlanFrom(texts, cues, 0, 0).Ok? ==> [] + PlanFrom(texts, cues, 0, 0).value == PlanFrom(texts, cues, 0, 0).value;
    assert Written(orig, []) == orig;
    while i < scenes.Length
      invariant 0 <= i <= scenes.Length && k <= |cues| && |done| == i
      invariant scenes[..] == Written(orig, done)
      invariant Plan(texts, cues) == Prepend(done, PlanFrom(texts, cues, i, k))
      invariant Completed(texts, cues, 0, 0) == done + Completed(texts, cues, i, k)
    {
      var text := scenes[i].text;
      assert text == texts[i];
      ghost var k0 := k;
      var matched, startSec, endSec, duration;
      matched, k, startSec, endSec, duration := MatchScene(text, cues, k, i == scenes.Length - 1);
      if !matched {
        PlanStop(texts, cues, done, i, k0);
        return false;
      }
      ghost var span := SceneSpan(k0, k, startSec, endSec, duration);
      PlanAdvance(texts, cues, done, i, k0, span);
      WrittenStep(orig, done, span);
      scenes[i] := scenes[i].(duration := Some(duration));
      done := done + [span];
      i := i + 1;
    }
    assert PlanFrom(texts, cues, i, k) == Ok([]);
    assert Completed(texts, cues, i, k) == [];
    assert done + [] == done;
    return true;
  }

  // ------------------------------------------------------------ properties

  lemma {:induction false} PlanFromSpans(texts: seq<string>, cues: seq<Cue>, i: nat, k: nat)
    requires i <= |texts| && k <= |cues|
    requires PlanFrom(texts, cues, i, k).Ok?
    ensures var p := PlanFrom(texts, cues, i, k).value;
            && (p != [] ==> p[0].first == k)
            && (forall j :: 0 <= j < |p| ==>
                  p[j].first <= |cues| && SpanScene(texts[i + j], cues, p[j].first, i + j == |texts| - 1).Ok?
                  && SpanScene(texts[i + j], cues, p[j].first, i + j == |texts| - 1).value == p[j])
            && (forall j :: 0 <= j < |p| - 1 ==> p[j + 1].first == p[j].next)
    decreases |texts| - i
  {
    if i < |texts| {
      var sp := SpanScene(texts[i], cues, k, i == |texts| - 1).value;
      PlanFromSpans(texts, cues, i + 1, sp.next);
    }
  }

  /**
   * Cues are consumed in order and each at most once: the scenes' cue ranges are
   * consecutive from cue 0, the cursor never passes the cue count, a scene that
   * begins with cues left consumes at least one, and every duration is at least 1.0 —
   * `max(1.0, end - start)` when cues were left, the literal 3.0 otherwise.
   */
  lemma PlanShape(texts: seq<string>, cues: seq<Cue>)
    requires Plan(texts, cues).Ok?
    ensures var p := Plan(texts, cues).value;
            && |p| == |texts|
            && (p != [] ==> p[0].first == 0)
            && (forall j :: 0 <= j < |p| - 1 ==> p[j + 1].first == p[j].next)
            && (forall j :: 0 <= j < |p| ==> p[j].first <= p[j].next <= |cues|)
            && (forall j :: 0 <= j < |p| && p[j].first < |cues| ==>
                  p[j].first < p[j].next && p[j].duration == Max(MinSeconds, p[j].end - p[j].start))
            && (forall j :: 0 <= j < |p| && p[j].first == |cues| ==> p[j].duration == FallbackSeconds)
            && (forall j :: 0 <= j < |p| ==> p[j].duration >= MinSeconds)
  {
    PlanFromSpans(texts, cues, 0, 0);
  }

  /**
   * The scan stops at the first cue whose accumulation meets the stopping test and
   * takes that cue's end; when none does it runs out of cues and keeps the initial end.
   */
  lemma {:induction false} ScanStopsAtFirst(step: (string, string) -> string, stops: string -> bool,
                                            cues: seq<Cue>, k: nat, acc: string, start: real, end: real)
    requires k < |cues|
    requires ScanWith(step, stops, cues, k, acc, start, end).Ok?
    ensures var sc := ScanWith(step, stops, cues, k, acc, start, end).value;
            && (forall j :: k < j < sc.next ==> !stops(FoldTexts(step, acc, cues, k, j)))
            && (if stops(FoldTexts(step, acc, cues, k, sc.next))
                then cues[sc.next - 1].end.Ok? && cues[sc.next - 1].end.value == sc.end
                else sc.next == |cues| && sc.end == end)
    decreases |cues| - k
  {
    var s := if acc == "" then cues[k].start else Ok(start);
    var acc' := step(acc, cues[k].text);
    assert FoldTexts(step, acc, cues, k, k + 1) == acc' by {
      assert FoldTexts(step, acc, cues, k, k) == acc;
    }
    if !stops(acc') && k + 1 < |cues| {
      ScanStopsAtFirst(step, stops, cues, k + 1, acc', s.value, end);
      var sc := ScanWith(step, stops, cues, k, acc, start, end).value;
      forall j | k + 1 < j <= sc.next ensures FoldTexts(step, acc', cues, k + 1, j) == FoldTexts(step, acc, cues, k, j) {
        FoldTextsShift(step, acc, cues, k, j);
      }
    }
  }

  /**
   * A scene other than the last that begins at cue `k < |cues|` consumes cues up to the
   * first one whose accumulated text stops it, and ends where that cue ends; if none
   * stops it, the cues run out and it keeps the initial end 3.0.
   */
  lemma SceneStopsAtFirstMatch(text: string, cues: seq<Cue>, k: nat)
    requires k < |cues| && SpanScene(text, cues, k, false).Ok?
    ensures var sp := SpanScene(text, cues, k, false).value;
            var t := Normalize(text);
            && (forall j :: k < j < sp.next ==> !Stops(t, AccFrom("", cues, k, j)))
            && (if Stops(t, AccFrom("", cues, k, sp.next))
                then cues[sp.next - 1].end.Ok? && cues[sp.next - 1].end.value == sp.end
                else sp.next == |cues| && sp.end == FallbackSeconds)
  {
    var t := Normalize(text);
    var sc := ScanScene(t, cues, k, "", 0.0, FallbackSeconds);
    assert sc.Ok? && SpanScene(text, cues, k, false).value.next == sc.value.next
           && SpanScene(text, cues, k, false).value.end == sc.value.end;
    ScanSceneStopsAtFirst(t, cues, k);
  }

  lemma ScanSceneStopsAtFirst(t: string, cues: seq<Cue>, k: nat)
    requires k < |cues| && ScanScene(t, cues, k, "", 0.0, FallbackSeconds).Ok?
    ensures var sc := ScanScene(t, cues, k, "", 0.0, FallbackSeconds).value;
            && (forall j :: k < j < sc.next ==> !Stops(t, AccFrom("", cues, k, j)))
            && (if Stops(t, AccFrom("", cues, k, sc.next))
                then cues[sc.next - 1].end.Ok? && cues[sc.next - 1].end.value == sc.end
                else sc.next == |cues| && sc.end == FallbackSeconds)
  {
    ScanStopsAtFirst(Accumulate, StopsFor(t), cues, k, "", 0.0, FallbackSeconds);
  }

  /** The last scene, if it began with cues left, ends where the last cue ends. */
  lemma LastSceneEndsAtLastCue(texts: seq<string>, cues: seq<Cue>)
    requires Plan(texts, cues).Ok? && texts != []
    requires Plan(texts, cues).value[|texts| - 1].first < |cues|
    ensures var last := Plan(texts, cues).value[|texts| - 1];
            cues[|cues| - 1].end.Ok? && cues[|cues| - 1].end.value == last.end && last.duration == Max(MinSeconds, last.end - last.start)
  {
    PlanFromSpans(texts, cues, 0, 0);
  }

  /** With no cues at all, every scene gets 3.0 and no timestamp is read. */
  lemma {:induction false} NoCuesAllFallback(texts: seq<string>, i: nat)
    requires i <= |texts|
    ensures PlanFrom(texts, [], i, 0).Ok?
    ensures forall j :: 0 <= j < |texts| - i ==> PlanFrom(texts, [], i, 0).value[j].duration == FallbackSeconds
    decreases |texts| - i
  {
    if i < |texts| { NoCuesAllFallback(texts, i + 1); }
  }

  lemma {:induction false} AccumulateKeepsInk(acc: string, text: string)
    requires HasInk(acc) || HasInk(text)
    ensures HasInk(Accumulate(acc, text))
  {
    var x := acc + " " + text;
    if HasInk(acc) {
      var i :| 0 <= i < |acc| && !IsSpace(acc[i]);
      assert x[i] == acc[i];
    } else {
      var i :| 0 <= i < |text| && !IsSpace(text[i]);
      assert x[|acc| + 1 + i] == text[i];
    }
    StripEmptyIff(x);
    StripEnds(x);
    var r := Accumulate(acc, text);
    assert !IsSpace(r[0]);
  }

  /** An accumulation step that never loses the buffer's text. */
  ghost predicate KeepsInk(step: (string, string) -> string) {
    forall acc, text :: HasInk(acc) ==> HasInk(step(acc, text))
  }

  lemma AccumulateKeepsAllInk()
    ensures KeepsInk(Accumulate)
  {
    forall acc, text | HasInk(acc) ensures HasInk(Accumulate(acc, text)) {
      AccumulateKeepsInk(acc, text);
    }
  }

  /** Once the buffer holds text, the start is fixed: later cues never move it. */
  lemma {:induction false} StartFixedOnceInked(step: (string, string) -> string, stops: string -> bool,
                                               cues: seq<Cue>, k: nat, acc: string, start: real, end: real)
    requires k <= |cues| && HasInk(acc) && KeepsInk(step)
    requires ScanWith(step, stops, cues, k, acc, start, end).Ok?
    ensures ScanWith(step, stops, cues, k, acc, start, end).value.start == start
    decreases |cues| - k
  {
    if k < |cues| {
      var acc' := step(acc, cues[k].text);
      if !stops(acc') {
        StartFixedOnceInked(step, stops, cues, k + 1, acc', start, end);
      }
    }
  }

  /** A scene whose first consumed cue has text starts at that cue's start. */
  lemma StartAtFirstCue(target: string, cues: seq<Cue>, k: nat, start: real, end: real)
    requires k < |cues| && HasInk(cues[k].text)
    requires ScanScene(target, cues, k, "", start, end).Ok?
    ensures cues[k].start.Ok? && cues[k].start.value == ScanScene(target, cues, k, "", start, end).value.start
  {
    AccumulateKeepsInk("", cues[k].text);
    AccumulateKeepsAllInk();
    var acc' := Accumulate("", cues[k].text);
    if !Stops(target, acc') {
      StartFixedOnceInked(Accumulate, StopsFor(target), cues, k + 1, acc', cues[k].start.value, end);
    }
  }

  /**
   * A leading cue with blank text leaves the buffer empty, so it does not fix the start:
   * for a non-empty scene text, scanning from it is scanning from the next cue, whatever
   * start value is carried in.
   */
  lemma BlankLeadingCueSkipped(target: string, cues: seq<Cue>, k: nat, s0: real, s1: real, end: real)
    requires target != [] && k + 1 < |cues| && !HasInk(cues[k].text)
    requires cues[k].start.Ok?
    ensures ScanScene(target, cues, k, "", s0, end) == ScanScene(target, cues, k + 1, "", s1, end)
  {
    var x := "" + " " + cues[k].text;
    assert !HasInk(x) by {
      forall i | 0 <= i < |x| ensures IsSpace(x[i]) {
        if i > 0 { assert x[i] == cues[k].text[i - 1]; }
      }
    }
    StripEmptyIff(x);
    assert Accumulate("", cues[k].text) == "";
    assert Normalize("") == "";
    assert !Contains("", target) by {
      assert forall i: nat :: !OccursAt("", target, i);
    }
    assert !StopsFor(target)("");
    assert ScanScene(target, cues, k + 1, "", cues[k].start.value, end) == ScanScene(target, cues, k + 1, "", s1, end);
  }

  /** The matcher fails only on a malformed timestamp: with every cue time well formed it succeeds. */
  predicate WellFormed(cues: seq<Cue>) {
    forall i :: 0 <= i < |cues| ==> cues[i].start.Ok? && cues[i].end.Ok?
  }

  lemma {:induction false} ScanOkWhenWellFormed(step: (string, string) -> string, stops: string -> bool,
                                                 cues: seq<Cue>, k: nat, acc: string, start: real, end: real)
    requires k <= |cues| && WellFormed(cues)
    ensures ScanWith(step, stops, cues, k, acc, start, end).Ok?
    decreases |cues| - k
  {
    if k < |cues| {
      var s := if acc == "" then cues[k].start else Ok(start);
      ScanOkWhenWellFormed(step, stops, cues, k + 1, step(acc, cues[k].text), s.value, end);
    }
  }

  lemma {:induction false} PlanOkWhenWellFormed(texts: seq<string>, cues: seq<Cue>, i: nat, k: nat)
    requires i <= |texts| && k <= |cues| && WellFormed(cues)
    ensures PlanFrom(texts, cues, i, k).Ok?
    decreases |texts| - i
  {
    if i < |texts| {
      if k < |cues| {
        ScanOkWhenWellFormed(Accumulate, StopsFor(Normalize(texts[i])), cues, k, "", 0.0, FallbackSeconds);
      }
      var sp := SpanScene(texts[i], cues, k, i == |texts| - 1);
      PlanOkWhenWellFormed(texts, cues, i + 1, sp.value.next);
    }
  }

  /** A track whose every cue time is written `hh:mm:ss.ttt` reads without error. */
  lemma TimestampTrackWellFormed(raw: seq<VttCue>)
    requires forall i :: 0 <= i < |raw| ==>
               (exists hh, mm, ss, ms :: TimeFields(hh, mm, ss, ms) && raw[i].start == Timestamp(hh, mm, ss, ms))
               && (exists hh, mm, ss, ms :: TimeFields(hh, mm, ss, ms) && raw[i].end == Timestamp(hh, mm, ss, ms))
    ensures WellFormed(ReadCues(raw))
  {
    forall i | 0 <= i < |raw| ensures VttToSec(raw[i].start).Ok? && VttToSec(raw[i].end).Ok? {
      var hh, mm, ss, ms :| TimeFields(hh, mm, ss, ms) && raw[i].start == Timestamp(hh, mm, ss, ms);
      VttToSecOfTimestamp(hh, mm, ss, ms);
      var hh', mm', ss', ms' :| TimeFields(hh', mm', ss', ms') && raw[i].end == Timestamp(hh', mm', ss', ms');
      VttToSecOfTimestamp(hh', mm', ss', ms');
    }
  }
}
