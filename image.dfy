/**
 * The picture generator of src/generators/image.py: the request URL, the schedule of
 * up to five attempts that rotates from the "flux" model through "turbo" to the
 * service's default model, the back-off waits between attempts, and the black picture
 * written when every attempt fails. The network is the sequence of the outcomes the
 * five attempts would get; the sleeps are recorded as the waits computed.
 */
module ImageGen {
  import opened Wrappers
  import opened Strs
  import Config

  // ------------------------------------------------------------ the request URL

  const Host: string := "https://image.pollinations.ai/prompt/"

  /** The prompt with every space written as "%20"; nothing else is escaped. */
  function SafePrompt(prompt: string): string {
    ReplaceChar(prompt, ' ', "%20")
  }

  /** The URL of every attempt before the model is chosen: size, no logo, and the scene index as seed. */
  function BaseUrl(prompt: string, index: nat, width: nat, height: nat): string {
    Host + SafePrompt(prompt) + "?width=" + Digits(width) + "&height=" + Digits(height) + "&nologo=true&seed=" + Digits(index)
  }

  /** The models in order of preference; `None` is the service's default model. */
  const Models: seq<Option<string>> := [Some("flux"), Some("turbo"), None]

  /** `min(current_model_idx, len(models) - 1)`. */
  function Pick(idx: nat): (p: nat)
    ensures p < |Models|
  {
    if idx < |Models| then idx else |Models| - 1
  }

  /** The URL asks for a model by name exactly when one is chosen. */
  function ModelUrl(base: string, model: Option<string>): string {
    if model.Some? then base + "&model=" + model.value else base
  }

  /** Turns "%20" back into spaces: the inverse of `SafePrompt` on prompts without '%'. */
  function Unescape(s: string): string {
    if s == [] then []
    else if |s| >= 3 && s[..3] == "%20" then " " + Unescape(s[3..])
    else [s[0]] + Unescape(s[1..])
  }

  // ------------------------------------------------------------ attempts

  /** What an attempt gives: an HTTP status, or an exception (including the 60-second timeout). */
  datatype Outcome = Status(code: int) | Raised

  const RetryCount: nat := 5

  predicate ServerError(outcome: Outcome) {
    outcome.Status? && (outcome.code == 500 || outcome.code == 502 || outcome.code == 503 || outcome.code == 504)
  }

  /** The model index after a failed attempt: one step on a server error, one more after a failure numbered 1 to 3. */
  function NextIndex(idx: nat, attempt: nat, outcome: Outcome): nat {
    var afterStatus := if ServerError(outcome) then idx + 1 else idx;
    if attempt < RetryCount - 1 && attempt >= 1 then afterStatus + 1 else afterStatus
  }

  /**
   * What the attempts from `attempt` on do, given the outcome each attempt gets:
   * whether the picture was saved, the model position of each attempt made, and the
   * waits in seconds between them.
   */
  datatype Schedule = Schedule(saved: bool, picks: seq<nat>, waits: seq<nat>)

  function Tries(responses: seq<Outcome>, attempt: nat, idx: nat): Schedule
    requires |responses| == RetryCount && attempt <= RetryCount
    decreases RetryCount - attempt
  {
    if attempt == RetryCount then Schedule(false, [], [])
    else if responses[attempt] == Status(200) then Schedule(true, [Pick(idx)], [])
    else
      var rest := Tries(responses, attempt + 1, NextIndex(idx, attempt, responses[attempt]));
      var wait := if attempt < RetryCount - 1 then [3 * (attempt + 1)] else [];
      Schedule(rest.saved, [Pick(idx)] + rest.picks, wait + rest.waits)
  }

  /** The URL of each attempt, from the model position it used. */
  function Urls(base: string, picks: seq<nat>): (urls: seq<string>)
    ensures |urls| == |picks|
  {
    seq(|picks|, k requires 0 <= k < |picks| => ModelUrl(base, Models[Pick(picks[k])]))
  }

  /** The file the picture of scene `index` is written to, downloaded or black. */
  function ScenePath(outputDir: string, index: nat): string {
    JoinPath(outputDir, "scene_" + Digits(index) + ".jpg")
  }

  /** The path returned, whether the picture is the black fallback, and what the attempts did. */
  datatype ImageResult = ImageResult(path: string, black: bool, picks: seq<nat>, urls: seq<string>, waits: seq<nat>)

  function ImageOf(outputDir: string, width: nat, height: nat, prompt: string, index: nat,
                   responses: seq<Outcome>): ImageResult
    requires |responses| == RetryCount
  {
    var t := Tries(responses, 0, 0);
    ImageResult(ScenePath(outputDir, index), !t.saved, t.picks, Urls(BaseUrl(prompt, index, width, height), t.picks), t.waits)
  }

  /** The attempts already made, in front of what the attempts left do. */
  function Glue(picks: seq<nat>, waits: seq<nat>, rest: Schedule): Schedule {
    Schedule(rest.saved, picks + rest.picks, waits + rest.waits)
  }

  /** A failed attempt `a` is followed by the attempts from `a + 1` on, after its wait. */
  lemma TriesStep(responses: seq<Outcome>, a: nat, idx: nat, picks: seq<nat>, waits: seq<nat>)
    requires |responses| == RetryCount && a < RetryCount && responses[a] != Status(200)
    ensures var wait := if a < RetryCount - 1 then [3 * (a + 1)] else [];
            Glue(picks, waits, Tries(responses, a, idx))
            == Glue(picks + [Pick(idx)], waits + wait, Tries(responses, a + 1, NextIndex(idx, a, responses[a])))
  {
    var rest := Tries(responses, a + 1, NextIndex(idx, a, responses[a]));
    var wait := if a < RetryCount - 1 then [3 * (a + 1)] else [];
    assert picks + ([Pick(idx)] + rest.picks) == (picks + [Pick(idx)]) + rest.picks;
    assert waits + (wait + rest.waits) == (waits + wait) + rest.waits;
  }

  /** The generator: the directory it writes to and the picture size asked for. */
  class ImageGenerator {
    const outputDir: string
    const width: nat
    const height: nat

    constructor (tempDir: string)
      ensures outputDir == tempDir && width == Config.VideoWidth && height == Config.VideoHeight
    {
      outputDir := tempDir;
      width := Config.VideoWidth;
      height := Config.VideoHeight;
    }

    /** `generate_image(prompt, index)`, where attempt k gets `responses[k]`. */
    method GenerateImage(prompt: string, index: nat, responses: seq<Outcome>) returns (r: ImageResult)
      requires |responses| == RetryCount
      ensures r == ImageOf(outputDir, width, height, prompt, index, responses)
    {
      var outputFile := JoinPath(outputDir, "scene_" + Digits(index) + ".jpg");
      var safePrompt := ReplaceChar(prompt, ' ', "%20");
      var baseUrl := Host + safePrompt + "?width=" + Digits(width) + "&height=" + Digits(height)
                     + "&nologo=true&seed=" + Digits(index);
      assert baseUrl == BaseUrl(prompt, index, width, height);
      var currentModelIdx: nat := 0;
      var picks: seq<nat> := [];
      var urls: seq<string> := [];
      var waits: seq<nat> := [];
      assert Glue(picks, waits, Tries(responses, 0, 0)) == Tries(responses, 0, 0);
      for attempt := 0 to RetryCount
        invariant Glue(picks, waits, Tries(responses, attempt, currentModelIdx)) == Tries(responses, 0, 0)
        invariant urls == Urls(baseUrl, picks)
      {
        var pick := Pick(currentModelIdx);
        var model := Models[pick];
        var currentUrl := baseUrl;
        if model.Some? {
          currentUrl := currentUrl + "&model=" + model.value;
        }
        var response := responses[attempt];
        picks := picks + [pick];
        urls := urls + [currentUrl];
        assert urls == Urls(baseUrl, picks);
        if response == Status(200) {
          return ImageResult(outputFile, false, picks, urls, waits);
        }
        TriesStep(responses, attempt, currentModelIdx, picks[..|picks| - 1], waits);
        ghost var next := NextIndex(currentModelIdx, attempt, response);
        if ServerError(response) {
          currentModelIdx := currentModelIdx + 1;
        }
        if attempt < RetryCount - 1 {
          waits := waits + [3 * (attempt + 1)];
          if attempt >= 1 {
            currentModelIdx := currentModelIdx + 1;
          }
        }
        assert currentModelIdx == next;
      }
      return ImageResult(outputFile, true, picks, urls, waits);
    }
  }

  // ------------------------------------------------------------ properties

  /** From attempt `a` on: one to the attempts left are made, with one wait fewer. */
  lemma {:induction false} TriesCount(responses: seq<Outcome>, a: nat, idx: nat)
    requires |responses| == RetryCount && a < RetryCount
    ensures var t := Tries(responses, a, idx);
            1 <= |t.picks| <= RetryCount - a && |t.waits| == |t.picks| - 1
    decreases RetryCount - a
  {
    if responses[a] != Status(200) && a + 1 < RetryCount {
      TriesCount(responses, a + 1, NextIndex(idx, a, responses[a]));
    }
  }

  /**
   * From attempt `a` on, the picture is saved exactly when the last attempt made got a
   * 200; every attempt before it did not; and when none did, every attempt left was made.
   */
  lemma {:induction false} TriesSaved(responses: seq<Outcome>, a: nat, idx: nat)
    requires |responses| == RetryCount && a < RetryCount
    ensures var t := Tries(responses, a, idx);
            && 1 <= |t.picks| <= RetryCount - a
            && (t.saved <==> responses[a + |t.picks| - 1] == Status(200))
            && (!t.saved ==> |t.picks| == RetryCount - a)
            && forall k :: a <= k < a + |t.picks| - 1 ==> responses[k] != Status(200)
    decreases RetryCount - a
  {
    if responses[a] != Status(200) && a + 1 < RetryCount {
      TriesSaved(responses, a + 1, NextIndex(idx, a, responses[a]));
    }
  }

  /** The wait after failed attempt `k` (counted from `a`) is 3*(k+1) seconds. */
  lemma {:induction false} TriesWaits(responses: seq<Outcome>, a: nat, idx: nat)
    requires |responses| == RetryCount && a <= RetryCount
    ensures var t := Tries(responses, a, idx);
            forall k :: 0 <= k < |t.waits| ==> t.waits[k] == 3 * (a + k + 1)
    decreases RetryCount - a
  {
    if a < RetryCount && responses[a] != Status(200) {
      var rest := Tries(responses, a + 1, NextIndex(idx, a, responses[a]));
      TriesWaits(responses, a + 1, NextIndex(idx, a, responses[a]));
      var t := Tries(responses, a, idx);
      if a < RetryCount - 1 {
        forall k | 0 < k < |t.waits| ensures t.waits[k] == 3 * (a + k + 1) {
          assert t.waits[k] == rest.waits[k - 1];
        }
      }
    }
  }

  /**
   * From attempt `a` on, each model position is one of the three, the first is
   * `Pick(idx)`, and while the index is at least `a - 1` (and at least 2 from attempt 3
   * on) the positions never go back and from the fourth attempt (number 3) on the
   * default model is used.
   */
  lemma {:induction false} TriesPicks(responses: seq<Outcome>, a: nat, idx: nat)
    requires |responses| == RetryCount && a <= RetryCount
    requires (a < 3 ==> a <= idx + 1) && (a >= 3 ==> idx >= 2)
    ensures var t := Tries(responses, a, idx);
            && (t.picks != [] ==> t.picks[0] == Pick(idx))
            && (forall k :: 0 <= k < |t.picks| ==> t.picks[k] < |Models|)
    ensures var t := Tries(responses, a, idx);
            forall j, k :: 0 <= j <= k < |t.picks| ==> t.picks[j] <= t.picks[k]
    ensures var t := Tries(responses, a, idx);
            forall k :: 0 <= k < |t.picks| && a + k >= 3 ==> t.picks[k] == 2
    decreases RetryCount - a
  {
    if a < RetryCount && responses[a] != Status(200) {
      var next := NextIndex(idx, a, responses[a]);
      var rest := Tries(responses, a + 1, next);
      TriesPicks(responses, a + 1, next);
      var t := Tries(responses, a, idx);
      assert t.picks == [Pick(idx)] + rest.picks;
      forall k | 0 < k < |t.picks| ensures t.picks[k] < |Models| && t.picks[0] <= t.picks[k] && (a + k >= 3 ==> t.picks[k] == 2) {
        assert t.picks[k] == rest.picks[k - 1];
      }
      forall j, k | 0 < j <= k < |t.picks| ensures t.picks[j] <= t.picks[k] {
        assert t.picks[j] == rest.picks[j - 1] && t.picks[k] == rest.picks[k - 1];
      }
    }
  }

  /**
   * `generate_image` makes one to five attempts, each failed one but the last followed
   * by a wait of 3*(k+1) seconds for attempt k, and returns the scene_{index}.jpg path
   * whether the picture was downloaded or is the black fallback.
   */
  lemma ImageAttempts(outputDir: string, width: nat, height: nat, prompt: string, index: nat, responses: seq<Outcome>)
    requires |responses| == RetryCount
    ensures var r := ImageOf(outputDir, width, height, prompt, index, responses);
            && r.path == JoinPath(outputDir, "scene_" + Digits(index) + ".jpg")
            && 1 <= |r.urls| <= RetryCount && |r.waits| == |r.urls| - 1
    ensures var r := ImageOf(outputDir, width, height, prompt, index, responses);
            forall k :: 0 <= k < |r.waits| ==> r.waits[k] == 3 * (k + 1)
  {
    TriesCount(responses, 0, 0);
    TriesWaits(responses, 0, 0);
  }

  /**
   * `generate_image` returns at the first status 200: the picture is black exactly when
   * no attempt got a 200, and then all five attempts were made; otherwise the last
   * attempt made is the one that got it.
   */
  lemma ImageBlack(outputDir: string, width: nat, height: nat, prompt: string, index: nat, responses: seq<Outcome>)
    requires |responses| == RetryCount
    ensures var r := ImageOf(outputDir, width, height, prompt, index, responses);
            && 1 <= |r.urls| <= RetryCount
            && (r.black <==> forall k :: 0 <= k < |r.urls| ==> responses[k] != Status(200))
            && (r.black ==> |r.urls| == RetryCount)
            && (!r.black ==> responses[|r.urls| - 1] == Status(200))
  {
    TriesSaved(responses, 0, 0);
  }

  /**
   * The model of each attempt is flux, turbo or the default, in that order of
   * preference: the first attempt asks for flux, the position never goes back, and
   * from the fourth attempt on the default model is used, with no model in the URL.
   */
  lemma ImageModels(outputDir: string, width: nat, height: nat, prompt: string, index: nat, responses: seq<Outcome>)
    requires |responses| == RetryCount
    ensures var r := ImageOf(outputDir, width, height, prompt, index, responses);
            && |r.picks| == |r.urls| >= 1
            && r.urls[0] == BaseUrl(prompt, index, width, height) + "&model=flux" && r.picks[0] == 0
    ensures var r := ImageOf(outputDir, width, height, prompt, index, responses);
            forall k :: 0 <= k < |r.urls| ==>
              r.picks[k] < |Models| && r.urls[k] == ModelUrl(BaseUrl(prompt, index, width, height), Models[r.picks[k]])
    ensures var r := ImageOf(outputDir, width, height, prompt, index, responses);
            forall j, k :: 0 <= j <= k < |r.picks| ==> r.picks[j] <= r.picks[k]
    ensures var r := ImageOf(outputDir, width, height, prompt, index, responses);
            forall k :: 3 <= k < |r.urls| ==> r.picks[k] == 2 && r.urls[k] == BaseUrl(prompt, index, width, height)
  {
    TriesCount(responses, 0, 0);
    TriesPicks(responses, 0, 0);
  }

  /** Without a server error and without a 200, the models are flux, flux, turbo, default, default. */
  lemma PlainFailureModels(outputDir: string, width: nat, height: nat, prompt: string, index: nat, responses: seq<Outcome>)
    requires |responses| == RetryCount
    requires forall k :: 0 <= k < |responses| ==> !ServerError(responses[k]) && responses[k] != Status(200)
    ensures ImageOf(outputDir, width, height, prompt, index, responses).picks == [0, 0, 1, 2, 2]
  {
    assert Tries(responses, 4, 3).picks == [2];
    assert Tries(responses, 3, 2).picks == [2, 2];
    assert Tries(responses, 2, 1).picks == [1, 2, 2];
    assert Tries(responses, 1, 0).picks == [0, 1, 2, 2];
  }

  predicate NoSpace(s: string) { forall i :: 0 <= i < |s| ==> s[i] != ' ' }

  lemma NoSpaceAppend(a: string, b: string)
    requires NoSpace(a) && NoSpace(b)
    ensures NoSpace(a + b)
  {
    forall i | 0 <= i < |a + b| ensures (a + b)[i] != ' ' {
      if i >= |a| { assert (a + b)[i] == b[i - |a|]; }
    }
  }

  /** The base URL carries no space: the prompt's spaces are escaped and the numbers are digits. */
  lemma BaseUrlNoSpace(prompt: string, index: nat, width: nat, height: nat)
    ensures NoSpace(BaseUrl(prompt, index, width, height))
  {
    var w, h, seed := Digits(width), Digits(height), Digits(index);
    var p := SafePrompt(prompt);
    ReplaceCharRemoves(prompt, ' ', "%20");
    forall i | 0 <= i < |p| ensures p[i] != ' ' {
      if p[i] == ' ' { CountPositive(p, ' ', i); }
    }
    NoSpaceAppend(Host, p);
    NoSpaceAppend(Host + p, "?width=");
    NoSpaceAppend(Host + p + "?width=", w);
    NoSpaceAppend(Host + p + "?width=" + w, "&height=");
    NoSpaceAppend(Host + p + "?width=" + w + "&height=", h);
    NoSpaceAppend(Host + p + "?width=" + w + "&height=" + h, "&nologo=true&seed=");
    NoSpaceAppend(Host + p + "?width=" + w + "&height=" + h + "&nologo=true&seed=", seed);
  }

  /** The URL ends with the scene index as seed, which reads back as the index. */
  lemma BaseUrlSeed(prompt: string, index: nat, width: nat, height: nat)
    ensures var u := BaseUrl(prompt, index, width, height);
            var seed := Digits(index);
            |u| >= |seed| && u[|u| - |seed|..] == seed && ParseNat(u[|u| - |seed|..]) == index
  {
    ParseDigits(index);
  }

  /** Escaping the spaces of a prompt without '%' can be undone. */
  lemma {:induction false} SafePromptRoundTrip(s: string)
    requires Count(s, '%') == 0
    ensures Unescape(SafePrompt(s)) == s
    decreases |s|
  {
    if s != [] {
      SafePromptRoundTrip(s[1..]);
      var e := SafePrompt(s);
      if s[0] == ' ' {
        assert e == "%20" + SafePrompt(s[1..]);
        assert e[3..] == SafePrompt(s[1..]);
      } else {
        assert e == [s[0]] + SafePrompt(s[1..]);
        assert e[1..] == SafePrompt(s[1..]);
      }
    }
  }
}
