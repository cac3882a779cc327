/**
 * The script generator of src/generators/script.py: the sentence splitter, the
 * fallbacks that keep the pipeline going when the language model fails, the clean-up
 * of a fenced reply, and the model fallback chain of `_call_llm`. The language model
 * is an oracle `ask(model, request)` answering `None` where the call raises or times
 * out; `json.loads` is an oracle `parse`.
 */
module Script {
  import opened Wrappers
  import opened Strs

  // ------------------------------------------------------------ sentences

  /** The characters that may end a sentence. */
  predicate IsTerminator(c: char) { c == '.' || c == '!' || c == '?' }

  /** No whitespace at either end. */
  predicate Trimmed(s: string) { s == [] || (!IsSpace(s[0]) && !IsSpace(s[|s| - 1])) }

  /** A split point of `(?<=[.!?])[\s\n]+`: whitespace at `k` right after a terminator. */
  predicate BreakAt(t: string, k: nat)
    requires 0 < k < |t|
  {
    IsTerminator(t[k - 1]) && IsSpace(t[k])
  }

  /** No terminator inside the text is followed by whitespace. */
  predicate NoBreakInside(s: string) {
    forall k :: 0 < k < |s| ==> !BreakAt(s, k)
  }

  /** The first split point at or after `i`, or the length of `t` when there is none. */
  function BreakFrom(t: string, i: nat): (j: nat)
    requires i <= |t|
    ensures i <= j <= |t|
    ensures j < |t| ==> 0 < j && BreakAt(t, j)
    ensures forall k :: i <= k < j && 0 < k ==> !BreakAt(t, k)
    decreases |t| - i
  {
    if i == |t| then |t|
    else if 0 < i && BreakAt(t, i) then i
    else BreakFrom(t, i + 1)
  }

  /**
   * `re.split(r'(?<=[.!?])[\s\n]+', t)`: the text is cut at the first whitespace run
   * that follows a terminator, the whole run is dropped, and the rest is split again.
   */
  function SplitAfterTerminators(t: string): (ps: seq<string>)
    ensures |ps| >= 1
    decreases |t|
  {
    var j := BreakFrom(t, 0);
    if j == |t| then [t]
    else [t[..j]] + SplitAfterTerminators(StripLeft(t[j..]))
  }

  /** `[s.strip() for s in pieces if s.strip()]`. */
  function KeepStripped(ps: seq<string>): seq<string> {
    if ps == [] then []
    else (if Strip(ps[0]) != [] then [Strip(ps[0])] else []) + KeepStripped(ps[1..])
  }

  /** `_split_into_sentences(text)`. */
  function SplitIntoSentences(text: string): seq<string> {
    KeepStripped(SplitAfterTerminators(Strip(text)))
  }

  /** The sentences put back together with the whitespace runs that separated them. */
  function Interleave(ps: seq<string>, seps: seq<string>): string
    requires |ps| >= 1 && |seps| == |ps| - 1
  {
    if |ps| == 1 then ps[0] else ps[0] + seps[0] + Interleave(ps[1..], seps[1..])
  }

  /** What a sentence of the splitter looks like: non-empty, trimmed, with no split point inside. */
  predicate Sentence(s: string) {
    s != [] && Trimmed(s) && NoBreakInside(s)
  }

  /** The whitespace `lstrip` drops and what it keeps make up the input. */
  lemma StripLeftSplits(s: string)
    ensures s == s[..|s| - |StripLeft(s)|] + StripLeft(s)
    ensures AllSpace(s[..|s| - |StripLeft(s)|])
  {
    StripLeftSuffix(s);
    StripLeftDropsSpace(s);
  }

  /** The text ends with '.', '!' or '?'. */
  predicate EndsWithTerminator(s: string) { s != [] && IsTerminator(s[|s| - 1]) }

  /**
   * At the first split point of a non-empty trimmed text: the sentence before it, the
   * whitespace run dropped, and the non-empty trimmed remainder that is split next.
   */
  lemma BreakPieces(t: string) returns (ws: string)
    requires t != [] && Trimmed(t) && BreakFrom(t, 0) < |t|
    ensures var j := BreakFrom(t, 0);
            && Sentence(t[..j]) && EndsWithTerminator(t[..j])
            && ws != [] && AllSpace(ws)
            && StripLeft(t[j..]) != [] && Trimmed(StripLeft(t[j..]))
            && t == t[..j] + ws + StripLeft(t[j..])
  {
    BreakHead(t);
    ws := BreakTail(t);
  }

  /** The text before the first split point is a sentence ending with its terminator. */
  lemma BreakHead(t: string)
    requires t != [] && Trimmed(t) && BreakFrom(t, 0) < |t|
    ensures var j := BreakFrom(t, 0);
            Sentence(t[..j]) && EndsWithTerminator(t[..j])
  {
    var j := BreakFrom(t, 0);
    var piece := t[..j];
    assert piece[0] == t[0] && piece[j - 1] == t[j - 1];
    forall k | 0 < k < |piece| ensures !BreakAt(piece, k) {
      assert !BreakAt(t, k);
    }
  }

  /** From the first split point on: a whitespace run, then a non-empty trimmed remainder. */
  lemma BreakTail(t: string) returns (ws: string)
    requires t != [] && Trimmed(t) && BreakFrom(t, 0) < |t|
    ensures var j := BreakFrom(t, 0);
            && ws != [] && AllSpace(ws)
            && StripLeft(t[j..]) != [] && Trimmed(StripLeft(t[j..]))
            && t == t[..j] + ws + StripLeft(t[j..])
  {
    var j := BreakFrom(t, 0);
    var tail := t[j..];
    var rest := StripLeft(tail);
    ws := tail[..|tail| - |rest|];
    StripLeftSplits(tail);
    assert rest != [];
    assert rest[|rest| - 1] == t[|t| - 1] by {
      assert rest == tail[|tail| - |rest|..];
    }
    assert ws != [];
    assert t == t[..j] + tail;
  }

  /**
   * Splitting a non-empty trimmed text gives sentences with no split point inside, all
   * but the last ending with a terminator, and non-empty whitespace runs between them
   * that rebuild the text.
   */
  lemma {:induction false} SplitShape(t: string) returns (seps: seq<string>)
    requires t != [] && Trimmed(t)
    ensures |seps| == |SplitAfterTerminators(t)| - 1 && Interleave(SplitAfterTerminators(t), seps) == t
    ensures forall i :: 0 <= i < |SplitAfterTerminators(t)| ==> Sentence(SplitAfterTerminators(t)[i])
    ensures forall i :: 0 <= i < |SplitAfterTerminators(t)| - 1 ==> EndsWithTerminator(SplitAfterTerminators(t)[i])
    ensures forall i :: 0 <= i < |seps| ==> seps[i] != [] && AllSpace(seps[i])
    decreases |t|
  {
    var j := BreakFrom(t, 0);
    if j == |t| {
      seps := [];
    } else {
      var ws := BreakPieces(t);
      var rest := StripLeft(t[j..]);
      var more := SplitShape(rest);
      seps := [ws] + more;
      var ps := SplitAfterTerminators(t);
      var pr := SplitAfterTerminators(rest);
      assert ps == [t[..j]] + pr;
      assert ps[1..] == pr && seps[1..] == more;
      forall i | 0 < i < |ps| ensures Sentence(ps[i]) && (i < |ps| - 1 ==> EndsWithTerminator(ps[i])) {
        assert ps[i] == pr[i - 1];
      }
    }
  }

  /** Stripping and filtering change nothing in a list of sentences. */
  lemma {:induction false} KeepSentences(ps: seq<string>)
    requires forall i :: 0 <= i < |ps| ==> Sentence(ps[i])
    ensures KeepStripped(ps) == ps
    decreases |ps|
  {
    if ps != [] {
      StripOfStripped(ps[0]);
      KeepSentences(ps[1..]);
    }
  }

  /**
   * `_split_into_sentences` returns non-empty, trimmed sentences in which no terminator
   * is followed by whitespace; all but the last end with '.', '!' or '?'; and, put back
   * together with the non-empty whitespace runs the split removed, they give
   * `text.strip()`. A text with nothing but whitespace gives no sentence.
   */
  lemma SentencesShape(text: string) returns (seps: seq<string>)
    ensures var ss := SplitIntoSentences(text);
            && (ss == [] <==> Strip(text) == [])
            && (ss != [] ==> |seps| == |ss| - 1 && Interleave(ss, seps) == Strip(text))
    ensures forall i :: 0 <= i < |SplitIntoSentences(text)| ==> Sentence(SplitIntoSentences(text)[i])
    ensures forall i :: 0 <= i < |SplitIntoSentences(text)| - 1 ==> EndsWithTerminator(SplitIntoSentences(text)[i])
    ensures forall i :: 0 <= i < |seps| ==> seps[i] != [] && AllSpace(seps[i])
  {
    var t := Strip(text);
    StripEnds(text);
    if t == [] {
      seps := [];
      assert SplitAfterTerminators(t) == [t];
      assert Strip(t) == [];
      assert KeepStripped([t]) == [];
    } else {
      seps := SplitShape(t);
      KeepSentences(SplitAfterTerminators(t));
    }
  }

  // ------------------------------------------------------------ fenced replies

  const JsonFence: string := "```json"

  const Fence: string := "```"

  /** The fence clean-up of `_generate_prompts_for_sentences`. */
  function StripFences(response: string): string {
    if Contains(response, JsonFence) then
      assert |Split(response, JsonFence)| >= 2 by { SplitFirst(response, JsonFence); }
      Strip(Split(Split(response, JsonFence)[1], Fence)[0])
    else if Contains(response, Fence) then
      assert |Split(response, Fence)| >= 2 by { SplitFirst(response, Fence); }
      Strip(Split(Split(response, Fence)[1], Fence)[0])
    else response
  }

  /** The text after the first occurrence of `sep`. */
  function After(s: string, sep: string): string
    requires Contains(s, sep)
  {
    s[IndexOf(s, sep).value + |sep|..]
  }

  /** The text before the first occurrence of `sep`, or all of it. */
  function UpTo(s: string, sep: string): string {
    match IndexOf(s, sep)
    case None => s
    case Some(j) => s[..j]
  }

  /** The second piece of `split(sep)` is what lies between the first separator and the next. */
  lemma SecondPiece(s: string, sep: string)
    requires sep != [] && Contains(s, sep)
    ensures |Split(s, sep)| >= 2 && Split(s, sep)[1] == UpTo(After(s, sep), sep)
  {
    var r := IndexOf(s, sep);
    assert r.Some?;
    var rest := s[r.value + |sep|..];
    assert After(s, sep) == rest;
    assert Split(s, sep) == [s[..r.value]] + Split(rest, sep);
    SplitFirst(rest, sep);
  }

  /** What comes before the first separator holds no separator. */
  lemma UpToHasNone(s: string, sep: string)
    requires sep != []
    ensures !Contains(UpTo(s, sep), sep)
  {
    match IndexOf(s, sep)
    case None =>
    case Some(j) =>
      var u := s[..j];
      if Contains(u, sep) {
        var q: nat :| q <= |u| && OccursAt(u, sep, q);
        assert s[q..q + |sep|] == u[q..q + |sep|];
        assert OccursAt(s, sep, q);
      }
  }

  lemma SplitOfNone(s: string, sep: string)
    requires sep != [] && !Contains(s, sep)
    ensures Split(s, sep) == [s]
  {
  }

  /**
   * A reply with a "```json" fence becomes the text between that fence and the next
   * "```" (to the end if there is none), stripped, unless four or more backticks precede
   * a later "json", where the next "```" starts inside those backticks.
   */
  lemma StripFencesJson(response: string)
    requires Contains(response, JsonFence) && !Contains(After(response, JsonFence), LongJsonFence)
    ensures StripFences(response) == Strip(UpTo(After(response, JsonFence), Fence))
  {
    var a := After(response, JsonFence);
    SecondPiece(response, JsonFence);
    SplitFirst(UpTo(a, JsonFence), Fence);
    UpToJsonThenFence(a);
  }

  /** A "```json" fence with one more backtick in front of it. */
  const LongJsonFence: string := "````json"

  /**
   * Cutting at the first "```json" and then at the first "```" is cutting at the first
   * "```", as long as no "```" starts inside the backticks of a "```json".
   */
  lemma UpToJsonThenFence(a: string)
    requires !Contains(a, LongJsonFence)
    ensures UpTo(UpTo(a, JsonFence), Fence) == UpTo(a, Fence)
  {
    match IndexOf(a, JsonFence)
    case None =>
    case Some(j) =>
      assert OccursAt(a, Fence, j) by {
        assert a[j..j + 3] == a[j..j + 7][..3];
      }
      var f := IndexOf(a, Fence).value;
      FenceNotInside(a, f, j);
      UpToOfPrefix(a, Fence, j);
  }

  /** A "```" that starts at or before a "```json" starts where it does or ends before it. */
  lemma FenceNotInside(a: string, f: nat, j: nat)
    requires !Contains(a, LongJsonFence) && OccursAt(a, Fence, f) && OccursAt(a, JsonFence, j) && f <= j
    ensures f + |Fence| <= j || f == j
  {
    if f < j < f + 3 {
      assert a[j - 1] == a[f..f + 3][j - 1 - f];
      assert a[j - 1..j + 7] == [a[j - 1]] + a[j..j + 7];
      assert OccursAt(a, LongJsonFence, j - 1);
    }
  }

  /** Cutting a prefix at `p` cuts at the first `p` of the whole text when that one lies inside the prefix. */
  lemma UpToOfPrefix(a: string, p: string, j: nat)
    requires j <= |a| && p != []
    ensures UpTo(a[..j], p) == (match IndexOf(a, p)
                                case Some(f) => if f + |p| <= j then a[..f] else a[..j]
                                case None => a[..j])
  {
    var u := a[..j];
    forall q: nat | OccursAt(u, p, q) ensures OccursAt(a, p, q) {
      assert u[q..q + |p|] == a[q..q + |p|];
    }
    match IndexOf(a, p)
    case None =>
      assert !Contains(u, p);
    case Some(f) =>
      if f + |p| <= j {
        assert OccursAt(u, p, f) by {
          assert u[f..f + |p|] == a[f..f + |p|];
        }
        assert IndexOf(u, p).Some?;
      } else {
        assert !Contains(u, p);
      }
  }

  /**
   * A reply with "```" fences but no "```json" becomes the text between the first fence
   * and the next one (to the end if there is none), stripped.
   */
  lemma StripFencesPlain(response: string)
    requires !Contains(response, JsonFence) && Contains(response, Fence)
    ensures StripFences(response) == Strip(UpTo(After(response, Fence), Fence))
  {
    SecondPiece(response, Fence);
    UpToHasNone(After(response, Fence), Fence);
    SplitOfNone(UpTo(After(response, Fence), Fence), Fence);
  }

  /** A reply without a fence is left as it is. */
  lemma StripFencesNone(response: string)
    requires !Contains(response, Fence)
    ensures StripFences(response) == response
  {
    if Contains(response, JsonFence) {
      var i: nat :| i <= |response| && OccursAt(response, JsonFence, i);
      assert response[i..i + 3] == JsonFence[..3];
      assert OccursAt(response, Fence, i);
    }
  }

  // ------------------------------------------------------------ the model chain

  /** The models `_call_llm` tries, in order. */
  const Models: seq<string> := ["gpt-4", "gpt-3.5-turbo", "command-r+"]

  /** What the pipeline asks the model for; the prompt wording follows from it. */
  datatype Request = ViralTopic | Story(topic: string) | ScenePrompts(sentences: seq<string>)

  /** A truthy reply: present and non-empty. */
  predicate Truthy(reply: Option<string>) { reply.Some? && reply.value != [] }

  /** The answer of the first model from `k` on that gives a truthy reply, stripped. */
  function FirstReply(ask: (string, Request) -> Option<string>, request: Request, k: nat): Option<string>
    requires k <= |Models|
    decreases |Models| - k
  {
    if k == |Models| then None
    else if Truthy(ask(Models[k], request)) then Some(Strip(ask(Models[k], request).value))
    else FirstReply(ask, request, k + 1)
  }

  /** `_call_llm(prompt)`: each model in turn until one answers with something. */
  method CallLlm(ask: (string, Request) -> Option<string>, request: Request) returns (r: Option<string>)
    ensures r == FirstReply(ask, request, 0)
  {
    for k := 0 to |Models|
      invariant FirstReply(ask, request, 0) == FirstReply(ask, request, k)
    {
      var response := ask(Models[k], request);
      if response.Some? && response.value != [] {
        return Some(Strip(response.value));
      }
    }
    return None;
  }

  /**
   * `_call_llm` answers with the stripped reply of the first model, in the order gpt-4,
   * gpt-3.5-turbo, command-r+, whose reply is truthy, so a reply of only whitespace
   * gives ""; it answers `None` exactly when no model gives a truthy reply.
   */
  lemma {:induction false} FirstReplyChain(ask: (string, Request) -> Option<string>, request: Request, k: nat)
    requires k <= |Models|
    ensures FirstReply(ask, request, k).None? <==> forall m :: k <= m < |Models| ==> !Truthy(ask(Models[m], request))
    ensures FirstReply(ask, request, k).Some? ==>
              exists m :: k <= m < |Models| && Truthy(ask(Models[m], request))
                          && FirstReply(ask, request, k).value == Strip(ask(Models[m], request).value)
                          && forall m' :: k <= m' < m ==> !Truthy(ask(Models[m'], request))
    decreases |Models| - k
  {
    if k < |Models| && !Truthy(ask(Models[k], request)) {
      FirstReplyChain(ask, request, k + 1);
    }
  }

  // ------------------------------------------------------------ scripts

  /** A scene of the script: its narration and the prompt for its picture. */
  datatype ScriptScene = ScriptScene(text: string, imagePrompt: string)

  const DefaultConcept: string := "A random terrifying horror concept about the unknown"

  const DefaultViralTopic: string := "The room that shouldn't exist"

  const FallbackScene: ScriptScene := ScriptScene(
    "I hear them scratching behind the walls at night (Fallback).",
    "Hyper-realistic horror cinematic shot, 8k, dark moody lighting, shot on 35mm film, close up of a dirty wall with scratch marks")

  /** The style every fallback picture prompt starts with. */
  const PromptStyle: string := "Hyper-realistic horror cinematic shot, 8k, dark moody lighting, shot on 35mm film. "

  /** One scene per sentence with the fixed style in front of it. */
  function FallbackScenes(sentences: seq<string>): (scenes: seq<ScriptScene>)
    ensures |scenes| == |sentences|
  {
    seq(|sentences|, i requires 0 <= i < |sentences| => ScriptScene(sentences[i], PromptStyle + sentences[i]))
  }

  /** The fallback scenes are the sentences, in order, each with its picture prompt the style followed by the sentence. */
  lemma FallbackScenesFaithful(sentences: seq<string>, i: nat)
    requires i < |sentences|
    ensures FallbackScenes(sentences)[i].text == sentences[i]
    ensures FallbackScenes(sentences)[i].imagePrompt[..|PromptStyle|] == PromptStyle
    ensures FallbackScenes(sentences)[i].imagePrompt[|PromptStyle|..] == sentences[i]
  {
  }

  /** `generate_viral_topic()`. */
  function ViralTopicOf(ask: (string, Request) -> Option<string>): string {
    var topic := FirstReply(ask, ViralTopic, 0);
    if Truthy(topic) then topic.value else DefaultViralTopic
  }

  method GenerateViralTopic(ask: (string, Request) -> Option<string>) returns (topic: string)
    ensures topic == ViralTopicOf(ask)
  {
    var reply := CallLlm(ask, ViralTopic);
    if reply.Some? && reply.value != [] {
      return reply.value;
    }
    return DefaultViralTopic;
  }

  /** The topic is never empty: an empty or missing answer becomes "The room that shouldn't exist". */
  lemma ViralTopicNonEmpty(ask: (string, Request) -> Option<string>)
    ensures ViralTopicOf(ask) != []
    ensures !Truthy(FirstReply(ask, ViralTopic, 0)) ==> ViralTopicOf(ask) == DefaultViralTopic
  {
  }

  /** `_generate_prompts_for_sentences(sentences)`: the parsed reply, or the fallback scenes. */
  function PromptsFor(ask: (string, Request) -> Option<string>, parse: string -> Option<seq<ScriptScene>>,
                      sentences: seq<string>): seq<ScriptScene> {
    var response := FirstReply(ask, ScenePrompts(sentences), 0);
    if Truthy(response) && parse(StripFences(response.value)).Some? then parse(StripFences(response.value)).value
    else FallbackScenes(sentences)
  }

  method GeneratePromptsForSentences(ask: (string, Request) -> Option<string>, parse: string -> Option<seq<ScriptScene>>,
                                     sentences: seq<string>) returns (scenes: seq<ScriptScene>)
    ensures scenes == PromptsFor(ask, parse, sentences)
  {
    var response := CallLlm(ask, ScenePrompts(sentences));
    if response.Some? && response.value != [] {
      var cleaned := StripFences(response.value);
      var data := parse(cleaned);
      if data.Some? {
        return data.value;
      }
    }
    return FallbackScenes(sentences);
  }

  /** `generate_script(topic)`. */
  function ScriptFor(ask: (string, Request) -> Option<string>, parse: string -> Option<seq<ScriptScene>>,
                     topic: string): seq<ScriptScene> {
    var subject := if topic == [] then DefaultConcept else topic;
    var story := FirstReply(ask, Story(subject), 0);
    if !Truthy(story) then [FallbackScene]
    else PromptsFor(ask, parse, SplitIntoSentences(story.value))
  }

  method GenerateScript(ask: (string, Request) -> Option<string>, parse: string -> Option<seq<ScriptScene>>,
                        topic: string) returns (scenes: seq<ScriptScene>)
    ensures scenes == ScriptFor(ask, parse, topic)
  {
    var subject := topic;
    if subject == [] {
      subject := DefaultConcept;
    }
    var storyText := CallLlm(ask, Story(subject));
    if !(storyText.Some? && storyText.value != []) {
      return [FallbackScene];
    }
    var sentences := SplitIntoSentences(storyText.value);
    scenes := GeneratePromptsForSentences(ask, parse, sentences);
  }

  /**
   * An empty topic asks for a story about the default concept; a missing or blank story
   * gives exactly the one fallback scene; and when the prompts cannot be had or parsed,
   * the script is one fallback scene per sentence of the story.
   */
  lemma ScriptFallbacks(ask: (string, Request) -> Option<string>, parse: string -> Option<seq<ScriptScene>>, topic: string)
    ensures topic == [] ==> ScriptFor(ask, parse, topic) == ScriptFor(ask, parse, DefaultConcept)
    ensures !Truthy(FirstReply(ask, Story(if topic == [] then DefaultConcept else topic), 0)) ==>
              ScriptFor(ask, parse, topic) == [FallbackScene]
    ensures var story := FirstReply(ask, Story(if topic == [] then DefaultConcept else topic), 0);
            var sentences := if Truthy(story) then SplitIntoSentences(story.value) else [];
            var response := FirstReply(ask, ScenePrompts(sentences), 0);
            Truthy(story) && !(Truthy(response) && parse(StripFences(response.value)).Some?) ==>
              ScriptFor(ask, parse, topic) == FallbackScenes(sentences)
  {
  }
}
