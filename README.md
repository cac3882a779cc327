# Horror story video generator — a verified model of its core

The generator writes a short horror story with a language model, splits it into
sentences, asks for one image prompt per sentence, narrates the whole story with a
text-to-speech service, and synchronises each scene to the narration through the
WebVTT cue track. It then draws one picture per scene, lays karaoke-style captions
over each picture, and renders a vertical 1080×1920 video with optional background
music.

This project models the deterministic logic of that pipeline in Dafny and proves
properties about it. The modules, one per source file, are:

- `Sync` (`main.py`). Covers `normalize`, `vtt_to_sec`, and the greedy loop that
  matches scenes to cues.
  - The loop is a method that writes each scene's duration in place into an
    `array<SyncScene>`.
  - The method is proved against the specification function `Plan`.
- `Captions` (`src/video/text.py`). Covers the font fallback chain, the integer
  layout arithmetic of a caption image, the five-word chunker, and the
  proportional timing of karaoke captions.
  - Each loop of the source is a method proved against a function.
- `Composer` (`src/video/composer.py`). Covers:
  - the cover-crop geometry and the Ken Burns scale;
  - the clamp-and-opacity step of the vignette;
  - the plan of each scene segment;
  - background-music selection and fitting, and the render description.
- `Script` (`src/generators/script.py`). Covers:
  - the regex sentence splitter;
  - the code-fence stripper applied to language-model replies;
  - the chain that falls back from one model to the next;
  - the default and fallback scenes.
- `ImageGen` (`src/generators/image.py`). Covers the URL builder and the
  retry / model-rotation / back-off loop of `generate_image`, as a class
  `ImageGenerator`. The HTTP outcomes are an input sequence.
- `AudioGen` (`src/generators/audio.py`). Covers:
  - the output paths;
  - the conversion of SRT to WebVTT;
  - the routing of chunks from the speech stream to the audio file and to a
    `SubMaker` class.
- `Strs` models the Python string built-ins that the code relies on:
  - `str.isspace`, `strip` and `split()`;
  - `" ".join`, `replace`, `in` and `split(sep)`;
  - decimal integer text.
- `Config` holds the constants of `src/utils/config.py`.
- `Wrappers` holds the `Option` and `Result` types.

Conventions:
- A Python exception is modelled as `Err` of a `Result`, or as `None` where the
  source itself turns it into `None`.
- Floats are modelled as `real`.
- `int()` of a float is `Trunc`, which truncates toward zero.
- Services the code calls are function parameters that act as oracles:
  - the language model (`ask`) and `json.loads` (`parse`);
  - the file system (`isFile`, `sizeOf`, `lengthOf`);
  - text measurement (`Typesetter`);
  - the speech stream (`stream`, `srtOf`).

## Model

| member | source | states |
|---|---|---|
| Sync.Normalize | main.py:60-61 | the result holds only lower-case ASCII letters and digits and is no longer than the input |
| Sync.NormalizeAppend | main.py:60-61 | normalising a concatenation concatenates the normalised parts, so characters keep their original order |
| Sync.NormalizeChar | main.py:60-61 | one character normalises to its lower-case form when it is alphanumeric and to nothing otherwise |
| Sync.NormalizeAt | main.py:60-61 | every input character contributes in its own place: an alphanumeric one exactly its lower-case form, any other one nothing; with `NormalizeAppend` this fixes the result for every input |
| Sync.NormalizeKeeps | main.py:60-61 | every alphanumeric character of the input appears, lower-cased, in the result |
| Sync.NormalizeFrom | main.py:60-61 | every character of the result is the lower-case form of some alphanumeric input character |
| Sync.NormalizeFixes | main.py:60-61 | a text made only of lower-case letters and digits is its own normal form |
| Sync.NormalizeIdempotent | main.py:60-61 | normalising twice equals normalising once |
| Sync.ParseDecimal | main.py:65 | the model of `float()` on a decimal literal with an optional sign and surrounding whitespace, `Err` otherwise; its values are stated by `ParseUnsigned`, `Fraction`, `FractionOfThree` and `VttToSecOfTimestamp` |
| Sync.VttToSec | main.py:63-65 | the model of `vtt_to_sec`: split at ':', exactly three fields, each read by `float`, combined as h*3600 + m*60 + s, `Err` where Python raises; stated by `VttNeedsTwoColons`, `VttToSecFields` and `VttToSecOfTimestamp` |
| Sync.ParseUnsigned | main.py:65 | an unsigned decimal literal that `float` accepts reads as a non-negative number |
| Sync.Fraction | main.py:65 | the digits after the decimal point are worth at least 0 and less than 1 |
| Sync.FractionOfThree | main.py:65 | three digits after the point are thousandths (the `.ttt` of a cue time) |
| Sync.VttNeedsTwoColons | main.py:63-64 | a time without exactly two ':' makes `vtt_to_sec` raise, so the hours-omitted `mm:ss.ttt` form of WebVTT is an error |
| Sync.VttToSecFields | main.py:63-65 | for three colon-free fields that `ParseDecimal` accepts (signed decimal literals, the form of every cue time), `vtt_to_sec("H:M:S")` is H*3600 + M*60 + S |
| Sync.VttToSecOfTimestamp | main.py:63-65 | a cue time written `hh:mm:ss.ttt` (section 4.1 of the W3C WebVTT specification) reads back as hh*3600 + mm*60 + ss + ttt/1000 |
| Sync.ScanWith | main.py:80-98 | the inner loop never moves the cursor backwards or past the cue count, and it consumes at least one cue when any is left |
| Sync.ScanScene | main.py:80-98 | the cue scan for one normalised scene text keeps the cursor between its start and the cue count and advances it when cues are left |
| Sync.ScanCues | main.py:80-98 | the `while` loop raises exactly when the scan specification does; otherwise it returns the cursor, start and end that the specification gives |
| Sync.SpanScene | main.py:67-105 | a scene's cue range starts at the cursor; with cues left it consumes at least one cue and lasts max(1.0, end - start); with none left it lasts 3.0; the duration is always at least 1.0 |
| Sync.PlanFrom | main.py:67-105 | the plan gives exactly one span to every remaining scene |
| Sync.Plan | main.py:67-105 | the model of the whole scene loop: the spans of all scenes from cue 0, failing where `vtt_to_sec` raises; stated by `PlanShape`, `SceneStopsAtFirstMatch`, `LastSceneEndsAtLastCue`, `NoCuesAllFallback` and `PlanOkWhenWellFormed`, and implemented by `Synchronise` |
| Sync.MatchScene | main.py:67-105 | one pass of the scene loop agrees with `SpanScene`, including where `vtt_to_sec` raises |
| Sync.Completed | main.py:67-105 | the spans the scene loop finishes before `vtt_to_sec` raises, never more than there are scenes; stated by `CompletedIsPlan` |
| Sync.CompletedIsPlan | main.py:67-105 | the finished spans are the whole plan when it succeeds, and stop short of the last scene when it fails |
| Sync.Written | main.py:105 | the scenes once the durations of a run of spans are written from the first scene on: texts and image prompts kept, those durations set, later scenes untouched |
| Sync.Synchronise | main.py:57-105 | the loop fails exactly when the plan fails; the new array is the old one with the durations of the finished spans written from the first scene on and everything else unchanged, so on success every duration is the plan's and on failure the scenes before the failing one keep the durations already written |
| Sync.PlanShape | main.py:74-105 | cue ranges are consecutive from cue 0 (each cue consumed once, in order) and never pass the cue count; a scene begun with cues left consumes at least one and lasts max(1.0, end - start); otherwise it lasts 3.0; every duration is at least 1.0 |
| Sync.ScanStopsAtFirst | main.py:89-96 | for any accumulation step and stopping test, the scan stops at the first cue that meets the test and takes that cue's end; otherwise it runs out of cues and keeps the initial end |
| Sync.ScanSceneStopsAtFirst | main.py:89-96 | the same first-stop property for the source's own step `(acc + " " + text).strip()` and the test "contained in, or no longer than" |
| Sync.SceneStopsAtFirstMatch | main.py:72-98 | a scene other than the last stops at the first cue where its normalised text occurs in, or is no longer than, the normalised accumulation, and ends at that cue's end; otherwise the cues run out and its end stays 3.0 |
| Sync.LastSceneEndsAtLastCue | main.py:101-102 | the last scene, begun with cues left, ends at the end of the last cue and lasts max(1.0, end - start) |
| Sync.NoCuesAllFallback | main.py:104-105 | with an empty cue list the plan succeeds, never reads a cue, and gives every scene 3.0 |
| Sync.AccumulateKeepsInk | main.py:89 | the accumulation keeps any non-blank text that it had or was given |
| Sync.AccumulateKeepsAllInk | main.py:89 | the source's accumulation step keeps non-blank text for every input |
| Sync.StartFixedOnceInked | main.py:84-89 | once the buffer holds non-blank text, the scene start never moves |
| Sync.StartAtFirstCue | main.py:84-86 | a scene whose first cue has text starts at that cue's start |
| Sync.BlankLeadingCueSkipped | main.py:85-89 | a leading blank cue leaves the buffer empty and does not fix the start: the scan equals the scan from the next cue |
| Sync.ScanOkWhenWellFormed | main.py:80-98 | the inner loop cannot raise when every cue time is well formed |
| Sync.PlanOkWhenWellFormed | main.py:67-105 | the matcher fails only on a malformed cue time |
| Sync.TimestampTrackWellFormed | main.py:63-65 | a track whose times are all written `hh:mm:ss.ttt` is well formed, so the matcher cannot fail on it |
| Captions.FindFont | src/video/text.py:18-31 | the model of `_find_font`; its fallback chain is stated by `FindFontChain` |
| Captions.FindFontChain | src/video/text.py:18-31 | `_find_font` returns the named font if that file exists, else the first `.ttf` in the fonts directory, else `arialbd.ttf` |
| Captions.NewTextEngine | src/video/text.py:9-16 | the engine keeps the given size and stroke width, and its font path comes from the fallback chain |
| Captions.DefaultTextEngine | src/video/text.py:9-16 | the default engine has size 70, stroke 4, and the first `.ttf` or `arialbd.ttf` as its font |
| Captions.WrapWidth | src/video/text.py:46-48 | the wrap width is missing exactly for font size 0 (the division raises) and is otherwise at least 10 |
| Captions.WrapWidthValue | src/video/text.py:46-48 | for a positive size the wrap width is max(10, int(max_width / (fontsize*0.5))) |
| Captions.LineSpacingValue | src/video/text.py:61 | line spacing is a fifth of the font size, rounded down |
| Captions.MaxOf | src/video/text.py:63 | like Python's `max`, the result is one of the elements and at least every element |
| Captions.MeasureLines | src/video/text.py:53-59 | the loop collects each line's box width and height, in line order |
| Captions.PlaceLines | src/video/text.py:73-96 | each line is drawn at x = (img_width - w)//2 and y = 20 + the heights of the earlier lines + one spacing each |
| Captions.TextImage | src/video/text.py:33-102 | the model of `_create_pil_text_image` on wrapped lines and their boxes, `None` where it catches an exception; stated by `WrapWidth`, `LayoutCentred`, `LayoutLastLine`, `LayoutInside` and `LayoutExists` |
| Captions.CreateTextImage | src/video/text.py:33-102 | the method computes the specification `TextImage`: a canvas, or none where PIL raises |
| Captions.LayoutCentred | src/video/text.py:62-82 | the image is at least max_width wide and at least 40 wider than every line; every line's x offset is at least 20, and its left and right margins differ by at most 1 |
| Captions.LayoutLastLine | src/video/text.py:62-96 | the last line ends 20 pixels above the bottom of the image, so total_height = sum of heights + (n-1)*spacing + 40 |
| Captions.LayoutInside | src/video/text.py:62-96 | every line lies vertically inside the image, with at least 20 pixels above and below |
| Captions.LayoutExists | src/video/text.py:62-67 | with well-formed boxes, an image exists for every non-empty set of lines; with no lines it exists exactly when the negative height 40 - spacing is not below zero |
| Captions.CaptionClip | src/video/text.py:104-114 | a clip exists exactly when the caption image does; it shows that image for the given duration, centred, with a 0.1 s fade-in |
| Captions.CreateCaptionClip | src/video/text.py:104-114 | the method computes `CaptionClip` |
| Captions.Chunks | src/video/text.py:116-121 | groups of `max_words` words joined by single spaces; stated by `ChunkCount`, `ChunksJoin`, `ChunkSizes` and `SumCharsOfChunks`, and implemented by `SplitTextIntoChunks` |
| Captions.ChunkCount | src/video/text.py:116-121 | there are no chunks exactly when there are no words; otherwise there are ceil(words / max_words) chunks |
| Captions.SplitTextIntoChunks | src/video/text.py:116-121 | the loop over `range(0, len(words), max_words)` yields `Chunks(text.split(), max_words)` |
| Captions.ChunksJoin | src/video/text.py:116-121 | joining the chunks with single spaces equals joining `text.split()` with single spaces |
| Captions.ChunkSizes | src/video/text.py:116-121 | every chunk has between 1 and max_words words, and all but the last have exactly max_words |
| Captions.SumCharsOfChunks | src/video/text.py:189-190 | the chunks' non-space character counts add up to the total length of the words |
| Captions.TotalChars | src/video/text.py:183-184 | the character total used for timing is positive |
| Captions.ChunkCharsOfText | src/video/text.py:183-190 | when chunks exist, their counts add up to the text's non-whitespace count, which is positive and at most the count with ' ' removed, and equal to it when ' ' is the only whitespace |
| Captions.ChunkDurationsSum | src/video/text.py:183-191 | when chunks exist, the `total_chars == 0` guard is unreachable; the durations sum to at most the total, and exactly to it when ' ' is the only whitespace |
| Captions.ElapsedIsShare | src/video/text.py:187-199 | the time taken by a run of chunks is their character share of the total duration |
| Captions.ElapsedBounds | src/video/text.py:187-199 | a share of at most all the characters takes at most the total duration, and all of them take exactly the total |
| Captions.TimeChunks | src/video/text.py:186-199 | the loop gives each rendered chunk a clip that starts at the summed durations of all earlier chunks (failed ones included) and lasts its proportional share |
| Captions.TimedChunkOrder | src/video/text.py:187-199 | the timed clips are exactly the rendered chunks in chunk order, each the clip of its own chunk index |
| Captions.RenderedExactly | src/video/text.py:194-197 | the indices kept are strictly increasing, and they are exactly the chunks whose image rendered |
| Captions.TimedEmptyIff | src/video/text.py:194-202 | there are no timed clips exactly when every chunk's render failed |
| Captions.BlankTextNoCaptions | src/video/text.py:179-181 | blank or whitespace-only text yields no chunks, and then the karaoke clip is `None` |
| Captions.KaraokeNoneIff | src/video/text.py:179-210 | `create_karaoke_clip` returns `None` exactly when every chunk's render fails (or there are no chunks) |
| Captions.Karaoke | src/video/text.py:175-210 | the model of `create_karaoke_clip`; stated by `BlankTextNoCaptions`, `KaraokeNoneIff`, `ChunkDurationsSum`, `TimedChunkOrder` and `ElapsedIsShare`, and implemented by `CreateKaraokeClip` |
| Captions.CreateKaraokeClip | src/video/text.py:175-210 | the method computes `Karaoke`: `None`, or the timed clips in chunk order |
| Captions.GenerateSubtitles | src/video/text.py:123-173 | the loop over scenes (default text "", default duration 2) concatenates each scene's timed chunk clips and skips scenes without chunks |
| Composer.ResizeToFill | src/video/composer.py:14-50 | the model of `resize_to_fill`, with the aspect ratios compared by cross-multiplication; stated by `ResizeToFillCovers`, `WiderScaled` and `NarrowerScaled` |
| Composer.WiderScaled | src/video/composer.py:25-28 | for a source wider than the target, int(target_h * img_aspect) is at least target_w |
| Composer.NarrowerScaled | src/video/composer.py:38-41 | for a source no wider than the target, int(target_w / img_aspect) is at least target_h |
| Composer.ResizeToFillCovers | src/video/composer.py:14-50 | the crop window is exactly target_w by target_h, lies inside the scaled image and is centred in it; the wider branch keeps the height, the other keeps the width |
| Composer.ZoomScale | src/video/composer.py:60-63 | the model of `resize_func`, 1 + (zoom_ratio - 1) * (t / duration); stated by `ZoomScaleEnds` and `ZoomScaleMonotone` |
| Composer.ZoomScaleEnds | src/video/composer.py:60-63 | the Ken Burns scale is 1 at t = 0 and zoom_ratio at t = duration, and constantly 1 when zoom_ratio is 1 |
| Composer.ZoomScaleMonotone | src/video/composer.py:60-63 | the scale never decreases over time when zoom_ratio is at least 1 |
| Composer.VignetteAlphaRange | src/video/composer.py:89-101 | alpha is 0 at the centre, and between 0 and the corner value, which is at most 255 |
| Composer.VignetteAlphaMonotone | src/video/composer.py:89-101 | alpha never decreases as the falloff grows |
| Composer.LayersFaithful | src/video/composer.py:127-174 | segment i shows scene i's image, cropped to 1080×1920, for `scene.get('duration', 3.0)`, with zoom 1.15 and opacity 0.7; audio is attached iff the path is non-empty and exists; the captioned layer has the clip's duration, and a scene without captions passes through unchanged |
| Composer.VideoDuration | src/video/composer.py:165-176 | the concatenated video lasts the sum of the scene durations |
| Composer.CaptionSegments | src/video/composer.py:164-174 | the captions loop keeps scene order, layering each scene's karaoke clips over its segment |
| Composer.SelectBgmAsWritten | src/video/composer.py:183-188 | the music choice as written, raising `NameError` on the explicit-path branch; stated by `SelectBgmAsWrittenRaises` |
| Composer.SelectBgmAsWrittenRaises | src/video/composer.py:183-188 | with music enabled and an existing explicit path, the code as written raises because `Path` is undefined |
| Composer.SelectBgm | src/video/composer.py:183-188 | the music choice as evidently intended; stated by `SelectBgmChoice` |
| Composer.SelectBgmChoice | src/video/composer.py:183-188 | no music unless enabled; otherwise the explicit path if it exists, else an element of the pool, else none; off the explicit branch it agrees with the code as written |
| Composer.FitBgm | src/video/composer.py:195-201 | the loop-or-trim step and the gain `BGM_VOLUME` in force, a parameter; stated by `FitBgmMatchesVideo` |
| Composer.FitBgmMatchesVideo | src/video/composer.py:195-201 | the music plays for exactly the video's duration, looped iff the file is shorter and trimmed otherwise, at the given gain |
| Composer.Assemble | src/video/composer.py:118-221 | the model of `assemble_video` with `ENABLE_BGM` and `BGM_VOLUME` as parameters and the explicit music path taken as intended (as written that branch raises `NameError`, see Findings); stated by `LayersFaithful`, `VideoDuration` and `RenderDurations` |
| Composer.AssembleVideo | src/video/composer.py:118-221 | the method computes `Assemble` with captions from a default `TextEngine()` (composer.py:160-161) and the `ENABLE_BGM` and `BGM_VOLUME` settings in force: the layered segments, the fitted music and the output path; for an existing explicit music file it follows the corrected choice, where the code as written raises `NameError` |
| Composer.RenderDurations | src/video/composer.py:176-221 | the render lasts the sum of the scene durations; with music switched off there is none; otherwise music is present exactly when one is chosen, lasts as long as the video and plays at the given `BGM_VOLUME`; the output is `OUTPUT_DIR/output_filename` at 24 fps |
| Script.SplitIntoSentences | src/generators/script.py:72-76 | the model of `_split_into_sentences`; stated by `SentencesShape` |
| Script.BreakFrom | src/generators/script.py:75 | the next split point is the first position after '.', '!' or '?' that begins a whitespace run |
| Script.SplitAfterTerminators | src/generators/script.py:75 | `re.split` always returns at least one piece |
| Script.SplitShape | src/generators/script.py:75 | the pieces, rejoined with the removed non-empty whitespace runs, rebuild the stripped text; no piece contains a break, and every piece but the last ends with '.', '!' or '?' |
| Script.KeepSentences | src/generators/script.py:76 | the filter keeps every piece that is already a trimmed non-empty sentence |
| Script.SentencesShape | src/generators/script.py:72-76 | the sentences are non-empty, trimmed and break-free; all but the last end with a terminator; in order and rejoined with the removed whitespace they rebuild `text.strip()` |
| Script.SecondPiece | src/generators/script.py:107-109 | `s.split(sep)[1]` is the text after the first separator, up to the next one |
| Script.StripFences | src/generators/script.py:103-109 | the model of the fence cleaning of a reply; stated by `StripFencesJson`, `StripFencesPlain` and `StripFencesNone` |
| Script.StripFencesJson | src/generators/script.py:106-107 | a reply with "```json" yields the text between the first "```json" and the next "```", stripped |
| Script.UpToJsonThenFence | src/generators/script.py:107 | splitting at "```json" and then at "```" equals splitting at "```" |
| Script.StripFencesPlain | src/generators/script.py:108-109 | a reply with "```" but no "```json" yields the text between the first two fences, stripped |
| Script.StripFencesNone | src/generators/script.py:106-109 | a reply without a fence is unchanged |
| Script.FirstReply | src/generators/script.py:121-145 | the model of `_call_llm` from model k on; stated by `FirstReplyChain`, and implemented by `CallLlm` |
| Script.CallLlm | src/generators/script.py:121-145 | the loop over the models computes `FirstReply`: it returns at the first truthy reply |
| Script.FirstReplyChain | src/generators/script.py:121-145 | the result is `None` iff no model gives a truthy reply; otherwise it is the stripped reply of the first model, in the order gpt-4, gpt-3.5-turbo, command-r+, that gives one |
| Script.FallbackScenes | src/generators/script.py:117-119 | there is one fallback scene per sentence |
| Script.FallbackScenesFaithful | src/generators/script.py:117-119 | fallback scene i has text sentence i, and its prompt is the fixed style prefix followed by sentence i |
| Script.GenerateViralTopic | src/generators/script.py:11-27 | the method returns the model's topic, or the default |
| Script.ViralTopicNonEmpty | src/generators/script.py:26-27 | the topic is never empty, and it is "The room that shouldn't exist" when no model answers |
| Script.GeneratePromptsForSentences | src/generators/script.py:78-119 | the method returns the parsed scenes of the fence-stripped reply, or the fallback scenes |
| Script.GenerateScript | src/generators/script.py:29-57 | the method computes `ScriptFor`: default concept, then story, sentences and prompts |
| Script.ScriptFallbacks | src/generators/script.py:35-55 | an empty topic becomes the default concept; no story gives exactly the one fallback scene; a story whose prompts fail gives one fallback scene per sentence |
| ImageGen.Pick | src/generators/image.py:46 | the model position `min(idx, len(models)-1)` always names one of the three models |
| ImageGen.ImageGenerator.constructor | src/generators/image.py:8-12 | the generator writes to the temp directory at 1080×1920 |
| ImageGen.ImageGenerator.GenerateImage | src/generators/image.py:14-84 | the retry loop computes `ImageOf`: the attempts made, their models, URLs and waits, and the black fallback |
| ImageGen.Tries | src/generators/image.py:40-76 | the attempt schedule from a given attempt and model position; stated by `TriesCount`, `TriesSaved`, `TriesWaits` and `TriesPicks` |
| ImageGen.ImageOf | src/generators/image.py:14-84 | what `generate_image` does for given HTTP outcomes; stated by `ImageAttempts`, `ImageBlack`, `ImageModels` and `PlainFailureModels`, and implemented by `ImageGenerator.GenerateImage` |
| ImageGen.TriesCount | src/generators/image.py:34-40 | from attempt a on, between 1 and 5 - a attempts are made, with one wait fewer than attempts |
| ImageGen.TriesSaved | src/generators/image.py:40-60 | the picture is saved iff the last attempt made got a 200; no earlier attempt got one; without a save, every remaining attempt is made |
| ImageGen.TriesWaits | src/generators/image.py:70-72 | the wait after failed attempt k is 3*(k+1) seconds |
| ImageGen.TriesPicks | src/generators/image.py:46-76 | the first model is `Pick(idx)`; positions are among the three models, never decrease, and are the default from attempt 3 on |
| ImageGen.ImageAttempts | src/generators/image.py:19-72 | the path is `scene_{index}.jpg` in the output directory; at most 5 attempts; the wait after failed attempt k is 3*(k+1), with none after the last |
| ImageGen.ImageBlack | src/generators/image.py:40-84 | the fallback picture is black iff no attempt got a 200; then all 5 attempts were made; otherwise the last attempt made got the 200 and the function returned there |
| ImageGen.ImageModels | src/generators/image.py:32-49 | the first URL asks for flux; every URL is the base URL plus `&model=m` for that attempt's model; positions never decrease; from the fourth attempt on there is no model parameter |
| ImageGen.PlainFailureModels | src/generators/image.py:64-76 | with only non-5xx failures, the models are flux, flux, turbo, default, default |
| ImageGen.BaseUrl | src/generators/image.py:24-27 | the base URL of every attempt; stated by `BaseUrlNoSpace`, `BaseUrlSeed` and `SafePromptRoundTrip` |
| ImageGen.BaseUrlNoSpace | src/generators/image.py:24-27 | the base URL contains no space |
| ImageGen.BaseUrlSeed | src/generators/image.py:27 | the URL ends with the scene index as seed, which reads back as the index |
| ImageGen.SafePromptRoundTrip | src/generators/image.py:24 | for a prompt without '%', undoing the "%20" escape gives the prompt back, so only spaces were replaced |
| AudioGen.VoiceoverPath | src/generators/audio.py:18 | the voiceover path `TEMP_DIR/scene_{index}.mp3`; used by `VoiceoverOf` |
| AudioGen.PathsShareStem | src/generators/audio.py:34-35 | the audio and subtitle paths are `dir/filename` followed by `.mp3` and `.vtt` |
| AudioGen.VoiceoverOf | src/generators/audio.py:13-27 | a failed synthesis re-raises its error; a successful one returns `dir/scene_{index}.mp3` |
| AudioGen.SrtToVtt | src/generators/audio.py:50-56 | the model of the SRT to WebVTT conversion; stated by `SrtToVttShape` and `SrtTimestampConverted` |
| AudioGen.SrtToVttShape | src/generators/audio.py:50-56 | the VTT text is "WEBVTT\n\n" followed by the SRT text with every ',' replaced by '.', 8 characters longer, and without any ',' |
| AudioGen.SrtTimestampConverted | src/generators/audio.py:56 | an SRT time `hh:mm:ss,ttt` becomes the WebVTT `hh:mm:ss.ttt`, which `vtt_to_sec` reads as the right number of seconds |
| AudioGen.AudioData | src/generators/audio.py:41-44 | the bytes written to the audio file, chunk after chunk; stated by `AudioDataIsPieces` and `SameAudioPieces` |
| AudioGen.AudioDataIsPieces | src/generators/audio.py:41-44 | the audio file is the in-order concatenation of the data of the audio chunks |
| AudioGen.SameAudioPieces | src/generators/audio.py:41-46 | chunks of other types do not affect the audio file |
| AudioGen.BoundariesInOrder | src/generators/audio.py:41-46 | the boundaries fed chunk after chunk equal the stream filtered front to back to its word-boundary chunks: all of them, in stream order, each as often as it occurs |
| AudioGen.BoundariesExact | src/generators/audio.py:45-46 | every word boundary of the stream is fed, only word boundaries are fed, and there are no more than there are chunks |
| AudioGen.SubMaker.constructor | src/generators/audio.py:39 | a new subtitle maker holds no boundaries |
| AudioGen.SubMaker.Feed | src/generators/audio.py:46 | feeding appends one boundary |
| AudioGen.GenerateFullNarration | src/generators/audio.py:29-65 | the audio file gets every audio chunk's data, in order; a stream error is re-raised and no subtitle file is written; otherwise the paths are returned and the subtitle file is the VTT conversion of the SRT built from the fed boundaries |
| Strs.StripShape | src/generators/script.py:75 | `strip` removes exactly a whitespace prefix and a whitespace suffix |
| Strs.StripEmptyIff | src/generators/script.py:76 | a stripped string is empty iff the string is blank |
| Strs.WordsOfJoin | src/video/text.py:117-120 | `split()` of words joined by single spaces gives the words back |
| Strs.SumLensOfWords | src/video/text.py:117 | the words of `split()` hold exactly the non-whitespace characters |
| Strs.ParseDigits | src/generators/image.py:27 | a number's decimal text reads back as that number |
| Strs.TruncQuotient | src/video/text.py:47 | `int(a / b)` of naturals is integer division |

## Left out

- Pixels, fonts and media are not modelled. This covers PIL drawing and `textwrap.wrap`, `font.getbbox`, and moviepy's resize, crop, composite, concatenation, `audio_loop` and `write_videofile`. Only sizes, positions and durations are carried.
- Line wrapping and glyph boxes are parameters (`Typesetter`), so the model does not check that a wrapped line fits the wrap width.
- The stroke, shadow and colour drawing inside the layout loop is not modelled.
- A caption image whose font fails to load and falls back to PIL's default font is not modelled as its own path.
- Floats are modelled as exact reals.
  - IEEE rounding of durations, aspect ratios and character shares is not modelled.
  - Aspect ratios are compared by cross-multiplying the integer sizes.
- Composer.ResizeToFill: requires positive image sizes. A zero-height image divides by zero in the source, and that case is not modelled.
- Composer.VignetteAlphaRange: the vignette mask is not modelled. This covers `linspace`, `sqrt`, `** 2.5` and the array shapes. Only the clamp-times-opacity-times-255 step over an abstract falloff value is modelled, and only its bounds and monotonicity are stated.
- Sync.ParseDecimal: models `float()` only on decimal literals with an optional sign and surrounding whitespace. Exponents ("1e3"), "inf" and "nan", underscores ("1_000") and non-ASCII digits are accepted by Python but give `Err` here, so on such fields `vtt_to_sec` returns a number where the model raises. Cue times as written in a WebVTT track never take these forms.
- Composer.AssembleVideo: the explicit-music branch is the corrected one (see ## Findings). As written, `assemble_video` raises `NameError` when music is enabled and the explicit file exists, and nothing in it catches the error.
- The first `concatenate_videoclips` in `assemble_video` is not modelled: its result is overwritten before use.
- `main.py` calls `assemble_video` with a `master_audio_path` argument that the method does not accept. Its scenes also lack the `'audio'` key that `assemble_video` reads. This call path fails, and the model gives it no meaning. The compositor is modelled as `app.py` calls it, with the music switch and volume that `app.py` writes into `Config` as parameters; `Config.EnableBgm` and `Config.BgmVolume` hold their defaults.
- The Streamlit front end (`app.py`), the cleanup and logging utilities, directory creation and `syntax_check.py` are not modelled.
- The network and AI clients are oracles. The language model is `ask`, `json.loads` is `parse`, and the image service is a sequence of HTTP outcomes.
  - The outcomes do not depend on the URL.
  - A failure while reading the body of a 200 response is counted as a raised attempt.
  - The speech stream is a sequence of chunks plus an optional error, and edge_tts's `get_srt` is the oracle `srtOf`.
- The prompt texts sent to the language model are abstracted into the `Request` datatype.
- `webvtt.read` is not modelled: cues arrive as records of start text, end text and caption text.
- Time-outs, sleeps, the asyncio event loop, HTTP headers, logging and the voice setting are not modelled. For the image back-off, only the computed wait is kept.
- AudioGen.GenerateFullNarration: a failing stream is modelled as the chunks received before the failure plus the error. Errors from opening or writing either file are not modelled.
- ImageGen.ImageGenerator.GenerateImage: the scene index is a natural number. Negative indices, which the pipeline never passes, are not modelled.
- ImageGen.SafePromptRoundTrip: holds only for prompts without '%'. The escape itself replaces only spaces for every prompt.
- Captions.SplitTextIntoChunks: requires `maxWords > 0`. `range` with step 0 raises, and every caller passes 5.
- Sync.Normalize: `isalnum` and `lower` are modelled for ASCII only. Non-ASCII letters and digits are dropped rather than kept, and `NormalizeChar`, `NormalizeAt`, `NormalizeKeeps` and `NormalizeFrom` state the ASCII behaviour.
- Script.StripFencesJson: excludes replies whose text after the first "```json" contains "````json". In such a reply, the second split at "```" stops inside the longer fence. The function `StripFences` itself models every reply.
- `random.choice` is modelled as `pool[pick % |pool|]` for an arbitrary `pick`.

## Findings

| source | as written | input that shows it | evidently intended | confidence | as-written member | corrected member |
|---|---|---|---|---|---|---|
| src/video/composer.py:186 | `bgm_path = Path(specific_bgm_path)`, but `Path` is never imported in this file, so the branch raises `NameError` | music enabled and an existing `specific_bgm_path`, as the Streamlit front end passes for an uploaded track | use the given file as the background music | not executed | Composer.SelectBgmAsWrittenRaises | Composer.SelectBgmChoice |
