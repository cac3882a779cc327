/**
 * The compositor of src/video/composer.py: the cover-crop arithmetic of
 * `resize_to_fill`, the Ken Burns zoom factor, the vignette's alpha step, the
 * per-scene segment plan of `assemble_video`, the caption overlay, and the choice and
 * fitting of the background music. Pixels and sound are not modelled: a segment
 * carries its image, its crop window, its duration and the effects applied to it.
 */
module Composer {
  import opened Wrappers
  import opened Strs
  import Config
  import Captions

  // ------------------------------------------------------------ cover crop

  /**
   * The result of `resize_to_fill`: the image scaled to `scaledW` x `scaledH`, then
   * cropped to the window of `width` x `height` whose top-left corner is `(x1, y1)`.
   */
  datatype Crop = Crop(scaledW: int, scaledH: int, x1: real, y1: real, width: int, height: int)

  /**
   * `resize_to_fill` for a `w` x `h` image and a `targetW` x `targetH` frame. The aspect
   * ratios are compared exactly, by cross-multiplying, where the source compares two
   * floating-point quotients.
   */
  function ResizeToFill(w: nat, h: nat, targetW: nat, targetH: nat): Crop
    requires w > 0 && h > 0 && targetH > 0
  {
    if w * targetH > targetW * h then
      var newW := Trunc(targetH as real * (w as real / h as real));
      Crop(newW, targetH, newW as real / 2.0 - targetW as real / 2.0, 0.0, targetW, targetH)
    else
      var newH := Trunc(targetW as real / (w as real / h as real));
      Crop(targetW, newH, 0.0, newH as real / 2.0 - targetH as real / 2.0, targetW, targetH)
  }

  /** `resize_to_fill` into the video frame. */
  function FillFrame(w: nat, h: nat): Crop
    requires w > 0 && h > 0
  {
    ResizeToFill(w, h, Config.VideoWidth, Config.VideoHeight)
  }

  lemma WiderScaled(w: nat, h: nat, targetW: nat, targetH: nat)
    requires w > 0 && h > 0 && targetH > 0 && w * targetH > targetW * h
    ensures Trunc(targetH as real * (w as real / h as real)) >= targetW
  {
    var x := targetH as real * (w as real / h as real);
    assert x == (w * targetH) as real / h as real;
    assert (w * targetH) as real > (targetW * h) as real;
    assert x > targetW as real;
  }

  lemma NarrowerScaled(w: nat, h: nat, targetW: nat, targetH: nat)
    requires w > 0 && h > 0 && w * targetH <= targetW * h
    ensures Trunc(targetW as real / (w as real / h as real)) >= targetH
  {
    var x := targetW as real / (w as real / h as real);
    DivByRatio(targetW as real, w as real, h as real);
    assert (w * targetH) as real <= (targetW * h) as real;
    assert (w * targetH) as real == w as real * targetH as real;
    assert (targetW * h) as real == targetW as real * h as real;
    AtMostQuotient(w as real, targetH as real, targetW as real * h as real);
    TruncAtLeast(x, targetH);
  }

  lemma DivByRatio(a: real, b: real, c: real)
    requires b > 0.0 && c > 0.0
    ensures a / (b / c) == (a * c) / b
  {
  }

  lemma AtMostQuotient(d: real, q: real, p: real)
    requires d > 0.0 && d * q <= p
    ensures q <= p / d
  {
  }

  lemma TruncAtLeast(x: real, n: nat)
    requires x >= n as real
    ensures Trunc(x) >= n
  {
    assert x < Trunc(x) as real + 1.0;
    assert (n as real) < (Trunc(x) + 1) as real;
  }

  /**
   * The crop window is exactly the frame, it lies inside the scaled image, and it is
   * centred: a wider image keeps its height and loses equal strips left and right, any
   * other keeps its width and loses equal strips top and bottom.
   */
  lemma ResizeToFillCovers(w: nat, h: nat, targetW: nat, targetH: nat)
    requires w > 0 && h > 0 && targetH > 0
    ensures var c := ResizeToFill(w, h, targetW, targetH);
            && c.width == targetW && c.height == targetH
            && c.scaledW >= targetW && c.scaledH >= targetH
            && 0.0 <= c.x1 && c.x1 + targetW as real <= c.scaledW as real
            && 0.0 <= c.y1 && c.y1 + targetH as real <= c.scaledH as real
            && c.x1 + targetW as real + c.x1 == c.scaledW as real
            && c.y1 + targetH as real + c.y1 == c.scaledH as real
            && (w * targetH > targetW * h ==> c.scaledH == targetH && c.y1 == 0.0)
            && (w * targetH <= targetW * h ==> c.scaledW == targetW && c.x1 == 0.0)
  {
    if w * targetH > targetW * h {
      WiderScaled(w, h, targetW, targetH);
    } else {
      NarrowerScaled(w, h, targetW, targetH);
    }
  }

  // ------------------------------------------------------------ Ken Burns

  /** The zoom `apply_ken_burns` is called with by `assemble_video`. */
  const KenBurnsZoom: real := 1.15

  /** The vignette opacity `assemble_video` asks for. */
  const VignetteOpacity: real := 0.7

  /** `resize_func(t)`: the scale at time `t` of a clip lasting `duration`, growing linearly. */
  function ZoomScale(zoom: real, duration: real, t: real): real
    requires duration > 0.0
  {
    1.0 + (zoom - 1.0) * (t / duration)
  }

  /** The zoom starts at scale 1, reaches `zoom` at the end, and is constant 1 for a zoom of 1. */
  lemma ZoomScaleEnds(zoom: real, duration: real, t: real)
    requires duration > 0.0
    ensures ZoomScale(zoom, duration, 0.0) == 1.0
    ensures ZoomScale(zoom, duration, duration) == zoom
    ensures zoom == 1.0 ==> ZoomScale(zoom, duration, t) == 1.0
  {
  }

  /** For a zoom of at least 1 the scale never shrinks as time goes on. */
  lemma ZoomScaleMonotone(zoom: real, duration: real, t1: real, t2: real)
    requires duration > 0.0 && zoom >= 1.0 && t1 <= t2
    ensures ZoomScale(zoom, duration, t1) <= ZoomScale(zoom, duration, t2)
  {
    assert t1 / duration <= t2 / duration;
    MulLeftMonotone(zoom - 1.0, t1 / duration, t2 / duration);
  }

  lemma DivMonotone(a: real, b: real, d: real)
    requires a <= b && d > 0.0
    ensures a / d <= b / d
  {
  }

  lemma MulLeftMonotone(k: real, a: real, b: real)
    requires k >= 0.0 && a <= b
    ensures k * a <= k * b
  {
  }

  // ------------------------------------------------------------ vignette

  function Clamp01(x: real): real { if x < 0.0 then 0.0 else if x > 1.0 then 1.0 else x }

  /**
   * The alpha byte of the vignette at a point whose falloff (the radius to the power 2.5)
   * is `falloff`: `uint8(clip(falloff, 0, 1) * opacity * 255)`.
   */
  function VignetteAlpha(falloff: real, opacity: real): (a: int)
    requires 0.0 <= opacity <= 1.0
  {
    Trunc(Clamp01(falloff) * opacity * 255.0)
  }

  /**
   * The vignette is clear at the centre, fits a byte, and is nowhere darker than at the
   * corners, where the falloff reaches 1 and the alpha is `opacity` of full.
   */
  lemma VignetteAlphaRange(falloff: real, opacity: real)
    requires 0.0 <= opacity <= 1.0
    ensures VignetteAlpha(0.0, opacity) == 0
    ensures 0 <= VignetteAlpha(falloff, opacity) <= VignetteAlpha(1.0, opacity) <= 255
  {
    assert Clamp01(0.0) == 0.0 && Clamp01(1.0) == 1.0;
    ZeroAlpha(opacity);
    AlphaMonotone(Clamp01(falloff), 1.0, opacity);
  }

  lemma ZeroAlpha(opacity: real)
    ensures Trunc(0.0 * opacity * 255.0) == 0
  {
    assert 0.0 * opacity == 0.0;
    assert 0.0 * 255.0 == 0.0;
  }

  /** Under a larger falloff the vignette is at least as dark. */
  lemma VignetteAlphaMonotone(f1: real, f2: real, opacity: real)
    requires 0.0 <= opacity <= 1.0 && f1 <= f2
    ensures VignetteAlpha(f1, opacity) <= VignetteAlpha(f2, opacity)
  {
    var c1, c2 := Clamp01(f1), Clamp01(f2);
    assert c1 <= c2;
    AlphaMonotone(c1, c2, opacity);
  }

  lemma AlphaMonotone(c1: real, c2: real, opacity: real)
    requires 0.0 <= c1 <= c2 && 0.0 <= opacity <= 1.0
    ensures 0 <= Trunc(c1 * opacity * 255.0) <= Trunc(c2 * opacity * 255.0)
    ensures c2 <= 1.0 ==> Trunc(c2 * opacity * 255.0) <= 255
  {
    AlphaOrder(c1, c2, opacity);
    TruncMonotone(c1 * opacity * 255.0, c2 * opacity * 255.0);
    if c2 <= 1.0 {
      TruncMonotone(c2 * opacity * 255.0, 255.0);
    }
  }

  lemma AlphaOrder(c1: real, c2: real, opacity: real)
    requires 0.0 <= c1 <= c2 && 0.0 <= opacity <= 1.0
    ensures 0.0 <= c1 * opacity * 255.0 <= c2 * opacity * 255.0
    ensures c2 <= 1.0 ==> c2 * opacity * 255.0 <= 255.0
  {
    var k := opacity * 255.0;
    assert 0.0 <= k <= 255.0;
    assert c1 * opacity * 255.0 == k * c1 && c2 * opacity * 255.0 == k * c2;
    MulLeftMonotone(k, c1, c2);
    MulLeftMonotone(k, 0.0, c1);
    if c2 <= 1.0 {
      MulLeftMonotone(k, c2, 1.0);
      assert k * 1.0 == k;
      assert c2 * opacity * 255.0 <= k;
    }
  }

  lemma TruncMonotone(a: real, b: real)
    requires 0.0 <= a <= b
    ensures 0 <= Trunc(a) <= Trunc(b)
  {
    var ta, tb := Trunc(a), Trunc(b);
    assert ta as real <= a && b < tb as real + 1.0;
    assert ta as real < (tb + 1) as real;
  }

  // ------------------------------------------------------------ segments

  /** A scene as `assemble_video` reads it; `duration` is optional and `audio` may be unset. */
  datatype Scene = Scene(image: string, audio: Option<string>, text: string, duration: Option<real>)

  /** The size of an image file. */
  datatype Size = Size(w: nat, h: nat)

  /** One scene's picture: the cropped image, how long it shows, its zoom, its vignette and its voice-over. */
  datatype Segment = Segment(image: string, crop: Crop, duration: real, zoom: real, vignette: real, audio: Option<string>)

  /** A segment with the caption clips laid over it, lasting as long as the segment. */
  datatype Layered = Layered(base: Segment, captions: seq<Captions.Clip>, duration: real)

  /** `scene.get('duration', 3.0)`. */
  function SceneDuration(s: Scene): real {
    if s.duration.Some? then s.duration.value else 3.0
  }

  /** `audio_path and os.path.exists(audio_path)`. */
  predicate HasAudio(s: Scene, isFile: string -> bool) {
    s.audio.Some? && s.audio.value != "" && isFile(s.audio.value)
  }

  /** The segment the first loop of `assemble_video` builds for a scene. */
  function SegmentOf(s: Scene, size: Size, isFile: string -> bool): (g: Segment)
    requires size.w > 0 && size.h > 0
  {
    Segment(s.image, FillFrame(size.w, size.h), SceneDuration(s), KenBurnsZoom, VignetteOpacity,
            if HasAudio(s, isFile) then s.audio else None)
  }

  /** The segment with its captions, or unchanged when `create_karaoke_clip` gives nothing. */
  function LayeredOf(g: Segment, captions: Option<seq<Captions.Clip>>): Layered {
    if captions.Some? && captions.value != [] then Layered(g, captions.value, g.duration)
    else Layered(g, [], g.duration)
  }

  predicate SizesPositive(scenes: seq<Scene>, sizeOf: string -> Size) {
    forall i :: 0 <= i < |scenes| ==> sizeOf(scenes[i].image).w > 0 && sizeOf(scenes[i].image).h > 0
  }

  /** The captioned segments of all scenes, in scene order. */
  function Layers(scenes: seq<Scene>, sizeOf: string -> Size, isFile: string -> bool,
                  render: string -> Option<Captions.Canvas>): seq<Layered>
    requires SizesPositive(scenes, sizeOf)
  {
    seq(|scenes|, i requires 0 <= i < |scenes| =>
          var g := SegmentOf(scenes[i], sizeOf(scenes[i].image), isFile);
          LayeredOf(g, Captions.Karaoke(render, scenes[i].text, g.duration)))
  }

  function TotalDuration(ls: seq<Layered>): real {
    if ls == [] then 0.0 else TotalDuration(ls[..|ls| - 1]) + ls[|ls| - 1].duration
  }

  function SumSceneDurations(scenes: seq<Scene>): real {
    if scenes == [] then 0.0 else SumSceneDurations(scenes[..|scenes| - 1]) + SceneDuration(scenes[|scenes| - 1])
  }

  /**
   * Every scene becomes one segment, in order: its picture fills the frame, it lasts the
   * scene's duration or 3 seconds, it zooms to 1.15 under a 0.7 vignette, it carries the
   * scene's audio exactly when the path is set and the file exists, and its captions,
   * when there are any, are exactly `create_karaoke_clip`'s, the composite lasting as
   * long as the segment.
   */
  lemma LayersFaithful(scenes: seq<Scene>, sizeOf: string -> Size, isFile: string -> bool,
                       render: string -> Option<Captions.Canvas>, i: nat)
    requires SizesPositive(scenes, sizeOf) && i < |scenes|
    ensures var l := Layers(scenes, sizeOf, isFile, render)[i];
            var s := scenes[i];
            && |Layers(scenes, sizeOf, isFile, render)| == |scenes|
            && l.base.image == s.image
            && l.base.crop.width == Config.VideoWidth && l.base.crop.height == Config.VideoHeight
            && l.base.duration == l.duration == (if s.duration.Some? then s.duration.value else 3.0)
            && l.base.zoom == 1.15 && l.base.vignette == 0.7
            && (l.base.audio.Some? <==> s.audio.Some? && s.audio.value != "" && isFile(s.audio.value))
            && (l.base.audio.Some? ==> l.base.audio == s.audio)
            && (Captions.Karaoke(render, s.text, l.duration).Some? ==> l.captions == Captions.Karaoke(render, s.text, l.duration).value)
            && (Captions.Karaoke(render, s.text, l.duration).None? ==> l.captions == [])
  {
  }

  /** The video lasts as long as its scenes together, each at its own or the 3-second default duration. */
  lemma {:induction false} VideoDuration(scenes: seq<Scene>, sizeOf: string -> Size, isFile: string -> bool,
                                         render: string -> Option<Captions.Canvas>)
    requires SizesPositive(scenes, sizeOf)
    ensures TotalDuration(Layers(scenes, sizeOf, isFile, render)) == SumSceneDurations(scenes)
    decreases |scenes|
  {
    if scenes != [] {
      var n := |scenes| - 1;
      var p := scenes[..n];
      VideoDuration(p, sizeOf, isFile, render);
      assert Layers(scenes, sizeOf, isFile, render)[..n] == Layers(p, sizeOf, isFile, render);
    }
  }

  // ------------------------------------------------------------ background music

  /**
   * The music file chosen as written: the explicit-path branch calls `Path`, which
   * composer.py never imports, so it raises a `NameError`. `pick` stands for
   * `random.choice`.
   */
  function SelectBgmAsWritten(enable: bool, specific: Option<string>, isFile: string -> bool,
                              pool: seq<string>, pick: nat): Result<Option<string>> {
    if !enable then Ok(None)
    else if specific.Some? && specific.value != "" && isFile(specific.value) then Err("name 'Path' is not defined")
    else if pool != [] then Ok(Some(pool[pick % |pool|]))
    else Ok(None)
  }

  /** An uploaded music file that exists makes `assemble_video` fail as written. */
  lemma SelectBgmAsWrittenRaises(isFile: string -> bool, path: string, pool: seq<string>, pick: nat)
    requires path != "" && isFile(path)
    ensures SelectBgmAsWritten(true, Some(path), isFile, pool, pick).Err?
  {
  }

  /** The music file chosen as evidently intended: the explicit path itself. */
  function SelectBgm(enable: bool, specific: Option<string>, isFile: string -> bool,
                     pool: seq<string>, pick: nat): Option<string> {
    if !enable then None
    else if specific.Some? && specific.value != "" && isFile(specific.value) then specific
    else if pool != [] then Some(pool[pick % |pool|])
    else None
  }

  /**
   * No music unless it is enabled; otherwise an existing explicit path wins, then some
   * file of the pool, and there is none only when both are missing. Apart from the
   * explicit-path branch the corrected choice is the one written.
   */
  lemma SelectBgmChoice(enable: bool, specific: Option<string>, isFile: string -> bool, pool: seq<string>, pick: nat)
    ensures var r := SelectBgm(enable, specific, isFile, pool, pick);
            var explicit := specific.Some? && specific.value != "" && isFile(specific.value);
            && (r.Some? ==> enable && (r == specific || r.value in pool))
            && (!enable ==> r.None?)
            && (enable && explicit ==> r == specific)
            && (enable && !explicit && pool != [] ==> r.Some? && r.value in pool)
            && (r.None? <==> !enable || (!explicit && pool == []))
            && (!(enable && explicit) ==> SelectBgmAsWritten(enable, specific, isFile, pool, pick) == Ok(r))
  {
  }

  /**
   * The music as mixed: `length` is the file's own duration, `duration` what is played,
   * looped when the file is shorter than the video and trimmed from its start otherwise,
   * at gain `gain`.
   */
  datatype Bgm = Bgm(path: string, length: real, duration: real, looped: bool, gain: real)

  /**
   * The loop-or-trim step and the volume of `assemble_video`. `gain` is `BGM_VOLUME`
   * as read when the video is assembled: `Config.BgmVolume` unless the user interface
   * has set it from its slider.
   */
  function FitBgm(path: string, length: real, videoDuration: real, gain: real): Bgm {
    if length < videoDuration then Bgm(path, length, videoDuration, true, gain)
    else Bgm(path, length, videoDuration, false, gain)
  }

  /**
   * The music always lasts exactly as long as the video; it is looped exactly when the
   * file is shorter, a trimmed file plays only what it holds, and the configured gain is
   * applied.
   */
  lemma FitBgmMatchesVideo(path: string, length: real, videoDuration: real, gain: real)
    ensures var b := FitBgm(path, length, videoDuration, gain);
            && b.duration == videoDuration
            && b.path == path && b.length == length
            && (b.looped <==> length < videoDuration)
            && (!b.looped ==> b.duration <= b.length)
            && b.gain == gain
  {
  }

  // ------------------------------------------------------------ the render

  /** The default output file name. */
  const DefaultOutput: string := "final_video.mp4"

  /** What `assemble_video` renders: where, the captioned segments in order, the length, the music and the frame rate. */
  datatype Render = Render(path: string, layers: seq<Layered>, duration: real, bgm: Option<Bgm>, fps: int)

  /**
   * `assemble_video`, with the explicit music path taken as evidently intended.
   * `enableBgm` and `gain` are `ENABLE_BGM` and `BGM_VOLUME` as read at that moment.
   */
  function Assemble(scenes: seq<Scene>, sizeOf: string -> Size, isFile: string -> bool, lengthOf: string -> real,
                    render: string -> Option<Captions.Canvas>, outputDir: string, outputFilename: string,
                    enableBgm: bool, gain: real, specificBgm: Option<string>, pool: seq<string>, pick: nat): Render
    requires SizesPositive(scenes, sizeOf)
  {
    var layers := Layers(scenes, sizeOf, isFile, render);
    var duration := TotalDuration(layers);
    var bgm := SelectBgm(enableBgm, specificBgm, isFile, pool, pick);
    Render(JoinPath(outputDir, outputFilename), layers, duration,
           if bgm.Some? then Some(FitBgm(bgm.value, lengthOf(bgm.value), duration, gain)) else None,
           Config.Fps)
  }

  /**
   * `assemble_video`: builds the segments, lays each scene's captions over its segment,
   * chooses and fits the music, and names the output file. `sizeOf`, `isFile` and
   * `lengthOf` report the image sizes, which files exist and audio lengths. The
   * captions come from a fresh `TextEngine()` with every argument defaulted, whose font
   * is found among `ttfs`, the `*.ttf` files of `fontsDir`; `ts` measures its text.
   * `enableBgm` and `gain` are the `ENABLE_BGM` and `BGM_VOLUME` settings in force. The
   * explicit music path is taken as evidently intended (see `SelectBgmAsWritten`).
   */
  method AssembleVideo(scenes: seq<Scene>, sizeOf: string -> Size, isFile: string -> bool, lengthOf: string -> real,
                       fontsDir: string, ttfs: seq<string>, ts: Captions.Typesetter,
                       outputDir: string, outputFilename: string,
                       enableBgm: bool, gain: real, specificBgm: Option<string>, pool: seq<string>, pick: nat)
    returns (r: Render)
    requires SizesPositive(scenes, sizeOf)
    ensures r == Assemble(scenes, sizeOf, isFile, lengthOf,
                          Captions.Renderer(Captions.DefaultTextEngine(fontsDir, isFile, ttfs), ts),
                          outputDir, outputFilename, enableBgm, gain, specificBgm, pool, pick)
  {
    var videoClips: seq<Segment> := [];
    for i := 0 to |scenes|
      invariant |videoClips| == i
      invariant forall j :: 0 <= j < i ==> videoClips[j] == SegmentOf(scenes[j], sizeOf(scenes[j].image), isFile)
    {
      var scene := scenes[i];
      var duration := SceneDuration(scene);
      var size := sizeOf(scene.image);
      var crop := FillFrame(size.w, size.h);
      var audio := None;
      if scene.audio.Some? && scene.audio.value != "" && isFile(scene.audio.value) {
        audio := scene.audio;
      }
      videoClips := videoClips + [Segment(scene.image, crop, duration, KenBurnsZoom, VignetteOpacity, audio)];
    }
    var engine := Captions.DefaultTextEngine(fontsDir, isFile, ttfs);
    var clipsWithText := CaptionSegments(videoClips, scenes, engine, ts);
    ghost var layers := Layers(scenes, sizeOf, isFile, Captions.Renderer(engine, ts));
    assert clipsWithText == layers;
    var duration := TotalDuration(clipsWithText);
    var bgmPath := SelectBgm(enableBgm, specificBgm, isFile, pool, pick);
    var bgm: Option<Bgm> := None;
    if bgmPath.Some? {
      var length := lengthOf(bgmPath.value);
      var fitted := Bgm(bgmPath.value, length, duration, false, 1.0);
      if length < duration {
        fitted := fitted.(looped := true);
      }
      bgm := Some(fitted.(gain := gain));
    }
    r := Render(JoinPath(outputDir, outputFilename), clipsWithText, duration, bgm, Config.Fps);
  }

  /** The second loop of `assemble_video`: each segment with its scene's captions laid over it. */
  method CaptionSegments(videoClips: seq<Segment>, scenes: seq<Scene>, engine: Captions.TextEngine, ts: Captions.Typesetter)
    returns (clipsWithText: seq<Layered>)
    requires |videoClips| == |scenes|
    ensures |clipsWithText| == |scenes|
    ensures forall i :: 0 <= i < |scenes| ==>
              clipsWithText[i] == LayeredOf(videoClips[i], Captions.Karaoke(Captions.Renderer(engine, ts), scenes[i].text, videoClips[i].duration))
  {
    clipsWithText := [];
    for i := 0 to |scenes|
      invariant |clipsWithText| == i
      invariant forall j :: 0 <= j < i ==>
                  clipsWithText[j] == LayeredOf(videoClips[j], Captions.Karaoke(Captions.Renderer(engine, ts), scenes[j].text, videoClips[j].duration))
    {
      var clip := videoClips[i];
      var textClips := Captions.CreateKaraokeClip(engine, ts, scenes[i].text, clip.duration);
      if textClips.Some? && textClips.value != [] {
        clipsWithText := clipsWithText + [Layered(clip, textClips.value, clip.duration)];
      } else {
        clipsWithText := clipsWithText + [Layered(clip, [], clip.duration)];
      }
    }
  }

  /**
   * The rendered video lasts as long as its scenes together, the music, when there is
   * any, lasts exactly as long as the video at the configured gain, there is none when
   * music is switched off, and the file is written into the output directory under the
   * requested name at the configured frame rate.
   */
  lemma RenderDurations(scenes: seq<Scene>, sizeOf: string -> Size, isFile: string -> bool, lengthOf: string -> real,
                        render: string -> Option<Captions.Canvas>, outputDir: string, outputFilename: string,
                        enableBgm: bool, gain: real, specificBgm: Option<string>, pool: seq<string>, pick: nat)
    requires SizesPositive(scenes, sizeOf)
    ensures var r := Assemble(scenes, sizeOf, isFile, lengthOf, render, outputDir, outputFilename,
                              enableBgm, gain, specificBgm, pool, pick);
            && r.duration == SumSceneDurations(scenes)
            && (!enableBgm ==> r.bgm.None?)
            && (r.bgm.Some? ==> r.bgm.value.duration == r.duration && r.bgm.value.gain == gain)
            && (r.bgm.Some? <==> SelectBgm(enableBgm, specificBgm, isFile, pool, pick).Some?)
            && r.path == outputDir + "/" + outputFilename
            && r.fps == 24
  {
    VideoDuration(scenes, sizeOf, isFile, render);
  }
}
