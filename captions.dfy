/**
 * The caption engine of src/video/text.py: the font fallback chain, the layout
 * arithmetic of a caption image, the five-word chunker and the proportional timing
 * of the chunks. Font loading, `textwrap.wrap` and the font's `getbbox` are taken as
 * a given `Typesetter`; drawing is reduced to where each line is placed.
 */
module Captions {
  import opened Wrappers
  import opened Strs
  import Config

  // ------------------------------------------------------------ the engine

  /** The font path used when neither the requested font nor any `.ttf` file is found. */
  const FallbackFont: string := "arialbd.ttf"

  const DefaultFontSize: int := 70

  const DefaultStrokeWidth: int := 4

  /** The words per caption chunk used by `create_karaoke_clip` and `generate_subtitles`. */
  const ChunkWords: nat := 5

  /** The fade-in every caption clip gets. */
  const CaptionFadeIn: real := 0.1

  /** A `TextEngine` as its constructor leaves it. */
  datatype TextEngine = TextEngine(fontPath: string, fontsize: int, color: string, strokeColor: string, strokeWidth: int)

  /**
   * `_find_font`: the requested font in the fonts directory if it is named and exists,
   * else the first `.ttf` file the directory lists, else the bare fallback name.
   * `isFile` tells which paths exist and `ttfs` is the directory's `*.ttf` listing.
   */
  function FindFont(fontsDir: string, fontName: string, isFile: string -> bool, ttfs: seq<string>): string {
    var specific := JoinPath(fontsDir, fontName);
    if fontName != "" && isFile(specific) then specific
    else if ttfs != [] then ttfs[0]
    else FallbackFont
  }

  /**
   * The fallback chain of `_find_font`: the result is always one of the three
   * candidates, an existing requested font wins, a listed `.ttf` comes next, and the
   * fallback name is the answer only when both are missing.
   */
  lemma FindFontChain(fontsDir: string, fontName: string, isFile: string -> bool, ttfs: seq<string>)
    ensures var r := FindFont(fontsDir, fontName, isFile, ttfs);
            var specific := JoinPath(fontsDir, fontName);
            && (r == specific || r in ttfs || r == FallbackFont)
            && (fontName != "" && isFile(specific) ==> r == specific)
            && (!(fontName != "" && isFile(specific)) && ttfs != [] ==> r == ttfs[0])
            && (!(fontName != "" && isFile(specific)) && ttfs == [] ==> r == FallbackFont)
  {
  }

  /** `TextEngine(font_name, fontsize, ...)`: the font path comes from `_find_font`. */
  function NewTextEngine(fontsDir: string, fontName: string, isFile: string -> bool, ttfs: seq<string>,
                         fontsize: int, color: string, strokeColor: string, strokeWidth: int): (e: TextEngine)
    ensures e.fontPath == FindFont(fontsDir, fontName, isFile, ttfs)
    ensures e.fontsize == fontsize && e.strokeWidth == strokeWidth
  {
    TextEngine(FindFont(fontsDir, fontName, isFile, ttfs), fontsize, color, strokeColor, strokeWidth)
  }

  /** `TextEngine()` with every argument defaulted: no font name, size 70, white on a black stroke of 4. */
  function DefaultTextEngine(fontsDir: string, isFile: string -> bool, ttfs: seq<string>): (e: TextEngine)
    ensures e.fontsize == DefaultFontSize && e.strokeWidth == DefaultStrokeWidth
    ensures e.fontPath == (if ttfs != [] then ttfs[0] else FallbackFont)
  {
    NewTextEngine(fontsDir, "", isFile, ttfs, DefaultFontSize, "white", "black", DefaultStrokeWidth)
  }

  // ------------------------------------------------------------ layout

  /** A line's bounding box as the font's `getbbox` reports it. */
  datatype BBox = BBox(left: int, top: int, right: int, bottom: int)

  function Width(b: BBox): int { b.right - b.left }

  function Height(b: BBox): int { b.bottom - b.top }

  /**
   * What the loaded font contributes: `textwrap.wrap(text, width)` and `font.getbbox(line)`.
   */
  datatype Typesetter = Typesetter(wrap: (string, int) -> seq<string>, bbox: string -> BBox)

  /** A line of text drawn with its top-left corner at `(x, y)`. */
  datatype Placed = Placed(line: string, x: int, y: int)

  /** The transparent caption image: its size and where each line is drawn. */
  datatype Canvas = Canvas(width: int, height: int, placed: seq<Placed>)

  /**
   * The wrap width `int(max_width / (fontsize * 0.5))`, raised to at least 10; `None`
   * where `fontsize` is 0 and the division raises (the caller's `except` turns it into
   * a missing image).
   */
  function WrapWidth(fontsize: int, maxWidth: int): (r: Option<int>)
    ensures r.None? <==> fontsize == 0
    ensures r.Some? ==> r.value >= 10
  {
    if fontsize == 0 then None
    else
      var w := Trunc(maxWidth as real / (fontsize as real * 0.5));
      Some(if w < 10 then 10 else w)
  }

  /** For a positive font size the wrap width is `max(10, 2 * max_width / fontsize)` in integers. */
  lemma WrapWidthValue(fontsize: nat, maxWidth: nat)
    requires fontsize > 0
    ensures WrapWidth(fontsize, maxWidth) == Some(Max(10, 2 * maxWidth / fontsize))
  {
    assert maxWidth as real / (fontsize as real * 0.5) == (2 * maxWidth) as real / fontsize as real;
    TruncQuotient(2 * maxWidth, fontsize);
  }

  function Max(a: int, b: int): int { if a >= b then a else b }

  /** `int(fontsize * 0.2)`. */
  function LineSpacing(fontsize: int): int {
    Trunc(fontsize as real * 0.2)
  }

  /** For a non-negative font size the line spacing is a fifth of it, rounded down. */
  lemma LineSpacingValue(fontsize: nat)
    ensures LineSpacing(fontsize) == fontsize / 5
  {
    assert fontsize as real * 0.2 == fontsize as real / 5 as real;
    TruncQuotient(fontsize, 5);
  }

  function Sum(xs: seq<int>): int {
    if xs == [] then 0 else Sum(xs[..|xs| - 1]) + xs[|xs| - 1]
  }

  /** Python's `max` of a non-empty list. */
  function MaxOf(xs: seq<int>): (m: int)
    requires xs != []
    ensures forall i :: 0 <= i < |xs| ==> xs[i] <= m
    ensures exists i :: 0 <= i < |xs| && xs[i] == m
  {
    if |xs| == 1 then xs[0]
    else
      var m := MaxOf(xs[..|xs| - 1]);
      assert forall i :: 0 <= i < |xs| - 1 ==> xs[..|xs| - 1][i] == xs[i];
      Max(m, xs[|xs| - 1])
  }

  function Widths(bbox: string -> BBox, lines: seq<string>): (ws: seq<int>)
    ensures |ws| == |lines| && forall i :: 0 <= i < |lines| ==> ws[i] == Width(bbox(lines[i]))
  {
    seq(|lines|, i requires 0 <= i < |lines| => Width(bbox(lines[i])))
  }

  function Heights(bbox: string -> BBox, lines: seq<string>): (hs: seq<int>)
    ensures |hs| == |lines| && forall i :: 0 <= i < |lines| ==> hs[i] == Height(bbox(lines[i]))
  {
    seq(|lines|, i requires 0 <= i < |lines| => Height(bbox(lines[i])))
  }

  /** `max(max_width, max(line_widths) + 40)`, with 0 for the widest line when there are none. */
  function CanvasWidth(maxWidth: int, widths: seq<int>): int {
    Max(maxWidth, (if widths == [] then 0 else MaxOf(widths)) + 40)
  }

  /** `sum(line_heights) + (len(lines) - 1) * line_spacing + 40`. */
  function CanvasHeight(heights: seq<int>, spacing: int): int {
    Sum(heights) + (|heights| - 1) * spacing + 40
  }

  /** The `y_offset` of line `i`: 20, then each earlier line's height plus the spacing. */
  function LineTop(heights: seq<int>, spacing: int, i: nat): int
    requires i <= |heights|
  {
    20 + Sum(heights[..i]) + i * spacing
  }

  /**
   * The image `_create_pil_text_image` draws for wrapped `lines`: `None` where the
   * computed size is negative and `Image.new` raises.
   */
  function Layout(lines: seq<string>, bbox: string -> BBox, spacing: int, maxWidth: int): Option<Canvas> {
    var widths := Widths(bbox, lines);
    var heights := Heights(bbox, lines);
    var w := CanvasWidth(maxWidth, widths);
    var h := CanvasHeight(heights, spacing);
    if w < 0 || h < 0 then None
    else Some(Canvas(w, h, seq(|lines|, i requires 0 <= i < |lines| =>
                                 Placed(lines[i], (w - widths[i]) / 2, LineTop(heights, spacing, i)))))
  }

  /** `_create_pil_text_image(text, max_width)`. */
  function TextImage(engine: TextEngine, ts: Typesetter, text: string, maxWidth: int): Option<Canvas> {
    var ww := WrapWidth(engine.fontsize, maxWidth);
    if ww.None? then None
    else Layout(ts.wrap(text, ww.value), ts.bbox, LineSpacing(engine.fontsize), maxWidth)
  }

  /** `_create_pil_text_image`: measures every wrapped line, sizes the canvas and places the lines top to bottom. */
  method CreateTextImage(engine: TextEngine, ts: Typesetter, text: string, maxWidth: int) returns (img: Option<Canvas>)
    ensures img == TextImage(engine, ts, text, maxWidth)
  {
    var wrapWidth := WrapWidth(engine.fontsize, maxWidth);
    if wrapWidth.None? {
      return None;
    }
    var lines := ts.wrap(text, wrapWidth.value);
    var lineWidths, lineHeights := MeasureLines(ts.bbox, lines);
    var spacing := LineSpacing(engine.fontsize);
    var totalHeight := Sum(lineHeights) + (|lines| - 1) * spacing + 40;
    var maxLineWidth := if lineWidths != [] then MaxOf(lineWidths) else 0;
    var imgWidth := Max(maxWidth, maxLineWidth + 40);
    if imgWidth < 0 || totalHeight < 0 {
      return None;
    }
    var placed := PlaceLines(lines, lineWidths, lineHeights, spacing, imgWidth);
    return Some(Canvas(imgWidth, totalHeight, placed));
  }

  /** The sizes of the wrapped lines, one `getbbox` each. */
  method MeasureLines(bbox: string -> BBox, lines: seq<string>) returns (lineWidths: seq<int>, lineHeights: seq<int>)
    ensures lineWidths == Widths(bbox, lines) && lineHeights == Heights(bbox, lines)
  {
    lineWidths, lineHeights := [], [];
    for i := 0 to |lines|
      invariant |lineWidths| == i && |lineHeights| == i
      invariant forall j :: 0 <= j < i ==> lineWidths[j] == Width(bbox(lines[j])) && lineHeights[j] == Height(bbox(lines[j]))
    {
      var box := bbox(lines[i]);
      lineWidths := lineWidths + [Width(box)];
      lineHeights := lineHeights + [Height(box)];
    }
  }

  /** The drawing loop: each line centred across the image, below the previous one and the spacing. */
  method PlaceLines(lines: seq<string>, lineWidths: seq<int>, lineHeights: seq<int>, spacing: int, imgWidth: int)
    returns (placed: seq<Placed>)
    requires |lineWidths| == |lines| && |lineHeights| == |lines|
    ensures placed == seq(|lines|, i requires 0 <= i < |lines| =>
                            Placed(lines[i], (imgWidth - lineWidths[i]) / 2, LineTop(lineHeights, spacing, i)))
  {
    var yOffset := 20;
    placed := [];
    for i := 0 to |lines|
      invariant |placed| == i
      invariant yOffset == LineTop(lineHeights, spacing, i)
      invariant forall j :: 0 <= j < i ==>
                  placed[j] == Placed(lines[j], (imgWidth - lineWidths[j]) / 2, LineTop(lineHeights, spacing, j))
    {
      var xOffset := (imgWidth - lineWidths[i]) / 2;
      placed := placed + [Placed(lines[i], xOffset, yOffset)];
      LineTopStep(lineHeights, spacing, i);
      yOffset := yOffset + lineHeights[i] + spacing;
    }
  }

  lemma LineTopStep(heights: seq<int>, spacing: int, i: nat)
    requires i < |heights|
    ensures LineTop(heights, spacing, i + 1) == LineTop(heights, spacing, i) + heights[i] + spacing
  {
    assert heights[..i + 1][..i] == heights[..i];
  }

  lemma {:induction false} SumPrefixBound(xs: seq<int>, i: nat)
    requires i < |xs| && forall j :: 0 <= j < |xs| ==> xs[j] >= 0
    ensures 0 <= Sum(xs[..i]) && Sum(xs[..i]) + xs[i] <= Sum(xs)
    decreases |xs|
  {
    assert xs[..|xs|] == xs;
    if i < |xs| - 1 {
      var p := xs[..|xs| - 1];
      assert p[..i] == xs[..i];
      SumPrefixBound(p, i);
    } else {
      assert xs[..i] == xs[..|xs| - 1];
      SumNonNegative(xs[..i]);
    }
  }

  lemma {:induction false} SumNonNegative(xs: seq<int>)
    requires forall j :: 0 <= j < |xs| ==> xs[j] >= 0
    ensures Sum(xs) >= 0
    decreases |xs|
  {
    if xs != [] {
      SumNonNegative(xs[..|xs| - 1]);
    }
  }

  /**
   * The caption image is at least `max_width` wide and 40 wider than every line, so each
   * line is centred with at least 20 pixels either side, the right margin being the left
   * one or one more.
   */
  lemma LayoutCentred(lines: seq<string>, bbox: string -> BBox, spacing: int, maxWidth: int, c: Canvas)
    requires Layout(lines, bbox, spacing, maxWidth).Some? && Layout(lines, bbox, spacing, maxWidth).value == c
    ensures |c.placed| == |lines| && c.width >= maxWidth
    ensures forall i :: 0 <= i < |lines| ==> c.placed[i].line == lines[i] && c.width >= Width(bbox(lines[i])) + 40
    ensures forall i :: 0 <= i < |lines| ==> 20 <= c.placed[i].x && c.placed[i].x + Width(bbox(lines[i])) + 20 <= c.width
    ensures forall i :: 0 <= i < |lines| ==> 0 <= (c.width - c.placed[i].x - Width(bbox(lines[i]))) - c.placed[i].x <= 1
  {
  }

  /** The last line ends 20 pixels above the bottom of the image. */
  lemma LayoutLastLine(lines: seq<string>, bbox: string -> BBox, spacing: int, maxWidth: int, c: Canvas)
    requires Layout(lines, bbox, spacing, maxWidth).Some? && Layout(lines, bbox, spacing, maxWidth).value == c
    requires lines != []
    ensures |c.placed| == |lines|
    ensures c.placed[|lines| - 1].y + Height(bbox(lines[|lines| - 1])) + 20 == c.height
  {
    var heights := Heights(bbox, lines);
    var n := |lines| - 1;
    assert heights[..n + 1] == heights;
  }

  /** With non-negative heights and spacing every line lies between the top and bottom 20-pixel paddings. */
  lemma LayoutInside(lines: seq<string>, bbox: string -> BBox, spacing: int, maxWidth: int, c: Canvas)
    requires Layout(lines, bbox, spacing, maxWidth).Some? && Layout(lines, bbox, spacing, maxWidth).value == c
    requires spacing >= 0 && forall i :: 0 <= i < |lines| ==> Height(bbox(lines[i])) >= 0
    ensures |c.placed| == |lines|
    ensures forall i :: 0 <= i < |lines| ==> 20 <= c.placed[i].y && c.placed[i].y + Height(bbox(lines[i])) + 20 <= c.height
  {
    var heights := Heights(bbox, lines);
    forall i | 0 <= i < |lines| ensures 20 <= c.placed[i].y && c.placed[i].y + heights[i] + 20 <= c.height {
      LineInside(heights, spacing, i);
    }
  }

  lemma LineInside(heights: seq<int>, spacing: int, i: nat)
    requires spacing >= 0 && i < |heights| && forall j :: 0 <= j < |heights| ==> heights[j] >= 0
    ensures 20 <= LineTop(heights, spacing, i) && LineTop(heights, spacing, i) + heights[i] + 20 <= CanvasHeight(heights, spacing)
  {
    SumPrefixBound(heights, i);
    MulMonotone(i, |heights| - 1, spacing);
  }

  lemma MulMonotone(a: int, b: int, k: int)
    requires a <= b && k >= 0
    ensures a * k <= b * k
  {
  }

  /**
   * The image is missing only for an unusable size: with at least one line and
   * non-negative line sizes and spacing it always exists, and with no lines at all it
   * exists exactly when the spacing is at most the 40-pixel padding.
   */
  lemma LayoutExists(lines: seq<string>, bbox: string -> BBox, spacing: int, maxWidth: int)
    requires spacing >= 0
    requires forall i :: 0 <= i < |lines| ==> Width(bbox(lines[i])) >= 0 && Height(bbox(lines[i])) >= 0
    ensures lines != [] ==> Layout(lines, bbox, spacing, maxWidth).Some?
    ensures lines == [] ==> (Layout(lines, bbox, spacing, maxWidth).Some? <==> spacing <= 40)
  {
    var heights := Heights(bbox, lines);
    SumNonNegative(heights);
    if lines != [] {
      var widths := Widths(bbox, lines);
      assert widths[0] <= MaxOf(widths);
      assert (|lines| - 1) * spacing >= 0;
    }
  }

  // ------------------------------------------------------------ clips

  /** Where a clip sits on the frame. `create_caption_clip` centres its captions on both axes. */
  datatype Placement = Centre

  /**
   * A caption clip: its image, when it starts within the scene, how long it shows, its
   * fade-in and its position.
   */
  datatype Clip = Clip(image: Canvas, start: real, duration: real, fadeIn: real, position: Placement)

  /** `create_caption_clip(text, duration)`: the image at `VIDEO_WIDTH - 150`, shown for `duration`. */
  function CaptionClip(engine: TextEngine, ts: Typesetter, text: string, duration: real): (r: Option<Clip>)
    ensures r.Some? <==> TextImage(engine, ts, text, Config.VideoWidth - 150).Some?
    ensures r.Some? ==> r.value.image == TextImage(engine, ts, text, Config.VideoWidth - 150).value
                        && r.value.duration == duration && r.value.start == 0.0 && r.value.fadeIn == CaptionFadeIn
                        && r.value.position == Centre
  {
    var img := TextImage(engine, ts, text, Config.VideoWidth - 150);
    if img.None? then None else Some(Clip(img.value, 0.0, duration, CaptionFadeIn, Centre))
  }

  method CreateCaptionClip(engine: TextEngine, ts: Typesetter, text: string, duration: real) returns (clip: Option<Clip>)
    ensures clip == CaptionClip(engine, ts, text, duration)
  {
    var img := CreateTextImage(engine, ts, text, Config.VideoWidth - 150);
    if img.None? {
      return None;
    }
    return Some(Clip(img.value, 0.0, duration, CaptionFadeIn, Centre));
  }

  // ------------------------------------------------------------ chunks

  function Min(a: int, b: int): int { if a <= b then a else b }

  /** `split_text_into_chunks` on the words of the text: groups of `m` words joined by ' '. */
  function Chunks(ws: seq<string>, m: nat): seq<string>
    requires m > 0
    decreases |ws|
  {
    if ws == [] then []
    else
      var n := Min(m, |ws|);
      [JoinSpace(ws[..n])] + Chunks(ws[n..], m)
  }

  /**
   * There are `ceil(len(words) / m)` chunks: none for no words, and otherwise the fewest
   * chunks of `m` words that hold all of them.
   */
  lemma {:induction false} ChunkCount(ws: seq<string>, m: nat)
    requires m > 0
    ensures Chunks(ws, m) == [] <==> ws == []
    ensures ws != [] ==> (|Chunks(ws, m)| - 1) * m < |ws| <= |Chunks(ws, m)| * m
    decreases |ws|
  {
    if ws != [] {
      var n := Min(m, |ws|);
      ChunkCount(ws[n..], m);
      var k := |Chunks(ws[n..], m)|;
      assert |Chunks(ws, m)| == k + 1;
      if |ws| <= m {
        assert k == 0;
      } else {
        MulSucc(k - 1, m);
        MulSucc(k, m);
      }
    }
  }

  lemma MulSucc(k: int, m: int)
    ensures (k + 1) * m == k * m + m
  {
  }

  /** `split_text_into_chunks(text, max_words)`: walks the words `max_words` at a time. */
  method SplitTextIntoChunks(text: string, maxWords: nat) returns (chunks: seq<string>)
    requires maxWords > 0
    ensures chunks == Chunks(Words(text), maxWords)
  {
    var words := Words(text);
    chunks := [];
    var i := 0;
    while i < |words|
      invariant 0 <= i <= |words|
      invariant chunks + Chunks(words[i..], maxWords) == Chunks(words, maxWords)
    {
      // range(0, len(words), max_words) with the slice words[i:i + max_words]
      var j := Min(i + maxWords, |words|);
      var chunk := JoinSpace(words[i..j]);
      ChunksFrom(words, maxWords, i);
      assert (chunks + [chunk]) + Chunks(words[j..], maxWords) == chunks + ([chunk] + Chunks(words[j..], maxWords));
      chunks := chunks + [chunk];
      i := j;
    }
    assert words[i..] == [];
  }

  /** The chunks from word `i` on: the next `m` words, then the chunks after them. */
  lemma ChunksFrom(ws: seq<string>, m: nat, i: nat)
    requires m > 0 && i < |ws|
    ensures Chunks(ws[i..], m) == [JoinSpace(ws[i..Min(i + m, |ws|)])] + Chunks(ws[Min(i + m, |ws|)..], m)
  {
    var rest := ws[i..];
    assert rest[..Min(m, |rest|)] == ws[i..Min(i + m, |ws|)];
    assert rest[Min(m, |rest|)..] == ws[Min(i + m, |ws|)..];
  }

  /** `split_text_into_chunks` loses and reorders nothing: the chunks joined by ' ' are the words joined by ' '. */
  lemma {:induction false} ChunksJoin(ws: seq<string>, m: nat)
    requires m > 0
    ensures JoinSpace(Chunks(ws, m)) == JoinSpace(ws)
    decreases |ws|
  {
    if ws != [] {
      var n := Min(m, |ws|);
      var head, tail := ws[..n], ws[n..];
      assert ws == head + tail;
      ChunksJoin(tail, m);
      var cs := Chunks(ws, m);
      assert cs == [JoinSpace(head)] + Chunks(tail, m);
      if tail != [] {
        var rest := Chunks(tail, m);
        assert rest != [] by { assert rest == [JoinSpace(tail[..Min(m, |tail|)])] + Chunks(tail[Min(m, |tail|)..], m); }
        assert cs[1..] == rest;
        calc {
          JoinSpace(cs);
          cs[0] + " " + JoinSpace(rest);
          JoinSpace(head) + " " + JoinSpace(tail);
          { JoinSpaceAppend(head, tail); }
          JoinSpace(ws);
        }
      } else {
        assert cs == [JoinSpace(head)];
        assert head == ws;
      }
    }
  }

  /** Every chunk holds between 1 and `m` words, and all but the last exactly `m`. */
  lemma {:induction false} ChunkSizes(ws: seq<string>, m: nat)
    requires m > 0 && forall i :: 0 <= i < |ws| ==> IsWord(ws[i])
    ensures forall k :: 0 <= k < |Chunks(ws, m)| ==> 1 <= |Words(Chunks(ws, m)[k])| <= m
    ensures forall k :: 0 <= k < |Chunks(ws, m)| - 1 ==> |Words(Chunks(ws, m)[k])| == m
    decreases |ws|
  {
    if ws != [] {
      var n := Min(m, |ws|);
      var head, tail := ws[..n], ws[n..];
      assert forall i :: 0 <= i < |head| ==> head[i] == ws[i];
      assert forall i :: 0 <= i < |tail| ==> tail[i] == ws[n + i];
      WordsOfJoin(head);
      assert |Words(JoinSpace(head))| == n;
      ChunkSizes(tail, m);
      var cs := Chunks(ws, m);
      var rest := Chunks(tail, m);
      assert forall k :: 0 <= k < |rest| ==> 1 <= |Words(rest[k])| <= m;
      assert cs == [JoinSpace(head)] + rest;
      if tail != [] {
        assert rest != [] by { assert rest == [JoinSpace(tail[..Min(m, |tail|)])] + Chunks(tail[Min(m, |tail|)..], m); }
        assert n == m;
      }
      forall k | 0 <= k < |cs| ensures 1 <= |Words(cs[k])| <= m && (k < |cs| - 1 ==> |Words(cs[k])| == m) {
        if k == 0 {
          assert cs[0] == JoinSpace(head);
        } else {
          assert cs[k] == rest[k - 1];
          assert 1 <= |Words(rest[k - 1])| <= m;
          assert k - 1 < |rest| - 1 ==> |Words(rest[k - 1])| == m;
        }
      }
    }
  }

  /** The characters a chunk counts for its duration: those other than ' '. */
  function ChunkChars(chunk: string): nat {
    |Remove(chunk, ' ')|
  }

  function SumChars(cs: seq<string>): nat {
    if cs == [] then 0 else SumChars(cs[..|cs| - 1]) + ChunkChars(cs[|cs| - 1])
  }

  lemma {:induction false} SumCharsPrepend(c: string, cs: seq<string>)
    ensures SumChars([c] + cs) == ChunkChars(c) + SumChars(cs)
    decreases |cs|
  {
    if cs != [] {
      var last := cs[|cs| - 1];
      assert ([c] + cs)[..|cs|] == [c] + cs[..|cs| - 1];
      SumCharsPrepend(c, cs[..|cs| - 1]);
    } else {
      assert ([c] + cs)[..0] == [];
    }
  }

  /** The chunks together count exactly the non-whitespace characters of the words. */
  lemma {:induction false} SumCharsOfChunks(ws: seq<string>, m: nat)
    requires m > 0 && forall i :: 0 <= i < |ws| ==> IsWord(ws[i])
    ensures SumChars(Chunks(ws, m)) == SumLens(ws)
    decreases |ws|
  {
    if ws != [] {
      var n := Min(m, |ws|);
      assert ws == ws[..n] + ws[n..];
      SumLensAppend(ws[..n], ws[n..]);
      RemoveSpaceOfJoin(ws[..n]);
      SumCharsOfChunks(ws[n..], m);
      SumCharsPrepend(JoinSpace(ws[..n]), Chunks(ws[n..], m));
    }
  }

  // ------------------------------------------------------------ timing

  /** `len(text.replace(" ", ""))`, replaced by 1 when it is 0. */
  function TotalChars(text: string): (t: nat)
    ensures t > 0
  {
    var n := |Remove(text, ' ')|;
    if n == 0 then 1 else n
  }

  /** `(chunk_chars / total_chars) * total_duration`. */
  function ChunkDuration(chunk: string, totalChars: nat, total: real): real
    requires totalChars > 0
  {
    (ChunkChars(chunk) as real / totalChars as real) * total
  }

  /** The time taken by `cs`, one after another: where the chunk after them starts. */
  function Elapsed(cs: seq<string>, totalChars: nat, total: real): real
    requires totalChars > 0
  {
    if cs == [] then 0.0 else Elapsed(cs[..|cs| - 1], totalChars, total) + ChunkDuration(cs[|cs| - 1], totalChars, total)
  }

  /** The caption image of each chunk as `create_caption_clip` makes it, `None` where it fails. */
  function Renderer(engine: TextEngine, ts: Typesetter): string -> Option<Canvas> {
    chunk => TextImage(engine, ts, chunk, Config.VideoWidth - 150)
  }

  /** The clip of chunk `k`: its image, starting once every earlier chunk has had its share, for its own share. */
  function ChunkClip(render: string -> Option<Canvas>, cs: seq<string>, totalChars: nat, total: real, k: nat): Clip
    requires totalChars > 0 && k < |cs| && render(cs[k]).Some?
  {
    Clip(render(cs[k]).value, Elapsed(cs[..k], totalChars, total), ChunkDuration(cs[k], totalChars, total), CaptionFadeIn, Centre)
  }

  /** The clips of the chunks that rendered, in chunk order. */
  function Timed(render: string -> Option<Canvas>, cs: seq<string>, totalChars: nat, total: real): seq<Clip>
    requires totalChars > 0
  {
    if cs == [] then []
    else
      var n := |cs| - 1;
      Timed(render, cs[..n], totalChars, total)
      + (if render(cs[n]).Some? then [ChunkClip(render, cs, totalChars, total, n)] else [])
  }

  /** The loop shared by `create_karaoke_clip` and `generate_subtitles` over one text's chunks. */
  method TimeChunks(engine: TextEngine, ts: Typesetter, chunks: seq<string>, totalChars: nat, total: real)
    returns (clips: seq<Clip>)
    requires totalChars > 0
    ensures clips == Timed(Renderer(engine, ts), chunks, totalChars, total)
  {
    clips := [];
    var currentTime := 0.0;
    for k := 0 to |chunks|
      invariant currentTime == Elapsed(chunks[..k], totalChars, total)
      invariant clips == Timed(Renderer(engine, ts), chunks[..k], totalChars, total)
    {
      assert chunks[..k + 1][..k] == chunks[..k];
      var chunk := chunks[k];
      var chunkDuration := (ChunkChars(chunk) as real / totalChars as real) * total;
      var clip := CreateCaptionClip(engine, ts, chunk, chunkDuration);
      if clip.Some? {
        clips := clips + [clip.value.(start := currentTime)];
      }
      currentTime := currentTime + chunkDuration;
    }
    assert chunks[..|chunks|] == chunks;
  }

  /** `create_karaoke_clip(text, total_duration)`: `None` when there are no chunks or no chunk rendered. */
  function Karaoke(render: string -> Option<Canvas>, text: string, total: real): Option<seq<Clip>> {
    var chunks := Chunks(Words(text), ChunkWords);
    if chunks == [] then None
    else
      var clips := Timed(render, chunks, TotalChars(text), total);
      if clips == [] then None else Some(clips)
  }

  method CreateKaraokeClip(engine: TextEngine, ts: Typesetter, text: string, total: real) returns (r: Option<seq<Clip>>)
    ensures r == Karaoke(Renderer(engine, ts), text, total)
  {
    var chunks := SplitTextIntoChunks(text, ChunkWords);
    if chunks == [] {
      return None;
    }
    var totalChars := |Remove(text, ' ')|;
    if totalChars == 0 {
      totalChars := 1;
    }
    var textClips := TimeChunks(engine, ts, chunks, totalChars, total);
    if textClips == [] {
      return None;
    }
    return Some(textClips);
  }

  /** A scene as `generate_subtitles` reads it: `text` defaults to "" and `duration` to 2. */
  datatype SubtitleScene = SubtitleScene(text: Option<string>, duration: Option<real>)

  function SceneText(s: SubtitleScene): string { if s.text.Some? then s.text.value else "" }

  function SceneDuration(s: SubtitleScene): real { if s.duration.Some? then s.duration.value else 2.0 }

  /** `generate_subtitles`: every scene's timed chunk clips, scene after scene, each timed from its scene's start. */
  function Subtitles(render: string -> Option<Canvas>, scenes: seq<SubtitleScene>): seq<Clip> {
    if scenes == [] then []
    else
      var s := scenes[|scenes| - 1];
      var text := SceneText(s);
      Subtitles(render, scenes[..|scenes| - 1])
      + Timed(render, Chunks(Words(text), ChunkWords), TotalChars(text), SceneDuration(s))
  }

  method GenerateSubtitles(engine: TextEngine, ts: Typesetter, scenes: seq<SubtitleScene>) returns (clips: seq<Clip>)
    ensures clips == Subtitles(Renderer(engine, ts), scenes)
  {
    clips := [];
    for i := 0 to |scenes|
      invariant clips == Subtitles(Renderer(engine, ts), scenes[..i])
    {
      assert scenes[..i + 1][..i] == scenes[..i];
      var fullText := SceneText(scenes[i]);
      var totalDuration := SceneDuration(scenes[i]);
      var chunks := SplitTextIntoChunks(fullText, ChunkWords);
      if chunks == [] {
        assert Timed(Renderer(engine, ts), chunks, TotalChars(fullText), totalDuration) == [];
        assert clips + [] == clips;
        continue;
      }
      var totalChars := |Remove(fullText, ' ')|;
      if totalChars == 0 {
        totalChars := 1;
      }
      var sceneClips := TimeChunks(engine, ts, chunks, totalChars, totalDuration);
      clips := clips + sceneClips;
    }
    assert scenes[..|scenes|] == scenes;
  }

  // ------------------------------------------------------------ timing properties

  lemma Distribute(a: real, b: real, t: real, total: real)
    requires t > 0.0
    ensures (a / t) * total + (b / t) * total == ((a + b) / t) * total
  {
    assert (a / t) * total + (b / t) * total == (a / t + b / t) * total;
    assert a / t + b / t == (a + b) / t;
  }

  /** Two consecutive shares of the total make the share of their characters together. */
  lemma ShareStep(e: real, d: real, a: nat, b: nat, t: nat, total: real)
    requires t > 0
    requires e == (a as real / t as real) * total && d == (b as real / t as real) * total
    ensures e + d == ((a + b) as real / t as real) * total
  {
    Distribute(a as real, b as real, t as real, total);
  }

  /** The durations of the chunks add up to their share of characters times the total. */
  lemma {:induction false} ElapsedIsShare(cs: seq<string>, totalChars: nat, total: real)
    requires totalChars > 0
    ensures Elapsed(cs, totalChars, total) == (SumChars(cs) as real / totalChars as real) * total
    decreases |cs|
  {
    if cs != [] {
      var p, last := cs[..|cs| - 1], cs[|cs| - 1];
      var e, d := Elapsed(p, totalChars, total), ChunkDuration(last, totalChars, total);
      assert Elapsed(cs, totalChars, total) == e + d;
      assert SumChars(cs) == SumChars(p) + ChunkChars(last);
      ElapsedIsShare(p, totalChars, total);
      ShareStep(e, d, SumChars(p), ChunkChars(last), totalChars, total);
    }
  }

  /**
   * The chunks of a text count its non-whitespace characters, which are at most the
   * characters other than ' ' and exactly those when ' ' is its only whitespace; with at
   * least one chunk there is at least one such character.
   */
  lemma ChunkCharsOfText(text: string)
    requires Chunks(Words(text), ChunkWords) != []
    ensures SumChars(Chunks(Words(text), ChunkWords)) == InkCount(text)
    ensures 0 < InkCount(text) <= |Remove(text, ' ')|
    ensures BlanksAreSpaces(text) ==> InkCount(text) == |Remove(text, ' ')|
  {
    SumCharsOfChunks(Words(text), ChunkWords);
    SumLensOfWords(text);
    InkCountOfRemove(text);
    assert Words(text) != [];
    WordsEmptyIff(text);
    InkCountPositive(text);
  }

  /**
   * Chunk durations add up to at most the total duration, and to exactly the total when
   * ' ' is the only whitespace in the text: only ' ' is removed when counting, so other
   * whitespace takes a share no chunk receives. With at least one chunk the guard
   * replacing a zero character count is never taken.
   */
  lemma ChunkDurationsSum(text: string, total: real)
    requires Chunks(Words(text), ChunkWords) != []
    ensures TotalChars(text) == |Remove(text, ' ')|
    ensures total >= 0.0 ==> Elapsed(Chunks(Words(text), ChunkWords), TotalChars(text), total) <= total
    ensures BlanksAreSpaces(text) ==> Elapsed(Chunks(Words(text), ChunkWords), TotalChars(text), total) == total
  {
    ChunkCharsOfText(text);
    ElapsedBounds(Chunks(Words(text), ChunkWords), TotalChars(text), total);
  }

  /** Chunks counting at most the total characters take at most the total time, and all of it when they count them all. */
  lemma ElapsedBounds(cs: seq<string>, totalChars: nat, total: real)
    requires 0 < SumChars(cs) <= totalChars
    ensures total >= 0.0 ==> Elapsed(cs, totalChars, total) <= total
    ensures SumChars(cs) == totalChars ==> Elapsed(cs, totalChars, total) == total
  {
    ElapsedIsShare(cs, totalChars, total);
    ShareAtMostWhole(SumChars(cs), totalChars, total);
  }

  lemma ShareAtMostWhole(part: nat, whole: nat, total: real)
    requires 0 < part <= whole
    ensures total >= 0.0 ==> (part as real / whole as real) * total <= total
    ensures part == whole ==> (part as real / whole as real) * total == total
  {
    var q := part as real / whole as real;
    assert 0.0 < q <= 1.0;
    assert total - q * total == (1.0 - q) * total;
    if total >= 0.0 {
      assert (1.0 - q) * total >= 0.0;
    }
    if part == whole {
      assert q == 1.0;
    }
  }

  /** Blank text gives no chunks, so `create_karaoke_clip` returns `None`; any other text gives chunks. */
  lemma BlankTextNoCaptions(render: string -> Option<Canvas>, text: string, total: real)
    ensures Chunks(Words(text), ChunkWords) == [] <==> !HasInk(text)
    ensures !HasInk(text) ==> Karaoke(render, text, total).None?
  {
    WordsEmptyIff(text);
    ChunkCount(Words(text), ChunkWords);
  }

  lemma ChunkClipOfPrefix(render: string -> Option<Canvas>, cs: seq<string>, totalChars: nat, total: real, n: nat, k: nat)
    requires totalChars > 0 && k < n <= |cs| && render(cs[k]).Some?
    ensures ChunkClip(render, cs[..n], totalChars, total, k) == ChunkClip(render, cs, totalChars, total, k)
  {
    assert cs[..n][..k] == cs[..k];
  }

  /** The indices of the chunks whose image renders, in increasing order. */
  function Rendered(render: string -> Option<Canvas>, cs: seq<string>): seq<nat> {
    if cs == [] then []
    else
      var n := |cs| - 1;
      Rendered(render, cs[..n]) + (if render(cs[n]).Some? then [n] else [])
  }

  /** `Rendered` lists exactly the chunks that render, each once and in increasing order. */
  lemma {:induction false} RenderedExactly(render: string -> Option<Canvas>, cs: seq<string>)
    ensures forall j :: 0 <= j < |Rendered(render, cs)| ==> Rendered(render, cs)[j] < |cs| && render(cs[Rendered(render, cs)[j]]).Some?
    ensures forall j, j' :: 0 <= j < j' < |Rendered(render, cs)| ==> Rendered(render, cs)[j] < Rendered(render, cs)[j']
    ensures forall k :: 0 <= k < |cs| && render(cs[k]).Some? ==> k in Rendered(render, cs)
    decreases |cs|
  {
    if cs != [] {
      var n := |cs| - 1;
      var p := cs[..n];
      RenderedExactly(render, p);
      var rp := Rendered(render, p);
      var r := Rendered(render, cs);
      assert r == rp + (if render(cs[n]).Some? then [n] else []);
      forall j | 0 <= j < |r| ensures r[j] < |cs| && render(cs[r[j]]).Some? {
        if j < |rp| {
          assert r[j] == rp[j] && p[rp[j]] == cs[rp[j]];
        }
      }
      forall j, j' | 0 <= j < j' < |r| ensures r[j] < r[j'] {
        assert r[j] == rp[j];
        if j' < |rp| {
          assert r[j'] == rp[j'];
        }
      }
      forall k | 0 <= k < |cs| && render(cs[k]).Some? ensures k in Rendered(render, cs) {
        if k < n {
          assert p[k] == cs[k];
          assert k in Rendered(render, p);
        }
      }
    }
  }

  /**
   * The clips are those of the chunks that rendered, in chunk order: clip `j` is the clip
   * of the `j`-th chunk that renders, starting once every earlier chunk has had its
   * share, whether or not it rendered.
   */
  lemma {:induction false} TimedChunkOrder(render: string -> Option<Canvas>, cs: seq<string>, totalChars: nat, total: real)
    requires totalChars > 0
    ensures |Timed(render, cs, totalChars, total)| == |Rendered(render, cs)|
    ensures forall j :: 0 <= j < |Rendered(render, cs)| ==>
              Rendered(render, cs)[j] < |cs| && render(cs[Rendered(render, cs)[j]]).Some?
              && Timed(render, cs, totalChars, total)[j] == ChunkClip(render, cs, totalChars, total, Rendered(render, cs)[j])
    decreases |cs|
  {
    RenderedExactly(render, cs);
    if cs != [] {
      var n := |cs| - 1;
      var p := cs[..n];
      TimedChunkOrder(render, p, totalChars, total);
      RenderedExactly(render, p);
      var idx, pidx := Rendered(render, cs), Rendered(render, p);
      var clips, pclips := Timed(render, cs, totalChars, total), Timed(render, p, totalChars, total);
      forall j | 0 <= j < |pidx| ensures clips[j] == ChunkClip(render, cs, totalChars, total, idx[j]) {
        assert clips[j] == pclips[j] && idx[j] == pidx[j];
        ChunkClipOfPrefix(render, cs, totalChars, total, n, pidx[j]);
      }
    }
  }

  /** No clip at all exactly when no chunk renders. */
  lemma TimedEmptyIff(render: string -> Option<Canvas>, cs: seq<string>, totalChars: nat, total: real)
    requires totalChars > 0
    ensures Timed(render, cs, totalChars, total) == [] <==> forall k :: 0 <= k < |cs| ==> render(cs[k]).None?
  {
    TimedChunkOrder(render, cs, totalChars, total);
    RenderedExactly(render, cs);
    var idx := Rendered(render, cs);
    if idx != [] {
      assert render(cs[idx[0]]).Some?;
    }
  }

  /** `create_karaoke_clip` returns `None` exactly when there are no chunks or none of them rendered. */
  lemma KaraokeNoneIff(render: string -> Option<Canvas>, text: string, total: real)
    ensures Karaoke(render, text, total).None? <==>
              forall k :: 0 <= k < |Chunks(Words(text), ChunkWords)| ==> render(Chunks(Words(text), ChunkWords)[k]).None?
  {
    var chunks := Chunks(Words(text), ChunkWords);
    if chunks == [] {
      assert Karaoke(render, text, total) == None;
    } else {
      var clips := Timed(render, chunks, TotalChars(text), total);
      assert Karaoke(render, text, total) == (if clips == [] then None else Some(clips));
      TimedEmptyIff(render, chunks, TotalChars(text), total);
    }
  }
}
