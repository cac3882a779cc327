/**
 * The narrator of src/generators/audio.py: the output file names, the routing of the
 * text-to-speech stream into the audio file and the word-boundary collector, and the
 * conversion of the collector's SRT subtitles into WebVTT. The speech service is an
 * oracle: `speak` for a whole saved file, and the received chunks (with the error that
 * ended the stream, if any) for the streamed narration; the SRT text the collector
 * builds from its word boundaries is the oracle `srtOf`.
 */
module AudioGen {
  import opened Wrappers
  import opened Strs
  import Sync

  newtype byte = x: int | 0 <= x < 256

  // ------------------------------------------------------------ file names

  /** `TEMP_DIR/scene_{index}.mp3`. */
  function VoiceoverPath(outputDir: string, index: nat): string {
    JoinPath(outputDir, "scene_" + Digits(index) + ".mp3")
  }

  const DefaultNarrationName: string := "full_audio"

  /** The two files of a full narration. */
  datatype NarrationPaths = NarrationPaths(audioPath: string, vttPath: string)

  /** `TEMP_DIR/{filename}.mp3` and `TEMP_DIR/{filename}.vtt`. */
  function PathsFor(outputDir: string, filename: string): NarrationPaths {
    NarrationPaths(JoinPath(outputDir, filename + ".mp3"), JoinPath(outputDir, filename + ".vtt"))
  }

  /** The two narration files share the directory and the name and differ in the extension only. */
  lemma PathsShareStem(outputDir: string, filename: string)
    ensures var p := PathsFor(outputDir, filename);
            var n := |outputDir| + 1 + |filename|;
            && |p.audioPath| == |p.vttPath| == n + 4
            && p.audioPath[..n] == p.vttPath[..n] == outputDir + "/" + filename
            && p.audioPath[n..] == ".mp3" && p.vttPath[n..] == ".vtt"
  {
    var stem := outputDir + "/" + filename;
    assert PathsFor(outputDir, filename).audioPath == stem + ".mp3";
    assert PathsFor(outputDir, filename).vttPath == stem + ".vtt";
  }

  // ------------------------------------------------------------ one scene

  /**
   * `generate_voiceover(text, index)`: the path of the saved speech, or the error of
   * the speech service, raised again.
   */
  function VoiceoverOf(outputDir: string, voice: string, text: string, index: nat,
                       speak: (string, string) -> Result<seq<byte>>): (r: Result<string>)
    ensures r.Ok? <==> speak(text, voice).Ok?
    ensures speak(text, voice).Err? ==> r == Err(speak(text, voice).error)
    ensures speak(text, voice).Ok? ==> r == Ok(VoiceoverPath(outputDir, index))
  {
    match speak(text, voice)
    case Ok(_) => Ok(VoiceoverPath(outputDir, index))
    case Err(e) => Err(e)
  }

  // ------------------------------------------------------------ SRT to WebVTT

  const VttHeader: string := "WEBVTT\n\n"

  /** `("WEBVTT\n\n" + srt).replace(",", ".")`. */
  function SrtToVtt(srt: string): string {
    ReplaceChar(VttHeader + srt, ',', ".")
  }

  /**
   * The WebVTT text is the header followed by the SRT text with each ',' turned into
   * '.', character for character; it is 8 characters longer and holds no ',' at all,
   * and a text without ',' is only prefixed.
   */
  lemma SrtToVttShape(srt: string)
    ensures var vtt := SrtToVtt(srt);
            && |vtt| == |srt| + 8 && vtt[..8] == VttHeader
            && Count(vtt, ',') == 0
            && (Count(srt, ',') == 0 ==> vtt == VttHeader + srt)
    ensures var vtt := SrtToVtt(srt);
            |vtt| == |srt| + 8 &&
            forall i :: 0 <= i < |srt| ==> vtt[8 + i] == (if srt[i] == ',' then '.' else srt[i])
  {
    ReplaceCharAppend(VttHeader, srt, ',', ".");
    ReplaceCharAbsent(VttHeader, ',', ".");
    ReplaceCharPointwise(srt, ',', '.');
    ReplaceCharRemoves(VttHeader + srt, ',', ".");
    if Count(srt, ',') == 0 {
      ReplaceCharAbsent(srt, ',', ".");
    }
  }

  /** An SRT cue time `hh:mm:ss,mmm`. */
  function SrtTimestamp(hh: nat, mm: nat, ss: nat, ms: nat): string
    requires Sync.TimeFields(hh, mm, ss, ms)
  {
    Sync.Pad2(hh) + ":" + Sync.Pad2(mm) + ":" + Sync.Pad2(ss) + "," + Sync.Pad3(ms)
  }

  /**
   * An SRT cue time becomes the WebVTT cue time `hh:mm:ss.mmm`, which the synchroniser
   * of main.py reads back as the same number of seconds.
   */
  lemma SrtTimestampConverted(hh: nat, mm: nat, ss: nat, ms: nat)
    requires Sync.TimeFields(hh, mm, ss, ms)
    ensures ReplaceChar(SrtTimestamp(hh, mm, ss, ms), ',', ".") == Sync.Timestamp(hh, mm, ss, ms)
    ensures var r := Sync.VttToSec(ReplaceChar(SrtTimestamp(hh, mm, ss, ms), ',', "."));
            r.Ok? && r.value == hh as real * 3600.0 + mm as real * 60.0 + (ss as real + ms as real / 1000.0)
  {
    var h, m, s, t := Sync.Pad2(hh), Sync.Pad2(mm), Sync.Pad2(ss), Sync.Pad3(ms);
    var front := h + ":" + m + ":" + s;
    assert SrtTimestamp(hh, mm, ss, ms) == front + "," + t;
    assert Sync.Timestamp(hh, mm, ss, ms) == front + "." + t;
    ReplaceOnly(front, t, ',', '.');
    Sync.VttToSecOfTimestamp(hh, mm, ss, ms);
  }

  /** Replacing the one `c` between two texts without it. */
  lemma ReplaceOnly(a: string, b: string, c: char, d: char)
    requires forall i :: 0 <= i < |a| ==> a[i] != c
    requires forall i :: 0 <= i < |b| ==> b[i] != c
    ensures ReplaceChar(a + [c] + b, c, [d]) == a + [d] + b
  {
    CountNone(a, c);
    CountNone(b, c);
    ReplaceCharAbsent(a, c, [d]);
    ReplaceCharAbsent(b, c, [d]);
    ReplaceCharAppend(a + [c], b, c, [d]);
    ReplaceCharAppend(a, [c], c, [d]);
    assert ReplaceChar([c], c, [d]) == [d];
    calc {
      ReplaceChar(a + [c] + b, c, [d]);
      ReplaceChar(a + [c], c, [d]) + ReplaceChar(b, c, [d]);
      ReplaceChar(a, c, [d]) + ReplaceChar([c], c, [d]) + ReplaceChar(b, c, [d]);
      a + [d] + b;
    }
  }

  // ------------------------------------------------------------ the stream

  /** A word boundary the speech service reports: where a word starts and how long it lasts. */
  datatype Boundary = Boundary(offset: int, duration: int, text: string)

  /** A chunk of the speech stream, by its "type". */
  datatype Chunk = AudioChunk(data: seq<byte>) | WordBoundary(boundary: Boundary) | OtherChunk(kind: string)

  /** The bytes of the "audio" chunks, in order. */
  function AudioData(stream: seq<Chunk>): seq<byte> {
    if stream == [] then []
    else AudioData(stream[..|stream| - 1]) + (match stream[|stream| - 1] case AudioChunk(d) => d case _ => [])
  }

  /** The boundaries of the "WordBoundary" chunks, in order. */
  function Boundaries(stream: seq<Chunk>): seq<Boundary> {
    if stream == [] then []
    else Boundaries(stream[..|stream| - 1]) + (match stream[|stream| - 1] case WordBoundary(b) => [b] case _ => [])
  }

  lemma {:induction false} AudioDataAppend(a: seq<Chunk>, b: seq<Chunk>)
    ensures AudioData(a + b) == AudioData(a) + AudioData(b)
    decreases |b|
  {
    if b == [] {
      assert a + b == a;
    } else {
      assert (a + b)[..|a + b| - 1] == a + b[..|b| - 1];
      AudioDataAppend(a, b[..|b| - 1]);
    }
  }

  lemma {:induction false} BoundariesAppend(a: seq<Chunk>, b: seq<Chunk>)
    ensures Boundaries(a + b) == Boundaries(a) + Boundaries(b)
    decreases |b|
  {
    if b == [] {
      assert a + b == a;
    } else {
      assert (a + b)[..|a + b| - 1] == a + b[..|b| - 1];
      BoundariesAppend(a, b[..|b| - 1]);
    }
  }

  /** The data of the "audio" chunks, in stream order. */
  function AudioPieces(stream: seq<Chunk>): seq<seq<byte>> {
    if stream == [] then []
    else (if stream[0].AudioChunk? then [stream[0].data] else []) + AudioPieces(stream[1..])
  }

  function Flatten(pieces: seq<seq<byte>>): seq<byte> {
    if pieces == [] then [] else pieces[0] + Flatten(pieces[1..])
  }

  /**
   * The audio file is the concatenation of the "audio" chunks' data, in order: the
   * word boundaries and the chunks of other types contribute nothing to it.
   */
  lemma {:induction false} AudioDataIsPieces(stream: seq<Chunk>)
    ensures AudioData(stream) == Flatten(AudioPieces(stream))
    decreases |stream|
  {
    if stream != [] {
      AudioDataIsPieces(stream[1..]);
      AudioDataAppend([stream[0]], stream[1..]);
      var rest := AudioPieces(stream[1..]);
      if stream[0].AudioChunk? {
        assert AudioPieces(stream) == [stream[0].data] + rest;
        assert ([stream[0].data] + rest)[1..] == rest;
      } else {
        assert AudioPieces(stream) == rest;
      }
      assert [stream[0]] + stream[1..] == stream;
      assert AudioData([stream[0]]) == (if stream[0].AudioChunk? then stream[0].data else []) by {
        assert [stream[0]][..0] == [];
      }
    }
  }

  /** Two streams whose "audio" chunks carry the same data give the same audio file. */
  lemma SameAudioPieces(s: seq<Chunk>, t: seq<Chunk>)
    requires AudioPieces(s) == AudioPieces(t)
    ensures AudioData(s) == AudioData(t)
  {
    AudioDataIsPieces(s);
    AudioDataIsPieces(t);
  }

  /** The boundaries of the "WordBoundary" chunks, read from the front of the stream. */
  function BoundaryPieces(stream: seq<Chunk>): seq<Boundary> {
    if stream == [] then []
    else (if stream[0].WordBoundary? then [stream[0].boundary] else []) + BoundaryPieces(stream[1..])
  }

  /**
   * The collector receives exactly the word boundaries of the stream, in stream order
   * and as often as they occur: the boundaries fed chunk after chunk are the stream
   * filtered to its "WordBoundary" chunks.
   */
  lemma {:induction false} BoundariesInOrder(stream: seq<Chunk>)
    ensures Boundaries(stream) == BoundaryPieces(stream)
    decreases |stream|
  {
    if stream != [] {
      BoundariesInOrder(stream[1..]);
      BoundariesAppend([stream[0]], stream[1..]);
      assert [stream[0]] + stream[1..] == stream;
      assert Boundaries([stream[0]]) == (if stream[0].WordBoundary? then [stream[0].boundary] else []) by {
        assert [stream[0]][..0] == [];
      }
    }
  }

  /** Every word boundary of the stream reaches the collector, and nothing else does. */
  lemma {:induction false} BoundariesExact(stream: seq<Chunk>)
    ensures |Boundaries(stream)| <= |stream|
    ensures forall i :: 0 <= i < |stream| && stream[i].WordBoundary? ==> stream[i].boundary in Boundaries(stream)
    ensures forall b :: b in Boundaries(stream) ==> WordBoundary(b) in stream
    decreases |stream|
  {
    if stream != [] {
      var init := stream[..|stream| - 1];
      BoundariesExact(init);
      forall i | 0 <= i < |stream| - 1 && stream[i].WordBoundary? ensures stream[i].boundary in Boundaries(stream) {
        assert stream[i] == init[i];
      }
      forall b | b in Boundaries(stream) ensures WordBoundary(b) in stream {
        if b in Boundaries(init) {
          var j :| 0 <= j < |init| && init[j] == WordBoundary(b);
          assert stream[j] == init[j];
        }
      }
    }
  }

  // ------------------------------------------------------------ the narration

  /** `edge_tts.SubMaker`: the word boundaries fed to it, in order. */
  class SubMaker {
    var boundaries: seq<Boundary>

    constructor ()
      ensures boundaries == []
    {
      boundaries := [];
    }

    /** `submaker.feed(chunk)`. */
    method Feed(b: Boundary)
      modifies this
      ensures boundaries == old(boundaries) + [b]
    {
      boundaries := boundaries + [b];
    }
  }

  /** What a full narration leaves behind: the result, the audio file, and the VTT file if written. */
  datatype Narration = Narration(result: Result<NarrationPaths>, audioFile: seq<byte>, vttFile: Option<string>)

  /**
   * `generate_full_narration(text, filename)`: `stream` holds the chunks received and
   * `streamError` the error that ended the stream early, if any.
   */
  method GenerateFullNarration(outputDir: string, filename: string, stream: seq<Chunk>, streamError: Option<string>,
                               srtOf: seq<Boundary> -> string)
    returns (n: Narration)
    ensures n.audioFile == AudioData(stream)
    ensures streamError.Some? ==> n.result == Err(streamError.value) && n.vttFile == None
    ensures streamError.None? ==> n.result == Ok(PathsFor(outputDir, filename))
                                  && n.vttFile == Some(SrtToVtt(srtOf(Boundaries(stream))))
  {
    var audioPath := JoinPath(outputDir, filename + ".mp3");
    var vttPath := JoinPath(outputDir, filename + ".vtt");
    var submaker := new SubMaker();
    var file: seq<byte> := [];
    for i := 0 to |stream|
      invariant file == AudioData(stream[..i])
      invariant submaker.boundaries == Boundaries(stream[..i])
    {
      var chunk := stream[i];
      assert stream[..i + 1][..i] == stream[..i];
      match chunk {
        case AudioChunk(data) =>
          file := file + data;
        case WordBoundary(b) =>
          submaker.Feed(b);
        case OtherChunk(_) =>
      }
    }
    assert stream[..|stream|] == stream;
    if streamError.Some? {
      return Narration(Err(streamError.value), file, None);
    }
    var srtContent := srtOf(submaker.boundaries);
    var vttContent := VttHeader + srtContent;
    vttContent := ReplaceChar(vttContent, ',', ".");
    return Narration(Ok(NarrationPaths(audioPath, vttPath)), file, Some(vttContent));
  }
}
