/** The subtitle stage: word-by-word caption clips laid over the finished
    video (`generate_word_by_word_clips`, `generate_animated_subtitles`,
    `add_subtitles_to_video`). Clips are records; drawing them is the media
    library's work. */
module Subtitles {
  import opened Outcomes
  import opened Paths
  import opened Titles

  /** One transcribed word with its timestamps. */
  datatype Segment = Segment(word: string, start: real, end: real)

  /** How a caption is drawn. */
  datatype TextStyle = TextStyle(font: string, fontSize: int, color: string, strokeColor: string, strokeWidth: int)

  /** A caption clip, centred horizontally with its top at `y`. */
  datatype TextClip = TextClip(text: string, style: TextStyle, start: real, duration: real, y: real)

  /** What the stage renders: the video with every caption on top of it. */
  datatype Overlay = Overlay(video: string, clips: seq<TextClip>)

  const FontPath: string := "fonts/KOMIKAX_.ttf"

  /** The style the stage uses: the default arguments of the clip builder. */
  const DefaultStyle: TextStyle := TextStyle(FontPath, 80, "yellow", "black", 6)

  const ShadowColor: string := "black"

  function UpperChar(c: char): char {
    if 'a' <= c <= 'z' then (c as int - 32) as char else c
  }

  /** `str.upper()` on ASCII letters; every other character is kept. */
  function Upper(s: string): (r: string)
    ensures |r| == |s|
    ensures forall i :: 0 <= i < |s| ==> !('a' <= r[i] <= 'z')
    ensures forall i :: 0 <= i < |s| ==> ('a' <= s[i] <= 'z' <==> r[i] != s[i])
    ensures forall i :: 0 <= i < |s| && 'a' <= s[i] <= 'z' ==>
              'A' <= r[i] <= 'Z' && r[i] as int - 'A' as int == s[i] as int - 'a' as int
  {
    seq(|s|, i requires 0 <= i < |s| => UpperChar(s[i]))
  }

  /** The clips of a list of segments: per segment the black shadow five
      pixels lower, then the word itself, both at three quarters of the
      video height. */
  function WordClips(segments: seq<Segment>, height: nat, style: TextStyle): (r: seq<TextClip>)
    ensures |r| == 2 * |segments|
  {
    if segments == [] then []
    else
      var seg := segments[|segments| - 1];
      var text := Upper(seg.word);
      var duration := seg.end - seg.start;
      var y := height as real * 0.75;
      WordClips(segments[..|segments| - 1], height, style)
        + [TextClip(text, style.(color := ShadowColor), seg.start, duration, y + 5.0),
           TextClip(text, style, seg.start, duration, y)]
  }

  /** `generate_word_by_word_clips(segments, video_size, ...)` */
  method GenerateWordByWordClips(segments: seq<Segment>, videoSize: (nat, nat), fontSize: int, color: string,
                                 strokeColor: string, strokeWidth: int)
    returns (clips: seq<TextClip>)
    ensures clips == WordClips(segments, videoSize.1, TextStyle(FontPath, fontSize, color, strokeColor, strokeWidth))
  {
    var style := TextStyle(FontPath, fontSize, color, strokeColor, strokeWidth);
    clips := [];
    for k := 0 to |segments|
      invariant clips == WordClips(segments[..k], videoSize.1, style)
    {
      var wordInfo := segments[k];
      var word := Upper(wordInfo.word);
      var wordDuration := wordInfo.end - wordInfo.start;
      var yPos := videoSize.1 as real * 0.75;
      var wordClip := TextClip(word, style, wordInfo.start, wordDuration, yPos);
      var shadowClip := TextClip(word, style.(color := ShadowColor), wordInfo.start, wordDuration, yPos + 5.0);
      clips := clips + [shadowClip, wordClip];
      assert segments[..k + 1][..k] == segments[..k];
    }
    assert segments[..|segments|] == segments;
  }

  /** Segment `k` owns clips `2k` (the shadow) and `2k + 1` (the word): both
      show the upper-cased word from the segment's start for its length;
      the word sits at three quarters of the height in the chosen colour,
      the shadow is black and exactly five pixels lower. */
  lemma {:induction false} WordClipsLayout(segments: seq<Segment>, height: nat, style: TextStyle, k: nat)
    requires k < |segments|
    ensures var r := WordClips(segments, height, style);
            var seg := segments[k];
            && r[2 * k].text == Upper(seg.word) && r[2 * k + 1].text == Upper(seg.word)
            && r[2 * k].start == seg.start && r[2 * k + 1].start == seg.start
            && r[2 * k].duration == seg.end - seg.start && r[2 * k + 1].duration == seg.end - seg.start
            && r[2 * k + 1].y == height as real * 0.75 && r[2 * k].y == r[2 * k + 1].y + 5.0
            && r[2 * k + 1].style == style && r[2 * k].style == style.(color := ShadowColor)
    decreases |segments|
  {
    var last := |segments| - 1;
    if k < last {
      var init := segments[..last];
      WordClipsLayout(init, height, style, k);
      assert init[k] == segments[k];
    }
  }

  /** `os.path.splitext(video_path)[0] + '_sub.mp4'`: everything of the
      video path before its extension, then `_sub.mp4`. */
  function SubtitleOutputPath(videoPath: string): (r: string)
    ensures EndsWith(r, "_sub.mp4")
    ensures |r| == |SplitExt(videoPath).0| + 8
    ensures r[..|SplitExt(videoPath).0|] == videoPath[..|SplitExt(videoPath).0|]
    ensures SplitExt(videoPath).1 == [] ==> r == videoPath + "_sub.mp4"
  {
    SplitExt(videoPath).0 + "_sub.mp4"
  }

  /** The subtitled file is the video's stem with `_sub` appended, and its
      extension is `.mp4` whatever the input's was. */
  lemma SubtitleOutputKeepsStem(videoPath: string)
    ensures SplitExt(SubtitleOutputPath(videoPath)) == (SplitExt(videoPath).0 + "_sub", ".mp4")
  {
    var stem := SplitExt(videoPath).0;
    assert SubtitleOutputPath(videoPath) == stem + "_sub" + ".mp4";
    SplitExtOfTagged(stem, "_sub", ".mp4");
  }

  /** The pipeline's driver looks for the subtitled video at
      `<dir>/<safe>/<safe>_sub.mp4`. The stage writes it exactly there
      unless the sanitised title is made of dots only (or is empty, as for
      the title ":"): then the video `<safe>.mp4` counts as a hidden file
      without extension, and the stage writes `<safe>.mp4_sub.mp4`. */
  lemma SubtitlePathMatchesDriver(videoDir: string, title: string)
    ensures var safe := SanitizeTitle(title);
            var video := ArtifactPath(videoDir, safe, ".mp4");
            && (SubtitleOutputPath(video) == ArtifactPath(videoDir, safe, "_sub.mp4") <==> !AllDots(safe))
            && (AllDots(safe) ==> SubtitleOutputPath(video) == video + "_sub.mp4")
  {
    var safe := SanitizeTitle(title);
    var dirPart := DirPart(Join(videoDir, safe));
    ArtifactPathShape(videoDir, safe, ".mp4");
    ArtifactPathShape(videoDir, safe, "_sub.mp4");
    OutputOfComponent(dirPart, safe);
  }

  lemma OutputOfComponent(dirPart: string, stem: string)
    requires dirPart == [] || dirPart[|dirPart| - 1] == '/'
    requires '/' !in stem
    ensures var video := dirPart + stem + ".mp4";
            && (SubtitleOutputPath(video) == dirPart + stem + "_sub.mp4" <==> !AllDots(stem))
            && (AllDots(stem) ==> SubtitleOutputPath(video) == video + "_sub.mp4")
  {
    SplitExtOfComponent(dirPart, stem, ".mp4");
    var video := dirPart + stem + ".mp4";
    if AllDots(stem) {
      assert |SubtitleOutputPath(video)| == |dirPart + stem + "_sub.mp4"| + 4;
    } else {
      assert SubtitleOutputPath(video) == (dirPart + stem) + "_sub.mp4";
    }
  }

  /** `add_subtitles_to_video`: the video and the transcript must exist, an
      existing output is left alone, otherwise the stage renders the video
      with the word clips in the default style over it. `existing` is the
      set of paths on disk, `segments` the transcript's words and
      `videoSize` the size the video reader reports. */
  method AddSubtitlesToVideo(title: string, videoDir: string, transDir: string, existing: set<string>,
                             segments: seq<Segment>, videoSize: (nat, nat))
    returns (r: Stage<Overlay>)
    ensures var safe := SanitizeTitle(title);
            var video := ArtifactPath(videoDir, safe, ".mp4");
            var transcript := ArtifactPath(transDir, safe, ".json");
            var output := SubtitleOutputPath(video);
            && (video !in existing ==> r == Failed(FileNotFound(video)))
            && (video in existing && transcript !in existing ==> r == Failed(FileNotFound(transcript)))
            && (video in existing && transcript in existing && output in existing ==> r == Skipped(output))
            && (video in existing && transcript in existing && output !in existing ==>
                  r == Written(output, Overlay(video, WordClips(segments, videoSize.1, DefaultStyle))))
  {
    var titleSafe := SanitizeTitle(title);
    var videoPath := ArtifactPath(videoDir, titleSafe, ".mp4");
    if videoPath !in existing {
      return Failed(FileNotFound(videoPath));
    }
    var transcriptPath := ArtifactPath(transDir, titleSafe, ".json");
    if transcriptPath !in existing {
      return Failed(FileNotFound(transcriptPath));
    }
    var outputPath := SubtitleOutputPath(videoPath);
    if outputPath in existing {
      return Skipped(outputPath);
    }
    var clips := GenerateWordByWordClips(segments, videoSize, DefaultStyle.fontSize, DefaultStyle.color,
                                         DefaultStyle.strokeColor, DefaultStyle.strokeWidth);
    return Written(outputPath, Overlay(videoPath, clips));
  }
}
