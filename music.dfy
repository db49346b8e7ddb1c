/** The background-music stage (`add_background_music_to_video`): a track
    drawn from the music directory, turned down and cut so that its tail
    plays under the video. The mixing itself is the media library's work;
    the model states which file, which window and which gain. */
module Music {
  import opened Outcomes
  import opened Paths
  import opened Subtitles

  /** An entry of the music directory, with the track length in seconds
      the audio reader reports for it. */
  type MusicFile = Entry<real>

  /** What the stage renders: the video with the original sound and the
      window `[windowStart, windowEnd]` of `track` at `gain` mixed in. */
  datatype MusicMix = MusicMix(video: string, track: string, gain: real, windowStart: real, windowEnd: real)

  /** `volumex(0.2)` */
  const MusicGain: real := 0.2

  /** `f"{base}_music{ext}"` with `base, ext = os.path.splitext(video_path)` */
  function MusicOutputPath(videoPath: string): (r: string)
    ensures |r| == |videoPath| + 6
    ensures EndsWith(r, "_music" + SplitExt(videoPath).1)
    ensures r[..|SplitExt(videoPath).0|] == videoPath[..|SplitExt(videoPath).0|]
  {
    var (base, ext) := SplitExt(videoPath);
    var r := base + ("_music" + ext);
    assert r[|r| - |"_music" + ext|..] == "_music" + ext;
    assert r[..|base|] == base == videoPath[..|base|];
    assert r == base + "_music" + ext;
    r
  }

  /** The music output keeps the video's extension and adds `_music` to its
      stem. */
  lemma MusicOutputKeepsExtension(videoPath: string)
    ensures SplitExt(MusicOutputPath(videoPath)) == (SplitExt(videoPath).0 + "_music", SplitExt(videoPath).1)
  {
    var (base, ext) := SplitExt(videoPath);
    assert MusicOutputPath(videoPath) == base + "_music" + ext;
    SplitExtOfTagged(base, "_music", ext);
  }

  /** `subclip(max(0, track - video), track)`: the last `video` seconds of
      the track, or all of it when the track is the shorter. */
  function MusicWindow(trackDuration: real, videoDuration: real): (w: (real, real))
    ensures w.1 == trackDuration
    ensures 0.0 <= w.0
    ensures 0.0 <= trackDuration && 0.0 <= videoDuration ==>
              w.0 <= w.1 && w.1 - w.0 == MinReal(trackDuration, videoDuration)
  {
    (MaxReal(0.0, trackDuration - videoDuration), trackDuration)
  }

  /** The `.mp3` entries of the music directory, as paths inside it. */
  function Mp3Tracks(musicDir: string, listing: seq<MusicFile>): (r: seq<MusicFile>)
    ensures |r| <= |listing|
    ensures forall g :: g in r ==> EndsWith(g.name, ".mp3")
  {
    WithSuffixEndsWith(musicDir, listing, ".mp3");
    WithSuffix(musicDir, listing, ".mp3")
  }

  /** `add_background_music_to_video`. `existing` is the set of paths on
      disk, `listing` the music directory, `videoDuration` the length the
      video reader reports, `videoHasAudio` whether the video has a sound
      track, and `pick` the draw of `random.choice`, which selects track
      `pick % n` of the `n` candidates. An existing output is returned
      untouched; a missing video cannot be opened; an empty pool makes the
      draw fail; a video without sound makes the final mix fail. */
  function AddBackgroundMusic(videoPath: string, musicDir: string, listing: seq<MusicFile>, existing: set<string>,
                              videoDuration: real, videoHasAudio: bool, pick: nat): (r: Stage<MusicMix>)
    ensures MusicOutputPath(videoPath) in existing ==> r == Skipped(MusicOutputPath(videoPath))
    ensures r.Skipped? <==> MusicOutputPath(videoPath) in existing
    ensures MusicOutputPath(videoPath) !in existing && videoPath !in existing ==> r == Failed(MediaNotFound(videoPath))
    ensures MusicOutputPath(videoPath) !in existing && videoPath in existing ==>
              && (r.Failed? <==> Mp3Tracks(musicDir, listing) == [] || !videoHasAudio)
              && (r.Failed? ==> r.error == if Mp3Tracks(musicDir, listing) == [] then EmptyTrackPool
                                           else MissingAudioStream(videoPath))
    ensures r.Written? ==>
              && r.path == MusicOutputPath(videoPath)
              && r.plan.video == videoPath
              && r.plan.gain == MusicGain
              && exists f :: f in Mp3Tracks(musicDir, listing) && r.plan.track == f.name
                          && (r.plan.windowStart, r.plan.windowEnd) == MusicWindow(f.meta, videoDuration)
  {
    var outputPath := MusicOutputPath(videoPath);
    if outputPath in existing then Skipped(outputPath)
    else if videoPath !in existing then Failed(MediaNotFound(videoPath))
    else
      var musicFiles := Mp3Tracks(musicDir, listing);
      if musicFiles == [] then Failed(EmptyTrackPool)
      else
        var audio := musicFiles[pick % |musicFiles|];
        var (windowStart, windowEnd) := MusicWindow(audio.meta, videoDuration);
        // mixing the video's own sound with the track needs a sound track
        if !videoHasAudio then Failed(MissingAudioStream(videoPath))
        else Written(outputPath, MusicMix(videoPath, audio.name, MusicGain, windowStart, windowEnd))
  }

  /** The value the Python function returns: the output path when it skips,
      nothing after writing, and it raises on failure. */
  function ReturnedPath(r: Stage<MusicMix>): (p: Option<string>)
    ensures p.Some? <==> r.Skipped?
    ensures p.Some? ==> p.value == r.path
  {
    if r.Skipped? then Some(r.path) else None
  }

  /** The chosen track is an `.mp3` file of the music directory. */
  lemma ChosenTrackIsMp3(videoPath: string, musicDir: string, listing: seq<MusicFile>,
                         existing: set<string>, videoDuration: real, videoHasAudio: bool, pick: nat)
    ensures var r := AddBackgroundMusic(videoPath, musicDir, listing, existing, videoDuration, videoHasAudio, pick);
            r.Written? ==> EndsWith(r.plan.track, ".mp3")
  {
    WithSuffixEndsWith(musicDir, listing, ".mp3");
  }

  /** Running the stage again once its output is on disk changes nothing
      and hands back the same path. */
  lemma MusicStageIdempotent(videoPath: string, musicDir: string, listing: seq<MusicFile>,
                             existing: set<string>, videoDuration: real, videoHasAudio: bool, pick: nat, pick2: nat)
    ensures var r := AddBackgroundMusic(videoPath, musicDir, listing, existing, videoDuration, videoHasAudio, pick);
            r.Written? ==>
              var again := AddBackgroundMusic(videoPath, musicDir, listing, existing + {r.path}, videoDuration,
                                              videoHasAudio, pick2);
              again == Skipped(r.path) && ReturnedPath(again) == Some(r.path)
  {
  }

  /** With both optional stages on, the final video is the original stem
      with `_sub_music.mp4`, the suffix the front end looks for. */
  lemma SubtitledThenMusic(videoPath: string)
    ensures MusicOutputPath(SubtitleOutputPath(videoPath)) == SplitExt(videoPath).0 + "_sub" + "_music" + ".mp4"
  {
    SubtitleOutputKeepsStem(videoPath);
  }
}
