/** The time allocator: `count_total_words` and the timing loop of
    `update_and_save_scene_times`, which spread the narration over the
    scenes in proportion to their word counts. */
module SceneTimes {
  import opened Outcomes
  import opened Words
  import opened Titles
  import opened Paths

  /** One entry of the script's `scenes` list; `start` and `end` (seconds)
      are absent until the allocator has run. */
  datatype Scene = Scene(order: int, script: string, imagePrompt: string, start: Option<real>, end: Option<real>)

  /** Words of all scenes, summed in list order. */
  function TotalWords(scenes: seq<Scene>): nat {
    if scenes == [] then 0
    else TotalWords(scenes[..|scenes| - 1]) + WordCount(scenes[|scenes| - 1].script)
  }

  /** `count_total_words`: the accumulator loop over the scene list. */
  method CountTotalWords(scenes: seq<Scene>) returns (total: nat)
    ensures total == TotalWords(scenes)
  {
    total := 0;
    for i := 0 to |scenes|
      invariant total == TotalWords(scenes[..i])
    {
      assert scenes[..i + 1][..i] == scenes[..i];
      total := total + WordCount(scenes[i].script);
    }
    assert scenes[..|scenes|] == scenes;
  }

  /** Maximal non-whitespace runs of all scripts, summed in list order. */
  function SumRuns(scenes: seq<Scene>): nat {
    if scenes == [] then 0
    else SumRuns(scenes[..|scenes| - 1]) + RunCount(scenes[|scenes| - 1].script)
  }

  /** The total is the number of maximal non-whitespace runs over all
      scripts, and it is zero exactly when every script is blank. */
  lemma {:induction false} TotalWordsIsRunCount(scenes: seq<Scene>)
    ensures TotalWords(scenes) == SumRuns(scenes)
    ensures TotalWords(scenes) == 0 <==> forall i :: 0 <= i < |scenes| ==> RunCount(scenes[i].script) == 0
    ensures TotalWords(scenes) == 0 <==>
              forall i, j :: 0 <= i < |scenes| && 0 <= j < |scenes[i].script| ==> IsSpace(scenes[i].script[j])
  {
    if scenes != [] {
      var init, last := scenes[..|scenes| - 1], scenes[|scenes| - 1];
      TotalWordsIsRunCount(init);
      WordCountIsRunCount(last.script);
      NoWordsIffBlank(last.script);
      assert forall i :: 0 <= i < |init| ==> init[i] == scenes[i];
    }
  }

  lemma TotalWordsStep(scenes: seq<Scene>, i: nat)
    requires i < |scenes|
    ensures TotalWords(scenes[..i + 1]) == TotalWords(scenes[..i]) + WordCount(scenes[i].script)
  {
    assert scenes[..i + 1][..i] == scenes[..i];
  }

  /** Scene `i` once timed: it starts when the words of the scenes before it
      have been narrated and ends when its own words have been. */
  function Timed(scenes: seq<Scene>, i: nat, perWord: real): Scene
    requires i < |scenes|
  {
    scenes[i].(start := Some(Share(perWord, TotalWords(scenes[..i]))),
               end := Some(Share(perWord, TotalWords(scenes[..i + 1]))))
  }

  /** The narration time taken by `words` words. */
  function Share(perWord: real, words: nat): real {
    perWord * words as real
  }

  /** The whole scene list once timed. */
  function Timeline(scenes: seq<Scene>, perWord: real): (r: seq<Scene>)
    ensures |r| == |scenes|
    ensures forall i :: 0 <= i < |r| ==> r[i] == Timed(scenes, i, perWord)
  {
    seq(|scenes|, i requires 0 <= i < |scenes| => Timed(scenes, i, perWord))
  }

  lemma ClockStep(perWord: real, before: nat, words: nat)
    ensures Share(perWord, before) + words as real * perWord == Share(perWord, before + words)
  {
  }

  /** `len(audio) / 1000.0`: the narration length in seconds. */
  function Seconds(millis: nat): (r: real)
    ensures 0.0 <= r && r * 1000.0 == millis as real
  {
    millis as real / 1000.0
  }

  /** `<audio>/<safe>/<safe>.mp3` */
  function AudioPath(audioDir: string, title: string): (r: string)
    ensures EndsWith(r, SanitizeTitle(title) + ".mp3")
  {
    ArtifactPath(audioDir, SanitizeTitle(title), ".mp3")
  }

  /** `<json>/<safe>/<safe>.json` */
  function ScriptJsonPath(jsonDir: string, title: string): (r: string)
    ensures EndsWith(r, SanitizeTitle(title) + ".json")
  {
    ArtifactPath(jsonDir, SanitizeTitle(title), ".json")
  }

  /** `update_and_save_scene_times`. The file system is the set `existing`
      of paths present and the narration length is `audioMillis`. The
      script's scene list is `scenes`, updated in place; on success the
      result is the path the updated script is saved to. */
  method UpdateSceneTimes(title: string, scenes: array<Scene>, audioDir: string, jsonDir: string,
                          existing: set<string>, audioMillis: nat)
    returns (r: Result<string>)
    modifies scenes
    ensures AudioPath(audioDir, title) !in existing ==>
              r == Err(FileNotFound(AudioPath(audioDir, title))) && scenes[..] == old(scenes[..])
    ensures AudioPath(audioDir, title) in existing && TotalWords(old(scenes[..])) == 0 ==>
              r == Err(ZeroDivision) && scenes[..] == old(scenes[..])
    ensures AudioPath(audioDir, title) in existing && TotalWords(old(scenes[..])) > 0 ==>
              r == Ok(ScriptJsonPath(jsonDir, title)) &&
              scenes[..] == Timeline(old(scenes[..]), Seconds(audioMillis) / TotalWords(old(scenes[..])) as real)
  {
    var audioPath := AudioPath(audioDir, title);
    if audioPath !in existing {
      return Err(FileNotFound(audioPath));
    }
    var totalDuration := Seconds(audioMillis);
    var totalWords := CountTotalWords(scenes[..]);
    if totalWords == 0 {
      return Err(ZeroDivision);
    }
    var perWord := totalDuration / totalWords as real;
    AssignTimes(scenes, perWord);
    return Ok(ScriptJsonPath(jsonDir, title));
  }

  /** The timing loop: a running clock threaded through the scenes, each
      scene's `start` and `end` written in place. */
  method AssignTimes(scenes: array<Scene>, perWord: real)
    modifies scenes
    ensures scenes[..] == Timeline(old(scenes[..]), perWord)
  {
    ghost var original := scenes[..];
    var currentTime := 0.0;
    var i := 0;
    while i < scenes.Length
      invariant 0 <= i <= scenes.Length
      invariant currentTime == Share(perWord, TotalWords(original[..i]))
      invariant forall k :: 0 <= k < i ==> scenes[k] == Timed(original, k, perWord)
      invariant forall k :: i <= k < scenes.Length ==> scenes[k] == original[k]
    {
      var sceneDuration := WordCount(scenes[i].script) as real * perWord;
      TotalWordsStep(original, i);
      ClockStep(perWord, TotalWords(original[..i]), WordCount(original[i].script));
      assert currentTime + sceneDuration == Share(perWord, TotalWords(original[..i + 1]));
      scenes[i] := scenes[i].(start := Some(currentTime));
      currentTime := currentTime + sceneDuration;
      scenes[i] := scenes[i].(end := Some(currentTime));
      i := i + 1;
    }
    assert scenes[..] == Timeline(original, perWord);
  }

  /** The first scene starts at time zero. */
  lemma AllocationStartsAtZero(scenes: seq<Scene>, perWord: real)
    requires scenes != []
    ensures Timeline(scenes, perWord)[0].start == Some(0.0)
  {
    assert scenes[..0] == [];
  }

  /** Each scene ends exactly where the next one starts. */
  lemma AllocationIsContiguous(scenes: seq<Scene>, perWord: real, i: nat)
    requires i + 1 < |scenes|
    ensures Timeline(scenes, perWord)[i].end == Timeline(scenes, perWord)[i + 1].start
  {
  }

  /** A scene lasts its word count times the narration time per word. */
  lemma AllocationDuration(scenes: seq<Scene>, perWord: real, i: nat)
    requires i < |scenes|
    ensures var s := Timeline(scenes, perWord)[i];
            s.start.Some? && s.end.Some? &&
            s.end.value - s.start.value == WordCount(scenes[i].script) as real * perWord
  {
    TotalWordsStep(scenes, i);
    ClockStep(perWord, TotalWords(scenes[..i]), WordCount(scenes[i].script));
  }

  /** Over exact arithmetic the last scene ends when the narration ends. */
  lemma AllocationEndsWithNarration(scenes: seq<Scene>, total: real)
    requires TotalWords(scenes) > 0
    ensures Timeline(scenes, total / TotalWords(scenes) as real)[|scenes| - 1].end == Some(total)
  {
    var n := TotalWords(scenes);
    assert |scenes| > 0;
    var perWord := total / n as real;
    LastEnd(scenes, perWord);
    DivTimes(total, n);
  }

  lemma LastEnd(scenes: seq<Scene>, perWord: real)
    requires scenes != []
    ensures Timeline(scenes, perWord)[|scenes| - 1].end == Some(Share(perWord, TotalWords(scenes)))
  {
    assert scenes[..|scenes|] == scenes;
  }

  lemma DivTimes(total: real, n: nat)
    requires n > 0
    ensures Share(total / n as real, n) == total
  {
  }

  /** Timing touches only `start` and `end`; order, script and prompt of each
      scene, and the order of the scenes, are kept. */
  lemma AllocationKeepsScenes(scenes: seq<Scene>, perWord: real, i: nat)
    requires i < |scenes|
    ensures Timeline(scenes, perWord)[i].(start := scenes[i].start, end := scenes[i].end) == scenes[i]
  {
  }
}
