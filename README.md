# auto-video-maker: the arithmetic and list logic under the media calls

auto-video-maker turns a generated script into a short vertical video.
The script is a title plus a list of scenes, each with narration text and an image prompt.
This project models the helpers in `aux_funcs.py` that decide *what* gets rendered. Rendering itself is left to the media libraries:

- **title sanitising**: the identifier used in every artifact path;
- **the time allocator**: `count_total_words` and the timing loop of `update_and_save_scene_times`. It spreads the narration over the scenes in proportion to their word counts and writes each scene's `start` and `end` in place;
- **the pan/crop effect**: the crop origin of `apply_movement_effect`;
- **the clip list of `generate_video`**: images paired with scene durations, a 9:16 crop window, and crossfades, by default one second long (`Composer.DefaultTransition`);
- **the subtitle stage**: the shadow and word caption clips of `generate_word_by_word_clips`, plus the path, existence and skip logic of `add_subtitles_to_video`;
- **the background-music stage**: the path and skip logic of `add_background_music_to_video`, the track draw, the gain, and the subclip window.

## How the system is represented

- The file system is a parameter `existing: set<string>`, the paths present on disk. A directory listing is a `seq<Entry<M>>` in the order the program sees it. Each entry carries what the media reader would report about that file: the pixel size of an image, the length of a track.
- Measurements the program reads from media files are parameters:
  - the narration length in milliseconds;
  - the video size and duration;
  - the transcript's word segments.
- `random.choice` is a parameter `pick`: the track chosen is candidate `pick % n`.
- Media objects are records:
  - `VideoClip`: image, duration, crop window, direction, fades;
  - `TextClip`: text, style, start, duration, vertical position;
  - `Overlay`;
  - `MusicMix`.
- An exception becomes an `Error` value. A stage that can skip returns a `Stage`: `Failed`, `Skipped(path)` or `Written(path, plan)`.
- Python floats are `real`. `int()` truncates toward zero (`PanCrop.Trunc`).
- `os.path.join` and `os.path.splitext` are modelled exactly for POSIX paths (`Paths.Join`, `Paths.SplitExt`), including the rule that a leading run of dots does not start an extension.
- `str.split()` uses Python's full `str.isspace` character set (`Words.IsSpace`).
- Behaviour of the code worth knowing:
  - `/` in a title becomes `_`; it is not removed;
  - the crop width is `int(h * 9 / 16)`, which truncates rather than rounds;
  - the crop origin truncates toward zero; after the clamp to `[0, W - w]` this equals flooring;
  - images and scene durations are paired by `zip`, which silently truncates to the shorter list;
  - the music stage mixes the video's own sound with the track, so a video without a sound track makes it fail.

Modules:

| module | file |
|---|---|
| `Outcomes` | `outcomes.dfy` |
| `Paths` | `paths.dfy` |
| `Titles` | `titles.dfy` |
| `Words` | `words.dfy` |
| `SceneTimes` | `scene_times.dfy` |
| `PanCrop` | `pan_crop.dfy` |
| `Composer` | `composer.dfy` |
| `Subtitles` | `subtitles.dfy` |
| `Music` | `music.dfy` |

## Model

| member | source | states |
|---|---|---|
| Paths.Join | aux_funcs.py:61 | `os.path.join(dir, name)` ends with `name` and, for a relative `name`, starts with `dir` |
| Paths.SplitExt | aux_funcs.py:266 | `os.path.splitext`: the two parts concatenate back to the path; the extension is empty or a single `.` followed by neither `/` nor `.` |
| Paths.WithSuffix | aux_funcs.py:136 | the listing filter with join: an entry of the listing with the suffix appears, joined to the directory; everything kept is such an entry; nothing is added |
| Paths.WithSuffixAppend | aux_funcs.py:136 | the filter keeps listing order: filtering two consecutive parts of a listing gives the two filtered parts one after the other |
| Paths.WithSuffixOne | aux_funcs.py:136 | a single entry is kept, joined to the directory, exactly when its name ends with the suffix |
| Paths.WithSuffixEndsWith | aux_funcs.py:280 | every kept path (image or track) ends with the suffix filtered on |
| Paths.EndsWith | aux_funcs.py:136 | `str.endswith`: by `Paths.EndsWithMeaning`, any string followed by the suffix ends with it, and a string that ends with it is its first part followed by the suffix |
| Paths.EndsWithMeaning | aux_funcs.py:280 | appending a suffix makes a string end with it; a string that ends with a suffix is its first `len - len(suffix)` characters followed by that suffix |
| Paths.ArtifactPath | aux_funcs.py:232 | the per-title path `os.path.join(dir, safe, safe + ext)` ends with `safe + ext` |
| Paths.SplitExtOfTagged | aux_funcs.py:266-267 | inserting a tag without `/` or `.` between stem and extension adds it to the stem and keeps the extension |
| Paths.SplitExtOfComponent | aux_funcs.py:240 | `<dir>/<stem><ext>` splits at the extension's dot exactly when the stem is not all dots; otherwise it has no extension |
| Paths.ArtifactPathShape | aux_funcs.py:232 | the per-title path `<dir>/<safe>/<safe><ext>` is a directory part followed by `safe` and `ext` |
| Titles.ReplaceChar | aux_funcs.py:48 | single-character `str.replace`: the pattern is gone when the replacement lacks it; every output character is an input character other than the pattern, or comes from the replacement; no occurrence means no change |
| Titles.ReplaceCharOne | aux_funcs.py:48 | on one character, the pattern becomes the replacement and any other character is kept |
| Titles.ReplaceCharAppend | aux_funcs.py:48 | replacing in a concatenation gives the two replaced parts in order; with `ReplaceCharOne` this fixes the whole output |
| Titles.SanitizeTitle | aux_funcs.py:48 | the sanitised title contains no space, `:` or `/` |
| Titles.SanitizeIsCharwise | aux_funcs.py:48 | the three chained replacements equal one left-to-right pass: space and `/` become `_`, `:` is dropped, every other character is kept in order |
| Titles.SanitizeIdempotent | aux_funcs.py:48 | sanitising twice equals sanitising once |
| Words.TokenLen | aux_funcs.py:53 | the length of the longest whitespace-free prefix: no whitespace inside, whitespace or end right after |
| Words.WordCount | aux_funcs.py:78 | `len(s.split())`; by `Words.WordCountIsRunCount` it equals the number of maximal non-whitespace runs |
| Words.IsSpace | aux_funcs.py:53 | the whitespace characters `str.split()` splits on: Python's `str.isspace` set |
| Words.Split | aux_funcs.py:53 | every word `str.split()` yields is non-empty and whitespace-free |
| Words.WordCountIsRunCount | aux_funcs.py:53 | `len(s.split())` equals the number of maximal non-whitespace runs of `s` |
| Words.SplitKeepsText | aux_funcs.py:53 | the words joined back together are exactly the non-whitespace characters of `s`, in order |
| Words.NoWordsIffBlank | aux_funcs.py:53 | a script has no words if and only if it is all whitespace |
| SceneTimes.CountTotalWords | aux_funcs.py:50-54 | the accumulator loop returns the sum, in list order, of the scripts' word counts (0 for no scenes) |
| SceneTimes.TotalWordsIsRunCount | aux_funcs.py:50-54 | the total equals the sum over the scripts of their numbers of non-whitespace runs; it is zero if and only if every script has no such run, that is, if and only if every script is all whitespace |
| SceneTimes.AudioPath | aux_funcs.py:61 | the narration audio is looked up at a path ending in `<safe>.mp3` |
| SceneTimes.Seconds | aux_funcs.py:67 | `len(audio) / 1000.0`: a non-negative number of seconds that is exactly the milliseconds divided by 1000 |
| SceneTimes.ScriptJsonPath | aux_funcs.py:85-87 | the timed script is saved at a path ending in `<safe>.json` |
| SceneTimes.Timeline | aux_funcs.py:75-83 | the timed scene list has one scene per input scene; scene `i` runs from the narration time of the words before it to that of the words up to and including it |
| SceneTimes.UpdateSceneTimes | aux_funcs.py:56-91 | missing narration audio raises not-found and no scene changes; zero words raises division by zero and no scene changes; otherwise the scenes become the timeline at `T / total_words` per word and the script is saved at `<json>/<safe>/<safe>.json` |
| SceneTimes.AssignTimes | aux_funcs.py:75-83 | the running-clock loop writes, in place, exactly the timeline of the original scenes |
| SceneTimes.AllocationStartsAtZero | aux_funcs.py:75 | the first scene starts at 0 |
| SceneTimes.AllocationIsContiguous | aux_funcs.py:81-83 | every scene ends where the next one starts |
| SceneTimes.AllocationDuration | aux_funcs.py:77-83 | a scene lasts its word count times the time per word |
| SceneTimes.AllocationEndsWithNarration | aux_funcs.py:67-83 | with per-word time `T / total_words`, the last scene ends at `T` |
| SceneTimes.AllocationKeepsScenes | aux_funcs.py:76-83 | timing changes only `start` and `end`; every other field and the scene order stay |
| PanCrop.DirectionFor | aux_funcs.py:116-119 | an even index pans left to right; an odd index pans right to left |
| PanCrop.Trunc | aux_funcs.py:107 | `int()` of a float: the integer at most 1 from it toward zero |
| PanCrop.Clamp | aux_funcs.py:108 | `max(0, min(x, W - w))` lies in `[0, max(0, W - w)]`: it keeps `x` when in range, gives 0 below it, and gives the upper bound above it |
| PanCrop.CropOrigin | aux_funcs.py:106-114 | the origin is defined exactly when the clip duration is non-zero, and then lies in `[0, max(0, W - w)]` |
| PanCrop.CropBox | aux_funcs.py:109 | the crop box has vertical origin 0, the target width and height, and an origin inside the clamp range |
| PanCrop.PanEndpoints | aux_funcs.py:106-114 | left to right goes from 0 at `t = 0` to `W - w` at `t = D`; right to left goes from `W - w` to 0 |
| PanCrop.PanMonotone | aux_funcs.py:106-114 | during a clip the origin never decreases when panning left to right and never increases when panning right to left |
| PanCrop.NarrowImageStaysPut | aux_funcs.py:108 | if the image is no wider than the window, the origin is 0 at all times |
| Composer.PngImages | aux_funcs.py:136 | the image list has no more entries than the listing, and every kept path ends with `.png` |
| Composer.AdjustedDurations | aux_funcs.py:137 | one duration per scene pair, equal to `end - start` |
| Composer.CropWidthFor | aux_funcs.py:144 | `int(h * 9 / 16)`: `16w <= 9h < 16w + 16`, and never wider than `h` |
| Composer.ApplyMovementEffect | aux_funcs.py:93-119 | the clip keeps the still and its duration and has no fades yet; it pans left to right exactly when the index is even; its crop exists at time `t` exactly when the duration is non-zero, and is then a full-height window of the given width at vertical origin 0 whose horizontal origin lies in `[0, max(0, W - w)]` |
| Composer.CropAt | aux_funcs.py:109 | the crop at time `t` exists exactly when the clip's duration is non-zero; it is then the clip's full window height and width at vertical origin 0, with its horizontal origin in `[0, max(0, W - w)]` |
| Composer.PanImages | aux_funcs.py:139-146 | the zip/enumerate loop yields `min(#images, #durations)` clips; clip `k` is image `k` panned by index `k` for duration `k` |
| Composer.Crossfade | aux_funcs.py:148-152 | one clip per input clip; the first fades out and every later one fades in |
| Composer.GenerateVideo | aux_funcs.py:135-152 | the clip list is exactly the plan over the `.png` entries of the images directory |
| Composer.ClipPlanLayout | aux_funcs.py:137-152 | the plan fails with the empty-list error if and only if there are no images or no pairs. Otherwise it has `min(#png, #pairs)` clips. Clip `i` shows image `i` for `end - start` of pair `i`, in a window `int(h * 9 / 16)` wide and as tall as that image, panning by the parity of `i`; at every time `t` its crop is the pan window of that direction over that duration. Clip 0 carries the fade-out and every later clip the fade-in |
| Subtitles.Upper | aux_funcs.py:180 | upper-casing keeps the length and leaves no lower-case ASCII letter; a character changes exactly when it is one, and then becomes the upper-case letter at the same place in the alphabet |
| Subtitles.WordClips | aux_funcs.py:179-196 | two clips per word segment |
| Subtitles.GenerateWordByWordClips | aux_funcs.py:160-198 | the append loop builds exactly the word-clip list for the given style with the source's font |
| Subtitles.WordClipsLayout | aux_funcs.py:179-196 | for segment `k`, clip `2k` is the black shadow and clip `2k + 1` the word in the chosen style. Both show the upper-cased word from the segment's start for `end - start`. The word sits at `0.75 * height` and the shadow exactly 5 lower |
| Subtitles.SubtitleOutputPath | aux_funcs.py:240 | the subtitled path ends in `_sub.mp4`, is 8 characters longer than the video's stem and begins with that stem; a video without extension simply gets `_sub.mp4` appended |
| Subtitles.SubtitleOutputKeepsStem | aux_funcs.py:240 | the subtitled file is the video's stem plus `_sub`, with extension `.mp4` |
| Subtitles.SubtitlePathMatchesDriver | main.py:154-158 | the stage writes to `<dir>/<safe>/<safe>_sub.mp4`, the path the driver reads next, if and only if the sanitised title is not all dots. For an all-dot or empty title (such as `:`) it writes `<safe>.mp4_sub.mp4` instead |
| Subtitles.AddSubtitlesToVideo | aux_funcs.py:230-250 | missing video raises not-found for the video; missing transcript raises not-found for the transcript; an existing output is skipped; otherwise the stage writes `stem + "_sub.mp4"` from the video with the word clips in the default style (font `fonts/KOMIKAX_.ttf`, size 80, yellow, black stroke 6) on top |
| Music.MusicOutputKeepsExtension | aux_funcs.py:266-267 | the music output keeps the video's extension and adds `_music` to its stem |
| Music.MusicOutputPath | aux_funcs.py:266-267 | the music output is 6 characters longer than the video path, begins with the video's stem and ends with `_music` followed by the video's extension |
| Music.Mp3Tracks | aux_funcs.py:280 | the track pool has no more entries than the listing, and every candidate path ends with `.mp3` |
| Music.MusicWindow | aux_funcs.py:290 | the window ends at the track's end and starts at or after 0. For non-negative lengths its length is `min(track, video)`, so the track's tail plays under the video |
| Music.AddBackgroundMusic | aux_funcs.py:265-299 | the stage skips, returning the output untouched, exactly when the output exists. A missing video cannot be opened. With the video present, the stage fails exactly when there is no `.mp3` track (the empty-choice error) or the video has no sound track (the mix of a missing audio fails). Otherwise it writes `base + "_music" + ext` mixing one `.mp3` track of the directory at gain 0.2 over that track's window |
| Music.ReturnedPath | aux_funcs.py:271 | the function returns a path exactly when it skips, and then the existing output's path; after writing it returns nothing |
| Music.ChosenTrackIsMp3 | aux_funcs.py:280-281 | the drawn track is an `.mp3` file |
| Music.MusicStageIdempotent | aux_funcs.py:269-271 | once the output exists, running the stage again skips, whatever the draw, and returns that same path |
| Music.SubtitledThenMusic | streamlit_app.py:129-130 | with both optional stages the final file is the original stem plus `_sub_music.mp4` |

## Left out

- Rendering is not modelled: all moviepy and pydub work, including loading, cropping frames, concatenation, compositing, audio mixing, text drawing and encoding. Clips are records of what would be rendered.
- The total length of the concatenated video after crossfades is not claimed; it is the media library's behaviour.
- Reading media lengths and sizes, and whether a video has a sound track, is not modelled; they are parameters.
- A corrupt media file that exists but cannot be decoded is not modelled. Only a missing file is.
- JSON loading and saving and `os.makedirs` are not modelled. The saved script is represented by the path `UpdateSceneTimes` returns; the Python function returns the updated script, which here is the array itself.
- Natural sorting and `os.listdir` order are not modelled; listings are taken in the order given.
- A missing images or music directory, where `os.listdir` raises, is not modelled.
- The audio track attached in `generate_video`, and the output file name it is given, are not modelled.
- Scene dictionaries are records in an array. Aliasing between the caller's dictionaries and other references is not modelled, and neither is a `KeyError` for a missing key.
- `random.choice` is replaced by the parameter `pick`; the model says which candidate, not how likely it is.
- Subtitles.Upper: upper-cases ASCII letters only. Python's `str.upper()` also maps non-ASCII letters, and sometimes to several characters.
- SceneTimes.AllocationEndsWithNarration: holds over exact reals. With floats, the accumulated clock can drift from `T` by rounding, and the source applies no correction.
- `create_project_structure`, the network generators, the per-stage wrappers and the command-line and web front ends are not part of this model. The only parts used are the subtitle path the driver reads next (main.py) and the display name of the final file (streamlit_app.py).
