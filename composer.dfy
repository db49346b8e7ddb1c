/** The clip list that `generate_video` builds before handing it to the
    media library: one panned still per (image, scene duration) pair, with
    crossfades. Media objects are records; concatenation and encoding are
    the library's. */
module Composer {
  import opened Outcomes
  import opened Paths
  import opened PanCrop

  /** The pixel size the image loader reports for an image file. */
  datatype ImageSize = ImageSize(width: nat, height: nat)

  /** An entry of the images directory. */
  type ImageFile = Entry<ImageSize>

  /** One clip of the composed video. */
  datatype VideoClip = VideoClip(
    image: string,          // path of the still image
    duration: real,         // `set_duration`: end - start of its scene
    sourceWidth: nat,       // `clip.w`
    cropWidth: int,         // the window width, `int(h * 9 / 16)`
    cropHeight: nat,        // the window height, `clip.h`
    direction: Direction,   // chosen by the clip's index
    fadeIn: Option<real>,   // `crossfadein(τ)`
    fadeOut: Option<real>)  // `crossfadeout(τ)`

  /** The `.png` entries of the images directory, as paths inside it, in
      listing order. */
  function PngImages(dir: string, listing: seq<ImageFile>): (r: seq<ImageFile>)
    ensures |r| <= |listing|
    ensures forall g :: g in r ==> EndsWith(g.name, ".png")
  {
    WithSuffixEndsWith(dir, listing, ".png");
    WithSuffix(dir, listing, ".png")
  }

  /** `[(end - start) for start, end in scene_durations]` */
  function AdjustedDurations(pairs: seq<(real, real)>): (r: seq<real>)
    ensures |r| == |pairs|
    ensures forall i :: 0 <= i < |pairs| ==> r[i] == pairs[i].1 - pairs[i].0
  {
    seq(|pairs|, i requires 0 <= i < |pairs| => pairs[i].1 - pairs[i].0)
  }

  /** `int(h * 9 / 16)`: the widest whole-pixel window of height `h` whose
      aspect ratio does not exceed 9:16. */
  function CropWidthFor(height: nat): (w: nat)
    ensures 16 * w <= 9 * height < 16 * w + 16
    ensures w <= height
  {
    Trunc((height * 9) as real / 16.0)
  }

  /** `apply_movement_effect` on a still held for `duration`: the window is
      `width` by `height` and the direction follows the parity of `index`. */
  function ApplyMovementEffect(image: ImageFile, duration: real, index: nat, width: int, height: nat): (r: VideoClip)
    ensures r.image == image.name && r.duration == duration && r.fadeIn == None && r.fadeOut == None
    ensures r.direction == LeftToRight <==> index % 2 == 0
    ensures forall t :: CropAt(r, t).Ok? <==> duration != 0.0
    ensures forall t :: CropAt(r, t).Ok? ==>
              var box := CropAt(r, t).value;
              box.y1 == 0 && box.width == width && box.height == height && 0 <= box.x1 <= Max(0, image.meta.width - width)
  {
    VideoClip(image.name, duration, image.meta.width, width, height, DirectionFor(index), None, None)
  }

  /** The crop window of clip `c` at time `t`: what the frame filter of
      `apply_movement_effect` cuts out of the still. */
  function CropAt(c: VideoClip, t: real): (r: Result<Box>)
    ensures r.Ok? <==> c.duration != 0.0
    ensures r.Ok? ==> r.value.y1 == 0 && r.value.width == c.cropWidth && r.value.height == c.cropHeight
                      && 0 <= r.value.x1 <= Max(0, c.sourceWidth - c.cropWidth)
  {
    CropBox(c.direction, t, c.sourceWidth, c.cropWidth, c.cropHeight, c.duration)
  }

  /** `generate_video`'s default crossfade length in seconds, the one its
      caller relies on. */
  const DefaultTransition: real := 1.0

  /** The clip for the `i`-th (image, scene) pair before crossfades. */
  function PannedClip(image: ImageFile, duration: real, index: nat): VideoClip {
    ApplyMovementEffect(image, duration, index, CropWidthFor(image.meta.height), image.meta.height)
  }

  /** The crossfade of the clip at position `index`: the first clip fades
      out, every later clip fades in. */
  function Faded(clip: VideoClip, index: nat, transitionDuration: real): VideoClip {
    if index == 0 then clip.(fadeOut := Some(transitionDuration)) else clip.(fadeIn := Some(transitionDuration))
  }

  /** The clip list `generate_video` hands to the concatenation, or the
      error raised when there is none. */
  function ClipPlan(images: seq<ImageFile>, sceneDurations: seq<(real, real)>, transitionDuration: real)
    : Result<seq<VideoClip>>
  {
    var n := Min(|images|, |sceneDurations|);
    var durations := AdjustedDurations(sceneDurations);
    if n == 0 then Err(EmptyClipList)
    else Ok(seq(n, i requires 0 <= i < n => Faded(PannedClip(images[i], durations[i], i), i, transitionDuration)))
  }

  /** `zip` pairs images with scene durations up to the shorter list; clip
      `i` shows image `i` for the length of scene `i`, panned in the
      direction of `i`'s parity through a 9:16 window of the image's full
      height; the first clip fades out, every later clip fades in; having no
      clip at all raises. At every time `t`, clip `i` crops its image with
      the pan window of `i`'s direction over the clip's duration. */
  lemma ClipPlanLayout(images: seq<ImageFile>, sceneDurations: seq<(real, real)>, transitionDuration: real)
    ensures var r := ClipPlan(images, sceneDurations, transitionDuration);
      && (r.Err? <==> images == [] || sceneDurations == [])
      && (r.Err? ==> r.error == EmptyClipList)
      && (r.Ok? ==> |r.value| == Min(|images|, |sceneDurations|))
      && (r.Ok? ==> forall i :: 0 <= i < |r.value| ==>
            && r.value[i].image == images[i].name
            && r.value[i].duration == sceneDurations[i].1 - sceneDurations[i].0
            && r.value[i].sourceWidth == images[i].meta.width
            && r.value[i].cropHeight == images[i].meta.height
            && r.value[i].cropWidth == CropWidthFor(images[i].meta.height)
            && r.value[i].direction == DirectionFor(i)
            && r.value[i].fadeOut == (if i == 0 then Some(transitionDuration) else None)
            && r.value[i].fadeIn == (if i == 0 then None else Some(transitionDuration))
            && forall t :: CropAt(r.value[i], t) ==
                 CropBox(DirectionFor(i), t, images[i].meta.width, CropWidthFor(images[i].meta.height),
                         images[i].meta.height, sceneDurations[i].1 - sceneDurations[i].0))
  {
  }

  /** `generate_video` up to the point where the clips are concatenated:
      `listing` is the images directory in natural order, `sceneDurations`
      the `(start, end)` pairs of the scenes. */
  method GenerateVideo(imagesDir: string, listing: seq<ImageFile>, sceneDurations: seq<(real, real)>,
                       transitionDuration: real)
    returns (r: Result<seq<VideoClip>>)
    ensures r == ClipPlan(PngImages(imagesDir, listing), sceneDurations, transitionDuration)
  {
    var imageFiles := PngImages(imagesDir, listing);
    var adjustedDurations := AdjustedDurations(sceneDurations);
    var imageClips := PanImages(imageFiles, adjustedDurations);
    if |imageClips| == 0 {
      return Err(EmptyClipList);
    }
    var clips := Crossfade(imageClips, transitionDuration);
    assert clips == ClipPlan(imageFiles, sceneDurations, transitionDuration).value;
    r := Ok(clips);
  }

  /** The `zip`/`enumerate` loop of `generate_video`: one panned still per
      pair, stopping at the shorter list. */
  method PanImages(imageFiles: seq<ImageFile>, adjustedDurations: seq<real>) returns (imageClips: seq<VideoClip>)
    ensures |imageClips| == Min(|imageFiles|, |adjustedDurations|)
    ensures forall k :: 0 <= k < |imageClips| ==> imageClips[k] == PannedClip(imageFiles[k], adjustedDurations[k], k)
  {
    imageClips := [];
    for i := 0 to Min(|imageFiles|, |adjustedDurations|)
      invariant |imageClips| == i
      invariant forall k :: 0 <= k < i ==> imageClips[k] == PannedClip(imageFiles[k], adjustedDurations[k], k)
    {
      var img := imageFiles[i];
      var tiktokHeight := img.meta.height;
      var tiktokWidth := CropWidthFor(tiktokHeight);
      var clip := ApplyMovementEffect(img, adjustedDurations[i], i, tiktokWidth, tiktokHeight);
      imageClips := imageClips + [clip];
    }
  }

  /** The crossfade loop of `generate_video`: the first clip fades out and
      every later clip fades in. */
  method Crossfade(imageClips: seq<VideoClip>, transitionDuration: real) returns (clips: seq<VideoClip>)
    requires imageClips != []
    ensures |clips| == |imageClips|
    ensures forall k :: 0 <= k < |clips| ==> clips[k] == Faded(imageClips[k], k, transitionDuration)
  {
    clips := [imageClips[0].(fadeOut := Some(transitionDuration))];
    for i := 1 to |imageClips|
      invariant |clips| == i
      invariant forall k :: 0 <= k < i ==> clips[k] == Faded(imageClips[k], k, transitionDuration)
    {
      clips := clips + [imageClips[i].(fadeIn := Some(transitionDuration))];
    }
  }
}
