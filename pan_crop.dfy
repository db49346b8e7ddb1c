/** The crop-origin arithmetic of `apply_movement_effect`: a still image of
    width `W` is shown through a window of width `w` that slides across it
    during a clip of duration `D`. */
module PanCrop {
  import opened Outcomes

  /** Even-indexed clips pan left to right, odd-indexed ones right to left. */
  datatype Direction = LeftToRight | RightToLeft

  /** The crop rectangle handed to the frame renderer. */
  datatype Box = Box(x1: int, y1: int, width: int, height: int)

  function DirectionFor(index: nat): (d: Direction)
    ensures d == LeftToRight <==> index % 2 == 0
  {
    if index % 2 == 0 then LeftToRight else RightToLeft
  }

  /** Python's `int()` of a float: truncation toward zero. */
  function Trunc(r: real): (n: int)
    ensures 0.0 <= r ==> n as real <= r < n as real + 1.0
    ensures r < 0.0 ==> n as real - 1.0 < r <= n as real
  {
    if r >= 0.0 then r.Floor else -((-r).Floor)
  }

  /** `max(0, min(x, hi))` */
  function Clamp(x: int, hi: int): (r: int)
    ensures 0 <= r <= Max(0, hi)
    ensures 0 <= x <= hi ==> r == x
    ensures x < 0 ==> r == 0
    ensures hi < x ==> r == Max(0, hi)
  {
    Max(0, Min(x, hi))
  }

  /** `t * (W - w) / D`: how far the window has travelled at time `t`. */
  function Progress(t: real, span: int, duration: real): real
    requires duration != 0.0
  {
    t * span as real / duration
  }

  /** The horizontal crop origin at time `t` (the inner functions
      `move_left_to_right` and `move_right_to_left`). Dividing by a zero
      duration raises. */
  function CropOrigin(dir: Direction, t: real, sourceWidth: int, width: int, duration: real): (r: Result<int>)
    ensures r.Ok? <==> duration != 0.0
    ensures r.Ok? ==> 0 <= r.value <= Max(0, sourceWidth - width)
  {
    if duration == 0.0 then Err(ZeroDivision)
    else
      var span := sourceWidth - width;
      var x := match dir
        case LeftToRight => Trunc(Progress(t, span, duration))
        case RightToLeft => Trunc(span as real - Progress(t, span, duration));
      Ok(Clamp(x, span))
  }

  /** `clip.crop(x1=x, y1=0, width=w, height=h)`: the window never moves
      vertically and always has the target size. */
  function CropBox(dir: Direction, t: real, sourceWidth: int, width: int, height: int, duration: real): (r: Result<Box>)
    ensures r.Ok? <==> duration != 0.0
    ensures r.Ok? ==> r.value.y1 == 0 && r.value.width == width && r.value.height == height
    ensures r.Ok? ==> 0 <= r.value.x1 <= Max(0, sourceWidth - width)
  {
    match CropOrigin(dir, t, sourceWidth, width, duration)
    case Err(e) => Err(e)
    case Ok(x) => Ok(Box(x, 0, width, height))
  }

  lemma TruncOfInt(n: int)
    ensures Trunc(n as real) == n
  {
  }

  lemma TruncMonotone(a: real, b: real)
    requires a <= b
    ensures Trunc(a) <= Trunc(b)
  {
  }

  lemma ScaleMonotone(t1: real, t2: real, span: int, duration: real)
    requires t1 <= t2 && 0 <= span && 0.0 < duration
    ensures Progress(t1, span, duration) <= Progress(t2, span, duration)
  {
    assert t1 * span as real <= t2 * span as real;
  }

  /** The pan starts and ends at the two extremes of the image: left to
      right goes from 0 to `W - w`, right to left from `W - w` to 0. */
  lemma PanEndpoints(sourceWidth: int, width: int, duration: real)
    requires width <= sourceWidth && 0.0 < duration
    ensures CropOrigin(LeftToRight, 0.0, sourceWidth, width, duration) == Ok(0)
    ensures CropOrigin(LeftToRight, duration, sourceWidth, width, duration) == Ok(sourceWidth - width)
    ensures CropOrigin(RightToLeft, 0.0, sourceWidth, width, duration) == Ok(sourceWidth - width)
    ensures CropOrigin(RightToLeft, duration, sourceWidth, width, duration) == Ok(0)
  {
    var span := sourceWidth - width;
    ProgressEnds(span, duration);
    TruncOfInt(0);
    TruncOfInt(span);
  }

  lemma ProgressEnds(span: int, duration: real)
    requires 0.0 < duration
    ensures Progress(0.0, span, duration) == 0.0
    ensures Progress(duration, span, duration) == span as real
  {
  }

  /** Within a clip the window moves one way only: non-decreasing when
      panning left to right, non-increasing when panning right to left. */
  lemma PanMonotone(sourceWidth: int, width: int, duration: real, t1: real, t2: real)
    requires 0.0 < duration && t1 <= t2
    ensures CropOrigin(LeftToRight, t1, sourceWidth, width, duration).value <=
            CropOrigin(LeftToRight, t2, sourceWidth, width, duration).value
    ensures CropOrigin(RightToLeft, t1, sourceWidth, width, duration).value >=
            CropOrigin(RightToLeft, t2, sourceWidth, width, duration).value
  {
    var span := sourceWidth - width;
    var a, b := Progress(t1, span, duration), Progress(t2, span, duration);
    if 0 <= span {
      ScaleMonotone(t1, t2, span, duration);
    }
    ClampedTruncMonotone(a, b, span);
    OriginUnfold(t1, sourceWidth, width, duration);
    OriginUnfold(t2, sourceWidth, width, duration);
  }

  lemma OriginUnfold(t: real, sourceWidth: int, width: int, duration: real)
    requires duration != 0.0
    ensures var span := sourceWidth - width;
            && CropOrigin(LeftToRight, t, sourceWidth, width, duration).value
               == Clamp(Trunc(Progress(t, span, duration)), span)
            && CropOrigin(RightToLeft, t, sourceWidth, width, duration).value
               == Clamp(Trunc(span as real - Progress(t, span, duration)), span)
  {
  }

  /** Clamping after truncation keeps order whenever the window can move at
      all; when it cannot (`hi < 0`) both sides are 0. */
  lemma ClampedTruncMonotone(a: real, b: real, hi: int)
    requires 0 <= hi ==> a <= b
    ensures Clamp(Trunc(a), hi) <= Clamp(Trunc(b), hi)
    ensures Clamp(Trunc(hi as real - a), hi) >= Clamp(Trunc(hi as real - b), hi)
  {
    if 0 <= hi {
      TruncMonotone(a, b);
      TruncMonotone(hi as real - b, hi as real - a);
      ClampMonotone(Trunc(a), Trunc(b), hi);
      ClampMonotone(Trunc(hi as real - b), Trunc(hi as real - a), hi);
    }
  }

  lemma ClampMonotone(x: int, y: int, hi: int)
    requires x <= y
    ensures Clamp(x, hi) <= Clamp(y, hi)
  {
  }

  /** An image no wider than the window is never panned. */
  lemma NarrowImageStaysPut(dir: Direction, t: real, sourceWidth: int, width: int, duration: real)
    requires sourceWidth <= width && duration != 0.0
    ensures CropOrigin(dir, t, sourceWidth, width, duration) == Ok(0)
  {
  }
}
