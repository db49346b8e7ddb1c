/** Errors and results shared by every stage of the video pipeline.

    The Python code signals failure by raising; here each raise becomes an
    `Error` value, and each stage reports whether it failed, skipped its work
    because the output already exists, or produced its output. */
module Outcomes {

  /** The exceptions the core raises, named after the Python exception. */
  datatype Error =
    | FileNotFound(path: string)   // FileNotFoundError raised by an explicit existence check
    | MediaNotFound(path: string)  // the media reader cannot open a file that is not there
    | ZeroDivision                 // ZeroDivisionError of a float division by zero
    | EmptyClipList                // IndexError of `image_clips[0]` on an empty list
    | EmptyTrackPool               // IndexError of `random.choice([])`
    | MissingAudioStream(path: string) // mixing `None` (a video without sound) with a track raises

  datatype Option<+T> = None | Some(value: T)

  datatype Result<+T> = Ok(value: T) | Err(error: Error)

  /** What a pipeline stage did: failed, returned early because its output
      file already exists, or wrote `path` from the given plan. */
  datatype Stage<+T> =
    | Failed(error: Error)
    | Skipped(path: string)
    | Written(path: string, plan: T)

  function Min(a: int, b: int): int { if a <= b then a else b }

  function Max(a: int, b: int): int { if a >= b then a else b }

  function MaxReal(a: real, b: real): real { if a >= b then a else b }

  function MinReal(a: real, b: real): real { if a <= b then a else b }
}
