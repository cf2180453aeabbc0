/** The abstraction of a blocking remote call and of the ways the run can
    stop. Real HTTP, JSON decoding and `raise_for_status` are not modelled:
    a call either fails in transport or delivers an already decoded body. */
module Remote {

  /** What one HTTP call gave back: a transport failure (the request raised,
      or `raise_for_status` rejected an error status) or a decoded body. */
  datatype Reply<+T> = TransportFailure | Delivered(body: T)

  /** The remote calls of one run, in the order the program makes them. */
  datatype Stage =
    | Latest          // GET of the latest-issue record
    | Metadata        // GET of the chosen issue's record
    | Image           // GET of the image bytes
    | UploadServer    // photos.getWallUploadServer
    | Upload          // multipart upload to the upload URL
    | Save            // photos.saveWallPhoto
    | Post            // wall.post

  /** Position of a stage in the run. */
  function StageIndex(s: Stage): (k: nat)
    ensures k < 7
  {
    match s
    case Latest => 0
    case Metadata => 1
    case Image => 2
    case UploadServer => 3
    case Upload => 4
    case Save => 5
    case Post => 6
  }

  /** The exception that ends a run. */
  datatype Failure =
    | HttpError(stage: Stage)   // transport failure or error status
    | MissingKey(stage: Stage)  // `KeyError` on a lookup in a decoded body
    | NoSavedPhoto              // `IndexError`: the saved-photo list is empty
    | EmptyRange                // `ValueError`: `randint(1, num)` with num < 1
    | NotAFile                  // `IsADirectoryError`: the image path names a directory
    | NullInName                // `ValueError`: the image path holds a NUL character
    | NameTooLong               // `OSError` (ENAMETOOLONG): the file name is over 255 bytes

  /** The stage whose call raised the failure. */
  function FailedStage(f: Failure): Stage {
    match f
    case HttpError(s) => s
    case MissingKey(s) => s
    case NoSavedPhoto => Save
    case EmptyRange => Latest
    case NotAFile => Image
    case NullInName => Image
    case NameTooLong => Image
  }

  datatype Outcome = Published(postId: int) | Raised(failure: Failure)

  /** The result of one step: the value later steps consume, or the failure
      that ends the run; either way, the lines the step printed. */
  datatype Step<+T> =
    | Continue(value: T, printed: seq<string>)
    | Stop(failure: Failure, printed: seq<string>)
}
