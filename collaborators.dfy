/**
 * What `processFile` and `run` talk to, and what they leave behind.
 *
 * Every call into a library routine the model does not cover is a field of
 * `Env`: reading a dataset, the tag registry, the regular-expression engine,
 * MIME detection, image decoding, path building and file writing. Printing
 * and file writes are recorded, in order, in an output log of `Event`s; a
 * `Trace` is that log together with how the call ended.
 */
module Collaborators {
  import opened Wrappers
  import opened Dicom

  /** What `common.DetectMimeType` reports: the MIME type and a file extension. */
  datatype MimeType = MimeType(mimeType: string, ext: string)

  /** The lower-right corner `img.Bounds().Max` of a decoded image. */
  datatype Bounds = Bounds(maxX: int, maxY: int)

  datatype Env = Env(
    /** `dicom.ReadDataSetFromFile(path, ReadOptions{DropPixelData: drop})`, or its error text. */
    readDataSet: (string, bool) -> Result<DataSet, string>,
    /** `dicomtag.AllTags()`, in the registry's own order. */
    allTags: seq<TagInfo>,
    /** `dicomtag.FindTagInfo`: the registry entry of a tag, when the tag is known. */
    findTagInfo: Tag -> Option<TagInfo>,
    /** The registry's name-to-tag lookup used by `FindElementByName`. */
    findTagByName: string -> Option<Tag>,
    /** The compile error of a regular expression, `None` when it compiles. */
    regexError: string -> Option<string>,
    /** Whether a compiled regular expression matches somewhere in a string. */
    regexMatches: (string, string) -> bool,
    /** `common.DetectMimeType("", buf)`; its error result is discarded by the caller. */
    detectMimeType: Bytes -> MimeType,
    /** `image.Decode`: the bounds when the bytes decode as an image. */
    decodeImage: Bytes -> Option<Bounds>,
    /** `filepath.Base`. */
    base: string -> string,
    /** `filepath.Join` of two parts. */
    join: (string, string) -> string,
    /** `os.WriteFile`: `None` on success, the error text otherwise. */
    writeFile: (string, Bytes) -> Option<string>
  )

  /** The command-line settings the core reads: `-x`, `-s` and the no-banner flag. */
  datatype Config = Config(extract: string, search: string, noBanner: bool)

  /** One visible effect: text written to standard output, or a file written. */
  datatype Event = Printed(text: string) | Wrote(path: string, data: Bytes)

  /** The errors `processFile` and `run` return, by the call that produced them. */
  datatype Error =
    | ReadFailed(reason: string)
    | PatternFailed(reason: string)
    | WriteFailed(reason: string)
    | WalkFailed(reason: string)

  /** How a call ended: returned nil, returned an error, or panicked. */
  datatype Status = Ok | Err(error: Error) | Panic(reason: PanicReason)

  datatype Trace = Trace(out: seq<Event>, status: Status)

  /** Runs `second` after `first` unless `first` ended early. */
  function Then(first: Trace, second: Trace): (r: Trace)
    ensures first.status.Ok? ==> |first.out| <= |r.out| && r.out[..|first.out|] == first.out
    ensures !first.status.Ok? ==> r == first
  {
    if first.status.Ok? then Trace(first.out + second.out, second.status) else first
  }

  /** `regexp.MatchString(pattern, s)`: compile, then match. */
  function MatchString(env: Env, pattern: string, s: string): (r: Result<bool, string>)
    ensures r.Failure? <==> env.regexError(pattern).Some?
    ensures r.Failure? ==> r.error == env.regexError(pattern).value
    ensures r.Success? ==> r.value == env.regexMatches(pattern, s)
  {
    match env.regexError(pattern)
    case Some(e) => Failure(e)
    case None => Success(env.regexMatches(pattern, s))
  }
}
