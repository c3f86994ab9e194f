/**
 * Pixel-data extraction (main.go:157-183): all frames are appended, in
 * order, to one buffer; the buffer is written to one file named after the
 * source file and the detected extension; a report line names the MIME
 * type and the file, followed by the image size when the buffer decodes.
 */
module Extraction {
  import opened Wrappers
  import opened Dicom
  import opened Collaborators
  import opened Seqs
  import opened Text

  /**
   * The frame loop, writing each frame into a `bytes.Buffer`. A
   * `bytes.Buffer` write always reports a nil error, so the loop's error
   * return is never taken and is not modelled.
   */
  method ConcatFrames(frames: seq<Bytes>) returns (buf: Bytes)
    ensures buf == Concat(frames)
    ensures |buf| == TotalLength(frames)
  {
    buf := [];
    for i := 0 to |frames|
      invariant buf == Concat(frames[..i])
    {
      assert frames[..i + 1][..i] == frames[..i];
      buf := buf + frames[i];
    }
    assert frames[..|frames|] == frames;
    ConcatLength(frames);
  }

  /** `filepath.Join(extract, fmt.Sprintf("%s.%s", filepath.Base(path), mt.Ext))`. */
  function OutputFileName(env: Env, extract: string, path: string, mt: MimeType): string {
    env.join(extract, env.base(path) + "." + mt.ext)
  }

  /** `fmt.Printf("%-25s:  %s: %s", tagName, mt.MimeType, filename)`: no newline yet. */
  function PixelLine(name: string, mt: MimeType, filename: string): string {
    PadRight(name, 25) + ":  " + mt.mimeType + ": " + filename
  }

  /** `fmt.Printf("width=%d, height=%d", ...)`. */
  function SizeText(b: Bounds): string {
    "width=" + Decimal(b.maxX) + ", height=" + Decimal(b.maxY)
  }

  function SizeOutput(decoded: Option<Bounds>): seq<Event> {
    match decoded
    case None => []
    case Some(b) => [Printed(SizeText(b))]
  }

  /** What the pixel-data branch does for the element `elem` found under `name`. */
  function ExtractTrace(env: Env, extract: string, path: string, name: string, elem: Element): Trace {
    if |elem.values| == 0 then Trace([], Panic(IndexOutOfRange))
    else
      match elem.values[0]
      case OtherValue => Trace([], Panic(FailedTypeAssertion))
      case PixelDataInfo(frames) =>
        var buf := Concat(frames);
        var mt := env.detectMimeType(buf);
        var filename := OutputFileName(env, extract, path, mt);
        match env.writeFile(filename, buf)
        case Some(e) => Trace([], Err(WriteFailed(e)))
        case None =>
          Trace([Wrote(filename, buf), Printed(PixelLine(name, mt, filename))] +
                SizeOutput(env.decodeImage(buf)) + [Printed("\n")], Ok)
  }

  method ExtractPixelData(env: Env, extract: string, path: string, name: string, elem: Element)
    returns (out: seq<Event>, status: Status)
    ensures Trace(out, status) == ExtractTrace(env, extract, path, name, elem)
  {
    if |elem.values| == 0 {
      return [], Panic(IndexOutOfRange);
    }
    if elem.values[0].OtherValue? {
      return [], Panic(FailedTypeAssertion);
    }
    var data := elem.values[0];
    var buf := ConcatFrames(data.frames);
    var mt := env.detectMimeType(buf);
    var filename := OutputFileName(env, extract, path, mt);
    var err := env.writeFile(filename, buf);
    if err.Some? {
      return [], Err(WriteFailed(err.value));
    }
    out := [Wrote(filename, buf)];
    out := out + [Printed(PixelLine(name, mt, filename))];
    var img := env.decodeImage(buf);
    if img.Some? {
      out := out + [Printed(SizeText(img.value))];
    }
    out := out + [Printed("\n")];
    status := Ok;
  }

  /**
   * The buffer holds the frames back to back, in order: frame `i` starts
   * after the frames before it, and the length is the sum of the frame
   * lengths.
   */
  lemma BufferHoldsFramesInOrder(frames: seq<Bytes>)
    ensures |Concat(frames)| == TotalLength(frames)
    ensures forall i :: 0 <= i < |frames| ==>
              TotalLength(frames[..i]) + |frames[i]| <= |Concat(frames)| &&
              Concat(frames)[TotalLength(frames[..i])..TotalLength(frames[..i]) + |frames[i]|] == frames[i]
  {
    ConcatLength(frames);
    forall i | 0 <= i < |frames|
      ensures TotalLength(frames[..i]) + |frames[i]| <= |Concat(frames)|
      ensures Concat(frames)[TotalLength(frames[..i])..TotalLength(frames[..i]) + |frames[i]|] == frames[i]
    {
      ConcatPlacesPart(frames, i);
    }
  }

  /**
   * One file is written, holding the concatenated frames and named from the
   * extraction directory, the source file's base name and the detected
   * extension; a failed write returns the error and prints nothing; the
   * size is printed exactly when the buffer decodes as an image. An empty
   * value list or a value of another type panics.
   */
  lemma ExtractionOutcome(env: Env, extract: string, path: string, name: string, elem: Element)
    ensures |elem.values| == 0 ==> ExtractTrace(env, extract, path, name, elem) == Trace([], Panic(IndexOutOfRange))
    ensures |elem.values| > 0 && elem.values[0].OtherValue? ==>
              ExtractTrace(env, extract, path, name, elem) == Trace([], Panic(FailedTypeAssertion))
    ensures |elem.values| > 0 && elem.values[0].PixelDataInfo? ==>
      var buf := Concat(elem.values[0].frames);
      var mt := env.detectMimeType(buf);
      var filename := OutputFileName(env, extract, path, mt);
      var t := ExtractTrace(env, extract, path, name, elem);
      && (env.writeFile(filename, buf).Some? ==>
            t == Trace([], Err(WriteFailed(env.writeFile(filename, buf).value))))
      && (env.writeFile(filename, buf).None? ==>
            && t.status == Ok
            && |t.out| == (if env.decodeImage(buf).Some? then 4 else 3)
            && t.out[0] == Wrote(filename, buf)
            && t.out[1] == Printed(PixelLine(name, mt, filename))
            && (env.decodeImage(buf).Some? ==> t.out[2] == Printed(SizeText(env.decodeImage(buf).value)))
            && t.out[|t.out| - 1] == Printed("\n")
            && (forall k :: 1 <= k < |t.out| ==> t.out[k].Printed?))
  {
  }
}
