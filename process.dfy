/**
 * `processFile` (main.go:98-190) and `run` with its per-file callback
 * (main.go:192-207).
 *
 * `processFile` prints the path, reads the dataset (dropping pixel data
 * unless `-x` names a directory), then runs either the search or the
 * sorted inspection. `run` visits the entries the directory walk yields,
 * skips directories and swallows every error `processFile` returns.
 */
module Process {
  import opened Wrappers
  import opened Dicom
  import opened Collaborators
  import opened Seqs
  import opened Text
  import opened Search
  import opened Extraction
  import opened Report

  function ProcessFileTrace(env: Env, cfg: Config, path: string): Trace {
    var header := Trace([Printed(path + "\n")], Ok);
    match env.readDataSet(path, cfg.extract == "")
    case Failure(e) => Trace(header.out, Err(ReadFailed(e)))
    case Success(data) =>
      if cfg.search != "" then Then(header, SearchTrace(env, cfg.search, data.elements))
      else Then(header, InspectTrace(env, cfg, path, data, SortStrings(TagNames(env.allTags))))
  }

  method ProcessFile(env: Env, cfg: Config, path: string) returns (out: seq<Event>, status: Status)
    ensures Trace(out, status) == ProcessFileTrace(env, cfg, path)
  {
    out := [Printed(path + "\n")];
    var data := env.readDataSet(path, cfg.extract == "");
    if data.Failure? {
      return out, Err(ReadFailed(data.error));
    }
    if cfg.search != "" {
      var found;
      found, status := SearchElements(env, cfg.search, data.value.elements);
      return out + found, status;
    }
    // The allow-list of main.go:127-131 is built there but never read.
    var tagNames := CollectTagNames(env.allTags);
    tagNames := SortStrings(tagNames);
    var lines;
    lines, status := Inspect(env, cfg, path, data.value, tagNames);
    out := out + lines;
  }

  /** One walked entry, as the callback sees it. */
  datatype Entry = Entry(path: string, isDir: bool)

  /** The callback handed to `common.WalkFiles`. */
  function VisitTrace(env: Env, cfg: Config, entry: Entry): Trace {
    if entry.isDir then Trace([], Ok)
    else
      var t := ProcessFileTrace(env, cfg, entry.path);
      Trace(t.out, if t.status.Panic? then t.status else Ok)
  }

  method Visit(env: Env, cfg: Config, entry: Entry) returns (out: seq<Event>, status: Status)
    ensures Trace(out, status) == VisitTrace(env, cfg, entry)
    ensures status.Ok? || status.Panic?
  {
    if entry.isDir {
      return [], Ok;
    }
    var st;
    out, st := ProcessFile(env, cfg, entry.path);
    // `common.Error` logs the error; the callback returns nil regardless.
    status := if st.Panic? then st else Ok;
  }

  /** How the walk ends once the visited entries are done. */
  function WalkStatus(walkError: Option<string>): Status {
    match walkError
    case None => Ok
    case Some(e) => Err(WalkFailed(e))
  }

  /** `run`: the entries the walk visits, in order, then the walk's own result. */
  function RunTrace(env: Env, cfg: Config, entries: seq<Entry>, walkError: Option<string>): Trace
    decreases |entries|
  {
    if |entries| == 0 then Trace([], WalkStatus(walkError))
    else Then(VisitTrace(env, cfg, entries[0]), RunTrace(env, cfg, entries[1..], walkError))
  }

  method Run(env: Env, cfg: Config, entries: seq<Entry>, walkError: Option<string>)
    returns (out: seq<Event>, status: Status)
    ensures Trace(out, status) == RunTrace(env, cfg, entries, walkError)
  {
    out := [];
    var i := 0;
    while i < |entries|
      invariant 0 <= i <= |entries|
      invariant Then(Trace(out, Ok), RunTrace(env, cfg, entries[i..], walkError)) ==
                RunTrace(env, cfg, entries, walkError)
    {
      assert entries[i..][0] == entries[i] && entries[i..][1..] == entries[i + 1..];
      var step, st := Visit(env, cfg, entries[i]);
      if st.Panic? {
        return out + step, st;
      }
      assert forall rest: seq<Event> :: (out + step) + rest == out + (step + rest);
      out := out + step;
      i := i + 1;
    }
    status := WalkStatus(walkError);
  }

  // ---------------------------------------------------------------------
  // Properties

  /** The collaborators the search reads agree on every input. */
  ghost predicate SameSearchCollaborators(e1: Env, e2: Env) {
    && (forall t :: e1.findTagInfo(t) == e2.findTagInfo(t))
    && (forall p :: e1.regexError(p) == e2.regexError(p))
    && (forall p, s :: e1.regexMatches(p, s) == e2.regexMatches(p, s))
  }

  /** The collaborators the inspection reads agree on every input. */
  ghost predicate SameInspectCollaborators(e1: Env, e2: Env) {
    && (forall n :: e1.findTagByName(n) == e2.findTagByName(n))
    && (forall b :: e1.detectMimeType(b) == e2.detectMimeType(b))
    && (forall b :: e1.decodeImage(b) == e2.decodeImage(b))
    && (forall p :: e1.base(p) == e2.base(p))
    && (forall d, f :: e1.join(d, f) == e2.join(d, f))
    && (forall f, b :: e1.writeFile(f, b) == e2.writeFile(f, b))
  }

  /** The search sees nothing of the environment but the registry lookup and the regex engine. */
  lemma {:induction false} SearchReadsOnlyItsCollaborators(e1: Env, e2: Env, search: string, elems: seq<Element>)
    requires SameSearchCollaborators(e1, e2)
    ensures SearchTrace(e1, search, elems) == SearchTrace(e2, search, elems)
    decreases |elems|
  {
    if |elems| > 0 {
      assert e1.findTagInfo(elems[0].tag) == e2.findTagInfo(elems[0].tag);
      SearchReadsOnlyItsCollaborators(e1, e2, search, elems[1..]);
    }
  }

  /** One step of the inspection sees nothing of the environment but its own collaborators. */
  lemma NameTraceReadsOnlyItsCollaborators(e1: Env, e2: Env, cfg: Config, path: string, data: DataSet, name: string)
    requires SameInspectCollaborators(e1, e2)
    ensures NameTrace(e1, cfg, path, data, name) == NameTrace(e2, cfg, path, data, name)
  {
    assert e1.findTagByName(name) == e2.findTagByName(name);
    assert FindElementByName(e1.findTagByName, data, name) == FindElementByName(e2.findTagByName, data, name);
    match FindElementByName(e1.findTagByName, data, name)
    case None =>
    case Some(elem) =>
      if |elem.values| > 0 && elem.values[0].PixelDataInfo? {
        var buf := Concat(elem.values[0].frames);
        assert e1.detectMimeType(buf) == e2.detectMimeType(buf);
        assert e1.decodeImage(buf) == e2.decodeImage(buf);
        assert e1.base(path) == e2.base(path);
        var mt := e1.detectMimeType(buf);
        var f := OutputFileName(e1, cfg.extract, path, mt);
        assert f == OutputFileName(e2, cfg.extract, path, mt);
        assert e1.writeFile(f, buf) == e2.writeFile(f, buf);
      }
  }

  /** The inspection sees nothing of the environment but its own collaborators. */
  lemma {:induction false} InspectReadsOnlyItsCollaborators(e1: Env, e2: Env, cfg: Config, path: string,
                                                           data: DataSet, names: seq<string>)
    requires SameInspectCollaborators(e1, e2)
    ensures InspectTrace(e1, cfg, path, data, names) == InspectTrace(e2, cfg, path, data, names)
    decreases |names|
  {
    if |names| > 0 {
      NameTraceReadsOnlyItsCollaborators(e1, e2, cfg, path, data, names[0]);
      InspectReadsOnlyItsCollaborators(e1, e2, cfg, path, data, names[1..]);
    }
  }

  /** A dataset that cannot be read ends `processFile` with the reader's error, after the path only. */
  lemma ProcessFileReadFailure(env: Env, cfg: Config, path: string, e: string)
    requires env.readDataSet(path, cfg.extract == "") == Failure(e)
    ensures ProcessFileTrace(env, cfg, path) == Trace([Printed(path + "\n")], Err(ReadFailed(e)))
  {
  }

  /**
   * The dataset is requested with DropPixelData set exactly when `-x` is
   * empty: what the reader would return under the other flag value never
   * matters.
   */
  lemma DatasetRequestDropsPixelDataIffNoExtract(env: Env, cfg: Config, path: string,
                                                 read: (string, bool) -> Result<DataSet, string>)
    requires read(path, cfg.extract == "") == env.readDataSet(path, cfg.extract == "")
    ensures ProcessFileTrace(env.(readDataSet := read), cfg, path) == ProcessFileTrace(env, cfg, path)
  {
    var env2 := env.(readDataSet := read);
    match env.readDataSet(path, cfg.extract == "")
    case Failure(_) =>
    case Success(data) =>
      SearchReadsOnlyItsCollaborators(env2, env, cfg.search, data.elements);
      InspectReadsOnlyItsCollaborators(env2, env, cfg, path, data, SortStrings(TagNames(env.allTags)));
  }

  /**
   * Search mode returns before the inspection and extraction code: the
   * registry's name list, the name-to-tag lookup, MIME detection, image
   * decoding, path building, file writing, the no-banner flag and the
   * extraction directory (beyond whether it is empty) change nothing, and
   * nothing but text is produced.
   */
  lemma SearchModeSkipsInspection(env: Env, cfg: Config, path: string, env2: Env, cfg2: Config)
    requires cfg.search != "" && cfg2.search == cfg.search
    requires (cfg2.extract == "") == (cfg.extract == "")
    requires env2.readDataSet(path, cfg.extract == "") == env.readDataSet(path, cfg.extract == "")
    requires SameSearchCollaborators(env, env2)
    ensures ProcessFileTrace(env2, cfg2, path) == ProcessFileTrace(env, cfg, path)
    ensures forall k :: 0 <= k < |ProcessFileTrace(env, cfg, path).out| ==> ProcessFileTrace(env, cfg, path).out[k].Printed?
    ensures !ProcessFileTrace(env, cfg, path).status.Panic?
  {
    match env.readDataSet(path, cfg.extract == "")
    case Failure(_) =>
    case Success(data) =>
      SearchReadsOnlyItsCollaborators(env2, env, cfg.search, data.elements);
      SearchOnlyPrints(env, cfg.search, data.elements);
  }

  /**
   * Inspection without extraction prints the path, then one line for every
   * registry name that resolves to an element other than PixelData, in
   * ascending name order, then a blank line; it writes nothing and never
   * fails once the dataset is read.
   */
  lemma ReportIsSortedByTagName(env: Env, cfg: Config, path: string, data: DataSet)
    requires cfg.search == "" && cfg.extract == ""
    requires env.readDataSet(path, true) == Success(data)
    ensures
      var names := Filter(n => IsReported(env, data, n), SortStrings(TagNames(env.allTags)));
      && Sorted(names)
      && (forall n :: n in names <==> n in TagNames(env.allTags) && IsReported(env, data, n))
      && ProcessFileTrace(env, cfg, path) ==
         Trace([Printed(path + "\n")] + NameLines(env, cfg, data, names) + [Printed("\n")], Ok)
  {
    var sorted := SortStrings(TagNames(env.allTags));
    var p := n => IsReported(env, data, n);
    FilterKeepsSorted(p, sorted);
    forall n ensures n in Filter(p, sorted) <==> n in TagNames(env.allTags) && p(n) {
      FilterMembership(p, sorted, n);
      assert n in sorted <==> n in multiset(sorted);
    }
    InspectWithoutExtraction(env, cfg, path, data, sorted);
  }

  /**
   * With `-x` set, the file's path comes first, then the report lines of the
   * sorted names before the PixelData name; a failed write of the pixel data
   * then ends `processFile` with that error, printing nothing more.
   */
  lemma ProcessFileStopsOnWriteFailure(env: Env, cfg: Config, path: string, data: DataSet,
                                       before: seq<string>, name: string, after: seq<string>, elem: Element, e: string)
    requires cfg.search == "" && cfg.extract != ""
    requires env.readDataSet(path, false) == Success(data)
    requires SortStrings(TagNames(env.allTags)) == before + [name] + after
    requires forall n :: n in before ==> !IsPixelName(env, data, n)
    requires FindElementByName(env.findTagByName, data, name) == Some(elem)
    requires elem.tag == PIXEL_DATA && |elem.values| > 0 && elem.values[0].PixelDataInfo?
    requires var buf := Concat(elem.values[0].frames);
             env.writeFile(OutputFileName(env, cfg.extract, path, env.detectMimeType(buf)), buf) == Some(e)
    ensures ProcessFileTrace(env, cfg, path) ==
            Trace([Printed(path + "\n")] + NameLines(env, cfg, data, Filter(n => IsReported(env, data, n), before)),
                  Err(WriteFailed(e)))
  {
    InspectStopsOnWriteFailure(env, cfg, path, data, before, name, after, elem, e);
  }

  /**
   * With `-x` set and a successful write, the file's path comes first, then
   * the report lines of the sorted names before the PixelData name, then the
   * extraction's output, then the lines of the names after it, then the
   * blank line.
   */
  lemma ProcessFileExtractsPixelData(env: Env, cfg: Config, path: string, data: DataSet,
                                     before: seq<string>, name: string, after: seq<string>, elem: Element)
    requires cfg.search == "" && cfg.extract != ""
    requires env.readDataSet(path, false) == Success(data)
    requires SortStrings(TagNames(env.allTags)) == before + [name] + after
    requires forall n :: n in before ==> !IsPixelName(env, data, n)
    requires forall n :: n in after ==> !IsPixelName(env, data, n)
    requires FindElementByName(env.findTagByName, data, name) == Some(elem)
    requires elem.tag == PIXEL_DATA && |elem.values| > 0 && elem.values[0].PixelDataInfo?
    requires var buf := Concat(elem.values[0].frames);
             env.writeFile(OutputFileName(env, cfg.extract, path, env.detectMimeType(buf)), buf).None?
    ensures var p := n => IsReported(env, data, n);
      ProcessFileTrace(env, cfg, path) ==
      Trace([Printed(path + "\n")] + NameLines(env, cfg, data, Filter(p, before)) +
            ExtractTrace(env, cfg.extract, path, name, elem).out +
            NameLines(env, cfg, data, Filter(p, after)) + [Printed("\n")], Ok)
  {
    var p := n => IsReported(env, data, n);
    InspectExtractsPixelData(env, cfg, path, data, before, name, after, elem);
    var a, x, b := NameLines(env, cfg, data, Filter(p, before)), ExtractTrace(env, cfg.extract, path, name, elem).out,
                   NameLines(env, cfg, data, Filter(p, after));
    var t := InspectTrace(env, cfg, path, data, before + [name] + after);
    assert t == Trace(a + x + b + [Printed("\n")], Ok);
    assert ProcessFileTrace(env, cfg, path) == Trace([Printed(path + "\n")] + t.out, Ok);
    PrependRegroup([Printed(path + "\n")], a, x, b, [Printed("\n")]);
  }

  /** The lines printed for several files, one file after the other. */
  function Outputs(env: Env, cfg: Config, files: seq<Entry>): (r: seq<seq<Event>>)
    ensures |r| == |files|
    ensures forall k :: 0 <= k < |files| ==> r[k] == ProcessFileTrace(env, cfg, files[k].path).out
  {
    seq(|files|, k requires 0 <= k < |files| => ProcessFileTrace(env, cfg, files[k].path).out)
  }

  predicate IsFile(e: Entry) {
    !e.isDir
  }

  /**
   * `run` returns only the walk's own error: a file whose processing
   * returns an error still has its output kept, and the walk goes on to
   * the next entry; directories produce nothing. Only a panic stops it.
   */
  lemma {:induction false} RunSwallowsFileErrors(env: Env, cfg: Config, entries: seq<Entry>, walkError: Option<string>)
    requires forall i :: 0 <= i < |entries| && !entries[i].isDir ==>
               !ProcessFileTrace(env, cfg, entries[i].path).status.Panic?
    ensures RunTrace(env, cfg, entries, walkError) ==
            Trace(Concat(Outputs(env, cfg, Filter(IsFile, entries))), WalkStatus(walkError))
    decreases |entries|
  {
    if |entries| > 0 {
      var tail := entries[1..];
      assert forall i :: 0 <= i < |tail| ==> tail[i] == entries[i + 1];
      RunSwallowsFileErrors(env, cfg, tail, walkError);
      if IsFile(entries[0]) {
        assert !ProcessFileTrace(env, cfg, entries[0].path).status.Panic?;
        OutputsPrepend(env, cfg, entries[0], Filter(IsFile, tail));
      }
    }
  }

  lemma OutputsPrepend(env: Env, cfg: Config, file: Entry, rest: seq<Entry>)
    ensures Concat(Outputs(env, cfg, [file] + rest)) ==
            ProcessFileTrace(env, cfg, file.path).out + Concat(Outputs(env, cfg, rest))
  {
    assert Outputs(env, cfg, [file] + rest) == [ProcessFileTrace(env, cfg, file.path).out] + Outputs(env, cfg, rest);
    ConcatPrepend(ProcessFileTrace(env, cfg, file.path).out, Outputs(env, cfg, rest));
  }

  /** `run` ends with nil, with the walk's error, or with a panic; never with a file's error. */
  lemma {:induction false} RunStatus(env: Env, cfg: Config, entries: seq<Entry>, walkError: Option<string>)
    ensures var s := RunTrace(env, cfg, entries, walkError).status;
      s == WalkStatus(walkError) || s.Panic?
    decreases |entries|
  {
    if |entries| > 0 { RunStatus(env, cfg, entries[1..], walkError); }
  }
}
