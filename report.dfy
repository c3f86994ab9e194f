/**
 * Inspection mode of `processFile` (main.go:127-189): every registry tag
 * name, sorted, is looked up in the dataset; absent names are skipped; a
 * present element other than PixelData prints one line; PixelData is
 * skipped unless extraction was asked for, and then extracted.
 *
 * main.go:127-131 builds an allow-list `standardTags` but never reads it,
 * so no element is filtered out by it here either.
 */
module Report {
  import opened Wrappers
  import opened Dicom
  import opened Collaborators
  import opened Seqs
  import opened Text
  import opened Extraction

  /** The width of the `%-25s` name column. */
  const NAME_WIDTH: nat := 25

  /** `fmt.Printf("%-25s: %s\n", ...)`, or `fmt.Printf("%s\n", ...)` with no banner. */
  function ReportLine(noBanner: bool, name: string, elem: Element): (r: string)
    ensures noBanner ==> r == elem.text + "\n"
    ensures !noBanner ==>
      var width := if |name| < NAME_WIDTH then NAME_WIDTH else |name|;
      && |r| == width + 2 + |elem.text| + 1
      && r[..|name|] == name
      && (forall i :: |name| <= i < width ==> r[i] == ' ')
      && r[width..] == ": " + elem.text + "\n"
  {
    if noBanner then elem.text + "\n"
    else
      var padded := PadRight(name, NAME_WIDTH);
      var r := padded + (": " + elem.text + "\n");
      assert r[..|padded|] == padded && r[|padded|..] == ": " + elem.text + "\n";
      assert r[..|name|] == padded[..|name|];
      r
  }

  /** The loop over `dicomtag.AllTags()` collecting every name. */
  method CollectTagNames(allTags: seq<TagInfo>) returns (names: seq<string>)
    ensures names == TagNames(allTags)
  {
    names := [];
    for i := 0 to |allTags|
      invariant |names| == i
      invariant forall k :: 0 <= k < i ==> names[k] == allTags[k].name
    {
      names := names + [allTags[i].name];
    }
  }

  /** The registry's names, one per tag, in registry order. */
  function TagNames(allTags: seq<TagInfo>): (r: seq<string>)
    ensures |r| == |allTags|
    ensures forall i :: 0 <= i < |allTags| ==> r[i] == allTags[i].name
  {
    seq(|allTags|, i requires 0 <= i < |allTags| => allTags[i].name)
  }

  /** What one iteration of the inspection loop does for `name`. */
  function NameTrace(env: Env, cfg: Config, path: string, data: DataSet, name: string): Trace {
    match FindElementByName(env.findTagByName, data, name)
    case None => Trace([], Ok)
    case Some(elem) =>
      if elem.tag != PIXEL_DATA then Trace([Printed(ReportLine(cfg.noBanner, name, elem))], Ok)
      else if cfg.extract == "" then Trace([], Ok)
      else ExtractTrace(env, cfg.extract, path, name, elem)
  }

  /** The loop over `names` from its first entry on, then the closing blank line. */
  function InspectTrace(env: Env, cfg: Config, path: string, data: DataSet, names: seq<string>): Trace
    decreases |names|
  {
    if |names| == 0 then Trace([Printed("\n")], Ok)
    else Then(NameTrace(env, cfg, path, data, names[0]), InspectTrace(env, cfg, path, data, names[1..]))
  }

  method Inspect(env: Env, cfg: Config, path: string, data: DataSet, names: seq<string>)
    returns (out: seq<Event>, status: Status)
    ensures Trace(out, status) == InspectTrace(env, cfg, path, data, names)
  {
    out := [];
    var i := 0;
    while i < |names|
      invariant 0 <= i <= |names|
      invariant Then(Trace(out, Ok), InspectTrace(env, cfg, path, data, names[i..])) ==
                InspectTrace(env, cfg, path, data, names)
    {
      var tagName := names[i];
      assert names[i..][0] == tagName && names[i..][1..] == names[i + 1..];
      var elem := FindElementByName(env.findTagByName, data, tagName);
      if elem.None? {
        i := i + 1;
        continue;
      }
      var step: seq<Event>;
      if elem.value.tag != PIXEL_DATA {
        step := [Printed(ReportLine(cfg.noBanner, tagName, elem.value))];
      } else {
        if cfg.extract == "" {
          i := i + 1;
          continue;
        }
        var st;
        step, st := ExtractPixelData(env, cfg.extract, path, tagName, elem.value);
        if !st.Ok? {
          return out + step, st;
        }
      }
      assert forall rest: seq<Event> :: (out + step) + rest == out + (step + rest);
      out := out + step;
      i := i + 1;
    }
    out := out + [Printed("\n")];
    status := Ok;
  }

  /** A name that prints a plain report line: it resolves, and not to PixelData. */
  predicate IsReported(env: Env, data: DataSet, name: string) {
    match FindElementByName(env.findTagByName, data, name)
    case None => false
    case Some(elem) => elem.tag != PIXEL_DATA
  }

  /** The line a reported name prints. */
  function NameLine(env: Env, cfg: Config, data: DataSet, name: string): Event {
    match FindElementByName(env.findTagByName, data, name)
    case None => Printed("")  // never used: a reported name always resolves
    case Some(elem) => Printed(ReportLine(cfg.noBanner, name, elem))
  }

  function NameLines(env: Env, cfg: Config, data: DataSet, names: seq<string>): (r: seq<Event>)
    ensures |r| == |names|
    ensures forall k :: 0 <= k < |names| ==> r[k] == NameLine(env, cfg, data, names[k])
  {
    seq(|names|, k requires 0 <= k < |names| => NameLine(env, cfg, data, names[k]))
  }

  /**
   * Without extraction the inspection never fails: it prints one line per
   * name that resolves to an element other than PixelData, in the order of
   * `names`, then a blank line, and writes no file.
   */
  lemma {:induction false} InspectWithoutExtraction(env: Env, cfg: Config, path: string, data: DataSet, names: seq<string>)
    requires cfg.extract == ""
    ensures InspectTrace(env, cfg, path, data, names) ==
            Trace(NameLines(env, cfg, data, Filter(n => IsReported(env, data, n), names)) + [Printed("\n")], Ok)
    decreases |names|
  {
    if |names| > 0 {
      var p := n => IsReported(env, data, n);
      var name, rest := names[0], Filter(p, names[1..]);
      InspectWithoutExtraction(env, cfg, path, data, names[1..]);
      NameTraceWithoutExtraction(env, cfg, path, data, name);
      if p(name) {
        assert Filter(p, names) == [name] + rest;
        NameLinesPrepend(env, cfg, data, name, rest);
      } else {
        assert Filter(p, names) == rest;
      }
    }
  }

  lemma NameLinesPrepend(env: Env, cfg: Config, data: DataSet, name: string, names: seq<string>)
    ensures NameLines(env, cfg, data, [name] + names) == [NameLine(env, cfg, data, name)] + NameLines(env, cfg, data, names)
  {
  }

  /** A name that resolves to the PixelData element. */
  predicate IsPixelName(env: Env, data: DataSet, name: string) {
    match FindElementByName(env.findTagByName, data, name)
    case None => false
    case Some(elem) => elem.tag == PIXEL_DATA
  }

  /** Unless it is PixelData under `-x`, one name yields its report line when it is reported and nothing otherwise. */
  lemma NameTraceWithoutExtraction(env: Env, cfg: Config, path: string, data: DataSet, name: string)
    requires cfg.extract == "" || !IsPixelName(env, data, name)
    ensures NameTrace(env, cfg, path, data, name) ==
            if IsReported(env, data, name) then Trace([NameLine(env, cfg, data, name)], Ok) else Trace([], Ok)
  {
  }

  /**
   * Until it reaches a name that resolves to PixelData, the inspection
   * prints the report lines of the names it passes, in their order, whether
   * or not `-x` is set, and then goes on with the rest.
   */
  lemma {:induction false} InspectUpToPixelData(env: Env, cfg: Config, path: string, data: DataSet,
                                               before: seq<string>, rest: seq<string>)
    requires forall n :: n in before ==> !IsPixelName(env, data, n)
    ensures InspectTrace(env, cfg, path, data, before + rest) ==
            Then(Trace(NameLines(env, cfg, data, Filter(n => IsReported(env, data, n), before)), Ok),
                 InspectTrace(env, cfg, path, data, rest))
    decreases |before|
  {
    var tail := InspectTrace(env, cfg, path, data, rest);
    if |before| == 0 {
      assert before + rest == rest;
      assert [] + tail.out == tail.out;
    } else {
      var names := before + rest;
      assert names[1..] == before[1..] + rest;
      assert forall n :: n in before[1..] ==> n in before;
      InspectUpToPixelData(env, cfg, path, data, before[1..], rest);
      InspectStepNotPixel(env, cfg, path, data, names);
      ReportedLinesStep(env, cfg, data, before);
      var first := if IsReported(env, data, before[0]) then [NameLine(env, cfg, data, before[0])] else [];
      var lines := NameLines(env, cfg, data, Filter(n => IsReported(env, data, n), before[1..]));
      assert first + (lines + tail.out) == (first + lines) + tail.out;
    }
  }

  /** One step of the loop over a name that does not resolve to PixelData. */
  lemma InspectStepNotPixel(env: Env, cfg: Config, path: string, data: DataSet, names: seq<string>)
    requires |names| > 0 && !IsPixelName(env, data, names[0])
    ensures var next := InspectTrace(env, cfg, path, data, names[1..]);
      InspectTrace(env, cfg, path, data, names) ==
      Trace((if IsReported(env, data, names[0]) then [NameLine(env, cfg, data, names[0])] else []) + next.out,
            next.status)
  {
    NameTraceWithoutExtraction(env, cfg, path, data, names[0]);
    if !IsReported(env, data, names[0]) {
      var next := InspectTrace(env, cfg, path, data, names[1..]);
      assert [] + next.out == next.out;
    }
  }

  /** The report lines of a list of names, taken apart at its first name. */
  lemma ReportedLinesStep(env: Env, cfg: Config, data: DataSet, names: seq<string>)
    requires |names| > 0
    ensures var p := n => IsReported(env, data, n);
      NameLines(env, cfg, data, Filter(p, names)) ==
      (if IsReported(env, data, names[0]) then [NameLine(env, cfg, data, names[0])] else []) +
      NameLines(env, cfg, data, Filter(p, names[1..]))
  {
    var p := n => IsReported(env, data, n);
    if p(names[0]) {
      assert Filter(p, names) == [names[0]] + Filter(p, names[1..]);
      NameLinesPrepend(env, cfg, data, names[0], Filter(p, names[1..]));
    } else {
      assert Filter(p, names) == Filter(p, names[1..]);
      assert [] + NameLines(env, cfg, data, Filter(p, names[1..])) == NameLines(env, cfg, data, Filter(p, names[1..]));
    }
  }

  /**
   * With `-x` set, a failed write of the pixel data stops the loop: the
   * lines printed for the names before it stay, nothing follows them (no
   * closing blank line either), and the write's error is returned.
   */
  lemma InspectStopsOnWriteFailure(env: Env, cfg: Config, path: string, data: DataSet,
                                   before: seq<string>, name: string, after: seq<string>, elem: Element, e: string)
    requires cfg.extract != ""
    requires forall n :: n in before ==> !IsPixelName(env, data, n)
    requires FindElementByName(env.findTagByName, data, name) == Some(elem)
    requires elem.tag == PIXEL_DATA && |elem.values| > 0 && elem.values[0].PixelDataInfo?
    requires var buf := Concat(elem.values[0].frames);
             env.writeFile(OutputFileName(env, cfg.extract, path, env.detectMimeType(buf)), buf) == Some(e)
    ensures InspectTrace(env, cfg, path, data, before + [name] + after) ==
            Trace(NameLines(env, cfg, data, Filter(n => IsReported(env, data, n), before)), Err(WriteFailed(e)))
  {
    assert before + [name] + after == before + ([name] + after);
    assert ([name] + after)[0] == name;
    InspectUpToPixelData(env, cfg, path, data, before, [name] + after);
    assert NameLines(env, cfg, data, Filter(n => IsReported(env, data, n), before)) + [] ==
           NameLines(env, cfg, data, Filter(n => IsReported(env, data, n), before));
  }

  /**
   * With `-x` set and one name resolving to PixelData whose write succeeds,
   * the inspection prints the report lines of the names before it, then the
   * extraction's output, then the report lines of the names after it, then
   * the blank line.
   */
  lemma InspectExtractsPixelData(env: Env, cfg: Config, path: string, data: DataSet,
                                 before: seq<string>, name: string, after: seq<string>, elem: Element)
    requires cfg.extract != ""
    requires forall n :: n in before ==> !IsPixelName(env, data, n)
    requires forall n :: n in after ==> !IsPixelName(env, data, n)
    requires FindElementByName(env.findTagByName, data, name) == Some(elem)
    requires elem.tag == PIXEL_DATA && |elem.values| > 0 && elem.values[0].PixelDataInfo?
    requires var buf := Concat(elem.values[0].frames);
             env.writeFile(OutputFileName(env, cfg.extract, path, env.detectMimeType(buf)), buf).None?
    ensures var p := n => IsReported(env, data, n);
      InspectTrace(env, cfg, path, data, before + [name] + after) ==
      Trace(NameLines(env, cfg, data, Filter(p, before)) + ExtractTrace(env, cfg.extract, path, name, elem).out +
            NameLines(env, cfg, data, Filter(p, after)) + [Printed("\n")], Ok)
  {
    var p := n => IsReported(env, data, n);
    var x := ExtractTrace(env, cfg.extract, path, name, elem).out;
    PixelNameStep(env, cfg, path, data, name, elem);
    InspectUpToPixelData(env, cfg, path, data, after, []);
    assert after + [] == after;
    var b := NameLines(env, cfg, data, Filter(p, after));
    assert InspectTrace(env, cfg, path, data, after) == Trace(b + [Printed("\n")], Ok);
    assert ([name] + after)[0] == name && ([name] + after)[1..] == after;
    assert InspectTrace(env, cfg, path, data, [name] + after) == Trace(x + (b + [Printed("\n")]), Ok);
    assert before + [name] + after == before + ([name] + after);
    InspectUpToPixelData(env, cfg, path, data, before, [name] + after);
    var a := NameLines(env, cfg, data, Filter(p, before));
    AppendRegroup(a, x, b, [Printed("\n")]);
  }

  /** A name resolving to PixelData, under `-x`, runs the extraction; a successful write ends it with nil. */
  lemma PixelNameStep(env: Env, cfg: Config, path: string, data: DataSet, name: string, elem: Element)
    requires cfg.extract != ""
    requires FindElementByName(env.findTagByName, data, name) == Some(elem)
    requires elem.tag == PIXEL_DATA && |elem.values| > 0 && elem.values[0].PixelDataInfo?
    requires var buf := Concat(elem.values[0].frames);
             env.writeFile(OutputFileName(env, cfg.extract, path, env.detectMimeType(buf)), buf).None?
    ensures NameTrace(env, cfg, path, data, name) == ExtractTrace(env, cfg.extract, path, name, elem)
    ensures ExtractTrace(env, cfg.extract, path, name, elem).status == Ok
  {
  }

  /** A name that does not resolve is skipped wherever it stands and the loop goes on. */
  lemma {:induction false} InspectSkipsAbsentName(env: Env, cfg: Config, path: string, data: DataSet,
                                                 before: seq<string>, name: string, after: seq<string>)
    requires FindElementByName(env.findTagByName, data, name).None?
    ensures InspectTrace(env, cfg, path, data, before + [name] + after) ==
            InspectTrace(env, cfg, path, data, before + after)
    decreases |before|
  {
    if |before| == 0 {
      assert before + [name] + after == [name] + after;
      assert ([name] + after)[1..] == after;
      assert before + after == after;
    } else {
      assert (before + [name] + after)[1..] == before[1..] + [name] + after;
      assert (before + after)[1..] == before[1..] + after;
      assert (before + [name] + after)[0] == before[0] == (before + after)[0];
      InspectSkipsAbsentName(env, cfg, path, data, before[1..], name, after);
    }
  }

  /**
   * A name that resolves to an element other than PixelData contributes
   * exactly its one report line, whatever the other settings: no allow-list
   * is consulted.
   */
  lemma ReportedNamePrintsOneLine(env: Env, cfg: Config, path: string, data: DataSet, name: string)
    requires IsReported(env, data, name)
    ensures NameTrace(env, cfg, path, data, name) ==
            Trace([Printed(ReportLine(cfg.noBanner, name, FindElementByName(env.findTagByName, data, name).value))], Ok)
  {
  }

  /** Without extraction no step of the inspection writes a file. */
  lemma {:induction false} NoExtractionNoWrite(env: Env, cfg: Config, path: string, data: DataSet, names: seq<string>)
    requires cfg.extract == ""
    ensures forall k :: 0 <= k < |InspectTrace(env, cfg, path, data, names).out| ==>
              InspectTrace(env, cfg, path, data, names).out[k].Printed?
    decreases |names|
  {
    if |names| > 0 { NoExtractionNoWrite(env, cfg, path, data, names[1..]); }
  }

  /** Filtering a sorted list of names keeps it sorted. */
  lemma {:induction false} FilterKeepsSorted(p: string -> bool, s: seq<string>)
    requires Sorted(s)
    ensures Sorted(Filter(p, s))
    decreases |s|
  {
    if |s| > 0 {
      FilterKeepsSorted(p, s[1..]);
      if p(s[0]) {
        var t := Filter(p, s[1..]);
        forall j | 0 <= j < |t| ensures LessEq(s[0], t[j]) {
          FilterMembership(p, s[1..], t[j]);
          var k :| 0 <= k < |s[1..]| && s[1..][k] == t[j];
          assert s[k + 1] == t[j];
        }
      }
    }
  }
}
