/**
 * Search mode of `processFile` (main.go:106-125): a scan of the elements
 * actually present, in dataset order, printing those whose tag name matches
 * the case-insensitive pattern `(?i)` + the `-s` value.
 */
module Search {
  import opened Wrappers
  import opened Dicom
  import opened Collaborators
  import opened Seqs

  /** The pattern handed to the regular-expression engine. */
  function CaseInsensitive(search: string): string {
    "(?i)" + search
  }

  /** `fmt.Printf("%s: %s\n", tn.Name, elem.String())`. */
  function SearchLine(name: string, elem: Element): string {
    name + ": " + elem.text + "\n"
  }

  /** What one iteration of the scan does, from `elems[0]` on. */
  function SearchTrace(env: Env, search: string, elems: seq<Element>): Trace
    decreases |elems|
  {
    if |elems| == 0 then Trace([], Ok)
    else
      var elem := elems[0];
      match env.findTagInfo(elem.tag)
      case None => SearchTrace(env, search, elems[1..])
      case Some(info) =>
        match MatchString(env, CaseInsensitive(search), info.name)
        case Failure(e) => Trace([], Err(PatternFailed(e)))
        case Success(b) =>
          Then(Trace(if b then [Printed(SearchLine(info.name, elem))] else [], Ok),
               SearchTrace(env, search, elems[1..]))
  }

  /** The loop over `data.Elements`, with its `continue` and its early `return`. */
  method SearchElements(env: Env, search: string, elems: seq<Element>) returns (out: seq<Event>, status: Status)
    ensures Trace(out, status) == SearchTrace(env, search, elems)
  {
    out := [];
    var i := 0;
    while i < |elems|
      invariant 0 <= i <= |elems|
      invariant Then(Trace(out, Ok), SearchTrace(env, search, elems[i..])) == SearchTrace(env, search, elems)
    {
      var elem := elems[i];
      assert elems[i..][0] == elem && elems[i..][1..] == elems[i + 1..];
      var tn := env.findTagInfo(elem.tag);
      if tn.None? {
        i := i + 1;
        continue;
      }
      var b := MatchString(env, CaseInsensitive(search), tn.value.name);
      if b.Failure? {
        assert out + [] == out;
        return out, Err(PatternFailed(b.error));
      }
      var line := if b.value then [Printed(SearchLine(tn.value.name, elem))] else [];
      assert forall rest: seq<Event> :: (out + line) + rest == out + (line + rest);
      out := out + line;
      i := i + 1;
    }
    assert out + [] == out;
    status := Ok;
  }

  /** An element is reported when its tag resolves and its name matches. */
  predicate IsHit(env: Env, search: string, elem: Element) {
    match env.findTagInfo(elem.tag)
    case None => false
    case Some(info) => env.regexMatches(CaseInsensitive(search), info.name)
  }

  /** The line printed for a hit. */
  function HitLine(env: Env, elem: Element): Event {
    match env.findTagInfo(elem.tag)
    case None => Printed("")  // never used: a hit always has a registry entry
    case Some(info) => Printed(SearchLine(info.name, elem))
  }

  function HitLines(env: Env, hits: seq<Element>): (r: seq<Event>)
    ensures |r| == |hits|
    ensures forall k :: 0 <= k < |hits| ==> r[k] == HitLine(env, hits[k])
  {
    seq(|hits|, k requires 0 <= k < |hits| => HitLine(env, hits[k]))
  }

  /**
   * With a pattern that compiles, the scan never fails and prints exactly
   * one line per hit, in dataset order; elements whose tag does not
   * resolve, and names that do not match, print nothing.
   */
  lemma {:induction false} SearchPrintsHitsInOrder(env: Env, search: string, elems: seq<Element>)
    requires env.regexError(CaseInsensitive(search)).None?
    ensures SearchTrace(env, search, elems) ==
            Trace(HitLines(env, Filter(e => IsHit(env, search, e), elems)), Ok)
    decreases |elems|
  {
    if |elems| > 0 {
      var p := e => IsHit(env, search, e);
      var elem, rest := elems[0], Filter(p, elems[1..]);
      SearchPrintsHitsInOrder(env, search, elems[1..]);
      SearchStep(env, search, elems);
      if p(elem) {
        assert Filter(p, elems) == [elem] + rest;
        HitLinesPrepend(env, elem, rest);
      } else {
        assert Filter(p, elems) == rest;
      }
    }
  }

  /** One step of the scan with a pattern that compiles. */
  lemma SearchStep(env: Env, search: string, elems: seq<Element>)
    requires env.regexError(CaseInsensitive(search)).None?
    requires |elems| > 0
    ensures var next := SearchTrace(env, search, elems[1..]);
      SearchTrace(env, search, elems) ==
      Trace((if IsHit(env, search, elems[0]) then [HitLine(env, elems[0])] else []) + next.out, next.status)
  {
    if IsHit(env, search, elems[0]) {
    } else {
      assert [] + SearchTrace(env, search, elems[1..]).out == SearchTrace(env, search, elems[1..]).out;
    }
  }

  lemma HitLinesPrepend(env: Env, elem: Element, hits: seq<Element>)
    ensures HitLines(env, [elem] + hits) == [HitLine(env, elem)] + HitLines(env, hits)
  {
  }

  /**
   * With a pattern that does not compile, nothing is printed; the error is
   * returned exactly when some element's tag resolves (the pattern is only
   * compiled when a name has to be matched).
   */
  lemma {:induction false} SearchBadPattern(env: Env, search: string, elems: seq<Element>, reason: string)
    requires env.regexError(CaseInsensitive(search)) == Some(reason)
    ensures SearchTrace(env, search, elems).out == []
    ensures SearchTrace(env, search, elems).status ==
            if exists i :: 0 <= i < |elems| && env.findTagInfo(elems[i].tag).Some?
            then Err(PatternFailed(reason)) else Ok
    decreases |elems|
  {
    if |elems| > 0 {
      SearchBadPattern(env, search, elems[1..], reason);
      if env.findTagInfo(elems[0].tag).None? {
        assert (exists i :: 0 <= i < |elems| && env.findTagInfo(elems[i].tag).Some?) <==>
               (exists i :: 0 <= i < |elems[1..]| && env.findTagInfo(elems[1..][i].tag).Some?) by {
          forall i | 0 < i < |elems| ensures elems[i] == elems[1..][i - 1] { }
        }
      }
    }
  }

  /** An element whose tag does not resolve is skipped wherever it stands and the scan goes on. */
  lemma {:induction false} SearchSkipsUnknownTag(env: Env, search: string, before: seq<Element>, elem: Element, after: seq<Element>)
    requires env.findTagInfo(elem.tag).None?
    ensures SearchTrace(env, search, before + [elem] + after) == SearchTrace(env, search, before + after)
    decreases |before|
  {
    if |before| == 0 {
      assert before + [elem] + after == [elem] + after;
      assert ([elem] + after)[1..] == after;
      assert before + after == after;
    } else {
      assert (before + [elem] + after)[1..] == before[1..] + [elem] + after;
      assert (before + after)[1..] == before[1..] + after;
      assert (before + [elem] + after)[0] == before[0] == (before + after)[0];
      SearchSkipsUnknownTag(env, search, before[1..], elem, after);
    }
  }

  /** Search mode never writes a file and never panics. */
  lemma {:induction false} SearchOnlyPrints(env: Env, search: string, elems: seq<Element>)
    ensures forall k :: 0 <= k < |SearchTrace(env, search, elems).out| ==> SearchTrace(env, search, elems).out[k].Printed?
    ensures !SearchTrace(env, search, elems).status.Panic?
    decreases |elems|
  {
    if |elems| > 0 { SearchOnlyPrints(env, search, elems[1..]); }
  }
}
