/** Filtering and flattening of sequences. */
module Seqs {

  /** The elements of `s` that satisfy `p`, in their original order. */
  function Filter<T>(p: T -> bool, s: seq<T>): seq<T>
    decreases |s|
  {
    if |s| == 0 then []
    else if p(s[0]) then [s[0]] + Filter(p, s[1..])
    else Filter(p, s[1..])
  }

  lemma {:induction false} FilterMembership<T>(p: T -> bool, s: seq<T>, x: T)
    ensures x in Filter(p, s) <==> x in s && p(x)
    decreases |s|
  {
    if |s| > 0 {
      FilterMembership(p, s[1..], x);
      assert s == [s[0]] + s[1..];
    }
  }

  /** Filtering a concatenation keeps the kept elements of the first part first. */
  lemma {:induction false} FilterAppend<T>(p: T -> bool, a: seq<T>, b: seq<T>)
    ensures Filter(p, a + b) == Filter(p, a) + Filter(p, b)
    decreases |a|
  {
    if |a| > 0 {
      assert (a + b)[1..] == a[1..] + b;
      FilterAppend(p, a[1..], b);
    } else {
      assert a + b == b;
    }
  }

  /** The concatenation of all parts, in order. */
  lemma AppendRegroup<T>(a: seq<T>, b: seq<T>, c: seq<T>, d: seq<T>)
    ensures a + (b + (c + d)) == a + b + c + d
  {
  }

  lemma PrependRegroup<T>(h: seq<T>, a: seq<T>, b: seq<T>, c: seq<T>, d: seq<T>)
    ensures h + (a + b + c + d) == h + a + b + c + d
  {
  }

  function Concat<T>(parts: seq<seq<T>>): seq<T>
    decreases |parts|
  {
    if |parts| == 0 then [] else Concat(parts[..|parts| - 1]) + parts[|parts| - 1]
  }

  function TotalLength<T>(parts: seq<seq<T>>): nat
    decreases |parts|
  {
    if |parts| == 0 then 0 else TotalLength(parts[..|parts| - 1]) + |parts[|parts| - 1]|
  }

  lemma {:induction false} ConcatLength<T>(parts: seq<seq<T>>)
    ensures |Concat(parts)| == TotalLength(parts)
    decreases |parts|
  {
    if |parts| > 0 { ConcatLength(parts[..|parts| - 1]); }
  }

  lemma {:induction false} ConcatPrepend<T>(x: seq<T>, parts: seq<seq<T>>)
    ensures Concat([x] + parts) == x + Concat(parts)
    decreases |parts|
  {
    if |parts| > 0 {
      var n := |parts|;
      assert ([x] + parts)[..n] == [x] + parts[..n - 1];
      ConcatPrepend(x, parts[..n - 1]);
    }
  }

  /**
   * Part `i` occupies, unchanged, the positions of the concatenation that
   * start after the parts before it.
   */
  lemma {:induction false} ConcatPlacesPart<T>(parts: seq<seq<T>>, i: nat)
    requires i < |parts|
    ensures TotalLength(parts[..i]) + |parts[i]| <= |Concat(parts)|
    ensures Concat(parts)[TotalLength(parts[..i])..TotalLength(parts[..i]) + |parts[i]|] == parts[i]
    decreases |parts|
  {
    var n := |parts|;
    var init := parts[..n - 1];
    ConcatLength(parts);
    ConcatLength(init);
    assert Concat(parts) == Concat(init) + parts[n - 1];
    if i == n - 1 {
      assert parts[..i] == init;
      assert Concat(parts)[|Concat(init)|..] == parts[n - 1];
    } else {
      ConcatPlacesPart(init, i);
      assert init[..i] == parts[..i];
      var a := TotalLength(parts[..i]);
      assert Concat(parts)[a..a + |parts[i]|] == Concat(init)[a..a + |parts[i]|];
    }
  }
}
