/**
 * The three transfer-syntax tables of main.go and the strict lookup `find`
 * with its three wrappers.
 *
 * Each table entry is one string "<UID> <name>". Every UID in the tables
 * lies under the DICOM root "1.2.840.10008.1.2.4.", so an entry is stored
 * here as the number of the last arc of its UID and its name; `EntryText`
 * rebuilds the exact string main.go lists.
 */
module TransferSyntax {
  import opened Wrappers
  import opened Text

  const UID_ROOT: string := "1.2.840.10008.1.2.4."

  /** One table entry: UID `UID_ROOT` followed by the decimal `arc`, human-readable `name`. */
  datatype Syntax = Syntax(arc: nat, name: string)

  function Uid(s: Syntax): string {
    UID_ROOT + Digits(s.arc)
  }

  /** The string the source stores for `s`: the UID, one space, the name. */
  function EntryText(s: Syntax): (r: string)
    ensures |r| == |UID_ROOT| + |Digits(s.arc)| + 1 + |s.name|
    ensures r[..|UID_ROOT|] == UID_ROOT
    ensures r[|UID_ROOT|..|UID_ROOT| + |Digits(s.arc)|] == Digits(s.arc)
    ensures r[|UID_ROOT| + |Digits(s.arc)|] == ' '
    ensures r[|UID_ROOT| + |Digits(s.arc)| + 1..] == s.name
  {
    Uid(s) + " " + s.name
  }

  function EntryTexts(l: seq<Syntax>): (r: seq<string>)
    ensures |r| == |l|
    ensures forall i :: 0 <= i < |l| ==> r[i] == EntryText(l[i])
  {
    seq(|l|, i requires 0 <= i < |l| => EntryText(l[i]))
  }

  const JpegSyntaxes: seq<Syntax> := [
    Syntax(50, "JPEG Baseline (Process 1)"),
    Syntax(51, "JPEG Baseline (Processes 2 & 4)"),
    Syntax(52, "JPEG Extended (Processes 3 & 5) Retired"),
    Syntax(53, "JPEG Spectral Selection, Nonhierarchical (Processes 6 & 8) Retired"),
    Syntax(54, "JPEG Spectral Selection, Nonhierarchical (Processes 7 & 9) Retired"),
    Syntax(55, "JPEG Full Progression, Nonhierarchical (Processes 10 & 12) Retired"),
    Syntax(56, "JPEG Full Progression, Nonhierarchical (Processes 11 & 13) Retired"),
    Syntax(57, "JPEG Lossless, Nonhierarchical (Processes 14)"),
    Syntax(58, "JPEG Lossless, Nonhierarchical (Processes 15) Retired"),
    Syntax(59, "JPEG Extended, Hierarchical (Processes 16 & 18) Retired"),
    Syntax(60, "JPEG Extended, Hierarchical (Processes 17 & 19) Retired"),
    Syntax(61, "JPEG Spectral Selection, Hierarchical (Processes 20 & 22) Retired"),
    Syntax(62, "JPEG Spectral Selection, Hierarchical (Processes 21 & 23) Retired"),
    Syntax(63, "JPEG Full Progression, Hierarchical (Processes 24 & 26) Retired"),
    Syntax(64, "JPEG Full Progression, Hierarchical (Processes 25 & 27) Retired"),
    Syntax(65, "JPEG Lossless, Nonhierarchical (Process 28) Retired"),
    Syntax(66, "JPEG Lossless, Nonhierarchical (Process 29) Retired"),
    Syntax(70, "JPEG Lossless, Nonhierarchical, First- Order Prediction"),
    Syntax(80, "JPEG-LS Lossless Image Compression"),
    Syntax(81, "JPEG-LS Lossy (Near- Lossless) Image Compression")
  ]

  const Jpeg2000Syntaxes: seq<Syntax> := [
    Syntax(90, "JPEG 2000 Image Compression (Lossless Only)"),
    Syntax(91, "JPEG 2000 Image Compression"),
    Syntax(92, "JPEG 2000 Part 2 Multicomponent Image Compression (Lossless Only)"),
    Syntax(93, "JPEG 2000 Part 2 Multicomponent Image Compression"),
    Syntax(94, "JPIP Referenced"),
    Syntax(95, "JPIP Referenced Deflate")
  ]

  const MpegSyntaxes: seq<Syntax> := [
    Syntax(100, "MPEG2 Main Profile Main Level"),
    Syntax(102, "MPEG-4 AVC/H.264 High Profile / Level 4.1"),
    Syntax(103, "MPEG-4 AVC/H.264 BD-compatible High Profile / Level 4.1")
  ]

  /** The string slices of the source. */
  const JPEG_LIST: seq<string> := EntryTexts(JpegSyntaxes)
  const JPEG_2000_LIST: seq<string> := EntryTexts(Jpeg2000Syntaxes)
  const MPEG_LIST: seq<string> := EntryTexts(MpegSyntaxes)

  /** The position of the first occurrence of `e` in `l`, or -1 (`common.IndexOf`). */
  function IndexOf(l: seq<string>, e: string): (r: int)
    ensures -1 <= r < |l|
    ensures r == -1 <==> e !in l
    ensures r >= 0 ==> l[r] == e && e !in l[..r]
  {
    if |l| == 0 then -1
    else if l[0] == e then 0
    else
      var p := IndexOf(l[1..], e);
      if p == -1 then -1 else p + 1
  }

  /**
   * `find`: whole-string membership that never answers "no". It returns
   * true when `e` is one of the entries and panics otherwise.
   */
  function Find(l: seq<string>, e: string): (r: Outcome<bool>)
    ensures r.Returned? <==> e in l
    ensures r.Returned? ==> r.value
    ensures r.Panicked? ==> r.reason == CannotFind(e, l)
  {
    var p := IndexOf(l, e);
    if p == -1 then Panicked(CannotFind(e, l)) else Returned(p >= 0)
  }

  function IsJpegTransferSyntax(st: string): (r: Outcome<bool>)
    ensures r.Returned? <==> st in JPEG_LIST
    ensures r.Returned? ==> r.value
    ensures r.Panicked? ==> r.reason == CannotFind(st, JPEG_LIST)
  {
    Find(JPEG_LIST, st)
  }

  function IsJpeg2000TransferSyntax(st: string): (r: Outcome<bool>)
    ensures r.Returned? <==> st in JPEG_2000_LIST
    ensures r.Returned? ==> r.value
    ensures r.Panicked? ==> r.reason == CannotFind(st, JPEG_2000_LIST)
  {
    Find(JPEG_2000_LIST, st)
  }

  function IsMpegTransferSyntax(st: string): (r: Outcome<bool>)
    ensures r.Returned? <==> st in MPEG_LIST
    ensures r.Returned? ==> r.value
    ensures r.Panicked? ==> r.reason == CannotFind(st, MPEG_LIST)
  {
    Find(MPEG_LIST, st)
  }

  /** All three tables, one after the other. */
  const AllSyntaxes: seq<Syntax> := JpegSyntaxes + Jpeg2000Syntaxes + MpegSyntaxes

  /** The tables list their UIDs in strictly ascending order of the last arc. */
  lemma ArcsAreAscending()
    ensures forall i :: 0 <= i < |AllSyntaxes| - 1 ==> AllSyntaxes[i].arc < AllSyntaxes[i + 1].arc
  {
  }

  /** No UID is used twice, across all three tables. */
  lemma {:induction false} ArcsAreDistinct(i: nat, j: nat)
    requires i < j < |AllSyntaxes|
    ensures AllSyntaxes[i].arc < AllSyntaxes[j].arc
    decreases j - i
  {
    ArcsAreAscending();
    if i + 1 < j { ArcsAreDistinct(i + 1, j); }
  }

  /** The position of the first space in `x`, or `|x|` when there is none. */
  function FirstSpace(x: string): (r: nat)
    ensures r <= |x|
  {
    if |x| == 0 || x[0] == ' ' then 0 else 1 + FirstSpace(x[1..])
  }

  lemma {:induction false} FirstSpaceAfter(a: string, b: string)
    requires ' ' !in a
    ensures FirstSpace(a + " " + b) == |a|
    decreases |a|
  {
    if |a| > 0 {
      assert (a + " " + b)[0] == a[0];
      assert (a + " " + b)[1..] == a[1..] + " " + b;
      FirstSpaceAfter(a[1..], b);
    }
  }

  /** A string splits uniquely at its first space. */
  lemma SplitAtSpace(a: string, b: string, c: string, d: string)
    requires ' ' !in a && ' ' !in c
    requires a + " " + b == c + " " + d
    ensures a == c && b == d
  {
    FirstSpaceAfter(a, b);
    FirstSpaceAfter(c, d);
    var x := a + " " + b;
    assert x[..|a|] == a && x[|a| + 1..] == b;
    assert (c + " " + d)[..|c|] == c && (c + " " + d)[|c| + 1..] == d;
  }

  /** Two entries with the same text have the same UID and the same name. */
  lemma EntryTextInjective(s: Syntax, t: Syntax)
    requires EntryText(s) == EntryText(t)
    ensures s == t
  {
    var ds, dt := Digits(s.arc), Digits(t.arc);
    DigitsRoundTrip(s.arc);
    DigitsRoundTrip(t.arc);
    assert ' ' !in ds && ' ' !in dt;
    assert EntryText(s)[|UID_ROOT|..] == ds + " " + s.name;
    assert EntryText(t)[|UID_ROOT|..] == dt + " " + t.name;
    SplitAtSpace(ds, s.name, dt, t.name);
  }

  /** Distinct positions of the combined table hold distinct entry texts. */
  lemma AllTextsDistinct(i: int, j: int)
    requires 0 <= i < j < |AllSyntaxes|
    ensures EntryText(AllSyntaxes[i]) != EntryText(AllSyntaxes[j])
  {
    ArcsAreDistinct(i, j);
    if EntryText(AllSyntaxes[i]) == EntryText(AllSyntaxes[j]) {
      EntryTextInjective(AllSyntaxes[i], AllSyntaxes[j]);
    }
  }

  /** No table lists an entry twice. */
  lemma TablesHaveNoDuplicates()
    ensures forall i, j :: 0 <= i < j < |JPEG_LIST| ==> JPEG_LIST[i] != JPEG_LIST[j]
    ensures forall i, j :: 0 <= i < j < |JPEG_2000_LIST| ==> JPEG_2000_LIST[i] != JPEG_2000_LIST[j]
    ensures forall i, j :: 0 <= i < j < |MPEG_LIST| ==> MPEG_LIST[i] != MPEG_LIST[j]
  {
    var a, b := |JpegSyntaxes|, |JpegSyntaxes| + |Jpeg2000Syntaxes|;
    forall i, j | 0 <= i < j < |JPEG_LIST| ensures JPEG_LIST[i] != JPEG_LIST[j] {
      AllTextsDistinct(i, j);
    }
    forall i, j | 0 <= i < j < |JPEG_2000_LIST| ensures JPEG_2000_LIST[i] != JPEG_2000_LIST[j] {
      AllTextsDistinct(a + i, a + j);
    }
    forall i, j | 0 <= i < j < |MPEG_LIST| ensures MPEG_LIST[i] != MPEG_LIST[j] {
      AllTextsDistinct(b + i, b + j);
    }
  }

  /** No entry appears in two tables. */
  lemma TablesAreDisjoint()
    ensures forall e :: e in JPEG_LIST ==> e !in JPEG_2000_LIST && e !in MPEG_LIST
    ensures forall e :: e in JPEG_2000_LIST ==> e !in MPEG_LIST
  {
    var a, b := |JpegSyntaxes|, |JpegSyntaxes| + |Jpeg2000Syntaxes|;
    forall i, j | 0 <= i < |JPEG_LIST| && 0 <= j < |JPEG_2000_LIST| ensures JPEG_LIST[i] != JPEG_2000_LIST[j] {
      AllTextsDistinct(i, a + j);
    }
    forall i, j | 0 <= i < |JPEG_LIST| && 0 <= j < |MPEG_LIST| ensures JPEG_LIST[i] != MPEG_LIST[j] {
      AllTextsDistinct(i, b + j);
    }
    forall i, j | 0 <= i < |JPEG_2000_LIST| && 0 <= j < |MPEG_LIST| ensures JPEG_2000_LIST[i] != MPEG_LIST[j] {
      AllTextsDistinct(a + i, b + j);
    }
  }

  /** Every entry of every table begins with the UID root. */
  lemma EntriesStartWithRoot()
    ensures forall e :: e in JPEG_LIST + JPEG_2000_LIST + MPEG_LIST ==> UID_ROOT <= e
  {
    forall e | e in JPEG_LIST + JPEG_2000_LIST + MPEG_LIST ensures UID_ROOT <= e {
      var l := JPEG_LIST + JPEG_2000_LIST + MPEG_LIST;
      var i :| 0 <= i < |l| && l[i] == e;
      assert e[..|UID_ROOT|] == UID_ROOT;
    }
  }

  /** Every entry holds a space, between its UID and its name. */
  lemma EntriesContainSpace(l: seq<Syntax>, e: string)
    requires e in EntryTexts(l)
    ensures ' ' in e
  {
    var i :| 0 <= i < |l| && EntryTexts(l)[i] == e;
    assert e[|UID_ROOT| + |Digits(l[i].arc)|] == ' ';
  }

  /**
   * Matching is whole-string: a string without a space, such as a bare UID,
   * is in no table, so each wrapper panics on it instead of answering false.
   */
  lemma BareUidPanics(st: string)
    requires ' ' !in st
    ensures IsJpegTransferSyntax(st) == Panicked(CannotFind(st, JPEG_LIST))
    ensures IsJpeg2000TransferSyntax(st) == Panicked(CannotFind(st, JPEG_2000_LIST))
    ensures IsMpegTransferSyntax(st) == Panicked(CannotFind(st, MPEG_LIST))
  {
    if st in JPEG_LIST { EntriesContainSpace(JpegSyntaxes, st); }
    if st in JPEG_2000_LIST { EntriesContainSpace(Jpeg2000Syntaxes, st); }
    if st in MPEG_LIST { EntriesContainSpace(MpegSyntaxes, st); }
  }

  /** The JPEG Baseline UID, written bare, makes `isJpegTransferSyntax` panic. */
  lemma JpegBaselineBareUidPanics()
    ensures IsJpegTransferSyntax("1.2.840.10008.1.2.4.50").Panicked?
  {
    BareUidPanics("1.2.840.10008.1.2.4.50");
  }

  /** The same UID written as the whole table entry is found. */
  lemma JpegBaselineEntryFound()
    ensures IsJpegTransferSyntax("1.2.840.10008.1.2.4.50 JPEG Baseline (Process 1)") == Returned(true)
  {
    FirstJpegEntry();
    assert JPEG_LIST[0] in JPEG_LIST;
  }

  lemma FirstJpegEntry()
    ensures JPEG_LIST[0] == "1.2.840.10008.1.2.4.50 JPEG Baseline (Process 1)"
  {
    assert JpegSyntaxes[0] == Syntax(50, "JPEG Baseline (Process 1)");
    assert JPEG_LIST[0] == EntryText(JpegSyntaxes[0]);
    JpegBaselineText();
  }

  lemma JpegBaselineText()
    ensures EntryText(Syntax(50, "JPEG Baseline (Process 1)")) == "1.2.840.10008.1.2.4.50 JPEG Baseline (Process 1)"
  {
    assert Digits(50) == "50" by { assert Digits(5) == "5"; }
  }

  /** An entry of one table is found by its own wrapper and makes the other two panic. */
  lemma ClassificationIsExclusive(st: string)
    ensures st in JPEG_LIST ==>
      IsJpegTransferSyntax(st) == Returned(true) &&
      IsJpeg2000TransferSyntax(st).Panicked? && IsMpegTransferSyntax(st).Panicked?
    ensures st in JPEG_2000_LIST ==>
      IsJpeg2000TransferSyntax(st) == Returned(true) &&
      IsJpegTransferSyntax(st).Panicked? && IsMpegTransferSyntax(st).Panicked?
    ensures st in MPEG_LIST ==>
      IsMpegTransferSyntax(st) == Returned(true) &&
      IsJpegTransferSyntax(st).Panicked? && IsJpeg2000TransferSyntax(st).Panicked?
  {
    TablesAreDisjoint();
  }
}
