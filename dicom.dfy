/**
 * The decoded dataset as the DICOM library hands it over: a sequence of
 * elements, each a tag, a list of values and the library's rendering of
 * the element as text (`elem.String()`).
 */
module Dicom {
  import opened Wrappers

  newtype byte = b: int | 0 <= b < 256

  type Bytes = seq<byte>

  /** A tag: its group and element number. */
  datatype Tag = Tag(group: nat, element: nat)

  /** `dicomtag.PixelData`, (7FE0,0010). */
  const PIXEL_DATA: Tag := Tag(0x7FE0, 0x0010)

  /**
   * One entry of an element's value list. Only the pixel-data shape matters
   * here; every other Go value the library may store is `OtherValue`.
   */
  datatype Value = PixelDataInfo(frames: seq<Bytes>) | OtherValue

  datatype Element = Element(tag: Tag, values: seq<Value>, text: string)

  datatype DataSet = DataSet(elements: seq<Element>)

  /** One registry entry, as `dicomtag.AllTags` and `dicomtag.FindTagInfo` return it. */
  datatype TagInfo = TagInfo(tag: Tag, name: string)

  /** The first element carrying `tag`, if any. */
  function FindElementByTag(elems: seq<Element>, tag: Tag): (r: Option<Element>)
    ensures r.None? <==> forall i :: 0 <= i < |elems| ==> elems[i].tag != tag
    ensures r.Some? ==> exists i :: 0 <= i < |elems| && elems[i] == r.value &&
                          r.value.tag == tag && forall j :: 0 <= j < i ==> elems[j].tag != tag
  {
    if |elems| == 0 then None
    else if elems[0].tag == tag then Some(elems[0])
    else
      var r := FindElementByTag(elems[1..], tag);
      assert forall j :: 0 < j < |elems| ==> elems[j] == elems[1..][j - 1];
      r
  }

  /**
   * `DataSet.FindElementByName`: the registry turns the name into a tag
   * (`findTagByName`, a partial function), then the first element with
   * that tag is taken. Either step may fail.
   */
  function FindElementByName(findTagByName: string -> Option<Tag>, data: DataSet, name: string): (r: Option<Element>)
    ensures r.Some? <==> findTagByName(name).Some? &&
                         exists i :: 0 <= i < |data.elements| && data.elements[i].tag == findTagByName(name).value
    ensures r.Some? ==> r.value in data.elements && r.value.tag == findTagByName(name).value
  {
    match findTagByName(name)
    case None => None
    case Some(tag) => FindElementByTag(data.elements, tag)
  }
}
