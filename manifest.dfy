/**
 * The manifest reader: the `font` elements of the entitlements manifest,
 * already parsed, are reduced to font records. The XML parser itself is a
 * library and is represented only by what it yields: either nothing usable
 * or a document whose `fonts` container may be missing.
 */
module Manifest {
  import opened Wrappers

  /** One installed font: its id (also the name of its file on disk), family and style. */
  datatype FontRecord = FontRecord(id: string, name: string, weight: string)

  /** The `properties` child of a `font` element; `None` is a missing child or a child without text. */
  datatype Properties = Properties(familyName: Option<string>, variationName: Option<string>)

  /** A `font` element: its `id` text and its `properties` child, each possibly missing. */
  datatype FontElement = FontElement(id: Option<string>, properties: Option<Properties>)

  /** What the XML library hands over for the manifest file. */
  datatype ManifestDoc =
    | Unparsable                                  // the library raised a parse error
    | Document(fonts: Option<seq<FontElement>>)   // the root's `fonts` child, if any

  /** The fatal conditions of loading the manifest. */
  datatype LoadError = ManifestMissing | ParseFailed | FontsElementMissing

  /**
   * The record one element yields, if it yields one: a missing child raises
   * an attribute error and an absent or empty text fails the `all(...)` test;
   * either way the element is skipped.
   */
  function ElementRecord(e: FontElement): Option<FontRecord> {
    match e
    case FontElement(Some(i), Some(Properties(Some(n), Some(w)))) =>
      if i != "" && n != "" && w != "" then Some(FontRecord(i, n, w)) else None
    case _ => None
  }

  /** The records kept from a sequence of elements, in document order. */
  function KeptRecords(es: seq<FontElement>): seq<FontRecord> {
    if es == [] then []
    else
      var last := ElementRecord(es[|es| - 1]);
      KeptRecords(es[..|es| - 1]) + (if last.Some? then [last.value] else [])
  }

  /** The number of elements the reader drops. */
  function Dropped(es: seq<FontElement>): nat {
    if es == [] then 0
    else Dropped(es[..|es| - 1]) + (if ElementRecord(es[|es| - 1]).None? then 1 else 0)
  }

  /**
   * `get_font_metadata` after parsing: a parse error and a missing `fonts`
   * container are fatal; otherwise each element is reduced in turn.
   */
  method GetFontMetadata(doc: ManifestDoc) returns (r: Result<seq<FontRecord>, LoadError>)
    ensures doc.Unparsable? ==> r == Failure(ParseFailed)
    ensures doc == Document(None) ==> r == Failure(FontsElementMissing)
    ensures doc.Document? && doc.fonts.Some? ==> r == Success(KeptRecords(doc.fonts.value))
  {
    if doc.Unparsable? {
      return Failure(ParseFailed);
    }
    if doc.fonts.None? {
      return Failure(FontsElementMissing);
    }
    var elems := doc.fonts.value;
    var fonts: seq<FontRecord> := [];
    var i := 0;
    while i < |elems|
      invariant 0 <= i <= |elems|
      invariant fonts == KeptRecords(elems[..i])
    {
      assert elems[..i + 1][..i] == elems[..i];
      var e := elems[i];
      if e.id.Some? && e.properties.Some? && e.properties.value.familyName.Some?
         && e.properties.value.variationName.Some?
      {
        var fId := e.id.value;
        var fName := e.properties.value.familyName.value;
        var fWeight := e.properties.value.variationName.value;
        if fId != "" && fName != "" && fWeight != "" {
          fonts := fonts + [FontRecord(fId, fName, fWeight)];
        }
      }
      i := i + 1;
    }
    assert elems[..i] == elems;
    return Success(fonts);
  }

  /** Reading two runs of elements one after the other keeps both results, in order. */
  lemma {:induction false} KeptRecordsAppend(a: seq<FontElement>, b: seq<FontElement>)
    ensures KeptRecords(a + b) == KeptRecords(a) + KeptRecords(b)
    decreases |b|
  {
    if b == [] {
      assert a + b == a;
    } else {
      var b' := b[..|b| - 1];
      assert (a + b)[..|a + b| - 1] == a + b';
      KeptRecordsAppend(a, b');
    }
  }

  /** Every element is either kept or dropped, so no more records than elements come out. */
  lemma {:induction false} KeptRecordsCount(es: seq<FontElement>)
    ensures |KeptRecords(es)| == |es| - Dropped(es)
    ensures |KeptRecords(es)| <= |es|
  {
    if es != [] {
      KeptRecordsCount(es[..|es| - 1]);
    }
  }

  /**
   * A record comes out of the reader exactly when some element has all three
   * fields present and non-empty, with those values.
   */
  lemma {:induction false} KeptRecordsMembers(es: seq<FontElement>, f: FontRecord)
    ensures f in KeptRecords(es) <==>
      f.id != "" && f.name != "" && f.weight != "" &&
      exists k :: 0 <= k < |es| &&
        es[k] == FontElement(Some(f.id), Some(Properties(Some(f.name), Some(f.weight))))
  {
    if es != [] {
      var init := es[..|es| - 1];
      KeptRecordsMembers(init, f);
      var shape := FontElement(Some(f.id), Some(Properties(Some(f.name), Some(f.weight))));
      if f in KeptRecords(es) && f !in KeptRecords(init) {
        assert es[|es| - 1] == shape;
      }
      if f.id != "" && f.name != "" && f.weight != "" {
        if k :| 0 <= k < |es| && es[k] == shape {
          if k < |es| - 1 {
            assert init[k] == shape;
          }
        }
      }
    }
  }
}
