/**
 * The decoder chain: one PDF's first page is rendered, cropped by the region
 * detector and decoded, first by the QR-only symbol reader and, only when that
 * finds no symbol, by the quadrilateral detect-and-decode reader.
 * Rendering, binarisation and both decoders are library code; here their
 * results are inputs.
 */
module DecoderChain {
  import opened Wrappers
  import opened RegionDetector

  /**
   * What the primary (QR-only) reader reports for an image: it raised, or it
   * found a list of symbols. Each symbol is given by the UTF-8 decoding of its
   * data bytes, `None` when those bytes are not valid UTF-8 (so decoding raises).
   */
  datatype Primary = Raised | Found(symbols: seq<Option<string>>)

  /**
   * A PDF as the extractor sees it: unreadable (it cannot be opened, has no
   * first page, or that page cannot be rendered), or rendered, with the
   * corners the QR detector reports on the binarised page and the results each
   * decoder would give on a given crop of it. The secondary result is `None`
   * when that reader raised and `Some("")` when it decoded nothing.
   */
  datatype Page =
    | Unreadable
    | Rendered(detected: Option<seq<Point>>, primary: Crop -> Primary, secondary: Crop -> Option<string>)

  /** Python truthiness of a string-or-None payload. */
  predicate Truthy(payload: Option<string>) {
    payload.Some? && payload.value != ""
  }

  /**
   * The two-stage fallback on one image: the first symbol of a non-empty
   * primary list wins; an empty list hands over to the secondary result, kept
   * only when it is a non-empty string. A raise anywhere in the primary stage,
   * including decoding the first symbol, ends in the outer handler: no payload.
   */
  function Fallback(primary: Primary, secondary: Option<string>): (r: Option<string>)
    ensures r.Some? ==>
      (primary.Found? && primary.symbols != [] && r == primary.symbols[0]) ||
      (primary == Found([]) && Truthy(secondary) && r == secondary)
    ensures primary == Found([]) ==> (r.Some? <==> Truthy(secondary))
    ensures primary.Raised? ==> r == None
  {
    match primary
    case Raised => None
    case Found(symbols) =>
      if |symbols| > 0 then symbols[0]
      else if Truthy(secondary) then secondary
      else None
  }

  /** The payload of one PDF, with an unreadable PDF giving no payload. */
  function ExtractPayload(page: Page): (r: Option<string>)
    ensures page.Unreadable? ==> r == None
  {
    match page
    case Unreadable => None
    case Rendered(detected, primary, secondary) =>
      var crop := DetectAndCrop(detected);
      Fallback(primary(crop), secondary(crop))
  }

  /** How a call of the extractor ends as the code is written: a value, or an exception escaping it. */
  datatype Extraction = Returns(payload: Option<string>) | RaisesUnbound

  /**
   * The extractor as written: when the page never becomes an image, the
   * cleanup code closes image variables that were never bound and raises.
   */
  function ExtractAsWritten(page: Page): (r: Extraction)
    ensures r == RaisesUnbound <==> page.Unreadable?
  {
    match page
    case Unreadable => RaisesUnbound
    case Rendered(detected, primary, secondary) =>
      var crop := DetectAndCrop(detected);
      Returns(Fallback(primary(crop), secondary(crop)))
  }

  /** A non-empty primary list decides alone: the result is its first symbol, whatever the secondary reader would say. */
  lemma PrimaryWins(symbols: seq<Option<string>>, secondary1: Option<string>, secondary2: Option<string>)
    requires symbols != []
    ensures Fallback(Found(symbols), secondary1) == Fallback(Found(symbols), secondary2) == symbols[0]
  {
  }

  /** Only an empty primary list consults the secondary reader; a falsy secondary result gives no payload. */
  lemma SecondaryOnlyAfterEmptyPrimary(primary: Primary, secondary: Option<string>)
    ensures primary != Found([]) ==> Fallback(primary, secondary) == Fallback(primary, None)
    ensures primary == Found([]) && Truthy(secondary) ==> Fallback(primary, secondary) == secondary
    ensures primary == Found([]) && !Truthy(secondary) ==> Fallback(primary, secondary) == None
  {
  }

  /** With nothing detected, both readers are given the whole page. */
  lemma NoDetectionDecodesFullPage(detected: Option<seq<Point>>, primary: Crop -> Primary, secondary: Crop -> Option<string>)
    requires detected.None? || detected == Some([])
    ensures ExtractPayload(Rendered(detected, primary, secondary)) == Fallback(primary(Full), secondary(Full))
  {
  }

  /** On a rendered page both readers are given the crop to the bounding box of the detected corners. */
  lemma DetectionDecodesBox(corners: seq<Point>, primary: Crop -> Primary, secondary: Crop -> Option<string>)
    requires corners != []
    ensures var crop := Cropped(BoundingBox(corners).value);
      ExtractPayload(Rendered(Some(corners), primary, secondary)) == Fallback(primary(crop), secondary(crop))
  {
  }

  /** As written, an unreadable PDF makes the extractor raise out of its cleanup instead of returning. */
  lemma UnreadableRaisesAsWritten()
    ensures ExtractAsWritten(Unreadable) == RaisesUnbound
  {
  }

  /** The corrected extractor agrees with the code as written on every page the code handles. */
  lemma ExtractAgreesWhereWrittenReturns(page: Page)
    ensures ExtractAsWritten(page).Returns? <==> page.Rendered?
    ensures ExtractAsWritten(page).Returns? ==> ExtractAsWritten(page).payload == ExtractPayload(page)
  {
  }
}
