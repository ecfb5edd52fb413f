/**
 * What the pipeline reads from an input PDF through `PdfReader` and `PdfReaderContentParser`:
 * a page count, each page's size, and the render events the parser reports for a page's content.
 */
module Documents {
  import opened Geometry
  import opened Wrappers
  import opened HashUtility

  /** One glyph of a text run: the start of its baseline and the end of its ascent line. */
  datatype CharInfo = CharInfo(baselineStart: Point, ascentEnd: Point)

  /** An affine transform `[a b 0; c d 0; e f 1]`, as iText's `Matrix` stores it. */
  datatype Matrix = Matrix(a: real, b: real, c: real, d: real, e: real, f: real)

  /** What `ImageRenderInfo.getImage()` followed by `getImageAsBytes()` gives. */
  datatype ImageFetch =
    | NullImage                       // getImage() returned null
    | Unreadable(message: string)     // getImage() or getImageAsBytes() threw an IOException
    | ImageBytes(bytes: seq<JByte>)

  /** The callbacks a `RenderListener` receives that the pipeline reacts to. */
  datatype RenderEvent =
    | TextRender(text: string, chars: seq<CharInfo>)  // renderText: getText() and getCharacterRenderInfos()
    | ImageRender(image: ImageFetch, ctm: Matrix)      // renderImage: the image and getImageCTM()

  /** A page's content stream: the events it renders, or the IOException parsing it raises. */
  datatype Content = Parsed(events: seq<RenderEvent>) | Unparsable(message: string)

  datatype Page = Page(size: Rect, content: Content)

  /** An opened input document. */
  datatype Reader = Reader(pages: seq<Page>)

  /** `PdfReader.getNumberOfPages()`. */
  function NumberOfPages(r: Reader): nat
  {
    |r.pages|
  }

  /** `PdfReader.getPageSize(p)` for a page that exists (pages are numbered from 1). */
  function PageSize(r: Reader, p: int): Rect
    requires 1 <= p <= NumberOfPages(r)
  {
    r.pages[p - 1].size
  }

  /**
   * `PdfReaderContentParser.processContent(p, listener)`: the events delivered for page p. A page
   * number with no page behind it makes the parser dereference a null page dictionary.
   */
  function PageEvents(r: Reader, p: int): (res: Result<seq<RenderEvent>>)
    ensures !(1 <= p <= NumberOfPages(r)) <==> res == Thrown(NullPointerException)
    ensures res.Thrown? ==> res.error.NullPointerException? || res.error.IOException?
  {
    if 1 <= p <= NumberOfPages(r) then
      match r.pages[p - 1].content
      case Parsed(events) => Ok(events)
      case Unparsable(message) => Thrown(IOException(message))
    else Thrown(NullPointerException)
  }
}
