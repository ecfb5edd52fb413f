/**
 * `PDFImageExtractor`: each drawn image becomes an `ImageChunk` holding the hash of its bytes and
 * the bounding box of the unit square under the image's transformation matrix.
 */
module ImageExtractor {
  import opened Geometry
  import opened Wrappers
  import opened HashUtility
  import opened Chunks
  import opened Documents

  /** `Float.MAX_VALUE`, the largest finite float. */
  const FLOAT_MAX: real := 340282346638528859811704183484516925440.0
  /** `Float.MIN_VALUE`: the smallest POSITIVE float, 2^-149, not the most negative one. */
  const FLOAT_MIN: real := 1.0 / 713623846352979940529142984724747568191373312.0

  /** `new Vector(x, y, 1).cross(m)`, its first two components. */
  function Transform(m: Matrix, x: real, y: real): Point
  {
    Point(x * m.a + y * m.c + m.e, x * m.b + y * m.d + m.f)
  }

  /** The unit square's corners (0,0), (0,1), (1,1), (1,0) under the matrix, in that order. */
  function Corners(m: Matrix): (r: seq<Point>)
    ensures |r| == 4
  {
    [Transform(m, 0.0, 0.0), Transform(m, 0.0, 1.0), Transform(m, 1.0, 1.0), Transform(m, 1.0, 0.0)]
  }

  function MinR(a: real, b: real): real
  {
    if a <= b then a else b
  }

  function MaxR(a: real, b: real): real
  {
    if a >= b then a else b
  }

  /** `Math.min` folded over the x (or y) coordinates, starting from `init`. */
  function Lowest(init: real, vs: seq<real>): real
    decreases |vs|
  {
    if vs == [] then init else MinR(Lowest(init, vs[..|vs| - 1]), vs[|vs| - 1])
  }

  /** `Math.max` folded over the coordinates, starting from `init`. */
  function Highest(init: real, vs: seq<real>): real
    decreases |vs|
  {
    if vs == [] then init else MaxR(Highest(init, vs[..|vs| - 1]), vs[|vs| - 1])
  }

  function Xs(ps: seq<Point>): (r: seq<real>)
    ensures |r| == |ps| && forall i :: 0 <= i < |ps| ==> r[i] == ps[i].x
  {
    seq(|ps|, i requires 0 <= i < |ps| => ps[i].x)
  }

  function Ys(ps: seq<Point>): (r: seq<real>)
    ensures |r| == |ps| && forall i :: 0 <= i < |ps| ==> r[i] == ps[i].y
  {
    seq(|ps|, i requires 0 <= i < |ps| => ps[i].y)
  }

  /** The box the corner loop computes. */
  function BoxOf(m: Matrix): Rect
  {
    var cs := Corners(m);
    Rect(Lowest(FLOAT_MAX, Xs(cs)), Lowest(FLOAT_MAX, Ys(cs)), Highest(FLOAT_MIN, Xs(cs)), Highest(FLOAT_MIN, Ys(cs)))
  }

  /** The corner loop with its four accumulators. */
  method BoundingBox(ctm: Matrix) returns (rect: Rect)
    ensures rect == BoxOf(ctm)
  {
    var corners := Corners(ctm);
    var minX, minY := FLOAT_MAX, FLOAT_MAX;
    var maxX, maxY := FLOAT_MIN, FLOAT_MIN;
    for i := 0 to |corners|
      invariant minX == Lowest(FLOAT_MAX, Xs(corners[..i])) && minY == Lowest(FLOAT_MAX, Ys(corners[..i]))
      invariant maxX == Highest(FLOAT_MIN, Xs(corners[..i])) && maxY == Highest(FLOAT_MIN, Ys(corners[..i]))
    {
      var x := corners[i].x;
      var y := corners[i].y;
      assert Xs(corners[..i + 1])[..i] == Xs(corners[..i]) && Ys(corners[..i + 1])[..i] == Ys(corners[..i]);
      minX := MinR(minX, x);
      minY := MinR(minY, y);
      maxX := MaxR(maxX, x);
      maxY := MaxR(maxY, y);
    }
    assert corners[..|corners|] == corners;
    rect := Rect(minX, minY, maxX, maxY);
  }

  // ----- properties of the box --------------------------------------------------------

  /** The folded minimum is below the start and every value, and is the start or one of the values. */
  lemma {:induction false} LowestIsMinimum(init: real, vs: seq<real>)
    ensures Lowest(init, vs) <= init
    ensures forall i :: 0 <= i < |vs| ==> Lowest(init, vs) <= vs[i]
    ensures Lowest(init, vs) == init || exists i :: 0 <= i < |vs| && Lowest(init, vs) == vs[i]
    decreases |vs|
  {
    if vs != [] {
      var us := vs[..|vs| - 1];
      LowestIsMinimum(init, us);
      assert forall i :: 0 <= i < |us| ==> us[i] == vs[i];
    }
  }

  /** The folded maximum is above the start and every value, and is the start or one of the values. */
  lemma {:induction false} HighestIsMaximum(init: real, vs: seq<real>)
    ensures Highest(init, vs) >= init
    ensures forall i :: 0 <= i < |vs| ==> Highest(init, vs) >= vs[i]
    ensures Highest(init, vs) == init || exists i :: 0 <= i < |vs| && Highest(init, vs) == vs[i]
    decreases |vs|
  {
    if vs != [] {
      var us := vs[..|vs| - 1];
      HighestIsMaximum(init, us);
      assert forall i :: 0 <= i < |us| ==> us[i] == vs[i];
    }
  }

  /**
   * The box's lower-left corner is the least corner coordinate (all four corners lie below
   * `Float.MAX_VALUE` in practice); its upper-right corner is the greatest corner coordinate or
   * `Float.MIN_VALUE`, whichever is larger, so it is never negative.
   */
  lemma BoxBounds(m: Matrix)
    ensures var cs := Corners(m); var r := BoxOf(m);
      && (forall i :: 0 <= i < 4 ==> r.llx <= cs[i].x && r.lly <= cs[i].y)
      && ((forall i :: 0 <= i < 4 ==> cs[i].x <= FLOAT_MAX) ==> exists i :: 0 <= i < 4 && r.llx == cs[i].x)
      && ((forall i :: 0 <= i < 4 ==> cs[i].y <= FLOAT_MAX) ==> exists i :: 0 <= i < 4 && r.lly == cs[i].y)
      && (forall i :: 0 <= i < 4 ==> r.urx >= cs[i].x && r.ury >= cs[i].y)
      && r.urx >= FLOAT_MIN > 0.0 && r.ury >= FLOAT_MIN
      && (r.urx == FLOAT_MIN || exists i :: 0 <= i < 4 && r.urx == cs[i].x)
      && (r.ury == FLOAT_MIN || exists i :: 0 <= i < 4 && r.ury == cs[i].y)
  {
    var cs := Corners(m);
    LowestIsMinimum(FLOAT_MAX, Xs(cs));
    LowestIsMinimum(FLOAT_MAX, Ys(cs));
    HighestIsMaximum(FLOAT_MIN, Xs(cs));
    HighestIsMaximum(FLOAT_MIN, Ys(cs));
  }

  const IDENTITY: Matrix := Matrix(1.0, 0.0, 0.0, 1.0, 0.0, 0.0)

  /** An image drawn with the identity matrix occupies the unit square at the origin. */
  lemma IdentityBox(m: Matrix)
    requires m == IDENTITY
    ensures BoxOf(m).Left() == 0.0 && BoxOf(m).Bottom() == 0.0
    ensures BoxOf(m).Width() == 1.0 && BoxOf(m).Height() == 1.0
  {
    var cs := Corners(m);
    assert cs == [Point(0.0, 0.0), Point(0.0, 1.0), Point(1.0, 1.0), Point(1.0, 0.0)];
    BoxBounds(m);
    var r := BoxOf(m);
    assert r.llx == 0.0 && r.lly == 0.0 by { assert r.llx <= cs[0].x && r.lly <= cs[0].y; }
    assert r.urx == 1.0 && r.ury == 1.0 by { assert r.urx >= cs[2].x && r.ury >= cs[2].y; }
  }

  /**
   * An image placed entirely left of and below the origin still gets a box whose upper-right
   * corner is `Float.MIN_VALUE`, not the image's own corner: the maximum starts from a positive value.
   */
  lemma NegativeImageBox()
    ensures BoxOf(Matrix(1.0, 0.0, 0.0, 1.0, -10.0, -10.0)) == Rect(-10.0, -10.0, FLOAT_MIN, FLOAT_MIN)
  {
    var m := Matrix(1.0, 0.0, 0.0, 1.0, -10.0, -10.0);
    var r := BoxOf(m);
    var cs := Corners(m);
    assert cs == [Point(-10.0, -10.0), Point(-10.0, -9.0), Point(-9.0, -9.0), Point(-9.0, -10.0)];
    BoxBounds(m);
    assert r.llx == -10.0 && r.lly == -10.0 by { assert r.llx <= cs[0].x && r.lly <= cs[0].y; }
  }

  // ----- extractImages ----------------------------------------------------------------

  /**
   * The chunks one render event contributes: none for a text event, a null image or an image
   * whose bytes cannot be read (the IOException is printed and dropped), else one chunk.
   */
  function EventImages(md5: Digest, e: RenderEvent): (r: seq<ImageChunk>)
    ensures |r| <= 1
  {
    match e
    case ImageRender(ImageBytes(bytes), ctm) => [ImageChunk(HashText(md5, bytes), BoxOf(ctm))]
    case _ => []
  }

  /** The images of a page, in event order. */
  function ImagesOf(md5: Digest, events: seq<RenderEvent>): seq<ImageChunk>
  {
    FlatMap((e: RenderEvent) => EventImages(md5, e), events)
  }

  /** Events whose image bytes could be read. */
  function Readable(events: seq<RenderEvent>): (r: seq<RenderEvent>)
    decreases |events|
  {
    if events == [] then []
    else
      var e := events[|events| - 1];
      Readable(events[..|events| - 1]) + (if e.ImageRender? && e.image.ImageBytes? then [e] else [])
  }

  /**
   * Exactly one chunk per readable image, in event order: the k-th chunk holds the hash of the
   * k-th readable image's bytes and the box of its matrix; nothing else produces a chunk.
   */
  lemma {:induction false} ImagesOfReadable(md5: Digest, events: seq<RenderEvent>)
    ensures var r := Readable(events); var cs := ImagesOf(md5, events);
      && |cs| == |r|
      && forall k :: 0 <= k < |r| ==>
           r[k].ImageRender? && r[k].image.ImageBytes? &&
           cs[k] == ImageChunk(HashText(md5, r[k].image.bytes), BoxOf(r[k].ctm))
    decreases |events|
  {
    if events != [] {
      ImagesOfReadable(md5, events[..|events| - 1]);
    }
  }

  /** The images of consecutive event runs are the images of each, concatenated. */
  lemma ImagesOfAppend(md5: Digest, a: seq<RenderEvent>, b: seq<RenderEvent>)
    ensures ImagesOf(md5, a + b) == ImagesOf(md5, a) + ImagesOf(md5, b)
  {
    FlatMapAppend((e: RenderEvent) => EventImages(md5, e), a, b);
  }

  /** An image that fails to load does not stop the images after it from being collected. */
  lemma UnreadableIsSkipped(md5: Digest, a: seq<RenderEvent>, message: string, ctm: Matrix, b: seq<RenderEvent>)
    ensures ImagesOf(md5, a + [ImageRender(Unreadable(message), ctm)] + b) == ImagesOf(md5, a) + ImagesOf(md5, b)
  {
    var bad := ImageRender(Unreadable(message), ctm);
    var s := a + [bad];
    assert s[..|s| - 1] == a && s[|s| - 1] == bad;
    assert ImagesOf(md5, s) == ImagesOf(md5, a) + EventImages(md5, bad);
    assert EventImages(md5, bad) == [];
    assert ImagesOf(md5, s) == ImagesOf(md5, a);
    ImagesOfAppend(md5, s, b);
  }

  /** The listener of `extractImages`: hashes and boxes every readable image it is given. */
  method CollectImages(md5: Digest, events: seq<RenderEvent>) returns (images: seq<ImageChunk>)
    ensures images == ImagesOf(md5, events)
  {
    images := [];
    for i := 0 to |events|
      invariant images == ImagesOf(md5, events[..i])
    {
      assert events[..i + 1][..i] == events[..i];
      match events[i]
      case TextRender(_, _) =>
      case ImageRender(image, ctm) =>
        match image
        case NullImage =>
        case Unreadable(_) =>
        case ImageBytes(imageBytes) =>
          var imageHash := HashBytes(md5, imageBytes);
          var rect := BoundingBox(ctm);
          images := images + [ImageChunk(imageHash, rect)];
    }
    assert events[..|events|] == events;
  }

  /** `extractImages`: the images of page p, or what parsing the page throws. */
  method ExtractImages(md5: Digest, reader: Reader, pageNum: int) returns (r: Result<seq<ImageChunk>>)
    ensures PageEvents(reader, pageNum).Ok? ==> r == Ok(ImagesOf(md5, PageEvents(reader, pageNum).value))
    ensures PageEvents(reader, pageNum).Thrown? ==> r == Thrown(PageEvents(reader, pageNum).error)
  {
    match PageEvents(reader, pageNum)
    case Thrown(e) =>
      r := Thrown(e);
    case Ok(events) =>
      var images := CollectImages(md5, events);
      r := Ok(images);
  }
}
