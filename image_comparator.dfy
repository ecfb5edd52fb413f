/** `ImageComparator`: diffs the image identifiers of two pages and highlights the images that changed. */
module ImageComparator {
  import opened Geometry
  import opened Canvas
  import opened Highlighter
  import opened Chunks
  import opened Deltas
  import opened Wrappers

  /** The boxes of an image list, index for index. */
  function ImageRects(images: seq<ImageChunk>): (r: seq<Rect>)
    ensures |r| == |images| && forall i :: 0 <= i < |images| ==> r[i] == images[i].rectangle
  {
    seq(|images|, i requires 0 <= i < |images| => images[i].rectangle)
  }

  /** The highlights `compareImages` draws: the planner applied to the diff of the two identifier lists. */
  function ImagePlan(diff: Differ, images1: seq<ImageChunk>, images2: seq<ImageChunk>, width1: real, isMultiple: bool): seq<Highlight>
  {
    Plan(diff(Identifiers(images1), Identifiers(images2)), ImageRects(images1), ImageRects(images2), width1, isMultiple)
  }

  /** `highlightChunk`: highlights each image of the run that exists, in index order. */
  method HighlightChunk(cb: ContentByte, chunk: Chunk, images: seq<ImageChunk>, color: Color, xOffset: real)
    modifies cb
    ensures cb.log == old(cb.log) + TokenOps(ChunkHighlights(chunk.position, chunk.size, ImageRects(images), color, xOffset))
  {
    var j := chunk.position;
    ghost var n: nat := 0;
    while j < chunk.position + chunk.size
      invariant j == chunk.position + n && n <= chunk.size
      invariant cb.log == old(cb.log) + TokenOps(ChunkHighlights(chunk.position, n, ImageRects(images), color, xOffset))
    {
      HighlightAt(cb, chunk.position, n, j, images, color, xOffset, old(cb.log));
      j := j + 1;
      n := n + 1;
    }
  }

  /** The body of the loop of `highlightChunk`: draws element `j` if the list has it. */
  method HighlightAt(cb: ContentByte, ghost position: nat, ghost n: nat, j: nat, images: seq<ImageChunk>, color: Color, xOffset: real,
                     ghost before: seq<Op>)
    modifies cb
    requires j == position + n
    requires cb.log == before + TokenOps(ChunkHighlights(position, n, ImageRects(images), color, xOffset))
    ensures cb.log == before + TokenOps(ChunkHighlights(position, n + 1, ImageRects(images), color, xOffset))
  {
    if j < |images| {
      HighlightRectangle(cb, images[j].rectangle, color, xOffset);
      ChunkStepDrawn(before, position, n, ImageRects(images), color, xOffset);
    } else {
      ChunkStepSkipped(position, n, ImageRects(images), color, xOffset);
    }
  }

  /** The body of the loop of `compareImages`: the highlight runs of one delta. */
  method HighlightDelta(cb: ContentByte, delta: Delta, images1: seq<ImageChunk>, images2: seq<ImageChunk>, width1: real, isMultiple: bool)
    modifies cb
    ensures cb.log == old(cb.log) + TokenOps(DeltaHighlights(delta, ImageRects(images1), ImageRects(images2), width1, isMultiple))
  {
    ghost var rects1, rects2 := ImageRects(images1), ImageRects(images2);
    var offset := if isMultiple then width1 else 0.0;
    match delta.kind {
      case Delete =>
        if isMultiple {
          HighlightChunk(cb, delta.source, images1, RED, 0.0);
        } else {
          assert old(cb.log) + TokenOps([]) == old(cb.log);
        }
      case Insert =>
        HighlightChunk(cb, delta.target, images2, GREEN, offset);
      case Change =>
        ghost var removed := if isMultiple then ChunkHighlights(delta.source.position, delta.source.size, rects1, RED, 0.0) else [];
        if isMultiple {
          HighlightChunk(cb, delta.source, images1, RED, 0.0);
        } else {
          assert old(cb.log) + TokenOps([]) == old(cb.log);
        }
        HighlightChunk(cb, delta.target, images2, GREEN, offset);
        ghost var added := ChunkHighlights(delta.target.position, delta.target.size, rects2, GREEN, offset);
        TokenOpsAppend(removed, added);
        ConcatAssoc(old(cb.log), TokenOps(removed), TokenOps(added));
      case Equal =>
        assert old(cb.log) + TokenOps([]) == old(cb.log);
    }
  }

  /** `compareImages`: one highlight run per delta of the diff of the two identifier lists. */
  method CompareImages(cb: ContentByte, diff: Differ, images1: seq<ImageChunk>, images2: seq<ImageChunk>, width1: real, isMultiple: bool)
    modifies cb
    ensures cb.log == old(cb.log) + TokenOps(ImagePlan(diff, images1, images2, width1, isMultiple))
  {
    var imageIds1 := Identifiers(images1);
    var imageIds2 := Identifiers(images2);
    var deltas := diff(imageIds1, imageIds2);
    ghost var rects1, rects2 := ImageRects(images1), ImageRects(images2);
    for i := 0 to |deltas|
      invariant cb.log == old(cb.log) + TokenOps(Plan(deltas[..i], rects1, rects2, width1, isMultiple))
    {
      ghost var drawn := TokenOps(Plan(deltas[..i], rects1, rects2, width1, isMultiple));
      HighlightDelta(cb, deltas[i], images1, images2, width1, isMultiple);
      PlanStepOps(deltas, i, rects1, rects2, width1, isMultiple);
      ConcatAssoc(old(cb.log), drawn, TokenOps(DeltaHighlights(deltas[i], rects1, rects2, width1, isMultiple)));
    }
    assert deltas[..|deltas|] == deltas;
  }

  /**
   * What ends up on the page: every planned highlight as a translucent fill of its image box,
   * shifted by its offset, and the graphics state as it was before.
   */
  lemma CompareImagesPaints(p: Painter, diff: Differ, images1: seq<ImageChunk>, images2: seq<ImageChunk>, width1: real, isMultiple: bool)
    requires p.path == []
    ensures Exec(p, TokenOps(ImagePlan(diff, images1, images2, width1, isMultiple)))
      == Some(p.(painted := p.painted + Paints(ImagePlan(diff, images1, images2, width1, isMultiple))))
  {
    TokenOpsPaint(p, ImagePlan(diff, images1, images2, width1, isMultiple));
  }

  /**
   * Only the hashes reach the diff: two image lists with pointwise equal hashes are diffed exactly
   * like the original ones, wherever the images sit on the page.
   */
  lemma ImagePlanSameDeltas(diff: Differ, images1: seq<ImageChunk>, images2: seq<ImageChunk>, moved1: seq<ImageChunk>, moved2: seq<ImageChunk>, width1: real, isMultiple: bool)
    requires |moved1| == |images1| && forall i :: 0 <= i < |images1| ==> moved1[i].imageHash == images1[i].imageHash
    requires |moved2| == |images2| && forall i :: 0 <= i < |images2| ==> moved2[i].imageHash == images2[i].imageHash
    ensures ImagePlan(diff, moved1, moved2, width1, isMultiple)
      == Plan(diff(Identifiers(images1), Identifiers(images2)), ImageRects(moved1), ImageRects(moved2), width1, isMultiple)
  {
    IdentifiersIgnoreRectangles(images1, moved1);
    IdentifiersIgnoreRectangles(images2, moved2);
  }
}
