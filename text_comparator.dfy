/** `TextComparator`: diffs the word texts of two pages and highlights the words that changed. */
module TextComparator {
  import opened Geometry
  import opened Canvas
  import opened Highlighter
  import opened Chunks
  import opened Deltas
  import opened Wrappers

  /** The boxes of a word list, index for index. */
  function WordRects(words: seq<TextChunk>): (r: seq<Rect>)
    ensures |r| == |words| && forall i :: 0 <= i < |words| ==> r[i] == words[i].rectangle
  {
    seq(|words|, i requires 0 <= i < |words| => words[i].rectangle)
  }

  /** The highlights `compareText` draws: the planner applied to the diff of the two word texts. */
  function TextPlan(diff: Differ, words1: seq<TextChunk>, words2: seq<TextChunk>, width1: real, isMultiple: bool): seq<Highlight>
  {
    Plan(diff(Texts(words1), Texts(words2)), WordRects(words1), WordRects(words2), width1, isMultiple)
  }

  /** `highlightChunk`: draws each word of the run that exists, in index order. */
  method HighlightChunk(cb: ContentByte, chunk: Chunk, words: seq<TextChunk>, color: Color, xOffset: real)
    modifies cb
    ensures cb.log == old(cb.log) + TokenOps(ChunkHighlights(chunk.position, chunk.size, WordRects(words), color, xOffset))
  {
    var j := chunk.position;
    ghost var n: nat := 0;
    while j < chunk.position + chunk.size
      invariant j == chunk.position + n && n <= chunk.size
      invariant cb.log == old(cb.log) + TokenOps(ChunkHighlights(chunk.position, n, WordRects(words), color, xOffset))
    {
      HighlightAt(cb, chunk.position, n, j, words, color, xOffset, old(cb.log));
      j := j + 1;
      n := n + 1;
    }
  }

  /** The body of the loop of `highlightChunk`: draws element `j` if the list has it. */
  method HighlightAt(cb: ContentByte, ghost position: nat, ghost n: nat, j: nat, words: seq<TextChunk>, color: Color, xOffset: real,
                     ghost before: seq<Op>)
    modifies cb
    requires j == position + n
    requires cb.log == before + TokenOps(ChunkHighlights(position, n, WordRects(words), color, xOffset))
    ensures cb.log == before + TokenOps(ChunkHighlights(position, n + 1, WordRects(words), color, xOffset))
  {
    if j < |words| {
      DrawRectangle(cb, words[j].rectangle, color, xOffset);
      ChunkStepDrawn(before, position, n, WordRects(words), color, xOffset);
    } else {
      ChunkStepSkipped(position, n, WordRects(words), color, xOffset);
    }
  }

  /** The body of the loop of `compareText`: the highlight runs of one delta. */
  method HighlightDelta(cb: ContentByte, delta: Delta, words1: seq<TextChunk>, words2: seq<TextChunk>, width1: real, isMultiple: bool)
    modifies cb
    ensures cb.log == old(cb.log) + TokenOps(DeltaHighlights(delta, WordRects(words1), WordRects(words2), width1, isMultiple))
  {
    ghost var rects1, rects2 := WordRects(words1), WordRects(words2);
    var offset := if isMultiple then width1 else 0.0;
    match delta.kind {
      case Delete =>
        if isMultiple {
          HighlightChunk(cb, delta.source, words1, RED, 0.0);
        } else {
          assert old(cb.log) + TokenOps([]) == old(cb.log);
        }
      case Insert =>
        HighlightChunk(cb, delta.target, words2, GREEN, offset);
      case Change =>
        ghost var removed := if isMultiple then ChunkHighlights(delta.source.position, delta.source.size, rects1, RED, 0.0) else [];
        if isMultiple {
          HighlightChunk(cb, delta.source, words1, RED, 0.0);
        } else {
          assert old(cb.log) + TokenOps([]) == old(cb.log);
        }
        HighlightChunk(cb, delta.target, words2, GREEN, offset);
        ghost var added := ChunkHighlights(delta.target.position, delta.target.size, rects2, GREEN, offset);
        TokenOpsAppend(removed, added);
        ConcatAssoc(old(cb.log), TokenOps(removed), TokenOps(added));
      case Equal =>
        assert old(cb.log) + TokenOps([]) == old(cb.log);
    }
  }

  /** `compareText`: one highlight run per delta of the diff of the two word texts. */
  method CompareText(cb: ContentByte, diff: Differ, words1: seq<TextChunk>, words2: seq<TextChunk>, width1: real, isMultiple: bool)
    modifies cb
    ensures cb.log == old(cb.log) + TokenOps(TextPlan(diff, words1, words2, width1, isMultiple))
  {
    var texts1 := Texts(words1);
    var texts2 := Texts(words2);
    var deltas := diff(texts1, texts2);
    ghost var rects1, rects2 := WordRects(words1), WordRects(words2);
    for i := 0 to |deltas|
      invariant cb.log == old(cb.log) + TokenOps(Plan(deltas[..i], rects1, rects2, width1, isMultiple))
    {
      ghost var drawn := TokenOps(Plan(deltas[..i], rects1, rects2, width1, isMultiple));
      HighlightDelta(cb, deltas[i], words1, words2, width1, isMultiple);
      PlanStepOps(deltas, i, rects1, rects2, width1, isMultiple);
      ConcatAssoc(old(cb.log), drawn, TokenOps(DeltaHighlights(deltas[i], rects1, rects2, width1, isMultiple)));
    }
    assert deltas[..|deltas|] == deltas;
  }

  /**
   * What ends up on the page: every planned highlight as a translucent fill of its word box,
   * shifted by its offset, and the graphics state as it was before.
   */
  lemma CompareTextPaints(p: Painter, diff: Differ, words1: seq<TextChunk>, words2: seq<TextChunk>, width1: real, isMultiple: bool)
    requires p.path == []
    ensures Exec(p, TokenOps(TextPlan(diff, words1, words2, width1, isMultiple)))
      == Some(p.(painted := p.painted + Paints(TextPlan(diff, words1, words2, width1, isMultiple))))
  {
    TokenOpsPaint(p, TextPlan(diff, words1, words2, width1, isMultiple));
  }

  /** Moving words without changing their texts changes where marks go, never which words are marked. */
  lemma TextPlanSameDeltas(diff: Differ, words1: seq<TextChunk>, words2: seq<TextChunk>, moved1: seq<TextChunk>, moved2: seq<TextChunk>, width1: real, isMultiple: bool)
    requires |moved1| == |words1| && forall i :: 0 <= i < |words1| ==> moved1[i].text == words1[i].text
    requires |moved2| == |words2| && forall i :: 0 <= i < |words2| ==> moved2[i].text == words2[i].text
    ensures TextPlan(diff, moved1, moved2, width1, isMultiple)
      == Plan(diff(Texts(words1), Texts(words2)), WordRects(moved1), WordRects(moved2), width1, isMultiple)
  {
    TextsIgnoreRectangles(words1, moved1);
    TextsIgnoreRectangles(words2, moved2);
  }
}
