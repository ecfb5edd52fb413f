/**
 * The deltas `DiffUtils.diff` reports and the highlights the two comparators draw for them.
 * The diff algorithm itself is a parameter (`Differ`); only the shape of its output is used.
 */
module Deltas {
  import opened Geometry
  import opened Highlighter
  import opened Canvas
  import opened Wrappers

  /** `DeltaType` of java-diff-utils. */
  datatype DeltaType = Change | Delete | Insert | Equal

  /** `Chunk`: a run of `size` consecutive elements starting at `position`. */
  datatype Chunk = Chunk(position: nat, size: nat)

  /** `AbstractDelta`: its type, the run it covers in the first list and the run in the second. */
  datatype Delta = Delta(kind: DeltaType, source: Chunk, target: Chunk)

  /** `DiffUtils.diff(list1, list2).getDeltas()`, whatever algorithm computes it. */
  type Differ = (seq<string>, seq<string>) -> seq<Delta>

  /** A run lies inside a list of length n. */
  predicate Within(c: Chunk, n: nat)
  {
    c.position + c.size <= n
  }

  /** Deltas whose runs stay inside the two lists they were computed from. */
  predicate InRange(deltas: seq<Delta>, n1: nat, n2: nat)
  {
    forall i :: 0 <= i < |deltas| ==> Within(deltas[i].source, n1) && Within(deltas[i].target, n2)
  }

  /** How many indices of [position, position + size) are below n. */
  function Clipped(c: Chunk, n: nat): nat
  {
    if c.position >= n then 0
    else if c.position + c.size <= n then c.size
    else n - c.position
  }

  /**
   * `highlightChunk`: one highlight for each index of the run, in increasing order, skipping every
   * index at or beyond the end of the list.
   */
  function ChunkHighlights(position: nat, size: nat, rects: seq<Rect>, color: Color, xOffset: real): seq<Highlight>
    decreases size
  {
    if size == 0 then []
    else
      var j := position + size - 1;
      ChunkHighlights(position, size - 1, rects, color, xOffset)
        + (if j < |rects| then [Highlight(rects[j], color, xOffset)] else [])
  }

  /** Where the second document's page is drawn: right of the first page side by side, else at 0. */
  function SecondOffset(width1: real, isMultiple: bool): real
  {
    if isMultiple then width1 else 0.0
  }

  /**
   * The highlights for one delta: a deletion marks its source run red on the first page (side by
   * side only), an insertion marks its target run green on the second page, a change does both,
   * and an unchanged run nothing.
   */
  function DeltaHighlights(d: Delta, rects1: seq<Rect>, rects2: seq<Rect>, width1: real, isMultiple: bool): seq<Highlight>
  {
    var removed := if isMultiple then ChunkHighlights(d.source.position, d.source.size, rects1, RED, 0.0) else [];
    var added := ChunkHighlights(d.target.position, d.target.size, rects2, GREEN, SecondOffset(width1, isMultiple));
    match d.kind
    case Delete => removed
    case Insert => added
    case Change => removed + added
    case Equal => []
  }

  /** The highlights for all deltas, delta by delta. */
  function Plan(deltas: seq<Delta>, rects1: seq<Rect>, rects2: seq<Rect>, width1: real, isMultiple: bool): seq<Highlight>
    decreases |deltas|
  {
    if deltas == [] then []
    else DeltaHighlights(deltas[0], rects1, rects2, width1, isMultiple) + Plan(deltas[1..], rects1, rects2, width1, isMultiple)
  }

  // ----- properties of the planner ----------------------------------------------------

  /**
   * A run draws exactly the indices it shares with the list: `Clipped` many highlights, the k-th
   * for index position + k, in the given colour and at the given offset.
   */
  lemma {:induction false} ChunkHighlightsExact(position: nat, size: nat, rects: seq<Rect>, color: Color, xOffset: real)
    ensures var r := ChunkHighlights(position, size, rects, color, xOffset);
      && |r| == Clipped(Chunk(position, size), |rects|)
      && forall k :: 0 <= k < |r| ==> position + k < |rects| && r[k] == Highlight(rects[position + k], color, xOffset)
    decreases size
  {
    if size > 0 {
      ChunkHighlightsExact(position, size - 1, rects, color, xOffset);
    }
  }

  /** A run inside the list is drawn whole. */
  lemma WithinNotClipped(c: Chunk, rects: seq<Rect>, color: Color, xOffset: real)
    requires Within(c, |rects|)
    ensures |ChunkHighlights(c.position, c.size, rects, color, xOffset)| == c.size
  {
    ChunkHighlightsExact(c.position, c.size, rects, color, xOffset);
  }

  lemma {:induction false} PlanAppend(a: seq<Delta>, b: seq<Delta>, rects1: seq<Rect>, rects2: seq<Rect>, width1: real, isMultiple: bool)
    ensures Plan(a + b, rects1, rects2, width1, isMultiple) == Plan(a, rects1, rects2, width1, isMultiple) + Plan(b, rects1, rects2, width1, isMultiple)
    decreases |a|
  {
    if a == [] {
      assert a + b == b;
    } else {
      assert (a + b)[0] == a[0] && (a + b)[1..] == a[1..] + b;
      PlanAppend(a[1..], b, rects1, rects2, width1, isMultiple);
    }
  }

  /** Drawing the plan of one more delta draws that delta's highlights after the plan so far. */
  lemma PlanStepOps(deltas: seq<Delta>, i: nat, rects1: seq<Rect>, rects2: seq<Rect>, width1: real, isMultiple: bool)
    requires i < |deltas|
    ensures TokenOps(Plan(deltas[..i + 1], rects1, rects2, width1, isMultiple))
      == TokenOps(Plan(deltas[..i], rects1, rects2, width1, isMultiple)) + TokenOps(DeltaHighlights(deltas[i], rects1, rects2, width1, isMultiple))
  {
    var d := deltas[i];
    var step := DeltaHighlights(d, rects1, rects2, width1, isMultiple);
    assert deltas[..i + 1] == deltas[..i] + [d];
    PlanAppend(deltas[..i], [d], rects1, rects2, width1, isMultiple);
    assert [d][1..] == [];
    assert step + [] == step;
    TokenOpsAppend(Plan(deltas[..i], rects1, rects2, width1, isMultiple), step);
  }

  /** Drawing element `position + n` of a run, when it exists, extends the drawn run by one position. */
  lemma ChunkStepDrawn(before: seq<Op>, position: nat, n: nat, rects: seq<Rect>, color: Color, xOffset: real)
    requires position + n < |rects|
    ensures before + TokenOps(ChunkHighlights(position, n, rects, color, xOffset))
              + FillOps(TOKEN_OPACITY, rects[position + n], color, xOffset)
         == before + TokenOps(ChunkHighlights(position, n + 1, rects, color, xOffset))
  {
    var done := ChunkHighlights(position, n, rects, color, xOffset);
    var h := Highlight(rects[position + n], color, xOffset);
    assert ChunkHighlights(position, n + 1, rects, color, xOffset) == done + [h];
    TokenOpsAppend(done, [h]);
    assert [h][1..] == [];
    ConcatAssoc(before, TokenOps(done), FillOps(TOKEN_OPACITY, rects[position + n], color, xOffset));
  }

  /** Skipping a position past the end of the list leaves the drawn run as it was. */
  lemma ChunkStepSkipped(position: nat, n: nat, rects: seq<Rect>, color: Color, xOffset: real)
    requires |rects| <= position + n
    ensures ChunkHighlights(position, n + 1, rects, color, xOffset) == ChunkHighlights(position, n, rects, color, xOffset)
  {
    var done := ChunkHighlights(position, n, rects, color, xOffset);
    assert done + [] == done;
  }

  /**
   * Every highlight is either a red mark at offset 0 on a rectangle of the first list, drawn only
   * side by side, or a green mark at the second page's offset on a rectangle of the second list.
   */
  ghost predicate Marks(h: Highlight, rects1: seq<Rect>, rects2: seq<Rect>, width1: real, isMultiple: bool)
  {
    || (isMultiple && h.color == RED && h.xOffset == 0.0 && h.rect in rects1)
    || (h.color == GREEN && h.xOffset == SecondOffset(width1, isMultiple) && h.rect in rects2)
  }

  lemma ChunkMarks(c: Chunk, rects: seq<Rect>, color: Color, xOffset: real)
    ensures forall h :: h in ChunkHighlights(c.position, c.size, rects, color, xOffset) ==>
      h.color == color && h.xOffset == xOffset && h.rect in rects
  {
    var r := ChunkHighlights(c.position, c.size, rects, color, xOffset);
    ChunkHighlightsExact(c.position, c.size, rects, color, xOffset);
    forall h | h in r ensures h.color == color && h.xOffset == xOffset && h.rect in rects {
      var k :| 0 <= k < |r| && r[k] == h;
      assert rects[c.position + k] == h.rect;
    }
  }

  lemma {:induction false} PlanMarks(deltas: seq<Delta>, rects1: seq<Rect>, rects2: seq<Rect>, width1: real, isMultiple: bool)
    ensures forall h :: h in Plan(deltas, rects1, rects2, width1, isMultiple) ==> Marks(h, rects1, rects2, width1, isMultiple)
    decreases |deltas|
  {
    if deltas != [] {
      var d := deltas[0];
      PlanMarks(deltas[1..], rects1, rects2, width1, isMultiple);
      ChunkMarks(d.source, rects1, RED, 0.0);
      ChunkMarks(d.target, rects2, GREEN, SecondOffset(width1, isMultiple));
    }
  }

  /** Over one another (not side by side), only insertions and changes show, in green. */
  lemma OverlayOnlyGreen(deltas: seq<Delta>, rects1: seq<Rect>, rects2: seq<Rect>, width1: real)
    ensures forall h :: h in Plan(deltas, rects1, rects2, width1, false) ==> h.color == GREEN && h.xOffset == 0.0
  {
    PlanMarks(deltas, rects1, rects2, width1, false);
  }

  /** The number of highlights deltas inside their lists draw. */
  function MarkCount(deltas: seq<Delta>, isMultiple: bool): nat
    decreases |deltas|
  {
    if deltas == [] then 0
    else
      var d := deltas[0];
      MarkCount(deltas[1..], isMultiple) +
        match d.kind
        case Delete => if isMultiple then d.source.size else 0
        case Insert => d.target.size
        case Change => (if isMultiple then d.source.size else 0) + d.target.size
        case Equal => 0
  }

  /** Deltas inside their lists are drawn without clipping: one highlight per changed element. */
  lemma {:induction false} PlanCount(deltas: seq<Delta>, rects1: seq<Rect>, rects2: seq<Rect>, width1: real, isMultiple: bool)
    requires InRange(deltas, |rects1|, |rects2|)
    ensures |Plan(deltas, rects1, rects2, width1, isMultiple)| == MarkCount(deltas, isMultiple)
    decreases |deltas|
  {
    if deltas != [] {
      var d := deltas[0];
      PlanCount(deltas[1..], rects1, rects2, width1, isMultiple);
      WithinNotClipped(d.source, rects1, RED, 0.0);
      WithinNotClipped(d.target, rects2, GREEN, SecondOffset(width1, isMultiple));
    }
  }

  /**
   * Replacing the second of two words, side by side: the old word is marked red on the left page
   * and the new one green on the right page, shifted by the left page's width.
   */
  lemma ChangeOfSecondWord(rects1: seq<Rect>, rects2: seq<Rect>, width1: real)
    requires |rects1| == 2 && |rects2| == 2
    ensures Plan([Delta(Change, Chunk(1, 1), Chunk(1, 1))], rects1, rects2, width1, true)
      == [Highlight(rects1[1], RED, 0.0), Highlight(rects2[1], GREEN, width1)]
  {
    var ds := [Delta(Change, Chunk(1, 1), Chunk(1, 1))];
    assert ds[1..] == [];
    ChunkHighlightsExact(1, 1, rects1, RED, 0.0);
    ChunkHighlightsExact(1, 1, rects2, GREEN, width1);
  }
}
