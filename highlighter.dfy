/** `PDFHighlighter`: every highlight is one translucent filled rectangle bracketed by save/restore. */
module Highlighter {
  import opened Geometry
  import opened Canvas
  import opened Wrappers

  /** Fill opacity of a whole-page highlight. */
  const PAGE_OPACITY: real := 0.2
  /** Fill opacity of a word or image highlight. */
  const TOKEN_OPACITY: real := 0.3

  /** One highlight draw instruction: a rectangle, its colour and the horizontal offset it is drawn at. */
  datatype Highlight = Highlight(rect: Rect, color: Color, xOffset: real)

  /** The operations one highlight issues, in order. */
  function FillOps(opacity: real, rect: Rect, color: Color, xOffset: real): seq<Op>
  {
    [Save, FillOpacity(opacity), FillColor(color),
     PathRect(rect.Left() + xOffset, rect.Bottom(), rect.Width(), rect.Height()),
     FillPath, Restore]
  }

  /** The operations of a sequence of token highlights, drawn one after the other. */
  function TokenOps(hs: seq<Highlight>): seq<Op>
    decreases |hs|
  {
    if hs == [] then []
    else FillOps(TOKEN_OPACITY, hs[0].rect, hs[0].color, hs[0].xOffset) + TokenOps(hs[1..])
  }

  /** What a sequence of token highlights puts on the page. */
  function Paints(hs: seq<Highlight>): (r: seq<Paint>)
    ensures |r| == |hs|
  {
    seq(|hs|, i requires 0 <= i < |hs| => Paint(Shift(hs[i].rect, hs[i].xOffset), hs[i].color, TOKEN_OPACITY))
  }

  /** The first half of a highlight: save the state, then set the fill opacity and colour. */
  lemma SetupSteps(p: Painter, opacity: real, color: Color, rest: seq<Op>)
    ensures Exec(p, [Save, FillOpacity(opacity), FillColor(color)] + rest)
         == Exec(p.(saved := p.saved + [p.gs], gs := GState(opacity, color)), rest)
  {
    var p1 := p.(saved := p.saved + [p.gs]);
    var p2 := p1.(gs := GState(opacity, p.gs.color));
    var p3 := p2.(gs := GState(opacity, color));
    ExecCons(p2, FillColor(color), rest, p3);
    ExecCons(p1, FillOpacity(opacity), [FillColor(color)] + rest, p2);
    ExecCons(p, Save, [FillOpacity(opacity)] + ([FillColor(color)] + rest), p1);
    assert [Save, FillOpacity(opacity), FillColor(color)] + rest == [Save] + ([FillOpacity(opacity)] + ([FillColor(color)] + rest));
  }

  /** The second half of a highlight: fill one rectangle, then restore the saved state. */
  lemma FillSteps(q: Painter, x: real, y: real, w: real, h: real, g: GState)
    requires q.path == [] && q.saved != [] && q.saved[|q.saved| - 1] == g
    ensures Exec(q, [PathRect(x, y, w, h), FillPath, Restore])
         == Some(q.(gs := g, saved := q.saved[..|q.saved| - 1], painted := q.painted + [Paint(Rect(x, y, x + w, y + h), q.gs.color, q.gs.opacity)]))
  {
    var area := Rect(x, y, x + w, y + h);
    var q1 := q.(path := [area]);
    var q2 := q.(painted := q.painted + [Paint(area, q.gs.color, q.gs.opacity)]);
    var q3 := q2.(gs := g, saved := q.saved[..|q.saved| - 1]);
    assert q.path + [area] == [area];
    assert PaintPath(q1.path, q1.gs) == [Paint(area, q.gs.color, q.gs.opacity)];
    ExecCons(q2, Restore, [], q3);
    ExecCons(q1, FillPath, [Restore], q2);
    ExecCons(q, PathRect(x, y, w, h), [FillPath] + [Restore], q1);
    assert [Restore] + [] == [Restore];
    assert [PathRect(x, y, w, h), FillPath, Restore] == [PathRect(x, y, w, h)] + ([FillPath] + [Restore]);
  }

  /**
   * A highlight fills exactly the given rectangle moved right by the offset (only x moves), in the
   * given colour and at the given opacity, and leaves the graphics state and its save stack as they were.
   */
  lemma FillOpsPaints(p: Painter, opacity: real, rect: Rect, color: Color, xOffset: real)
    requires p.path == []
    ensures Exec(p, FillOps(opacity, rect, color, xOffset))
         == Some(p.(painted := p.painted + [Paint(Shift(rect, xOffset), color, opacity)]))
  {
    var x, y, w, h := rect.Left() + xOffset, rect.Bottom(), rect.Width(), rect.Height();
    var tail := [PathRect(x, y, w, h), FillPath, Restore];
    assert FillOps(opacity, rect, color, xOffset) == [Save, FillOpacity(opacity), FillColor(color)] + tail;
    SetupSteps(p, opacity, color, tail);
    var q := p.(saved := p.saved + [p.gs], gs := GState(opacity, color));
    FillSteps(q, x, y, w, h, p.gs);
    assert q.saved[..|q.saved| - 1] == p.saved;
    assert Rect(x, y, x + w, y + h) == Shift(rect, xOffset);
  }

  /** A run of token highlights paints exactly the planned rectangles, in order, and restores the state. */
  lemma {:induction false} TokenOpsPaint(p: Painter, hs: seq<Highlight>)
    requires p.path == []
    ensures Exec(p, TokenOps(hs)) == Some(p.(painted := p.painted + Paints(hs)))
    decreases |hs|
  {
    if hs == [] {
      assert p.painted + Paints(hs) == p.painted;
    } else {
      var h := hs[0];
      var first := FillOps(TOKEN_OPACITY, h.rect, h.color, h.xOffset);
      ExecAppend(p, first, TokenOps(hs[1..]));
      FillOpsPaints(p, TOKEN_OPACITY, h.rect, h.color, h.xOffset);
      var q := p.(painted := p.painted + [Paint(Shift(h.rect, h.xOffset), h.color, TOKEN_OPACITY)]);
      TokenOpsPaint(q, hs[1..]);
      assert q.painted + Paints(hs[1..]) == p.painted + Paints(hs);
    }
  }

  /** `TokenOps` distributes over concatenation of highlight lists. */
  lemma {:induction false} TokenOpsAppend(a: seq<Highlight>, b: seq<Highlight>)
    ensures TokenOps(a + b) == TokenOps(a) + TokenOps(b)
    decreases |a|
  {
    if a == [] {
      assert a + b == b;
    } else {
      assert (a + b)[0] == a[0];
      assert (a + b)[1..] == a[1..] + b;
      TokenOpsAppend(a[1..], b);
    }
  }

  method HighlightEntirePage(cb: ContentByte, rect: Rect, color: Color, xOffset: real)
    modifies cb
    ensures cb.log == old(cb.log) + FillOps(PAGE_OPACITY, rect, color, xOffset)
  {
    cb.SaveState();
    cb.SetGState(PAGE_OPACITY);
    cb.SetColorFill(color);
    cb.Rectangle(rect.Left() + xOffset, rect.Bottom(), rect.Width(), rect.Height());
    cb.Fill();
    cb.RestoreState();
  }

  method DrawRectangle(cb: ContentByte, rect: Rect, color: Color, xOffset: real)
    modifies cb
    ensures cb.log == old(cb.log) + FillOps(TOKEN_OPACITY, rect, color, xOffset)
  {
    cb.SaveState();
    cb.SetGState(TOKEN_OPACITY);
    cb.SetColorFill(color);
    cb.Rectangle(rect.Left() + xOffset, rect.Bottom(), rect.Width(), rect.Height());
    cb.Fill();
    cb.RestoreState();
  }

  /** Issues exactly the operations of `DrawRectangle`. */
  method HighlightRectangle(cb: ContentByte, rect: Rect, color: Color, xOffset: real)
    modifies cb
    ensures cb.log == old(cb.log) + FillOps(TOKEN_OPACITY, rect, color, xOffset)
  {
    DrawRectangle(cb, rect, color, xOffset);
  }
}
