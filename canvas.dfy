/**
 * The output side of the comparison: iText's `Document`, `PdfWriter` and the writer's direct
 * content `PdfContentByte`, modelled together as one append-only log of operations.
 */
module Canvas {
  import opened Geometry
  import opened Wrappers

  /** Which input document an imported page comes from. */
  datatype Side = First | Second

  datatype Op =
    | PageSize(width: real, height: real)          // Document.setPageSize
    | StartPage                                    // Document.newPage
    | Template(source: Side, page: nat, x: real, y: real)  // PdfContentByte.addTemplate of an imported page
    | Save                                         // saveState
    | FillOpacity(opacity: real)                   // setGState of a PdfGState with only a fill opacity
    | FillColor(color: Color)                      // setColorFill
    | PathRect(x: real, y: real, w: real, h: real) // rectangle
    | FillPath                                     // fill
    | Restore                                      // restoreState

  /** The drawing surface; every call appends the operation it issues, nothing is ever removed. */
  class ContentByte {
    var log: seq<Op>

    constructor ()
      ensures log == []
    {
      log := [];
    }

    method SetPageSize(width: real, height: real)
      modifies this
      ensures log == old(log) + [PageSize(width, height)]
    {
      log := log + [PageSize(width, height)];
    }

    method NewPage()
      modifies this
      ensures log == old(log) + [StartPage]
    {
      log := log + [StartPage];
    }

    method AddTemplate(source: Side, page: nat, x: real, y: real)
      modifies this
      ensures log == old(log) + [Template(source, page, x, y)]
    {
      log := log + [Template(source, page, x, y)];
    }

    method SaveState()
      modifies this
      ensures log == old(log) + [Save]
    {
      log := log + [Save];
    }

    method SetGState(fillOpacity: real)
      modifies this
      ensures log == old(log) + [FillOpacity(fillOpacity)]
    {
      log := log + [FillOpacity(fillOpacity)];
    }

    method SetColorFill(color: Color)
      modifies this
      ensures log == old(log) + [FillColor(color)]
    {
      log := log + [FillColor(color)];
    }

    method Rectangle(x: real, y: real, w: real, h: real)
      modifies this
      ensures log == old(log) + [PathRect(x, y, w, h)]
    {
      log := log + [PathRect(x, y, w, h)];
    }

    method Fill()
      modifies this
      ensures log == old(log) + [FillPath]
    {
      log := log + [FillPath];
    }

    method RestoreState()
      modifies this
      ensures log == old(log) + [Restore]
    {
      log := log + [Restore];
    }
  }

  // ---------------------------------------------------------------------------
  // Reference semantics of the drawing operations: a graphics-state machine that
  // records which areas get filled, in which colour and at which opacity.
  // ---------------------------------------------------------------------------

  datatype Paint = Paint(area: Rect, color: Color, opacity: real)
  datatype GState = GState(opacity: real, color: Color)
  datatype Painter = Painter(gs: GState, saved: seq<GState>, path: seq<Rect>, painted: seq<Paint>)

  /** Fills every rectangle of the current path with the current state. */
  function PaintPath(path: seq<Rect>, gs: GState): (r: seq<Paint>)
    ensures |r| == |path|
    ensures forall i :: 0 <= i < |path| ==> r[i] == Paint(path[i], gs.color, gs.opacity)
  {
    seq(|path|, i requires 0 <= i < |path| => Paint(path[i], gs.color, gs.opacity))
  }

  /** One operation; a restore without a matching save is an error (None). Page operations paint nothing. */
  function Step(p: Painter, op: Op): Option<Painter>
  {
    match op
    case Save => Some(p.(saved := p.saved + [p.gs]))
    case Restore =>
      if p.saved == [] then None
      else Some(p.(gs := p.saved[|p.saved| - 1], saved := p.saved[..|p.saved| - 1]))
    case FillOpacity(o) => Some(p.(gs := p.gs.(opacity := o)))
    case FillColor(c) => Some(p.(gs := p.gs.(color := c)))
    case PathRect(x, y, w, h) => Some(p.(path := p.path + [Rect(x, y, x + w, y + h)]))
    case FillPath => Some(p.(painted := p.painted + PaintPath(p.path, p.gs), path := []))
    case _ => Some(p)
  }

  function Exec(p: Painter, ops: seq<Op>): Option<Painter>
    decreases |ops|
  {
    if ops == [] then Some(p)
    else match Step(p, ops[0])
      case None => None
      case Some(q) => Exec(q, ops[1..])
  }

  /** Running a non-empty log is running its first operation, then the rest. */
  lemma ExecStep(p: Painter, ops: seq<Op>, q: Painter)
    requires ops != [] && Step(p, ops[0]) == Some(q)
    ensures Exec(p, ops) == Exec(q, ops[1..])
  {
  }

  /** Running one operation in front of a log is running that operation, then the log. */
  lemma ExecCons(p: Painter, op: Op, rest: seq<Op>, q: Painter)
    requires Step(p, op) == Some(q)
    ensures Exec(p, [op] + rest) == Exec(q, rest)
  {
    ExecStep(p, [op] + rest, q);
    assert ([op] + rest)[1..] == rest;
  }

  /** Running two logs one after the other is running their concatenation. */
  lemma {:induction false} ExecAppend(p: Painter, a: seq<Op>, b: seq<Op>)
    ensures Exec(p, a + b) == match Exec(p, a) case None => None case Some(q) => Exec(q, b)
    decreases |a|
  {
    if a == [] {
      assert a + b == b;
    } else {
      assert (a + b)[0] == a[0];
      assert (a + b)[1..] == a[1..] + b;
      match Step(p, a[0])
      case None =>
      case Some(q) => ExecAppend(q, a[1..], b);
    }
  }
}
