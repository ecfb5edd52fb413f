/**
 * `PDFComparator.comparePDFs`: walks the page numbers 1 .. max(n1, n2), gives every page pair one
 * output page large enough for both (side by side) or for the second (overlaid), stamps the
 * imported pages on it, and lets the page comparator mark the differences.
 */
module PdfComparator {
  import opened Geometry
  import opened Wrappers
  import opened Canvas
  import opened Highlighter
  import opened HashUtility
  import opened Chunks
  import opened Documents
  import opened TextExtractor
  import opened ImageExtractor
  import opened Deltas
  import opened TextComparator
  import opened ImageComparator
  import opened PageComparator

  /** The sizes computed for one page number; a page a document lacks counts as 0 by 0. */
  datatype Layout = Layout(width1: real, width2: real, height1: real, height2: real,
                           combinedWidth: real, combinedHeight: real)

  /** `Math.max` of two page counts. */
  function TotalPages(reader1: Reader, reader2: Reader): (n: nat)
    ensures n >= NumberOfPages(reader1) && n >= NumberOfPages(reader2)
    ensures n == NumberOfPages(reader1) || n == NumberOfPages(reader2)
  {
    if NumberOfPages(reader1) >= NumberOfPages(reader2) then NumberOfPages(reader1) else NumberOfPages(reader2)
  }

  /** The width of page p of a document, or 0 when it has no such page. */
  function WidthOf(r: Reader, p: int): real
  {
    if 1 <= p <= NumberOfPages(r) then Documents.PageSize(r, p).Width() else 0.0
  }

  /** The height of page p of a document, or 0 when it has no such page. */
  function HeightOf(r: Reader, p: int): real
  {
    if 1 <= p <= NumberOfPages(r) then Documents.PageSize(r, p).Height() else 0.0
  }

  /**
   * The output page for page number p: as wide as both pages side by side, or as the second page
   * when overlaid, and as high as the higher of the two.
   */
  function LayoutOf(reader1: Reader, reader2: Reader, p: int, isMultiple: bool): (l: Layout)
    ensures l.width1 == WidthOf(reader1, p) && l.width2 == WidthOf(reader2, p)
    ensures l.height1 == HeightOf(reader1, p) && l.height2 == HeightOf(reader2, p)
    ensures l.combinedWidth == if isMultiple then l.width1 + l.width2 else l.width2
    ensures l.combinedHeight >= l.height1 && l.combinedHeight >= l.height2
    ensures l.combinedHeight == l.height1 || l.combinedHeight == l.height2
  {
    var width1, width2 := WidthOf(reader1, p), WidthOf(reader2, p);
    var height1, height2 := HeightOf(reader1, p), HeightOf(reader2, p);
    Layout(width1, width2, height1, height2,
           if isMultiple then width1 + width2 else width2,
           if height1 >= height2 then height1 else height2)
  }

  /** An output page of no width or no height is not produced. */
  predicate Skipped(l: Layout)
  {
    l.combinedWidth == 0.0 || l.combinedHeight == 0.0
  }

  /** The page comparator's checked `IOException` is rethrown as a `RuntimeException`; anything unchecked passes through. */
  function Wrap(failure: Option<Exception>): (r: Option<Exception>)
    ensures failure.None? <==> r.None?
    ensures failure.Some? && failure.value.IOException? ==> r == Some(RuntimeException(failure.value))
    ensures failure.Some? && !failure.value.IOException? ==> r == failure
  {
    match failure
    case Some(IOException(message)) => Some(RuntimeException(IOException(message)))
    case _ => failure
  }

  /**
   * What a produced page starts with: its size, the page break, the first document's page at the
   * origin (side by side only) and the second document's page at its offset.
   */
  function HeaderOps(reader1: Reader, reader2: Reader, p: nat, l: Layout, isMultiple: bool): seq<Op>
  {
    [PageSize(l.combinedWidth, l.combinedHeight), StartPage]
      + (if p <= NumberOfPages(reader1) && isMultiple then [Template(First, p, 0.0, 0.0)] else [])
      + (if p <= NumberOfPages(reader2) then [Template(Second, p, SecondOffset(l.width1, isMultiple), 0.0)] else [])
  }

  /** The effect of one iteration of the page loop. */
  function PageStep(diff: Differ, md5: Digest, reader1: Reader, reader2: Reader, p: nat, isMultiple: bool): Outcome
  {
    var l := LayoutOf(reader1, reader2, p, isMultiple);
    if Skipped(l) then Outcome([], None)
    else
      var run := PageRun(diff, md5, reader1, reader2, p, l.width1, l.width2, l.height1, l.height2, isMultiple);
      Outcome(HeaderOps(reader1, reader2, p, l, isMultiple) + run.ops, Wrap(run.thrown))
  }

  /** The effect of the page loop over pages 1 .. k with the given body: it stops at the first page that throws. */
  function RunPages(step: nat -> Outcome, k: nat): Outcome
    decreases k
  {
    if k == 0 then Outcome([], None)
    else
      var before := RunPages(step, k - 1);
      if before.thrown.Some? then before
      else Outcome(before.ops + step(k).ops, step(k).thrown)
  }

  /** The body of the page loop of `comparePDFs`, page number by page number. */
  function PageSteps(diff: Differ, md5: Digest, reader1: Reader, reader2: Reader, isMultiple: bool): nat -> Outcome
  {
    (p: nat) => PageStep(diff, md5, reader1, reader2, p, isMultiple)
  }

  /** The effect of `comparePDFs`. */
  function DocRun(diff: Differ, md5: Digest, reader1: Reader, reader2: Reader, isMultiple: bool): Outcome
  {
    RunPages(PageSteps(diff, md5, reader1, reader2, isMultiple), TotalPages(reader1, reader2))
  }

  /** The body of the page loop of `comparePDFs`, for one page number. */
  method RenderPage(cb: ContentByte, diff: Differ, md5: Digest, reader1: Reader, reader2: Reader, pageNumber: nat, isMultiple: bool)
    returns (thrown: Option<Exception>)
    modifies cb
    ensures cb.log == old(cb.log) + PageStep(diff, md5, reader1, reader2, pageNumber, isMultiple).ops
    ensures thrown == PageStep(diff, md5, reader1, reader2, pageNumber, isMultiple).thrown
  {
    var width1 := if 1 <= pageNumber <= NumberOfPages(reader1) then Documents.PageSize(reader1, pageNumber).Width() else 0.0;
    var width2 := if 1 <= pageNumber <= NumberOfPages(reader2) then Documents.PageSize(reader2, pageNumber).Width() else 0.0;
    var combinedWidth := if isMultiple then width1 + width2 else width2;
    var height1 := if 1 <= pageNumber <= NumberOfPages(reader1) then Documents.PageSize(reader1, pageNumber).Height() else 0.0;
    var height2 := if 1 <= pageNumber <= NumberOfPages(reader2) then Documents.PageSize(reader2, pageNumber).Height() else 0.0;
    var combinedHeight := if height1 >= height2 then height1 else height2;

    if combinedWidth == 0.0 || combinedHeight == 0.0 {
      assert old(cb.log) + [] == cb.log;
      return None;
    }

    ghost var l := LayoutOf(reader1, reader2, pageNumber, isMultiple);
    cb.SetPageSize(combinedWidth, combinedHeight);
    cb.NewPage();
    ghost var started := cb.log;
    if pageNumber <= NumberOfPages(reader1) {
      if isMultiple {
        cb.AddTemplate(First, pageNumber, 0.0, 0.0);
      }
    }
    ghost var first := cb.log;
    if pageNumber <= NumberOfPages(reader2) {
      cb.AddTemplate(Second, pageNumber, if isMultiple then width1 else 0.0, 0.0);
    }
    assert cb.log == old(cb.log) + HeaderOps(reader1, reader2, pageNumber, l, isMultiple);

    var failure := ComparePage(cb, diff, md5, reader1, reader2, pageNumber, width1, width2, height1, height2, isMultiple);
    ConcatAssoc(old(cb.log), HeaderOps(reader1, reader2, pageNumber, l, isMultiple),
                PageRun(diff, md5, reader1, reader2, pageNumber, width1, width2, height1, height2, isMultiple).ops);
    match failure {
      case Some(IOException(message)) =>
        thrown := Some(RuntimeException(IOException(message)));
      case _ =>
        thrown := failure;
    }
  }

  /**
   * `comparePDFs` on two opened documents: the returned content holds what was written, and the
   * exception, if any, is the one the page loop stopped at.
   */
  method ComparePDFs(diff: Differ, md5: Digest, reader1: Reader, reader2: Reader, isMultiple: bool)
    returns (cb: ContentByte, thrown: Option<Exception>)
    ensures fresh(cb)
    ensures cb.log == DocRun(diff, md5, reader1, reader2, isMultiple).ops
    ensures thrown == DocRun(diff, md5, reader1, reader2, isMultiple).thrown
  {
    cb := new ContentByte();
    var totalPages := if NumberOfPages(reader1) >= NumberOfPages(reader2) then NumberOfPages(reader1) else NumberOfPages(reader2);
    thrown := None;
    var pageNumber := 1;
    ghost var steps := PageSteps(diff, md5, reader1, reader2, isMultiple);
    ghost var done := Outcome([], None);
    while pageNumber <= totalPages && thrown.None?
      invariant 1 <= pageNumber <= totalPages + 1
      invariant done == RunPages(steps, pageNumber - 1)
      invariant cb.log == done.ops && thrown == done.thrown
      decreases totalPages - pageNumber
    {
      ghost var page := steps(pageNumber);
      PageStepsAt(diff, md5, reader1, reader2, isMultiple, pageNumber);
      thrown := RenderPage(cb, diff, md5, reader1, reader2, pageNumber, isMultiple);
      RunPagesStep(steps, pageNumber, done);
      done := Outcome(done.ops + page.ops, page.thrown);
      pageNumber := pageNumber + 1;
    }
    LoopDone(steps, pageNumber, totalPages, done);
    assert totalPages == TotalPages(reader1, reader2);
  }

  // ----- properties of the document loop ----------------------------------------------

  /** A page after pages that have not thrown appends its operations and ends with its own outcome. */
  lemma RunPagesStep(step: nat -> Outcome, p: nat, before: Outcome)
    requires 1 <= p && before == RunPages(step, p - 1) && before.thrown.None?
    ensures RunPages(step, p) == Outcome(before.ops + step(p).ops, step(p).thrown)
  {
  }

  /** The loop body for page `p` is `PageStep` of that page. */
  lemma PageStepsAt(diff: Differ, md5: Digest, reader1: Reader, reader2: Reader, isMultiple: bool, p: nat)
    ensures PageSteps(diff, md5, reader1, reader2, isMultiple)(p) == PageStep(diff, md5, reader1, reader2, p, isMultiple)
  {
  }

  /** The page loop stops after the last page or at the first page that throws, with the outcome of all pages. */
  lemma LoopDone(step: nat -> Outcome, pageNumber: nat, total: nat, done: Outcome)
    requires 1 <= pageNumber <= total + 1 && done == RunPages(step, pageNumber - 1)
    requires !(pageNumber <= total && done.thrown.None?)
    ensures RunPages(step, total) == done
  {
    FailureSticks(step, pageNumber - 1, total);
  }

  /** Once a page has thrown, no later page is rendered: the outcome stays the same. */
  lemma {:induction false} FailureSticks(step: nat -> Outcome, k: nat, j: nat)
    requires k <= j
    requires k == j || RunPages(step, k).thrown.Some?
    ensures RunPages(step, j) == RunPages(step, k)
    decreases j - k
  {
    if k < j {
      FailureSticks(step, k, j - 1);
    }
  }

  /** The loop ends in an exception only when one of its pages ended in that exception. */
  lemma {:induction false} ThrownByAPage(step: nat -> Outcome, k: nat)
    ensures RunPages(step, k).thrown.Some? ==> exists p: nat :: 1 <= p <= k && step(p).thrown == RunPages(step, k).thrown
    decreases k
  {
    if k > 0 && RunPages(step, k - 1).thrown.None? && RunPages(step, k).thrown.Some? {
      assert step(k).thrown == RunPages(step, k).thrown;
    } else if k > 0 {
      ThrownByAPage(step, k - 1);
    }
  }

  /** If no page paints anything, neither does the loop. */
  lemma {:induction false} RunPaintsNothing(q: Painter, step: nat -> Outcome, k: nat)
    requires forall p: nat :: 1 <= p <= k ==> Exec(q, step(p).ops) == Some(q)
    ensures Exec(q, RunPages(step, k).ops) == Some(q)
    decreases k
  {
    if k > 0 {
      var before := RunPages(step, k - 1);
      RunPaintsNothing(q, step, k - 1);
      if before.thrown.None? {
        ExecAppend(q, before.ops, step(k).ops);
      }
    }
  }

  /** Overlaid, a page only the first document has produces nothing at all. */
  lemma OverlaySkipsExtraFirstPages(diff: Differ, md5: Digest, reader1: Reader, reader2: Reader, p: nat)
    requires NumberOfPages(reader2) < p
    ensures Skipped(LayoutOf(reader1, reader2, p, false))
    ensures PageStep(diff, md5, reader1, reader2, p, false) == Outcome([], None)
  {
  }

  /** Every page of a document has a positive width and height. */
  predicate PositiveSizes(r: Reader)
  {
    forall i :: 0 <= i < |r.pages| ==> r.pages[i].size.Width() > 0.0 && r.pages[i].size.Height() > 0.0
  }

  /**
   * With proper page sizes, a page number is given an output page exactly when the pages are
   * side by side or the second document has that page; the page then starts with its size and a break.
   */
  lemma ProducedPages(diff: Differ, md5: Digest, reader1: Reader, reader2: Reader, p: nat, isMultiple: bool)
    requires PositiveSizes(reader1) && PositiveSizes(reader2)
    requires 1 <= p <= TotalPages(reader1, reader2)
    ensures var l := LayoutOf(reader1, reader2, p, isMultiple);
      !Skipped(l) <==> (isMultiple || p <= NumberOfPages(reader2))
    ensures var l := LayoutOf(reader1, reader2, p, isMultiple);
      !Skipped(l) ==> PageStep(diff, md5, reader1, reader2, p, isMultiple).ops[..2] == [PageSize(l.combinedWidth, l.combinedHeight), StartPage]
  {
    var l := LayoutOf(reader1, reader2, p, isMultiple);
    if p <= NumberOfPages(reader1) {
      assert reader1.pages[p - 1].size.Width() > 0.0 && reader1.pages[p - 1].size.Height() > 0.0;
    }
    if p <= NumberOfPages(reader2) {
      assert reader2.pages[p - 1].size.Width() > 0.0 && reader2.pages[p - 1].size.Height() > 0.0;
    }
    if !Skipped(l) {
      var run := PageRun(diff, md5, reader1, reader2, p, l.width1, l.width2, l.height1, l.height2, isMultiple);
      var header := HeaderOps(reader1, reader2, p, l, isMultiple);
      assert header[..2] == [PageSize(l.combinedWidth, l.combinedHeight), StartPage];
      assert (header + run.ops)[..2] == header[..2];
    }
  }

  /**
   * When a page is compared word by word, both documents have it: a comparison never asks the
   * parser for a page that does not exist.
   */
  lemma ComparedPagesExist(reader1: Reader, reader2: Reader, p: nat, isMultiple: bool)
    requires 1 <= p <= TotalPages(reader1, reader2)
    requires !Skipped(LayoutOf(reader1, reader2, p, isMultiple))
    requires BranchOf(NumberOfPages(reader1), NumberOfPages(reader2), p, isMultiple) == BothCompared
    ensures p <= NumberOfPages(reader1) && p <= NumberOfPages(reader2)
  {
  }

  /** Every page of a document parses. */
  predicate AllParse(r: Reader)
  {
    forall i :: 0 <= i < |r.pages| ==> r.pages[i].content.Parsed?
  }

  /** One page ends in nothing or in a wrapped `IOException`, and in nothing when both documents parse. */
  lemma PageStepFailure(diff: Differ, md5: Digest, reader1: Reader, reader2: Reader, p: nat, isMultiple: bool)
    requires 1 <= p <= TotalPages(reader1, reader2)
    ensures var t := PageStep(diff, md5, reader1, reader2, p, isMultiple).thrown;
      t.Some? ==> t.value.RuntimeException? && t.value.cause.IOException?
    ensures AllParse(reader1) && AllParse(reader2) ==> PageStep(diff, md5, reader1, reader2, p, isMultiple).thrown.None?
  {
    var l := LayoutOf(reader1, reader2, p, isMultiple);
    if !Skipped(l) && BranchOf(NumberOfPages(reader1), NumberOfPages(reader2), p, isMultiple) == BothCompared {
      ComparedPagesExist(reader1, reader2, p, isMultiple);
      if AllParse(reader1) && AllParse(reader2) {
        assert reader1.pages[p - 1].content.Parsed? && reader2.pages[p - 1].content.Parsed?;
      }
    }
  }

  /**
   * `comparePDFs` never fails with a `NullPointerException`: what it throws is a `RuntimeException`
   * caused by a page's `IOException`, and it throws nothing when every page of both documents parses.
   */
  lemma RunFailure(diff: Differ, md5: Digest, reader1: Reader, reader2: Reader, isMultiple: bool, k: nat)
    requires k <= TotalPages(reader1, reader2)
    ensures var t := RunPages(PageSteps(diff, md5, reader1, reader2, isMultiple), k).thrown;
      t.Some? ==> t.value.RuntimeException? && t.value.cause.IOException?
    ensures AllParse(reader1) && AllParse(reader2) ==> RunPages(PageSteps(diff, md5, reader1, reader2, isMultiple), k).thrown.None?
  {
    var steps := PageSteps(diff, md5, reader1, reader2, isMultiple);
    ThrownByAPage(steps, k);
    if RunPages(steps, k).thrown.Some? {
      var p: nat :| 1 <= p <= k && steps(p).thrown == RunPages(steps, k).thrown;
      PageStepsAt(diff, md5, reader1, reader2, isMultiple, p);
      PageStepFailure(diff, md5, reader1, reader2, p, isMultiple);
    }
  }

  /** The whole comparison, as `RunFailure` for all pages. */
  lemma DocFailure(diff: Differ, md5: Digest, reader1: Reader, reader2: Reader, isMultiple: bool)
    ensures var t := DocRun(diff, md5, reader1, reader2, isMultiple).thrown;
      t.Some? ==> t.value.RuntimeException? && t.value.cause.IOException?
    ensures AllParse(reader1) && AllParse(reader2) ==> DocRun(diff, md5, reader1, reader2, isMultiple).thrown.None?
  {
    RunFailure(diff, md5, reader1, reader2, isMultiple, TotalPages(reader1, reader2));
  }

  /** Page sizes, breaks and imported pages paint nothing. */
  lemma {:induction false} LayoutOpsPaintNothing(q: Painter, ops: seq<Op>)
    requires forall i :: 0 <= i < |ops| ==> ops[i].PageSize? || ops[i].StartPage? || ops[i].Template?
    ensures Exec(q, ops) == Some(q)
    decreases |ops|
  {
    if ops != [] {
      ExecStep(q, ops, q);
      LayoutOpsPaintNothing(q, ops[1..]);
    }
  }

  /** A page of a document compared with itself by a diff that finds nothing paints nothing. */
  lemma SelfPagePaintsNothing(q: Painter, diff: Differ, md5: Digest, reader: Reader, p: nat, isMultiple: bool)
    requires forall xs :: diff(xs, xs) == []
    requires 1 <= p <= NumberOfPages(reader)
    ensures Exec(q, PageStep(diff, md5, reader, reader, p, isMultiple).ops) == Some(q)
  {
    var l := LayoutOf(reader, reader, p, isMultiple);
    if !Skipped(l) {
      var header := HeaderOps(reader, reader, p, l, isMultiple);
      var run := PageRun(diff, md5, reader, reader, p, l.width1, l.width2, l.height1, l.height2, isMultiple);
      LayoutOpsPaintNothing(q, header);
      ExecAppend(q, header, run.ops);
      assert BranchOf(NumberOfPages(reader), NumberOfPages(reader), p, isMultiple) == BothCompared;
      match PageEvents(reader, p)
      case Thrown(_) =>
        assert run.ops == [];
        LayoutOpsPaintNothing(q, run.ops);
      case Ok(events) =>
        assert diff(Texts(WordsOf(events)), Texts(WordsOf(events))) == [];
        assert diff(Identifiers(ImagesOf(md5, events)), Identifiers(ImagesOf(md5, events))) == [];
        assert run.ops == [];
        LayoutOpsPaintNothing(q, run.ops);
    }
  }

  /**
   * Comparing a document with itself, by a diff that finds no difference between equal lists,
   * paints nothing: the output holds only the imported pages.
   */
  lemma SelfComparisonPaintsNothing(q: Painter, diff: Differ, md5: Digest, reader: Reader, isMultiple: bool, k: nat)
    requires forall xs :: diff(xs, xs) == []
    requires k <= NumberOfPages(reader)
    ensures Exec(q, RunPages(PageSteps(diff, md5, reader, reader, isMultiple), k).ops) == Some(q)
  {
    var steps := PageSteps(diff, md5, reader, reader, isMultiple);
    forall p: nat | 1 <= p <= k
      ensures Exec(q, steps(p).ops) == Some(q)
    {
      PageStepsAt(diff, md5, reader, reader, isMultiple, p);
      SelfPagePaintsNothing(q, diff, md5, reader, p, isMultiple);
    }
    RunPaintsNothing(q, steps, k);
  }

  /**
   * Side by side, with a two-page first document and a one-page second one, both 200 by 200:
   * page 2 gets the sizes (200, 0, 200, 0) and an output page of 200 by 200 holding the first
   * document's page, covered red as a whole.
   */
  lemma SecondPageMissing(diff: Differ, md5: Digest, reader1: Reader, reader2: Reader, p: nat)
    requires NumberOfPages(reader1) == 2 && NumberOfPages(reader2) == 1 && p == 2
    requires Documents.PageSize(reader1, p) == Rect(0.0, 0.0, 200.0, 200.0)
    ensures LayoutOf(reader1, reader2, p, true) == Layout(200.0, 0.0, 200.0, 0.0, 200.0, 200.0)
    ensures PageStep(diff, md5, reader1, reader2, p, true)
      == Outcome([PageSize(200.0, 200.0), StartPage, Template(First, p, 0.0, 0.0)]
                 + FillOps(PAGE_OPACITY, Rect(0.0, 0.0, 200.0, 200.0), RED, 0.0), None)
  {
    var l := LayoutOf(reader1, reader2, p, true);
    assert l == Layout(200.0, 0.0, 200.0, 0.0, 200.0, 200.0) by {
      assert WidthOf(reader1, p) == 200.0 && HeightOf(reader1, p) == 200.0;
      assert WidthOf(reader2, p) == 0.0 && HeightOf(reader2, p) == 0.0;
    }
    assert BranchOf(NumberOfPages(reader1), NumberOfPages(reader2), p, true) == OnlyFirst;
    var run := PageRun(diff, md5, reader1, reader2, p, 200.0, 0.0, 200.0, 0.0, true);
    assert run == Outcome(FillOps(PAGE_OPACITY, Rect(0.0, 0.0, 200.0, 200.0), RED, 0.0), None);
    assert HeaderOps(reader1, reader2, p, l, true) == [PageSize(200.0, 200.0), StartPage, Template(First, p, 0.0, 0.0)];
  }
}
