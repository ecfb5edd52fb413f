/**
 * `PDFPageComparator.comparePage`: a page present only in the second document is marked green as
 * a whole, a page present only in the first is marked red as a whole when the pages are shown side
 * by side, and otherwise the words and then the images of the two pages are diffed.
 */
module PageComparator {
  import opened Geometry
  import opened Wrappers
  import opened Canvas
  import opened Highlighter
  import opened HashUtility
  import opened Chunks
  import opened Documents
  import opened TextExtractor
  import opened ImageExtractor
  import opened Deltas
  import opened TextComparator
  import opened ImageComparator

  /** What a call leaves behind: the operations it drew and the exception it ended with, if any. */
  datatype Outcome = Outcome(ops: seq<Op>, thrown: Option<Exception>)

  /** Which of the three paths a call takes. */
  datatype Branch = OnlySecond | OnlyFirst | BothCompared

  function BranchOf(n1: nat, n2: nat, pageNum: int, isMultiple: bool): Branch
  {
    if pageNum > n1 && pageNum <= n2 then OnlySecond
    else if pageNum <= n1 && pageNum > n2 && isMultiple then OnlyFirst
    else BothCompared
  }

  /**
   * The effect of `comparePage`. The words of both pages are extracted before anything is drawn,
   * so a page that cannot be parsed leaves no marks; the images are extracted from contents that
   * have just been parsed successfully and so cannot fail.
   */
  function PageRun(diff: Differ, md5: Digest, reader1: Reader, reader2: Reader, pageNum: int,
                   width1: real, width2: real, height1: real, height2: real, isMultiple: bool): Outcome
  {
    match BranchOf(NumberOfPages(reader1), NumberOfPages(reader2), pageNum, isMultiple)
    case OnlySecond =>
      Outcome(FillOps(PAGE_OPACITY, Rect(0.0, 0.0, width2, height2), GREEN, SecondOffset(width1, isMultiple)), None)
    case OnlyFirst =>
      Outcome(FillOps(PAGE_OPACITY, Rect(0.0, 0.0, width1, height1), RED, 0.0), None)
    case BothCompared =>
      match PageEvents(reader1, pageNum)
      case Thrown(e) => Outcome([], Some(e))
      case Ok(events1) =>
        match PageEvents(reader2, pageNum)
        case Thrown(e) => Outcome([], Some(e))
        case Ok(events2) =>
          Outcome(TokenOps(TextPlan(diff, WordsOf(events1), WordsOf(events2), width1, isMultiple))
                  + TokenOps(ImagePlan(diff, ImagesOf(md5, events1), ImagesOf(md5, events2), width1, isMultiple)),
                  None)
  }

  /** `comparePage`; an exception it throws is returned instead. */
  method ComparePage(cb: ContentByte, diff: Differ, md5: Digest, reader1: Reader, reader2: Reader, pageNum: int,
                     width1: real, width2: real, height1: real, height2: real, isMultiple: bool)
    returns (thrown: Option<Exception>)
    modifies cb
    ensures cb.log == old(cb.log) + PageRun(diff, md5, reader1, reader2, pageNum, width1, width2, height1, height2, isMultiple).ops
    ensures thrown == PageRun(diff, md5, reader1, reader2, pageNum, width1, width2, height1, height2, isMultiple).thrown
  {
    if pageNum > NumberOfPages(reader1) && pageNum <= NumberOfPages(reader2) {
      var rect := Rect(0.0, 0.0, width2, height2);
      HighlightEntirePage(cb, rect, GREEN, if isMultiple then width1 else 0.0);
      return None;
    } else if pageNum <= NumberOfPages(reader1) && pageNum > NumberOfPages(reader2) && isMultiple {
      var rect := Rect(0.0, 0.0, width1, height1);
      HighlightEntirePage(cb, rect, RED, 0.0);
      return None;
    }

    var words1 := ExtractWords(reader1, pageNum);
    if words1.Thrown? {
      assert old(cb.log) + [] == cb.log;
      return Some(words1.error);
    }
    var words2 := ExtractWords(reader2, pageNum);
    if words2.Thrown? {
      assert old(cb.log) + [] == cb.log;
      return Some(words2.error);
    }
    CompareText(cb, diff, words1.value, words2.value, width1, isMultiple);
    ghost var textOps := cb.log[|old(cb.log)|..];

    var images1 := ExtractImages(md5, reader1, pageNum);
    var images2 := ExtractImages(md5, reader2, pageNum);
    CompareImages(cb, diff, images1.value, images2.value, width1, isMultiple);
    ConcatAssoc(old(cb.log), TokenOps(TextPlan(diff, words1.value, words2.value, width1, isMultiple)),
                TokenOps(ImagePlan(diff, images1.value, images2.value, width1, isMultiple)));
    thrown := None;
  }

  // ----- properties of the branch machine ---------------------------------------------

  /**
   * A page only the second document has is covered by one green highlight at 0.2 opacity over
   * (0, 0, width2, height2), drawn at the second page's offset; nothing is extracted, so nothing can fail.
   */
  lemma OnlySecondPaints(q: Painter, diff: Differ, md5: Digest, reader1: Reader, reader2: Reader, pageNum: int,
                         width1: real, width2: real, height1: real, height2: real, isMultiple: bool)
    requires q.path == []
    requires pageNum > NumberOfPages(reader1) && pageNum <= NumberOfPages(reader2)
    ensures var run := PageRun(diff, md5, reader1, reader2, pageNum, width1, width2, height1, height2, isMultiple);
      && run.thrown == None
      && Exec(q, run.ops) == Some(q.(painted := q.painted +
           [Paint(Shift(Rect(0.0, 0.0, width2, height2), SecondOffset(width1, isMultiple)), GREEN, PAGE_OPACITY)]))
  {
    FillOpsPaints(q, PAGE_OPACITY, Rect(0.0, 0.0, width2, height2), GREEN, SecondOffset(width1, isMultiple));
  }

  /**
   * Side by side, a page only the first document has is covered by one red highlight at 0.2
   * opacity over (0, 0, width1, height1) at offset 0; nothing is extracted.
   */
  lemma OnlyFirstPaints(q: Painter, diff: Differ, md5: Digest, reader1: Reader, reader2: Reader, pageNum: int,
                        width1: real, width2: real, height1: real, height2: real)
    requires q.path == []
    requires pageNum <= NumberOfPages(reader1) && pageNum > NumberOfPages(reader2)
    ensures var run := PageRun(diff, md5, reader1, reader2, pageNum, width1, width2, height1, height2, true);
      && run.thrown == None
      && Exec(q, run.ops) == Some(q.(painted := q.painted + [Paint(Rect(0.0, 0.0, width1, height1), RED, PAGE_OPACITY)]))
  {
    FillOpsPaints(q, PAGE_OPACITY, Rect(0.0, 0.0, width1, height1), RED, 0.0);
  }

  /**
   * When the call falls through and both pages parse, the word highlights come first and the
   * image highlights after them, every one at the token opacity: no whole-page highlight is mixed in.
   */
  lemma BothComparedPaints(q: Painter, diff: Differ, md5: Digest, reader1: Reader, reader2: Reader, pageNum: int,
                           width1: real, width2: real, height1: real, height2: real, isMultiple: bool)
    requires q.path == []
    requires BranchOf(NumberOfPages(reader1), NumberOfPages(reader2), pageNum, isMultiple) == BothCompared
    requires PageEvents(reader1, pageNum).Ok? && PageEvents(reader2, pageNum).Ok?
    ensures var run := PageRun(diff, md5, reader1, reader2, pageNum, width1, width2, height1, height2, isMultiple);
      var events1, events2 := PageEvents(reader1, pageNum).value, PageEvents(reader2, pageNum).value;
      var marks := Paints(TextPlan(diff, WordsOf(events1), WordsOf(events2), width1, isMultiple))
                   + Paints(ImagePlan(diff, ImagesOf(md5, events1), ImagesOf(md5, events2), width1, isMultiple));
      && run.thrown == None
      && Exec(q, run.ops) == Some(q.(painted := q.painted + marks))
      && forall k :: 0 <= k < |marks| ==> marks[k].opacity == TOKEN_OPACITY
  {
    var events1, events2 := PageEvents(reader1, pageNum).value, PageEvents(reader2, pageNum).value;
    var textPlan := TextPlan(diff, WordsOf(events1), WordsOf(events2), width1, isMultiple);
    var imagePlan := ImagePlan(diff, ImagesOf(md5, events1), ImagesOf(md5, events2), width1, isMultiple);
    ExecAppend(q, TokenOps(textPlan), TokenOps(imagePlan));
    TokenOpsPaint(q, textPlan);
    var q1 := q.(painted := q.painted + Paints(textPlan));
    TokenOpsPaint(q1, imagePlan);
    ConcatAssoc(q.painted, Paints(textPlan), Paints(imagePlan));
  }

  /** When both documents have the page, the words and images are compared and no page is marked whole. */
  lemma BothPresentCompared(n1: nat, n2: nat, pageNum: int, isMultiple: bool)
    requires 1 <= pageNum <= n1 && pageNum <= n2
    ensures BranchOf(n1, n2, pageNum, isMultiple) == BothCompared
  {
  }

  /**
   * A page that cannot be parsed in either document ends the call with that document's exception,
   * the first document's taking precedence, and nothing drawn.
   */
  lemma UnparsablePageThrows(diff: Differ, md5: Digest, reader1: Reader, reader2: Reader, pageNum: int,
                             width1: real, width2: real, height1: real, height2: real, isMultiple: bool)
    requires BranchOf(NumberOfPages(reader1), NumberOfPages(reader2), pageNum, isMultiple) == BothCompared
    requires PageEvents(reader1, pageNum).Thrown? || PageEvents(reader2, pageNum).Thrown?
    ensures var run := PageRun(diff, md5, reader1, reader2, pageNum, width1, width2, height1, height2, isMultiple);
      && run.ops == []
      && run.thrown == Some(if PageEvents(reader1, pageNum).Thrown? then PageEvents(reader1, pageNum).error
                            else PageEvents(reader2, pageNum).error)
  {
  }
}
