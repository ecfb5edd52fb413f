/**
 * `PDFTextExtractor`: each text run is split on `\s+` and every non-blank word is boxed by walking
 * a cursor over the run's per-glyph records.
 */
module TextExtractor {
  import opened Geometry
  import opened Wrappers
  import opened JavaStrings
  import opened Chunks
  import opened Documents

  /** A word and the indices of the first and last glyph records it is boxed by. */
  datatype Span = Span(word: string, first: nat, last: nat)

  /** The tokenizer between two words: the spans found so far and the glyph cursor (`wordIndex`). */
  datatype Walk = Walk(spans: seq<Span>, cursor: nat)

  function Min(a: int, b: int): int
  {
    if a <= b then a else b
  }

  /**
   * The glyph indices a walk reads all lie in [0, size); the spans come in increasing order and
   * before the cursor; each span covers its whole word unless it was clamped at the last record.
   */
  ghost predicate WellPlaced(w: Walk, size: nat)
  {
    && (forall k :: 0 <= k < |w.spans| ==>
          && w.spans[k].first <= w.spans[k].last < size
          && w.spans[k].last < w.cursor
          && w.spans[k].last - w.spans[k].first < Utf16Length(w.spans[k].word)
          && (w.spans[k].last - w.spans[k].first + 1 == Utf16Length(w.spans[k].word) || w.spans[k].last == size - 1))
    && (forall j, k :: 0 <= j < k < |w.spans| ==> w.spans[j].last < w.spans[k].first)
  }

  /**
   * One pass of the word loop with `size` glyph records: a non-blank word is boxed only while the
   * cursor is inside the records, its last index clamped to the last record, and the cursor moves
   * just past it (the separator is not skipped); a blank word moves the cursor by one.
   */
  function Advance(w: Walk, word: string, size: nat): Walk
  {
    if !IsBlank(word) then
      if w.cursor < size then
        var last := Min(w.cursor + Utf16Length(word) - 1, size - 1);
        Walk(w.spans + [Span(word, w.cursor, last)], last + 1)
      else w
    else Walk(w.spans, w.cursor + 1)
  }

  /** The tokenizer after the given words, starting from cursor 0. */
  function WalkWords(words: seq<string>, size: nat): (w: Walk)
    ensures WellPlaced(w, size)
    decreases |words|
  {
    if words == [] then Walk([], 0)
    else Advance(WalkWords(words[..|words| - 1], size), words[|words| - 1], size)
  }

  /** The words of some spans. */
  function SpanWords(spans: seq<Span>): (r: seq<string>)
    ensures |r| == |spans| && forall k :: 0 <= k < |spans| ==> r[k] == spans[k].word
  {
    seq(|spans|, k requires 0 <= k < |spans| => spans[k].word)
  }

  /** The non-blank words, in order. */
  function NonBlank(words: seq<string>): seq<string>
    decreases |words|
  {
    if words == [] then []
    else
      var rest := NonBlank(words[..|words| - 1]);
      if IsBlank(words[|words| - 1]) then rest else rest + [words[|words| - 1]]
  }

  /** The glyph records a word list takes up when nothing is clamped: a blank word counts one. */
  function Consumption(words: seq<string>): nat
    decreases |words|
  {
    if words == [] then 0
    else
      var w := words[|words| - 1];
      Consumption(words[..|words| - 1]) + (if IsBlank(w) then 1 else Utf16Length(w))
  }

  /** A word boxed from its first glyph's baseline start to its last glyph's ascent-line end. */
  function TokenOf(s: Span, chars: seq<CharInfo>): TextChunk
    requires s.first <= s.last < |chars|
  {
    TextChunk(s.word, Rect(chars[s.first].baselineStart.x, chars[s.first].baselineStart.y,
                           chars[s.last].ascentEnd.x, chars[s.last].ascentEnd.y))
  }

  function TokensOf(spans: seq<Span>, chars: seq<CharInfo>): (r: seq<TextChunk>)
    requires forall k :: 0 <= k < |spans| ==> spans[k].first <= spans[k].last < |chars|
    ensures |r| == |spans|
  {
    seq(|spans|, k requires 0 <= k < |spans| => TokenOf(spans[k], chars))
  }

  /** The words of one text run with their boxes. */
  function Tokens(text: string, chars: seq<CharInfo>): seq<TextChunk>
  {
    TokensOf(WalkWords(Split(text), |chars|).spans, chars)
  }

  /** `processText`: the word loop over one text run. */
  method ProcessText(text: string, chars: seq<CharInfo>) returns (chunks: seq<TextChunk>)
    ensures chunks == Tokens(text, chars)
  {
    chunks := [];
    var wordArray := Split(text);
    var wordIndex := 0;
    for i := 0 to |wordArray|
      invariant wordIndex == WalkWords(wordArray[..i], |chars|).cursor
      invariant chunks == TokensOf(WalkWords(wordArray[..i], |chars|).spans, chars)
    {
      wordIndex, chunks := ProcessWord(chars, wordArray, i, wordIndex, chunks);
    }
    assert wordArray[..|wordArray|] == wordArray;
  }

  /** The body of the word loop of `processText`: word `i` of the run, boxed or skipped. */
  method ProcessWord(chars: seq<CharInfo>, wordArray: seq<string>, i: nat, wordIndex: nat, chunks: seq<TextChunk>)
    returns (nextIndex: nat, grown: seq<TextChunk>)
    requires i < |wordArray|
    requires wordIndex == WalkWords(wordArray[..i], |chars|).cursor
    requires chunks == TokensOf(WalkWords(wordArray[..i], |chars|).spans, chars)
    ensures nextIndex == WalkWords(wordArray[..i + 1], |chars|).cursor
    ensures grown == TokensOf(WalkWords(wordArray[..i + 1], |chars|).spans, chars)
  {
    ghost var before := WalkWords(wordArray[..i], |chars|);
    WalkStep(wordArray, i, |chars|);
    var word := wordArray[i];
    nextIndex, grown := wordIndex, chunks;
    if !IsBlank(word) {
      if wordIndex < |chars| {
        var firstChar := chars[wordIndex];
        var lastCharIndex := Min(wordIndex + Utf16Length(word) - 1, |chars| - 1);
        var lastChar := chars[lastCharIndex];
        var rect := Rect(firstChar.baselineStart.x, firstChar.baselineStart.y, lastChar.ascentEnd.x, lastChar.ascentEnd.y);
        TokensOfSnoc(before.spans, Span(word, wordIndex, lastCharIndex), chars);
        grown := chunks + [TextChunk(word, rect)];
        nextIndex := lastCharIndex + 1;
      }
    } else {
      nextIndex := wordIndex + 1;
    }
  }

  /** The walk after one more word is one more `Advance`. */
  lemma WalkStep(words: seq<string>, i: nat, size: nat)
    requires i < |words|
    ensures WalkWords(words[..i + 1], size) == Advance(WalkWords(words[..i], size), words[i], size)
  {
    assert words[..i + 1][..i] == words[..i];
  }

  /** Boxing one more span appends its token. */
  lemma TokensOfSnoc(spans: seq<Span>, s: Span, chars: seq<CharInfo>)
    requires forall k :: 0 <= k < |spans| ==> spans[k].first <= spans[k].last < |chars|
    requires s.first <= s.last < |chars|
    ensures TokensOf(spans + [s], chars) == TokensOf(spans, chars) + [TokenOf(s, chars)]
  {
  }

  // ----- properties of the tokenizer --------------------------------------------------

  /**
   * The boxed words are the non-blank words in order, up to the point where the cursor reaches
   * the record count; after that point every word is dropped.
   */
  lemma {:induction false} WalkTakesPrefix(words: seq<string>, size: nat)
    ensures var w := WalkWords(words, size);
      && SpanWords(w.spans) <= NonBlank(words)
      && (SpanWords(w.spans) == NonBlank(words) || w.cursor >= size)
    decreases |words|
  {
    if words != [] {
      var ws := words[..|words| - 1];
      var x := words[|words| - 1];
      WalkTakesPrefix(ws, size);
      var w0 := WalkWords(ws, size);
      var w := WalkWords(words, size);
      if !IsBlank(x) && w0.cursor < size {
        assert SpanWords(w.spans) == SpanWords(w0.spans) + [x];
      }
    }
  }

  /** Once the cursor has reached the record count, later words add nothing. */
  lemma {:induction false} WalkStops(words: seq<string>, more: seq<string>, size: nat)
    requires WalkWords(words, size).cursor >= size
    ensures WalkWords(words + more, size).spans == WalkWords(words, size).spans
    ensures WalkWords(words + more, size).cursor >= size
    decreases |more|
  {
    if more == [] {
      assert words + more == words;
    } else {
      var m := more[..|more| - 1];
      WalkStops(words, m, size);
      assert (words + more)[..|words + more| - 1] == words + m;
    }
  }

  /**
   * With enough glyph records, every non-blank word is boxed, each over exactly as many records
   * as it has UTF-16 code units, and the cursor ends at the records consumed.
   */
  lemma {:induction false} WalkComplete(words: seq<string>, size: nat)
    requires Consumption(words) <= size
    ensures var w := WalkWords(words, size);
      && SpanWords(w.spans) == NonBlank(words)
      && w.cursor == Consumption(words)
      && forall k :: 0 <= k < |w.spans| ==> w.spans[k].last - w.spans[k].first + 1 == Utf16Length(w.spans[k].word)
    decreases |words|
  {
    if words != [] {
      var ws := words[..|words| - 1];
      var x := words[|words| - 1];
      WalkComplete(ws, size);
      var w0 := WalkWords(ws, size);
      assert WalkWords(words, size) == Advance(w0, x, size);
      if !IsBlank(x) {
        var s := Span(x, w0.cursor, w0.cursor + Utf16Length(x) - 1);
        AdvanceFits(w0, x, size);
        assert SpanWords(w0.spans + [s]) == SpanWords(w0.spans) + [x];
      }
    }
  }

  lemma {:induction false} NonBlankOfBlanks(words: seq<string>)
    requires forall i :: 0 <= i < |words| ==> IsBlank(words[i])
    ensures NonBlank(words) == []
    decreases |words|
  {
    if words != [] {
      NonBlankOfBlanks(words[..|words| - 1]);
    }
  }

  /** A run of white space only, or a run without glyph records, yields no words. */
  lemma BlankOrBareRunHasNoTokens(text: string, chars: seq<CharInfo>)
    requires IsBlank(text) || chars == []
    ensures Tokens(text, chars) == []
  {
    var words := Split(text);
    var w := WalkWords(words, |chars|);
    if chars == [] {
      assert [] + words == words;
      WalkStops([], words, 0);
    } else {
      SplitChars(text);
      forall i | 0 <= i < |words| ensures IsBlank(words[i]) {
        forall k | 0 <= k < |words[i]| ensures IsWhitespace(words[i][k]) {
          assert words[i][k] in text;
        }
      }
      NonBlankOfBlanks(words);
      WalkTakesPrefix(words, |chars|);
      assert |SpanWords(w.spans)| <= |NonBlank(words)|;
    }
    assert |w.spans| == 0;
  }

  /**
   * Two words joined by one space, with a record for each of their UTF-16 code units (and possibly
   * more), are boxed over records 0 .. m - 1 and m .. m + n - 1, m and n being their Java lengths:
   * the second word starts right after the first, at the record of the space.
   */
  lemma TwoWordSpans(a: string, b: string, size: nat)
    requires !IsBlank(a) && !IsBlank(b) && NoRegexSpace(a) && NoRegexSpace(b)
    requires Utf16Length(a) + Utf16Length(b) <= size
    ensures WalkWords(Split(a + " " + b), size).spans == [Span(a, 0, Utf16Length(a) - 1), Span(b, Utf16Length(a), Utf16Length(a) + Utf16Length(b) - 1)]
  {
    assert Utf16Length(a) >= 1 && Utf16Length(b) >= 1;
    SplitTwoWords(a, b);
    WalkTwoWords(a, b, size);
  }

  /** Two non-blank words that fit are boxed one after the other. */
  lemma WalkTwoWords(a: string, b: string, size: nat)
    requires !IsBlank(a) && !IsBlank(b) && Utf16Length(a) + Utf16Length(b) <= size
    ensures WalkWords([a, b], size) == Walk([Span(a, 0, Utf16Length(a) - 1), Span(b, Utf16Length(a), Utf16Length(a) + Utf16Length(b) - 1)], Utf16Length(a) + Utf16Length(b))
  {
    var la, lb := Utf16Length(a), Utf16Length(b);
    var s1, s2 := Span(a, 0, la - 1), Span(b, la, la + lb - 1);
    WalkOneWord(a, size);
    WalkSnocFits([a], b, size);
    assert [a] + [b] == [a, b];
    assert [s1] + [s2] == [s1, s2];
  }

  /** A non-blank word that fits after the walk so far is boxed from the cursor on. */
  lemma WalkSnocFits(words: seq<string>, x: string, size: nat)
    requires !IsBlank(x) && WalkWords(words, size).cursor + Utf16Length(x) <= size
    ensures var w := WalkWords(words, size);
      WalkWords(words + [x], size) == Walk(w.spans + [Span(x, w.cursor, w.cursor + Utf16Length(x) - 1)], w.cursor + Utf16Length(x))
  {
    var ws := words + [x];
    assert ws[..|ws| - 1] == words && ws[|ws| - 1] == x;
    AdvanceFits(WalkWords(words, size), x, size);
  }

  /** A non-blank word whose records all exist is boxed over exactly them. */
  lemma AdvanceFits(w: Walk, word: string, size: nat)
    requires !IsBlank(word) && w.cursor + Utf16Length(word) <= size
    ensures Advance(w, word, size) == Walk(w.spans + [Span(word, w.cursor, w.cursor + Utf16Length(word) - 1)], w.cursor + Utf16Length(word))
  {
    assert Utf16Length(word) >= 1;
  }

  /** A single non-blank word that fits is boxed from record 0, and the cursor moves past it. */
  lemma WalkOneWord(a: string, size: nat)
    requires !IsBlank(a) && Utf16Length(a) <= size
    ensures WalkWords([a], size) == Walk([Span(a, 0, Utf16Length(a) - 1)], Utf16Length(a))
  {
    WalkSnocFits([], a, size);
    assert [] + [a] == [a];
  }

  /** The two words of such a run are boxed by exactly those records. */
  lemma TwoWordTokens(a: string, b: string, chars: seq<CharInfo>)
    requires !IsBlank(a) && !IsBlank(b) && NoRegexSpace(a) && NoRegexSpace(b)
    requires Utf16Length(a) + Utf16Length(b) <= |chars|
    ensures Tokens(a + " " + b, chars) ==
      [TokenOf(Span(a, 0, Utf16Length(a) - 1), chars), TokenOf(Span(b, Utf16Length(a), Utf16Length(a) + Utf16Length(b) - 1), chars)]
  {
    assert Utf16Length(a) >= 1 && Utf16Length(b) >= 1;
    SplitTwoWords(a, b);
    TokensOfTwoWords(a + " " + b, a, b, chars);
  }

  /** A run that splits into two non-blank words that fit is boxed word after word. */
  lemma TokensOfTwoWords(text: string, a: string, b: string, chars: seq<CharInfo>)
    requires Split(text) == [a, b]
    requires !IsBlank(a) && !IsBlank(b) && Utf16Length(a) + Utf16Length(b) <= |chars|
    ensures Tokens(text, chars) ==
      [TokenOf(Span(a, 0, Utf16Length(a) - 1), chars), TokenOf(Span(b, Utf16Length(a), Utf16Length(a) + Utf16Length(b) - 1), chars)]
  {
    var la, lb := Utf16Length(a), Utf16Length(b);
    var s1, s2 := Span(a, 0, la - 1), Span(b, la, la + lb - 1);
    WalkTwoWords(a, b, |chars|);
    TokensOfTwoSpans(text, chars, [a, b], s1, s2, la + lb);
  }

  /** A run whose walk boxes two spans has the two tokens of those spans. */
  lemma TokensOfTwoSpans(text: string, chars: seq<CharInfo>, words: seq<string>, s1: Span, s2: Span, cursor: nat)
    requires Split(text) == words && WalkWords(words, |chars|) == Walk([s1, s2], cursor)
    requires s1.first <= s1.last < |chars| && s2.first <= s2.last < |chars|
    ensures Tokens(text, chars) == [TokenOf(s1, chars), TokenOf(s2, chars)]
  {
    TokensOfWalk(text, chars, words, Walk([s1, s2], cursor));
    TokensOfTwo(s1, s2, chars);
  }

  /** The tokens of a run are those of the spans the walk over its words produces. */
  lemma TokensOfWalk(text: string, chars: seq<CharInfo>, words: seq<string>, w: Walk)
    requires Split(text) == words && WalkWords(words, |chars|) == w
    ensures forall k :: 0 <= k < |w.spans| ==> w.spans[k].first <= w.spans[k].last < |chars|
    ensures Tokens(text, chars) == TokensOf(w.spans, chars)
  {
  }

  /** Two spans give their two tokens. */
  lemma TokensOfTwo(s1: Span, s2: Span, chars: seq<CharInfo>)
    requires s1.first <= s1.last < |chars| && s2.first <= s2.last < |chars|
    ensures TokensOf([s1, s2], chars) == [TokenOf(s1, chars), TokenOf(s2, chars)]
  {
    var t := TokensOf([s1, s2], chars);
    assert t[0] == TokenOf(s1, chars) && t[1] == TokenOf(s2, chars);
  }

  /** "Hello World" with ten glyph records gives "Hello" over records 0-4 and "World" over 5-9. */
  lemma HelloWorldTokens(text: string, chars: seq<CharInfo>)
    requires text == "Hello World" && |chars| == 10
    ensures Tokens(text, chars) ==
      [TextChunk("Hello", Rect(chars[0].baselineStart.x, chars[0].baselineStart.y, chars[4].ascentEnd.x, chars[4].ascentEnd.y)),
       TextChunk("World", Rect(chars[5].baselineStart.x, chars[5].baselineStart.y, chars[9].ascentEnd.x, chars[9].ascentEnd.y))]
  {
    HelloWorldWords(text);
    HelloWorldLengths();
    TwoWordTokens("Hello", "World", chars);
  }

  /** "Hello" and "World" are five UTF-16 code units each. */
  lemma HelloWorldLengths()
    ensures Utf16Length("Hello") == 5 && Utf16Length("World") == 5
  {
    Utf16LengthOfBmp("Hello");
    Utf16LengthOfBmp("World");
  }

  /**
   * A character outside the Basic Multilingual Plane takes two glyph-record positions, as
   * `String.length()` counts it twice: in "\U{1D400} x" with three records the first word is boxed
   * over records 0-1 and "x" over record 2.
   */
  lemma SupplementaryWordTokens(text: string, chars: seq<CharInfo>)
    requires text == "\U{1D400} x" && |chars| == 3
    ensures Tokens(text, chars) ==
      [TokenOf(Span("\U{1D400}", 0, 1), chars), TokenOf(Span("x", 2, 2), chars)]
  {
    SupplementaryWords(text);
    SupplementaryLengths();
    TwoWordTokens("\U{1D400}", "x", chars);
  }

  /** "\U{1D400} x" is two words that are neither blank nor contain `\s`, joined by one space. */
  lemma SupplementaryWords(text: string)
    requires text == "\U{1D400} x"
    ensures text == "\U{1D400}" + " " + "x"
    ensures !IsBlank("\U{1D400}") && !IsBlank("x") && NoRegexSpace("\U{1D400}") && NoRegexSpace("x")
  {
    assert !IsWhitespace("\U{1D400}"[0]) && !IsWhitespace("x"[0]);
  }

  /** U+1D400 is two UTF-16 code units and "x" is one. */
  lemma SupplementaryLengths()
    ensures Utf16Length("\U{1D400}") == 2 && Utf16Length("x") == 1
  {
    assert "\U{1D400}"[1..] == [] && "x"[1..] == [];
  }

  /** "Hello World" is two words that are neither blank nor contain `\s`, joined by one space. */
  lemma HelloWorldWords(text: string)
    requires text == "Hello World"
    ensures text == "Hello" + " " + "World"
    ensures !IsBlank("Hello") && !IsBlank("World") && NoRegexSpace("Hello") && NoRegexSpace("World")
  {
    assert !IsWhitespace("Hello"[0]) && !IsWhitespace("World"[0]);
  }

  // ----- extractWords -----------------------------------------------------------------

  /** The words one render event contributes: a text event's tokens, nothing for an image. */
  function EventWords(e: RenderEvent): seq<TextChunk>
  {
    match e
    case TextRender(text, chars) => Tokens(text, chars)
    case ImageRender(_, _) => []
  }

  /** The words of a page: the tokens of each text event, in event order. */
  function WordsOf(events: seq<RenderEvent>): seq<TextChunk>
  {
    FlatMap(EventWords, events)
  }

  /** The words of the events of a page that follow one another are the words of each, concatenated. */
  lemma WordsOfAppend(a: seq<RenderEvent>, b: seq<RenderEvent>)
    ensures WordsOf(a + b) == WordsOf(a) + WordsOf(b)
  {
    FlatMapAppend(EventWords, a, b);
  }

  /** Only text events contribute words. */
  lemma {:induction false} WordsOfImagesOnly(events: seq<RenderEvent>)
    requires forall i :: 0 <= i < |events| ==> events[i].ImageRender?
    ensures WordsOf(events) == []
    decreases |events|
  {
    if events != [] {
      WordsOfImagesOnly(events[..|events| - 1]);
    }
  }

  /** The listener of `extractWords`: collects the tokens of every text event it is given. */
  method CollectWords(events: seq<RenderEvent>) returns (words: seq<TextChunk>)
    ensures words == WordsOf(events)
  {
    words := [];
    for i := 0 to |events|
      invariant words == WordsOf(events[..i])
    {
      assert events[..i + 1][..i] == events[..i];
      match events[i]
      case TextRender(text, chars) =>
        var chunks := ProcessText(text, chars);
        words := words + chunks;
      case ImageRender(_, _) =>
    }
    assert events[..|events|] == events;
  }

  /** `extractWords`: the words of page p, or what parsing the page throws. */
  method ExtractWords(reader: Reader, pageNum: int) returns (r: Result<seq<TextChunk>>)
    ensures PageEvents(reader, pageNum).Ok? ==> r == Ok(WordsOf(PageEvents(reader, pageNum).value))
    ensures PageEvents(reader, pageNum).Thrown? ==> r == Thrown(PageEvents(reader, pageNum).error)
  {
    match PageEvents(reader, pageNum)
    case Thrown(e) =>
      r := Thrown(e);
    case Ok(events) =>
      var words := CollectWords(events);
      r := Ok(words);
  }
}
