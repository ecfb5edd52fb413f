# pdfcompare: a Dafny model of the PDF comparison pipeline

This project models the core of pdfcompare, a service that compares two PDF files page by page
and writes a third PDF. In side-by-side mode (`isMultiple`) an output page shows the first
document's page on the left and the second document's page on the right. In overlay mode it
shows only the second document's page. The output marks what differs:

- a word or an image that was removed is marked red, in side-by-side mode only;
- a word or an image that was added is marked green;
- a page that only the second document has is covered whole in green;
- a page that only the first document has is covered whole in red in side-by-side mode. In
  overlay mode no output page is produced for it, because its output width, the second page's
  width, is 0 (`PdfComparator.OverlaySkipsExtraFirstPages`).

The model covers these parts of the code:

- **`ImageChunk.getIdentifier`** (module `Chunks`).
- **`HashUtilityClass.hashBytes`** (module `HashUtility`): an MD5 digest rendered as a
  zero-padded 32-digit hexadecimal string. It falls back to `Arrays.toString` of the bytes when
  the digest throws.
- **`PDFTextExtractor`** (modules `JavaStrings` and `TextExtractor`): `String.split("\\s+")`, and
  the word walk that boxes each non-blank word with a cursor over the run's glyph records.
- **`PDFImageExtractor`** (module `ImageExtractor`): the content hash of each image and the
  bounding box of the image's unit square under its transform.
- **`PDFHighlighter`** (module `Highlighter`).
- **`TextComparator` and `ImageComparator`**: the highlights drawn for the deltas `DiffUtils.diff`
  reports (module `Deltas`).
- **`PDFPageComparator.comparePage`** (module `PageComparator`).
- **`PDFComparator.comparePDFs`** (module `PdfComparator`).

### How the model is built

**The output document.** iText's `PdfWriter`/`PdfContentByte` pair is the class
`Canvas.ContentByte`. It holds an append-only log of drawing operations, and every method appends
to that log. `Canvas.Exec` gives the log a meaning. It is a small graphics-state machine with a
save/restore stack, a fill opacity, a fill colour and a current path. It records every filled
rectangle as a `Paint`. The lemmas state what each highlight paints in terms of `Exec`.

**Collaborators as parameters.** The model cannot see two collaborators, so each one is a
function parameter:

- The MD5 digest (`HashUtility.Digest`) returns `None` where `MessageDigest` throws.
- The diff algorithm (`Deltas.Differ`) stands for `DiffUtils.diff`. Only the shape of its output
  is used.

**The input documents.** A `Documents.Reader` is a list of pages. Each page has a size and either
the render events its content stream produces or the `IOException` that parsing it raises.

**Exceptions.** An exception thrown by an operation is returned as a value: `Result.Thrown`, or
`Outcome.thrown` for the operations that draw.

**Behaviour worth knowing.** The model reproduces these behaviours of the code as they are:

- **Split.** `split("\\s+")` produces an empty string only at the front of a run that starts with
  whitespace. It never produces empty strings between words (`JavaStrings.SplitShape`).
- **Cursor.** The tokenizer moves its cursor to just past the word's last glyph, clamped to the
  run's last glyph. The separator between words is never consumed, so with one space between two
  words the second word is boxed starting at the glyph of the space
  (`TextExtractor.TwoWordTokens`).
- **Word length.** The cursor advances by `String.length()`, which counts UTF-16 code units. A
  character outside the Basic Multilingual Plane counts twice (`JavaStrings.Utf16Length`,
  `TextExtractor.SupplementaryWordTokens`).
- **Bounding box.** The image box starts its maxima at `Float.MIN_VALUE`, the smallest positive
  float. An image lying entirely at negative coordinates therefore gets a top-right corner of
  (`Float.MIN_VALUE`, `Float.MIN_VALUE`) rather than its real maximum
  (`ImageExtractor.NegativeImageBox`).

## Model

Source paths are relative to the repository root.

| member | source | states |
|---|---|---|
| Chunks.GetIdentifier | src/main/java/com/example/pdfcompare/model/ImageChunk.java:7-9 | the identifier is "image:" followed by exactly the image hash, six characters longer |
| Chunks.IdentifierInjective | src/main/java/com/example/pdfcompare/model/ImageChunk.java:6-9 | two image chunks have the same identifier if and only if they have the same hash |
| Chunks.IdentifierIgnoresRectangle | src/main/java/com/example/pdfcompare/model/ImageChunk.java:6-9 | the identifier does not depend on where the image is drawn |
| Chunks.Texts | src/main/java/com/example/pdfcompare/util/TextComparator.java:26-27 | the list handed to the diff has one entry per word, the i-th being the i-th word's text |
| Chunks.Identifiers | src/main/java/com/example/pdfcompare/util/ImageComparator.java:25-31 | the list handed to the diff has one entry per image, the i-th being the i-th image's identifier |
| Chunks.TextsIgnoreRectangles | src/main/java/com/example/pdfcompare/util/TextComparator.java:26-29 | words with the same texts give the diff the same input, wherever they are placed |
| Chunks.IdentifiersIgnoreRectangles | src/main/java/com/example/pdfcompare/util/ImageComparator.java:25-33 | two image lists of equal length give the diff the same input if and only if their hashes agree position by position |
| Documents.PageEvents | src/main/java/com/example/pdfcompare/util/PDFTextExtractor.java:22-25 | parsing a page that does not exist raises NullPointerException (and only then); the only other failure is an IOException |
| Geometry.Shift | src/main/java/com/example/pdfcompare/util/PDFHighlighter.java:18 | the rectangle drawn keeps the width, height and bottom of the original and moves its left edge by the offset |
| HashUtility.Unsigned | src/main/java/com/example/pdfcompare/util/HashUtilityClass.java:17 | a signed Java byte read as an unsigned digit of `BigInteger(1, hash)`: below 256 and congruent modulo 256 |
| HashUtility.ToHex | src/main/java/com/example/pdfcompare/util/HashUtilityClass.java:18 | `toString(16)` is non-empty, all lower-case hexadecimal digits, with no leading zero unless it is "0" |
| HashUtility.HexRoundTrip | src/main/java/com/example/pdfcompare/util/HashUtilityClass.java:17-18 | reading back the hexadecimal string gives the number it was made from |
| HashUtility.HexLength | src/main/java/com/example/pdfcompare/util/HashUtilityClass.java:18 | a number below 16^k has at most k hexadecimal digits |
| HashUtility.MagnitudeBound | src/main/java/com/example/pdfcompare/util/HashUtilityClass.java:17 | the unsigned magnitude of k bytes is below 256^k |
| HashUtility.PowSquare | src/main/java/com/example/pdfcompare/util/HashUtilityClass.java:17-19 | 256^k equals 16^(2k): k bytes need at most 2k hexadecimal digits |
| HashUtility.PadHex | src/main/java/com/example/pdfcompare/util/HashUtilityClass.java:18-22 | the padding loop leaves a string of 32 or more characters alone and otherwise prefixes zeros up to exactly 32 characters |
| HashUtility.LeadingZeroValue | src/main/java/com/example/pdfcompare/util/HashUtilityClass.java:19-21 | inserting a '0' in front does not change the hexadecimal value |
| HashUtility.ZerosValue | src/main/java/com/example/pdfcompare/util/HashUtilityClass.java:19-21 | any number of leading zeros does not change the hexadecimal value |
| HashUtility.ArraysToString | src/main/java/com/example/pdfcompare/util/HashUtilityClass.java:24 | the fallback text is enclosed in square brackets, and is exactly "[]" if and only if the array is empty |
| HashUtility.NatDecimal | src/main/java/com/example/pdfcompare/util/HashUtilityClass.java:24 | the decimal text of a non-negative value is one or more digits and nothing else |
| HashUtility.DecimalRoundTrip | src/main/java/com/example/pdfcompare/util/HashUtilityClass.java:24 | reading back the decimal text of a signed byte gives the byte |
| HashUtility.DecimalHasNoSeparator | src/main/java/com/example/pdfcompare/util/HashUtilityClass.java:24 | the decimal text of a value is non-empty and holds no comma and no space |
| HashUtility.JoinInjective | src/main/java/com/example/pdfcompare/util/HashUtilityClass.java:24 | the comma-separated decimals determine the list of bytes they were made from |
| HashUtility.ArraysToStringInjective | src/main/java/com/example/pdfcompare/util/HashUtilityClass.java:24 | two byte arrays have the same `Arrays.toString` text if and only if they are equal |
| HashUtility.FallbackInjective | src/main/java/com/example/pdfcompare/util/HashUtilityClass.java:23-25 | when the digest throws, two arrays get the same hash if and only if they are equal |
| HashUtility.HashBytes | src/main/java/com/example/pdfcompare/util/HashUtilityClass.java:12-27 | the method returns the padded hexadecimal digest, or the `Arrays.toString` text when the digest throws |
| HashUtility.DigestHex | src/main/java/com/example/pdfcompare/util/HashUtilityClass.java:15-22 | a 16-byte digest gives exactly 32 hexadecimal digits whose value is the digest's unsigned magnitude |
| HashUtility.PaddedHex | src/main/java/com/example/pdfcompare/util/HashUtilityClass.java:19-21 | padding at most 32 hexadecimal digits gives 32 hexadecimal digits with the same value |
| HashUtility.PaddedSuffix | src/main/java/com/example/pdfcompare/util/HashUtilityClass.java:19-21 | the padded string ends with the original string and everything before it is '0' |
| HashUtility.ZeroDigestHash | src/test/java/com/example/pdfcompare/util/HashUtilityClassTest.java:58-80 | an all-zero digest hashes to 32 zeros |
| HashUtility.FallbackHello | src/test/java/com/example/pdfcompare/util/HashUtilityClassTest.java:35-55 | when the digest throws, "Hello" hashes to "[72, 101, 108, 108, 111]" |
| HashUtility.JoinHello | src/main/java/com/example/pdfcompare/util/HashUtilityClass.java:24 | the bytes of "Hello" are listed as "72, 101, 108, 108, 111" |
| HashUtility.FallbackIsNotHex | src/main/java/com/example/pdfcompare/util/HashUtilityClass.java:14-25 | the result consists of hexadecimal digits only if and only if the digest succeeded |
| JavaStrings.RegexSpaceIsWhitespace | src/main/java/com/example/pdfcompare/util/PDFTextExtractor.java:47-53 | every character `\s` matches is whitespace for `isBlank` |
| JavaStrings.SepStart | src/main/java/com/example/pdfcompare/util/PDFTextExtractor.java:47 | the next separator starts at the first `\s` character, or at the end |
| JavaStrings.RunEnd | src/main/java/com/example/pdfcompare/util/PDFTextExtractor.java:47 | `\s+` matches greedily: the run ends at the first character that is not `\s` |
| JavaStrings.Segments | src/main/java/com/example/pdfcompare/util/PDFTextExtractor.java:47 | the pieces between separators are never an empty list |
| JavaStrings.DropTrailingEmpty | src/main/java/com/example/pdfcompare/util/PDFTextExtractor.java:47 | `split` drops exactly the trailing empty strings and keeps the rest in order |
| JavaStrings.SegmentsWeave | src/main/java/com/example/pdfcompare/util/PDFTextExtractor.java:47 | the pieces and the separators, interleaved, give back the original run |
| JavaStrings.SegmentsMaximal | src/main/java/com/example/pdfcompare/util/PDFTextExtractor.java:47 | every separator is a non-empty run of `\s` characters and no piece contains one |
| JavaStrings.SegmentsInnerNonEmpty | src/main/java/com/example/pdfcompare/util/PDFTextExtractor.java:47 | only the first and last pieces can be empty, the last if and only if the run ends in whitespace |
| JavaStrings.SplitShape | src/main/java/com/example/pdfcompare/util/PDFTextExtractor.java:47 | the words of `split("\\s+")` contain no whitespace; only the first can be empty and the last is not; a run without whitespace splits into itself |
| JavaStrings.SplitLeadingEmpty | src/main/java/com/example/pdfcompare/util/PDFTextExtractor.java:47 | the split starts with "" if and only if the run starts with whitespace and is not all whitespace |
| JavaStrings.SplitAllSpace | src/test/java/com/example/pdfcompare/util/PDFTextExtractorTest.java:114-134 | a non-empty run made only of whitespace splits into no words at all |
| JavaStrings.SegmentsChars | src/main/java/com/example/pdfcompare/util/PDFTextExtractor.java:47 | every character of every piece comes from the run |
| JavaStrings.SplitChars | src/main/java/com/example/pdfcompare/util/PDFTextExtractor.java:47 | every character of every word comes from the run |
| JavaStrings.SepStartAt | src/main/java/com/example/pdfcompare/util/PDFTextExtractor.java:47 | the first separator starts at the first whitespace |
| JavaStrings.SegmentsOfWord | src/main/java/com/example/pdfcompare/util/PDFTextExtractor.java:47 | a run without whitespace is one piece |
| JavaStrings.SplitTwoWords | src/main/java/com/example/pdfcompare/util/PDFTextExtractor.java:47 | two words joined by one space split into exactly those two words |
| JavaStrings.SplitHelloWorld | src/test/java/com/example/pdfcompare/util/PDFTextExtractorTest.java:79-112 | "Hello World" splits into "Hello" and "World" |
| JavaStrings.KeepsNonEmptyLast | src/main/java/com/example/pdfcompare/util/PDFTextExtractor.java:47 | dropping trailing empty strings from a list whose last piece is non-empty loses nothing |
| JavaStrings.Utf16Length | src/main/java/com/example/pdfcompare/util/PDFTextExtractor.java:57 | `String.length()` counts between one and two code units per character |
| JavaStrings.Utf16LengthOfBmp | src/main/java/com/example/pdfcompare/util/PDFTextExtractor.java:57 | the Java length equals the number of characters if and only if no character is outside the Basic Multilingual Plane |
| TextExtractor.WalkWords | src/main/java/com/example/pdfcompare/util/PDFTextExtractor.java:48-75 | every glyph index the loop reads is inside the glyph list; every earlier box ends before every later one starts, all boxes lie before the cursor, and each covers its whole word unless clamped at the last glyph |
| TextExtractor.ProcessText | src/main/java/com/example/pdfcompare/util/PDFTextExtractor.java:44-77 | the loop yields, for each boxed word, a chunk whose rectangle runs from its first glyph's baseline start to its last glyph's ascent end |
| TextExtractor.ProcessWord | src/main/java/com/example/pdfcompare/util/PDFTextExtractor.java:53-74 | one pass of the word loop takes the tokenizer from its state after i words to its state after i + 1 |
| TextExtractor.WalkTakesPrefix | src/main/java/com/example/pdfcompare/util/PDFTextExtractor.java:51-75 | the boxed words are a prefix of the run's non-blank words, and all of them unless the cursor ran off the glyphs |
| TextExtractor.WalkStops | src/main/java/com/example/pdfcompare/util/PDFTextExtractor.java:54 | once the cursor is past the last glyph no further word is boxed |
| TextExtractor.WalkComplete | src/main/java/com/example/pdfcompare/util/PDFTextExtractor.java:51-75 | when the glyphs suffice, every non-blank word is boxed, each over exactly as many glyphs as its Java length (UTF-16 code units), and the cursor ends at the consumption count |
| TextExtractor.NonBlankOfBlanks | src/main/java/com/example/pdfcompare/util/PDFTextExtractor.java:53 | a list of blank words has no non-blank words |
| TextExtractor.BlankOrBareRunHasNoTokens | src/test/java/com/example/pdfcompare/util/PDFTextExtractorTest.java:114-134 | a blank run, or a run without glyphs, yields no words |
| TextExtractor.TwoWordSpans | src/main/java/com/example/pdfcompare/util/PDFTextExtractor.java:51-75 | two words separated by one space with Java lengths a and b are boxed over glyphs [0, a) and [a, a + b): the separator is not skipped |
| TextExtractor.WalkTwoWords | src/main/java/com/example/pdfcompare/util/PDFTextExtractor.java:54-70 | the walk over two fitting words boxes them back to back and leaves the cursor after both |
| TextExtractor.WalkSnocFits | src/main/java/com/example/pdfcompare/util/PDFTextExtractor.java:54-70 | one more non-blank word that fits after the walk so far is boxed from the cursor over its Java length, and the cursor moves just past it |
| TextExtractor.WalkOneWord | src/main/java/com/example/pdfcompare/util/PDFTextExtractor.java:54-70 | one fitting word is boxed over its Java length and the cursor is left just after it |
| TextExtractor.TwoWordTokens | src/main/java/com/example/pdfcompare/util/PDFTextExtractor.java:44-77 | the two words' chunks (Java lengths a and b) are boxed by glyphs 0 to a - 1 and a to a + b - 1 |
| TextExtractor.TokensOfTwoWords | src/main/java/com/example/pdfcompare/util/PDFTextExtractor.java:44-77 | any run that splits into two fitting non-blank words yields exactly those two chunks, boxed back to back from glyph 0 |
| TextExtractor.HelloWorldTokens | src/test/java/com/example/pdfcompare/util/PDFTextExtractorTest.java:79-112 | "Hello World" over ten glyphs gives "Hello" boxed by glyphs 0-4 and "World" by glyphs 5-9 |
| TextExtractor.SupplementaryWordTokens | src/main/java/com/example/pdfcompare/util/PDFTextExtractor.java:54-70 | a character outside the Basic Multilingual Plane takes two glyph positions: in "\U{1D400} x" over three glyphs the first word is boxed by glyphs 0-1 and "x" by glyph 2 |
| TextExtractor.WordsOfAppend | src/main/java/com/example/pdfcompare/util/PDFTextExtractor.java:33-36 | the words of a page are the words of each text event in paint order |
| TextExtractor.WordsOfImagesOnly | src/main/java/com/example/pdfcompare/util/PDFTextExtractor.java:38-39 | image events contribute no words |
| TextExtractor.CollectWords | src/main/java/com/example/pdfcompare/util/PDFTextExtractor.java:25-40 | the listener collects exactly the words of the page's text events, in order |
| TextExtractor.ExtractWords | src/main/java/com/example/pdfcompare/util/PDFTextExtractor.java:20-42 | a parsed page gives its words; a page that fails to parse gives the parser's exception |
| ImageExtractor.Corners | src/main/java/com/example/pdfcompare/util/PDFImageExtractor.java:41-46 | four transformed corners |
| ImageExtractor.Xs | src/main/java/com/example/pdfcompare/util/PDFImageExtractor.java:54 | the i-th value is the i-th corner's x |
| ImageExtractor.Ys | src/main/java/com/example/pdfcompare/util/PDFImageExtractor.java:55 | the i-th value is the i-th corner's y |
| ImageExtractor.BoundingBox | src/main/java/com/example/pdfcompare/util/PDFImageExtractor.java:41-62 | the min/max loop computes the box the fold over the four corners specifies |
| ImageExtractor.LowestIsMinimum | src/main/java/com/example/pdfcompare/util/PDFImageExtractor.java:48-60 | the running minimum is at most the start value and every value, and it is one of them |
| ImageExtractor.HighestIsMaximum | src/main/java/com/example/pdfcompare/util/PDFImageExtractor.java:48-60 | the running maximum is at least the start value and every value, and it is one of them |
| ImageExtractor.BoxBounds | src/main/java/com/example/pdfcompare/util/PDFImageExtractor.java:41-62 | the box contains every corner; its lower-left is a corner's coordinate when the corners are below Float.MAX_VALUE; its upper-right is a corner's coordinate or Float.MIN_VALUE, and never below Float.MIN_VALUE |
| ImageExtractor.IdentityBox | src/test/java/com/example/pdfcompare/util/PDFImageExtractorTest.java:42-92 | under the identity transform the box is the unit square |
| ImageExtractor.NegativeImageBox | src/main/java/com/example/pdfcompare/util/PDFImageExtractor.java:50-60 | an image translated to (-10, -10) gets the upper-right corner (Float.MIN_VALUE, Float.MIN_VALUE) |
| ImageExtractor.EventImages | src/main/java/com/example/pdfcompare/util/PDFImageExtractor.java:32-67 | one render event yields at most one image chunk |
| ImageExtractor.ImagesOfReadable | src/main/java/com/example/pdfcompare/util/PDFImageExtractor.java:32-67 | exactly one chunk per readable image, in paint order, holding the hash of its bytes and the box of its transform |
| ImageExtractor.ImagesOfAppend | src/main/java/com/example/pdfcompare/util/PDFImageExtractor.java:32-67 | the images of a page are the images of each event in paint order |
| ImageExtractor.UnreadableIsSkipped | src/main/java/com/example/pdfcompare/util/PDFImageExtractor.java:64-66 | an image whose bytes throw an IOException is skipped and the extraction goes on |
| ImageExtractor.CollectImages | src/main/java/com/example/pdfcompare/util/PDFImageExtractor.java:21-68 | the listener collects exactly the image chunks of the page's events, in order |
| ImageExtractor.ExtractImages | src/main/java/com/example/pdfcompare/util/PDFImageExtractor.java:16-70 | a parsed page gives its image chunks; a page that fails to parse gives the parser's exception |
| Canvas.ContentByte.constructor | src/main/java/com/example/pdfcompare/util/PDFComparator.java:35-37 | a new output starts with an empty log |
| Canvas.ContentByte.SetPageSize | src/main/java/com/example/pdfcompare/util/PDFComparator.java:56-57 | appends the size of the next page |
| Canvas.ContentByte.NewPage | src/main/java/com/example/pdfcompare/util/PDFComparator.java:58 | appends the start of a new page |
| Canvas.ContentByte.AddTemplate | src/main/java/com/example/pdfcompare/util/PDFComparator.java:63-72 | appends the embedding of a source page at the given offset |
| Canvas.ContentByte.SaveState | src/main/java/com/example/pdfcompare/util/PDFHighlighter.java:13 | appends a push of the graphics state |
| Canvas.ContentByte.SetGState | src/main/java/com/example/pdfcompare/util/PDFHighlighter.java:14-16 | appends the setting of the fill opacity |
| Canvas.ContentByte.SetColorFill | src/main/java/com/example/pdfcompare/util/PDFHighlighter.java:17 | appends the setting of the fill colour |
| Canvas.ContentByte.Rectangle | src/main/java/com/example/pdfcompare/util/PDFHighlighter.java:18 | appends a rectangle to the current path |
| Canvas.ContentByte.Fill | src/main/java/com/example/pdfcompare/util/PDFHighlighter.java:19 | appends the filling of the current path |
| Canvas.ContentByte.RestoreState | src/main/java/com/example/pdfcompare/util/PDFHighlighter.java:20 | appends a pop of the graphics state |
| Canvas.PaintPath | src/main/java/com/example/pdfcompare/util/PDFHighlighter.java:18-19 | `fill` paints every rectangle of the path in the current colour and opacity |
| Canvas.ExecStep | src/main/java/com/example/pdfcompare/util/PDFHighlighter.java:13-20 | running a log runs its first operation and then the rest |
| Canvas.ExecAppend | src/main/java/com/example/pdfcompare/util/PDFHighlighter.java:13-20 | running two logs one after the other is running their concatenation |
| Highlighter.Paints | src/main/java/com/example/pdfcompare/util/PDFHighlighter.java:23-32 | one paint per highlight |
| Highlighter.FillOpsPaints | src/main/java/com/example/pdfcompare/util/PDFHighlighter.java:12-32 | a highlight paints exactly the rectangle shifted by the offset, in its colour and opacity, and restores the graphics state it found |
| Highlighter.TokenOpsPaint | src/main/java/com/example/pdfcompare/util/PDFHighlighter.java:23-32 | a list of highlights paints exactly their rectangles, in order, and leaves the graphics state unchanged |
| Highlighter.TokenOpsAppend | src/main/java/com/example/pdfcompare/util/PDFHighlighter.java:23-32 | drawing two lists of highlights is drawing their concatenation |
| Highlighter.HighlightEntirePage | src/main/java/com/example/pdfcompare/util/PDFHighlighter.java:12-21 | appends save, opacity 0.2, colour, the shifted rectangle, fill and restore |
| Highlighter.DrawRectangle | src/main/java/com/example/pdfcompare/util/PDFHighlighter.java:23-32 | appends save, opacity 0.3, colour, the shifted rectangle, fill and restore |
| Highlighter.HighlightRectangle | src/main/java/com/example/pdfcompare/util/PDFHighlighter.java:34-36 | draws the same as `drawRectangle` |
| Deltas.ChunkHighlightsExact | src/main/java/com/example/pdfcompare/util/TextComparator.java:49-54 | a run draws one highlight per index it shares with the list, the k-th over element position + k, in the given colour and offset |
| Deltas.WithinNotClipped | src/main/java/com/example/pdfcompare/util/TextComparator.java:51-52 | a run inside the list is drawn whole |
| Deltas.PlanAppend | src/main/java/com/example/pdfcompare/util/TextComparator.java:30-46 | the highlights for a list of deltas are those of each delta, in order |
| Deltas.PlanStepOps | src/main/java/com/example/pdfcompare/util/TextComparator.java:30-46 | each iteration of the delta loop appends that delta's highlights |
| Deltas.ChunkMarks | src/main/java/com/example/pdfcompare/util/TextComparator.java:49-54 | every highlight of a run has the run's colour and offset and a rectangle from the list |
| Deltas.PlanMarks | src/main/java/com/example/pdfcompare/util/TextComparator.java:30-46 | every mark is red at offset 0 over a first-page rectangle, drawn only side by side, or green at the second page's offset over a second-page rectangle |
| Deltas.OverlayOnlyGreen | src/main/java/com/example/pdfcompare/util/TextComparator.java:32-44 | when not side by side only green marks at offset 0 are drawn |
| Deltas.PlanCount | src/main/java/com/example/pdfcompare/util/TextComparator.java:30-54 | deltas inside their lists draw one mark per changed element (a deletion only side by side) |
| Deltas.ChangeOfSecondWord | src/main/java/com/example/pdfcompare/util/TextComparator.java:39-43 | a change of the second of two elements, side by side, is red on the left page and green on the right shifted by the left width |
| TextComparator.WordRects | src/main/java/com/example/pdfcompare/util/TextComparator.java:53 | the i-th rectangle is the i-th word's |
| TextComparator.HighlightChunk | src/main/java/com/example/pdfcompare/util/TextComparator.java:49-54 | draws the run's highlights over the words that exist, in order |
| TextComparator.HighlightDelta | src/main/java/com/example/pdfcompare/util/TextComparator.java:31-45 | draws the highlights of one delta per its type |
| TextComparator.CompareText | src/main/java/com/example/pdfcompare/util/TextComparator.java:23-47 | draws exactly the plan for the diff of the two word texts |
| TextComparator.CompareTextPaints | src/main/java/com/example/pdfcompare/util/TextComparator.java:23-47 | the drawn log paints exactly the planned marks and leaves the graphics state unchanged |
| TextComparator.TextPlanSameDeltas | src/main/java/com/example/pdfcompare/util/TextComparator.java:26-29 | the deltas depend only on the texts; moving the words moves only the marks |
| ImageComparator.ImageRects | src/main/java/com/example/pdfcompare/util/ImageComparator.java:60-61 | the i-th rectangle is the i-th image's |
| ImageComparator.HighlightChunk | src/main/java/com/example/pdfcompare/util/ImageComparator.java:56-62 | draws the run's highlights over the images that exist, in order |
| ImageComparator.HighlightDelta | src/main/java/com/example/pdfcompare/util/ImageComparator.java:37-51 | draws the highlights of one delta per its type |
| ImageComparator.CompareImages | src/main/java/com/example/pdfcompare/util/ImageComparator.java:22-54 | draws exactly the plan for the diff of the two identifier lists |
| ImageComparator.CompareImagesPaints | src/main/java/com/example/pdfcompare/util/ImageComparator.java:22-54 | the drawn log paints exactly the planned marks and leaves the graphics state unchanged |
| ImageComparator.ImagePlanSameDeltas | src/main/java/com/example/pdfcompare/util/ImageComparator.java:25-33 | the deltas depend only on the image hashes; moving the images moves only the marks |
| PageComparator.ComparePage | src/main/java/com/example/pdfcompare/util/PDFPageComparator.java:22-46 | appends what the branch for the page draws and returns what it throws |
| PageComparator.OnlySecondPaints | src/main/java/com/example/pdfcompare/util/PDFPageComparator.java:26-29 | a page only the second document has is covered by one green paint at 0.2 over its size, shifted by width1 side by side |
| PageComparator.OnlyFirstPaints | src/main/java/com/example/pdfcompare/util/PDFPageComparator.java:30-33 | side by side, a page only the first document has is covered by one red paint at 0.2 over its size at offset 0 |
| PageComparator.BothComparedPaints | src/main/java/com/example/pdfcompare/util/PDFPageComparator.java:36-45 | when both pages parse, the page paints the text marks and then the image marks, all at 0.3, and throws nothing |
| PageComparator.BothPresentCompared | src/main/java/com/example/pdfcompare/util/PDFPageComparator.java:26-34 | a page both documents have is always compared |
| PageComparator.UnparsablePageThrows | src/main/java/com/example/pdfcompare/util/PDFPageComparator.java:37-38 | a page that fails to parse draws nothing and throws the first document's exception first |
| PdfComparator.TotalPages | src/main/java/com/example/pdfcompare/util/PDFComparator.java:39 | the larger of the two page counts |
| PdfComparator.LayoutOf | src/main/java/com/example/pdfcompare/util/PDFComparator.java:43-50 | the widths and heights are the pages' sizes or 0; the combined width is their sum side by side and the second width otherwise; the combined height is the larger of the two |
| PdfComparator.Wrap | src/main/java/com/example/pdfcompare/util/PDFComparator.java:74-78 | an IOException is wrapped in a RuntimeException; no other exception is caught, and success stays success |
| PdfComparator.RenderPage | src/main/java/com/example/pdfcompare/util/PDFComparator.java:42-78 | one loop iteration draws exactly the page's step and returns what it throws |
| PdfComparator.ComparePDFs | src/main/java/com/example/pdfcompare/util/PDFComparator.java:25-84 | a fresh output whose log is exactly the page steps 1 .. totalPages, stopping at the first page that throws |
| PdfComparator.FailureSticks | src/main/java/com/example/pdfcompare/util/PDFComparator.java:41-79 | an exception ends the loop: later pages change nothing |
| PdfComparator.ThrownByAPage | src/main/java/com/example/pdfcompare/util/PDFComparator.java:41-79 | whatever the loop throws was thrown by one of its pages |
| PdfComparator.RunPaintsNothing | src/main/java/com/example/pdfcompare/util/PDFComparator.java:41-79 | if no page paints anything, neither does the loop |
| PdfComparator.OverlaySkipsExtraFirstPages | src/main/java/com/example/pdfcompare/util/PDFComparator.java:47-54 | when not side by side, a page beyond the second document is skipped and draws nothing |
| PdfComparator.ProducedPages | src/main/java/com/example/pdfcompare/util/PDFComparator.java:43-58 | with positive page sizes, an output page is produced if and only if side by side or the second document has the page; it starts with the page size and a new page |
| PdfComparator.ComparedPagesExist | src/main/java/com/example/pdfcompare/util/PDFComparator.java:52-75 | every page the loop hands to a full comparison exists in both documents |
| PdfComparator.PageStepFailure | src/main/java/com/example/pdfcompare/util/PDFComparator.java:74-78 | a page can throw only a RuntimeException wrapping an IOException, and cannot throw when both documents parse |
| PdfComparator.RunFailure | src/main/java/com/example/pdfcompare/util/PDFComparator.java:41-79 | the loop so far throws only a wrapped IOException, and nothing when both documents parse |
| PdfComparator.DocFailure | src/test/java/com/example/pdfcompare/util/PDFComparatorTest.java:85-106 | a comparison fails only with a RuntimeException whose cause is an IOException, and never when both documents parse |
| PdfComparator.LayoutOpsPaintNothing | src/main/java/com/example/pdfcompare/util/PDFComparator.java:56-72 | page sizes, new pages and templates paint no highlight |
| PdfComparator.SelfPagePaintsNothing | src/main/java/com/example/pdfcompare/util/PDFComparator.java:41-79 | with a diff that reports nothing for equal lists, a page compared with itself paints nothing |
| PdfComparator.SelfComparisonPaintsNothing | src/main/java/com/example/pdfcompare/util/PDFComparator.java:25-84 | comparing a document with itself paints no highlight on any page |
| PdfComparator.SecondPageMissing | src/test/java/com/example/pdfcompare/util/PDFComparatorTest.java:108-140 | page 2 of a 200x200 first document against a one-page second, side by side, gets the layout (200, 0, 200, 0, 200, 200), one template and one red page highlight |

## Left out

- The MD5 algorithm is not modelled. It is the parameter `HashUtility.Digest`, so two extractions
  of the same bytes give the same hash by construction.
- The diff algorithm of java-diff-utils is the parameter `Deltas.Differ`. The model does not
  cover its minimality or how it breaks ties. The lemmas hold for any diff, except the
  self-comparison lemmas, which assume it reports nothing for equal lists.
- Floating point is modelled with reals. `float` rounding, NaN and infinities are not modelled.
  `Float.MAX_VALUE` and `Float.MIN_VALUE` are kept as the constants they are. The opacities
  0.2f and 0.3f are the reals 0.2 and 0.3.
- Java `int` overflow in the cursor and position arithmetic is not modelled; integers are
  unbounded.
- `TextChunk` is not part of this model. It is treated as a record of a text and a rectangle, as
  its uses imply.
- iText's internals are not modelled: PDF parsing, `getImportedPage`, the document's initial A4
  page size, serialising the output, and `Document.open`/`close`. The output is the log of
  operations the core issues on the content byte.
- Closing the document and the readers after the loop, and what happens to them when the loop
  throws, are not modelled.
- `printStackTrace` logging in the image listener is not modelled. An unreadable image is only
  skipped.
- Creating a `PdfReader` from input streams, and the failures that can raise, are not modelled.
  A `Reader` is already open.
- `DocumentException` from `PdfWriter.getInstance` is not modelled.
- The HTTP controller, the service layer and the OpenAPI configuration are outside the core.
- PageComparator.ComparePage: images are extracted from the same page contents the words were
  extracted from. Parsing is deterministic, so image extraction cannot fail once word extraction
  succeeded. The model does not cover a content stream that parses once and fails the second
  time.
- Documents.PageEvents: `processContent` on a page number that does not exist is modelled as a
  NullPointerException. How iText actually fails there is not modelled.
  `PdfComparator.ComparedPagesExist` shows that `comparePDFs` never reaches that case.
- Each loop body lives in its own method (`ProcessWord`, `HighlightAt`, `HighlightDelta`,
  `RenderPage`). The source writes these bodies inline or as lambdas. Their effect is the same.
