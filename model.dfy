/** The two records the extractors produce: a word with its box, and an image hash with its box. */
module Chunks {
  import opened Geometry

  /** `TextChunk(text, rectangle)`: one word and the rectangle it occupies. */
  datatype TextChunk = TextChunk(text: string, rectangle: Rect)

  /** `ImageChunk(imageHash, rectangle)`: one drawn image, by the hash of its bytes, and its bounding box. */
  datatype ImageChunk = ImageChunk(imageHash: string, rectangle: Rect)

  const IMAGE_PREFIX: string := "image:"

  /** `ImageChunk.getIdentifier`: the text the image comparison diffs on. */
  function GetIdentifier(c: ImageChunk): (id: string)
    ensures |id| == |c.imageHash| + 6
    ensures id[..6] == "image:" && id[6..] == c.imageHash
  {
    IMAGE_PREFIX + c.imageHash
  }

  /** Two images have the same identifier exactly when they have the same hash; the box plays no part. */
  lemma IdentifierInjective(c: ImageChunk, d: ImageChunk)
    ensures GetIdentifier(c) == GetIdentifier(d) <==> c.imageHash == d.imageHash
  {
    if GetIdentifier(c) == GetIdentifier(d) {
      assert c.imageHash == GetIdentifier(c)[6..] == GetIdentifier(d)[6..] == d.imageHash;
    }
  }

  /** The identifier does not depend on the rectangle. */
  lemma IdentifierIgnoresRectangle(c: ImageChunk, r: Rect)
    ensures GetIdentifier(c.(rectangle := r)) == GetIdentifier(c)
  {
  }

  /** The texts of a list of words, in order (`words.stream().map(TextChunk::text)`). */
  function Texts(words: seq<TextChunk>): (r: seq<string>)
    ensures |r| == |words|
    ensures forall i :: 0 <= i < |words| ==> r[i] == words[i].text
  {
    seq(|words|, i requires 0 <= i < |words| => words[i].text)
  }

  /** The identifiers of a list of images, in order (`images.stream().map(ImageChunk::getIdentifier)`). */
  function Identifiers(images: seq<ImageChunk>): (r: seq<string>)
    ensures |r| == |images|
    ensures forall i :: 0 <= i < |images| ==> r[i] == GetIdentifier(images[i])
  {
    seq(|images|, i requires 0 <= i < |images| => GetIdentifier(images[i]))
  }

  /** Moving words around on the page does not change the texts the diff sees. */
  lemma TextsIgnoreRectangles(a: seq<TextChunk>, b: seq<TextChunk>)
    requires |a| == |b| && forall i :: 0 <= i < |a| ==> a[i].text == b[i].text
    ensures Texts(a) == Texts(b)
  {
  }

  /** Two image lists give the same identifiers exactly when their hashes agree pointwise. */
  lemma IdentifiersIgnoreRectangles(a: seq<ImageChunk>, b: seq<ImageChunk>)
    requires |a| == |b|
    ensures Identifiers(a) == Identifiers(b) <==> forall i :: 0 <= i < |a| ==> a[i].imageHash == b[i].imageHash
  {
    if Identifiers(a) == Identifiers(b) {
      forall i | 0 <= i < |a| ensures a[i].imageHash == b[i].imageHash {
        IdentifierInjective(a[i], b[i]);
      }
    } else {
      var i :| 0 <= i < |a| && Identifiers(a)[i] != Identifiers(b)[i];
      IdentifierInjective(a[i], b[i]);
    }
  }
}
