/**
 * The two Java string primitives the tokenizer relies on: `String.split("\\s+")` and
 * `String.isBlank()`. They disagree on what counts as white space, and the model keeps them apart.
 */
module JavaStrings {

  /** `\s` in a Java regular expression: space, tab, newline, vertical tab, form feed, carriage return. */
  predicate IsRegexSpace(c: char)
  {
    c == ' ' || 9 <= c as int <= 13
  }

  /** `Character.isWhitespace`: `\s`, the separators 0x1C-0x1F, and the Unicode space, line and
      paragraph separators other than the no-break spaces 0xA0, 0x2007 and 0x202F. */
  predicate IsWhitespace(c: char)
  {
    var u := c as int;
    9 <= u <= 13 || 28 <= u <= 32 || u == 0x1680 || 0x2000 <= u <= 0x2006 || 0x2008 <= u <= 0x200A
    || u == 0x2028 || u == 0x2029 || u == 0x205F || u == 0x3000
  }

  /** `String.isBlank()`: empty or white space only. */
  predicate IsBlank(s: string)
  {
    forall k :: 0 <= k < |s| ==> IsWhitespace(s[k])
  }

  predicate NoRegexSpace(s: string)
  {
    forall k :: 0 <= k < |s| ==> !IsRegexSpace(s[k])
  }

  predicate AllRegexSpace(s: string)
  {
    forall k :: 0 <= k < |s| ==> IsRegexSpace(s[k])
  }

  lemma RegexSpaceIsWhitespace(c: char)
    ensures IsRegexSpace(c) ==> IsWhitespace(c)
  {
  }

  /** A character outside the Basic Multilingual Plane, which a Java string holds as a surrogate pair. */
  predicate IsSupplementary(c: char)
  {
    c as int >= 0x1_0000
  }

  /** `String.length()`: UTF-16 code units, two for each supplementary character and one for any other. */
  function Utf16Length(s: string): (n: nat)
    ensures |s| <= n <= 2 * |s|
    decreases |s|
  {
    if s == [] then 0 else (if IsSupplementary(s[0]) then 2 else 1) + Utf16Length(s[1..])
  }

  /** The Java length of a string is its number of characters exactly when none is supplementary. */
  lemma {:induction false} Utf16LengthOfBmp(s: string)
    ensures Utf16Length(s) == |s| <==> forall k :: 0 <= k < |s| ==> !IsSupplementary(s[k])
    decreases |s|
  {
    if s != [] {
      Utf16LengthOfBmp(s[1..]);
      assert forall k :: 1 <= k < |s| ==> s[k] == s[1..][k - 1];
      if !IsSupplementary(s[0]) && Utf16Length(s[1..]) == |s| - 1 {
        forall k | 0 <= k < |s| ensures !IsSupplementary(s[k]) {
          if k > 0 {
            assert s[k] == s[1..][k - 1];
          }
        }
      }
    }
  }

  /** Index of the first `\s` character, or the length when there is none. */
  function SepStart(s: string): (i: nat)
    ensures i <= |s|
    ensures forall k :: 0 <= k < i ==> !IsRegexSpace(s[k])
    ensures i < |s| ==> IsRegexSpace(s[i])
    decreases |s|
  {
    if s == [] then 0 else if IsRegexSpace(s[0]) then 0 else 1 + SepStart(s[1..])
  }

  /** End of the maximal run of `\s` characters that starts at i. */
  function RunEnd(s: string, i: nat): (j: nat)
    requires i <= |s|
    ensures i <= j <= |s|
    ensures forall k :: i <= k < j ==> IsRegexSpace(s[k])
    ensures j < |s| ==> !IsRegexSpace(s[j])
    decreases |s| - i
  {
    if i == |s| || !IsRegexSpace(s[i]) then i else RunEnd(s, i + 1)
  }

  /** The pieces between maximal `\s` runs, before trailing empty pieces are removed. */
  function Segments(s: string): (r: seq<string>)
    ensures |r| >= 1
    decreases |s|
  {
    var i := SepStart(s);
    if i == |s| then [s] else [s[..i]] + Segments(s[RunEnd(s, i)..])
  }

  /** The maximal `\s` runs themselves, in order. */
  function Separators(s: string): (r: seq<string>)
    decreases |s|
  {
    var i := SepStart(s);
    if i == |s| then [] else [s[i..RunEnd(s, i)]] + Separators(s[RunEnd(s, i)..])
  }

  /** Pieces interleaved with the separators between them. */
  function Weave(pieces: seq<string>, seps: seq<string>): string
    requires |pieces| == |seps| + 1
    decreases |seps|
  {
    if seps == [] then pieces[0] else pieces[0] + seps[0] + Weave(pieces[1..], seps[1..])
  }

  function DropTrailingEmpty(parts: seq<string>): (r: seq<string>)
    ensures |r| <= |parts| && r == parts[..|r|]
    ensures forall i :: |r| <= i < |parts| ==> parts[i] == ""
    ensures r != [] ==> r[|r| - 1] != ""
    decreases |parts|
  {
    if parts == [] || parts[|parts| - 1] != "" then parts else DropTrailingEmpty(parts[..|parts| - 1])
  }

  /** `String.split("\\s+")`: the whole text when nothing matches, else the pieces without trailing empties. */
  function Split(s: string): seq<string>
  {
    if SepStart(s) == |s| then [s] else DropTrailingEmpty(Segments(s))
  }

  // ----- properties of the split ----------------------------------------------------

  lemma WeaveCons(piece: string, sep: string, pieces: seq<string>, seps: seq<string>)
    requires |pieces| == |seps| + 1
    ensures Weave([piece] + pieces, [sep] + seps) == piece + sep + Weave(pieces, seps)
  {
    assert ([piece] + pieces)[1..] == pieces && ([sep] + seps)[1..] == seps;
  }

  lemma SliceThree(s: string, i: nat, j: nat)
    requires i <= j <= |s|
    ensures s[..i] + s[i..j] + s[j..] == s
  {
    assert s[..i] + s[i..j] == s[..j];
  }

  /**
   * Splitting loses nothing: the text is its pieces woven with the separators between them.
   */
  lemma {:induction false} SegmentsWeave(s: string)
    ensures |Segments(s)| == |Separators(s)| + 1
    ensures Weave(Segments(s), Separators(s)) == s
    decreases |s|
  {
    var i := SepStart(s);
    if i < |s| {
      var j := RunEnd(s, i);
      var rest := s[j..];
      SegmentsWeave(rest);
      WeaveCons(s[..i], s[i..j], Segments(rest), Separators(rest));
      SliceThree(s, i, j);
    }
  }

  /** Every separator is a non-empty run of `\s` and no piece contains `\s`: the runs are maximal. */
  lemma {:induction false} SegmentsMaximal(s: string)
    ensures forall i :: 0 <= i < |Separators(s)| ==> Separators(s)[i] != "" && AllRegexSpace(Separators(s)[i])
    ensures forall i :: 0 <= i < |Segments(s)| ==> NoRegexSpace(Segments(s)[i])
    decreases |s|
  {
    var i := SepStart(s);
    if i < |s| {
      var j := RunEnd(s, i);
      var rest := s[j..];
      SegmentsMaximal(rest);
      forall k | 0 <= k < |Segments(s)| ensures NoRegexSpace(Segments(s)[k]) {
        if k > 0 { assert Segments(s)[k] == Segments(rest)[k - 1]; }
      }
      forall k | 0 <= k < |Separators(s)|
        ensures Separators(s)[k] != "" && AllRegexSpace(Separators(s)[k])
      {
        if k > 0 { assert Separators(s)[k] == Separators(rest)[k - 1]; }
      }
    }
  }

  /** Pieces after the first are never empty, except a last piece when the text ends in `\s`. */
  lemma {:induction false} SegmentsInnerNonEmpty(s: string)
    ensures forall i :: 0 < i < |Segments(s)| - 1 ==> Segments(s)[i] != ""
    ensures |Segments(s)| > 1 ==> (Segments(s)[|Segments(s)| - 1] == "" <==> IsRegexSpace(s[|s| - 1]))
    decreases |s|
  {
    var i := SepStart(s);
    if i < |s| {
      var j := RunEnd(s, i);
      var rest := s[j..];
      SegmentsInnerNonEmpty(rest);
      assert Segments(s)[1..] == Segments(rest);
      if |Segments(rest)| > 1 {
        assert rest != [] && s[|s| - 1] == rest[|rest| - 1];
      } else {
        assert Segments(rest) == [rest];
        if rest == [] {
          assert IsRegexSpace(s[|s| - 1]) by { assert |s| - 1 >= i && |s| - 1 < j; }
        } else {
          assert SepStart(rest) == |rest|;
          assert !IsRegexSpace(rest[|rest| - 1]);
          assert s[|s| - 1] == rest[|rest| - 1];
        }
      }
      assert Segments(rest)[0] == rest[..SepStart(rest)];
      assert rest != [] ==> !IsRegexSpace(rest[0]);
      forall k | 0 < k < |Segments(s)| - 1 ensures Segments(s)[k] != "" {
        assert Segments(s)[k] == Segments(rest)[k - 1];
        if k == 1 {
          assert rest != [];
          assert SepStart(rest) > 0;
        }
      }
    }
  }

  /**
   * The shape of `split("\\s+")`: pieces hold no `\s`; only the first can be empty; a non-empty
   * text never ends in an empty piece; text without a separator comes back whole.
   */
  lemma SplitShape(s: string)
    ensures var r := Split(s);
      && (forall i :: 0 <= i < |r| ==> NoRegexSpace(r[i]))
      && (forall i :: 0 < i < |r| ==> r[i] != "")
      && (s != "" && r != [] ==> r[|r| - 1] != "")
      && (SepStart(s) == |s| ==> r == [s])
  {
    SegmentsMaximal(s);
    SegmentsInnerNonEmpty(s);
    var r := Split(s);
    if SepStart(s) < |s| {
      var g := Segments(s);
      assert r == g[..|r|];
      forall i | 0 < i < |r| ensures r[i] != "" {
        if i == |g| - 1 {
          assert r[|r| - 1] != "";
        }
      }
    }
  }

  /** A leading empty piece appears exactly when the text starts with `\s` and is not all `\s`. */
  lemma SplitLeadingEmpty(s: string)
    requires s != ""
    ensures (Split(s) != [] && Split(s)[0] == "") <==> (IsRegexSpace(s[0]) && !AllRegexSpace(s))
  {
    SplitShape(s);
    var g := Segments(s);
    if IsRegexSpace(s[0]) {
      var j := RunEnd(s, 0);
      var rest := s[j..];
      assert SepStart(s) == 0;
      assert g[0] == "" && g[1..] == Segments(rest);
      if AllRegexSpace(s) {
        assert j == |s|;
        assert Segments(rest) == [""];
        assert g == ["", ""];
        assert DropTrailingEmpty(g) == DropTrailingEmpty([""]);
      } else {
        assert j < |s|;
        assert rest != [] && !IsRegexSpace(rest[0]);
        assert Segments(rest)[0] == rest[..SepStart(rest)] && SepStart(rest) > 0;
        assert g[1] != "";
        var r := Split(s);
        assert r == g[..|r|];
        assert |r| >= 2;
      }
    } else {
      if SepStart(s) < |s| {
        assert SepStart(s) > 0;
        assert g[0] == s[..SepStart(s)] && g[0] != "";
        var r := Split(s);
        assert r == g[..|r|];
        assert |r| >= 1;
      }
    }
  }

  /** Text made only of `\s` splits into nothing. */
  lemma SplitAllSpace(s: string)
    requires s != "" && AllRegexSpace(s)
    ensures Split(s) == []
  {
    var j := RunEnd(s, 0);
    assert j == |s|;
    assert Segments(s) == [""] + Segments(s[j..]);
    assert s[j..] == "";
    assert Segments(s) == ["", ""];
    assert DropTrailingEmpty(["", ""]) == DropTrailingEmpty([""]);
  }

  /** Every character of every piece is a character of the text. */
  lemma {:induction false} SegmentsChars(s: string)
    ensures forall i, k :: 0 <= i < |Segments(s)| && 0 <= k < |Segments(s)[i]| ==> Segments(s)[i][k] in s
    decreases |s|
  {
    var i := SepStart(s);
    if i < |s| {
      var rest := s[RunEnd(s, i)..];
      SegmentsChars(rest);
      forall m, k | 0 <= m < |Segments(s)| && 0 <= k < |Segments(s)[m]| ensures Segments(s)[m][k] in s {
        if m == 0 {
          assert Segments(s)[m][k] == s[k];
        } else {
          assert Segments(s)[m] == Segments(rest)[m - 1];
          var c := Segments(rest)[m - 1][k];
          assert c in rest;
          var t :| 0 <= t < |rest| && rest[t] == c;
          assert s[RunEnd(s, i) + t] == c;
        }
      }
    }
  }

  lemma SplitChars(s: string)
    ensures forall i, k :: 0 <= i < |Split(s)| && 0 <= k < |Split(s)[i]| ==> Split(s)[i][k] in s
  {
    if SepStart(s) < |s| {
      SegmentsChars(s);
      var r := Split(s);
      forall i, k | 0 <= i < |r| && 0 <= k < |r[i]| ensures r[i][k] in s {
        assert r[i] == Segments(s)[i];
      }
    }
  }

  lemma {:induction false} SepStartAt(s: string, i: nat)
    requires i <= |s| && NoRegexSpace(s[..i]) && (i < |s| ==> IsRegexSpace(s[i]))
    ensures SepStart(s) == i
    decreases i
  {
    if i > 0 {
      assert !IsRegexSpace(s[..i][0]);
      assert s[1..][..i - 1] == s[..i][1..];
      SepStartAt(s[1..], i - 1);
    }
  }

  lemma SegmentsOfWord(w: string)
    requires NoRegexSpace(w)
    ensures Segments(w) == [w]
  {
    SepStartAt(w, |w|);
  }

  /** Two words joined by one space split back into the two words. */
  lemma SplitTwoWords(a: string, b: string)
    requires a != "" && b != "" && NoRegexSpace(a) && NoRegexSpace(b)
    ensures Split(a + " " + b) == [a, b]
  {
    var s := a + " " + b;
    assert s[..|a|] == a && s[|a|] == ' ';
    SepStartAt(s, |a|);
    assert RunEnd(s, |a| + 1) == |a| + 1 by { assert s[|a| + 1] == b[0]; }
    assert s[|a| + 1..] == b;
    SegmentsOfWord(b);
    assert Segments(s) == [a, b];
    KeepsNonEmptyLast([a, b]);
  }

  /** "Hello World" splits into its two words. */
  lemma SplitHelloWorld()
    ensures Split("Hello World") == ["Hello", "World"]
  {
    assert "Hello World" == "Hello" + " " + "World";
    SplitTwoWords("Hello", "World");
  }

  /** Nothing is dropped when the last piece is non-empty. */
  lemma KeepsNonEmptyLast(parts: seq<string>)
    requires |parts| > 0 && parts[|parts| - 1] != ""
    ensures DropTrailingEmpty(parts) == parts
  {
  }
}
