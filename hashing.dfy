/**
 * `HashUtilityClass.hashBytes`: the MD5 digest of the bytes as 32 lower-case hexadecimal digits,
 * or `Arrays.toString` of the bytes when the digest cannot be obtained. MD5 itself is a parameter.
 */
module HashUtility {
  import opened Wrappers

  /** A Java `byte`: signed, two's complement, 8 bits. */
  newtype JByte = x: int | -128 <= x < 128

  /**
   * The message digest: `Some(hash)` when `MessageDigest.getInstance("MD5").digest(data)` returns
   * `hash`, `None` when that throws. Being a function, it is deterministic by construction.
   */
  type Digest = seq<JByte> -> Option<seq<JByte>>

  /** Length every successful result is padded to. */
  const HEX_LENGTH: nat := 32

  // ----- BigInteger(1, hash) -----------------------------------------------------------

  /** The byte read as an unsigned value in 0..255. */
  function Unsigned(b: JByte): (u: nat)
    ensures u < 256 && u % 256 == b as int % 256
  {
    if b < 0 then b as int + 256 else b as int
  }

  /** `new BigInteger(1, bs)`: the bytes as an unsigned big-endian number. */
  function Magnitude(bs: seq<JByte>): nat
    decreases |bs|
  {
    if bs == [] then 0 else Magnitude(bs[..|bs| - 1]) * 256 + Unsigned(bs[|bs| - 1])
  }

  function Pow(base: nat, e: nat): nat
    decreases e
  {
    if e == 0 then 1 else base * Pow(base, e - 1)
  }

  /** A big-endian number of k bytes is below 256^k. */
  lemma {:induction false} MagnitudeBound(bs: seq<JByte>)
    ensures Magnitude(bs) < Pow(256, |bs|)
    decreases |bs|
  {
    if bs != [] {
      var init := bs[..|bs| - 1];
      MagnitudeBound(init);
      var m := Magnitude(init);
      var p := Pow(256, |init|);
      assert m <= p - 1;
      assert m * 256 <= (p - 1) * 256;
      assert Magnitude(bs) <= (p - 1) * 256 + 255;
      assert Pow(256, |bs|) == 256 * p;
    }
  }

  lemma {:induction false} MagnitudeOfZeros(bs: seq<JByte>)
    requires forall i :: 0 <= i < |bs| ==> bs[i] == 0
    ensures Magnitude(bs) == 0
    decreases |bs|
  {
    if bs != [] {
      MagnitudeOfZeros(bs[..|bs| - 1]);
    }
  }

  lemma {:induction false} PowSquare(k: nat)
    ensures Pow(256, k) == Pow(16, 2 * k)
    decreases k
  {
    if k > 0 {
      PowSquare(k - 1);
      assert Pow(16, 2 * k) == 16 * (16 * Pow(16, 2 * (k - 1)));
    }
  }

  // ----- BigInteger.toString(16) -------------------------------------------------------

  predicate IsHexChar(c: char)
  {
    '0' <= c <= '9' || 'a' <= c <= 'f'
  }

  function HexDigit(d: nat): (c: char)
    requires d < 16
    ensures IsHexChar(c)
  {
    if d < 10 then ('0' as int + d) as char else ('a' as int + d - 10) as char
  }

  /** The value of one lower-case hexadecimal digit. */
  function DigitValue(c: char): int
  {
    if '0' <= c <= '9' then c as int - '0' as int else c as int - 'a' as int + 10
  }

  /** A hexadecimal numeral read back as a number (most significant digit first). */
  function HexValue(s: string): int
    decreases |s|
  {
    if s == [] then 0 else HexValue(s[..|s| - 1]) * 16 + DigitValue(s[|s| - 1])
  }

  /** `BigInteger.toString(16)` of a non-negative number: lower-case digits, no leading zero. */
  function ToHex(n: nat): (s: string)
    ensures |s| >= 1
    ensures forall i :: 0 <= i < |s| ==> IsHexChar(s[i])
    ensures |s| > 1 ==> s[0] != '0'
    decreases n
  {
    if n < 16 then [HexDigit(n)] else ToHex(n / 16) + [HexDigit(n % 16)]
  }

  /** Reading the numeral back gives the number. */
  lemma {:induction false} HexRoundTrip(n: nat)
    ensures HexValue(ToHex(n)) == n
    decreases n
  {
    var s := ToHex(n);
    if n >= 16 {
      HexRoundTrip(n / 16);
      assert s[..|s| - 1] == ToHex(n / 16);
    }
  }

  /** A number below 16^k has at most k hexadecimal digits. */
  lemma {:induction false} HexLength(n: nat, k: nat)
    requires 1 <= k && n < Pow(16, k)
    ensures |ToHex(n)| <= k
    decreases n
  {
    if n >= 16 {
      assert k >= 2;
      assert Pow(16, k) == 16 * Pow(16, k - 1);
      assert n / 16 < Pow(16, k - 1);
      HexLength(n / 16, k - 1);
    }
  }

  // ----- the padding loop --------------------------------------------------------------

  function Zeros(k: nat): (z: string)
    ensures |z| == k && forall i :: 0 <= i < k ==> z[i] == '0'
  {
    seq(k, _ => '0')
  }

  /** The numeral left-padded with '0' to `HEX_LENGTH` characters when it is shorter. */
  function Padded(hex: string): string
  {
    if |hex| >= HEX_LENGTH then hex else Zeros(HEX_LENGTH - |hex|) + hex
  }

  /** The `StringBuilder` loop: prepends '0' while the length is below 32. */
  method PadHex(hex: string) returns (padded: string)
    ensures |hex| >= HEX_LENGTH ==> padded == hex
    ensures |hex| < HEX_LENGTH ==> |padded| == HEX_LENGTH
    ensures |padded| >= |hex| && padded == Zeros(|padded| - |hex|) + hex
    ensures padded == Padded(hex)
  {
    padded := hex;
    while |padded| < HEX_LENGTH
      invariant |padded| >= |hex| && padded == Zeros(|padded| - |hex|) + hex
      invariant |hex| >= HEX_LENGTH ==> padded == hex
      invariant |hex| < HEX_LENGTH ==> |padded| <= HEX_LENGTH
      decreases HEX_LENGTH - |padded|
    {
      padded := "0" + padded;
    }
  }

  /** Leading zeros do not change the value of a numeral. */
  lemma {:induction false} LeadingZeroValue(s: string)
    ensures HexValue("0" + s) == HexValue(s)
    decreases |s|
  {
    if s != [] {
      var t := "0" + s;
      assert t[..|t| - 1] == "0" + s[..|s| - 1];
      assert t[|t| - 1] == s[|s| - 1];
      LeadingZeroValue(s[..|s| - 1]);
    }
  }

  lemma {:induction false} ZerosValue(k: nat, s: string)
    ensures HexValue(Zeros(k) + s) == HexValue(s)
    decreases k
  {
    if k > 0 {
      assert Zeros(k) == "0" + Zeros(k - 1);
      assert Zeros(k) + s == "0" + (Zeros(k - 1) + s);
      LeadingZeroValue(Zeros(k - 1) + s);
      ZerosValue(k - 1, s);
    } else {
      assert Zeros(k) + s == s;
    }
  }

  // ----- the fallback: Arrays.toString(byte[]) -----------------------------------------

  predicate IsDigit(c: char)
  {
    '0' <= c <= '9'
  }

  /** `Integer.toString` of a non-negative value: at least one decimal digit and nothing else. */
  function NatDecimal(n: nat): (s: string)
    ensures |s| >= 1 && forall i :: 0 <= i < |s| ==> IsDigit(s[i])
    decreases n
  {
    if n < 10 then [('0' as int + n) as char] else NatDecimal(n / 10) + [('0' as int + n % 10) as char]
  }

  /** `Integer.toString` of a signed byte value. */
  function Decimal(x: int): string
  {
    if x < 0 then "-" + NatDecimal(-x) else NatDecimal(x)
  }

  function JoinElements(bs: seq<JByte>): string
    decreases |bs|
  {
    if bs == [] then ""
    else if |bs| == 1 then Decimal(bs[0] as int)
    else Decimal(bs[0] as int) + ", " + JoinElements(bs[1..])
  }

  /** `Arrays.toString(byte[])`: the signed values in brackets, separated by ", ". */
  function ArraysToString(bs: seq<JByte>): (s: string)
    ensures |s| >= 2 && s[0] == '[' && s[|s| - 1] == ']'
    ensures s == "[]" <==> bs == []
  {
    JoinEmpty(bs);
    "[" + JoinElements(bs) + "]"
  }

  /** A numeral of decimal digits read back as a number (most significant digit first). */
  function DigitsValue(s: string): int
    decreases |s|
  {
    if s == [] then 0 else 10 * DigitsValue(s[..|s| - 1]) + (s[|s| - 1] as int - '0' as int)
  }

  /** A signed decimal numeral read back, as `Integer.parseInt` would. */
  function DecimalValue(s: string): int
  {
    if s != [] && s[0] == '-' then -DigitsValue(s[1..]) else DigitsValue(s)
  }

  lemma {:induction false} NatDecimalRoundTrip(n: nat)
    ensures DigitsValue(NatDecimal(n)) == n
    decreases n
  {
    if n >= 10 {
      NatDecimalRoundTrip(n / 10);
      var s := NatDecimal(n);
      assert s[..|s| - 1] == NatDecimal(n / 10);
    }
  }

  /** Reading back the decimal text of a value gives the value: distinct values print differently. */
  lemma DecimalRoundTrip(x: int)
    ensures DecimalValue(Decimal(x)) == x
  {
    if x < 0 {
      NatDecimalRoundTrip(-x);
      assert ("-" + NatDecimal(-x))[1..] == NatDecimal(-x);
    } else {
      NatDecimalRoundTrip(x);
    }
  }

  /** The text of a value is non-empty and holds neither a comma nor a space. */
  lemma DecimalHasNoSeparator(x: int)
    ensures |Decimal(x)| >= 1
    ensures forall i :: 0 <= i < |Decimal(x)| ==> Decimal(x)[i] != ',' && Decimal(x)[i] != ' '
  {
    if x < 0 {
      var d := NatDecimal(-x);
      assert forall i :: 1 <= i < |"-" + d| ==> ("-" + d)[i] == d[i - 1];
    }
  }

  /**
   * Two texts without a comma, each followed by nothing or by something starting with a comma,
   * can only make the same string if the texts and what follows them are the same.
   */
  lemma CommaSplit(d1: string, r1: string, d2: string, r2: string)
    requires forall i :: 0 <= i < |d1| ==> d1[i] != ','
    requires forall i :: 0 <= i < |d2| ==> d2[i] != ','
    requires r1 == [] || r1[0] == ','
    requires r2 == [] || r2[0] == ','
    requires d1 + r1 == d2 + r2
    ensures d1 == d2 && r1 == r2
  {
    var s := d1 + r1;
    assert forall i :: 0 <= i < |d1| ==> s[i] == d1[i];
    assert forall i :: 0 <= i < |d2| ==> s[i] == d2[i];
    assert r1 != [] ==> s[|d1|] == ',';
    assert r2 != [] ==> s[|d2|] == ',';
    assert |d1| == |d2|;
    assert d1 == s[..|d1|] && d2 == s[..|d2|];
    assert r1 == s[|d1|..] && r2 == s[|d2|..];
  }

  /** The text after the first element of a joined list: nothing, or ", " and the rest. */
  function JoinTail(bs: seq<JByte>): string
    requires bs != []
  {
    if |bs| == 1 then "" else ", " + JoinElements(bs[1..])
  }

  /** A joined list is empty exactly when the list is. */
  lemma JoinEmpty(bs: seq<JByte>)
    ensures JoinElements(bs) == "" <==> bs == []
  {
    if bs != [] {
      DecimalHasNoSeparator(bs[0] as int);
    }
  }

  /** A non-empty joined list is its first element's text followed by its tail. */
  lemma JoinSplit(bs: seq<JByte>)
    requires bs != []
    ensures JoinElements(bs) == Decimal(bs[0] as int) + JoinTail(bs)
    ensures |bs| == 1 <==> JoinTail(bs) == []
    ensures JoinTail(bs) != [] ==> JoinTail(bs)[0] == ',' && JoinTail(bs)[2..] == JoinElements(bs[1..])
  {
  }

  /** The joined decimals determine the list they were made from. */
  lemma {:induction false} JoinInjective(a: seq<JByte>, b: seq<JByte>)
    requires JoinElements(a) == JoinElements(b)
    ensures a == b
    decreases |a|
  {
    JoinEmpty(a);
    JoinEmpty(b);
    if a != [] && b != [] {
      JoinSplit(a);
      JoinSplit(b);
      DecimalHasNoSeparator(a[0] as int);
      DecimalHasNoSeparator(b[0] as int);
      CommaSplit(Decimal(a[0] as int), JoinTail(a), Decimal(b[0] as int), JoinTail(b));
      DecimalRoundTrip(a[0] as int);
      DecimalRoundTrip(b[0] as int);
      if |a| > 1 {
        JoinInjective(a[1..], b[1..]);
        assert a == [a[0]] + a[1..] && b == [b[0]] + b[1..];
      } else {
        assert a == [a[0]] && b == [b[0]];
      }
    }
  }

  /** Distinct byte arrays have distinct `Arrays.toString` texts. */
  lemma ArraysToStringInjective(a: seq<JByte>, b: seq<JByte>)
    ensures ArraysToString(a) == ArraysToString(b) <==> a == b
  {
    if ArraysToString(a) == ArraysToString(b) {
      var s := ArraysToString(a);
      assert JoinElements(a) == s[1..|s| - 1];
      assert JoinElements(b) == ArraysToString(b)[1..|s| - 1];
      JoinInjective(a, b);
    }
  }

  // ----- hashBytes ---------------------------------------------------------------------

  function HashText(md5: Digest, data: seq<JByte>): string
  {
    match md5(data)
    case None => ArraysToString(data)
    case Some(hash) => Padded(ToHex(Magnitude(hash)))
  }

  method HashBytes(md5: Digest, data: seq<JByte>) returns (s: string)
    ensures s == HashText(md5, data)
  {
    match md5(data)
    case None =>
      s := ArraysToString(data);
    case Some(hash) =>
      var number := Magnitude(hash);
      s := PadHex(ToHex(number));
  }

  /**
   * A 16-byte digest (the length of an MD5 digest) becomes exactly 32 lower-case hexadecimal
   * digits whose value is the digest read as an unsigned big-endian number.
   */
  lemma DigestHex(md5: Digest, data: seq<JByte>)
    requires md5(data).Some? && |md5(data).value| == 16
    ensures var s := HashText(md5, data);
      && |s| == HEX_LENGTH
      && (forall i :: 0 <= i < |s| ==> IsHexChar(s[i]))
      && HexValue(s) == Magnitude(md5(data).value)
  {
    var hash := md5(data).value;
    var n := Magnitude(hash);
    MagnitudeBound(hash);
    PowSquare(16);
    HexLength(n, HEX_LENGTH);
    HexRoundTrip(n);
    PaddedHex(ToHex(n));
  }

  /** Padding a numeral of at most 32 digits gives 32 hex digits of the same value. */
  lemma PaddedHex(hex: string)
    requires |hex| <= HEX_LENGTH && forall i :: 0 <= i < |hex| ==> IsHexChar(hex[i])
    ensures var p := Padded(hex);
      && |p| == HEX_LENGTH
      && (forall i :: 0 <= i < |p| ==> IsHexChar(p[i]))
      && HexValue(p) == HexValue(hex)
  {
    var z := Zeros(HEX_LENGTH - |hex|);
    ZerosValue(HEX_LENGTH - |hex|, hex);
    var p := z + hex;
    forall i | 0 <= i < |p| ensures IsHexChar(p[i]) {
      if i >= |z| {
        assert p[i] == hex[i - |z|];
      }
    }
  }

  /** Padding only prepends '0': the unpadded numeral is a suffix, and nothing of 32 or more changes. */
  lemma PaddedSuffix(hex: string)
    ensures var p := Padded(hex);
      && |p| == (if |hex| >= HEX_LENGTH then |hex| else HEX_LENGTH)
      && p[|p| - |hex|..] == hex
      && (forall i :: 0 <= i < |p| - |hex| ==> p[i] == '0')
  {
  }

  /** A digest of sixteen zero bytes gives thirty-two '0' characters. */
  lemma ZeroDigestHash(md5: Digest, data: seq<JByte>)
    requires md5(data) == Some(seq(16, _ => 0 as JByte))
    ensures HashText(md5, data) == Zeros(HEX_LENGTH)
  {
    MagnitudeOfZeros(md5(data).value);
    assert ToHex(0) == "0";
    assert Zeros(HEX_LENGTH - 1) + "0" == Zeros(HEX_LENGTH);
  }

  lemma DecimalExamples()
    ensures Decimal(72) == "72" && Decimal(101) == "101" && Decimal(108) == "108" && Decimal(111) == "111"
  {
    assert NatDecimal(7) == "7";
    assert NatDecimal(72) == "72";
    assert NatDecimal(1) == "1";
    assert NatDecimal(10) == "10";
    assert NatDecimal(101) == "101";
    assert NatDecimal(108) == "108";
    assert NatDecimal(11) == "11";
    assert NatDecimal(111) == "111";
  }

  /** Joining a list of two or more elements: the first in decimal, a comma and a space, then the rest. */
  lemma JoinCons(b: JByte, rest: seq<JByte>)
    requires rest != []
    ensures JoinElements([b] + rest) == Decimal(b as int) + ", " + JoinElements(rest)
  {
    assert ([b] + rest)[1..] == rest;
  }

  /** When the digest throws, the result is the bracketed list of signed byte values. */
  lemma FallbackHello(md5: Digest, data: seq<JByte>)
    requires data == [72, 101, 108, 108, 111] && md5(data) == None
    ensures HashText(md5, data) == "[" + "72, 101, 108, 108, 111" + "]"
  {
    JoinHello(data);
    assert HashText(md5, data) == "[" + JoinElements(data) + "]";
  }

  /** Five values are joined as their decimals with ", " between them. */
  lemma JoinFive(a: JByte, b: JByte, c: JByte, d: JByte, e: JByte)
    ensures JoinElements([a, b, c, d, e])
         == Decimal(a as int) + ", " + (Decimal(b as int) + ", " + (Decimal(c as int) + ", "
          + (Decimal(d as int) + ", " + Decimal(e as int))))
  {
    JoinCons(d, [e]);
    assert [d] + [e] == [d, e];
    JoinCons(c, [d, e]);
    assert [c] + [d, e] == [c, d, e];
    JoinCons(b, [c, d, e]);
    assert [b] + [c, d, e] == [b, c, d, e];
    JoinCons(a, [b, c, d, e]);
    assert [a] + [b, c, d, e] == [a, b, c, d, e];
  }

  /** The signed values of the bytes of "Hello", joined. */
  lemma JoinHello(data: seq<JByte>)
    requires data == [72, 101, 108, 108, 111]
    ensures JoinElements(data) == "72, 101, 108, 108, 111"
  {
    DecimalExamples();
    JoinFive(72, 101, 108, 108, 111);
  }

  /**
   * When the digest throws, the fallback still tells byte arrays apart: two arrays get the same
   * result exactly when they are equal, so an image identifier built on it stays faithful.
   */
  lemma FallbackInjective(md5: Digest, a: seq<JByte>, b: seq<JByte>)
    requires md5(a).None? && md5(b).None?
    ensures HashText(md5, a) == HashText(md5, b) <==> a == b
  {
    ArraysToStringInjective(a, b);
  }

  /** A fallback result can never be mistaken for a digest: it starts with '[', a digest only has hex digits. */
  lemma FallbackIsNotHex(md5: Digest, data: seq<JByte>)
    ensures var s := HashText(md5, data);
      md5(data).None? <==> !(forall i :: 0 <= i < |s| ==> IsHexChar(s[i]))
  {
    var s := HashText(md5, data);
    if md5(data).Some? {
      var hex := ToHex(Magnitude(md5(data).value));
      assert forall i :: 0 <= i < |s| ==> IsHexChar(s[i]) by {
        if |hex| < HEX_LENGTH {
          forall i | 0 <= i < |s| ensures IsHexChar(s[i]) {
            if i >= HEX_LENGTH - |hex| {
              assert s[i] == hex[i - (HEX_LENGTH - |hex|)];
            }
          }
        }
      }
    } else {
      assert !IsHexChar(s[0]);
    }
  }
}
