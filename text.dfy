/** Text helpers shared by the serialisers and the SQL builder: decimal rendering of
    integers, joining with a separator, and the two orders property names are sorted in:
    `Array.prototype.sort`'s UTF-16 code-unit order and Python's code-point order. */
module Text {

  function DigitChar(d: nat): (c: char)
    requires d < 10
    ensures '0' <= c <= '9' && c as int - '0' as int == d
  {
    (d + '0' as int) as char
  }

  predicate IsDigit(c: char) { '0' <= c <= '9' }

  /** Decimal rendering of a natural number, most significant digit first, no leading zeros. */
  function NatText(n: nat): (s: string)
    ensures |s| > 0
    ensures forall i :: 0 <= i < |s| ==> IsDigit(s[i])
    ensures n >= 10 <==> |s| > 1
  {
    if n < 10 then [DigitChar(n)] else NatText(n / 10) + [DigitChar(n % 10)]
  }

  /** The number a string of decimal digits denotes. */
  function DigitsValue(s: string): int
    decreases |s|
  {
    if s == [] then 0 else 10 * DigitsValue(s[..|s| - 1]) + (s[|s| - 1] as int - '0' as int)
  }

  /** Reading back the rendering gives the number: the rendering is injective. */
  lemma {:induction false} NatTextRoundTrip(n: nat)
    ensures DigitsValue(NatText(n)) == n
  {
    if n >= 10 {
      var s := NatText(n);
      assert s[..|s| - 1] == NatText(n / 10);
      NatTextRoundTrip(n / 10);
    }
  }

  lemma NatTextInjective(m: nat, n: nat)
    requires NatText(m) == NatText(n)
    ensures m == n
  {
    NatTextRoundTrip(m);
    NatTextRoundTrip(n);
  }

  /** Decimal rendering of an integer, with a leading '-' when negative. */
  function IntText(i: int): string {
    if i < 0 then "-" + NatText(-i) else NatText(i)
  }

  /** `items.join(sep)` / `sep.join(items)`. */
  function Join(sep: string, items: seq<string>): string {
    if |items| == 0 then ""
    else if |items| == 1 then items[0]
    else items[0] + sep + Join(sep, items[1..])
  }

  // ---------------------------------------------------------------------------------------
  // The orders property names are sorted in

  /** JavaScript's default `sort()` compares the strings' UTF-16 code units; Python's
      `sorted` compares their code points. The two differ once a character lies beyond the
      Basic Multilingual Plane: its leading surrogate (0xD800..0xDBFF) sorts before
      0xE000..0xFFFF. */
  datatype Collation = CodeUnits | CodePoints

  /** The UTF-16 code units of one character (a Unicode scalar value). */
  function Utf16Units(c: char): (u: seq<int>)
    ensures |u| == 1 || |u| == 2
    ensures |u| == 2 <==> 0xD800 <= u[0] < 0xDC00
    ensures |u| == 1 ==> u[0] == c as int
  {
    if c as int < 0x1_0000 then [c as int]
    else
      var v := c as int - 0x1_0000;
      [0xD800 + v / 0x400, 0xDC00 + v % 0x400]
  }

  /** The UTF-16 encoding of a string: how a JavaScript string holds it. */
  function Utf16(s: string): seq<int> {
    if s == [] then [] else Utf16Units(s[0]) + Utf16(s[1..])
  }

  function CodePointsOf(s: string): (r: seq<int>)
    ensures |r| == |s| && forall i :: 0 <= i < |s| ==> r[i] == s[i] as int
  {
    seq(|s|, i requires 0 <= i < |s| => s[i] as int)
  }

  /** The sequence of numbers a collation compares. */
  function Encode(o: Collation, s: string): seq<int> {
    match o
    case CodeUnits => Utf16(s)
    case CodePoints => CodePointsOf(s)
  }

  /** Lexicographic order on number sequences (a proper prefix comes first). */
  predicate LexLess(a: seq<int>, b: seq<int>)
    decreases |a|
  {
    if |b| == 0 then false
    else if |a| == 0 then true
    else if a[0] != b[0] then a[0] < b[0]
    else LexLess(a[1..], b[1..])
  }

  /** `a` sorts strictly before `b` under collation `o`. */
  predicate Less(o: Collation, a: string, b: string) {
    LexLess(Encode(o, a), Encode(o, b))
  }

  lemma {:induction false} LexIrreflexive(a: seq<int>)
    ensures !LexLess(a, a)
    decreases |a|
  {
    if |a| > 0 { LexIrreflexive(a[1..]); }
  }

  lemma {:induction false} LexAsymmetric(a: seq<int>, b: seq<int>)
    requires LexLess(a, b)
    ensures !LexLess(b, a)
    decreases |a|
  {
    if |a| > 0 && |b| > 0 && a[0] == b[0] { LexAsymmetric(a[1..], b[1..]); }
  }

  lemma {:induction false} LexTransitive(a: seq<int>, b: seq<int>, c: seq<int>)
    requires LexLess(a, b) && LexLess(b, c)
    ensures LexLess(a, c)
    decreases |a|
  {
    if |a| > 0 && a[0] == b[0] && b[0] == c[0] { LexTransitive(a[1..], b[1..], c[1..]); }
  }

  lemma {:induction false} LexTotal(a: seq<int>, b: seq<int>)
    requires a != b
    ensures LexLess(a, b) || LexLess(b, a)
    decreases |a|
  {
    if |a| > 0 && |b| > 0 && a[0] == b[0] {
      assert a == [a[0]] + a[1..] && b == [b[0]] + b[1..];
      LexTotal(a[1..], b[1..]);
    }
  }

  /** One character's code units determine the character. */
  lemma Utf16UnitsInjective(c: char, d: char)
    requires Utf16Units(c) == Utf16Units(d)
    ensures c == d
  {
    if c as int >= 0x1_0000 {
      var v, w := c as int - 0x1_0000, d as int - 0x1_0000;
      assert v / 0x400 == w / 0x400 && v % 0x400 == w % 0x400;
      assert v == 0x400 * (v / 0x400) + v % 0x400;
      assert w == 0x400 * (w / 0x400) + w % 0x400;
    }
  }

  /** UTF-16 is uniquely decodable: the first unit says how many units the first character
      takes. */
  lemma {:induction false} Utf16Injective(a: string, b: string)
    requires Utf16(a) == Utf16(b)
    ensures a == b
    decreases |a|
  {
    if a == [] || b == [] {
    } else {
      var ua, ub := Utf16Units(a[0]), Utf16Units(b[0]);
      assert Utf16(a) == ua + Utf16(a[1..]) && Utf16(b) == ub + Utf16(b[1..]);
      assert ua[0] == Utf16(a)[0] == ub[0];
      assert |ua| == |ub|;
      assert ua == Utf16(a)[..|ua|] && ub == Utf16(b)[..|ub|];
      Utf16UnitsInjective(a[0], b[0]);
      assert Utf16(a[1..]) == Utf16(a)[|ua|..] && Utf16(b[1..]) == Utf16(b)[|ub|..];
      Utf16Injective(a[1..], b[1..]);
      assert a == [a[0]] + a[1..] && b == [b[0]] + b[1..];
    }
  }

  /** Different strings have different encodings under either collation. */
  lemma EncodeInjective(o: Collation, a: string, b: string)
    requires Encode(o, a) == Encode(o, b)
    ensures a == b
  {
    match o
    case CodeUnits => Utf16Injective(a, b);
    case CodePoints =>
      assert |a| == |b|;
      forall i | 0 <= i < |a| ensures a[i] == b[i] {
        assert CodePointsOf(a)[i] == CodePointsOf(b)[i];
      }
  }

  lemma LessIrreflexive(o: Collation, a: string)
    ensures !Less(o, a, a)
  {
    LexIrreflexive(Encode(o, a));
  }

  lemma LessAsymmetric(o: Collation, a: string, b: string)
    requires Less(o, a, b)
    ensures !Less(o, b, a)
  {
    LexAsymmetric(Encode(o, a), Encode(o, b));
  }

  lemma LessTransitive(o: Collation, a: string, b: string, c: string)
    requires Less(o, a, b) && Less(o, b, c)
    ensures Less(o, a, c)
  {
    LexTransitive(Encode(o, a), Encode(o, b), Encode(o, c));
  }

  /** Either collation orders any two different strings. */
  lemma LessTotal(o: Collation, a: string, b: string)
    requires a != b
    ensures Less(o, a, b) || Less(o, b, a)
  {
    if Encode(o, a) == Encode(o, b) { EncodeInjective(o, a, b); }
    LexTotal(Encode(o, a), Encode(o, b));
  }

  /** `!Less(o, b, a)` is a total preorder: if a <= b <= c then a <= c. */
  lemma NotLessTransitive(o: Collation, a: string, b: string, c: string)
    requires !Less(o, b, a) && !Less(o, c, b)
    ensures !Less(o, c, a)
  {
    if a != b && b != c {
      LessTotal(o, a, b);
      LessTotal(o, b, c);
      LessTransitive(o, a, b, c);
      LessAsymmetric(o, a, c);
    }
  }

  /** The two collations disagree: U+FF61 comes before U+1F600 by code point, after it by
      code unit (0xFF61 against the leading surrogate 0xD83D). */
  lemma CollationsDiffer()
    ensures Less(CodePoints, "\U{FF61}", "\U{1F600}")
    ensures Less(CodeUnits, "\U{1F600}", "\U{FF61}")
  {
    assert Utf16("\U{1F600}") == [0xD83D, 0xDE00];
    assert Utf16("\U{FF61}") == [0xFF61];
  }
}
