/** JavaScript strings: sequences of UTF-16 code units, with or without lone surrogates. */
module JsStrings {

  /** A UTF-16 code unit; JavaScript strings compare unit by unit. */
  newtype Unit16 = x: int | 0 <= x < 0x1_0000

  type JsString = seq<Unit16>

  predicate IsHigh(u: Unit16) { 0xD800 <= u < 0xDC00 }

  predicate IsLow(u: Unit16) { 0xDC00 <= u < 0xE000 }

  /** The code units of one character. */
  function UnitsOf(c: char): (s: JsString)
    ensures |s| == 1 || |s| == 2
    ensures |s| == 2 ==> IsHigh(s[0]) && IsLow(s[1])
    ensures |s| == 1 ==> !IsHigh(s[0]) && !IsLow(s[0])
  {
    var code := c as int;
    if code < 0x1_0000 then [code as Unit16]
    else [(0xD800 + (code - 0x1_0000) / 0x400) as Unit16, (0xDC00 + (code - 0x1_0000) % 0x400) as Unit16]
  }

  /** A text as JavaScript holds it. */
  function Units(s: string): JsString {
    if s == [] then [] else UnitsOf(s[0]) + Units(s[1..])
  }

  lemma UnitsOfDistinct(c: char, d: char)
    requires UnitsOf(c) == UnitsOf(d)
    ensures c == d
  {
    var x, y := c as int - 0x1_0000, d as int - 0x1_0000;
    if |UnitsOf(c)| == 2 {
      assert UnitsOf(c)[0] == UnitsOf(d)[0] && UnitsOf(c)[1] == UnitsOf(d)[1];
      assert x / 0x400 == y / 0x400 && x % 0x400 == y % 0x400;
    } else {
      assert UnitsOf(c)[0] == UnitsOf(d)[0];
    }
  }

  /** Different texts have different code units. */
  lemma {:induction false} UnitsDistinct(s: string, t: string)
    ensures Units(s) == Units(t) <==> s == t
  {
    if s != [] && t != [] && Units(s) == Units(t) {
      var a, b := UnitsOf(s[0]), UnitsOf(t[0]);
      assert Units(s)[0] == a[0] && Units(t)[0] == b[0];
      assert |a| == |b|;
      assert a == Units(s)[..|a|] && b == Units(t)[..|b|];
      assert Units(s[1..]) == Units(s)[|a|..] && Units(t[1..]) == Units(t)[|b|..];
      UnitsOfDistinct(s[0], t[0]);
      UnitsDistinct(s[1..], t[1..]);
      assert s == [s[0]] + s[1..] && t == [t[0]] + t[1..];
    }
  }
}
