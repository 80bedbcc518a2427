/**
 `JSON.stringify` on an array of strings, used as a map key. The key reads back as the array,
 so two arrays have the same key only if they are the same, whatever quotes, backslashes,
 control characters or lone surrogates they hold.
 */
module JsonKeys {
  import opened Wrappers
  import opened JsStrings

  const QUOTE: Unit16 := 34
  const COMMA: Unit16 := 44
  const OPEN: Unit16 := 91
  const BACKSLASH: Unit16 := 92
  const CLOSE: Unit16 := 93
  const LETTER_U: Unit16 := 117

  /** A hexadecimal digit in lower case. */
  function Hex(n: int): (u: Unit16)
    requires 0 <= n < 16
  {
    (if n < 10 then 48 + n else 87 + n) as Unit16
  }

  function Hex4(u: Unit16): JsString {
    var n := u as int;
    [BACKSLASH, LETTER_U, Hex(n / 16 / 16 / 16), Hex(n / 16 / 16 % 16), Hex(n / 16 % 16), Hex(n % 16)]
  }

  /** The letter of a two-unit escape, if the unit has one. */
  function Letter(u: Unit16): (l: Unit16)
    ensures l != LETTER_U
  {
    if u == QUOTE || u == BACKSLASH then u
    else if u == 8 then 98
    else if u == 9 then 116
    else if u == 10 then 110
    else if u == 12 then 102
    else if u == 13 then 114
    else 0
  }

  /** What stands for a unit that is not half of a surrogate pair. */
  function Escape(u: Unit16): (s: JsString)
    ensures s != [] && s[0] != QUOTE && !IsHigh(s[0])
  {
    if Letter(u) != 0 then [BACKSLASH, Letter(u)]
    else if u < 0x20 || IsHigh(u) || IsLow(u) then Hex4(u)
    else [u]
  }

  predicate Paired(s: JsString) { |s| >= 2 && IsHigh(s[0]) && IsLow(s[1]) }

  /** The text of a quoted string after its opening quote, followed by `tail`. */
  function Body(s: JsString, tail: JsString): JsString {
    if s == [] then [QUOTE] + tail
    else if Paired(s) then s[..2] + Body(s[2..], tail)
    else Escape(s[0]) + Body(s[1..], tail)
  }

  function Quote(s: JsString, tail: JsString): JsString { [QUOTE] + Body(s, tail) }

  /** The text after one element: further elements, then the closing bracket. */
  function Rest(xs: seq<JsString>): JsString {
    if xs == [] then [CLOSE] else [COMMA] + Quote(xs[0], Rest(xs[1..]))
  }

  function Stringify(xs: seq<JsString>): JsString {
    if xs == [] then [OPEN, CLOSE] else [OPEN] + Quote(xs[0], Rest(xs[1..]))
  }

  // ---------------------------------------------------------------- the grammar of RFC 8259

  function HexValue(u: Unit16): (n: int)
    ensures -1 <= n < 16
  {
    if '0' as Unit16 <= u <= '9' as Unit16 then (u - '0' as Unit16) as int
    else if 'a' as Unit16 <= u <= 'f' as Unit16 then (u - 'a' as Unit16) as int + 10
    else if 'A' as Unit16 <= u <= 'F' as Unit16 then (u - 'A' as Unit16) as int + 10
    else -1
  }

  /** The four hexadecimal digits after `\u`. */
  function ReadHex4(s: JsString): Option<Unit16>
    requires |s| >= 4
  {
    var a, b, c, d := HexValue(s[0]), HexValue(s[1]), HexValue(s[2]), HexValue(s[3]);
    if a < 0 || b < 0 || c < 0 || d < 0 then None
    else Some((((a * 16 + b) * 16 + c) * 16 + d) as Unit16)
  }

  /** What a letter after a backslash stands for. */
  function ReadLetter(u: Unit16): Option<Unit16> {
    if u == '"' as Unit16 || u == '\\' as Unit16 || u == '/' as Unit16 then Some(u)
    else if u == 'b' as Unit16 then Some(8)
    else if u == 'f' as Unit16 then Some(12)
    else if u == 'n' as Unit16 then Some(10)
    else if u == 'r' as Unit16 then Some(13)
    else if u == 't' as Unit16 then Some(9)
    else None
  }

  /** One unit of a quoted string and what follows it. */
  function ReadUnit(s: JsString): (r: Option<(Unit16, JsString)>)
    ensures r.Some? ==> |r.value.1| < |s|
  {
    if s == [] || s[0] < 0x20 || s[0] == '"' as Unit16 then None
    else if s[0] != '\\' as Unit16 then Some((s[0], s[1..]))
    else if |s| >= 6 && s[1] == 'u' as Unit16 then
      match ReadHex4(s[2..6]) case None => None case Some(u) => Some((u, s[6..]))
    else if |s| >= 2 then
      match ReadLetter(s[1]) case None => None case Some(u) => Some((u, s[2..]))
    else None
  }

  /** A string up to its closing quote, and what follows it. */
  function ReadBody(s: JsString): (r: Option<(JsString, JsString)>)
    ensures r.Some? ==> |r.value.1| < |s|
    decreases |s|
  {
    if s != [] && s[0] == '"' as Unit16 then Some(([], s[1..]))
    else match ReadUnit(s)
      case None => None
      case Some((u, more)) =>
        match ReadBody(more) case None => None case Some((a, tail)) => Some(([u] + a, tail))
  }

  /** A quoted string, what separates it from the next, and so on to the closing bracket. */
  function ReadItems(s: JsString): Option<seq<JsString>>
    decreases |s|
  {
    if s == [] || s[0] != '"' as Unit16 then None
    else match ReadBody(s[1..])
      case None => None
      case Some((a, tail)) =>
        if tail == [']' as Unit16] then Some([a])
        else if tail == [] || tail[0] != ',' as Unit16 then None
        else match ReadItems(tail[1..]) case None => None case Some(xs) => Some([a] + xs)
  }

  /** An array of strings without white space. */
  function ReadArray(s: JsString): Option<seq<JsString>> {
    if s == ['[' as Unit16, ']' as Unit16] then Some([])
    else if s != [] && s[0] == '[' as Unit16 then ReadItems(s[1..])
    else None
  }

  /** Every high surrogate is followed by a low one, and every low one preceded by a high one. */
  predicate WellFormed(s: JsString) {
    s == [] || (if Paired(s) then WellFormed(s[2..]) else !IsHigh(s[0]) && !IsLow(s[0]) && WellFormed(s[1..]))
  }

  // ---------------------------------------------------------------- reading back

  lemma Hex4ReadsBack(u: Unit16)
    ensures ReadHex4(Hex4(u)[2..]) == Some(u)
  {
    var n := u as int;
    assert n == ((n / 16 / 16 / 16 * 16 + n / 16 / 16 % 16) * 16 + n / 16 % 16) * 16 + n % 16;
  }

  lemma EscapeReadsBack(u: Unit16, x: JsString)
    ensures ReadUnit(Escape(u) + x) == Some((u, x))
  {
    var e := Escape(u);
    assert (e + x)[|e|..] == x;
    if |e| == 6 {
      Hex4ReadsBack(u);
      assert (e + x)[2..6] == Hex4(u)[2..];
    }
  }

  lemma {:induction false} BodyReadsBack(a: JsString, x: JsString)
    ensures ReadBody(Body(a, x)) == Some((a, x))
    decreases |a|
  {
    if a == [] {
      assert Body(a, x)[1..] == x;
    } else if Paired(a) {
      var more := Body(a[2..], x);
      BodyReadsBack(a[2..], x);
      assert Body(a, x)[1..] == [a[1]] + more && ([a[1]] + more)[1..] == more;
      assert ReadBody([a[1]] + more) == Some(([a[1]] + a[2..], x));
      assert a == [a[0]] + ([a[1]] + a[2..]);
    } else {
      BodyReadsBack(a[1..], x);
      EscapeReadsBack(a[0], Body(a[1..], x));
      assert a == [a[0]] + a[1..];
    }
  }

  lemma {:induction false} ItemsReadBack(xs: seq<JsString>)
    requires xs != []
    ensures ReadItems(Quote(xs[0], Rest(xs[1..]))) == Some(xs)
  {
    var tail := Rest(xs[1..]);
    var s := Quote(xs[0], tail);
    assert s[1..] == Body(xs[0], tail);
    BodyReadsBack(xs[0], tail);
    if xs[1..] == [] {
      assert xs == [xs[0]];
    } else {
      ItemsReadBack(xs[1..]);
      assert tail[1..] == Quote(xs[1..][0], Rest(xs[1..][1..]));
      assert xs == [xs[0]] + xs[1..];
    }
  }

  /** The key is a JSON text that reads back as the array. */
  lemma StringifyReadsBack(xs: seq<JsString>)
    ensures ReadArray(Stringify(xs)) == Some(xs)
  {
    if xs != [] {
      assert Stringify(xs)[1..] == Quote(xs[0], Rest(xs[1..]));
      ItemsReadBack(xs);
    }
  }

  /** So keys are equal exactly when the arrays are. */
  lemma StringifyDistinct(xs: seq<JsString>, ys: seq<JsString>)
    ensures Stringify(xs) == Stringify(ys) <==> xs == ys
  {
    StringifyReadsBack(xs);
    StringifyReadsBack(ys);
  }

  // ---------------------------------------------------------------- lone surrogates

  lemma {:induction false} PlainThenWellFormed(s: JsString, x: JsString)
    requires WellFormed(x) && forall u <- s :: !IsHigh(u) && !IsLow(u)
    ensures WellFormed(s + x)
  {
    if s == [] {
      assert s + x == x;
    } else {
      PlainThenWellFormed(s[1..], x);
      assert (s + x)[1..] == s[1..] + x && (s + x)[0] == s[0];
    }
  }

  lemma {:induction false} BodyIsWellFormed(a: JsString, x: JsString)
    requires WellFormed(x)
    ensures WellFormed(Body(a, x))
    decreases |a|
  {
    if a == [] {
      PlainThenWellFormed([QUOTE], x);
    } else if Paired(a) {
      BodyIsWellFormed(a[2..], x);
      assert Body(a, x)[2..] == Body(a[2..], x);
    } else {
      BodyIsWellFormed(a[1..], x);
      PlainThenWellFormed(Escape(a[0]), Body(a[1..], x));
    }
  }

  lemma OneMore(u: Unit16, x: JsString)
    requires WellFormed(x) && !IsHigh(u) && !IsLow(u)
    ensures WellFormed([u] + x)
  {
    assert ([u] + x)[1..] == x;
  }

  lemma QuoteIsWellFormed(a: JsString, x: JsString)
    requires WellFormed(x)
    ensures WellFormed(Quote(a, x))
  {
    BodyIsWellFormed(a, x);
    OneMore(QUOTE, Body(a, x));
  }

  lemma {:induction false} RestIsWellFormed(xs: seq<JsString>)
    ensures WellFormed(Rest(xs))
  {
    if xs != [] {
      RestIsWellFormed(xs[1..]);
      QuoteIsWellFormed(xs[0], Rest(xs[1..]));
      OneMore(COMMA, Quote(xs[0], Rest(xs[1..])));
    }
  }

  /** Whatever lone surrogates the strings hold, the key holds none. */
  lemma StringifyIsWellFormed(xs: seq<JsString>)
    ensures WellFormed(Stringify(xs))
  {
    if xs == [] {
      OneMore(CLOSE, []);
      OneMore(OPEN, [CLOSE]);
    } else {
      RestIsWellFormed(xs[1..]);
      QuoteIsWellFormed(xs[0], Rest(xs[1..]));
      OneMore(OPEN, Quote(xs[0], Rest(xs[1..])));
    }
  }
}
