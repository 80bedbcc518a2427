/**
 Unsigned 64-bit numbers as decimal strings: validated, compared and incremented without
 ever being turned into a number.
 */
module Decimals {
  import opened Collections

  const MAX_UNSIGNED_64 := "18446744073709551615"
  const TWO_TO_THE_64 := 0x1_0000_0000_0000_0000

  // ---------------------------------------------------------------- what a decimal string means

  predicate IsDigit(c: char) { '0' <= c <= '9' }

  predicate Digits(s: string) { forall c <- s :: IsDigit(c) }

  function DigitValue(c: char): (d: nat)
    requires IsDigit(c)
    ensures d < 10
  {
    (c - '0') as nat
  }

  function Digit(d: nat): (c: char)
    requires d < 10
    ensures IsDigit(c) && DigitValue(c) == d
  {
    '0' + d as char
  }

  function Value(s: string): nat
    requires Digits(s)
  {
    if s == [] then 0 else 10 * Value(s[..|s| - 1]) + DigitValue(s[|s| - 1])
  }

  /** The usual rendering of a number: no sign, no leading zeros. */
  function Render(n: nat): (s: string)
    ensures s != [] && Digits(s)
  {
    if n < 10 then [Digit(n)] else Render(n / 10) + [Digit(n % 10)]
  }

  function Pow10(k: nat): (p: nat)
    ensures p >= 1
  {
    if k == 0 then 1 else 10 * Pow10(k - 1)
  }

  /** `/^(0|[1-9][0-9]*)$/` */
  predicate Canonical(s: string) {
    s != [] && Digits(s) && (s[0] == '0' ==> |s| == 1)
  }

  lemma {:induction false} RenderCanonical(n: nat)
    ensures Canonical(Render(n)) && Value(Render(n)) == n && (n > 0 ==> Render(n)[0] != '0')
  {
    if n >= 10 {
      RenderCanonical(n / 10);
      var s := Render(n / 10) + [Digit(n % 10)];
      assert s[..|s| - 1] == Render(n / 10) && s[0] == Render(n / 10)[0];
    }
  }

  lemma DigitOfValue(c: char)
    requires IsDigit(c)
    ensures Digit(DigitValue(c)) == c
  {
  }

  lemma PushDigit(n: nat, d: nat)
    requires n >= 1 && d < 10
    ensures Render(10 * n + d) == Render(n) + [Digit(d)]
  {
    assert (10 * n + d) / 10 == n && (10 * n + d) % 10 == d;
  }

  lemma {:induction false} CanonicalRenders(s: string)
    requires Canonical(s)
    ensures Render(Value(s)) == s && (s[0] != '0' ==> Value(s) > 0)
  {
    var init, last := s[..|s| - 1], s[|s| - 1];
    DigitOfValue(last);
    if |s| == 1 {
      assert Value(init) == 0 && s == [last];
    } else {
      assert s == init + [last] && init[0] == s[0];
      CanonicalRenders(init);
      PushDigit(Value(init), DigitValue(last));
    }
  }

  /** Leading digit first. */
  lemma {:induction false} ValueFromFront(s: string)
    requires s != [] && Digits(s)
    ensures Value(s) == DigitValue(s[0]) * Pow10(|s| - 1) + Value(s[1..])
  {
    if |s| == 1 {
      assert s[..0] == [] && s[1..] == [];
    } else {
      var init := s[..|s| - 1];
      ValueFromFront(init);
      assert init[1..] == s[1..][..|s| - 2];
      assert s[1..][|s| - 2] == s[|s| - 1];
      FrontStep(DigitValue(s[0]), Pow10(|s| - 2), Value(init[1..]), DigitValue(s[|s| - 1]));
    }
  }

  lemma FrontStep(d: nat, p: nat, rest: nat, last: nat)
    ensures 10 * (d * p + rest) + last == d * (10 * p) + (10 * rest + last)
  {
  }

  lemma {:induction false} ValueBound(s: string)
    requires Digits(s)
    ensures Value(s) < Pow10(|s|)
  {
    if s != [] { ValueBound(s[..|s| - 1]); }
  }

  // ---------------------------------------------------------------- string order

  lemma {:induction false} LessIsNumeric(a: string, b: string)
    requires Digits(a) && Digits(b) && |a| == |b|
    ensures StrLess(a, b) <==> Value(a) < Value(b)
    ensures a == b <==> Value(a) == Value(b)
  {
    if a != [] {
      ValueFromFront(a);
      ValueFromFront(b);
      ValueBound(a[1..]);
      ValueBound(b[1..]);
      LessIsNumeric(a[1..], b[1..]);
      assert a == [a[0]] + a[1..] && b == [b[0]] + b[1..];
      if a[0] < b[0] {
        HigherDigitWins(DigitValue(a[0]), DigitValue(b[0]), Pow10(|a| - 1), Value(a[1..]), Value(b[1..]));
      } else if b[0] < a[0] {
        HigherDigitWins(DigitValue(b[0]), DigitValue(a[0]), Pow10(|a| - 1), Value(b[1..]), Value(a[1..]));
      }
    }
  }

  lemma HigherDigitWins(d: nat, e: nat, p: nat, x: nat, y: nat)
    requires d < e && x < p
    ensures d * p + x < e * p + y
  {
    assert (d + 1) * p <= e * p;
    assert (d + 1) * p == d * p + p;
  }

  lemma AtLeastOnce(d: nat, p: nat)
    requires d >= 1
    ensures d * p >= p
  {
  }

  lemma {:induction false} LongerIsGreater(a: string, b: string)
    requires Canonical(a) && Canonical(b) && |a| < |b|
    ensures Value(a) < Value(b)
  {
    ValueBound(a);
    ValueFromFront(b);
    Pow10Grows(|a|, |b| - 1);
    AtLeastOnce(DigitValue(b[0]), Pow10(|b| - 1));
  }

  lemma {:induction false} Pow10Grows(j: nat, k: nat)
    requires j <= k
    ensures Pow10(j) <= Pow10(k)
  {
    if j < k { Pow10Grows(j, k - 1); }
  }

  // ---------------------------------------------------------------- the client's operations

  predicate CanonicalDecimal(s: string) {
    && Canonical(s)
    && |s| <= |MAX_UNSIGNED_64|
    && !(|s| == |MAX_UNSIGNED_64| && StrLess(MAX_UNSIGNED_64, s))
  }

  function CompareDecimal(left: string, right: string): int {
    if |left| != |right| then (if |left| < |right| then -1 else 1)
    else if left == right then 0 else if StrLess(left, right) then -1 else 1
  }

  function Sign(a: int, b: int): int { if a < b then -1 else if a == b then 0 else 1 }

  lemma {:induction false} CompareIsNumeric(left: string, right: string)
    requires Canonical(left) && Canonical(right)
    ensures CompareDecimal(left, right) == Sign(Value(left), Value(right))
  {
    if |left| < |right| {
      LongerIsGreater(left, right);
    } else if |right| < |left| {
      LongerIsGreater(right, left);
    } else {
      LessIsNumeric(left, right);
    }
  }

  lemma {:induction false} ValueOfConcat(a: string, b: string)
    requires Digits(a) && Digits(b)
    ensures Value(a + b) == Value(a) * Pow10(|b|) + Value(b)
  {
    if b == [] {
      assert a + b == a;
    } else {
      var init, last := b[..|b| - 1], b[|b| - 1];
      assert (a + b)[..|a + b| - 1] == a + init;
      ValueOfConcat(a, init);
      assert Value(a + b) == 10 * Value(a + init) + DigitValue(last);
      ShiftStep(Value(a), Pow10(|init|), Value(init), DigitValue(last));
    }
  }

  lemma ShiftStep(v: nat, p: nat, rest: nat, last: nat)
    ensures 10 * (v * p + rest) + last == v * (10 * p) + (10 * rest + last)
  {
  }

  lemma AppendFive(a: string, b: string)
    requires Canonical(a) && a[0] != '0' && Digits(b) && |b| == 5
    ensures Canonical(a + b) && (a + b)[0] != '0' && Value(a + b) == 100000 * Value(a) + Value(b)
  {
    ValueOfConcat(a, b);
    assert Pow10(2) == 100;
    assert Pow10(5) == 100000;
  }

  lemma RenderFive(n: nat, a: nat, b: nat, c: nat, d: nat, e: nat)
    requires 1 <= a < 10 && b < 10 && c < 10 && d < 10 && e < 10
    requires n == 10 * (10 * (10 * (10 * a + b) + c) + d) + e
    ensures Render(n) == [Digit(a), Digit(b), Digit(c), Digit(d), Digit(e)]
  {
    PushDigit(a, b);
    var n2 := 10 * a + b;
    PushDigit(n2, c);
    var n3 := 10 * n2 + c;
    PushDigit(n3, d);
    PushDigit(10 * n3 + d, e);
  }

  lemma FourFives(a: nat, b: nat, c: nat, d: nat)
    requires |Render(a)| == |Render(b)| == |Render(c)| == |Render(d)| == 5 && a > 0
    ensures var s := Render(a) + Render(b) + Render(c) + Render(d);
            Canonical(s) && Value(s) == 100000 * (100000 * (100000 * a + b) + c) + d
  {
    RenderCanonical(a);
    RenderCanonical(b);
    RenderCanonical(c);
    RenderCanonical(d);
    AppendFive(Render(a), Render(b));
    AppendFive(Render(a) + Render(b), Render(c));
    AppendFive(Render(a) + Render(b) + Render(c), Render(d));
  }

  lemma MaximumChunks(a: nat, b: nat, c: nat, d: nat)
    requires a == 18446 && b == 74407 && c == 37095 && d == 51615
    ensures Render(a) == "18446" && Render(b) == "74407" && Render(c) == "37095" && Render(d) == "51615"
  {
    RenderFive(a, 1, 8, 4, 4, 6);
    RenderFive(b, 7, 4, 4, 0, 7);
    RenderFive(c, 3, 7, 0, 9, 5);
    RenderFive(d, 5, 1, 6, 1, 5);
  }

  lemma MaximumDigits(a: nat, b: nat, c: nat, d: nat)
    requires a == 18446 && b == 74407 && c == 37095 && d == 51615
    ensures |Render(a)| == |Render(b)| == |Render(c)| == |Render(d)| == 5
    ensures Render(a) + Render(b) + Render(c) + Render(d) == MAX_UNSIGNED_64
  {
    var w, x, y, z := Render(a), Render(b), Render(c), Render(d);
    assert w == "18446" && x == "74407" && y == "37095" && z == "51615" by { MaximumChunks(a, b, c, d); }
    ChunksJoin(w, x, y, z);
  }

  lemma ChunksJoin(a: string, b: string, c: string, d: string)
    requires a == "18446" && b == "74407" && c == "37095" && d == "51615"
    ensures |a| == |b| == |c| == |d| == 5 && a + b + c + d == MAX_UNSIGNED_64
  {
  }

  lemma MaximumValue(max: string)
    requires max == MAX_UNSIGNED_64
    ensures Canonical(max) && Value(max) == TWO_TO_THE_64 - 1
  {
    var a, b, c, d: nat :| a == 18446 && b == 74407 && c == 37095 && d == 51615;
    MaximumDigits(a, b, c, d);
    FourFives(a, b, c, d);
  }

  /** Among canonical strings, the accepted ones are those below two to the 64. */
  lemma CanonicalDecimalBound(s: string)
    requires Canonical(s)
    ensures CanonicalDecimal(s) <==> Value(s) < TWO_TO_THE_64
  {
    MaximumValue(MAX_UNSIGNED_64);
    BoundBy(MAX_UNSIGNED_64, s);
  }

  lemma BoundBy(max: string, s: string)
    requires Canonical(max) && Canonical(s)
    ensures |s| <= |max| && !(|s| == |max| && StrLess(max, s)) <==> Value(s) <= Value(max)
  {
    CompareIsNumeric(max, s);
    if |s| == |max| { LessIsNumeric(max, s); }
  }

  /** Exactly the renderings of the unsigned 64-bit numbers are accepted. */
  lemma CanonicalDecimalExact(s: string)
    ensures CanonicalDecimal(s) <==> exists n :: 0 <= n < TWO_TO_THE_64 && s == Render(n)
  {
    if CanonicalDecimal(s) {
      CanonicalRenders(s);
      CanonicalDecimalBound(s);
    }
    forall n | 0 <= n < TWO_TO_THE_64 && s == Render(n) ensures CanonicalDecimal(s) {
      RenderCanonical(n);
      CanonicalDecimalBound(s);
    }
  }

  /** Renderings compare as the numbers do. */
  lemma RenderedOrder(a: nat, b: nat)
    ensures CompareDecimal(Render(a), Render(b)) == Sign(a, b)
  {
    RenderCanonical(a);
    RenderCanonical(b);
    CompareIsNumeric(Render(a), Render(b));
  }

  // ---------------------------------------------------------------- increment

  function Increment(s: string): string
    requires Digits(s)
  {
    if s == [] then "1" else
    var init, last := s[..|s| - 1], s[|s| - 1];
    if last == '9' then Increment(init) + "0" else init + [Digit(DigitValue(last) + 1)]
  }

  lemma {:induction false} IncrementValue(s: string)
    requires Digits(s)
    ensures Digits(Increment(s)) && Value(Increment(s)) == Value(s) + 1
  {
    var r := Increment(s);
    if s == [] {
      assert r[..0] == [];
    } else {
      var init := s[..|s| - 1];
      IncrementValue(init);
      assert r[..|r| - 1] == if s[|s| - 1] == '9' then Increment(init) else init;
    }
  }

  lemma {:induction false} IncrementCanonical(s: string)
    requires Canonical(s)
    ensures Canonical(Increment(s)) && Increment(s)[0] != '0'
  {
    var init := s[..|s| - 1];
    if init != [] {
      assert init[0] == s[0];
      if s[|s| - 1] == '9' { IncrementCanonical(init); }
    }
  }

  lemma SuccessorOf(s: string)
    requires Canonical(s)
    ensures Increment(s) == Render(Value(s) + 1)
    ensures CanonicalDecimal(Increment(s)) <==> Value(s) + 1 < TWO_TO_THE_64
  {
    IncrementCanonical(s);
    IncrementValue(s);
    CanonicalRenders(Increment(s));
    CanonicalDecimalBound(Increment(s));
  }

  /** Incrementing a rendering renders the successor; the result is accepted unless it overflows 64 bits. */
  lemma IncrementIsSuccessor(n: nat)
    ensures Increment(Render(n)) == Render(n + 1)
    ensures CanonicalDecimal(Increment(Render(n))) <==> n + 1 < TWO_TO_THE_64
  {
    RenderCanonical(n);
    SuccessorOf(Render(n));
  }

  /** What one turn of the loop does to the digits it has not passed. */
  lemma CarryStep(init: string, last: char, done: string)
    requires Digits(init) && IsDigit(last)
    ensures Increment(init + [last]) + done
         == if last == '9' then Increment(init) + ("0" + done)
            else init + [Digit(DigitValue(last) + 1)] + done
  {
    assert (init + [last])[..|init|] == init;
    if last == '9' { assert Increment(init) + "0" + done == Increment(init) + ("0" + done); }
  }

  /** Digits from `index` on are settled, and `carry` says whether those before it still grow. */
  ghost predicate Carried(value: string, digits: string, index: nat, carry: bool) {
    && Digits(value) && index <= |value| == |digits| && digits[..index] == value[..index]
    && Increment(value) == if carry then Increment(value[..index]) + digits[index..] else digits
  }

  lemma CarryTurn(value: string, digits: string, index: nat)
    requires 0 < index && Carried(value, digits, index, true)
    ensures IsDigit(digits[index - 1])
    ensures digits[index - 1] == '9' ==> Carried(value, digits[index - 1 := '0'], index - 1, true)
    ensures digits[index - 1] != '9' ==>
              Carried(value, digits[index - 1 := Digit(DigitValue(digits[index - 1]) + 1)], index - 1, false)
  {
    var digit, done := digits[index - 1], digits[index..];
    assert digit == digits[..index][index - 1] == value[index - 1];
    assert value[..index] == value[..index - 1] + [digit];
    CarryStep(value[..index - 1], digit, done);
    if digit == '9' {
      assert digits[index - 1 := '0'][index - 1..] == "0" + done;
    } else {
      var next := digits[index - 1 := Digit(DigitValue(digit) + 1)];
      assert next == value[..index - 1] + [Digit(DigitValue(digit) + 1)] + done;
    }
  }

  /** The carry loop over an array of digits. */
  method IncrementDigits(value: string) returns (r: string)
    requires Digits(value)
    ensures r == Increment(value)
  {
    var digits := new char[|value|](i requires 0 <= i < |value| => value[i]);
    var carry := true;
    var index := |value|;
    assert digits[..] == value && value[..|value|] == value;
    while index > 0 && carry
      invariant 0 <= index <= |value| && Carried(value, digits[..], index, carry)
    {
      CarryTurn(value, digits[..], index);
      index := index - 1;
      if digits[index] == '9' {
        digits[index] := '0';
      } else {
        digits[index] := Digit(DigitValue(digits[index]) + 1);
        carry := false;
      }
    }
    r := digits[..];
    if carry { r := "1" + r; }
  }
}
