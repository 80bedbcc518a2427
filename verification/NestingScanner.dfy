/**
 The one-pass check on JSON nesting, against the grammar of RFC 8259. Text stands for
 its UTF-8 bytes, one character a byte; no byte of a multi-byte character is ASCII.
 */
module NestingScanner {
  import opened Wrappers

  const MAX_JSON_DEPTH := 24

  // ---------------------------------------------------------------- JSON texts

  /** One piece of a string: section 7 of RFC 8259. */
  datatype Piece =
    | Unescaped(c: char)
    | Escape(c: char)
    | Unicode(a: char, b: char, c: char, d: char)

  datatype Json =
    | Literal(text: string)
    | Str(pieces: seq<Piece>)
    | Array(blank: string, items: seq<Element>)
    | Object(blank: string, members: seq<Member>)

  /** A value with the white space around it. */
  datatype Element = Element(before: string, value: Json, after: string)

  datatype Member = Member(before: string, key: seq<Piece>, between: string, element: Element)

  predicate Blank(s: string) { forall c <- s :: c in " \t\n\r" }

  predicate IsHex(c: char) { c in "0123456789abcdefABCDEF" }

  predicate ValidPiece(p: Piece) {
    match p
    case Unescaped(c) => c != '"' && c != '\\'
    case Escape(c) => c in "\"\\/bfnrt"
    case Unicode(a, b, c, d) => IsHex(a) && IsHex(b) && IsHex(c) && IsHex(d)
  }

  predicate ValidString(pieces: seq<Piece>) { forall p <- pieces :: ValidPiece(p) }

  /** Numbers and the three names are made of these characters. */
  predicate ValidLiteral(s: string) { forall c <- s :: c in "+-.0123456789Eaeflnrstu" }

  predicate ValidJson(v: Json) {
    match v
    case Literal(text) => ValidLiteral(text)
    case Str(pieces) => ValidString(pieces)
    case Array(blank, items) => Blank(blank) && forall e <- items :: ValidElement(e)
    case Object(blank, members) => Blank(blank) && forall m <- members :: ValidMember(m)
  }

  predicate ValidElement(e: Element) { Blank(e.before) && ValidJson(e.value) && Blank(e.after) }

  predicate ValidMember(m: Member) {
    Blank(m.before) && ValidString(m.key) && Blank(m.between) && ValidElement(m.element)
  }

  function RenderPiece(p: Piece): string {
    match p
    case Unescaped(c) => [c]
    case Escape(c) => ['\\', c]
    case Unicode(a, b, c, d) => ['\\', 'u', a, b, c, d]
  }

  function RenderPieces(pieces: seq<Piece>): string {
    if pieces == [] then [] else RenderPiece(pieces[0]) + RenderPieces(pieces[1..])
  }

  function RenderString(pieces: seq<Piece>): string { ['"'] + (RenderPieces(pieces) + ['"']) }

  function Render(v: Json): string {
    match v
    case Literal(text) => text
    case Str(pieces) => RenderString(pieces)
    case Array(blank, items) => ['['] + ((if items == [] then blank else RenderItems(items)) + [']'])
    case Object(blank, members) => ['{'] + ((if members == [] then blank else RenderMembers(members)) + ['}'])
  }

  function RenderElement(e: Element): string { e.before + (Render(e.value) + e.after) }

  function RenderItems(items: seq<Element>): string {
    if items == [] then []
    else if |items| == 1 then RenderElement(items[0])
    else RenderElement(items[0]) + ([','] + RenderItems(items[1..]))
  }

  function RenderMember(m: Member): string {
    m.before + (RenderString(m.key) + (m.between + ([':'] + RenderElement(m.element))))
  }

  function RenderMembers(members: seq<Member>): string {
    if members == [] then []
    else if |members| == 1 then RenderMember(members[0])
    else RenderMember(members[0]) + ([','] + RenderMembers(members[1..]))
  }

  function Max(a: nat, b: nat): nat { if a < b then b else a }

  /** How deep brackets nest. */
  function Depth(v: Json): nat {
    match v
    case Literal(_) => 0
    case Str(_) => 0
    case Array(_, items) => 1 + DepthItems(items)
    case Object(_, members) => 1 + DepthMembers(members)
  }

  function DepthItems(items: seq<Element>): nat {
    if items == [] then 0 else Max(Depth(items[0].value), DepthItems(items[1..]))
  }

  function DepthMembers(members: seq<Member>): nat {
    if members == [] then 0 else Max(Depth(members[0].element.value), DepthMembers(members[1..]))
  }

  // ---------------------------------------------------------------- the scan

  datatype State = State(depth: nat, escaped: bool, inString: bool)

  function Step(s: State, c: char): Option<State> {
    if s.inString then
      if s.escaped then Some(s.(escaped := false))
      else if c == '\\' then Some(s.(escaped := true))
      else if c == '"' then Some(s.(inString := false))
      else Some(s)
    else if c == '"' then Some(s.(inString := true))
    else if c == '{' || c == '[' then
      if s.depth + 1 > MAX_JSON_DEPTH then None else Some(s.(depth := s.depth + 1))
    else if c == '}' || c == ']' then Some(s.(depth := if s.depth == 0 then 0 else s.depth - 1))
    else Some(s)
  }

  function Run(s: Option<State>, text: string): Option<State>
    decreases |text|
  {
    if s.None? || text == [] then s else Run(Step(s.value, text[0]), text[1..])
  }

  const START := State(0, false, false)

  /** Reads the input once, left to right; fails on the first bracket too deep. */
  method ValidateJsonNesting(input: string) returns (ok: bool)
    ensures ok <==> Run(Some(START), input).Some?
  {
    var depth: nat, escaped, inString := 0, false, false;
    assert input[0..] == input;
    for i := 0 to |input|
      invariant Run(Some(START), input) == Run(Some(State(depth, escaped, inString)), input[i..])
    {
      var byte := input[i];
      assert input[i..][1..] == input[i + 1..];
      if inString {
        if escaped {
          escaped := false;
        } else if byte == '\\' {
          escaped := true;
        } else if byte == '"' {
          inString := false;
        }
        continue;
      }
      match byte {
        case '"' => inString := true;
        case _ =>
          if byte == '{' || byte == '[' {
            depth := depth + 1;
            if depth > MAX_JSON_DEPTH { return false; }
          } else if byte == '}' || byte == ']' {
            depth := if depth == 0 then 0 else depth - 1;
          }
      }
    }
    return true;
  }

  // ---------------------------------------------------------------- the scan on JSON

  lemma {:induction false} RunConcat(s: Option<State>, a: string, b: string)
    ensures Run(s, a + b) == Run(Run(s, a), b)
    decreases |a|
  {
    if a == [] || s.None? {
      assert a == [] ==> a + b == b;
    } else {
      assert (a + b)[0] == a[0] && (a + b)[1..] == a[1..] + b;
      RunConcat(Step(s.value, a[0]), a[1..], b);
    }
  }

  lemma RunOne(s: State, c: char)
    ensures Run(Some(s), [c]) == Step(s, c)
  {
    assert [c][1..] == [];
  }

  /** No quotes and no brackets. */
  predicate Inert(text: string) {
    forall c <- text :: c != '"' && c != '[' && c != ']' && c != '{' && c != '}'
  }

  lemma LiteralInert(text: string)
    requires ValidLiteral(text)
    ensures Inert(text)
  {
  }

  lemma BlankInert(text: string)
    requires Blank(text)
    ensures Inert(text)
  {
  }

  /** Text without quotes and brackets leaves the scan where it was. */
  lemma {:induction false} RunInert(d: nat, text: string)
    requires Inert(text)
    ensures Run(Some(State(d, false, false)), text) == Some(State(d, false, false))
  {
    if text != [] {
      assert text[0] in text && forall c <- text[1..] :: c in text;
      RunInert(d, text[1..]);
    }
  }

  lemma {:induction false} RunPieces(d: nat, pieces: seq<Piece>)
    requires ValidString(pieces)
    ensures Run(Some(State(d, false, true)), RenderPieces(pieces)) == Some(State(d, false, true))
  {
    if pieces != [] {
      assert pieces[0] in pieces && forall p <- pieces[1..] :: p in pieces;
      RunConcat(Some(State(d, false, true)), RenderPiece(pieces[0]), RenderPieces(pieces[1..]));
      RunPiece(d, pieces[0]);
      RunPieces(d, pieces[1..]);
    }
  }

  lemma RunPiece(d: nat, p: Piece)
    requires ValidPiece(p)
    ensures Run(Some(State(d, false, true)), RenderPiece(p)) == Some(State(d, false, true))
  {
    match p
    case Unescaped(c) => RunInside(d, [c]);
    case Escape(c) => RunEscape(d, c);
    case Unicode(a, b, c, e) =>
      HexInside(a, b, c, e);
      assert RenderPiece(p) == ['\\', 'u'] + [a, b, c, e];
      RunConcat(Some(State(d, false, true)), ['\\', 'u'], [a, b, c, e]);
      RunEscape(d, 'u');
      RunInside(d, [a, b, c, e]);
  }

  lemma RunEscape(d: nat, c: char)
    ensures Run(Some(State(d, false, true)), ['\\', c]) == Some(State(d, false, true))
  {
    assert ['\\', c][1..] == [c];
    RunOne(State(d, true, true), c);
  }

  lemma HexInside(a: char, b: char, c: char, d: char)
    requires IsHex(a) && IsHex(b) && IsHex(c) && IsHex(d)
    ensures forall x <- [a, b, c, d] :: x != '"' && x != '\\'
  {
  }

  lemma {:induction false} RunInside(d: nat, text: string)
    requires forall c <- text :: c != '"' && c != '\\'
    ensures Run(Some(State(d, false, true)), text) == Some(State(d, false, true))
  {
    if text != [] {
      assert text[0] in text && forall c <- text[1..] :: c in text;
      RunInside(d, text[1..]);
    }
  }

  lemma RunString(d: nat, pieces: seq<Piece>)
    requires ValidString(pieces)
    ensures Run(Some(State(d, false, false)), RenderString(pieces)) == Some(State(d, false, false))
  {
    var outside, inside := State(d, false, false), State(d, false, true);
    RunConcat(Some(outside), ['"'], RenderPieces(pieces) + ['"']);
    RunOne(outside, '"');
    RunConcat(Some(inside), RenderPieces(pieces), ['"']);
    RunPieces(d, pieces);
    RunOne(inside, '"');
  }

  /** What the scan makes of a value met at depth `d`, outside any string. */
  ghost function Verdict(d: nat, deep: nat): Option<State> {
    if d + deep <= MAX_JSON_DEPTH then Some(State(d, false, false)) else None
  }

  lemma {:induction false} RunNone(text: string)
    ensures Run(None, text) == None
  {
  }

  lemma RunBlank(d: nat, text: string)
    requires Blank(text)
    ensures Run(Some(State(d, false, false)), text) == Some(State(d, false, false))
  {
    BlankInert(text);
    RunInert(d, text);
  }

  lemma {:induction false} RunValue(d: nat, v: Json)
    requires ValidJson(v) && d <= MAX_JSON_DEPTH
    ensures Run(Some(State(d, false, false)), Render(v)) == Verdict(d, Depth(v))
    decreases v, 0
  {
    match v
    case Literal(text) =>
      LiteralInert(text);
      RunInert(d, text);
    case Str(pieces) => RunString(d, pieces);
    case Array(blank, items) => RunArray(d, blank, items);
    case Object(blank, members) => RunObject(d, blank, members);
  }

  lemma {:induction false} RunArray(d: nat, blank: string, items: seq<Element>)
    requires Blank(blank) && (forall e <- items :: ValidElement(e)) && d <= MAX_JSON_DEPTH
    ensures Run(Some(State(d, false, false)), ['['] + ((if items == [] then blank else RenderItems(items)) + [']']))
         == Verdict(d, 1 + DepthItems(items))
    decreases items, 1
  {
    var inner := if items == [] then blank else RenderItems(items);
    if d + 1 <= MAX_JSON_DEPTH {
      if items == [] { RunBlank(d + 1, blank); } else { RunItems(d + 1, items); }
    }
    RunBracketed(d, '[', inner, ']', DepthItems(items));
  }

  lemma {:induction false} RunObject(d: nat, blank: string, members: seq<Member>)
    requires Blank(blank) && (forall m <- members :: ValidMember(m)) && d <= MAX_JSON_DEPTH
    ensures Run(Some(State(d, false, false)),
                ['{'] + ((if members == [] then blank else RenderMembers(members)) + ['}']))
         == Verdict(d, 1 + DepthMembers(members))
    decreases members, 1
  {
    var inner := if members == [] then blank else RenderMembers(members);
    if d + 1 <= MAX_JSON_DEPTH {
      if members == [] { RunBlank(d + 1, blank); } else { RunMembers(d + 1, members); }
    }
    RunBracketed(d, '{', inner, '}', DepthMembers(members));
  }

  lemma RunBracketed(d: nat, start: char, inner: string, end: char, deep: nat)
    requires (start == '[' && end == ']') || (start == '{' && end == '}')
    requires d + 1 <= MAX_JSON_DEPTH ==> Run(Some(State(d + 1, false, false)), inner) == Verdict(d + 1, deep)
    ensures Run(Some(State(d, false, false)), [start] + (inner + [end])) == Verdict(d, 1 + deep)
  {
    var outside := State(d, false, false);
    RunConcat(Some(outside), [start], inner + [end]);
    RunOne(outside, start);
    if d + 1 <= MAX_JSON_DEPTH {
      RunConcat(Some(State(d + 1, false, false)), inner, [end]);
      RunOne(State(d + 1, false, false), end);
      RunNone([end]);
    } else {
      RunNone(inner + [end]);
    }
  }

  lemma {:induction false} RunElement(d: nat, e: Element)
    requires ValidElement(e) && d <= MAX_JSON_DEPTH
    ensures Run(Some(State(d, false, false)), RenderElement(e)) == Verdict(d, Depth(e.value))
    decreases e, 0
  {
    var outside := Some(State(d, false, false));
    RunConcat(outside, e.before, Render(e.value) + e.after);
    RunBlank(d, e.before);
    RunConcat(outside, Render(e.value), e.after);
    RunValue(d, e.value);
    if d + Depth(e.value) <= MAX_JSON_DEPTH { RunBlank(d, e.after); } else { RunNone(e.after); }
  }

  lemma {:induction false} RunItems(d: nat, items: seq<Element>)
    requires items != [] && (forall e <- items :: ValidElement(e)) && d <= MAX_JSON_DEPTH
    ensures Run(Some(State(d, false, false)), RenderItems(items)) == Verdict(d, DepthItems(items))
    decreases items, 0
  {
    assert items[0] in items && forall e <- items[1..] :: e in items;
    RunElement(d, items[0]);
    if |items| > 1 {
      RunItems(d, items[1..]);
      RunSeparated(d, RenderElement(items[0]), Depth(items[0].value), RenderItems(items[1..]), DepthItems(items[1..]));
    }
  }

  /** Two parts with a comma between them. */
  lemma RunSeparated(d: nat, a: string, deepA: nat, b: string, deepB: nat)
    requires Run(Some(State(d, false, false)), a) == Verdict(d, deepA)
    requires Run(Some(State(d, false, false)), b) == Verdict(d, deepB)
    ensures Run(Some(State(d, false, false)), a + ([','] + b)) == Verdict(d, Max(deepA, deepB))
  {
    var outside := State(d, false, false);
    RunConcat(Some(outside), a, [','] + b);
    if d + deepA <= MAX_JSON_DEPTH {
      RunConcat(Some(outside), [','], b);
      RunOne(outside, ',');
    } else {
      RunNone([','] + b);
    }
  }

  lemma {:induction false} RunMember(d: nat, m: Member)
    requires ValidMember(m) && d <= MAX_JSON_DEPTH
    ensures Run(Some(State(d, false, false)), RenderMember(m)) == Verdict(d, Depth(m.element.value))
    decreases m, 0
  {
    var outside := Some(State(d, false, false));
    RunConcat(outside, m.before, RenderString(m.key) + (m.between + ([':'] + RenderElement(m.element))));
    RunBlank(d, m.before);
    RunConcat(outside, RenderString(m.key), m.between + ([':'] + RenderElement(m.element)));
    RunString(d, m.key);
    RunConcat(outside, m.between, [':'] + RenderElement(m.element));
    RunBlank(d, m.between);
    RunConcat(outside, [':'], RenderElement(m.element));
    RunOne(State(d, false, false), ':');
    RunElement(d, m.element);
  }

  lemma {:induction false} RunMembers(d: nat, members: seq<Member>)
    requires members != [] && (forall m <- members :: ValidMember(m)) && d <= MAX_JSON_DEPTH
    ensures Run(Some(State(d, false, false)), RenderMembers(members)) == Verdict(d, DepthMembers(members))
    decreases members, 0
  {
    assert members[0] in members && forall m <- members[1..] :: m in members;
    RunMember(d, members[0]);
    if |members| > 1 {
      RunMembers(d, members[1..]);
      RunSeparated(d, RenderMember(members[0]), Depth(members[0].element.value),
                   RenderMembers(members[1..]), DepthMembers(members[1..]));
    }
  }

  /**
   On every JSON text the scan accepts exactly when brackets nest at most 24 deep, and an
   accepted scan ends outside any string at depth zero.
   */
  lemma ScanMeasuresDepth(document: Element)
    requires ValidElement(document)
    ensures Run(Some(START), RenderElement(document)).Some? <==> Depth(document.value) <= 24
    ensures Run(Some(START), RenderElement(document)).Some? ==> Run(Some(START), RenderElement(document)) == Some(START)
  {
    RunElement(0, document);
  }

  // ---------------------------------------------------------------- the scan on any brackets

  /** Opening brackets less closing ones. */
  function Net(text: string): int {
    if text == [] then 0
    else (match text[0] case '{' => 1 case '[' => 1 case '}' => -1 case ']' => -1 case _ => 0) + Net(text[1..])
  }

  lemma {:induction false} NetSnoc(text: string, c: char)
    ensures Net(text + [c]) == Net(text) + Net([c])
  {
    if text == [] {
      assert text + [c] == [c];
    } else {
      assert (text + [c])[0] == text[0] && (text + [c])[1..] == text[1..] + [c];
      NetSnoc(text[1..], c);
    }
  }

  /** No stretch of the text opens more than 24 brackets more than it closes. */
  ghost predicate Shallow(text: string) {
    forall i, j | 0 <= i <= j <= |text| :: Net(text[i..j]) <= 24
  }

  /** The most that a stretch at the end of the text opens more than it closes. */
  ghost predicate EndsAt(text: string, depth: nat) {
    (forall i | 0 <= i <= |text| :: Net(text[i..]) <= depth) && exists i | 0 <= i <= |text| :: Net(text[i..]) == depth
  }

  lemma {:induction false} EndsSnoc(text: string, c: char, depth: nat, next: nat)
    requires EndsAt(text, depth) && next == (if depth + Net([c]) < 0 then 0 else depth + Net([c]))
    ensures EndsAt(text + [c], next)
  {
    var all := text + [c];
    assert [c][1..] == [];
    assert all[|all|..] == [];
    forall i | 0 <= i <= |text| ensures Net(all[i..]) == Net(text[i..]) + Net([c]) {
      assert all[i..] == text[i..] + [c];
      NetSnoc(text[i..], c);
    }
    forall i | 0 <= i <= |all| ensures Net(all[i..]) <= next {
      if i == |all| { assert Net(all[i..]) == 0; }
    }
    if next == 0 {
      assert Net(all[|all|..]) == 0;
    } else {
      var i :| 0 <= i <= |text| && Net(text[i..]) == depth;
      assert Net(all[i..]) == next;
    }
  }

  lemma {:induction false} ShallowSnoc(text: string, c: char, depth: nat)
    requires EndsAt(text, depth) && Shallow(text)
    ensures Shallow(text + [c]) <==> depth + Net([c]) <= 24
  {
    var all := text + [c];
    assert [c][1..] == [];
    forall i | 0 <= i <= |text| ensures Net(all[i..|all|]) == Net(text[i..]) + Net([c]) {
      assert all[i..|all|] == text[i..] + [c];
      NetSnoc(text[i..], c);
    }
    if depth + Net([c]) <= 24 {
      forall i, j | 0 <= i <= j <= |all| ensures Net(all[i..j]) <= 24 {
        if j <= |text| {
          assert all[i..j] == text[i..j];
        } else if i == |all| {
          assert all[i..j] == [];
        }
      }
    } else {
      var i :| 0 <= i <= |text| && Net(text[i..]) == depth;
      assert Net(all[i..|all|]) > 24;
    }
  }

  lemma {:induction false} DeepStays(text: string, c: char)
    requires !Shallow(text)
    ensures !Shallow(text + [c])
  {
    var i, j :| 0 <= i <= j <= |text| && Net(text[i..j]) > 24;
    assert (text + [c])[i..j] == text[i..j];
  }

  lemma {:induction false} ShallowEnd(text: string, depth: nat)
    requires Shallow(text) && EndsAt(text, depth)
    ensures depth <= 24
  {
    var i :| 0 <= i <= |text| && Net(text[i..]) == depth;
    assert text[i..|text|] == text[i..];
  }

  lemma StepMeaning(depth: nat, c: char)
    requires c != '"' && depth <= 24
    ensures var net := depth + Net([c]);
            Step(State(depth, false, false), c)
            == if net > 24 then None else Some(State(if net < 0 then 0 else net, false, false))
  {
    assert [c][1..] == [];
  }

  /**
   On any text without quotes, JSON or not, the scan accepts exactly when no stretch of it opens
   more than 24 brackets more than it closes: a closing bracket too many is not held against
   what follows.
   */
  lemma {:induction false} ScanOnAnyBrackets(text: string)
    requires '"' !in text
    ensures Run(Some(START), text).Some? <==> Shallow(text)
    ensures Run(Some(START), text).Some? ==>
              var end := Run(Some(START), text).value; end == State(end.depth, false, false) && EndsAt(text, end.depth)
    decreases |text|
  {
    if text == [] {
      assert text[0..] == [] && Net(text[0..]) == 0;
    } else {
      var init, c := text[..|text| - 1], text[|text| - 1];
      assert text == init + [c] && [c][1..] == [];
      ScanOnAnyBrackets(init);
      RunConcat(Some(START), init, [c]);
      var before := Run(Some(START), init);
      if before.Some? {
        var depth := before.value.depth;
        RunOne(before.value, c);
        ShallowEnd(init, depth);
        StepMeaning(depth, c);
        ShallowSnoc(init, c, depth);
        EndsSnoc(init, c, depth, if depth + Net([c]) < 0 then 0 else depth + Net([c]));
      } else {
        DeepStays(init, c);
      }
    }
  }
}
