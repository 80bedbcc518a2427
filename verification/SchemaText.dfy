/**
 The canonical schema string of a JSON object. Text stands for its UTF-8 bytes, one
 character a byte, so that lengths are the byte lengths the source writes.
 */
module SchemaText {
  import opened Wrappers
  import opened Decimals

  datatype Field = Field(name: string, ty: string, serde: string)

  /** `{len}:{text}`, followed by `tail`. */
  function Framed(s: string, tail: string): string { Render(|s|) + ([':'] + (s + tail)) }

  function FieldText(f: Field, tail: string): string {
    Framed(f.name, ['|'] + Framed(f.ty, ['|'] + Framed(f.serde, tail)))
  }

  /** The fields after the first, each behind a bar. */
  function Rest(fields: seq<Field>): string {
    if fields == [] then [] else ['|'] + FieldText(fields[0], Rest(fields[1..]))
  }

  function Joined(fields: seq<Field>): string {
    if fields == [] then [] else FieldText(fields[0], Rest(fields[1..]))
  }

  function FieldsPart(fields: seq<Field>): string { Render(|fields|) + ([':'] + Joined(fields)) }

  function SerdePart(serde: string, fields: seq<Field>): string {
    "|serde=" + Framed(serde, "|fields=" + FieldsPart(fields))
  }

  function VersionPart(version: nat, serde: string, fields: seq<Field>): string {
    "|version=" + (Render(version) + SerdePart(serde, fields))
  }

  function CanonicalObjectSchema(
    role: string, typeName: string, version: nat, serde: string, fields: seq<Field>): string {
    "distributed.schema/v1|role=" + Framed(role, "|type=" + Framed(typeName, VersionPart(version, serde, fields)))
  }

  lemma {:induction false} NumberEnds(a: string, b: string, x: string, y: string)
    requires Digits(a) && Digits(b) && x != [] && y != [] && !IsDigit(x[0]) && !IsDigit(y[0])
    requires a + x == b + y
    ensures a == b && x == y
  {
    assert b != [] ==> b[0] in b;
    assert (a + x)[0] == if a == [] then x[0] else a[0];
    assert (b + y)[0] == if b == [] then y[0] else b[0];
    if a != [] {
      assert a[0] in a && b != [];
      assert (a + x)[1..] == a[1..] + x && (b + y)[1..] == b[1..] + y;
      NumberEnds(a[1..], b[1..], x, y);
      assert a == [a[0]] + a[1..] && b == [b[0]] + b[1..];
    } else {
      assert a + x == x && b + y == y;
    }
  }

  lemma RenderEnds(m: nat, n: nat, x: string, y: string)
    requires x != [] && y != [] && !IsDigit(x[0]) && !IsDigit(y[0]) && Render(m) + x == Render(n) + y
    ensures m == n && x == y
  {
    NumberEnds(Render(m), Render(n), x, y);
    RenderCanonical(m);
    RenderCanonical(n);
  }

  /** A frame gives back its text and its tail, whatever they contain. */
  lemma FrameEnds(a: string, b: string, x: string, y: string)
    requires Framed(a, x) == Framed(b, y)
    ensures a == b && x == y
  {
    RenderEnds(|a|, |b|, [':'] + (a + x), [':'] + (b + y));
    assert ([':'] + (a + x))[1..] == a + x && ([':'] + (b + y))[1..] == b + y;
    assert (a + x)[..|a|] == a && (b + y)[..|b|] == b && (a + x)[|a|..] == x && (b + y)[|b|..] == y;
  }

  lemma SameAfter(tag: string, x: string, y: string)
    requires tag + x == tag + y
    ensures x == y
  {
    assert (tag + x)[|tag|..] == x && (tag + y)[|tag|..] == y;
  }

  lemma FieldEnds(f: Field, g: Field, x: string, y: string)
    requires FieldText(f, x) == FieldText(g, y)
    ensures f == g && x == y
  {
    FrameEnds(f.name, g.name, ['|'] + Framed(f.ty, ['|'] + Framed(f.serde, x)),
              ['|'] + Framed(g.ty, ['|'] + Framed(g.serde, y)));
    SameAfter(['|'], Framed(f.ty, ['|'] + Framed(f.serde, x)), Framed(g.ty, ['|'] + Framed(g.serde, y)));
    FrameEnds(f.ty, g.ty, ['|'] + Framed(f.serde, x), ['|'] + Framed(g.serde, y));
    SameAfter(['|'], Framed(f.serde, x), Framed(g.serde, y));
    FrameEnds(f.serde, g.serde, x, y);
  }

  lemma {:induction false} RestEnds(fs: seq<Field>, gs: seq<Field>)
    requires |fs| == |gs| && Rest(fs) == Rest(gs)
    ensures fs == gs
  {
    if fs != [] {
      SameAfter(['|'], FieldText(fs[0], Rest(fs[1..])), FieldText(gs[0], Rest(gs[1..])));
      FieldEnds(fs[0], gs[0], Rest(fs[1..]), Rest(gs[1..]));
      RestEnds(fs[1..], gs[1..]);
      assert fs == [fs[0]] + fs[1..] && gs == [gs[0]] + gs[1..];
    }
  }

  lemma JoinedEnds(fs: seq<Field>, gs: seq<Field>)
    requires |fs| == |gs| && Joined(fs) == Joined(gs)
    ensures fs == gs
  {
    if fs != [] {
      FieldEnds(fs[0], gs[0], Rest(fs[1..]), Rest(gs[1..]));
      RestEnds(fs[1..], gs[1..]);
      assert fs == [fs[0]] + fs[1..] && gs == [gs[0]] + gs[1..];
    }
  }

  lemma FieldsPartEnds(fs: seq<Field>, gs: seq<Field>)
    requires FieldsPart(fs) == FieldsPart(gs)
    ensures fs == gs
  {
    RenderEnds(|fs|, |gs|, [':'] + Joined(fs), [':'] + Joined(gs));
    SameAfter([':'], Joined(fs), Joined(gs));
    JoinedEnds(fs, gs);
  }

  lemma SerdePartEnds(s: string, fs: seq<Field>, t: string, gs: seq<Field>)
    requires SerdePart(s, fs) == SerdePart(t, gs)
    ensures s == t && fs == gs
  {
    SameAfter("|serde=", Framed(s, "|fields=" + FieldsPart(fs)), Framed(t, "|fields=" + FieldsPart(gs)));
    FrameEnds(s, t, "|fields=" + FieldsPart(fs), "|fields=" + FieldsPart(gs));
    SameAfter("|fields=", FieldsPart(fs), FieldsPart(gs));
    FieldsPartEnds(fs, gs);
  }

  lemma VersionPartEnds(v: nat, s: string, fs: seq<Field>, w: nat, t: string, gs: seq<Field>)
    requires VersionPart(v, s, fs) == VersionPart(w, t, gs)
    ensures v == w && s == t && fs == gs
  {
    SameAfter("|version=", Render(v) + SerdePart(s, fs), Render(w) + SerdePart(t, gs));
    assert SerdePart(s, fs)[0] == '|' && SerdePart(t, gs)[0] == '|';
    RenderEnds(v, w, SerdePart(s, fs), SerdePart(t, gs));
    SerdePartEnds(s, fs, t, gs);
  }

  /** Two schema strings are equal only if everything that went into them is. */
  lemma SchemaIsInjective(
    role: string, typeName: string, version: nat, serde: string, fields: seq<Field>,
    role': string, typeName': string, version': nat, serde': string, fields': seq<Field>)
    ensures CanonicalObjectSchema(role, typeName, version, serde, fields)
            == CanonicalObjectSchema(role', typeName', version', serde', fields')
       ==> role == role' && typeName == typeName' && version == version' && serde == serde' && fields == fields'
  {
    var a, b := CanonicalObjectSchema(role, typeName, version, serde, fields),
                CanonicalObjectSchema(role', typeName', version', serde', fields');
    if a == b {
      var x, y := VersionPart(version, serde, fields), VersionPart(version', serde', fields');
      var t, u := "|type=" + Framed(typeName, x), "|type=" + Framed(typeName', y);
      SameAfter("distributed.schema/v1|role=", Framed(role, t), Framed(role', u));
      FrameEnds(role, role', t, u);
      SameAfter("|type=", Framed(typeName, x), Framed(typeName', y));
      FrameEnds(typeName, typeName', x, y);
      VersionPartEnds(version, serde, fields, version', serde', fields');
    }
  }

  // ---------------------------------------------------------------- reading a schema string

  datatype Schema = Schema(role: string, typeName: string, version: nat, serde: string, fields: seq<Field>)

  function LeadingDigits(s: string): (d: string)
    ensures d <= s && Digits(d)
  {
    if s == [] || !IsDigit(s[0]) then [] else [s[0]] + LeadingDigits(s[1..])
  }

  function TakeNumber(s: string): (nat, string) { (Value(LeadingDigits(s)), s[|LeadingDigits(s)|..]) }

  function TakeTag(tag: string, s: string): Option<string> { if tag <= s then Some(s[|tag|..]) else None }

  /** A length, a colon and a text of that length. */
  function TakeFrame(s: string): Option<(string, string)> {
    var (n, rest) := TakeNumber(s);
    if rest == [] || rest[0] != ':' || |rest| < 1 + n then None else Some((rest[1..1 + n], rest[1 + n..]))
  }

  function TakeTagged(tag: string, s: string): Option<(string, string)> {
    match TakeTag(tag, s) case None => None case Some(rest) => TakeFrame(rest)
  }

  /** Name, type and serde text, with a bar before the last two. */
  function TakeField(s: string): Option<(Field, string)> {
    match TakeFrame(s)
    case None => None
    case Some((name, more)) =>
      match TakeTagged("|", more)
      case None => None
      case Some((ty, rest)) =>
        match TakeTagged("|", rest)
        case None => None
        case Some((serde, end)) => Some((Field(name, ty, serde), end))
  }

  /** So many fields, each but the first behind a bar, to the end of the text. */
  function TakeFields(n: nat, first: bool, s: string): Option<seq<Field>> {
    if n == 0 then (if s == [] then Some([]) else None) else
    var start := if first then Some(s) else TakeTag("|", s);
    if start.None? then None else
    match TakeField(start.value)
    case None => None
    case Some((f, rest)) =>
      match TakeFields(n - 1, false, rest)
      case None => None
      case Some(more) => Some([f] + more)
  }

  function TakeLast(s: string): Option<seq<Field>> {
    match TakeTag("|fields=", s)
    case None => None
    case Some(counted) =>
      var (n, rest) := TakeNumber(counted);
      match TakeTag(":", rest) case None => None case Some(fields) => TakeFields(n, true, fields)
  }

  function TakeVersion(s: string): Option<(nat, string)> {
    match TakeTag("|version=", s) case None => None case Some(rest) => Some(TakeNumber(rest))
  }

  /** The parts in the order in which they are announced: role, type, version, serde, fields. */
  function ReadSchema(s: string): Option<Schema> {
    match TakeTagged("distributed.schema/v1|role=", s)
    case None => None
    case Some((role, a)) =>
      match TakeTagged("|type=", a)
      case None => None
      case Some((typeName, b)) =>
        match TakeVersion(b)
        case None => None
        case Some((version, c)) =>
          match TakeTagged("|serde=", c)
          case None => None
          case Some((serde, d)) =>
            match TakeLast(d)
            case None => None
            case Some(fields) => Some(Schema(role, typeName, version, serde, fields))
  }

  lemma {:induction false} DigitsLead(d: string, rest: string)
    requires Digits(d) && (rest == [] || !IsDigit(rest[0]))
    ensures LeadingDigits(d + rest) == d
  {
    if d == [] {
      assert d + rest == rest;
    } else {
      assert d[0] in d && (d + rest)[0] == d[0] && (d + rest)[1..] == d[1..] + rest;
      assert forall c <- d[1..] :: c in d;
      DigitsLead(d[1..], rest);
    }
  }

  lemma {:induction false} NumberReads(n: nat, rest: string)
    requires rest == [] || !IsDigit(rest[0])
    ensures TakeNumber(Render(n) + rest) == (n, rest)
  {
    DigitsLead(Render(n), rest);
    RenderCanonical(n);
    assert (Render(n) + rest)[|Render(n)|..] == rest;
  }

  lemma {:induction false} FrameReads(text: string, tail: string)
    ensures TakeFrame(Framed(text, tail)) == Some((text, tail))
  {
    var rest := [':'] + (text + tail);
    NumberReads(|text|, rest);
    assert rest[1..1 + |text|] == text && rest[1 + |text|..] == tail;
  }

  lemma {:induction false} TagReads(tag: string, rest: string)
    ensures TakeTag(tag, tag + rest) == Some(rest)
  {
    assert (tag + rest)[|tag|..] == rest;
  }

  lemma {:induction false} TaggedReads(tag: string, text: string, tail: string)
    ensures TakeTagged(tag, tag + Framed(text, tail)) == Some((text, tail))
  {
    TagReads(tag, Framed(text, tail));
    FrameReads(text, tail);
  }

  lemma {:induction false} FieldReads(f: Field, tail: string)
    ensures TakeField(FieldText(f, tail)) == Some((f, tail))
  {
    var last := ['|'] + Framed(f.serde, tail);
    FrameReads(f.name, ['|'] + Framed(f.ty, last));
    TaggedReads("|", f.ty, last);
    TaggedReads("|", f.serde, tail);
  }

  lemma {:induction false} FieldsStep(n: nat, s: string, f: Field, rest: string, more: seq<Field>)
    requires TakeField(s) == Some((f, rest)) && TakeFields(n, false, rest) == Some(more)
    ensures TakeFields(n + 1, true, s) == Some([f] + more)
    ensures forall t | TakeTag("|", t) == Some(s) :: TakeFields(n + 1, false, t) == Some([f] + more)
  {
  }

  lemma {:induction false} OneMore(f: Field, more: seq<Field>, tail: string, text: string, n: nat)
    requires n == |more| + 1 && text == FieldText(f, tail) && TakeFields(|more|, false, tail) == Some(more)
    ensures TakeFields(n, true, text) == Some([f] + more) && TakeFields(n, false, "|" + text) == Some([f] + more)
  {
    FieldReads(f, tail);
    TagReads("|", text);
    FieldsStep(|more|, text, f, tail, more);
  }

  lemma {:induction false} RestReads(fields: seq<Field>)
    ensures TakeFields(|fields|, false, Rest(fields)) == Some(fields)
  {
    if fields != [] {
      var f, more, tail := fields[0], fields[1..], Rest(fields[1..]);
      RestReads(more);
      OneMore(f, more, tail, FieldText(f, tail), |fields|);
      assert fields == [f] + more && Rest(fields) == "|" + FieldText(f, tail);
    }
  }

  lemma {:induction false} JoinedReads(fields: seq<Field>)
    ensures TakeFields(|fields|, true, Joined(fields)) == Some(fields)
  {
    if fields != [] {
      RestReads(fields[1..]);
      OneMore(fields[0], fields[1..], Rest(fields[1..]), Joined(fields), |fields|);
      assert fields == [fields[0]] + fields[1..];
    }
  }

  lemma {:induction false} LastReads(fields: seq<Field>)
    ensures TakeLast("|fields=" + FieldsPart(fields)) == Some(fields)
  {
    TagReads("|fields=", FieldsPart(fields));
    NumberReads(|fields|, [':'] + Joined(fields));
    TagReads(":", Joined(fields));
    JoinedReads(fields);
  }

  lemma {:induction false} VersionReads(version: nat, serde: string, fields: seq<Field>)
    ensures TakeVersion(VersionPart(version, serde, fields)) == Some((version, SerdePart(serde, fields)))
  {
    var rest := SerdePart(serde, fields);
    TagReads("|version=", Render(version) + rest);
    assert rest[0] == '|';
    NumberReads(version, rest);
  }

  /** Every schema string reads back, part by part in the announced order, as what it was made of. */
  lemma {:induction false} SchemaReadsBack(
    role: string, typeName: string, version: nat, serde: string, fields: seq<Field>)
    ensures ReadSchema(CanonicalObjectSchema(role, typeName, version, serde, fields))
         == Some(Schema(role, typeName, version, serde, fields))
  {
    var c := VersionPart(version, serde, fields);
    TaggedReads("distributed.schema/v1|role=", role, "|type=" + Framed(typeName, c));
    TaggedReads("|type=", typeName, c);
    VersionReads(version, serde, fields);
    TaggedReads("|serde=", serde, "|fields=" + FieldsPart(fields));
    LastReads(fields);
  }
}
