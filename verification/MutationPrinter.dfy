/**
 Every accepted spelling of a mutation document, printed and read back: the parser accepts
 exactly the tokens that a well-formed document prints, and returns what that document says.
 */
module MutationPrinter {
  import opened Wrappers
  import opened MutationSyntax

  // ---------------------------------------------------------------- spellings

  /** A path with or without a dollar sign, and with or without the leading `input`. */
  datatype PathText = PathText(dollar: bool, prefixed: bool, path: seq<string>)

  datatype BindingText = BindingText(name: string, path: PathText, comma: bool)

  datatype ItemText = KeyItem(binding: BindingText) | SetItem(bindings: seq<BindingText>, comma: bool)

  /** A field names its table by words joined with underscores; of several `object` arguments the last counts. */
  datatype FieldText =
    | UpsertText(words: seq<string>, roots: seq<BindingText>)
    | InsertText(words: seq<string>, one: bool, roots: seq<BindingText>)
    | DeleteText(words: seq<string>, keys: seq<BindingText>)
    | UpdateText(words: seq<string>, patch: bool, items: seq<ItemText>)

  datatype OperationText = OperationText(field: FieldText, comma: bool)

  datatype DocumentText = DocumentText(name: string, version: Option<nat>, operations: seq<OperationText>)

  // ---------------------------------------------------------------- printing, in front of a tail

  function Comma(comma: bool, tail: Tokens): Tokens { if comma then [Punct(',')] + tail else tail }

  function PrintSegments(segments: seq<string>, tail: Tokens): Tokens {
    if segments == [] then tail else [Punct('.')] + ([Word(segments[0])] + PrintSegments(segments[1..], tail))
  }

  function PrintWords(words: seq<string>, tail: Tokens): Tokens {
    if words == [] then tail else [Word(words[0])] + PrintSegments(words[1..], tail)
  }

  function WordsOf(p: PathText): seq<string> { if p.prefixed then ["input"] + p.path else p.path }

  function PrintPath(p: PathText, tail: Tokens): Tokens {
    (if p.dollar then [Punct('$')] else []) + PrintWords(WordsOf(p), tail)
  }

  function PrintBinding(b: BindingText, tail: Tokens): Tokens {
    [Word(b.name)] + ([Punct(':')] + PrintPath(b.path, Comma(b.comma, tail)))
  }

  function PrintBindings(bs: seq<BindingText>): Tokens {
    if bs == [] then [] else PrintBinding(bs[0], PrintBindings(bs[1..]))
  }

  function PrintItems(items: seq<ItemText>): Tokens {
    if items == [] then []
    else match items[0]
      case KeyItem(b) => PrintBinding(b, PrintItems(items[1..]))
      case SetItem(bs, comma) =>
        [Word("_set")] + ([Punct(':')] + ([Group(Brace, PrintBindings(bs))] + Comma(comma, PrintItems(items[1..]))))
  }

  /** `todo_items` */
  function Table(words: seq<string>): string {
    if words == [] then [] else if |words| == 1 then words[0] else words[0] + (['_'] + Table(words[1..]))
  }

  function FieldName(f: FieldText): string {
    var table := Table(f.words);
    match f
    case UpsertText(_, _) => "upsert_" + table
    case InsertText(_, one, _) => "insert_" + (if one then table + "_one" else table)
    case DeleteText(_, _) => "delete_" + (table + "_by_pk")
    case UpdateText(_, patch, _) => if patch then "patch_" + (table + "_by_pk") else "update_" + (table + "_by_pk")
  }

  function PrintArguments(f: FieldText): Tokens {
    match f
    case UpsertText(_, roots) => PrintBindings(roots)
    case InsertText(_, _, roots) => PrintBindings(roots)
    case DeleteText(_, keys) => PrintBindings(keys)
    case UpdateText(_, _, items) => PrintItems(items)
  }

  function PrintOperation(o: OperationText, tail: Tokens): Tokens {
    [Word(FieldName(o.field))] + ([Group(Paren, PrintArguments(o.field))] + Comma(o.comma, tail))
  }

  function PrintOperations(os: seq<OperationText>): Tokens {
    if os == [] then [] else PrintOperation(os[0], PrintOperations(os[1..]))
  }

  function PrintVersion(version: Option<nat>, tail: Tokens): Tokens {
    if version.None? then tail
    else [Punct('@')] + ([Word("version")] + ([Group(Paren, [Number(version.value)])] + tail))
  }

  function PrintDocument(d: DocumentText): Tokens {
    [Word("mutation")] + ([Word(d.name)] + PrintVersion(d.version, [Group(Brace, PrintOperations(d.operations))]))
  }

  // ---------------------------------------------------------------- meaning

  function BindingOf(b: BindingText): Binding { Binding(b.name, b.path.path) }

  function BindingsOf(bs: seq<BindingText>): (r: seq<Binding>)
    ensures |r| == |bs|
  {
    if bs == [] then [] else [BindingOf(bs[0])] + BindingsOf(bs[1..])
  }

  function KeysOf(items: seq<ItemText>): seq<Binding> {
    if items == [] then []
    else (if items[0].KeyItem? then [BindingOf(items[0].binding)] else []) + KeysOf(items[1..])
  }

  function SetsOf(items: seq<ItemText>): seq<Binding> {
    if items == [] then []
    else (if items[0].SetItem? then BindingsOf(items[0].bindings) else []) + SetsOf(items[1..])
  }

  /** `TodoItems`: the words, each with its first character in upper case. */
  function Model(upper: Uppercase, words: seq<string>): string {
    if words == [] then [] else Capitalized(upper, words[0]) + Model(upper, words[1..])
  }

  function Capitalized(upper: Uppercase, w: string): string { if w == [] then [] else upper(w[0]) + w[1..] }

  function LastPath(roots: seq<BindingText>): seq<string> {
    if roots == [] then [] else roots[|roots| - 1].path.path
  }

  function OperationOf(upper: Uppercase, f: FieldText): Operation {
    var model := Model(upper, f.words);
    match f
    case UpsertText(_, roots) => Upsert(model, LastPath(roots))
    case InsertText(_, _, roots) => InsertOne(model, LastPath(roots))
    case DeleteText(_, keys) => DeleteByPk(model, BindingsOf(keys))
    case UpdateText(_, _, items) => UpdateByPk(model, KeysOf(items), SetsOf(items))
  }

  function OperationsOf(upper: Uppercase, os: seq<OperationText>): (r: seq<Operation>)
    ensures |r| == |os|
  {
    if os == [] then [] else [OperationOf(upper, os[0].field)] + OperationsOf(upper, os[1..])
  }

  function DeclarationOf(upper: Uppercase, d: DocumentText): Declaration {
    Declaration(d.name, d.version, OperationsOf(upper, d.operations))
  }

  // ---------------------------------------------------------------- what can be printed

  /** The words of the document's own syntax are identifiers. */
  predicate Vocabulary(valid: Words) {
    valid("mutation") && valid("version") && valid("input") && valid("object") && valid("_set")
  }

  /** Identifiers throughout, at least one, and a bare path does not itself start with `input`. */
  predicate ValidPath(valid: Words, p: PathText) {
    && p.path != [] && (forall w <- p.path :: valid(w))
    && (p.prefixed || p.path[0] != "input")
  }

  predicate ValidBinding(valid: Words, b: BindingText) { valid(b.name) && ValidPath(valid, b.path) }

  predicate ValidBindings(valid: Words, bs: seq<BindingText>) { forall b <- bs :: ValidBinding(valid, b) }

  predicate ValidItem(valid: Words, item: ItemText) {
    match item
    case KeyItem(b) => ValidBinding(valid, b) && b.name != "_set"
    case SetItem(bs, _) => ValidBindings(valid, bs)
  }

  /** At least one word, each without underscores and not empty. */
  predicate GoodWords(words: seq<string>) { words != [] && forall w <- words :: w != [] && '_' !in w }

  predicate EndsWith(s: string, p: string) { |p| <= |s| && s[|s| - |p|..] == p }

  /** What a field must have, whatever the language's words: a table and arguments, and no `_one` it does not mean. */
  predicate GoodField(f: FieldText) {
    && GoodWords(f.words)
    && match f
       case UpsertText(_, roots) => roots != [] && forall r <- roots :: r.name == "object"
       case InsertText(words, one, roots) =>
         (one || !EndsWith(Table(words), "_one")) && roots != [] && forall r <- roots :: r.name == "object"
       case DeleteText(_, keys) => keys != []
       case UpdateText(_, _, items) => KeysOf(items) != [] && SetsOf(items) != []
  }

  predicate ValidField(valid: Words, upper: Uppercase, f: FieldText) {
    && GoodField(f) && valid(Model(upper, f.words)) && valid(FieldName(f))
    && match f
       case UpsertText(_, roots) => ValidBindings(valid, roots)
       case InsertText(_, _, roots) => ValidBindings(valid, roots)
       case DeleteText(_, keys) => ValidBindings(valid, keys)
       case UpdateText(_, _, items) => forall item <- items :: ValidItem(valid, item)
  }

  predicate ValidDocument(valid: Words, upper: Uppercase, d: DocumentText) {
    && valid(d.name) && d.operations != []
    && (d.version.Some? ==> d.version.value < 0x1_0000_0000_0000_0000)
    && forall o <- d.operations :: ValidField(valid, upper, o.field)
  }

  // ---------------------------------------------------------------- reading back

  /** What may follow a path or a binding without being read as part of it. */
  predicate Ends(ts: Tokens) { !Peek(ts, '.') && !Peek(ts, ',') }

  lemma {:induction false} SegmentsReadBack(valid: Words, segments: seq<string>, tail: Tokens)
    requires (forall w <- segments :: valid(w)) && !Peek(tail, '.')
    ensures ParseSegments(valid, PrintSegments(segments, tail)) == Some((segments, tail))
  {
    if segments != [] {
      var rest := PrintSegments(segments[1..], tail);
      assert segments[0] in segments && forall w <- segments[1..] :: w in segments;
      SegmentsReadBack(valid, segments[1..], tail);
      var ts := PrintSegments(segments, tail);
      assert ts[1..] == [Word(segments[0])] + rest && ([Word(segments[0])] + rest)[1..] == rest;
      assert segments == [segments[0]] + segments[1..];
    }
  }

  lemma WordsReadBack(valid: Words, words: seq<string>, tail: Tokens)
    requires words != [] && (forall w <- words :: valid(w)) && !Peek(tail, '.')
    ensures ParseDotted(valid, PrintWords(words, tail)) == Some((words, tail)) && !Peek(PrintWords(words, tail), '$')
  {
    var first, rest := words[0], words[1..];
    assert first in words && forall w <- rest :: w in words;
    SegmentsReadBack(valid, rest, tail);
    FirstWord(valid, first, PrintSegments(rest, tail));
    assert words == [first] + rest;
  }

  lemma FirstWord(valid: Words, word: string, tail: Tokens)
    requires valid(word)
    ensures ParseWord(valid, [Word(word)] + tail) == Some((word, tail)) && !Peek([Word(word)] + tail, '$')
  {
    assert ([Word(word)] + tail)[1..] == tail;
  }

  /**
   Every spelling of a path reads back as the path, except a bare path that itself starts
   with `input`: that one loses its first segment.
   */
  lemma PathReadsBack(valid: Words, p: PathText, tail: Tokens)
    requires valid("input") && p.path != [] && (forall w <- p.path :: valid(w)) && !Peek(tail, '.')
    ensures ParseInputPath(valid, PrintPath(p, tail)) == Some((p.path, tail)) <==> p.prefixed || p.path[0] != "input"
  {
    var words := WordsOf(p);
    assert p.prefixed ==> words[1..] == p.path;
    WordsReadBack(valid, words, tail);
    var ts := PrintPath(p, tail);
    assert (if Peek(ts, '$') then ts[1..] else ts) == PrintWords(words, tail);
    assert !p.prefixed && p.path[0] == "input" ==> |p.path[1..]| < |p.path|;
  }

  lemma BindingReadsBack(valid: Words, b: BindingText, tail: Tokens)
    requires valid("input") && ValidBinding(valid, b) && Ends(tail)
    ensures ParseBinding(valid, PrintBinding(b, tail)) == Some((BindingOf(b), tail))
  {
    var after := Comma(b.comma, tail);
    assert b.comma ==> after[1..] == tail;
    var path := PrintPath(b.path, after);
    var ts := PrintBinding(b, tail);
    assert ts[1..] == [Punct(':')] + path && ([Punct(':')] + path)[1..] == path;
    PathReadsBack(valid, b.path, after);
  }

  lemma {:induction false} BindingsReadBack(valid: Words, bs: seq<BindingText>)
    requires valid("input") && ValidBindings(valid, bs)
    ensures ParseBindings(valid, PrintBindings(bs)) == Some(BindingsOf(bs)) && Ends(PrintBindings(bs))
  {
    if bs != [] {
      assert bs[0] in bs && forall b <- bs[1..] :: b in bs;
      BindingsReadBack(valid, bs[1..]);
      BindingReadsBack(valid, bs[0], PrintBindings(bs[1..]));
      assert PrintBindings(bs)[0] == Word(bs[0].name);
    }
  }

  lemma {:induction false} ObjectReadsBack(
    valid: Words, roots: seq<BindingText>, start: Option<seq<string>>)
    requires valid("input") && ValidBindings(valid, roots) && forall r <- roots :: r.name == "object"
    ensures ParseObjectArg(valid, PrintBindings(roots), start) == if roots == [] then start else Some(LastPath(roots))
    decreases |roots|
  {
    if roots != [] {
      var first, rest := roots[0], roots[1..];
      assert first in roots && forall r <- rest :: r in roots;
      BindingsReadBack(valid, rest);
      BindingReadsBack(valid, first, PrintBindings(rest));
      assert PrintBindings(roots)[0] == Word(first.name);
      ObjectReadsBack(valid, rest, Some(first.path.path));
    }
  }

  lemma {:induction false} ItemsReadBack(valid: Words, items: seq<ItemText>)
    requires Vocabulary(valid) && forall item <- items :: ValidItem(valid, item)
    ensures ParseUpdateItems(valid, PrintItems(items)) == Some((KeysOf(items), SetsOf(items)))
            && Ends(PrintItems(items))
  {
    if items != [] {
      assert items[0] in items && forall item <- items[1..] :: item in items;
      ItemsReadBack(valid, items[1..]);
      match items[0] {
        case KeyItem(b) => {
          KeyReadsBack(valid, b, items[1..]);
          assert PrintItems(items) == PrintBinding(b, PrintItems(items[1..]));
          assert SetsOf(items) == [] + SetsOf(items[1..]) == SetsOf(items[1..]);
        }
        case SetItem(bs, comma) => {
          SetReadsBack(valid, bs, comma, items[1..]);
          assert KeysOf(items) == [] + KeysOf(items[1..]) == KeysOf(items[1..]);
        }
      }
    }
  }

  lemma KeyReadsBack(valid: Words, b: BindingText, rest: seq<ItemText>)
    requires valid("input") && ValidBinding(valid, b) && b.name != "_set" && Ends(PrintItems(rest))
    requires ParseUpdateItems(valid, PrintItems(rest)) == Some((KeysOf(rest), SetsOf(rest)))
    ensures ParseUpdateItems(valid, PrintBinding(b, PrintItems(rest)))
            == Some(([BindingOf(b)] + KeysOf(rest), SetsOf(rest)))
    ensures Ends(PrintBinding(b, PrintItems(rest)))
  {
    BindingReadsBack(valid, b, PrintItems(rest));
    assert PrintBinding(b, PrintItems(rest))[0] == Word(b.name);
  }

  lemma SetReadsBack(valid: Words, bs: seq<BindingText>, comma: bool, rest: seq<ItemText>)
    requires Vocabulary(valid) && ValidBindings(valid, bs) && Ends(PrintItems(rest))
    requires ParseUpdateItems(valid, PrintItems(rest)) == Some((KeysOf(rest), SetsOf(rest)))
    ensures var ts := [Word("_set")] +
                      ([Punct(':')] + ([Group(Brace, PrintBindings(bs))] + Comma(comma, PrintItems(rest))));
            Ends(ts) && ParseUpdateItems(valid, ts) == Some((KeysOf(rest), BindingsOf(bs) + SetsOf(rest)))
  {
    var after := Comma(comma, PrintItems(rest));
    assert comma ==> after[1..] == PrintItems(rest);
    var block := [Group(Brace, PrintBindings(bs))] + after;
    var colon := [Punct(':')] + block;
    var ts := [Word("_set")] + colon;
    assert ts[1..] == colon && colon[1..] == block && block[1..] == after;
    BindingsReadBack(valid, bs);
    assert SkipComma(after) == PrintItems(rest);
  }

  // ---------------------------------------------------------------- names

  /** One word at a time: its first character as `start` says, the others as they are. */
  lemma {:induction false} PascalWord(upper: Uppercase, w: string, rest: string, start: bool)
    requires w != [] && '_' !in w
    ensures PascalFrom(upper, w + rest, start)
         == (if start then upper(w[0]) else [w[0]]) + w[1..] + PascalFrom(upper, rest, false)
  {
    assert w[0] in w && (w + rest)[0] == w[0] && (w + rest)[1..] == w[1..] + rest;
    var head := if start then upper(w[0]) else [w[0]];
    if w[1..] == [] {
      assert w[1..] + rest == rest && head + [] == head;
    } else {
      assert forall c <- w[1..] :: c in w;
      PascalWord(upper, w[1..], rest, false);
      assert w[1..] == [w[1]] + w[1..][1..];
      var more := PascalFrom(upper, rest, false);
      assert head + ([w[1]] + w[1..][1..] + more) == head + w[1..] + more;
    }
  }

  lemma {:induction false} PascalTable(upper: Uppercase, words: seq<string>)
    requires GoodWords(words)
    ensures PascalFrom(upper, Table(words), true) == Model(upper, words)
  {
    var w, more := words[0], words[1..];
    assert w in words;
    var head := upper(w[0]) + w[1..];
    if more == [] {
      assert w + [] == w && head + [] == head && Model(upper, more) == [];
      PascalWord(upper, w, [], true);
    } else {
      assert forall x <- more :: x in words;
      var rest := ['_'] + Table(more);
      PascalWord(upper, w, rest, true);
      assert rest[1..] == Table(more);
      PascalTable(upper, more);
    }
  }

  /** No underscore at either end, and no two in a row. */
  predicate Spaced(name: string) {
    name != [] && name[0] != '_' && name[|name| - 1] != '_' && !HasDoubleUnderscore(name)
  }

  lemma {:induction false} TableIsSpaced(words: seq<string>)
    requires GoodWords(words)
    ensures Spaced(Table(words))
  {
    var w, more := words[0], words[1..];
    assert w in words && forall i | 0 <= i < |w| :: w[i] in w;
    if more != [] {
      assert forall x <- more :: x in words;
      TableIsSpaced(more);
      SpacedJoin(w, Table(more));
    }
  }

  lemma {:induction false} SpacedJoin(w: string, rest: string)
    requires w != [] && '_' !in w && Spaced(rest)
    ensures Spaced(w + (['_'] + rest))
  {
    var s := w + (['_'] + rest);
    assert forall i | 0 <= i < |w| :: w[i] in w;
    assert s[0] == w[0] && s[|s| - 1] == rest[|rest| - 1];
    forall i | 0 < i < |s| ensures !(s[i - 1] == '_' && s[i] == '_') {
      if i < |w| { assert s[i] == w[i]; }
      if i == |w| { assert s[i - 1] == w[i - 1]; }
      if i == |w| + 1 { assert s[i] == rest[0]; }
      if i > |w| + 1 { assert s[i - 1] == rest[i - 2 - |w|] && s[i] == rest[i - 1 - |w|]; }
    }
  }

  lemma ModelReadsBack(valid: Words, upper: Uppercase, words: seq<string>)
    requires GoodWords(words) && valid(Model(upper, words))
    ensures ModelName(valid, upper, Table(words)) == Some(Model(upper, words))
  {
    TableIsSpaced(words);
    PascalTable(upper, words);
  }

  lemma PrefixStrips(p: string, s: string)
    ensures StripPrefix(p + s, p) == Some(s)
  {
    assert (p + s)[..|p|] == p && (p + s)[|p|..] == s;
  }

  lemma SuffixStrips(s: string, p: string)
    ensures StripSuffix(s + p, p) == Some(s)
  {
    assert (s + p)[|s|..] == p && (s + p)[..|s|] == s;
  }

  lemma PrefixDiffers(p: string, s: string, q: string, i: nat)
    requires i < |p| && i < |q| && p[i] != q[i]
    ensures StripPrefix(p + s, q).None?
  {
    assert (p + s)[i] == p[i];
  }

  function KindOf(f: FieldText): Kind {
    match f
    case UpsertText(_, _) => UpsertField
    case InsertText(_, _, _) => InsertField
    case DeleteText(_, _) => DeleteField
    case UpdateText(_, _, _) => UpdateField
  }

  lemma UpsertKind(model: string)
    ensures FieldKind("upsert_" + model) == Some((UpsertField, model))
  {
    PrefixStrips("upsert_", model);
  }

  lemma InsertKind(model: string, one: bool)
    requires one || !EndsWith(model, "_one")
    ensures FieldKind("insert_" + (if one then model + "_one" else model)) == Some((InsertField, model))
  {
    var rest := if one then model + "_one" else model;
    PrefixStrips("insert_", rest);
    PrefixDiffers("insert_", rest, "upsert_", 0);
    SuffixStrips(model, "_one");
  }

  lemma DeleteKind(model: string)
    ensures FieldKind("delete_" + (model + "_by_pk")) == Some((DeleteField, model))
  {
    var rest := model + "_by_pk";
    PrefixStrips("delete_", rest);
    PrefixDiffers("delete_", rest, "upsert_", 0);
    PrefixDiffers("delete_", rest, "insert_", 0);
    SuffixStrips(model, "_by_pk");
  }

  lemma UpdateKind(model: string)
    ensures FieldKind("update_" + (model + "_by_pk")) == Some((UpdateField, model))
  {
    var rest := model + "_by_pk";
    PrefixStrips("update_", rest);
    PrefixDiffers("update_", rest, "upsert_", 2);
    PrefixDiffers("update_", rest, "insert_", 0);
    PrefixDiffers("update_", rest, "delete_", 0);
    SuffixStrips(model, "_by_pk");
  }

  lemma PatchKind(model: string)
    ensures FieldKind("patch_" + (model + "_by_pk")) == Some((UpdateField, model))
  {
    var rest := model + "_by_pk";
    PrefixStrips("patch_", rest);
    PrefixDiffers("patch_", rest, "upsert_", 0);
    PrefixDiffers("patch_", rest, "insert_", 0);
    PrefixDiffers("patch_", rest, "delete_", 0);
    PrefixDiffers("patch_", rest, "update_", 0);
    SuffixStrips(model, "_by_pk");
  }

  lemma KindReadsBack(f: FieldText)
    requires GoodField(f)
    ensures FieldKind(FieldName(f)) == Some((KindOf(f), Table(f.words)))
  {
    match f
    case UpsertText(words, _) => UpsertKind(Table(words));
    case InsertText(words, one, _) => InsertKind(Table(words), one);
    case DeleteText(words, _) => DeleteKind(Table(words));
    case UpdateText(words, patch, _) => if patch { PatchKind(Table(words)); } else { UpdateKind(Table(words)); }
  }

  // ---------------------------------------------------------------- documents

  lemma ArgumentsReadBack(valid: Words, upper: Uppercase, f: FieldText)
    requires Vocabulary(valid) && ValidField(valid, upper, f)
    ensures ParseArguments(valid, KindOf(f), Model(upper, f.words), PrintArguments(f)) == Some(OperationOf(upper, f))
  {
    match f
    case UpsertText(_, roots) => ObjectReadsBack(valid, roots, None);
    case InsertText(_, _, roots) => ObjectReadsBack(valid, roots, None);
    case DeleteText(_, keys) => BindingsReadBack(valid, keys);
    case UpdateText(_, _, items) => ItemsReadBack(valid, items);
  }

  lemma OperationReadsBack(valid: Words, upper: Uppercase, o: OperationText, tail: Tokens)
    requires Vocabulary(valid) && ValidField(valid, upper, o.field)
    ensures ParseOperation(valid, upper, PrintOperation(o, tail))
         == Some((OperationOf(upper, o.field), Comma(o.comma, tail)))
  {
    var group := [Group(Paren, PrintArguments(o.field))] + Comma(o.comma, tail);
    assert PrintOperation(o, tail)[1..] == group && group[1..] == Comma(o.comma, tail);
    KindReadsBack(o.field);
    ModelReadsBack(valid, upper, o.field.words);
    ArgumentsReadBack(valid, upper, o.field);
  }

  lemma {:induction false} OperationsReadBack(valid: Words, upper: Uppercase, os: seq<OperationText>)
    requires Vocabulary(valid) && forall o <- os :: ValidField(valid, upper, o.field)
    ensures ParseOperations(valid, upper, PrintOperations(os)) == Some(OperationsOf(upper, os))
            && Ends(PrintOperations(os))
  {
    if os != [] {
      var rest := PrintOperations(os[1..]);
      assert os[0] in os && forall o <- os[1..] :: o in os;
      OperationsReadBack(valid, upper, os[1..]);
      OperationReadsBack(valid, upper, os[0], rest);
      CommaSkips(os[0].comma, rest);
      OperationsStep(valid, upper, PrintOperation(os[0], rest), OperationOf(upper, os[0].field),
                     Comma(os[0].comma, rest), OperationsOf(upper, os[1..]));
    }
  }

  lemma CommaSkips(comma: bool, tail: Tokens)
    requires !Peek(tail, ',')
    ensures SkipComma(Comma(comma, tail)) == tail
  {
    assert Comma(true, tail)[1..] == tail;
  }

  lemma OperationsStep(
    valid: Words, upper: Uppercase, ts: Tokens, o: Operation, rest: Tokens, more: seq<Operation>)
    requires ts != [] && ParseOperation(valid, upper, ts) == Some((o, rest))
    requires ParseOperations(valid, upper, SkipComma(rest)) == Some(more)
    ensures ParseOperations(valid, upper, ts) == Some([o] + more) && Ends(ts)
  {
  }

  lemma VersionReadsBack(valid: Words, version: Option<nat>, tail: Tokens)
    requires valid("version") && !Peek(tail, '@')
    requires version.Some? ==> version.value < 0x1_0000_0000_0000_0000
    ensures ParseVersion(valid, PrintVersion(version, tail)) == Some((version, tail))
  {
    if version.Some? {
      var group := [Group(Paren, [Number(version.value)])] + tail;
      var word := [Word("version")] + group;
      assert PrintVersion(version, tail)[1..] == word && word[1..] == group && group[1..] == tail;
    }
  }

  /** Every document reads back as what it says, however its paths and commas are spelled. */
  lemma DocumentReadsBack(valid: Words, upper: Uppercase, d: DocumentText)
    requires Vocabulary(valid) && ValidDocument(valid, upper, d)
    ensures ParseDocument(valid, upper, PrintDocument(d)) == Some(DeclarationOf(upper, d))
  {
    var inner := PrintOperations(d.operations);
    var version := PrintVersion(d.version, [Group(Brace, inner)]);
    FirstWord(valid, "mutation", [Word(d.name)] + version);
    FirstWord(valid, d.name, version);
    VersionReadsBack(valid, d.version, [Group(Brace, inner)]);
    assert ParseOperations(valid, upper, inner) == Some(OperationsOf(upper, d.operations)) by {
      OperationsReadBack(valid, upper, d.operations);
    }
  }

  // ---------------------------------------------------------------- nothing else is accepted

  lemma {:induction false} SegmentsSpelled(valid: Words, ts: Tokens, segments: seq<string>, rest: Tokens)
    requires ParseSegments(valid, ts) == Some((segments, rest))
    ensures ts == PrintSegments(segments, rest) && (forall w <- segments :: valid(w)) && !Peek(rest, '.')
    decreases |ts|
  {
    if Peek(ts, '.') {
      var word := ParseWord(valid, ts[1..]).value;
      var more := ParseSegments(valid, word.1).value;
      SegmentsSpelled(valid, word.1, more.0, more.1);
      assert segments == [word.0] + more.0 && segments[1..] == more.0;
      assert ts == [Punct('.')] + ts[1..] && ts[1..] == [Word(word.0)] + word.1;
    }
  }

  lemma {:induction false} DottedSpelled(valid: Words, ts: Tokens, words: seq<string>, rest: Tokens)
    requires ParseDotted(valid, ts) == Some((words, rest))
    ensures ts == PrintWords(words, rest) && words != [] && (forall w <- words :: valid(w))
  {
    var first := ParseWord(valid, ts).value;
    var more := ParseSegments(valid, first.1).value;
    SegmentsSpelled(valid, first.1, more.0, more.1);
    assert words == [first.0] + more.0 && words[1..] == more.0 && ts == [Word(first.0)] + first.1;
  }

  lemma {:induction false} PathSpelled(valid: Words, ts: Tokens, path: seq<string>, rest: Tokens)
    returns (p: PathText)
    requires ParseInputPath(valid, ts) == Some((path, rest))
    ensures ts == PrintPath(p, rest) && p.path == path && ValidPath(valid, p)
  {
    var dollar := Peek(ts, '$');
    var start := if dollar then ts[1..] else ts;
    var words := ParseDotted(valid, start).value.0;
    DottedSpelled(valid, start, words, rest);
    var prefixed := words[0] == "input";
    p := PathText(dollar, prefixed, path);
    assert prefixed ==> words == ["input"] + words[1..];
    assert path != [] && forall w <- path :: w in words;
    assert dollar ==> ts == [Punct('$')] + ts[1..];
    assert !dollar ==> [] + ts == ts;
  }

  lemma {:induction false} BindingSpelled(valid: Words, ts: Tokens, b: Binding, rest: Tokens) returns (t: BindingText)
    requires ParseBinding(valid, ts) == Some((b, rest))
    ensures ts == PrintBinding(t, rest) && BindingOf(t) == b && ValidBinding(valid, t)
  {
    var name := ParseWord(valid, ts).value;
    var colon := ParsePunct(name.1, ':').value;
    var path := ParseInputPath(valid, colon).value;
    var p := PathSpelled(valid, colon, path.0, path.1);
    var comma := Peek(path.1, ',');
    t := BindingText(name.0, p, comma);
    CommaShape(path.1);
    assert ts == [Word(name.0)] + name.1 && name.1 == [Punct(':')] + colon;
  }

  lemma {:induction false} BindingsSpelled(valid: Words, ts: Tokens, bs: seq<Binding>) returns (r: seq<BindingText>)
    requires ParseBindings(valid, ts) == Some(bs)
    ensures ts == PrintBindings(r) && BindingsOf(r) == bs && ValidBindings(valid, r)
    decreases |ts|
  {
    if ts == [] {
      r := [];
    } else {
      var first := ParseBinding(valid, ts).value;
      var t := BindingSpelled(valid, ts, first.0, first.1);
      var more := BindingsSpelled(valid, first.1, ParseBindings(valid, first.1).value);
      r := [t] + more;
      assert r[1..] == more;
    }
  }

  lemma {:induction false} ObjectSpelled(
    valid: Words, ts: Tokens, start: Option<seq<string>>, path: seq<string>) returns (roots: seq<BindingText>)
    requires ParseObjectArg(valid, ts, start) == Some(path)
    ensures ts == PrintBindings(roots) && ValidBindings(valid, roots) && (forall r <- roots :: r.name == "object")
    ensures if roots == [] then start == Some(path) else LastPath(roots) == path
    decreases |ts|
  {
    if ts == [] {
      roots := [];
    } else {
      var next := ParseBinding(valid, ts).value;
      var t := BindingSpelled(valid, ts, next.0, next.1);
      var more := ObjectSpelled(valid, next.1, Some(next.0.path), path);
      roots := [t] + more;
      assert roots[1..] == more;
      assert more != [] ==> roots[|roots| - 1] == more[|more| - 1];
    }
  }

  lemma {:induction false} ItemsSpelled(
    valid: Words, ts: Tokens, keys: seq<Binding>, sets: seq<Binding>) returns (items: seq<ItemText>)
    requires ParseUpdateItems(valid, ts) == Some((keys, sets))
    ensures ts == PrintItems(items) && KeysOf(items) == keys && SetsOf(items) == sets
    ensures forall item <- items :: ValidItem(valid, item)
    decreases |ts|
  {
    if ts == [] {
      items := [];
    } else if ParseWord(valid, ts).value.0 != "_set" {
      var key := ParseBinding(valid, ts).value;
      var t := BindingSpelled(valid, ts, key.0, key.1);
      var more := ParseUpdateItems(valid, key.1).value;
      var rest := ItemsSpelled(valid, key.1, more.0, more.1);
      items := [KeyItem(t)] + rest;
      assert items[1..] == rest && ts[0] == Word(t.name);
      assert [] + SetsOf(rest) == SetsOf(rest);
    } else {
      items := SetSpelled(valid, ts, keys, sets);
    }
  }

  /** The tokens of a `_set` block, and what is read of them. */
  lemma {:induction false} SetShape(valid: Words, ts: Tokens, keys: seq<Binding>, sets: seq<Binding>)
    returns (block: Tokens, comma: bool, tail: Tokens, bindings: seq<Binding>, more: seq<Binding>)
    requires ts != [] && ParseUpdateItems(valid, ts) == Some((keys, sets)) && ParseWord(valid, ts).value.0 == "_set"
    ensures ts == [Word("_set")] + ([Punct(':')] + ([Group(Brace, block)] + Comma(comma, tail))) && |tail| < |ts|
    ensures ParseBindings(valid, block) == Some(bindings) && ParseUpdateItems(valid, tail) == Some((keys, more))
    ensures sets == bindings + more
  {
    var after := ParseWord(valid, ts).value.1;
    var colon := ParsePunct(after, ':').value;
    block, comma, tail := colon[0].tokens, Peek(colon[1..], ','), SkipComma(colon[1..]);
    bindings, more := ParseBindings(valid, block).value, ParseUpdateItems(valid, tail).value.1;
    CommaShape(colon[1..]);
    assert colon == [Group(Brace, block)] + colon[1..];
    assert ts == [Word("_set")] + after && after == [Punct(':')] + colon;
  }

  lemma CommaShape(ts: Tokens)
    ensures ts == Comma(Peek(ts, ','), SkipComma(ts))
  {
    assert Peek(ts, ',') ==> ts == [Punct(',')] + ts[1..];
  }

  lemma {:induction false} SetSpelled(
    valid: Words, ts: Tokens, keys: seq<Binding>, sets: seq<Binding>) returns (items: seq<ItemText>)
    requires ts != [] && ParseUpdateItems(valid, ts) == Some((keys, sets)) && ParseWord(valid, ts).value.0 == "_set"
    ensures ts == PrintItems(items) && KeysOf(items) == keys && SetsOf(items) == sets
    ensures forall item <- items :: ValidItem(valid, item)
    decreases |ts|, 0
  {
    var block, comma, tail, bindings, more := SetShape(valid, ts, keys, sets);
    var bs := BindingsSpelled(valid, block, bindings);
    var rest := ItemsSpelled(valid, tail, keys, more);
    items := [SetItem(bs, comma)] + rest;
    assert items[1..] == rest && [] + KeysOf(rest) == KeysOf(rest);
  }

  /** A name with single underscores inside is a table of words. */
  lemma {:induction false} TableSpelled(name: string) returns (words: seq<string>)
    requires Spaced(name)
    ensures GoodWords(words) && Table(words) == name
    decreases |name|
  {
    if i :| 0 <= i < |name| && name[i] == '_' {
      var k := FirstUnderscore(name, i);
      var w, rest := name[..k], name[k + 1..];
      forall j | 0 < j < |rest| ensures !(rest[j - 1] == '_' && rest[j] == '_') {
        assert rest[j - 1] == name[k + j] && rest[j] == name[k + 1 + j];
      }
      assert rest != [] && rest[|rest| - 1] == name[|name| - 1];
      assert rest[0] != '_' by { assert rest[0] == name[k + 1] && !(name[k] == '_' && name[k + 1] == '_'); }
      var more := TableSpelled(rest);
      words := [w] + more;
      assert words[1..] == more && name == w + (['_'] + rest);
    } else {
      words := [name];
    }
  }

  lemma {:induction false} FirstUnderscore(name: string, i: nat) returns (k: nat)
    requires i < |name| && name[i] == '_' && name[0] != '_'
    ensures 0 < k <= i && name[k] == '_' && '_' !in name[..k]
  {
    k := 0;
    while name[k] != '_'
      invariant 0 <= k <= i && '_' !in name[..k]
      decreases i - k
    {
      assert name[..k + 1] == name[..k] + [name[k]];
      k := k + 1;
    }
  }

  lemma {:induction false} ModelSpelled(valid: Words, upper: Uppercase, name: string, model: string)
    returns (words: seq<string>)
    requires ModelName(valid, upper, name) == Some(model)
    ensures GoodWords(words) && Table(words) == name && Model(upper, words) == model && valid(model)
  {
    words := TableSpelled(name);
    PascalTable(upper, words);
  }

  lemma PrefixSpelled(s: string, p: string)
    requires StripPrefix(s, p).Some?
    ensures s == p + StripPrefix(s, p).value
  {
  }

  lemma SuffixSpelled(s: string, p: string)
    ensures StripSuffix(s, p).Some? <==> EndsWith(s, p)
    ensures StripSuffix(s, p).Some? ==> s == StripSuffix(s, p).value + p
  {
  }

  /** The name of the field, from its kind and table, with `_one` or `patch_` where it was written so. */
  ghost predicate Spelling(field: string, kind: Kind, table: string, variant: bool) {
    match kind
    case UpsertField => field == "upsert_" + table
    case InsertField =>
      field == "insert_" + (if variant then table + "_one" else table) && (variant || !EndsWith(table, "_one"))
    case DeleteField => field == "delete_" + (table + "_by_pk")
    case UpdateField => field == (if variant then "patch_" + (table + "_by_pk") else "update_" + (table + "_by_pk"))
  }

  lemma {:induction false} KindSpelled(field: string, kind: Kind, table: string) returns (variant: bool)
    requires FieldKind(field) == Some((kind, table))
    ensures Spelling(field, kind, table, variant)
  {
    variant := false;
    if StripPrefix(field, "upsert_").Some? {
      PrefixSpelled(field, "upsert_");
    } else if StripPrefix(field, "insert_").Some? {
      PrefixSpelled(field, "insert_");
      var rest := StripPrefix(field, "insert_").value;
      SuffixSpelled(rest, "_one");
      variant := StripSuffix(rest, "_one").Some?;
    } else {
      variant := ByKeySpelled(field, kind, table);
    }
  }

  lemma {:induction false} ByKeySpelled(field: string, kind: Kind, table: string) returns (variant: bool)
    requires FieldKind(field) == Some((kind, table))
    requires StripPrefix(field, "upsert_").None? && StripPrefix(field, "insert_").None?
    ensures Spelling(field, kind, table, variant)
  {
    var delete, update, patch :=
      StripPrefix(field, "delete_"), StripPrefix(field, "update_"), StripPrefix(field, "patch_");
    if delete.Some? && StripSuffix(delete.value, "_by_pk").Some? {
      PrefixSpelled(field, "delete_");
      SuffixSpelled(delete.value, "_by_pk");
      variant := false;
    } else if update.Some? && StripSuffix(update.value, "_by_pk").Some? {
      PrefixSpelled(field, "update_");
      SuffixSpelled(update.value, "_by_pk");
      variant := false;
    } else {
      PrefixSpelled(field, "patch_");
      SuffixSpelled(patch.value, "_by_pk");
      variant := true;
    }
  }

  lemma {:induction false} ArgumentsSpelled(
    valid: Words, upper: Uppercase, kind: Kind, words: seq<string>, variant: bool, args: Tokens, o: Operation)
    returns (f: FieldText)
    requires GoodWords(words) && ParseArguments(valid, kind, Model(upper, words), args) == Some(o)
    requires kind.InsertField? ==> variant || !EndsWith(Table(words), "_one")
    requires valid(Model(upper, words))
    ensures f.words == words && KindOf(f) == kind && args == PrintArguments(f) && OperationOf(upper, f) == o
    ensures f.InsertText? ==> f.one == variant
    ensures f.UpdateText? ==> f.patch == variant
    ensures GoodField(f) && (valid(FieldName(f)) ==> ValidField(valid, upper, f))
  {
    match kind
    case UpsertField =>
      var roots := ObjectSpelled(valid, args, None, o.root);
      f := UpsertText(words, roots);
    case InsertField =>
      var roots := ObjectSpelled(valid, args, None, o.root);
      f := InsertText(words, variant, roots);
    case DeleteField =>
      var keys := BindingsSpelled(valid, args, o.keys);
      f := DeleteText(words, keys);
    case UpdateField =>
      var items := ItemsSpelled(valid, args, o.keys, o.sets);
      f := UpdateText(words, variant, items);
  }

  /** The tokens of an operation, and what is read of them. */
  lemma {:induction false} OperationShape(valid: Words, upper: Uppercase, ts: Tokens, o: Operation, rest: Tokens)
    returns (field: string, args: Tokens, kind: Kind, table: string, model: string)
    requires ParseOperation(valid, upper, ts) == Some((o, rest))
    ensures ts == [Word(field)] + ([Group(Paren, args)] + rest) && valid(field)
    ensures FieldKind(field) == Some((kind, table)) && ModelName(valid, upper, table) == Some(model)
    ensures ParseArguments(valid, kind, model, args) == Some(o)
  {
    var word := ParseWord(valid, ts).value;
    field, args := word.0, word.1[0].tokens;
    kind, table := FieldKind(field).value.0, FieldKind(field).value.1;
    model := ModelName(valid, upper, table).value;
    assert ts == [Word(field)] + word.1 && word.1 == [word.1[0]] + rest;
  }

  lemma {:induction false} NameOf(f: FieldText, field: string, variant: bool)
    requires Spelling(field, KindOf(f), Table(f.words), variant)
    requires (f.InsertText? ==> f.one == variant) && (f.UpdateText? ==> f.patch == variant)
    ensures FieldName(f) == field
  {
  }

  lemma {:induction false} OperationSpelled(
    valid: Words, upper: Uppercase, ts: Tokens, o: Operation, rest: Tokens) returns (f: FieldText)
    requires ParseOperation(valid, upper, ts) == Some((o, rest))
    ensures ValidField(valid, upper, f) && OperationOf(upper, f) == o
    ensures ts == [Word(FieldName(f))] + ([Group(Paren, PrintArguments(f))] + rest)
  {
    var field, args, kind, table, model := OperationShape(valid, upper, ts, o, rest);
    var variant := KindSpelled(field, kind, table);
    var words := ModelSpelled(valid, upper, table, model);
    f := ArgumentsSpelled(valid, upper, kind, words, variant, args, o);
    NameOf(f, field, variant);
  }

  lemma {:induction false} OperationsSpelled(
    valid: Words, upper: Uppercase, ts: Tokens, os: seq<Operation>) returns (r: seq<OperationText>)
    requires ParseOperations(valid, upper, ts) == Some(os)
    ensures ts == PrintOperations(r) && OperationsOf(upper, r) == os
    ensures forall o <- r :: ValidField(valid, upper, o.field)
    decreases |ts|
  {
    if ts == [] {
      r := [];
    } else {
      var first := ParseOperation(valid, upper, ts).value;
      var f := OperationSpelled(valid, upper, ts, first.0, first.1);
      var tail := SkipComma(first.1);
      var more := OperationsSpelled(valid, upper, tail, ParseOperations(valid, upper, tail).value);
      r := [OperationText(f, Peek(first.1, ','))] + more;
      assert r[1..] == more;
      CommaShape(first.1);
    }
  }

  lemma {:induction false} VersionSpelled(valid: Words, ts: Tokens, version: Option<nat>, rest: Tokens)
    requires ParseVersion(valid, ts) == Some((version, rest))
    ensures ts == PrintVersion(version, rest) && (version.Some? ==> version.value < 0x1_0000_0000_0000_0000)
  {
    if Peek(ts, '@') {
      var word := ParseWord(valid, ts[1..]).value;
      assert ts == [Punct('@')] + ts[1..] && ts[1..] == [Word("version")] + word.1;
      assert word.1 == [word.1[0]] + rest && word.1[0].tokens == [Number(version.value)];
    }
  }

  lemma {:induction false} DocumentShape(valid: Words, upper: Uppercase, ts: Tokens, r: Declaration)
    returns (inner: Tokens)
    requires ParseDocument(valid, upper, ts) == Some(r)
    ensures ts == [Word("mutation")] + ([Word(r.name)] + PrintVersion(r.version, [Group(Brace, inner)]))
    ensures valid(r.name) && (r.version.Some? ==> r.version.value < 0x1_0000_0000_0000_0000) && r.operations != []
    ensures ParseOperations(valid, upper, inner) == Some(r.operations)
  {
    var keyword := ParseWord(valid, ts).value;
    var name := ParseWord(valid, keyword.1).value;
    var version := ParseVersion(valid, name.1).value;
    VersionSpelled(valid, name.1, version.0, version.1);
    inner := version.1[0].tokens;
    assert version.1 == [Group(Brace, inner)];
    assert ts == [Word("mutation")] + keyword.1 && keyword.1 == [Word(name.0)] + name.1;
  }

  /** Whatever tokens are accepted, some document prints them and says what was read. */
  lemma {:induction false} DocumentSpelled(valid: Words, upper: Uppercase, ts: Tokens, r: Declaration)
    returns (d: DocumentText)
    requires ParseDocument(valid, upper, ts) == Some(r)
    ensures ValidDocument(valid, upper, d) && ts == PrintDocument(d) && DeclarationOf(upper, d) == r
  {
    var inner := DocumentShape(valid, upper, ts, r);
    var operations := OperationsSpelled(valid, upper, inner, r.operations);
    d := DocumentText(r.name, r.version, operations);
  }

  /** The parser accepts exactly the printed documents, and each as what it says. */
  lemma {:induction false} DocumentExact(valid: Words, upper: Uppercase, ts: Tokens, r: Declaration)
    requires Vocabulary(valid)
    ensures ParseDocument(valid, upper, ts) == Some(r)
       <==> exists d :: ValidDocument(valid, upper, d) && ts == PrintDocument(d) && DeclarationOf(upper, d) == r
  {
    if ParseDocument(valid, upper, ts) == Some(r) {
      var d := DocumentSpelled(valid, upper, ts, r);
    }
    if d :| ValidDocument(valid, upper, d) && ts == PrintDocument(d) && DeclarationOf(upper, d) == r {
      DocumentReadsBack(valid, upper, d);
    }
  }
}
