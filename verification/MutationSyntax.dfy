/**
 The GraphQL-looking mutation document, as tokens. `valid` says which words the language
 accepts as identifiers (not its keywords) and `upper` is Unicode uppercasing; both are
 parameters, and every statement holds whatever they are.
 */
module MutationSyntax {
  import opened Wrappers

  datatype Delimiter = Paren | Brace | Bracket

  datatype Token =
    | Word(name: string)
    | Punct(c: char)
    | Group(delimiter: Delimiter, tokens: seq<Token>)
    | Number(n: nat)
    | Other

  datatype Binding = Binding(name: string, path: seq<string>)

  datatype Operation =
    | Upsert(model: string, root: seq<string>)
    | InsertOne(model: string, root: seq<string>)
    | DeleteByPk(model: string, keys: seq<Binding>)
    | UpdateByPk(model: string, keys: seq<Binding>, sets: seq<Binding>)

  datatype Declaration = Declaration(name: string, version: Option<nat>, operations: seq<Operation>)

  type Words = string -> bool
  type Uppercase = char -> string
  type Tokens = seq<Token>

  // ---------------------------------------------------------------- tokens

  predicate Peek(ts: Tokens, c: char) { ts != [] && ts[0] == Punct(c) }

  function ParseWord(valid: Words, ts: Tokens): (r: Option<(string, Tokens)>)
    ensures r.Some? ==> |r.value.1| < |ts|
  {
    if ts != [] && ts[0].Word? && valid(ts[0].name) then Some((ts[0].name, ts[1..])) else None
  }

  function ParsePunct(ts: Tokens, c: char): (r: Option<Tokens>)
    ensures r.Some? ==> |r.value| < |ts|
  {
    if Peek(ts, c) then Some(ts[1..]) else None
  }

  function SkipComma(ts: Tokens): (r: Tokens)
    ensures |r| <= |ts|
  {
    if Peek(ts, ',') then ts[1..] else ts
  }

  // ---------------------------------------------------------------- paths and bindings

  /** The segments after the first, each behind a dot. */
  function ParseSegments(valid: Words, ts: Tokens): (r: Option<(seq<string>, Tokens)>)
    ensures r.Some? ==> |r.value.1| <= |ts|
    decreases |ts|
  {
    if !Peek(ts, '.') then Some(([], ts)) else
    var word := ParseWord(valid, ts[1..]);
    if word.None? then None else
    var more := ParseSegments(valid, word.value.1);
    if more.None? then None else Some(([word.value.0] + more.value.0, more.value.1))
  }

  function ParseDotted(valid: Words, ts: Tokens): (r: Option<(seq<string>, Tokens)>)
    ensures r.Some? ==> |r.value.1| < |ts|
  {
    var first := ParseWord(valid, ts);
    if first.None? then None else
    var more := ParseSegments(valid, first.value.1);
    if more.None? then None else Some(([first.value.0] + more.value.0, more.value.1))
  }

  /** A leading `input` segment is dropped; something must be left. */
  function Relative(path: seq<string>): Option<seq<string>> {
    var rest := if path != [] && path[0] == "input" then path[1..] else path;
    if rest == [] then None else Some(rest)
  }

  /** `$input.a.b`, `input.a.b`, `$a.b` or `a.b`. */
  function ParseInputPath(valid: Words, ts: Tokens): (r: Option<(seq<string>, Tokens)>)
    ensures r.Some? ==> |r.value.1| < |ts|
  {
    var dotted := ParseDotted(valid, if Peek(ts, '$') then ts[1..] else ts);
    if dotted.None? then None else
    var path := Relative(dotted.value.0);
    if path.None? then None else Some((path.value, dotted.value.1))
  }

  /** `name: path`, and a comma if there is one. */
  function ParseBinding(valid: Words, ts: Tokens): (r: Option<(Binding, Tokens)>)
    ensures r.Some? ==> |r.value.1| < |ts|
  {
    var name := ParseWord(valid, ts);
    if name.None? then None else
    var colon := ParsePunct(name.value.1, ':');
    if colon.None? then None else
    var path := ParseInputPath(valid, colon.value);
    if path.None? then None else Some((Binding(name.value.0, path.value.0), SkipComma(path.value.1)))
  }

  /** Bindings to the end of the tokens. */
  function ParseBindings(valid: Words, ts: Tokens): Option<seq<Binding>>
    decreases |ts|
  {
    if ts == [] then Some([]) else
    var first := ParseBinding(valid, ts);
    if first.None? then None else
    var more := ParseBindings(valid, first.value.1);
    if more.None? then None else Some([first.value.0] + more.value)
  }

  function ParseKeyArgs(valid: Words, ts: Tokens): Option<seq<Binding>> {
    var keys := ParseBindings(valid, ts);
    if keys.Some? && keys.value != [] then keys else None
  }

  /** The `object` argument; a later one replaces an earlier one. */
  function ParseObjectArg(valid: Words, ts: Tokens, root: Option<seq<string>>): Option<seq<string>>
    decreases |ts|
  {
    if ts == [] then root else
    var next := ParseBinding(valid, ts);
    if next.None? || next.value.0.name != "object" then None
    else ParseObjectArg(valid, next.value.1, Some(next.value.0.path))
  }

  /** Keys, and the bindings of every `_set` block, in the order they come. */
  function ParseUpdateItems(valid: Words, ts: Tokens): Option<(seq<Binding>, seq<Binding>)>
    decreases |ts|
  {
    if ts == [] then Some(([], [])) else
    var name := ParseWord(valid, ts);
    if name.None? then None else
    if name.value.0 != "_set" then
      var key := ParseBinding(valid, ts);
      if key.None? then None else
      var more := ParseUpdateItems(valid, key.value.1);
      if more.None? then None else Some(([key.value.0] + more.value.0, more.value.1))
    else
      var colon := ParsePunct(name.value.1, ':');
      if colon.None? || colon.value == [] || !colon.value[0].Group? || !colon.value[0].delimiter.Brace? then None else
      var sets := ParseBindings(valid, colon.value[0].tokens);
      if sets.None? then None else
      var more := ParseUpdateItems(valid, SkipComma(colon.value[1..]));
      if more.None? then None else Some((more.value.0, sets.value + more.value.1))
  }

  function ParseUpdateArgs(valid: Words, ts: Tokens): Option<(seq<Binding>, seq<Binding>)> {
    var items := ParseUpdateItems(valid, ts);
    if items.Some? && items.value.0 != [] && items.value.1 != [] then items else None
  }

  // ---------------------------------------------------------------- model names

  function StripPrefix(s: string, p: string): Option<string> { if p <= s then Some(s[|p|..]) else None }

  function StripSuffix(s: string, p: string): Option<string> {
    if |p| <= |s| && s[|s| - |p|..] == p then Some(s[..|s| - |p|]) else None
  }

  /** Splits at underscores, drops empty parts, and uppercases the first character of each. */
  function SnakeToPascal(upper: Uppercase, s: string): string { PascalFrom(upper, s, true) }

  function PascalFrom(upper: Uppercase, s: string, start: bool): string {
    if s == [] then []
    else if s[0] == '_' then PascalFrom(upper, s[1..], true)
    else (if start then upper(s[0]) else [s[0]]) + PascalFrom(upper, s[1..], false)
  }

  predicate HasDoubleUnderscore(s: string) { exists i | 0 < i < |s| :: s[i - 1] == '_' && s[i] == '_' }

  function ModelName(valid: Words, upper: Uppercase, name: string): Option<string> {
    if name == [] || name[0] == '_' || name[|name| - 1] == '_' || HasDoubleUnderscore(name) then None else
    var pascal := SnakeToPascal(upper, name);
    if valid(pascal) then Some(pascal) else None
  }

  // ---------------------------------------------------------------- operations

  datatype Kind = UpsertField | InsertField | DeleteField | UpdateField

  /** What a field name asks for, and the table or model it names. */
  function FieldKind(field: string): Option<(Kind, string)> {
    var upsert, insert := StripPrefix(field, "upsert_"), StripPrefix(field, "insert_");
    var delete, update, patch :=
      StripPrefix(field, "delete_"), StripPrefix(field, "update_"), StripPrefix(field, "patch_");
    if upsert.Some? then Some((UpsertField, upsert.value))
    else if insert.Some? then
      var one := StripSuffix(insert.value, "_one");
      Some((InsertField, if one.Some? then one.value else insert.value))
    else if delete.Some? && StripSuffix(delete.value, "_by_pk").Some? then
      Some((DeleteField, StripSuffix(delete.value, "_by_pk").value))
    else if update.Some? && StripSuffix(update.value, "_by_pk").Some? then
      Some((UpdateField, StripSuffix(update.value, "_by_pk").value))
    else if patch.Some? && StripSuffix(patch.value, "_by_pk").Some? then
      Some((UpdateField, StripSuffix(patch.value, "_by_pk").value))
    else None
  }

  function ParseArguments(valid: Words, kind: Kind, model: string, args: Tokens): Option<Operation> {
    match kind
    case UpsertField =>
      var root := ParseObjectArg(valid, args, None);
      if root.None? then None else Some(Upsert(model, root.value))
    case InsertField =>
      var root := ParseObjectArg(valid, args, None);
      if root.None? then None else Some(InsertOne(model, root.value))
    case DeleteField =>
      var keys := ParseKeyArgs(valid, args);
      if keys.None? then None else Some(DeleteByPk(model, keys.value))
    case UpdateField =>
      var items := ParseUpdateArgs(valid, args);
      if items.None? then None else Some(UpdateByPk(model, items.value.0, items.value.1))
  }

  function ParseOperation(valid: Words, upper: Uppercase, ts: Tokens): (r: Option<(Operation, Tokens)>)
    ensures r.Some? ==> |r.value.1| < |ts|
  {
    var field := ParseWord(valid, ts);
    if field.None? then None else
    var rest := field.value.1;
    if rest == [] || !rest[0].Group? || !rest[0].delimiter.Paren? then None else
    var kind := FieldKind(field.value.0);
    if kind.None? then None else
    var model := ModelName(valid, upper, kind.value.1);
    if model.None? then None else
    var operation := ParseArguments(valid, kind.value.0, model.value, rest[0].tokens);
    if operation.None? then None else Some((operation.value, rest[1..]))
  }

  function ParseOperations(valid: Words, upper: Uppercase, ts: Tokens): Option<seq<Operation>>
    decreases |ts|
  {
    if ts == [] then Some([]) else
    var first := ParseOperation(valid, upper, ts);
    if first.None? then None else
    var more := ParseOperations(valid, upper, SkipComma(first.value.1));
    if more.None? then None else Some([first.value.0] + more.value)
  }

  /** `@version(n)`, if it is there. */
  function ParseVersion(valid: Words, ts: Tokens): Option<(Option<nat>, Tokens)> {
    if !Peek(ts, '@') then Some((None, ts)) else
    var word := ParseWord(valid, ts[1..]);
    if word.None? || word.value.0 != "version" then None else
    var rest := word.value.1;
    if rest != [] && rest[0].Group? && rest[0].delimiter.Paren? && |rest[0].tokens| == 1 && rest[0].tokens[0].Number?
       && rest[0].tokens[0].n < 0x1_0000_0000_0000_0000
    then Some((Some(rest[0].tokens[0].n), rest[1..]))
    else None
  }

  function ParseDocument(valid: Words, upper: Uppercase, ts: Tokens): Option<Declaration> {
    var keyword := ParseWord(valid, ts);
    if keyword.None? || keyword.value.0 != "mutation" then None else
    var name := ParseWord(valid, keyword.value.1);
    if name.None? then None else
    var version := ParseVersion(valid, name.value.1);
    if version.None? then None else
    var rest := version.value.1;
    if |rest| != 1 || !rest[0].Group? || !rest[0].delimiter.Brace? then None else
    var operations := ParseOperations(valid, upper, rest[0].tokens);
    if operations.None? || operations.value == [] then None
    else Some(Declaration(name.value.0, version.value.0, operations.value))
  }
}
