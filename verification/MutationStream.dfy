/** The parsers as they run: a stream that is consumed in loops. */
module MutationStream {
  import opened Wrappers
  import opened Collections
  import opened MutationSyntax

  ghost function SegmentsOnto(done: seq<string>, r: Option<(seq<string>, Tokens)>): Option<(seq<string>, Tokens)> {
    if r.None? then None else Some((done + r.value.0, r.value.1))
  }

  lemma SegmentsOntoTwice(done: seq<string>, x: string, r: Option<(seq<string>, Tokens)>)
    ensures SegmentsOnto(done + [x], r) == SegmentsOnto(done, SegmentsOnto([x], r))
  {
    if r.Some? { assert done + [x] + r.value.0 == done + ([x] + r.value.0); }
  }

  lemma SegmentsOntoNone(done: seq<string>, ts: Tokens)
    ensures SegmentsOnto(done, Some(([], ts))) == Some((done, ts))
  {
    assert done + [] == done;
  }

  class Stream {
    var rest: Tokens

    constructor (ts: Tokens)
      ensures rest == ts
    {
      rest := ts;
    }

    method TakeWord(valid: Words) returns (r: Option<string>)
      modifies this
      ensures match ParseWord(valid, old(rest))
              case None => r == None && rest == old(rest)
              case Some(p) => r == Some(p.0) && rest == p.1
    {
      var p := ParseWord(valid, rest);
      if p.None? { return None; }
      rest := p.value.1;
      return Some(p.value.0);
    }

    method SkipComma()
      modifies this
      ensures rest == MutationSyntax.SkipComma(old(rest))
    {
      if Peek(rest, ',') { rest := rest[1..]; }
    }

    method InputPath(valid: Words) returns (r: Option<seq<string>>)
      modifies this
      ensures match ParseInputPath(valid, old(rest))
              case None => r == None
              case Some(p) => r == Some(p.0) && rest == p.1
    {
      if Peek(rest, '$') { rest := rest[1..]; }
      ghost var start := rest;
      var first := TakeWord(valid);
      if first.None? { return None; }
      var path := [first.value];
      while Peek(rest, '.')
        invariant ParseDotted(valid, start) == SegmentsOnto(path, ParseSegments(valid, rest))
        invariant path != []
        decreases |rest|
      {
        rest := rest[1..];
        var word := TakeWord(valid);
        if word.None? { return None; }
        SegmentsOntoTwice(path, word.value, ParseSegments(valid, rest));
        path := path + [word.value];
      }
      SegmentsOntoNone(path, rest);
      if path[0] == "input" { path := path[1..]; }
      if path == [] { return None; }
      return Some(path);
    }

    method TakeBinding(valid: Words) returns (r: Option<Binding>)
      modifies this
      ensures match ParseBinding(valid, old(rest))
              case None => r == None
              case Some(p) => r == Some(p.0) && rest == p.1
    {
      var name := TakeWord(valid);
      if name.None? || !Peek(rest, ':') { return None; }
      rest := rest[1..];
      var path := InputPath(valid);
      if path.None? { return None; }
      SkipComma();
      return Some(Binding(name.value, path.value));
    }

    method Bindings(valid: Words) returns (r: Option<seq<Binding>>)
      modifies this
      ensures r == ParseBindings(valid, old(rest))
    {
      var keys: seq<Binding> := [];
      while rest != []
        invariant ParseBindings(valid, old(rest)) == Prepend(keys, ParseBindings(valid, rest))
        decreases |rest|
      {
        var key := TakeBinding(valid);
        if key.None? { return None; }
        PrependTwice(keys, key.value, ParseBindings(valid, rest));
        keys := keys + [key.value];
      }
      return Some(keys);
    }

    method ObjectArg(valid: Words) returns (r: Option<seq<string>>)
      modifies this
      ensures r == ParseObjectArg(valid, old(rest), None)
    {
      r := None;
      while rest != []
        invariant ParseObjectArg(valid, old(rest), None) == ParseObjectArg(valid, rest, r)
        decreases |rest|
      {
        var next := TakeBinding(valid);
        if next.None? || next.value.name != "object" { return None; }
        r := Some(next.value.path);
      }
    }

    /** One operation: its field, its model, and the arguments the field's kind calls for. */
    method TakeOperation(valid: Words, upper: Uppercase) returns (r: Option<Operation>)
      modifies this
      ensures match ParseOperation(valid, upper, old(rest))
              case None => r == None
              case Some(p) => r == Some(p.0) && rest == p.1
    {
      var field := TakeWord(valid);
      if field.None? || rest == [] || !rest[0].Group? || !rest[0].delimiter.Paren? { return None; }
      var kind := FieldKind(field.value);
      if kind.None? { return None; }
      var model := ModelName(valid, upper, kind.value.1);
      if model.None? { return None; }
      var arguments := rest[0].tokens;
      rest := rest[1..];
      r := TakeArguments(valid, kind.value.0, model.value, arguments);
    }

    method Operations(valid: Words, upper: Uppercase) returns (r: Option<seq<Operation>>)
      modifies this
      ensures r == ParseOperations(valid, upper, old(rest))
    {
      var operations: seq<Operation> := [];
      while rest != []
        invariant ParseOperations(valid, upper, old(rest)) == Prepend(operations, ParseOperations(valid, upper, rest))
        decreases |rest|
      {
        var next := TakeOperation(valid, upper);
        if next.None? { return None; }
        SkipComma();
        PrependTwice(operations, next.value, ParseOperations(valid, upper, rest));
        operations := operations + [next.value];
      }
      return Some(operations);
    }
  }

  ghost function Both(keys: seq<Binding>, sets: seq<Binding>, r: Option<(seq<Binding>, seq<Binding>)>)
    : (s: Option<(seq<Binding>, seq<Binding>)>)
    ensures keys == [] && sets == [] ==> s == r
    ensures r == Some(([], [])) ==> s == Some((keys, sets))
  {
    if r.None? then None else
    assert keys + [] == keys && [] + r.value.0 == r.value.0 && sets + [] == sets && [] + r.value.1 == r.value.1;
    Some((keys + r.value.0, sets + r.value.1))
  }

  lemma BothKey(keys: seq<Binding>, sets: seq<Binding>, key: Binding, r: Option<(seq<Binding>, seq<Binding>)>)
    ensures Both(keys + [key], sets, r)
         == Both(keys, sets, if r.None? then None else Some(([key] + r.value.0, r.value.1)))
  {
    if r.Some? { assert keys + [key] + r.value.0 == keys + ([key] + r.value.0); }
  }

  lemma BothSets(keys: seq<Binding>, sets: seq<Binding>, more: seq<Binding>, r: Option<(seq<Binding>, seq<Binding>)>)
    ensures Both(keys, sets + more, r)
         == Both(keys, sets, if r.None? then None else Some((r.value.0, more + r.value.1)))
  {
    if r.Some? { assert sets + more + r.value.1 == sets + (more + r.value.1); }
  }

  /** The loop over update arguments, with its inner loop over each `_set` block. */
  method UpdateArgs(valid: Words, ts: Tokens) returns (r: Option<(seq<Binding>, seq<Binding>)>)
    ensures r == ParseUpdateArgs(valid, ts)
  {
    var stream := new Stream(ts);
    var keys: seq<Binding>, sets: seq<Binding> := [], [];
    while stream.rest != []
      invariant ParseUpdateItems(valid, ts) == Both(keys, sets, ParseUpdateItems(valid, stream.rest))
      decreases |stream.rest|
    {
      var name := ParseWord(valid, stream.rest);
      if name.None? { return None; }
      if name.value.0 == "_set" {
        var after := name.value.1;
        if !Peek(after, ':') || |after| < 2 || !after[1].Group? || !after[1].delimiter.Brace? { return None; }
        assert after[1..][0] == after[1] && after[1..][1..] == after[2..];
        var content := new Stream(after[1].tokens);
        var block := content.Bindings(valid);
        if block.None? { return None; }
        stream.rest := after[2..];
        stream.SkipComma();
        BothSets(keys, sets, block.value, ParseUpdateItems(valid, stream.rest));
        sets := sets + block.value;
      } else {
        var key := stream.TakeBinding(valid);
        if key.None? { return None; }
        BothKey(keys, sets, key.value, ParseUpdateItems(valid, stream.rest));
        keys := keys + [key.value];
      }
    }
    if keys == [] || sets == [] { return None; }
    return Some((keys, sets));
  }

  /** The arguments between an operation's parentheses. */
  method TakeArguments(valid: Words, kind: Kind, model: string, arguments: Tokens) returns (r: Option<Operation>)
    ensures r == ParseArguments(valid, kind, model, arguments)
  {
    var stream := new Stream(arguments);
    match kind
    case UpsertField =>
      var root := stream.ObjectArg(valid);
      r := if root.None? then None else Some(Upsert(model, root.value));
    case InsertField =>
      var root := stream.ObjectArg(valid);
      r := if root.None? then None else Some(InsertOne(model, root.value));
    case DeleteField =>
      var keys := stream.Bindings(valid);
      r := if keys.None? || keys.value == [] then None else Some(DeleteByPk(model, keys.value));
    case UpdateField =>
      var items := UpdateArgs(valid, arguments);
      r := if items.None? then None else Some(UpdateByPk(model, items.value.0, items.value.1));
  }
}
