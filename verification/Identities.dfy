/**
 Aggregates that take their id from the first event: as long as nothing but the id depends on
 whether the id is there yet, hydration, which starts with the id in place, rebuilds them.
 */
module Identities {
  import opened Wrappers
  import opened Recorder
  import opened Frames
  import opened Replay

  /** `self.entity.id().is_empty()` */
  const IS_UNSET := MethodCall(GetId, "is_empty", [])

  /** The outside world's `is_empty` on a string. */
  ghost predicate KnowsEmpty(o: Outside) {
    forall s: string :: (o.invoke)("is_empty", Str(s), []).1 == Bool(s == "")
  }

  lemma {:induction false} UnsetEvaluates(p: Program, st: State, fuel: nat)
    ensures Eval(p, IS_UNSET, st, fuel) == Val((p.outside.invoke)("is_empty", Get(st.fields, EntityId), []).1, st)
  {
    assert Eval(p, GetId, st, fuel) == Val(Get(st.fields, EntityId), st);
    assert EvalArgs(p, [], st, fuel) == Vals([], st);
  }

  lemma {:induction false} UnsetIsTest(p: Program)
    ensures Test(p, IS_UNSET)
  {
    assert WritesArgs(p.outside.readers, []) == {} && CallsArgs([]) == {};
  }

  /** An id that is not empty says no. */
  lemma {:induction false} UnsetRefuses(p: Program, id: string)
    requires KnowsEmpty(p.outside) && id != ""
    ensures Refuses(p, IS_UNSET, Str(id))
  {
    forall st: State, fuel: nat | EntityId in st.fields && st.fields[EntityId] == Str(id)
      ensures Eval(p, IS_UNSET, st, fuel).Val? && Eval(p, IS_UNSET, st, fuel).v != Bool(true)
    {
      UnsetEvaluates(p, st, fuel);
    }
  }

  function Unidentified(helpers: set<string>, id: Value): Watch { Early(helpers, {IS_UNSET}, id) }

  /** The recorder looks at the id only to take it where there is none. */
  ghost predicate SelfIdentifying(p: Program, helpers: set<string>, ev: EventMethod) {
    Replayable(p, Unidentified(helpers, Unit), ev)
  }

  ghost predicate AllSelfIdentifying(p: Program, helpers: set<string>, calls: seq<EventCall>) {
    && Helpers(p, helpers) && HelpersAvoid(p, Unidentified(helpers, Unit))
    && forall c <- calls ::
         && c.method_ in p.methods && p.methods[c.method_].Event?
         && SelfIdentifying(p, helpers, p.methods[c.method_].event)
  }

  lemma {:induction false} EarlyReplays(p: Program, helpers: set<string>, calls: seq<EventCall>, id: string)
    requires KnowsEmpty(p.outside) && AllSelfIdentifying(p, helpers, calls) && id != ""
    ensures CallsReplay(p, Unidentified(helpers, Str(id)), calls)
  {
    UnsetIsTest(p);
    UnsetRefuses(p, id);
    forall c <- calls ensures CallReplays(p, Unidentified(helpers, Str(id)), c) {
      assert SelfIdentifying(p, helpers, p.methods[c.method_].event);
    }
  }

  lemma {:induction false} LateReplays(p: Program, helpers: set<string>, calls: seq<EventCall>)
    requires AllSelfIdentifying(p, helpers, calls)
    ensures CallsReplay(p, Late(helpers), calls)
  {
    UnsetIsTest(p);
    forall c <- calls ensures CallReplays(p, Late(helpers), c) {
      var ev := p.methods[c.method_].event;
      assert SelfIdentifying(p, helpers, ev);
      if TakesIdOnce(p, Unidentified(helpers, Unit), ev) {
        assert OnlyLooks(p, helpers, ev.guard.value) by { assert Looking(p, {}); }
      }
    }
  }

  /**
   Every run of a new aggregate whose recorders look at the id only to take it is rebuilt by
   hydration, whether it ends with an id or without one.
   */
  lemma {:induction false} SelfIdentifyingReplays(
    p: Program, helpers: set<string>, calls: seq<EventCall>, st: State, id: string, fuel: nat)
    requires Wired(p) && KnowsEmpty(p.outside) && AllSelfIdentifying(p, helpers, calls) && CallsEvents(p, calls)
    requires Fresh(st) && Get(st.fields, EntityId) == Str("") && Live(p, calls, st, fuel).Some?
    requires Get(Live(p, calls, st, fuel).value.fields, EntityId) == Str(id)
    ensures Rebuilds(p, calls, st, fuel)
  {
    assert calls + [] == calls && [] + calls == calls;
    LateReplays(p, helpers, calls);
    LateReplays(p, helpers, []);
    if id == "" {
      ReplayReproduces(p, {}, {}, helpers, [], calls, st, fuel);
    } else {
      EarlyReplays(p, helpers, calls, id);
      ReplayReproduces(p, helpers, {IS_UNSET}, helpers, calls, [], st, fuel);
    }
  }

  /** Hydrating what the run recorded succeeds exactly when no recorded body failed, and rebuilds it. */
  ghost predicate Rebuilds(p: Program, calls: seq<EventCall>, st: State, fuel: nat)
    requires CallsEvents(p, calls) && Live(p, calls, st, fuel).Some?
  {
    var live := Live(p, calls, st, fuel).value;
    var hydrated := Hydrate(p, st.fields, Get(live.fields, EntityId), live.entity.events, fuel);
    && (hydrated.Some? <==> NoBodyFails(p, calls, st, fuel))
    && (hydrated.Some? ==> hydrated.value == Committed(live))
  }

  // ---------------------------------------------------------------- two aggregates of this kind

  function Own(field: string): Expr { Field(PathE(["self"]), Named(field)) }

  function Local(name: string): Expr { PathE([name]) }

  function Op(name: string, args: seq<Expr>): Expr { Call(PathE([name]), args) }

  function Add(field: string, amount: Expr): Stmt {
    Do(Assign(Own(field), Op("+", [Own(field), amount])), true)
  }

  /** An event method without a return type and without a domain marker. */
  function Simple(name: string, guard: Option<Expr>, params: seq<string>, body: seq<Stmt>): EventMethod {
    EventMethod(name, 1, guard, false, true, params, body)
  }

  /** `Ledger`: a guard that asks for an empty id, and a body that sets it. */
  function Open(): EventMethod {
    Simple("opened", Some(IS_UNSET), ["id"], [Do(SetId(Local("id")), true)])
  }

  function Deposit(): EventMethod {
    Simple("deposited", Some(Op(">", [Local("amount"), LitE(IntLit(0))])), ["amount"],
           [Add("balance", Local("amount")), Add("applied", LitE(IntLit(1)))])
  }

  function Withdraw(): EventMethod {
    Simple("withdrawn",
           Some(Op("&&", [Op(">", [Local("amount"), LitE(IntLit(0))]), Op(">=", [Own("balance"), Local("amount")])])),
           ["amount"],
           [Do(Assign(Own("balance"), Op("-", [Own("balance"), Local("amount")])), true),
            Add("applied", LitE(IntLit(1)))])
  }

  function Annotate(): EventMethod {
    Simple("annotated", Some(Op("!", [MethodCall(Local("note"), "is_empty", [])])), ["note"],
           [Do(Assign(Own("last_note"), Local("note")), true), Add("applied", LitE(IntLit(1)))])
  }

  /** `ReplayCounter`: the body takes the id where there is none, then adds. */
  function AddTotal(): EventMethod {
    Simple("added", None, ["id", "amount"],
           [Do(If(IS_UNSET, [Do(SetId(Local("id")), true)], []), false), Add("total", Local("amount"))])
  }

  function LedgerProgram(o: Outside, codec: Codec, enqueues: bool): Program {
    Program(
      map["open" := Event(Open()), "deposit" := Event(Deposit()), "withdraw" := Event(Withdraw()),
          "annotate" := Event(Annotate())],
      map["opened" := "open", "deposited" := "deposit", "withdrawn" := "withdraw", "annotated" := "annotate"],
      enqueues, o, codec)
  }

  function CounterProgram(o: Outside, codec: Codec, enqueues: bool): Program {
    Program(map["add" := Event(AddTotal())], map["added" := "add"], enqueues, o, codec)
  }

  // Footprints of the pieces these bodies are made of.

  lemma {:induction false} OneStatement(readers: set<string>, tests: set<Expr>, x: Stmt)
    ensures ReadsBlock(readers, tests, [x]) == Reads(readers, tests, Head(x)) && CallsBlock([x]) == Calls(Head(x))
    ensures WritesBlock(readers, [x]) == Writes(readers, Head(x))
    ensures StraightBlock(readers, [x]) <==> Straight(readers, Head(x))
  {
    assert [x][1..] == [];
    assert ReadsBlock(readers, tests, []) == {} && CallsBlock([]) == {} && WritesBlock(readers, []) == {};
  }

  lemma {:induction false} TwoStatements(readers: set<string>, tests: set<Expr>, x: Stmt, y: Stmt)
    ensures ReadsBlock(readers, tests, [x, y]) == Reads(readers, tests, Head(x)) + Reads(readers, tests, Head(y))
    ensures CallsBlock([x, y]) == Calls(Head(x)) + Calls(Head(y))
  {
    assert [x, y][1..] == [y];
    OneStatement(readers, tests, y);
  }

  lemma {:induction false} OneArg(readers: set<string>, tests: set<Expr>, x: Expr)
    ensures ReadsArgs(readers, tests, [x]) == Reads(readers, tests, x) && CallsArgs([x]) == Calls(x)
    ensures WritesArgs(readers, [x]) == Writes(readers, x) && (NoExitArgs([x]) <==> NoExit(x))
  {
    assert [x][1..] == [];
    assert ReadsArgs(readers, tests, []) == {} && CallsArgs([]) == {} && WritesArgs(readers, []) == {};
    assert NoExitArgs([]);
  }

  lemma {:induction false} TwoArgs(readers: set<string>, tests: set<Expr>, x: Expr, y: Expr)
    ensures ReadsArgs(readers, tests, [x, y]) == Reads(readers, tests, x) + Reads(readers, tests, y)
    ensures CallsArgs([x, y]) == Calls(x) + Calls(y)
    ensures WritesArgs(readers, [x, y]) == Writes(readers, x) + Writes(readers, y)
    ensures NoExitArgs([x, y]) <==> NoExit(x) && NoExit(y)
  {
    assert [x, y][1..] == [y];
    OneArg(readers, tests, y);
  }

  lemma {:induction false} OfArgs(readers: set<string>, tests: set<Expr>, name: string, args: seq<Expr>)
    ensures var e := Op(name, args);
            && Reads(readers, tests, e) == ReadsArgs(readers, tests, args) && Calls(e) == CallsArgs(args)
            && Writes(readers, e) == WritesArgs(readers, args) && (NoExit(e) <==> NoExitArgs(args))
  {
    assert Calls(PathE([name])) == {} && NoExit(PathE([name]));
  }

  lemma {:induction false} OneOperand(readers: set<string>, tests: set<Expr>, name: string, x: Expr)
    ensures var e := Op(name, [x]);
            && Reads(readers, tests, e) == Reads(readers, tests, x) && Calls(e) == Calls(x)
            && Writes(readers, e) == Writes(readers, x) && (NoExit(e) <==> NoExit(x))
  {
    OneArg(readers, tests, x);
    OfArgs(readers, tests, name, [x]);
  }

  lemma {:induction false} TwoOperands(readers: set<string>, tests: set<Expr>, name: string, x: Expr, y: Expr)
    ensures var e := Op(name, [x, y]);
            && Reads(readers, tests, e) == Reads(readers, tests, x) + Reads(readers, tests, y)
            && Calls(e) == Calls(x) + Calls(y)
            && Writes(readers, e) == Writes(readers, x) + Writes(readers, y)
            && (NoExit(e) <==> NoExit(x) && NoExit(y))
  {
    TwoArgs(readers, tests, x, y);
    OfArgs(readers, tests, name, [x, y]);
  }

  /** A plain operand: a literal, a parameter or a field. */
  predicate Operand(e: Expr) { e.LitE? || e.PathE? || (e.Field? && e.member.Named? && e == Own(e.member.name)) }

  lemma {:induction false} OperandFootprint(readers: set<string>, tests: set<Expr>, e: Expr)
    requires Operand(e)
    ensures EntityId !in Reads(readers, tests, e) && Calls(e) == {} && Writes(readers, e) == {} && NoExit(e)
  {
    if e.Field? { assert Calls(PathE(["self"])) == {} && Writes(readers, PathE(["self"])) == {}; }
  }

  /** A body statement that sets a field from plain operands. */
  lemma {:induction false} SetFootprint(readers: set<string>, tests: set<Expr>, field: string, right: Expr)
    requires EntityId !in Reads(readers, tests, right) && Calls(right) == {}
    ensures var e := Assign(Own(field), right); EntityId !in Reads(readers, tests, e) && Calls(e) == {}
  {
    OperandFootprint(readers, tests, Own(field));
  }

  lemma {:induction false} AddFootprint(readers: set<string>, tests: set<Expr>, field: string, amount: Expr)
    requires Operand(amount)
    ensures var e := Head(Add(field, amount)); EntityId !in Reads(readers, tests, e) && Calls(e) == {}
  {
    OperandFootprint(readers, tests, amount);
    OperandFootprint(readers, tests, Own(field));
    TwoOperands(readers, tests, "+", Own(field), amount);
    SetFootprint(readers, tests, field, Op("+", [Own(field), amount]));
  }

  lemma {:induction false} UnsetFootprint(readers: set<string>)
    ensures Reads(readers, {}, IS_UNSET) == {EntityId} && Calls(IS_UNSET) == {} && Writes(readers, IS_UNSET) == {}
    ensures Straight(readers, IS_UNSET)
  {
    assert ReadsArgs(readers, {}, []) == {} && CallsArgs([]) == {} && WritesArgs(readers, []) == {};
  }

  /** `self.entity.set_id(&id);` */
  function TakeId(): Stmt { Do(SetId(Local("id")), true) }

  lemma {:induction false} TakeIdFootprint(readers: set<string>)
    ensures Reads(readers, {}, Head(TakeId())) == {} && Calls(Head(TakeId())) == {}
    ensures Writes(readers, Head(TakeId())) == {EntityId} && Straight(readers, Head(TakeId()))
  {
  }

  // ---------------------------------------------------------------- each recorder

  lemma {:induction false} OpenIdentifies(p: Program)
    ensures SelfIdentifying(p, {}, Open())
  {
    UnsetFootprint(p.outside.readers);
    TakeIdFootprint(p.outside.readers);
    OneStatement(p.outside.readers, {}, TakeId());
    assert TakesIdOnce(p, Unidentified({}, Unit), Open());
  }

  /** A guard without calls that writes nothing, and a body without calls, neither looking at the id. */
  lemma {:induction false} PlainIdentifies(p: Program, ev: EventMethod)
    requires CallsBlock(ev.body) == {} && EntityId !in ReadsBlock(p.outside.readers, {IS_UNSET}, ev.body)
    requires ev.guard.Some? ==>
               var g := ev.guard.value;
               && NoExit(g) && Calls(g) == {} && Writes(p.outside.readers, g) == {}
               && EntityId !in Reads(p.outside.readers, {IS_UNSET}, g)
    ensures SelfIdentifying(p, {}, ev)
  {
    assert Looking(p, {});
    assert Ordinary(p, Unidentified({}, Unit), ev);
  }

  lemma {:induction false} DepositIdentifies(p: Program)
    ensures SelfIdentifying(p, {}, Deposit())
  {
    var r, tests, ev := p.outside.readers, {IS_UNSET}, Deposit();
    TwoOperands(r, tests, ">", Local("amount"), LitE(IntLit(0)));
    AddFootprint(r, tests, "balance", Local("amount"));
    AddFootprint(r, tests, "applied", LitE(IntLit(1)));
    TwoStatements(r, tests, ev.body[0], ev.body[1]);
    PlainIdentifies(p, ev);
  }

  lemma {:induction false} WithdrawIdentifies(p: Program)
    ensures SelfIdentifying(p, {}, Withdraw())
  {
    var r, tests, ev := p.outside.readers, {IS_UNSET}, Withdraw();
    var positive, covered := Op(">", [Local("amount"), LitE(IntLit(0))]), Op(">=", [Own("balance"), Local("amount")]);
    OperandFootprint(r, tests, Own("balance"));
    TwoOperands(r, tests, ">", Local("amount"), LitE(IntLit(0)));
    TwoOperands(r, tests, ">=", Own("balance"), Local("amount"));
    TwoOperands(r, tests, "&&", positive, covered);
    TwoOperands(r, tests, "-", Own("balance"), Local("amount"));
    SetFootprint(r, tests, "balance", Op("-", [Own("balance"), Local("amount")]));
    AddFootprint(r, tests, "applied", LitE(IntLit(1)));
    TwoStatements(r, tests, ev.body[0], ev.body[1]);
    PlainIdentifies(p, ev);
  }

  lemma {:induction false} AnnotateIdentifies(p: Program)
    requires "is_empty" in p.outside.readers
    ensures SelfIdentifying(p, {}, Annotate())
  {
    var r, tests, ev := p.outside.readers, {IS_UNSET}, Annotate();
    var empty := MethodCall(Local("note"), "is_empty", []);
    assert ReadsArgs(r, tests, []) == {} && CallsArgs([]) == {} && WritesArgs(r, []) == {};
    assert Reads(r, tests, empty) == {} && Calls(empty) == {} && Writes(r, empty) == {} && NoExit(empty);
    OneOperand(r, tests, "!", empty);
    SetFootprint(r, tests, "last_note", Local("note"));
    AddFootprint(r, tests, "applied", LitE(IntLit(1)));
    TwoStatements(r, tests, ev.body[0], ev.body[1]);
    PlainIdentifies(p, ev);
  }

  lemma {:induction false} TakesItsId(readers: set<string>)
    ensures var e := If(IS_UNSET, [TakeId()], []);
            TakesId(readers, {IS_UNSET}, e) && Reads(readers, {IS_UNSET}, e) == {} && Calls(e) == {}
  {
    UnsetFootprint(readers);
    TakeIdFootprint(readers);
    OneStatement(readers, {}, TakeId());
    assert CallsBlock([]) == {} && WritesBlock(readers, []) == {};
  }

  lemma {:induction false} AddTotalIdentifies(p: Program)
    ensures SelfIdentifying(p, {}, AddTotal())
  {
    var r, tests, ev := p.outside.readers, {IS_UNSET}, AddTotal();
    TakesItsId(r);
    AddFootprint(r, tests, "total", Local("amount"));
    TwoStatements(r, tests, ev.body[0], ev.body[1]);
    PlainIdentifies(p, ev);
  }

  // ---------------------------------------------------------------- the aggregates

  /** Every method records, and looks at the id only to take it. */
  ghost predicate TakesItsIdOnce(p: Program) {
    Wired(p) && KnowsEmpty(p.outside)
    && forall m <- p.methods :: p.methods[m].Event? && SelfIdentifying(p, {}, p.methods[m].event)
  }

  lemma {:induction false} EveryRunReplays(p: Program, calls: seq<EventCall>, st: State, id: string, fuel: nat)
    requires TakesItsIdOnce(p) && CallsEvents(p, calls) && Live(p, calls, st, fuel).Some?
    requires Fresh(st) && Get(st.fields, EntityId) == Str("")
    requires Get(Live(p, calls, st, fuel).value.fields, EntityId) == Str(id)
    ensures Rebuilds(p, calls, st, fuel)
  {
    forall c <- calls
      ensures c.method_ in p.methods && p.methods[c.method_].Event?
              && SelfIdentifying(p, {}, p.methods[c.method_].event)
    {
      var i :| 0 <= i < |calls| && calls[i] == c;
    }
    SelfIdentifyingReplays(p, {}, calls, st, id, fuel);
  }

  lemma {:induction false} LedgerWired(p: Program, o: Outside, codec: Codec, enqueues: bool)
    requires p == LedgerProgram(o, codec, enqueues)
    ensures Wired(p)
  {
  }

  lemma {:induction false} LedgerTakesItsId(p: Program, o: Outside, codec: Codec, enqueues: bool)
    requires KnowsEmpty(o) && "is_empty" in o.readers && p == LedgerProgram(o, codec, enqueues)
    ensures TakesItsIdOnce(p)
  {
    LedgerWired(p, o, codec, enqueues);
    forall m <- p.methods ensures p.methods[m].Event? && SelfIdentifying(p, {}, p.methods[m].event) {
      LedgerMethods(p, o, codec, enqueues, m);
    }
  }

  lemma {:induction false} LedgerMethods(p: Program, o: Outside, codec: Codec, enqueues: bool, m: string)
    requires "is_empty" in o.readers && p == LedgerProgram(o, codec, enqueues) && m in p.methods
    ensures p.methods[m].Event? && SelfIdentifying(p, {}, p.methods[m].event)
  {
    if p.methods[m] == Event(Open()) {
      OpenIdentifies(p);
    } else if p.methods[m] == Event(Deposit()) {
      DepositIdentifies(p);
    } else if p.methods[m] == Event(Withdraw()) {
      WithdrawIdentifies(p);
    } else {
      AnnotateIdentifies(p);
    }
  }

  /**
   Every run of a new ledger, deposits before it is opened included, is rebuilt by hydration,
   though its `open` asks for an empty id and hydration starts with the id in place.
   */
  lemma {:induction false} LedgerReplays(
    o: Outside, codec: Codec, enqueues: bool, p: Program, calls: seq<EventCall>, st: State, id: string, fuel: nat)
    requires KnowsEmpty(o) && "is_empty" in o.readers && p == LedgerProgram(o, codec, enqueues) && CallsEvents(p, calls)
    requires Fresh(st) && Get(st.fields, EntityId) == Str("") && Live(p, calls, st, fuel).Some?
    requires Get(Live(p, calls, st, fuel).value.fields, EntityId) == Str(id)
    ensures Rebuilds(p, calls, st, fuel)
  {
    LedgerTakesItsId(p, o, codec, enqueues);
    EveryRunReplays(p, calls, st, id, fuel);
  }

  lemma {:induction false} CounterTakesItsId(p: Program, o: Outside, codec: Codec, enqueues: bool)
    requires KnowsEmpty(o) && p == CounterProgram(o, codec, enqueues)
    ensures TakesItsIdOnce(p)
  {
    AddTotalIdentifies(p);
  }

  /** So is every run of a new counter whose `add` takes the id where there is none. */
  lemma {:induction false} CounterReplays(
    o: Outside, codec: Codec, enqueues: bool, p: Program, calls: seq<EventCall>, st: State, id: string, fuel: nat)
    requires KnowsEmpty(o) && p == CounterProgram(o, codec, enqueues) && CallsEvents(p, calls)
    requires Fresh(st) && Get(st.fields, EntityId) == Str("") && Live(p, calls, st, fuel).Some?
    requires Get(Live(p, calls, st, fuel).value.fields, EntityId) == Str(id)
    ensures Rebuilds(p, calls, st, fuel)
  {
    CounterTakesItsId(p, o, codec, enqueues);
    EveryRunReplays(p, calls, st, id, fuel);
  }
}
