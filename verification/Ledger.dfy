/**
 The ledger of the replay tests, run by the semantics of recorder bodies, against its books
 kept in plain arithmetic: what is accepted, what is recorded, and what the fields hold.
 */
module Ledger {
  import opened Wrappers
  import opened Recorder
  import opened Frames
  import opened Replay
  import opened Identities
  import opened Analyses
  import opened Recording

  // ---------------------------------------------------------------- the books

  datatype Command = OpenAs(id: string) | Deposited(amount: int) | Withdrawn(amount: int) | Noted(note: string)

  datatype Sheet = Sheet(id: string, balance: int, applied: int, note: string)

  predicate Accepts(s: Sheet, c: Command) {
    match c
    case OpenAs(_) => s.id == ""
    case Deposited(amount) => amount > 0
    case Withdrawn(amount) => 0 < amount <= s.balance
    case Noted(note) => note != ""
  }

  function Enter(s: Sheet, c: Command): Sheet {
    match c
    case OpenAs(id) => s.(id := id)
    case Deposited(amount) => s.(balance := s.balance + amount, applied := s.applied + 1)
    case Withdrawn(amount) => s.(balance := s.balance - amount, applied := s.applied + 1)
    case Noted(note) => s.(note := note, applied := s.applied + 1)
  }

  /** The commands that are entered: accepted, with arguments both serializers take. */
  function Entered(p: Program, s: Sheet, cs: seq<Command>): seq<Command>
    decreases |cs|
  {
    if cs == [] then []
    else if Accepts(s, cs[0]) && Encodes(p, EventFor(cs[0]), CallFor(cs[0]).args)
    then [cs[0]] + Entered(p, Enter(s, cs[0]), cs[1..])
    else Entered(p, s, cs[1..])
  }

  function Book(s: Sheet, cs: seq<Command>): Sheet
    decreases |cs|
  {
    if cs == [] then s else Book(Enter(s, cs[0]), cs[1..])
  }

  function Total(cs: seq<Command>): int {
    if cs == [] then 0
    else (match cs[0] case Deposited(a) => a case Withdrawn(a) => -a case _ => 0) + Total(cs[1..])
  }

  // ---------------------------------------------------------------- the aggregate

  function CallFor(c: Command): EventCall {
    match c
    case OpenAs(id) => EventCall("open", [Str(id)])
    case Deposited(amount) => EventCall("deposit", [Num(amount)])
    case Withdrawn(amount) => EventCall("withdraw", [Num(amount)])
    case Noted(note) => EventCall("annotate", [Str(note)])
  }

  function EventFor(c: Command): EventMethod {
    match c
    case OpenAs(_) => Identities.Open()
    case Deposited(_) => Deposit()
    case Withdrawn(_) => Withdraw()
    case Noted(_) => Annotate()
  }

  function CallsFor(cs: seq<Command>): (r: seq<EventCall>)
    ensures |r| == |cs| && forall i | 0 <= i < |cs| :: r[i] == CallFor(cs[i])
  {
    seq(|cs|, i requires 0 <= i < |cs| => CallFor(cs[i]))
  }

  /** The aggregate's fields hold the sheet. */
  ghost predicate Holds(fields: map<Slot, Value>, s: Sheet) {
    && EntityId in fields && fields[EntityId] == Str(s.id)
    && Named("balance") in fields && fields[Named("balance")] == Num(s.balance)
    && Named("applied") in fields && fields[Named("applied")] == Num(s.applied)
    && Named("last_note") in fields && fields[Named("last_note")] == Str(s.note)
  }

  /** The operators on these two integers. */
  predicate Computes(o: Outside, a: int, b: int) {
    && (o.call)([">"], [Num(a), Num(b)]) == Bool(a > b) && (o.call)([">="], [Num(a), Num(b)]) == Bool(a >= b)
    && (o.call)(["+"], [Num(a), Num(b)]) == Num(a + b) && (o.call)(["-"], [Num(a), Num(b)]) == Num(a - b)
  }

  predicate Conjoins(o: Outside, a: bool, b: bool) { (o.call)(["&&"], [Bool(a), Bool(b)]) == Bool(a && b) }

  predicate Negates(o: Outside, a: bool) { (o.call)(["!"], [Bool(a)]) == Bool(!a) }

  /** The operators of the bodies are those of the integers, the truth values and strings. */
  ghost predicate Arithmetic(o: Outside) {
    && (forall a: int, b: int :: Computes(o, a, b)) && (forall a: bool, b: bool :: Conjoins(o, a, b))
    && (forall a: bool :: Negates(o, a)) && KnowsEmpty(o) && "is_empty" in o.readers
  }

  // ---------------------------------------------------------------- evaluation

  predicate Operator(name: string) { name != "Some" && name != "Ok" && name != "Err" }

  lemma {:induction false} EvalOne(p: Program, name: string, x: Expr, v: Value, st: State, fuel: nat)
    requires Operator(name) && Eval(p, x, st, fuel) == Val(v, st)
    ensures Eval(p, Op(name, [x]), st, fuel) == Val((p.outside.call)([name], [v]), st)
  {
    assert [x][1..] == [] && EvalArgs(p, [], st, fuel) == Vals([], st);
    assert EvalArgs(p, [x], st, fuel) == Vals([v] + [], st);
    assert [v] + [] == [v];
    OutsideCall(p.outside, name, [v]);
  }

  lemma {:induction false} EvalTwo(p: Program, name: string, x: Expr, y: Expr, v: Value, u: Value, st: State, fuel: nat)
    requires Operator(name) && Eval(p, x, st, fuel) == Val(v, st) && Eval(p, y, st, fuel) == Val(u, st)
    ensures Eval(p, Op(name, [x, y]), st, fuel) == Val((p.outside.call)([name], [v, u]), st)
  {
    assert [x, y][1..] == [y] && [y][1..] == [] && EvalArgs(p, [], st, fuel) == Vals([], st);
    assert EvalArgs(p, [y], st, fuel) == Vals([u] + [], st);
    assert EvalArgs(p, [x, y], st, fuel) == Vals([v] + [u], st);
    assert [v] + [u] == [v, u];
    OutsideCall(p.outside, name, [v, u]);
  }

  lemma {:induction false} OutsideCall(o: Outside, name: string, vs: seq<Value>)
    requires Operator(name)
    ensures CallOutside(o, PathE([name]), vs) == (o.call)([name], vs)
  {
    assert [name] != ["Some"] && [name] != ["Ok"] && [name] != ["Err"] by { assert [name][0] == name; }
    assert |[name]| != |["std", "string", "String", "from"]|;
  }

  lemma {:induction false} EvalLocal(p: Program, name: string, v: Value, st: State, fuel: nat)
    requires st.locals == [(name, v)] && name != "None"
    ensures Eval(p, Local(name), st, fuel) == Val(v, st)
  {
    assert [name] != ["None"] by { assert [name][0] == name; }
    assert Lookup(st.locals, name) == Some(v);
  }

  lemma {:induction false} EvalOwn(p: Program, field: string, st: State, fuel: nat)
    requires Named(field) in st.fields
    ensures Eval(p, Own(field), st, fuel) == Val(st.fields[Named(field)], st)
  {
  }

  lemma {:induction false} EvalSet(p: Program, field: string, e: Expr, v: Value, st: State, fuel: nat)
    requires Eval(p, e, st, fuel) == Val(v, st)
    ensures Eval(p, Assign(Own(field), e), st, fuel) == Val(Unit, st.(fields := st.fields[Named(field) := v]))
  {
    assert PlaceOf(Own(field)) == SelfPlace(Named(field), []);
  }

  /** `self.field = op(self.field, e)` */
  function Change(field: string, op: string, e: Expr): Expr { Assign(Own(field), Op(op, [Own(field), e])) }

  lemma {:induction false} EvalChange(
    p: Program, field: string, op: string, e: Expr, v: Value, u: Value, st: State, fuel: nat)
    requires Operator(op) && Named(field) in st.fields && st.fields[Named(field)] == v
    requires Eval(p, e, st, fuel) == Val(u, st)
    ensures Eval(p, Change(field, op, e), st, fuel)
         == Val(Unit, st.(fields := st.fields[Named(field) := (p.outside.call)([op], [v, u])]))
  {
    EvalOwn(p, field, st, fuel);
    EvalTwo(p, op, Own(field), e, v, u, st, fuel);
    EvalSet(p, field, Op(op, [Own(field), e]), (p.outside.call)([op], [v, u]), st, fuel);
  }

  lemma {:induction false} OneRuns(p: Program, e: Expr, st: State, end: State, fuel: nat)
    requires Eval(p, e, st, fuel) == Val(Unit, end) && end.locals == st.locals
    ensures EvalScope(p, [Do(e, true)], st, fuel) == Val(Unit, end)
  {
    assert [Do(e, true)][1..] == [] && EvalBlock(p, [], end, fuel) == Val(Unit, end);
    assert Leave(end, |st.locals|) == end;
  }

  lemma {:induction false} TwoRun(p: Program, x: Expr, y: Expr, st: State, mid: State, end: State, fuel: nat)
    requires Eval(p, x, st, fuel) == Val(Unit, mid) && Eval(p, y, mid, fuel) == Val(Unit, end)
    requires end.locals == st.locals
    ensures EvalScope(p, [Do(x, true), Do(y, true)], st, fuel) == Val(Unit, end)
  {
    var ss := [Do(x, true), Do(y, true)];
    assert ss[1..] == [Do(y, true)] && ss[1..][1..] == [] && EvalBlock(p, [], end, fuel) == Val(Unit, end);
    assert EvalBlock(p, ss[1..], mid, fuel) == Val(Unit, end);
    assert Leave(end, |st.locals|) == end;
  }

  // ---------------------------------------------------------------- one recorder

  /** The state a recorder's body starts in. */
  function Started(p: Program, ev: EventMethod, args: seq<Value>, st: State): State {
    State(st.fields, Bind(ev.params, args), WithRecord(p, ev, args, st.entity))
  }

  /** A call that was skipped, not recorded, or recorded and left these fields. */
  ghost predicate Ran(
    p: Program, ev: EventMethod, args: seq<Value>, st: State, yes: bool, fields: map<Slot, Value>, out: CallOut)
  {
    if !yes then out == Skipped(st)
    else if !Encodes(p, ev, args) then out == NotRecorded(State(st.fields, st.locals, Refused(p, ev, args, st.entity)))
    else out == Done(true, State(fields, st.locals, WithRecord(p, ev, args, st.entity)))
  }

  /** The entity after a call whose arguments do not encode: its event may be queued, and is not recorded. */
  function Refused(p: Program, ev: EventMethod, args: seq<Value>, en: Entity): Entity {
    if QueueEncodes(p, ev, args) then WithQueued(p, ev, args, en) else en
  }

  /** So a live call ends. */
  ghost predicate RunsTo(
    p: Program, ev: EventMethod, args: seq<Value>, st: State, yes: bool, fields: map<Slot, Value>, fuel: nat)
  {
    Ran(p, ev, args, st, yes, fields, CallEvent(p, ev, args, st, fuel))
  }

  /** A live call of a recorder without a domain marker, from what its guard says and what its body leaves. */
  lemma {:induction false} SimpleCall(
    p: Program, ev: EventMethod, args: seq<Value>, st: State, yes: bool, fields: map<Slot, Value>, fuel: nat)
    requires ev.guard.Some? && !ev.domain && ev.synthesized && !st.entity.replaying
    requires var bound := st.(locals := Bind(ev.params, args));
             Eval(p, ev.guard.value, bound, fuel) == Val(Bool(yes), bound)
    requires var start := Started(p, ev, args, st);
             yes ==> EvalScope(p, ev.body, start, fuel) == Val(Unit, start.(fields := fields))
    ensures RunsTo(p, ev, args, st, yes, fields, fuel)
  {
    var bound := st.(locals := Bind(ev.params, args));
    assert bound.(locals := st.locals) == st;
    if yes { SimpleRecorded(p, ev, args, bound, st.locals, fields, fuel); }
  }

  lemma {:induction false} SimpleRecorded(
    p: Program, ev: EventMethod, args: seq<Value>, st: State, caller: seq<(string, Value)>, fields: map<Slot, Value>,
    fuel: nat)
    requires !ev.domain && ev.synthesized && !st.entity.replaying
    requires var start := st.(entity := WithRecord(p, ev, args, st.entity));
             EvalScope(p, ev.body, start, fuel) == Val(Unit, start.(fields := fields))
    ensures var out := Recorded(p, ev, args, st, caller, fuel);
            if !Encodes(p, ev, args) then out == NotRecorded(State(st.fields, caller, Refused(p, ev, args, st.entity)))
            else out == Done(true, State(fields, caller, WithRecord(p, ev, args, st.entity)))
  {
    assert st.entity.queued + [] == st.entity.queued;
    assert Enqueue(p, ev, args, st.entity)
        == if QueueEncodes(p, ev, args) then Some(WithQueued(p, ev, args, st.entity)) else None;
    if Encodes(p, ev, args) {
      var start := st.(entity := WithRecord(p, ev, args, st.entity));
      assert start.entity == Digest(WithQueued(p, ev, args, st.entity), ev.name, ev.version, args);
      assert Recorded(p, ev, args, st, caller, fuel) == RunBody(p, ev, args, start, caller, fuel);
    }
  }

  /** A recorder of two statements. */
  lemma {:induction false} TwoStatementCall(
    p: Program, ev: EventMethod, args: seq<Value>, st: State, yes: bool, x: Expr, y: Expr,
    mid: map<Slot, Value>, end: map<Slot, Value>, fuel: nat)
    requires ev.guard.Some? && !ev.domain && ev.synthesized && !st.entity.replaying
    requires ev.body == [Do(x, true), Do(y, true)]
    requires var bound := st.(locals := Bind(ev.params, args));
             Eval(p, ev.guard.value, bound, fuel) == Val(Bool(yes), bound)
    requires var start := Started(p, ev, args, st);
             && Eval(p, x, start, fuel) == Val(Unit, start.(fields := mid))
             && Eval(p, y, start.(fields := mid), fuel) == Val(Unit, start.(fields := end))
    ensures RunsTo(p, ev, args, st, yes, end, fuel)
  {
    var start := Started(p, ev, args, st);
    TwoRun(p, x, y, start, start.(fields := mid), start.(fields := end), fuel);
    SimpleCall(p, ev, args, st, yes, end, fuel);
  }

  // ---------------------------------------------------------------- the four recorders

  /** What a call of a ledger's recorder does to a state that holds a sheet. */
  ghost predicate Keeps(
    p: Program, s: Sheet, c: Command, ev: EventMethod, args: seq<Value>, st: State, out: CallOut)
  {
    if !Accepts(s, c) then out == Skipped(st)
    else if !Encodes(p, ev, args) then out == NotRecorded(State(st.fields, st.locals, Refused(p, ev, args, st.entity)))
    else && out.Done? && out.ok && out.st.locals == st.locals && Holds(out.st.fields, Enter(s, c))
         && out.st.entity == WithRecord(p, ev, args, st.entity)
  }

  ghost predicate KeepsCall(
    p: Program, s: Sheet, c: Command, ev: EventMethod, args: seq<Value>, st: State, fuel: nat)
  {
    Keeps(p, s, c, ev, args, st, CallEvent(p, ev, args, st, fuel))
  }

  lemma {:induction false} BindOne(name: string, v: Value)
    ensures Bind([name], [v]) == [(name, v)]
  {
    assert [name][1..] == [] && [v][1..] == [];
    assert Bind([], []) == [];
  }

  lemma {:induction false} TakesId(
    p: Program, ev: EventMethod, name: string, id: string, s: Sheet, st: State, fuel: nat)
    requires ev.guard == Some(IS_UNSET) && !ev.domain && ev.synthesized && !st.entity.replaying && KnowsEmpty(p.outside)
    requires ev.params == [name] && name != "None" && ev.body == [Do(SetId(Local(name)), true)]
    requires EntityId in st.fields && st.fields[EntityId] == Str(s.id)
    ensures RunsTo(p, ev, [Str(id)], st, s.id == "", st.fields[EntityId := Str(id)], fuel)
  {
    var args := [Str(id)];
    BindOne(name, Str(id));
    var bound, start := st.(locals := [(name, Str(id))]), Started(p, ev, args, st);
    UnsetEvaluates(p, bound, fuel);
    EvalLocal(p, name, Str(id), start, fuel);
    var fields := st.fields[EntityId := Str(id)];
    OneRuns(p, SetId(Local(name)), start, start.(fields := fields), fuel);
    SimpleCall(p, ev, args, st, s.id == "", fields, fuel);
  }

  /** A recorder with one parameter whose body changes one field by it and counts. */
  lemma {:induction false} ChangesAndCounts(
    p: Program, ev: EventMethod, name: string, arg: Value, field: string, op: string, plus: string, count: string,
    st: State, yes: bool, fuel: nat)
    requires ev.guard.Some? && !ev.domain && ev.synthesized && !st.entity.replaying
    requires ev.params == [name] && name != "None" && Operator(op) && Operator(plus) && field != count
    requires ev.body == [Do(Change(field, op, Local(name)), true), Do(Change(count, plus, LitE(IntLit(1))), true)]
    requires Named(field) in st.fields && Named(count) in st.fields
    requires var bound := st.(locals := [(name, arg)]);
             Eval(p, ev.guard.value, bound, fuel) == Val(Bool(yes), bound)
    ensures RunsTo(p, ev, [arg], st, yes,
                st.fields[Named(field) := (p.outside.call)([op], [st.fields[Named(field)], arg])]
                         [Named(count) := (p.outside.call)([plus], [st.fields[Named(count)], Num(1)])], fuel)
  {
    BindOne(name, arg);
    var start := Started(p, ev, [arg], st);
    EvalLocal(p, name, arg, start, fuel);
    EvalChange(p, field, op, Local(name), st.fields[Named(field)], arg, start, fuel);
    var mid := st.fields[Named(field) := (p.outside.call)([op], [st.fields[Named(field)], arg])];
    EvalChange(p, count, plus, LitE(IntLit(1)), st.fields[Named(count)], Num(1), start.(fields := mid), fuel);
    var end := mid[Named(count) := (p.outside.call)([plus], [st.fields[Named(count)], Num(1)])];
    TwoStatementCall(p, ev, [arg], st, yes, Change(field, op, Local(name)), Change(count, plus, LitE(IntLit(1))),
                     mid, end, fuel);
  }

  /** A field is set to the parameter, then the count goes up. */
  lemma {:induction false} SetsAndCounts(
    p: Program, ev: EventMethod, name: string, arg: Value, field: string, plus: string, count: string, st: State,
    yes: bool, fuel: nat)
    requires ev.guard.Some? && !ev.domain && ev.synthesized && !st.entity.replaying
    requires ev.params == [name] && name != "None" && Operator(plus) && field != count
    requires ev.body == [Do(Assign(Own(field), Local(name)), true), Do(Change(count, plus, LitE(IntLit(1))), true)]
    requires Named(count) in st.fields
    requires var bound := st.(locals := [(name, arg)]);
             Eval(p, ev.guard.value, bound, fuel) == Val(Bool(yes), bound)
    ensures RunsTo(p, ev, [arg], st, yes,
                st.fields[Named(field) := arg]
                         [Named(count) := (p.outside.call)([plus], [st.fields[Named(count)], Num(1)])], fuel)
  {
    BindOne(name, arg);
    var start, mid := Started(p, ev, [arg], st), st.fields[Named(field) := arg];
    EvalLocal(p, name, arg, start, fuel);
    EvalSet(p, field, Local(name), arg, start, fuel);
    EvalChange(p, count, plus, LitE(IntLit(1)), st.fields[Named(count)], Num(1), start.(fields := mid), fuel);
    var end := mid[Named(count) := (p.outside.call)([plus], [st.fields[Named(count)], Num(1)])];
    TwoStatementCall(p, ev, [arg], st, yes, Assign(Own(field), Local(name)), Change(count, plus, LitE(IntLit(1))),
                     mid, end, fuel);
  }

  lemma {:induction false} ComparesLocal(p: Program, op: string, name: string, v: Value, n: int, st: State, fuel: nat)
    requires Operator(op) && name != "None" && st.locals == [(name, v)]
    ensures Eval(p, Op(op, [Local(name), LitE(IntLit(n))]), st, fuel) == Val((p.outside.call)([op], [v, Num(n)]), st)
  {
    EvalLocal(p, name, v, st, fuel);
    EvalTwo(p, op, Local(name), LitE(IntLit(n)), v, Num(n), st, fuel);
  }

  lemma {:induction false} ComparesField(
    p: Program, op: string, field: string, name: string, v: Value, st: State, fuel: nat)
    requires Operator(op) && name != "None" && st.locals == [(name, v)] && Named(field) in st.fields
    ensures Eval(p, Op(op, [Own(field), Local(name)]), st, fuel)
         == Val((p.outside.call)([op], [st.fields[Named(field)], v]), st)
  {
    EvalLocal(p, name, v, st, fuel);
    EvalOwn(p, field, st, fuel);
    EvalTwo(p, op, Own(field), Local(name), st.fields[Named(field)], v, st, fuel);
  }

  lemma {:induction false} AsksEmpty(p: Program, op: string, name: string, s: string, st: State, fuel: nat)
    requires Operator(op) && st.locals == [(name, Str(s))] && name != "self"
    requires KnowsEmpty(p.outside) && "is_empty" in p.outside.readers
    ensures Eval(p, Op(op, [MethodCall(Local(name), "is_empty", [])]), st, fuel)
         == Val((p.outside.call)([op], [Bool(s == "")]), st)
  {
    var empty := MethodCall(Local(name), "is_empty", []);
    assert [name] != ["self"] by { assert [name][0] == name; }
    assert PlaceOf(Local(name)) == LocalPlace(name, []);
    assert Lookup(st.locals, name) == Some(Str(s));
    assert EvalArgs(p, [], st, fuel) == Vals([], st);
    assert Eval(p, empty, st, fuel) == Val(Bool(s == ""), st);
    EvalOne(p, op, empty, Bool(s == ""), st, fuel);
  }

  lemma {:induction false} RunsToKeeps(
    p: Program, s: Sheet, c: Command, ev: EventMethod, args: seq<Value>, st: State, fields: map<Slot, Value>,
    fuel: nat)
    requires RunsTo(p, ev, args, st, Accepts(s, c), fields, fuel) && Holds(fields, Enter(s, c))
    ensures KeepsCall(p, s, c, ev, args, st, fuel)
  {
  }

  const BALANCE := "balance"
  const APPLIED := "applied"
  const LAST_NOTE := "last_note"

  lemma FieldsDiffer()
    ensures BALANCE != APPLIED && LAST_NOTE != APPLIED && BALANCE != LAST_NOTE
  {
    assert BALANCE[0] == 'b' && APPLIED[0] == 'a' && LAST_NOTE[0] == 'l';
  }

  /** A recorder whose body moves the balance by its parameter and counts. */
  lemma {:induction false} MovesBalance(
    p: Program, s: Sheet, c: Command, ev: EventMethod, name: string, amount: int, op: string, plus: string, st: State,
    fuel: nat)
    requires Holds(st.fields, s) && !st.entity.replaying
    requires ev.guard.Some? && !ev.domain && ev.synthesized && ev.params == [name] && name != "None"
    requires Operator(op) && Operator(plus)
    requires ev.body == [Do(Change(BALANCE, op, Local(name)), true), Do(Change(APPLIED, plus, LitE(IntLit(1))), true)]
    requires var bound := st.(locals := [(name, Num(amount))]);
             Eval(p, ev.guard.value, bound, fuel) == Val(Bool(Accepts(s, c)), bound)
    requires Enter(s, c) == s.(balance := Enter(s, c).balance, applied := s.applied + 1)
    requires (p.outside.call)([op], [Num(s.balance), Num(amount)]) == Num(Enter(s, c).balance)
    requires (p.outside.call)([plus], [Num(s.applied), Num(1)]) == Num(s.applied + 1)
    ensures KeepsCall(p, s, c, ev, [Num(amount)], st, fuel)
  {
    FieldsDiffer();
    ChangesAndCounts(p, ev, name, Num(amount), BALANCE, op, plus, APPLIED, st, Accepts(s, c), fuel);
    RunsToKeeps(p, s, c, ev, [Num(amount)], st,
                st.fields[Named(BALANCE) := Num(Enter(s, c).balance)][Named(APPLIED) := Num(s.applied + 1)], fuel);
  }

  lemma {:induction false} SetsNote(
    p: Program, s: Sheet, note: string, ev: EventMethod, name: string, plus: string, st: State, fuel: nat)
    requires Holds(st.fields, s) && !st.entity.replaying
    requires ev.guard.Some? && !ev.domain && ev.synthesized && ev.params == [name] && name != "None" && Operator(plus)
    requires ev.body == [Do(Assign(Own(LAST_NOTE), Local(name)), true),
                         Do(Change(APPLIED, plus, LitE(IntLit(1))), true)]
    requires var bound := st.(locals := [(name, Str(note))]);
             Eval(p, ev.guard.value, bound, fuel) == Val(Bool(note != ""), bound)
    requires (p.outside.call)([plus], [Num(s.applied), Num(1)]) == Num(s.applied + 1)
    ensures KeepsCall(p, s, Noted(note), ev, [Str(note)], st, fuel)
  {
    FieldsDiffer();
    SetsAndCounts(p, ev, name, Str(note), LAST_NOTE, plus, APPLIED, st, note != "", fuel);
    RunsToKeeps(p, s, Noted(note), ev, [Str(note)], st,
                st.fields[Named(LAST_NOTE) := Str(note)][Named(APPLIED) := Num(s.applied + 1)], fuel);
  }

  lemma {:induction false} OpenKeeps(p: Program, s: Sheet, id: string, st: State, fuel: nat)
    requires Arithmetic(p.outside) && Holds(st.fields, s) && !st.entity.replaying
    ensures KeepsCall(p, s, OpenAs(id), Identities.Open(), [Str(id)], st, fuel)
  {
    TakesId(p, Identities.Open(), "id", id, s, st, fuel);
    RunsToKeeps(p, s, OpenAs(id), Identities.Open(), [Str(id)], st, st.fields[EntityId := Str(id)], fuel);
  }

  lemma {:induction false} DepositKeeps(p: Program, s: Sheet, amount: int, st: State, fuel: nat)
    requires Arithmetic(p.outside) && Holds(st.fields, s) && !st.entity.replaying
    ensures KeepsCall(p, s, Deposited(amount), Deposit(), [Num(amount)], st, fuel)
  {
    assert Computes(p.outside, amount, 0) && Computes(p.outside, s.balance, amount);
    assert Computes(p.outside, s.applied, 1);
    ComparesLocal(p, ">", "amount", Num(amount), 0, st.(locals := [("amount", Num(amount))]), fuel);
    MovesBalance(p, s, Deposited(amount), Deposit(), "amount", amount, "+", "+", st, fuel);
  }

  lemma {:induction false} WithdrawGuard(p: Program, s: Sheet, amount: int, st: State, fuel: nat)
    requires Arithmetic(p.outside) && Holds(st.fields, s) && st.locals == [("amount", Num(amount))]
    ensures Eval(p, Withdraw().guard.value, st, fuel) == Val(Bool(0 < amount <= s.balance), st)
  {
    assert Computes(p.outside, amount, 0) && Computes(p.outside, s.balance, amount);
    assert Conjoins(p.outside, amount > 0, s.balance >= amount);
    ComparesLocal(p, ">", "amount", Num(amount), 0, st, fuel);
    ComparesField(p, ">=", "balance", "amount", Num(amount), st, fuel);
    EvalTwo(p, "&&", Op(">", [Local("amount"), LitE(IntLit(0))]), Op(">=", [Own("balance"), Local("amount")]),
            Bool(amount > 0), Bool(s.balance >= amount), st, fuel);
  }

  lemma {:induction false} WithdrawKeeps(p: Program, s: Sheet, amount: int, st: State, fuel: nat)
    requires Arithmetic(p.outside) && Holds(st.fields, s) && !st.entity.replaying
    ensures KeepsCall(p, s, Withdrawn(amount), Withdraw(), [Num(amount)], st, fuel)
  {
    assert Computes(p.outside, s.balance, amount) && Computes(p.outside, s.applied, 1);
    WithdrawGuard(p, s, amount, st.(locals := [("amount", Num(amount))]), fuel);
    MovesBalance(p, s, Withdrawn(amount), Withdraw(), "amount", amount, "-", "+", st, fuel);
  }

  lemma {:induction false} NoteKeeps(p: Program, s: Sheet, note: string, st: State, fuel: nat)
    requires Arithmetic(p.outside) && Holds(st.fields, s) && !st.entity.replaying
    ensures KeepsCall(p, s, Noted(note), Annotate(), [Str(note)], st, fuel)
  {
    assert Computes(p.outside, s.applied, 1) && Negates(p.outside, note == "");
    AsksEmpty(p, "!", "note", note, st.(locals := [("note", Str(note))]), fuel);
    SetsNote(p, s, note, Annotate(), "note", "+", st, fuel);
  }

  /** Every call of the ledger does to its fields and its history what the books say, and never fails. */
  lemma {:induction false} CallKeeps(p: Program, s: Sheet, c: Command, st: State, fuel: nat)
    requires Arithmetic(p.outside) && Holds(st.fields, s) && !st.entity.replaying
    ensures KeepsCall(p, s, c, EventFor(c), CallFor(c).args, st, fuel)
  {
    match c
    case OpenAs(id) => OpenKeeps(p, s, id, st, fuel);
    case Deposited(amount) => DepositKeeps(p, s, amount, st, fuel);
    case Withdrawn(amount) => WithdrawKeeps(p, s, amount, st, fuel);
    case Noted(note) => NoteKeeps(p, s, note, st, fuel);
  }

  // ---------------------------------------------------------------- runs

  lemma {:induction false} LedgerEvents(p: Program, o: Outside, codec: Codec, enqueues: bool, cs: seq<Command>)
    requires p == LedgerProgram(o, codec, enqueues)
    ensures CallsEvents(p, CallsFor(cs))
    ensures forall c <- cs :: CallFor(c).method_ in p.methods && p.methods[CallFor(c).method_] == Event(EventFor(c))
  {
  }

  /** The records of entered commands, numbered from the one after `last`. */
  function Entries(cs: seq<Command>, last: nat): seq<Record> {
    if cs == [] then []
    else [Record(EventFor(cs[0]).name, 1, CallFor(cs[0]).args, last + 1)] + Entries(cs[1..], last + 1)
  }

  /**
   Every run of the ledger ends, with its fields at the booked sheet and its history grown by
   exactly the entered commands.
   */
  lemma {:induction false} LedgerKeepsBooks(
    o: Outside, codec: Codec, enqueues: bool, p: Program, s: Sheet, cs: seq<Command>, st: State, fuel: nat)
    requires Arithmetic(o) && p == LedgerProgram(o, codec, enqueues)
    requires Holds(st.fields, s) && !st.entity.replaying && st.entity.version == st.entity.prefix + |st.entity.events|
    ensures CallsEvents(p, CallsFor(cs)) && Live(p, CallsFor(cs), st, fuel).Some?
    ensures var live := Live(p, CallsFor(cs), st, fuel).value;
            && Holds(live.fields, Book(s, Entered(p, s, cs)))
            && live.entity.events == st.entity.events + Entries(Entered(p, s, cs), st.entity.version)
    decreases |cs|
  {
    LedgerEvents(p, o, codec, enqueues, cs);
    if cs == [] {
      assert st.entity.events + [] == st.entity.events;
    } else {
      var c, rest := cs[0], cs[1..];
      assert c in cs && CallsFor(cs) == [CallFor(c)] + CallsFor(rest);
      LedgerEvents(p, o, codec, enqueues, rest);
      LiveStep(p, CallFor(c), CallsFor(rest), st, fuel);
      CallKeeps(p, s, c, st, fuel);
      LedgerStep(o, codec, enqueues, p, s, c, rest, st, LiveOut(p, CallFor(c), st, fuel), fuel);
    }
  }

  lemma {:induction false} LedgerStep(
    o: Outside, codec: Codec, enqueues: bool, p: Program, s: Sheet, c: Command, rest: seq<Command>, st: State,
    out: CallOut, fuel: nat)
    requires Arithmetic(o) && p == LedgerProgram(o, codec, enqueues)
    requires Holds(st.fields, s) && !st.entity.replaying && st.entity.version == st.entity.prefix + |st.entity.events|
    requires Keeps(p, s, c, EventFor(c), CallFor(c).args, st, out)
    ensures && !out.Looping? && CallsEvents(p, CallsFor(rest)) && Live(p, CallsFor(rest), out.st, fuel).Some?
            && var live := Live(p, CallsFor(rest), out.st, fuel).value;
               && Holds(live.fields, Book(s, Entered(p, s, [c] + rest)))
               && live.entity.events == st.entity.events + Entries(Entered(p, s, [c] + rest), st.entity.version)
    decreases |rest| + 1, 0
  {
    assert ([c] + rest)[0] == c && ([c] + rest)[1..] == rest;
    if Accepts(s, c) && Encodes(p, EventFor(c), CallFor(c).args) {
      LedgerKeepsBooks(o, codec, enqueues, p, Enter(s, c), rest, out.st, fuel);
      EnteredFirst(p, s, c, Entered(p, Enter(s, c), rest), st.entity, out.st.entity);
    } else {
      LedgerKeepsBooks(o, codec, enqueues, p, s, rest, out.st, fuel);
    }
  }

  lemma {:induction false} EnteredFirst(
    p: Program, s: Sheet, c: Command, later: seq<Command>, before: Entity, after: Entity)
    requires after == WithRecord(p, EventFor(c), CallFor(c).args, before)
    requires before.version == before.prefix + |before.events|
    ensures Book(s, [c] + later) == Book(Enter(s, c), later)
    ensures after.events + Entries(later, after.version) == before.events + Entries([c] + later, before.version)
  {
    assert ([c] + later)[0] == c && ([c] + later)[1..] == later;
    var r := Record(EventFor(c).name, 1, CallFor(c).args, before.version + 1);
    assert after.events == before.events + [r] && after.version == before.version + 1;
    assert before.events + [r] + Entries(later, before.version + 1)
        == before.events + ([r] + Entries(later, before.version + 1));
  }

  /** Entered commands never overdraw: a booked balance is what went in less what came out, and not negative. */
  lemma {:induction false} BookIsSolvent(p: Program, s: Sheet, cs: seq<Command>)
    requires s.balance >= 0
    ensures var end := Book(s, Entered(p, s, cs));
            end.balance == s.balance + Total(Entered(p, s, cs)) && end.balance >= 0
    decreases |cs|
  {
    if cs != [] {
      if Accepts(s, cs[0]) && Encodes(p, EventFor(cs[0]), CallFor(cs[0]).args) {
        var next, later := Enter(s, cs[0]), Entered(p, Enter(s, cs[0]), cs[1..]);
        BookIsSolvent(p, next, cs[1..]);
        assert ([cs[0]] + later)[0] == cs[0] && ([cs[0]] + later)[1..] == later;
      } else {
        BookIsSolvent(p, s, cs[1..]);
      }
    }
  }
}
