/**
 Whatever a program does, the history an entity holds only grows, and while it is replaying
 the entity does not change at all.
 */
module Histories {
  import opened Wrappers
  import opened Recorder

  ghost predicate Grown(before: Entity, after: Entity) {
    && before.events <= after.events
    && after.replaying == before.replaying
    && (before.replaying ==> after == before)
  }

  lemma {:induction false} EvalGrows(p: Program, e: Expr, st: State, fuel: nat)
    ensures Eval(p, e, st, fuel).Diverge? || Grown(st.entity, Eval(p, e, st, fuel).st.entity)
    decreases fuel, 0, e, 1
  {
    match e
    case Paren(inner) => EvalGrows(p, inner, st, fuel);
    case Group(inner) => EvalGrows(p, inner, st, fuel);
    case Field(base, _) => EvalGrows(p, base, st, fuel);
    case Assign(_, right) => EvalGrows(p, right, st, fuel);
    case Call(_, args) => ArgsGrow(p, args, st, fuel);
    case MethodCall(_, _, _) => MethodGrows(p, e, st, fuel);
    case If(_, _, _) => BranchGrows(p, e, st, fuel);
    case While(_, _) => BranchGrows(p, e, st, fuel);
    case Block(stmts) => BlockGrows(p, stmts, st, fuel);
    case Try(inner) => EvalGrows(p, inner, st, fuel);
    case Return(inner) => EvalGrows(p, inner, st, fuel);
    case SetId(inner) => EvalGrows(p, inner, st, fuel);
    case _ =>
  }

  lemma {:induction false} BranchGrows(p: Program, e: Expr, st: State, fuel: nat)
    requires e.If? || e.While?
    ensures Eval(p, e, st, fuel).Diverge? || Grown(st.entity, Eval(p, e, st, fuel).st.entity)
    decreases fuel, 0, e, 0
  {
    EvalGrows(p, e.cond, st, fuel);
    var out := Eval(p, e.cond, st, fuel);
    if out.Val? && e.If? {
      BlockGrows(p, if out.v == Bool(true) then e.thn else e.els, out.st, fuel);
    } else if out.Val? && fuel > 0 {
      BlockGrows(p, e.body, out.st, fuel);
      var turn := EvalScope(p, e.body, out.st, fuel);
      if turn.Val? { EvalGrows(p, e, turn.st, fuel - 1); }
    }
  }

  lemma {:induction false} MethodGrows(p: Program, e: Expr, st: State, fuel: nat)
    requires e.MethodCall?
    ensures Eval(p, e, st, fuel).Diverge? || Grown(st.entity, Eval(p, e, st, fuel).st.entity)
    decreases fuel, 0, e, 0
  {
    if !IsSelf(e.receiver) && PlaceOf(e.receiver).NoPlace? {
      EvalGrows(p, e.receiver, st, fuel);
      var first := Eval(p, e.receiver, st, fuel);
      if first.Val? { ArgsGrow(p, e.args, first.st, fuel); }
    } else {
      ArgsGrow(p, e.args, st, fuel);
      var out := EvalArgs(p, e.args, st, fuel);
      if out.Vals? && IsSelf(e.receiver) && fuel > 0 { InvokeGrows(p, e.method_, out.vs, out.st, fuel - 1); }
    }
  }

  lemma {:induction false} ArgsGrow(p: Program, es: seq<Expr>, st: State, fuel: nat)
    ensures EvalArgs(p, es, st, fuel).DivergeOuts? || Grown(st.entity, EvalArgs(p, es, st, fuel).st.entity)
    decreases fuel, 0, es, 0
  {
    if es != [] {
      EvalGrows(p, es[0], st, fuel);
      var out := Eval(p, es[0], st, fuel);
      if out.Val? { ArgsGrow(p, es[1..], out.st, fuel); }
    }
  }

  lemma {:induction false} BlockGrows(p: Program, ss: seq<Stmt>, st: State, fuel: nat)
    ensures EvalBlock(p, ss, st, fuel).Diverge? || Grown(st.entity, EvalBlock(p, ss, st, fuel).st.entity)
    ensures EvalScope(p, ss, st, fuel).Diverge? || Grown(st.entity, EvalScope(p, ss, st, fuel).st.entity)
    decreases fuel, 0, ss, 0
  {
    if ss != [] {
      EvalGrows(p, Head(ss[0]), st, fuel);
      var out := Eval(p, Head(ss[0]), st, fuel);
      if out.Val? {
        var next := if ss[0].Let? then out.st.(locals := out.st.locals + [(ss[0].name, out.v)]) else out.st;
        BlockGrows(p, ss[1..], next, fuel);
      }
    }
  }

  lemma {:induction false} InvokeGrows(p: Program, name: string, args: seq<Value>, st: State, fuel: nat)
    ensures Invoke(p, name, args, st, fuel).Diverge? || Grown(st.entity, Invoke(p, name, args, st, fuel).st.entity)
    decreases fuel, 2
  {
    if name in p.methods {
      match p.methods[name]
      case Plain(_, params, body) => BlockGrows(p, body, st.(locals := Bind(params, args)), fuel);
      case Event(ev) => CallGrows(p, ev, args, st, fuel);
    }
  }

  /** One recorder call, of any program: what was recorded stays in place, and nothing is recorded in replay. */
  lemma {:induction false} CallGrows(p: Program, ev: EventMethod, args: seq<Value>, st: State, fuel: nat)
    ensures var out := CallEvent(p, ev, args, st, fuel);
            out.Looping? || Grown(st.entity, out.st.entity)
    decreases fuel, 1
  {
    var bound := st.(locals := Bind(ev.params, args));
    var x := if ev.guard.Some? then Eval(p, ev.guard.value, bound, fuel) else Val(Bool(true), bound);
    if ev.guard.Some? { EvalGrows(p, ev.guard.value, bound, fuel); }
    if x.Val? && x.v == Bool(true) { RecordedGrows(p, ev, args, x.st, st.locals, fuel); }
  }

  lemma {:induction false} RecordedGrows(
    p: Program, ev: EventMethod, args: seq<Value>, st: State, caller: seq<(string, Value)>, fuel: nat)
    ensures var out := Recorded(p, ev, args, st, caller, fuel);
            out.Looping? || Grown(st.entity, out.st.entity)
    decreases fuel, 0, ev.body, 3
  {
    var queued := Enqueue(p, ev, args, st.entity);
    if queued.Some? {
      var digested := st.(entity := Digest(queued.value, ev.name, ev.version, args));
      BlockGrows(p, ev.body, digested, fuel);
    }
  }
}
