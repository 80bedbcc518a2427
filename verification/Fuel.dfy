/**
 Fuel only bounds executions: once an execution ends, more fuel gives the same end. What is
 proved of a run that ends is therefore about the run, not about its fuel.
 */
module Fuel {
  import opened Wrappers
  import opened Recorder

  /** An expression that ends ends the same with more fuel. */
  lemma {:induction false} MoreFuel(p: Program, e: Expr, st: State, fuel: nat, more: nat)
    requires fuel <= more && !Eval(p, e, st, fuel).Diverge?
    ensures Eval(p, e, st, more) == Eval(p, e, st, fuel)
    decreases fuel, 0, e, 1
  {
    match e
    case Paren(inner) => MoreFuel(p, inner, st, fuel, more);
    case Group(inner) => MoreFuel(p, inner, st, fuel, more);
    case Field(base, _) => if !IsSelf(base) { MoreFuel(p, base, st, fuel, more); }
    case Assign(_, right) => MoreFuel(p, right, st, fuel, more);
    case Call(_, args) => MoreFuelArgs(p, args, st, fuel, more);
    case MethodCall(_, _, _) => MoreFuelMethod(p, e, st, fuel, more);
    case If(cond, thn, els) =>
      MoreFuel(p, cond, st, fuel, more);
      var out := Eval(p, cond, st, fuel);
      if out.Val? { MoreFuelScope(p, if out.v == Bool(true) then thn else els, out.st, fuel, more); }
    case While(_, _) => MoreFuelWhile(p, e, st, fuel, more);
    case Block(stmts) => MoreFuelScope(p, stmts, st, fuel, more);
    case Try(inner) => MoreFuel(p, inner, st, fuel, more);
    case Return(inner) => MoreFuel(p, inner, st, fuel, more);
    case SetId(inner) => MoreFuel(p, inner, st, fuel, more);
    case _ =>
  }

  lemma {:induction false} MoreFuelWhile(p: Program, e: Expr, st: State, fuel: nat, more: nat)
    requires e.While? && fuel <= more && !Eval(p, e, st, fuel).Diverge?
    ensures Eval(p, e, st, more) == Eval(p, e, st, fuel)
    decreases fuel, 0, e, 0
  {
    MoreFuel(p, e.cond, st, fuel, more);
    var out := Eval(p, e.cond, st, fuel);
    if out.Val? && out.v == Bool(true) && fuel > 0 {
      MoreFuelScope(p, e.body, out.st, fuel, more);
      var turn := EvalScope(p, e.body, out.st, fuel);
      if turn.Val? { MoreFuel(p, e, turn.st, fuel - 1, more - 1); }
    }
  }

  lemma {:induction false} MoreFuelMethod(p: Program, e: Expr, st: State, fuel: nat, more: nat)
    requires e.MethodCall? && fuel <= more && !Eval(p, e, st, fuel).Diverge?
    ensures Eval(p, e, st, more) == Eval(p, e, st, fuel)
    decreases fuel, 0, e, 0
  {
    if !IsSelf(e.receiver) && PlaceOf(e.receiver).NoPlace? {
      MoreFuel(p, e.receiver, st, fuel, more);
      var first := Eval(p, e.receiver, st, fuel);
      if first.Val? { MoreFuelArgs(p, e.args, first.st, fuel, more); }
    } else {
      MoreFuelArgs(p, e.args, st, fuel, more);
      var out := EvalArgs(p, e.args, st, fuel);
      if out.Vals? && IsSelf(e.receiver) && fuel > 0 {
        MoreFuelInvoke(p, e.method_, out.vs, out.st, fuel - 1, more - 1);
      }
    }
  }

  lemma {:induction false} MoreFuelArgs(p: Program, es: seq<Expr>, st: State, fuel: nat, more: nat)
    requires fuel <= more && !EvalArgs(p, es, st, fuel).DivergeOuts?
    ensures EvalArgs(p, es, st, more) == EvalArgs(p, es, st, fuel)
    decreases fuel, 0, es, 0
  {
    if es != [] {
      MoreFuel(p, es[0], st, fuel, more);
      var out := Eval(p, es[0], st, fuel);
      if out.Val? { MoreFuelArgs(p, es[1..], out.st, fuel, more); }
    }
  }

  lemma {:induction false} MoreFuelScope(p: Program, ss: seq<Stmt>, st: State, fuel: nat, more: nat)
    requires fuel <= more && !EvalScope(p, ss, st, fuel).Diverge?
    ensures EvalScope(p, ss, st, more) == EvalScope(p, ss, st, fuel)
    decreases fuel, 0, ss, 1
  {
    MoreFuelBlock(p, ss, st, fuel, more);
  }

  lemma {:induction false} MoreFuelBlock(p: Program, ss: seq<Stmt>, st: State, fuel: nat, more: nat)
    requires fuel <= more && !EvalBlock(p, ss, st, fuel).Diverge?
    ensures EvalBlock(p, ss, st, more) == EvalBlock(p, ss, st, fuel)
    decreases fuel, 0, ss, 0
  {
    if ss != [] {
      MoreFuel(p, Head(ss[0]), st, fuel, more);
      var out := Eval(p, Head(ss[0]), st, fuel);
      if out.Val? && (ss[0].Let? || |ss| > 1 || ss[0].semi) {
        var next := if ss[0].Let? then out.st.(locals := out.st.locals + [(ss[0].name, out.v)]) else out.st;
        MoreFuelBlock(p, ss[1..], next, fuel, more);
      }
    }
  }

  lemma {:induction false} MoreFuelInvoke(p: Program, name: string, args: seq<Value>, st: State, fuel: nat, more: nat)
    requires fuel <= more && !Invoke(p, name, args, st, fuel).Diverge?
    ensures Invoke(p, name, args, st, more) == Invoke(p, name, args, st, fuel)
    decreases fuel, 2
  {
    if name in p.methods {
      match p.methods[name]
      case Plain(_, params, body) => MoreFuelBlock(p, body, st.(locals := Bind(params, args)), fuel, more);
      case Event(ev) => MoreFuelCall(p, ev, args, st, fuel, more);
    }
  }

  /** A recorder call that ends ends the same with more fuel. */
  lemma {:induction false} MoreFuelCall(p: Program, ev: EventMethod, args: seq<Value>, st: State, fuel: nat, more: nat)
    requires fuel <= more && !CallEvent(p, ev, args, st, fuel).Looping?
    ensures CallEvent(p, ev, args, st, more) == CallEvent(p, ev, args, st, fuel)
    decreases fuel, 1
  {
    var bound := st.(locals := Bind(ev.params, args));
    var x := if ev.guard.Some? then Eval(p, ev.guard.value, bound, fuel) else Val(Bool(true), bound);
    if ev.guard.Some? { MoreFuel(p, ev.guard.value, bound, fuel, more); }
    if x.Val? && x.v == Bool(true) { MoreFuelRecorded(p, ev, args, x.st, st.locals, fuel, more); }
  }

  lemma {:induction false} MoreFuelRecorded(
    p: Program, ev: EventMethod, args: seq<Value>, st: State, caller: seq<(string, Value)>, fuel: nat, more: nat)
    requires fuel <= more && !Recorded(p, ev, args, st, caller, fuel).Looping?
    ensures Recorded(p, ev, args, st, caller, more) == Recorded(p, ev, args, st, caller, fuel)
    decreases fuel, 0, ev.body, 3
  {
    var queued := Enqueue(p, ev, args, st.entity);
    if queued.Some? && (queued.value.replaying || (p.codec.payload)(ev.name, args)) {
      MoreFuelScope(p, ev.body, st.(entity := Digest(queued.value, ev.name, ev.version, args)), fuel, more);
    }
  }
}
