/**
 Every expression that occurs in an expression or a block, and what the syntactic analyses find
 among them: each finds all occurrences of what it looks for, and nothing else.
 */
module Parts {
  import opened Wrappers
  import opened Recorder
  import opened Frames
  import opened Replay
  import opened Analyses

  function PartsOf(e: Expr): set<Expr> {
    {e} +
    match e
    case LitE(_) => {}
    case PathE(_) => {}
    case Paren(inner) => PartsOf(inner)
    case Group(inner) => PartsOf(inner)
    case Field(base, _) => PartsOf(base)
    case Assign(left, right) => PartsOf(left) + PartsOf(right)
    case Call(func, args) => PartsOf(func) + PartsOfArgs(args)
    case MethodCall(receiver, _, args) => PartsOf(receiver) + PartsOfArgs(args)
    case If(cond, thn, els) => PartsOf(cond) + PartsOfBlock(thn) + PartsOfBlock(els)
    case While(cond, body) => PartsOf(cond) + PartsOfBlock(body)
    case Block(stmts) => PartsOfBlock(stmts)
    case Try(inner) => PartsOf(inner)
    case Return(inner) => PartsOf(inner)
    case GetId => {}
    case SetId(inner) => PartsOf(inner)
  }

  function PartsOfArgs(es: seq<Expr>): set<Expr> {
    if es == [] then {} else PartsOf(es[0]) + PartsOfArgs(es[1..])
  }

  function PartsOfBlock(ss: seq<Stmt>): set<Expr> {
    if ss == [] then {} else PartsOf(Head(ss[0])) + PartsOfBlock(ss[1..])
  }

  // ---------------------------------------------------------------- early exits

  ghost predicate Stays(parts: set<Expr>) { forall x <- parts :: !x.Try? && !x.Return? }

  /** The early-exit check refuses exactly the expressions in which a `?` or a `return` occurs. */
  lemma {:induction false} NoExitExact(e: Expr)
    ensures NoExit(e) <==> Stays(PartsOf(e))
  {
    match e
    case Paren(inner) => NoExitExact(inner);
    case Group(inner) => NoExitExact(inner);
    case Field(base, _) => NoExitExact(base);
    case Assign(left, right) => NoExitExact(left); NoExitExact(right);
    case Call(func, args) => NoExitExact(func); NoExitArgsExact(args);
    case MethodCall(receiver, _, args) => NoExitExact(receiver); NoExitArgsExact(args);
    case If(cond, thn, els) => NoExitExact(cond); NoExitBlockExact(thn); NoExitBlockExact(els);
    case While(cond, body) => NoExitExact(cond); NoExitBlockExact(body);
    case Block(stmts) => NoExitBlockExact(stmts);
    case SetId(inner) => NoExitExact(inner);
    case Try(_) => assert e in PartsOf(e);
    case Return(_) => assert e in PartsOf(e);
    case _ =>
  }

  lemma {:induction false} NoExitArgsExact(es: seq<Expr>)
    ensures NoExitArgs(es) <==> Stays(PartsOfArgs(es))
  {
    if es != [] {
      NoExitExact(es[0]);
      NoExitArgsExact(es[1..]);
    }
  }

  lemma {:induction false} NoExitBlockExact(ss: seq<Stmt>)
    ensures NoExitBlock(ss) <==> Stays(PartsOfBlock(ss))
  {
    if ss != [] {
      NoExitExact(Head(ss[0]));
      NoExitBlockExact(ss[1..]);
    }
  }

  // ---------------------------------------------------------------- calls on self

  ghost predicate CallsMethod(x: Expr, m: string) { x.MethodCall? && IsSelf(x.receiver) && x.method_ == m }

  ghost predicate Mentions(parts: set<Expr>, m: string) { exists x <- parts :: CallsMethod(x, m) }

  /** The call finder finds a method exactly when a call of it on `self` occurs. */
  lemma {:induction false} CallsExact(e: Expr, m: string)
    ensures m in Calls(e) <==> Mentions(PartsOf(e), m)
  {
    match e
    case Paren(inner) => CallsExact(inner, m);
    case Group(inner) => CallsExact(inner, m);
    case Field(base, _) => CallsExact(base, m);
    case Assign(left, right) => CallsExact(left, m); CallsExact(right, m);
    case Call(func, args) => CallsExact(func, m); CallsArgsExact(args, m);
    case MethodCall(receiver, name, args) =>
      CallsExact(receiver, m);
      CallsArgsExact(args, m);
      if CallsMethod(e, m) { assert Mentions(PartsOf(e), m); }
    case If(cond, thn, els) => CallsExact(cond, m); CallsBlockExact(thn, m); CallsBlockExact(els, m);
    case While(cond, body) => CallsExact(cond, m); CallsBlockExact(body, m);
    case Block(stmts) => CallsBlockExact(stmts, m);
    case Try(inner) => CallsExact(inner, m);
    case Return(inner) => CallsExact(inner, m);
    case SetId(inner) => CallsExact(inner, m);
    case _ =>
  }

  lemma {:induction false} CallsArgsExact(es: seq<Expr>, m: string)
    ensures m in CallsArgs(es) <==> Mentions(PartsOfArgs(es), m)
  {
    if es != [] {
      CallsExact(es[0], m);
      CallsArgsExact(es[1..], m);
    }
  }

  lemma {:induction false} CallsBlockExact(ss: seq<Stmt>, m: string)
    ensures m in CallsBlock(ss) <==> Mentions(PartsOfBlock(ss), m)
  {
    if ss != [] {
      CallsExact(Head(ss[0]), m);
      CallsBlockExact(ss[1..], m);
    }
  }

  /** The generated event set is exactly the domain events whose recorder is called on `self` somewhere in the body. */
  lemma {:induction false} EventSetExact(p: Program, body: seq<Stmt>, name: string)
    requires Wired(p)
    ensures name in EventSet(p, body) <==> IsDomain(p, name) && Mentions(PartsOfBlock(body), p.events[name])
  {
    if name in EventSet(p, body) {
      var m :| m in CallsBlock(body) && m in p.methods && p.methods[m].Event? && p.methods[m].event.domain
               && p.methods[m].event.name == name;
      CallsBlockExact(body, m);
    }
    if IsDomain(p, name) { CallsBlockExact(body, p.events[name]); }
  }
}
