/**
 What an expression can touch, read off its syntax, and the three facts every analysis of
 recorder bodies rests on: no early exit, untouched slots stay, and runs that differ only in
 slots nobody reads stay in step.
 */
module Frames {
  import opened Wrappers
  import opened Recorder

  // ---------------------------------------------------------------- syntactic footprints

  /** The visitor of `ensure_domain_body_has_no_early_exit`: no `?` and no `return` anywhere. */
  predicate NoExit(e: Expr) {
    match e
    case LitE(_) => true
    case PathE(_) => true
    case Paren(inner) => NoExit(inner)
    case Group(inner) => NoExit(inner)
    case Field(base, _) => NoExit(base)
    case Assign(left, right) => NoExit(left) && NoExit(right)
    case Call(func, args) => NoExit(func) && NoExitArgs(args)
    case MethodCall(receiver, _, args) => NoExit(receiver) && NoExitArgs(args)
    case If(cond, thn, els) => NoExit(cond) && NoExitBlock(thn) && NoExitBlock(els)
    case While(cond, body) => NoExit(cond) && NoExitBlock(body)
    case Block(stmts) => NoExitBlock(stmts)
    case Try(_) => false
    case Return(_) => false
    case GetId => true
    case SetId(inner) => NoExit(inner)
  }

  predicate NoExitArgs(es: seq<Expr>) {
    es == [] || (NoExit(es[0]) && NoExitArgs(es[1..]))
  }

  predicate NoExitBlock(ss: seq<Stmt>) {
    ss == [] || (NoExit(Head(ss[0])) && NoExitBlock(ss[1..]))
  }

  /** The methods called on `self`, wherever the call stands. */
  function Calls(e: Expr): set<string> {
    match e
    case LitE(_) => {}
    case PathE(_) => {}
    case Paren(inner) => Calls(inner)
    case Group(inner) => Calls(inner)
    case Field(base, _) => Calls(base)
    case Assign(left, right) => Calls(left) + Calls(right)
    case Call(func, args) => Calls(func) + CallsArgs(args)
    case MethodCall(receiver, name, args) =>
      (if IsSelf(receiver) then {name} else {}) + Calls(receiver) + CallsArgs(args)
    case If(cond, thn, els) => Calls(cond) + CallsBlock(thn) + CallsBlock(els)
    case While(cond, body) => Calls(cond) + CallsBlock(body)
    case Block(stmts) => CallsBlock(stmts)
    case Try(inner) => Calls(inner)
    case Return(inner) => Calls(inner)
    case GetId => {}
    case SetId(inner) => Calls(inner)
  }

  function CallsArgs(es: seq<Expr>): set<string> {
    if es == [] then {} else Calls(es[0]) + CallsArgs(es[1..])
  }

  function CallsBlock(ss: seq<Stmt>): set<string> {
    if ss == [] then {} else Calls(Head(ss[0])) + CallsBlock(ss[1..])
  }

  /** The aggregate slots that can be assigned, or changed through the receiver of a method that is no reader. */
  function Writes(readers: set<string>, e: Expr): set<Slot> {
    match e
    case LitE(_) => {}
    case PathE(_) => {}
    case Paren(inner) => Writes(readers, inner)
    case Group(inner) => Writes(readers, inner)
    case Field(base, _) => Writes(readers, base)
    case Assign(left, right) =>
      Writes(readers, right) + (if PlaceOf(left).SelfPlace? then {PlaceOf(left).slot} else {})
    case Call(_, args) => WritesArgs(readers, args)
    case MethodCall(receiver, name, args) =>
      WritesArgs(readers, args) + Writes(readers, receiver) +
      (if name !in readers && !IsSelf(receiver) && PlaceOf(receiver).SelfPlace? then {PlaceOf(receiver).slot} else {})
    case If(cond, thn, els) => Writes(readers, cond) + WritesBlock(readers, thn) + WritesBlock(readers, els)
    case While(cond, body) => Writes(readers, cond) + WritesBlock(readers, body)
    case Block(stmts) => WritesBlock(readers, stmts)
    case Try(inner) => Writes(readers, inner)
    case Return(inner) => Writes(readers, inner)
    case GetId => {}
    case SetId(inner) => Writes(readers, inner) + {EntityId}
  }

  function WritesArgs(readers: set<string>, es: seq<Expr>): set<Slot> {
    if es == [] then {} else Writes(readers, es[0]) + WritesArgs(readers, es[1..])
  }

  function WritesBlock(readers: set<string>, ss: seq<Stmt>): set<Slot> {
    if ss == [] then {} else Writes(readers, Head(ss[0])) + WritesBlock(readers, ss[1..])
  }

  /**
   Straight code: no `?` or `return`, no loop, no call on `self`, and no change to a local. It
   always ends, and leaves the locals as they are.
   */
  predicate Straight(readers: set<string>, e: Expr) {
    match e
    case LitE(_) => true
    case PathE(_) => true
    case Paren(inner) => Straight(readers, inner)
    case Group(inner) => Straight(readers, inner)
    case Field(base, _) => Straight(readers, base)
    case Assign(left, right) => Straight(readers, right) && !PlaceOf(left).LocalPlace?
    case Call(_, args) => StraightArgs(readers, args)
    case MethodCall(receiver, name, args) =>
      && Straight(readers, receiver) && StraightArgs(readers, args) && !IsSelf(receiver)
      && (name in readers || !PlaceOf(receiver).LocalPlace?)
    case If(cond, thn, els) => Straight(readers, cond) && StraightBlock(readers, thn) && StraightBlock(readers, els)
    case While(_, _) => false
    case Block(stmts) => StraightBlock(readers, stmts)
    case Try(_) => false
    case Return(_) => false
    case GetId => true
    case SetId(inner) => Straight(readers, inner)
  }

  predicate StraightArgs(readers: set<string>, es: seq<Expr>) {
    es == [] || (Straight(readers, es[0]) && StraightArgs(readers, es[1..]))
  }

  predicate StraightBlock(readers: set<string>, ss: seq<Stmt>) {
    ss == [] || (Straight(readers, Head(ss[0])) && StraightBlock(readers, ss[1..]))
  }

  /** A block whose value is `()`. */
  predicate EndsUnit(ss: seq<Stmt>) {
    ss == [] || ss[|ss| - 1].Let? || ss[|ss| - 1].semi
  }

  /** `if <test> { .. }` around straight code that writes at most the id: the way an aggregate takes its id once. */
  predicate TakesId(readers: set<string>, tests: set<Expr>, e: Expr) {
    && e.If? && e.cond in tests && e.els == [] && EndsUnit(e.thn)
    && Straight(readers, e) && Calls(e) == {} && Writes(readers, e) <= {EntityId}
  }

  /**
   The aggregate slots whose old value can matter. Where an aggregate takes its id behind one of
   the `tests`, the old id matters only to the id itself and is not counted.
   */
  function Reads(readers: set<string>, tests: set<Expr>, e: Expr): set<Slot> {
    match e
    case LitE(_) => {}
    case PathE(_) => {}
    case Paren(inner) => Reads(readers, tests, inner)
    case Group(inner) => Reads(readers, tests, inner)
    case Field(base, member) => if IsSelf(base) then {member} else Reads(readers, tests, base)
    case Assign(left, right) =>
      Reads(readers, tests, right) +
      (if PlaceOf(left).SelfPlace? && PlaceOf(left).below != [] then {PlaceOf(left).slot} else {})
    case Call(_, args) => ReadsArgs(readers, tests, args)
    case MethodCall(receiver, _, args) =>
      ReadsArgs(readers, tests, args) +
      (if IsSelf(receiver) then {}
       else if PlaceOf(receiver).SelfPlace? then {PlaceOf(receiver).slot}
       else if PlaceOf(receiver).NoPlace? then Reads(readers, tests, receiver)
       else {})
    case If(cond, thn, els) =>
      if TakesId(readers, tests, e) then Reads(readers, {}, cond) + ReadsBlock(readers, {}, thn) - {EntityId}
      else Reads(readers, tests, cond) + ReadsBlock(readers, tests, thn) + ReadsBlock(readers, tests, els)
    case While(cond, body) => Reads(readers, tests, cond) + ReadsBlock(readers, tests, body)
    case Block(stmts) => ReadsBlock(readers, tests, stmts)
    case Try(inner) => Reads(readers, tests, inner)
    case Return(inner) => Reads(readers, tests, inner)
    case GetId => {EntityId}
    case SetId(inner) => Reads(readers, tests, inner)
  }

  function ReadsArgs(readers: set<string>, tests: set<Expr>, es: seq<Expr>): set<Slot> {
    if es == [] then {} else Reads(readers, tests, es[0]) + ReadsArgs(readers, tests, es[1..])
  }

  function ReadsBlock(readers: set<string>, tests: set<Expr>, ss: seq<Stmt>): set<Slot> {
    if ss == [] then {} else Reads(readers, tests, Head(ss[0])) + ReadsBlock(readers, tests, ss[1..])
  }

  /** A set of plain helper methods that only call one another: none of them records. */
  ghost predicate Helpers(p: Program, helpers: set<string>) {
    forall m <- helpers :: m in p.methods && p.methods[m].Plain? && CallsBlock(p.methods[m].body) <= helpers
  }

  ghost predicate HelpersAvoid(p: Program, w: Watch) {
    forall m <- w.helpers :: m in p.methods && p.methods[m].Plain?
      ==> ReadsBlock(p.outside.readers, w.tests, p.methods[m].body) !! w.hidden
  }

  ghost predicate HelpersSpare(p: Program, helpers: set<string>, slot: Slot) {
    forall m <- helpers :: m in p.methods && p.methods[m].Plain?
      ==> slot !in WritesBlock(p.outside.readers, p.methods[m].body)
  }

  /**
   What two runs of the same code may call and may differ in. With `tests`, the second run
   starts from the stored `id`, and each test says no to it.
   */
  datatype Watch = Watch(helpers: set<string>, hidden: set<Slot>, tests: set<Expr>, id: Option<Value>)

  /** The expression is not true of an aggregate with this id, whatever else it holds. */
  ghost predicate Refuses(p: Program, e: Expr, id: Value) {
    forall st: State, fuel: nat | EntityId in st.fields && st.fields[EntityId] == id ::
      Eval(p, e, st, fuel).Val? && Eval(p, e, st, fuel).v != Bool(true)
  }

  /** Tests only look, always end, and refuse the stored id. */
  ghost predicate Tests(p: Program, w: Watch) {
    forall t <- w.tests :: w.id.Some? && Test(p, t) && Refuses(p, t, w.id.value)
  }

  ghost predicate Test(p: Program, t: Expr) {
    NoExit(t) && Straight(p.outside.readers, t) && Calls(t) == {} && Writes(p.outside.readers, t) == {}
  }

  // ---------------------------------------------------------------- no early exit

  lemma {:induction false} NeverReturns(p: Program, e: Expr, st: State, fuel: nat)
    requires NoExit(e)
    ensures !Eval(p, e, st, fuel).Ret?
    decreases fuel, e, 1
  {
    match e
    case Paren(inner) => NeverReturns(p, inner, st, fuel);
    case Group(inner) => NeverReturns(p, inner, st, fuel);
    case Field(base, _) => NeverReturns(p, base, st, fuel);
    case Assign(_, right) => NeverReturns(p, right, st, fuel);
    case Call(_, args) => NeverReturnsArgs(p, args, st, fuel);
    case MethodCall(receiver, _, args) =>
      NeverReturnsArgs(p, args, st, fuel);
      NeverReturns(p, receiver, st, fuel);
      var out := Eval(p, receiver, st, fuel);
      if out.Val? { NeverReturnsArgs(p, args, out.st, fuel); }
    case If(cond, thn, els) =>
      NeverReturns(p, cond, st, fuel);
      var out := Eval(p, cond, st, fuel);
      if out.Val? {
        NeverReturnsBlock(p, thn, out.st, fuel);
        NeverReturnsBlock(p, els, out.st, fuel);
      }
    case While(cond, body) =>
      NeverReturns(p, cond, st, fuel);
      var out := Eval(p, cond, st, fuel);
      if out.Val? && fuel > 0 {
        NeverReturnsBlock(p, body, out.st, fuel);
        var turn := EvalScope(p, body, out.st, fuel);
        if turn.Val? { NeverReturns(p, e, turn.st, fuel - 1); }
      }
    case Block(stmts) => NeverReturnsBlock(p, stmts, st, fuel);
    case SetId(inner) => NeverReturns(p, inner, st, fuel);
    case _ =>
  }

  lemma {:induction false} NeverReturnsArgs(p: Program, es: seq<Expr>, st: State, fuel: nat)
    requires NoExitArgs(es)
    ensures !EvalArgs(p, es, st, fuel).RetOuts?
    decreases fuel, es, 0
  {
    if es != [] {
      NeverReturns(p, es[0], st, fuel);
      var out := Eval(p, es[0], st, fuel);
      if out.Val? { NeverReturnsArgs(p, es[1..], out.st, fuel); }
    }
  }

  lemma {:induction false} NeverReturnsBlock(p: Program, ss: seq<Stmt>, st: State, fuel: nat)
    requires NoExitBlock(ss)
    ensures !EvalBlock(p, ss, st, fuel).Ret? && !EvalScope(p, ss, st, fuel).Ret?
    decreases fuel, ss, 0
  {
    if ss != [] {
      NeverReturns(p, Head(ss[0]), st, fuel);
      var out := Eval(p, Head(ss[0]), st, fuel);
      if out.Val? {
        NeverReturnsBlock(p, ss[1..], out.st, fuel);
        if ss[0].Let? {
          NeverReturnsBlock(p, ss[1..], out.st.(locals := out.st.locals + [(ss[0].name, out.v)]), fuel);
        }
      }
    }
  }

  // ---------------------------------------------------------------- untouched slots stay

  ghost predicate Kept(slot: Slot, a: State, b: State) {
    a.entity == b.entity && (slot in a.fields <==> slot in b.fields)
      && (slot in a.fields ==> a.fields[slot] == b.fields[slot])
  }

  ghost predicate Spares(p: Program, helpers: set<string>, slot: Slot) {
    Helpers(p, helpers) && HelpersSpare(p, helpers, slot)
  }

  /** Code that calls only helpers leaves the entity and every slot it does not write alone. */
  lemma {:induction false} KeepsSlot(p: Program, helpers: set<string>, slot: Slot, e: Expr, st: State, fuel: nat)
    requires Spares(p, helpers, slot) && Calls(e) <= helpers && slot !in Writes(p.outside.readers, e)
    ensures Eval(p, e, st, fuel).Diverge? || Kept(slot, st, Eval(p, e, st, fuel).st)
    decreases fuel, e, 1
  {
    match e
    case Paren(inner) => KeepsSlot(p, helpers, slot, inner, st, fuel);
    case Group(inner) => KeepsSlot(p, helpers, slot, inner, st, fuel);
    case Field(base, _) => KeepsSlot(p, helpers, slot, base, st, fuel);
    case Assign(_, right) => KeepsSlot(p, helpers, slot, right, st, fuel);
    case Call(_, args) => KeepsSlotArgs(p, helpers, slot, args, st, fuel);
    case MethodCall(_, _, _) => KeepsSlotMethod(p, helpers, slot, e, st, fuel);
    case If(_, _, _) => KeepsSlotIf(p, helpers, slot, e, st, fuel);
    case While(_, _) => KeepsSlotWhile(p, helpers, slot, e, st, fuel);
    case Block(stmts) => KeepsSlotBlock(p, helpers, slot, stmts, st, fuel);
    case Try(inner) => KeepsSlot(p, helpers, slot, inner, st, fuel);
    case Return(inner) => KeepsSlot(p, helpers, slot, inner, st, fuel);
    case SetId(inner) => KeepsSlot(p, helpers, slot, inner, st, fuel);
    case _ =>
  }

  lemma {:induction false} KeepsSlotMethod(p: Program, helpers: set<string>, slot: Slot, e: Expr, st: State, fuel: nat)
    requires e.MethodCall? && Spares(p, helpers, slot) && Calls(e) <= helpers && slot !in Writes(p.outside.readers, e)
    ensures Eval(p, e, st, fuel).Diverge? || Kept(slot, st, Eval(p, e, st, fuel).st)
    decreases fuel, e, 0
  {
    if !IsSelf(e.receiver) && PlaceOf(e.receiver).NoPlace? {
      KeepsSlot(p, helpers, slot, e.receiver, st, fuel);
      var first := Eval(p, e.receiver, st, fuel);
      if first.Val? { KeepsSlotArgs(p, helpers, slot, e.args, first.st, fuel); }
    } else {
      KeepsSlotArgs(p, helpers, slot, e.args, st, fuel);
      var out := EvalArgs(p, e.args, st, fuel);
      if out.Vals? && IsSelf(e.receiver) && fuel > 0 {
        var m := p.methods[e.method_];
        KeepsSlotBlock(p, helpers, slot, m.body, out.st.(locals := Bind(m.params, out.vs)), fuel - 1);
      }
    }
  }

  lemma {:induction false} KeepsSlotIf(p: Program, helpers: set<string>, slot: Slot, e: Expr, st: State, fuel: nat)
    requires e.If? && Spares(p, helpers, slot) && Calls(e) <= helpers && slot !in Writes(p.outside.readers, e)
    ensures Eval(p, e, st, fuel).Diverge? || Kept(slot, st, Eval(p, e, st, fuel).st)
    decreases fuel, e, 0
  {
    KeepsSlot(p, helpers, slot, e.cond, st, fuel);
    var out := Eval(p, e.cond, st, fuel);
    if out.Val? { KeepsSlotBlock(p, helpers, slot, if out.v == Bool(true) then e.thn else e.els, out.st, fuel); }
  }

  lemma {:induction false} KeepsSlotWhile(p: Program, helpers: set<string>, slot: Slot, e: Expr, st: State, fuel: nat)
    requires e.While? && Spares(p, helpers, slot) && Calls(e) <= helpers && slot !in Writes(p.outside.readers, e)
    ensures Eval(p, e, st, fuel).Diverge? || Kept(slot, st, Eval(p, e, st, fuel).st)
    decreases fuel, e, 0
  {
    KeepsSlot(p, helpers, slot, e.cond, st, fuel);
    var out := Eval(p, e.cond, st, fuel);
    if out.Val? && fuel > 0 {
      KeepsSlotBlock(p, helpers, slot, e.body, out.st, fuel);
      var turn := EvalScope(p, e.body, out.st, fuel);
      if turn.Val? { KeepsSlot(p, helpers, slot, e, turn.st, fuel - 1); }
    }
  }

  lemma {:induction false} KeepsSlotArgs(
    p: Program, helpers: set<string>, slot: Slot, es: seq<Expr>, st: State, fuel: nat)
    requires Spares(p, helpers, slot) && CallsArgs(es) <= helpers && slot !in WritesArgs(p.outside.readers, es)
    ensures EvalArgs(p, es, st, fuel).DivergeOuts? || Kept(slot, st, EvalArgs(p, es, st, fuel).st)
    decreases fuel, es, 0
  {
    if es != [] {
      KeepsSlot(p, helpers, slot, es[0], st, fuel);
      var out := Eval(p, es[0], st, fuel);
      if out.Val? { KeepsSlotArgs(p, helpers, slot, es[1..], out.st, fuel); }
    }
  }

  lemma {:induction false} KeepsSlotBlock(
    p: Program, helpers: set<string>, slot: Slot, ss: seq<Stmt>, st: State, fuel: nat)
    requires Spares(p, helpers, slot) && CallsBlock(ss) <= helpers && slot !in WritesBlock(p.outside.readers, ss)
    ensures EvalBlock(p, ss, st, fuel).Diverge? || Kept(slot, st, EvalBlock(p, ss, st, fuel).st)
    ensures EvalScope(p, ss, st, fuel).Diverge? || Kept(slot, st, EvalScope(p, ss, st, fuel).st)
    decreases fuel, ss, 0
  {
    if ss != [] {
      KeepsSlot(p, helpers, slot, Head(ss[0]), st, fuel);
      var out := Eval(p, Head(ss[0]), st, fuel);
      if out.Val? {
        KeepsSlotBlock(p, helpers, slot, ss[1..], out.st, fuel);
        if ss[0].Let? {
          KeepsSlotBlock(p, helpers, slot, ss[1..], out.st.(locals := out.st.locals + [(ss[0].name, out.v)]), fuel);
        }
      }
    }
  }

  // ---------------------------------------------------------------- straight code ends

  /** The code ended without an exit, declared nothing outside its blocks, and lost no slot. */
  ghost predicate Ended(a: State, out: Out) {
    out.Val? && out.st.locals == a.locals && a.fields.Keys <= out.st.fields.Keys
  }

  lemma {:induction false} StraightEnds(p: Program, e: Expr, st: State, fuel: nat)
    requires Straight(p.outside.readers, e)
    ensures Ended(st, Eval(p, e, st, fuel))
    decreases e, 1
  {
    match e
    case Paren(inner) => StraightEnds(p, inner, st, fuel);
    case Group(inner) => StraightEnds(p, inner, st, fuel);
    case Field(base, _) => StraightEnds(p, base, st, fuel);
    case Assign(_, right) => StraightEnds(p, right, st, fuel);
    case Call(_, args) => StraightArgsEnd(p, args, st, fuel);
    case MethodCall(receiver, _, args) =>
      StraightEnds(p, receiver, st, fuel);
      StraightArgsEnd(p, args, if PlaceOf(receiver).NoPlace? then Eval(p, receiver, st, fuel).st else st, fuel);
    case If(cond, thn, els) =>
      StraightEnds(p, cond, st, fuel);
      var out := Eval(p, cond, st, fuel);
      StraightBlockEnds(p, if out.v == Bool(true) then thn else els, out.st, fuel);
    case Block(stmts) => StraightBlockEnds(p, stmts, st, fuel);
    case SetId(inner) => StraightEnds(p, inner, st, fuel);
    case _ =>
  }

  lemma {:induction false} StraightArgsEnd(p: Program, es: seq<Expr>, st: State, fuel: nat)
    requires StraightArgs(p.outside.readers, es)
    ensures var out := EvalArgs(p, es, st, fuel);
            out.Vals? && out.st.locals == st.locals && st.fields.Keys <= out.st.fields.Keys
    decreases es, 0
  {
    if es != [] {
      StraightEnds(p, es[0], st, fuel);
      StraightArgsEnd(p, es[1..], Eval(p, es[0], st, fuel).st, fuel);
    }
  }

  lemma {:induction false} StraightBlockEnds(p: Program, ss: seq<Stmt>, st: State, fuel: nat)
    requires StraightBlock(p.outside.readers, ss)
    ensures var out := EvalBlock(p, ss, st, fuel);
            && out.Val? && st.locals <= out.st.locals && st.fields.Keys <= out.st.fields.Keys
            && (EndsUnit(ss) ==> out.v == Unit)
    ensures Ended(st, EvalScope(p, ss, st, fuel))
    decreases ss, 0
  {
    if ss != [] {
      StraightEnds(p, Head(ss[0]), st, fuel);
      var out := Eval(p, Head(ss[0]), st, fuel);
      var next := if ss[0].Let? then out.st.(locals := out.st.locals + [(ss[0].name, out.v)]) else out.st;
      StraightBlockEnds(p, ss[1..], next, fuel);
    }
  }

  // ---------------------------------------------------------------- runs in step

  ghost predicate SameSlot(a: State, b: State, k: Slot) {
    (k in a.fields <==> k in b.fields) && (k in a.fields ==> a.fields[k] == b.fields[k])
  }

  /** Two states that differ at most in the slots `hidden` and in their entities. */
  ghost predicate InStep(hidden: set<Slot>, a: State, b: State) {
    a.locals == b.locals && forall k :: k !in hidden ==> SameSlot(a, b, k)
  }

  /** A hidden slot was left alone by both runs, or both gave it the same value. */
  ghost predicate Moved(k: Slot, a: State, b: State, a': State, b': State) {
    (SameSlot(a, a', k) && SameSlot(b, b', k)) || SameSlot(a', b', k)
  }

  /** The two ids are the same, or the second is still the stored one. */
  ghost predicate Linked(w: Watch, a: State, b: State) {
    w.id.None? ||
    (EntityId in a.fields && EntityId in b.fields
     && (a.fields[EntityId] == b.fields[EntityId] || b.fields[EntityId] == w.id.value))
  }

  ghost predicate Near(w: Watch, a: State, b: State) {
    InStep(w.hidden, a, b) && Linked(w, a, b)
  }

  ghost predicate Together(w: Watch, a: State, b: State, a': State, b': State) {
    && Near(w, a', b')
    && a'.entity == a.entity && b'.entity == b.entity
    && forall k :: MovedFor(w, k, a, b, a', b')
  }

  /** Only tests of the id may move it in one run and not in the other. */
  ghost predicate MovedFor(w: Watch, k: Slot, a: State, b: State, a': State, b': State) {
    Moved(k, a, b, a', b') || (k == EntityId && w.tests != {})
  }

  ghost predicate OutTogether(w: Watch, a: State, b: State, x: Out, y: Out) {
    || (x.Diverge? && y.Diverge?)
    || (x.Val? && y.Val? && x.v == y.v && Together(w, a, b, x.st, y.st))
    || (x.Ret? && y.Ret? && x.v == y.v && Together(w, a, b, x.st, y.st))
  }

  ghost predicate OutsTogether(w: Watch, a: State, b: State, x: Outs, y: Outs) {
    || (x.DivergeOuts? && y.DivergeOuts?)
    || (x.Vals? && y.Vals? && x.vs == y.vs && Together(w, a, b, x.st, y.st))
    || (x.RetOuts? && y.RetOuts? && x.v == y.v && Together(w, a, b, x.st, y.st))
  }

  lemma {:induction false} TogetherTrans(
    w: Watch, a: State, b: State, a1: State, b1: State, a2: State, b2: State)
    requires Together(w, a, b, a1, b1) && Together(w, a1, b1, a2, b2)
    ensures Together(w, a, b, a2, b2)
  {
    forall k ensures MovedFor(w, k, a, b, a2, b2) {
      assert MovedFor(w, k, a, b, a1, b1) && MovedFor(w, k, a1, b1, a2, b2);
    }
  }

  lemma {:induction false} StoreTogether(o: Outside, w: Watch, a: State, b: State, place: Place, v: Value)
    requires Near(w, a, b)
    requires place.SelfPlace? && place.below != [] ==> place.slot !in w.hidden
    ensures Together(w, a, b, Store(o, a, place, v), Store(o, b, place, v))
  {
    if place.SelfPlace? {
      var a2, b2 := Store(o, a, place, v), Store(o, b, place, v);
      assert place.slot !in w.hidden ==> SameSlot(a, b, place.slot);
      assert SameSlot(a2, b2, place.slot);
      forall k ensures MovedFor(w, k, a, b, a2, b2) { assert k == place.slot || Moved(k, a, b, a2, b2); }
    }
  }

  ghost predicate Oblivious(p: Program, w: Watch) {
    Helpers(p, w.helpers) && HelpersAvoid(p, w) && Tests(p, w)
  }

  /** Code that calls only helpers and looks at no hidden slot, but to take the id behind a test. */
  ghost predicate Discreet(p: Program, w: Watch, e: Expr) {
    Oblivious(p, w) && Calls(e) <= w.helpers && Reads(p.outside.readers, w.tests, e) !! w.hidden
  }

  ghost predicate DiscreetArgs(p: Program, w: Watch, es: seq<Expr>) {
    Oblivious(p, w) && CallsArgs(es) <= w.helpers && ReadsArgs(p.outside.readers, w.tests, es) !! w.hidden
  }

  ghost predicate DiscreetBlock(p: Program, w: Watch, ss: seq<Stmt>) {
    Oblivious(p, w) && CallsBlock(ss) <= w.helpers && ReadsBlock(p.outside.readers, w.tests, ss) !! w.hidden
  }

  // ---------------------------------------------------------------- taking the id

  /** The same comparison once the ids are the same. */
  function Settled(w: Watch): Watch { Watch({}, w.hidden - {EntityId}, {}, None) }

  lemma {:induction false} TestChangesNothing(p: Program, t: Expr, st: State, fuel: nat)
    requires Test(p, t)
    ensures Eval(p, t, st, fuel).Val? && Eval(p, t, st, fuel).st == st
  {
    StraightEnds(p, t, st, fuel);
    var out := Eval(p, t, st, fuel);
    forall k ensures Kept(k, st, out.st) { KeepsSlot(p, {}, k, t, st, fuel); }
    assert Kept(EntityId, st, out.st);
    forall k ensures (k in out.st.fields <==> k in st.fields) && (k in st.fields ==> out.st.fields[k] == st.fields[k]) {
      assert Kept(k, st, out.st);
    }
    assert out.st.fields == st.fields;
  }

  lemma EmptyScope(p: Program, st: State, fuel: nat)
    ensures EvalScope(p, [], st, fuel) == Val(Unit, st)
  {
    assert Trim(st.locals, |st.locals|) == st.locals;
  }

  /** Behind its test the aggregate at most takes an id. */
  lemma {:induction false} TakesOnlyId(p: Program, tests: set<Expr>, e: Expr, st: State, fuel: nat)
    requires TakesId(p.outside.readers, tests, e)
    ensures var out := Eval(p, e, st, fuel);
            Ended(st, out) && out.v == Unit && out.st.entity == st.entity
            && forall k :: k != EntityId ==> SameSlot(st, out.st, k)
  {
    StraightEnds(p, e, st, fuel);
    StraightEnds(p, e.cond, st, fuel);
    var cond, out := Eval(p, e.cond, st, fuel), Eval(p, e, st, fuel);
    StraightBlockEnds(p, e.thn, cond.st, fuel);
    EmptyScope(p, cond.st, fuel);
    KeepsSlot(p, {}, Named(""), e, st, fuel);
    forall k ensures k != EntityId ==> SameSlot(st, out.st, k) {
      if k != EntityId { KeepsSlot(p, {}, k, e, st, fuel); }
    }
  }

  /** Where the stored id is still there the second run does not take another. */
  lemma {:induction false} TakesIdApart(p: Program, w: Watch, e: Expr, a: State, b: State, fuel: nat)
    requires Tests(p, w) && TakesId(p.outside.readers, w.tests, e) && Near(w, a, b) && !SameSlot(a, b, EntityId)
    ensures OutTogether(w, a, b, Eval(p, e, a, fuel), Eval(p, e, b, fuel))
  {
    assert Test(p, e.cond) && Refuses(p, e.cond, w.id.value);
    TakesOnlyId(p, w.tests, e, a, fuel);
    TestChangesNothing(p, e.cond, b, fuel);
    EmptyScope(p, b, fuel);
    var x, y := Eval(p, e, a, fuel), Eval(p, e, b, fuel);
    assert Eval(p, e.cond, b, fuel).v != Bool(true);
    assert y == Val(Unit, b);
    assert EntityId in w.hidden;
    forall k ensures MovedFor(w, k, a, b, x.st, y.st) && (k !in w.hidden ==> SameSlot(x.st, y.st, k)) {
      assert k !in w.hidden ==> k != EntityId && SameSlot(a, b, k);
      assert k != EntityId ==> SameSlot(a, x.st, k);
    }
  }

  /** With the same id both runs take the same path. */
  lemma {:induction false} TakesIdAlike(p: Program, w: Watch, e: Expr, a: State, b: State, fuel: nat)
    requires TakesId(p.outside.readers, w.tests, e) && Near(w, a, b) && SameSlot(a, b, EntityId)
    requires OutTogether(Settled(w), a, b, Eval(p, e, a, fuel), Eval(p, e, b, fuel))
    ensures OutTogether(w, a, b, Eval(p, e, a, fuel), Eval(p, e, b, fuel))
  {
    TakesOnlyId(p, w.tests, e, a, fuel);
    var x, y := Eval(p, e, a, fuel), Eval(p, e, b, fuel);
    assert SameSlot(x.st, y.st, EntityId);
    forall k ensures MovedFor(w, k, a, b, x.st, y.st) { assert MovedFor(Settled(w), k, a, b, x.st, y.st); }
  }

  // ---------------------------------------------------------------- the comparison

  /**
   Non-interference: code that calls only helpers and looks at no hidden slot, but to take the
   id behind a test, gives the same value from states in step, and stays in step.
   */
  lemma {:induction false} RunsTogether(p: Program, w: Watch, e: Expr, a: State, b: State, fuel: nat)
    requires Discreet(p, w, e) && Near(w, a, b)
    ensures OutTogether(w, a, b, Eval(p, e, a, fuel), Eval(p, e, b, fuel))
    decreases fuel, e, 2
  {
    match e
    case LitE(_) =>
    case PathE(_) =>
    case Paren(inner) => RunsTogether(p, w, inner, a, b, fuel);
    case Group(inner) => RunsTogether(p, w, inner, a, b, fuel);
    case Field(base, member) =>
      if IsSelf(base) { assert SameSlot(a, b, member); } else { RunsTogether(p, w, base, a, b, fuel); }
    case Assign(_, _) => AssignTogether(p, w, e, a, b, fuel);
    case Call(_, args) => ArgsTogether(p, w, args, a, b, fuel);
    case MethodCall(receiver, name, args) => MethodTogether(p, w, e, a, b, fuel);
    case If(_, _, _) => IfTogether(p, w, e, a, b, fuel);
    case While(cond, body) => WhileTogether(p, w, e, a, b, fuel);
    case Block(stmts) => ScopeTogether(p, w, stmts, a, b, fuel);
    case Try(inner) => RunsTogether(p, w, inner, a, b, fuel);
    case Return(inner) => RunsTogether(p, w, inner, a, b, fuel);
    case GetId => assert SameSlot(a, b, EntityId);
    case SetId(_) => AssignTogether(p, w, e, a, b, fuel);
  }

  lemma {:induction false} AssignTogether(p: Program, w: Watch, e: Expr, a: State, b: State, fuel: nat)
    requires e.Assign? || e.SetId?
    requires Discreet(p, w, e) && Near(w, a, b)
    ensures OutTogether(w, a, b, Eval(p, e, a, fuel), Eval(p, e, b, fuel))
    decreases fuel, e, 0
  {
    var right := if e.Assign? then e.right else e.inner;
    var place := if e.Assign? then PlaceOf(e.left) else SelfPlace(EntityId, []);
    RunsTogether(p, w, right, a, b, fuel);
    var x, y := Eval(p, right, a, fuel), Eval(p, right, b, fuel);
    if x.Val? {
      var a2, b2 := Store(p.outside, x.st, place, x.v), Store(p.outside, y.st, place, x.v);
      StoreTogether(p.outside, w, x.st, y.st, place, x.v);
      TogetherTrans(w, a, b, x.st, y.st, a2, b2);
    }
  }

  lemma {:induction false} OutTrans(w: Watch, a: State, b: State, a1: State, b1: State, x: Out, y: Out)
    requires Together(w, a, b, a1, b1) && OutTogether(w, a1, b1, x, y)
    ensures OutTogether(w, a, b, x, y)
  {
    if !x.Diverge? { TogetherTrans(w, a, b, a1, b1, x.st, y.st); }
  }

  lemma {:induction false} MethodTogether(p: Program, w: Watch, e: Expr, a: State, b: State, fuel: nat)
    requires e.MethodCall?
    requires Discreet(p, w, e) && Near(w, a, b)
    ensures OutTogether(w, a, b, Eval(p, e, a, fuel), Eval(p, e, b, fuel))
    decreases fuel, e, 0
  {
    var place := PlaceOf(e.receiver);
    if !IsSelf(e.receiver) && place.NoPlace? {
      RunsTogether(p, w, e.receiver, a, b, fuel);
      var x, y := Eval(p, e.receiver, a, fuel), Eval(p, e.receiver, b, fuel);
      if x.Val? {
        ArgsTogether(p, w, e.args, x.st, y.st, fuel);
        var x2, y2 := EvalArgs(p, e.args, x.st, fuel), EvalArgs(p, e.args, y.st, fuel);
        if !x2.DivergeOuts? { TogetherTrans(w, a, b, x.st, y.st, x2.st, y2.st); }
      }
    } else {
      ArgsTogether(p, w, e.args, a, b, fuel);
      var x, y := EvalArgs(p, e.args, a, fuel), EvalArgs(p, e.args, b, fuel);
      if x.Vals? && IsSelf(e.receiver) && fuel > 0 {
        HelperTogether(p, w, e.method_, x.vs, x.st, y.st, fuel - 1);
        OutTrans(w, a, b, x.st, y.st, Eval(p, e, a, fuel), Eval(p, e, b, fuel));
      } else if x.Vals? && !IsSelf(e.receiver) {
        ReceiverTogether(p.outside, w, e.method_, x.vs, place, x.st, y.st);
        OutTrans(w, a, b, x.st, y.st, Eval(p, e, a, fuel), Eval(p, e, b, fuel));
      }
    }
  }

  /** A method on a field or a local, after its arguments. */
  lemma {:induction false} ReceiverTogether(
    o: Outside, w: Watch, name: string, vs: seq<Value>, place: Place, a: State, b: State)
    requires Near(w, a, b) && (place.SelfPlace? ==> place.slot !in w.hidden)
    ensures var (x, u) := (o.invoke)(name, Load(o, a, place), vs);
            var (y, v) := (o.invoke)(name, Load(o, b, place), vs);
            u == v && Together(w, a, b, if name in o.readers then a else Store(o, a, place, x),
                                             if name in o.readers then b else Store(o, b, place, y))
  {
    if place.SelfPlace? { assert SameSlot(a, b, place.slot); }
    assert Load(o, a, place) == Load(o, b, place);
    StoreTogether(o, w, a, b, place, (o.invoke)(name, Load(o, a, place), vs).0);
  }

  lemma {:induction false} HelperTogether(
    p: Program, w: Watch, name: string, args: seq<Value>, a: State, b: State, fuel: nat)
    requires Oblivious(p, w) && name in w.helpers && Near(w, a, b)
    ensures OutTogether(w, a, b, Invoke(p, name, args, a, fuel), Invoke(p, name, args, b, fuel))
    decreases fuel
  {
    var m := p.methods[name];
    var a0, b0 := a.(locals := Bind(m.params, args)), b.(locals := Bind(m.params, args));
    BlockTogether(p, w, m.body, a0, b0, fuel);
    var x, y := EvalBlock(p, m.body, a0, fuel), EvalBlock(p, m.body, b0, fuel);
    if !x.Diverge? {
      var a1, b1 := x.st.(locals := a.locals), y.st.(locals := b.locals);
      forall k ensures k !in w.hidden ==> SameSlot(a1, b1, k) { assert k !in w.hidden ==> SameSlot(x.st, y.st, k); }
      forall k ensures MovedFor(w, k, a, b, a1, b1) { assert MovedFor(w, k, a0, b0, x.st, y.st); }
    }
  }

  lemma {:induction false} IfTogether(p: Program, w: Watch, e: Expr, a: State, b: State, fuel: nat)
    requires e.If? && Discreet(p, w, e) && Near(w, a, b)
    ensures OutTogether(w, a, b, Eval(p, e, a, fuel), Eval(p, e, b, fuel))
    decreases fuel, e, 1
  {
    if !TakesId(p.outside.readers, w.tests, e) {
      BranchTogether(p, w, e, a, b, fuel);
    } else if SameSlot(a, b, EntityId) {
      BranchTogether(p, Settled(w), e, a, b, fuel);
      TakesIdAlike(p, w, e, a, b, fuel);
    } else {
      TakesIdApart(p, w, e, a, b, fuel);
    }
  }

  lemma {:induction false} BranchTogether(p: Program, w: Watch, e: Expr, a: State, b: State, fuel: nat)
    requires e.If? && !TakesId(p.outside.readers, w.tests, e) && Discreet(p, w, e) && Near(w, a, b)
    ensures OutTogether(w, a, b, Eval(p, e, a, fuel), Eval(p, e, b, fuel))
    decreases fuel, e, 0
  {
    RunsTogether(p, w, e.cond, a, b, fuel);
    var x, y := Eval(p, e.cond, a, fuel), Eval(p, e.cond, b, fuel);
    if x.Val? {
      var branch := if x.v == Bool(true) then e.thn else e.els;
      ScopeTogether(p, w, branch, x.st, y.st, fuel);
      OutTrans(w, a, b, x.st, y.st, EvalScope(p, branch, x.st, fuel), EvalScope(p, branch, y.st, fuel));
    }
  }

  lemma {:induction false} WhileTogether(p: Program, w: Watch, e: Expr, a: State, b: State, fuel: nat)
    requires e.While?
    requires Discreet(p, w, e) && Near(w, a, b)
    ensures OutTogether(w, a, b, Eval(p, e, a, fuel), Eval(p, e, b, fuel))
    decreases fuel, e, 0
  {
    RunsTogether(p, w, e.cond, a, b, fuel);
    var x, y := Eval(p, e.cond, a, fuel), Eval(p, e.cond, b, fuel);
    if x.Val? && x.v == Bool(true) && fuel > 0 {
      ScopeTogether(p, w, e.body, x.st, y.st, fuel);
      var x2, y2 := EvalScope(p, e.body, x.st, fuel), EvalScope(p, e.body, y.st, fuel);
      OutTrans(w, a, b, x.st, y.st, x2, y2);
      if x2.Val? {
        RunsTogether(p, w, e, x2.st, y2.st, fuel - 1);
        OutTrans(w, a, b, x2.st, y2.st, Eval(p, e, x2.st, fuel - 1), Eval(p, e, y2.st, fuel - 1));
      }
    }
  }

  lemma {:induction false} ArgsTogether(p: Program, w: Watch, es: seq<Expr>, a: State, b: State, fuel: nat)
    requires DiscreetArgs(p, w, es) && Near(w, a, b)
    ensures OutsTogether(w, a, b, EvalArgs(p, es, a, fuel), EvalArgs(p, es, b, fuel))
    decreases fuel, es, 0
  {
    if es != [] {
      RunsTogether(p, w, es[0], a, b, fuel);
      var x, y := Eval(p, es[0], a, fuel), Eval(p, es[0], b, fuel);
      if x.Val? {
        ArgsTogether(p, w, es[1..], x.st, y.st, fuel);
        var x2, y2 := EvalArgs(p, es[1..], x.st, fuel), EvalArgs(p, es[1..], y.st, fuel);
        if !x2.DivergeOuts? { TogetherTrans(w, a, b, x.st, y.st, x2.st, y2.st); }
      }
    }
  }

  lemma {:induction false} ScopeTogether(p: Program, w: Watch, ss: seq<Stmt>, a: State, b: State, fuel: nat)
    requires DiscreetBlock(p, w, ss) && Near(w, a, b)
    ensures OutTogether(w, a, b, EvalScope(p, ss, a, fuel), EvalScope(p, ss, b, fuel))
    decreases fuel, ss, 1
  {
    BlockTogether(p, w, ss, a, b, fuel);
    var x, y := EvalBlock(p, ss, a, fuel), EvalBlock(p, ss, b, fuel);
    if !x.Diverge? {
      var a1, b1 := Leave(x.st, |a.locals|), Leave(y.st, |b.locals|);
      forall k ensures k !in w.hidden ==> SameSlot(a1, b1, k) { assert k !in w.hidden ==> SameSlot(x.st, y.st, k); }
      forall k ensures MovedFor(w, k, a, b, a1, b1) { assert MovedFor(w, k, a, b, x.st, y.st); }
    }
  }

  lemma {:induction false} BlockTogether(p: Program, w: Watch, ss: seq<Stmt>, a: State, b: State, fuel: nat)
    requires DiscreetBlock(p, w, ss) && Near(w, a, b)
    ensures OutTogether(w, a, b, EvalBlock(p, ss, a, fuel), EvalBlock(p, ss, b, fuel))
    decreases fuel, ss, 0
  {
    if ss != [] {
      RunsTogether(p, w, Head(ss[0]), a, b, fuel);
      var x, y := Eval(p, Head(ss[0]), a, fuel), Eval(p, Head(ss[0]), b, fuel);
      if x.Val? {
        var a1 := if ss[0].Let? then x.st.(locals := x.st.locals + [(ss[0].name, x.v)]) else x.st;
        var b1 := if ss[0].Let? then y.st.(locals := y.st.locals + [(ss[0].name, y.v)]) else y.st;
        forall k ensures k !in w.hidden ==> SameSlot(a1, b1, k) { assert k !in w.hidden ==> SameSlot(x.st, y.st, k); }
        forall k ensures MovedFor(w, k, a, b, a1, b1) { assert MovedFor(w, k, a, b, x.st, y.st); }
        BlockTogether(p, w, ss[1..], a1, b1, fuel);
        OutTrans(w, a, b, a1, b1, EvalBlock(p, ss[1..], a1, fuel), EvalBlock(p, ss[1..], b1, fuel));
      }
    }
  }
}
