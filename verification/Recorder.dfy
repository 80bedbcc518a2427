/**
 A small Rust: the statements that recorder bodies are made of, the aggregate and entity they
 act on, and the code `#[sourced]` generates around them. `fuel` bounds loop turns and call
 depth; `Diverge` is an execution that needs more of it.
 */
module Recorder {
  import opened Wrappers

  datatype Value =
    | Unit
    | Bool(b: bool)
    | Str(s: string)
    | Char(c: char)
    | Num(n: int)
    | NoneV
    | SomeV(inner: Value)
    | OkV(inner: Value)
    | ErrV(inner: Value)
    | Const(path: seq<string>)
    | Opaque(tag: nat, parts: seq<Value>)

  /** What an aggregate stores: its struct fields, and the id inside its entity. */
  datatype Slot = Named(name: string) | Unnamed(index: nat) | EntityId

  datatype Lit = BoolLit(b: bool) | StrLit(s: string) | CharLit(c: char) | IntLit(n: int)

  datatype Expr =
    | LitE(lit: Lit)
    | PathE(segments: seq<string>)
    | Paren(inner: Expr)
    | Group(inner: Expr)
    | Field(base: Expr, member: Slot)
    | Assign(left: Expr, right: Expr)
    | Call(func: Expr, args: seq<Expr>)
    | MethodCall(receiver: Expr, method_: string, args: seq<Expr>)
    | If(cond: Expr, thn: seq<Stmt>, els: seq<Stmt>)
    | While(cond: Expr, body: seq<Stmt>)
    | Block(stmts: seq<Stmt>)
    | Try(inner: Expr)
    | Return(inner: Expr)
    | GetId
    | SetId(inner: Expr)

  datatype Stmt = Let(name: string, init: Expr) | Do(expr: Expr, semi: bool)

  /** The expression a statement evaluates first. */
  function Head(s: Stmt): (e: Expr)
    ensures e < s
  {
    match s case Let(_, init) => init case Do(e, _) => e
  }

  // ---------------------------------------------------------------- the aggregate

  datatype Record = Record(name: string, version: nat, args: seq<Value>, sequence: nat)

  datatype Occurrence = Occurrence(name: string, sequence: nat)

  datatype Entity = Entity(
    version: nat,
    prefix: nat,
    events: seq<Record>,
    committed: nat,
    replaying: bool,
    pending: seq<Occurrence>,
    poisoned: bool,
    queued: seq<(string, seq<Value>)>)

  datatype State = State(fields: map<Slot, Value>, locals: seq<(string, Value)>, entity: Entity)

  /** An `#[event]` method: `synthesized` when it declares no return type. */
  datatype EventMethod = EventMethod(
    name: string,
    version: nat,
    guard: Option<Expr>,
    domain: bool,
    synthesized: bool,
    params: seq<string>,
    body: seq<Stmt>)

  datatype Method =
    | Plain(public_: bool, params: seq<string>, body: seq<Stmt>)
    | Event(event: EventMethod)

  /**
   Code outside the aggregate: pure functions, and methods that may change their receiver
   unless they are among the `readers`, which take it by shared reference.
   */
  datatype Outside = Outside(
    readers: set<string>,
    call: (seq<string>, seq<Value>) -> Value,
    invoke: (string, Value, seq<Value>) -> (Value, Value),
    project: (Value, Slot) -> Value,
    update: (Value, Slot, Value) -> Value)

  /** Which payloads the two serializers and the domain-event capture accept. */
  datatype Codec = Codec(
    json: (string, seq<Value>) -> bool,
    payload: (string, seq<Value>) -> bool,
    capture: (string, map<Slot, Value>, seq<Value>) -> bool)

  datatype Program = Program(
    methods: map<string, Method>,
    events: map<string, string>,
    enqueues: bool,
    outside: Outside,
    codec: Codec)

  // ---------------------------------------------------------------- syntax helpers

  function Ungroup(e: Expr): Expr {
    match e
    case Paren(inner) => Ungroup(inner)
    case Group(inner) => Ungroup(inner)
    case _ => e
  }

  predicate IsSelf(e: Expr) {
    match e
    case PathE(segments) => segments == ["self"]
    case Paren(inner) => IsSelf(inner)
    case Group(inner) => IsSelf(inner)
    case _ => false
  }

  /** The variable a place expression is rooted at, and the fields below it. */
  datatype Place = SelfPlace(slot: Slot, below: seq<Slot>) | LocalPlace(name: string, below: seq<Slot>) | NoPlace

  function PlaceOf(e: Expr): Place {
    match e
    case Paren(inner) => PlaceOf(inner)
    case Group(inner) => PlaceOf(inner)
    case Field(base, member) =>
      if IsSelf(base) then SelfPlace(member, [])
      else (match PlaceOf(base)
        case SelfPlace(slot, below) => SelfPlace(slot, below + [member])
        case LocalPlace(name, below) => LocalPlace(name, below + [member])
        case NoPlace => NoPlace)
    case PathE(segments) =>
      if |segments| == 1 && segments != ["self"] then LocalPlace(segments[0], []) else NoPlace
    case _ => NoPlace
  }

  // ---------------------------------------------------------------- values and places

  function LitValue(l: Lit): Value {
    match l
    case BoolLit(b) => Bool(b)
    case StrLit(s) => Str(s)
    case CharLit(c) => Char(c)
    case IntLit(n) => Num(n)
  }

  function Get(fields: map<Slot, Value>, slot: Slot): Value {
    if slot in fields then fields[slot] else Unit
  }

  function Lookup(locals: seq<(string, Value)>, name: string): Option<Value>
    decreases |locals|
  {
    if locals == [] then None
    else if locals[|locals| - 1].0 == name then Some(locals[|locals| - 1].1)
    else Lookup(locals[..|locals| - 1], name)
  }

  function Rebind(locals: seq<(string, Value)>, name: string, v: Value): (r: seq<(string, Value)>)
    ensures |r| == |locals|
    decreases |locals|
  {
    if locals == [] then []
    else
      var last, rest := locals[|locals| - 1], locals[..|locals| - 1];
      if last.0 == name then rest + [(name, v)] else Rebind(rest, name, v) + [last]
  }

  function LoadBelow(o: Outside, v: Value, below: seq<Slot>): Value
    decreases |below|
  {
    if below == [] then v else LoadBelow(o, (o.project)(v, below[0]), below[1..])
  }

  function StoreBelow(o: Outside, old_: Value, below: seq<Slot>, v: Value): Value
    decreases |below|
  {
    if below == [] then v
    else (o.update)(old_, below[0], StoreBelow(o, (o.project)(old_, below[0]), below[1..], v))
  }

  function Load(o: Outside, st: State, place: Place): Value {
    match place
    case SelfPlace(slot, below) => LoadBelow(o, Get(st.fields, slot), below)
    case LocalPlace(name, below) =>
      (match Lookup(st.locals, name) case None => Const([name]) case Some(v) => LoadBelow(o, v, below))
    case NoPlace => Unit
  }

  function Store(o: Outside, st: State, place: Place, v: Value): State {
    match place
    case SelfPlace(slot, below) =>
      st.(fields := st.fields[slot := StoreBelow(o, Get(st.fields, slot), below, v)])
    case LocalPlace(name, below) =>
      (match Lookup(st.locals, name)
        case None => st
        case Some(old_) => st.(locals := Rebind(st.locals, name, StoreBelow(o, old_, below, v))))
    case NoPlace => st
  }

  function Bind(params: seq<string>, args: seq<Value>): seq<(string, Value)> {
    if params == [] || args == [] then [] else [(params[0], args[0])] + Bind(params[1..], args[1..])
  }

  function Trim<T>(xs: seq<T>, n: nat): seq<T> {
    if n <= |xs| then xs[..n] else xs
  }

  function Leave(st: State, n: nat): State {
    st.(locals := Trim(st.locals, n))
  }

  // ---------------------------------------------------------------- evaluation

  datatype Out = Val(v: Value, st: State) | Ret(v: Value, st: State) | Diverge

  datatype Outs = Vals(vs: seq<Value>, st: State) | RetOuts(v: Value, st: State) | DivergeOuts

  predicate IsPath(e: Expr, segments: seq<string>) {
    Ungroup(e) == PathE(segments)
  }

  function CallOutside(o: Outside, func: Expr, vs: seq<Value>): Value {
    if IsPath(func, ["Some"]) && |vs| == 1 then SomeV(vs[0])
    else if IsPath(func, ["Ok"]) && |vs| == 1 then OkV(vs[0])
    else if IsPath(func, ["Err"]) && |vs| == 1 then ErrV(vs[0])
    else if IsPath(func, ["std", "string", "String", "from"]) && |vs| == 1 && vs[0].Str? then vs[0]
    else if Ungroup(func).PathE? then (o.call)(Ungroup(func).segments, vs)
    else Unit
  }

  function Eval(p: Program, e: Expr, st: State, fuel: nat): Out
    decreases fuel, 0, e, 1
  {
    match e
    case LitE(lit) => Val(LitValue(lit), st)
    case PathE(segments) =>
      if segments == ["None"] then Val(NoneV, st)
      else if |segments| == 1 then Val(Load(p.outside, st, LocalPlace(segments[0], [])), st)
      else Val(Const(segments), st)
    case Paren(inner) => Eval(p, inner, st, fuel)
    case Group(inner) => Eval(p, inner, st, fuel)
    case Field(base, member) =>
      if IsSelf(base) then Val(Get(st.fields, member), st)
      else (match Eval(p, base, st, fuel)
        case Val(v, st1) => Val((p.outside.project)(v, member), st1)
        case other => other)
    case Assign(left, right) =>
      (match Eval(p, right, st, fuel)
        case Val(v, st1) => Val(Unit, Store(p.outside, st1, PlaceOf(left), v))
        case other => other)
    case Call(func, args) =>
      (match EvalArgs(p, args, st, fuel)
        case Vals(vs, st1) => Val(CallOutside(p.outside, func, vs), st1)
        case RetOuts(v, st1) => Ret(v, st1)
        case DivergeOuts => Diverge)
    case MethodCall(receiver, name, args) =>
      if !IsSelf(receiver) && PlaceOf(receiver).NoPlace? then
        (match Eval(p, receiver, st, fuel)
          case Val(v, st1) =>
            (match EvalArgs(p, args, st1, fuel)
              case Vals(vs, st2) => Val((p.outside.invoke)(name, v, vs).1, st2)
              case RetOuts(r, st2) => Ret(r, st2)
              case DivergeOuts => Diverge)
          case other => other)
      else
        (match EvalArgs(p, args, st, fuel)
          case Vals(vs, st1) =>
            if IsSelf(receiver) then
              (if fuel == 0 then Diverge else Invoke(p, name, vs, st1, fuel - 1))
            else
              var (after, result) := (p.outside.invoke)(name, Load(p.outside, st1, PlaceOf(receiver)), vs);
              Val(result, if name in p.outside.readers then st1 else Store(p.outside, st1, PlaceOf(receiver), after))
          case RetOuts(v, st1) => Ret(v, st1)
          case DivergeOuts => Diverge)
    case If(cond, thn, els) =>
      (match Eval(p, cond, st, fuel)
        case Val(v, st1) => if v == Bool(true) then EvalScope(p, thn, st1, fuel) else EvalScope(p, els, st1, fuel)
        case other => other)
    case While(cond, body) =>
      (match Eval(p, cond, st, fuel)
        case Val(v, st1) =>
          if v != Bool(true) then Val(Unit, st1)
          else if fuel == 0 then Diverge
          else (match EvalScope(p, body, st1, fuel)
            case Val(_, st2) => Eval(p, e, st2, fuel - 1)
            case other => other)
        case other => other)
    case Block(stmts) => EvalScope(p, stmts, st, fuel)
    case Try(inner) =>
      (match Eval(p, inner, st, fuel)
        case Val(v, st1) =>
          if v.OkV? || v.SomeV? then Val(v.inner, st1)
          else if v.ErrV? || v.NoneV? then Ret(v, st1)
          else Val(v, st1)
        case other => other)
    case Return(inner) =>
      (match Eval(p, inner, st, fuel)
        case Val(v, st1) => Ret(v, st1)
        case other => other)
    case GetId => Val(Get(st.fields, EntityId), st)
    case SetId(inner) =>
      (match Eval(p, inner, st, fuel)
        case Val(v, st1) => Val(Unit, st1.(fields := st1.fields[EntityId := v]))
        case other => other)
  }

  function EvalArgs(p: Program, es: seq<Expr>, st: State, fuel: nat): Outs
    decreases fuel, 0, es, 0
  {
    if es == [] then Vals([], st)
    else match Eval(p, es[0], st, fuel)
      case Ret(v, st1) => RetOuts(v, st1)
      case Diverge => DivergeOuts
      case Val(v, st1) =>
        match EvalArgs(p, es[1..], st1, fuel)
        case Vals(vs, st2) => Vals([v] + vs, st2)
        case other => other
  }

  /** A block in its own scope: what it declares is gone afterwards. */
  function EvalScope(p: Program, ss: seq<Stmt>, st: State, fuel: nat): Out
    decreases fuel, 0, ss, 1
  {
    match EvalBlock(p, ss, st, fuel)
    case Val(v, st1) => Val(v, Leave(st1, |st.locals|))
    case Ret(v, st1) => Ret(v, Leave(st1, |st.locals|))
    case Diverge => Diverge
  }

  function EvalBlock(p: Program, ss: seq<Stmt>, st: State, fuel: nat): Out
    decreases fuel, 0, ss, 0
  {
    if ss == [] then Val(Unit, st)
    else match Eval(p, Head(ss[0]), st, fuel)
      case Val(v, st1) =>
        if ss[0].Let? then EvalBlock(p, ss[1..], st1.(locals := st1.locals + [(ss[0].name, v)]), fuel)
        else if |ss| == 1 && !ss[0].semi then Val(v, st1)
        else EvalBlock(p, ss[1..], st1, fuel)
      case other => other
  }

  /** A call `self.name(args)`: the callee has its own locals, and its `return` ends there. */
  function Invoke(p: Program, name: string, args: seq<Value>, st: State, fuel: nat): Out
    decreases fuel, 2
  {
    if name !in p.methods then Val(Unit, st)
    else match p.methods[name]
      case Plain(_, params, body) =>
        (match EvalBlock(p, body, st.(locals := Bind(params, args)), fuel)
          case Val(v, st1) => Val(v, st1.(locals := st.locals))
          case Ret(v, st1) => Val(v, st1.(locals := st.locals))
          case Diverge => Diverge)
      case Event(ev) =>
        match CallEvent(p, ev, args, st, fuel)
        case Skipped(st1) => Val(OkV(Unit), st1)
        case NotRecorded(st1) => Val(ErrV(Unit), st1)
        case BodyFailed(v, st1) => Val(v, st1)
        case Done(ok, st1) => Val(if ok then OkV(Unit) else ErrV(Unit), st1)
        case Looping => Diverge
  }

  // ---------------------------------------------------------------- generated event methods

  /** How a generated event method ends. */
  datatype CallOut =
    | Skipped(st: State)
    | NotRecorded(st: State)
    | BodyFailed(v: Value, st: State)
    | Done(ok: bool, st: State)
    | Looping

  /** `Entity::digest` and `digest_v` once the payload is encoded. */
  function Digest(en: Entity, name: string, version: nat, args: seq<Value>): Entity {
    if en.replaying then en
    else
      var events := en.events + [Record(name, version, args, en.prefix + |en.events| + 1)];
      en.(events := events, version := en.prefix + |events|)
  }

  /** `generate_enqueue_call` and `generate_digest_call`: `None` when a serializer refuses. */
  function Enqueue(p: Program, ev: EventMethod, args: seq<Value>, en: Entity): Option<Entity> {
    if !p.enqueues || en.replaying then Some(en)
    else if ev.params != [] && !(p.codec.json)(ev.name, args) then None
    else Some(en.(queued := en.queued + [(ev.name, args)]))
  }

  /** The capture postlude: an occurrence of the event just recorded, or poison. */
  function Capture(p: Program, ev: EventMethod, args: seq<Value>, st: State): (bool, State) {
    var en := st.entity;
    if !ev.domain || en.replaying then (true, st)
    else if en.poisoned then (false, st)
    else if en.events == [] || en.version == en.committed
            || en.events[|en.events| - 1].sequence != en.version
            || !(p.codec.capture)(ev.name, st.fields, args)
    then (false, st.(entity := en.(poisoned := true)))
    else (true, st.(entity := en.(pending := en.pending + [Occurrence(ev.name, en.version)])))
  }

  /** `wrap_result_body_with_guard_and_postlude`: guard, enqueue, digest, body, capture. */
  function CallEvent(p: Program, ev: EventMethod, args: seq<Value>, st: State, fuel: nat): CallOut
    decreases fuel, 1
  {
    var bound := st.(locals := Bind(ev.params, args));
    match (if ev.guard.Some? then Eval(p, ev.guard.value, bound, fuel) else Val(Bool(true), bound))
    case Diverge => Looping
    case Ret(v, st1) =>
      if v.ErrV? then BodyFailed(v, st1.(locals := st.locals)) else Done(true, st1.(locals := st.locals))
    case Val(v, st1) =>
      if v != Bool(true) then Skipped(st1.(locals := st.locals))
      else Recorded(p, ev, args, st1, st.locals, fuel)
  }

  /** The part behind the guard: enqueue, digest, then the body. */
  function Recorded(
    p: Program, ev: EventMethod, args: seq<Value>, st: State, caller: seq<(string, Value)>, fuel: nat): CallOut
    decreases fuel, 0, ev.body, 3
  {
    match Enqueue(p, ev, args, st.entity)
    case None => NotRecorded(st.(locals := caller))
    case Some(queued) =>
      if !queued.replaying && !(p.codec.payload)(ev.name, args)
      then NotRecorded(st.(locals := caller, entity := queued))
      else RunBody(p, ev, args, st.(entity := Digest(queued, ev.name, ev.version, args)), caller, fuel)
  }

  /** The part after the digest: the user's body, then the capture. */
  function RunBody(
    p: Program, ev: EventMethod, args: seq<Value>, st: State, caller: seq<(string, Value)>, fuel: nat): CallOut
    decreases fuel, 0, ev.body, 2
  {
    match EvalScope(p, ev.body, st, fuel)
    case Diverge => Looping
    case Ret(v, st1) =>
      if ev.synthesized then
        (if v.ErrV? then BodyFailed(v, st1.(locals := caller)) else Done(true, st1.(locals := caller)))
      else if v.ErrV? then BodyFailed(v, st1.(locals := caller))
      else Postlude(p, ev, args, st1, caller)
    case Val(v, st1) =>
      if !ev.synthesized && v.ErrV? then BodyFailed(v, st1.(locals := caller))
      else Postlude(p, ev, args, st1, caller)
  }

  function Postlude(p: Program, ev: EventMethod, args: seq<Value>, st: State, caller: seq<(string, Value)>): CallOut {
    var (ok, st1) := Capture(p, ev, args, st);
    Done(ok, st1.(locals := caller))
  }
}
