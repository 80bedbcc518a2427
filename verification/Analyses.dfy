/**
 The static analyses of `#[sourced]`, against the semantics of the bodies they inspect.
 */
module Analyses {
  import opened Wrappers
  import opened Recorder
  import opened Frames
  import opened Replay

  // ---------------------------------------------------------------- known state values

  datatype Known = Constant(expr: Expr) | Null

  /** `known_state_value_source`. */
  function KnownSource(e: Expr): Option<Known> {
    match e
    case Paren(inner) => KnownSource(inner)
    case Group(inner) => KnownSource(inner)
    case PathE(segments) =>
      if segments == ["None"] then Some(Null)
      else if |segments| >= 2 then Some(Constant(e))
      else None
    case LitE(lit) => if lit.IntLit? then None else Some(Constant(e))
    case Call(func, args) =>
      if |args| == 1 && IsPath(func, ["std", "string", "String", "from"])
         && Ungroup(args[0]).LitE? && Ungroup(args[0]).lit.StrLit?
      then Some(Constant(e))
      else if |args| == 1 && IsPath(func, ["Some"]) && KnownSource(args[0]).Some? then Some(Constant(e))
      else None
    case _ => None
  }

  /** The value such an expression has in every state. */
  function ConstValue(e: Expr): Value {
    match e
    case Paren(inner) => ConstValue(inner)
    case Group(inner) => ConstValue(inner)
    case PathE(segments) => if segments == ["None"] then NoneV else Const(segments)
    case LitE(lit) => LitValue(lit)
    case Call(func, args) =>
      if |args| != 1 then Unit
      else if IsPath(func, ["Some"]) then SomeV(ConstValue(args[0]))
      else ConstValue(args[0])
    case _ => Unit
  }

  function KnownValue(k: Known): Value {
    match k case Constant(e) => ConstValue(e) case Null => NoneV
  }

  lemma {:induction false} KnownValueOf(e: Expr)
    requires KnownSource(e).Some?
    ensures KnownValue(KnownSource(e).value) == ConstValue(e)
  {
    match e
    case Paren(inner) => KnownValueOf(inner);
    case Group(inner) => KnownValueOf(inner);
    case _ =>
  }

  lemma {:induction false} UngroupEval(p: Program, e: Expr, st: State, fuel: nat)
    ensures Eval(p, e, st, fuel) == Eval(p, Ungroup(e), st, fuel)
  {
    match e
    case Paren(inner) => UngroupEval(p, inner, st, fuel);
    case Group(inner) => UngroupEval(p, inner, st, fuel);
    case _ =>
  }

  lemma {:induction false} UngroupConst(e: Expr)
    ensures ConstValue(e) == ConstValue(Ungroup(e))
  {
    match e
    case Paren(inner) => UngroupConst(inner);
    case Group(inner) => UngroupConst(inner);
    case _ =>
  }

  /** An expression the analysis calls known evaluates to its value everywhere, changing nothing. */
  lemma {:induction false} KnownEvaluates(p: Program, e: Expr, st: State, fuel: nat)
    requires KnownSource(e).Some?
    ensures Eval(p, e, st, fuel) == Val(ConstValue(e), st)
    decreases e
  {
    match e
    case Paren(inner) => KnownEvaluates(p, inner, st, fuel);
    case Group(inner) => KnownEvaluates(p, inner, st, fuel);
    case Call(func, args) =>
      if IsPath(func, ["Some"]) {
        KnownEvaluates(p, args[0], st, fuel);
      } else {
        UngroupEval(p, args[0], st, fuel);
        UngroupConst(args[0]);
      }
      assert EvalArgs(p, args, st, fuel) == Vals([ConstValue(args[0])], st) by {
        assert args[1..] == [];
        assert EvalArgs(p, args[1..], st, fuel) == Vals([], st);
      }
    case _ =>
  }

  // ---------------------------------------------------------------- which expressions are known

  /** A constant as it can be written: `None`, a qualified path, a literal, an owned text, or `Some` of one. */
  datatype Written =
    | Nothing
    | Item(segments: seq<string>)
    | Flag(b: bool)
    | Text(s: string)
    | Letter(c: char)
    | Owned(s: string)
    | Wrapped(inner: Written)

  function Denotes(w: Written): Value {
    match w
    case Nothing => NoneV
    case Item(segments) => Const(segments)
    case Flag(b) => Bool(b)
    case Text(s) => Str(s)
    case Letter(c) => Char(c)
    case Owned(s) => Str(s)
    case Wrapped(inner) => SomeV(Denotes(inner))
  }

  /** The expression, but for grouping, is a call of this path on one argument. */
  predicate CallsPath(e: Expr, path: seq<string>) {
    e.Call? && |e.args| == 1 && Ungroup(e.func) == PathE(path)
  }

  /** The expression writes the constant, with grouping anywhere. */
  predicate Writing(e: Expr, w: Written)
    decreases w
  {
    var u := Ungroup(e);
    match w
    case Nothing => u == PathE(["None"])
    case Item(segments) => |segments| >= 2 && u == PathE(segments)
    case Flag(b) => u == LitE(BoolLit(b))
    case Text(s) => u == LitE(StrLit(s))
    case Letter(c) => u == LitE(CharLit(c))
    case Owned(s) => CallsPath(u, ["std", "string", "String", "from"]) && Ungroup(u.args[0]) == LitE(StrLit(s))
    case Wrapped(inner) => CallsPath(u, ["Some"]) && Writing(u.args[0], inner)
  }

  lemma {:induction false} UngroupKnown(e: Expr)
    ensures KnownSource(e) == KnownSource(Ungroup(e)) && Ungroup(Ungroup(e)) == Ungroup(e)
    ensures !Ungroup(e).Paren? && !Ungroup(e).Group?
  {
    match e
    case Paren(inner) => UngroupKnown(inner);
    case Group(inner) => UngroupKnown(inner);
    case _ =>
  }

  /** Every written constant is reported, with its value. */
  lemma {:induction false} WrittenIsKnown(e: Expr, w: Written)
    requires Writing(e, w)
    ensures KnownSource(e).Some? && KnownValue(KnownSource(e).value) == Denotes(w)
    decreases w
  {
    var u := Ungroup(e);
    UngroupKnown(e);
    UngroupConst(e);
    if w.Wrapped? {
      WrittenIsKnown(u.args[0], w.inner);
      KnownValueOf(u.args[0]);
    } else if w.Owned? {
      UngroupConst(u.args[0]);
      DifferentPaths(u.func);
    }
    assert KnownSource(u).Some?;
    KnownValueOf(e);
  }

  lemma DifferentPaths(func: Expr)
    ensures IsPath(func, ["std", "string", "String", "from"]) ==> !IsPath(func, ["Some"])
  {
    assert |["std", "string", "String", "from"]| != |["Some"]|;
  }

  /** Nothing else is reported. */
  lemma {:induction false} KnownIsWritten(e: Expr) returns (w: Written)
    requires KnownSource(e).Some?
    ensures Writing(e, w)
    decreases e
  {
    var u := Ungroup(e);
    UngroupKnown(e);
    UngroupSmaller(e);
    match u
    case PathE(segments) => w := if segments == ["None"] then Nothing else Item(segments);
    case LitE(lit) =>
      w := match lit
           case BoolLit(b) => Flag(b)
           case StrLit(s) => Text(s)
           case CharLit(c) => Letter(c)
           case IntLit(_) => Nothing;
    case Call(func, args) =>
      if IsPath(func, ["std", "string", "String", "from"]) && Ungroup(args[0]).LitE? && Ungroup(args[0]).lit.StrLit? {
        w := Owned(Ungroup(args[0]).lit.s);
      } else {
        var inner := KnownIsWritten(args[0]);
        w := Wrapped(inner);
      }
    case _ => w := Nothing;
  }

  lemma {:induction false} UngroupSmaller(e: Expr)
    ensures Ungroup(e) == e || Ungroup(e) < e
  {
    match e
    case Paren(inner) => UngroupSmaller(inner);
    case Group(inner) => UngroupSmaller(inner);
    case _ =>
  }

  lemma {:induction false} KnownIsQuiet(e: Expr)
    requires KnownSource(e).Some?
    ensures NoExit(e) && Calls(e) == {}
  {
    match e
    case Paren(inner) => KnownIsQuiet(inner);
    case Group(inner) => KnownIsQuiet(inner);
    case Call(func, args) =>
      assert args[1..] == [] && CallsArgs(args[1..]) == {} && NoExitArgs(args[1..]);
      UngroupIsQuiet(func);
      if IsPath(func, ["Some"]) { KnownIsQuiet(args[0]); } else { UngroupIsQuiet(args[0]); }
    case _ =>
  }

  lemma {:induction false} UngroupIsQuiet(e: Expr)
    ensures NoExit(e) == NoExit(Ungroup(e)) && Calls(e) == Calls(Ungroup(e))
  {
    match e
    case Paren(inner) => UngroupIsQuiet(inner);
    case Group(inner) => UngroupIsQuiet(inner);
    case _ =>
  }

  /** The field that a top-level statement `self.f = e` assigns. */
  function Assigned(s: Stmt): Option<string> {
    if s.Do? && s.expr.Assign? && Ungroup(s.expr.left).Field?
       && IsSelf(Ungroup(s.expr.left).base) && Ungroup(s.expr.left).member.Named?
    then Some(Ungroup(s.expr.left).member.name)
    else None
  }

  /** What the block assigns at its top level; the last assignment of a field counts. */
  function Inferred(ss: seq<Stmt>): map<string, Option<Known>> {
    if ss == [] then map[]
    else
      var first := if Assigned(ss[0]).Some? then map[Assigned(ss[0]).value := KnownSource(ss[0].expr.right)] else map[];
      first + Inferred(ss[1..])
  }

  ghost predicate Reported(ss: seq<Stmt>, f: string, k: Known) {
    f in Inferred(ss) && Inferred(ss)[f] == Some(k)
  }

  /** Statement `i` assigns the field, and no later statement at the top level does. */
  ghost predicate LastAssigns(ss: seq<Stmt>, f: string, i: nat) {
    i < |ss| && Assigned(ss[i]) == Some(f) && forall j | i < j < |ss| :: Assigned(ss[j]) != Some(f)
  }

  /** A field is reported with what its last top-level assignment is known to assign, and only so. */
  lemma {:induction false} ReportedExact(ss: seq<Stmt>, f: string, k: Known)
    ensures Reported(ss, f, k)
       <==> exists i: nat :: LastAssigns(ss, f, i) && KnownSource(ss[i].expr.right) == Some(k)
  {
    if Reported(ss, f, k) {
      var i := LastOf(ss, f);
    }
    if i: nat :| LastAssigns(ss, f, i) && KnownSource(ss[i].expr.right) == Some(k) {
      AssignedIsInferred(ss, f, i);
    }
  }

  lemma {:induction false} LastOf(ss: seq<Stmt>, f: string) returns (i: nat)
    requires f in Inferred(ss)
    ensures LastAssigns(ss, f, i) && Inferred(ss)[f] == KnownSource(ss[i].expr.right)
  {
    if f in Inferred(ss[1..]) {
      var j := LastOf(ss[1..], f);
      i := j + 1;
    } else {
      i := 0;
      forall j | 0 < j < |ss| ensures Assigned(ss[j]) != Some(f) {
        if Assigned(ss[j]) == Some(f) { AssignedIsThere(ss[1..], f, j - 1); }
      }
    }
  }

  lemma {:induction false} AssignedIsThere(ss: seq<Stmt>, f: string, i: nat)
    requires i < |ss| && Assigned(ss[i]) == Some(f)
    ensures f in Inferred(ss)
  {
    if i > 0 { AssignedIsThere(ss[1..], f, i - 1); }
  }

  lemma {:induction false} AssignedIsInferred(ss: seq<Stmt>, f: string, i: nat)
    requires LastAssigns(ss, f, i)
    ensures f in Inferred(ss) && Inferred(ss)[f] == KnownSource(ss[i].expr.right)
  {
    AssignedIsThere(ss, f, i);
    var j := LastOf(ss, f);
  }

  lemma {:induction false} MergeStep<K, V>(values: map<K, V>, k: K, v: V, rest: map<K, V>)
    ensures values + (map[k := v] + rest) == values[k := v] + rest
  {
  }

  /** `infer_unconditional_known_state_values`. */
  method InferKnownStateValues(ss: seq<Stmt>) returns (known: map<string, Known>)
    ensures forall f :: f in known <==> exists k :: Reported(ss, f, k)
    ensures forall f <- known :: Reported(ss, f, known[f])
  {
    var values: map<string, Option<Known>>, i := map[], 0;
    assert ss[0..] == ss;
    while i < |ss|
      invariant 0 <= i <= |ss|
      invariant values + Inferred(ss[i..]) == Inferred(ss)
    {
      assert ss[i..][1..] == ss[i + 1..];
      var field := Assigned(ss[i]);
      if field.Some? {
        MergeStep(values, field.value, KnownSource(ss[i].expr.right), Inferred(ss[i + 1..]));
        values := values[field.value := KnownSource(ss[i].expr.right)];
      } else {
        assert map[] + Inferred(ss[i + 1..]) == Inferred(ss[i + 1..]);
      }
      i := i + 1;
    }
    assert ss[i..] == [] && values + map[] == values;
    known := map f | f in values && values[f].Some? :: values[f].value;
    forall f | f in known ensures Reported(ss, f, known[f]) {}
  }

  lemma {:induction false} PlaceOfUngroup(e: Expr)
    ensures PlaceOf(e) == PlaceOf(Ungroup(e))
  {
    match e
    case Paren(inner) => PlaceOfUngroup(inner);
    case Group(inner) => PlaceOfUngroup(inner);
    case _ =>
  }

  /** Behind the last top-level assignment of `f`, nothing nested writes `f` or records. */
  ghost predicate ClearAfter(readers: set<string>, helpers: set<string>, ss: seq<Stmt>, f: string) {
    ss == [] ||
    if f in Inferred(ss[1..]) then ClearAfter(readers, helpers, ss[1..], f)
    else Named(f) !in WritesBlock(readers, ss[1..]) && CallsBlock(ss[1..]) <= helpers
  }

  /**
   Known values are sound: if nothing behind the last top-level assignment of a reported field
   writes that field, every completed run of the body leaves it at the reported value.
   */
  lemma {:induction false} KnownValuesAreSound(
    p: Program, helpers: set<string>, ss: seq<Stmt>, f: string, k: Known, st: State, fuel: nat)
    requires Reported(ss, f, k) && Spares(p, helpers, Named(f)) && ClearAfter(p.outside.readers, helpers, ss, f)
             && NoExitBlock(ss)
    ensures var out := EvalBlock(p, ss, st, fuel);
            out.Diverge? || (out.Val? && Named(f) in out.st.fields && out.st.fields[Named(f)] == KnownValue(k))
    decreases |ss|
  {
    NeverReturnsBlock(p, ss, st, fuel);
    var e, rest := Head(ss[0]), ss[1..];
    var out := Eval(p, e, st, fuel);
    NeverReturns(p, e, st, fuel);
    if f in Inferred(rest) {
      assert Inferred(ss)[f] == Inferred(rest)[f] && rest != [];
      if out.Val? {
        var next := if ss[0].Let? then out.st.(locals := out.st.locals + [(ss[0].name, out.v)]) else out.st;
        KnownValuesAreSound(p, helpers, rest, f, k, next, fuel);
      }
    } else {
      assert Assigned(ss[0]) == Some(f) && KnownSource(e.right) == Some(k);
      KnownEvaluates(p, e.right, st, fuel);
      KnownValueOf(e.right);
      PlaceOfUngroup(e.left);
      assert PlaceOf(e.left) == SelfPlace(Named(f), []);
      var st1 := st.(fields := st.fields[Named(f) := KnownValue(k)]);
      assert out == Val(Unit, st1);
      KeepsSlotBlock(p, helpers, Named(f), rest, st1, fuel);
      assert EvalBlock(p, rest, st1, fuel) == EvalBlock(p, ss, st, fuel)
        || (rest == [] && EvalBlock(p, ss, st, fuel) == Val(Unit, st1));
    }
  }

  function SelfAssign(f: string, e: Expr): Expr {
    Assign(Field(PathE(["self"]), Named(f)), e)
  }

  lemma {:induction false} AssignIsQuiet(f: string, e: Expr)
    requires KnownSource(e).Some?
    ensures NoExit(SelfAssign(f, e)) && Calls(SelfAssign(f, e)) == {}
  {
    KnownIsQuiet(e);
    var self_ := PathE(["self"]);
    assert NoExit(self_) && Calls(self_) == {};
    assert NoExit(Field(self_, Named(f))) && Calls(Field(self_, Named(f))) == {};
  }

  lemma {:induction false} BlockIsQuiet(ss: seq<Stmt>)
    requires |ss| <= 2 && forall i | 0 <= i < |ss| :: NoExit(Head(ss[i])) && Calls(Head(ss[i])) == {}
    ensures NoExitBlock(ss) && CallsBlock(ss) == {}
  {
    if ss != [] {
      BlockIsQuiet(ss[1..]);
    }
  }

  /** `self.f = c; if flag { self.f = d; }`: the nested write is skipped, not forgotten. */
  function Overwritten(f: string, c: Expr, d: Expr): seq<Stmt> {
    [Do(SelfAssign(f, c), true), Do(If(PathE(["flag"]), [Do(SelfAssign(f, d), true)], []), true)]
  }

  /** The side condition is needed: a nested write leaves another value than the reported one. */
  lemma {:induction false} NestedWriteIsMissed(p: Program, f: string, c: Expr, d: Expr, st: State, fuel: nat)
    requires KnownSource(c).Some? && KnownSource(d).Some? && ConstValue(c) != ConstValue(d)
    requires st.locals == [("flag", Bool(true))]
    ensures var ss := Overwritten(f, c, d);
            && Reported(ss, f, KnownSource(c).value) && NoExitBlock(ss) && CallsBlock(ss) == {}
            && EvalBlock(p, ss, st, fuel).Val?
            && Get(EvalBlock(p, ss, st, fuel).st.fields, Named(f)) == ConstValue(d) != KnownValue(KnownSource(c).value)
  {
    var ss := Overwritten(f, c, d);
    KnownValueOf(c);
    OverwrittenReports(f, c, d);
    OverwrittenRuns(p, f, c, d, st, fuel);
  }

  lemma {:induction false} OverwrittenReports(f: string, c: Expr, d: Expr)
    requires KnownSource(c).Some? && KnownSource(d).Some?
    ensures var ss := Overwritten(f, c, d);
            Reported(ss, f, KnownSource(c).value) && NoExitBlock(ss) && CallsBlock(ss) == {}
  {
    var ss, inner := Overwritten(f, c, d), [Do(SelfAssign(f, d), true)];
    AssignIsQuiet(f, c);
    AssignIsQuiet(f, d);
    assert ss[1..] == [ss[1]] && ss[1..][1..] == [];
    assert Assigned(ss[0]) == Some(f) && Assigned(ss[1]).None?;
    assert Inferred(ss[1..]) == map[] by { assert Inferred(ss[1..][1..]) == map[]; }
    assert Inferred(ss) == map[f := KnownSource(c)] + map[];
    BlockIsQuiet(inner);
    BlockIsQuiet([]);
    var flag := PathE(["flag"]);
    assert ss[1].expr == If(flag, inner, []) && NoExit(flag) && Calls(flag) == {};
    assert NoExit(ss[1].expr) && Calls(ss[1].expr) == {};
    assert Head(ss[0]) == SelfAssign(f, c) && Head(ss[1]) == ss[1].expr;
    BlockIsQuiet(ss);
  }

  lemma {:induction false} OverwrittenRuns(p: Program, f: string, c: Expr, d: Expr, st: State, fuel: nat)
    requires KnownSource(c).Some? && KnownSource(d).Some? && st.locals == [("flag", Bool(true))]
    ensures EvalBlock(p, Overwritten(f, c, d), st, fuel)
            == Val(Unit, st.(fields := st.fields[Named(f) := ConstValue(d)]))
  {
    var ss, inner := Overwritten(f, c, d), [Do(SelfAssign(f, d), true)];
    var st1 := st.(fields := st.fields[Named(f) := ConstValue(c)]);
    var st2 := st.(fields := st.fields[Named(f) := ConstValue(d)]);
    KnownEvaluates(p, c, st, fuel);
    KnownEvaluates(p, d, st1, fuel);
    assert ss[1..] == [ss[1]] && ss[1..][1..] == [] && inner[1..] == [];
    assert Eval(p, ss[0].expr, st, fuel) == Val(Unit, st1);
    assert Lookup(st1.locals, "flag") == Some(Bool(true));
    assert Eval(p, PathE(["flag"]), st1, fuel) == Val(Bool(true), st1);
    assert st1.fields[Named(f) := ConstValue(d)] == st2.fields;
    assert Eval(p, SelfAssign(f, d), st1, fuel) == Val(Unit, st2);
    assert EvalBlock(p, inner, st1, fuel) == EvalBlock(p, [], st2, fuel) == Val(Unit, st2);
    assert EvalScope(p, inner, st1, fuel) == Val(Unit, st2);
    assert Eval(p, ss[1].expr, st1, fuel) == Val(Unit, st2);
    assert EvalBlock(p, ss[1..], st1, fuel) == EvalBlock(p, [], st2, fuel);
  }

  // ---------------------------------------------------------------- one capture per domain event

  /** What `expand_sourced` demands of a domain recorder: no return type, no early exit. */
  ghost predicate AcceptedDomain(ev: EventMethod) {
    ev.domain ==> ev.synthesized && NoExitBlock(ev.body)
  }

  /** A recorder whose guard and body call only helpers, and so record nothing else. */
  ghost predicate Quiet(helpers: set<string>, ev: EventMethod) {
    (ev.guard.Some? ==> Calls(ev.guard.value) <= helpers) && CallsBlock(ev.body) <= helpers
  }

  /** The recorders a run calls are accepted and record nothing but themselves. */
  ghost predicate Accountable(p: Program, helpers: set<string>, calls: seq<EventCall>) {
    && Wired(p)
    && Helpers(p, helpers)
    && forall c <- calls :: c.method_ in p.methods && p.methods[c.method_].Event? ==>
         AcceptedDomain(p.methods[c.method_].event) && Quiet(helpers, p.methods[c.method_].event)
  }

  /** The outward occurrences that a list of records owes. */
  function Owed(p: Program, records: seq<Record>): seq<Occurrence> {
    if records == [] then []
    else
      var r := records[|records| - 1];
      Owed(p, records[..|records| - 1]) + (if IsDomain(p, r.name) then [Occurrence(r.name, r.sequence)] else [])
  }

  predicate IsDomain(p: Program, name: string) {
    name in p.events && p.events[name] in p.methods
    && p.methods[p.events[name]].Event? && p.methods[p.events[name]].event.domain
  }

  /** Sequencing as `Entity` keeps it: versions count the omitted prefix and the events held. */
  ghost predicate Sequenced(en: Entity) {
    && en.version == en.prefix + |en.events|
    && en.prefix <= en.committed <= en.version
    && forall i | 0 <= i < |en.events| :: en.events[i].sequence == en.prefix + i + 1
  }

  /** Unless capture has failed, pending occurrences are exactly those the new events owe. */
  ghost predicate Accounted(p: Program, en: Entity) {
    && Sequenced(en)
    && (!en.poisoned ==> en.pending == Owed(p, en.events[en.committed - en.prefix..]))
  }

  /** The books right after a digest: they owe the event just recorded if it is a domain event. */
  ghost predicate Owing(p: Program, en: Entity, name: string, domain: bool) {
    && Sequenced(en) && en.committed < en.version && en.events != [] && !en.replaying
    && en.events[|en.events| - 1].sequence == en.version
    && (!en.poisoned ==>
          Owed(p, en.events[en.committed - en.prefix..])
          == en.pending + (if domain then [Occurrence(name, en.version)] else []))
  }

  lemma {:induction false} DigestAccounts(p: Program, en: Entity, name: string, version: nat, args: seq<Value>)
    requires Accounted(p, en) && !en.replaying
    ensures Owing(p, Digest(en, name, version, args), name, IsDomain(p, name))
  {
    var next := Digest(en, name, version, args);
    var k := en.committed - en.prefix;
    var fresh_ := next.events[k..];
    assert fresh_[..|fresh_| - 1] == en.events[k..];
    assert fresh_[|fresh_| - 1] == next.events[|next.events| - 1];
  }

  /** A body that calls only helpers leaves the entity as the digest left it. */
  lemma {:induction false} BodyKeepsEntity(p: Program, helpers: set<string>, ss: seq<Stmt>, st: State, fuel: nat)
    requires Helpers(p, helpers) && CallsBlock(ss) <= helpers
    ensures EvalScope(p, ss, st, fuel).Diverge? || EvalScope(p, ss, st, fuel).st.entity == st.entity
  {
    ScopeTogether(p, Watch(helpers, {}, {}, None), ss, st, st, fuel);
  }

  lemma {:induction false} GuardKeepsEntity(p: Program, helpers: set<string>, e: Expr, st: State, fuel: nat)
    requires Helpers(p, helpers) && Calls(e) <= helpers
    ensures Eval(p, e, st, fuel).Diverge? || Eval(p, e, st, fuel).st.entity == st.entity
  {
    RunsTogether(p, Watch(helpers, {}, {}, None), e, st, st, fuel);
  }

  /** One call keeps the books: a recorded domain event is captured once, or the entity is poisoned. */
  lemma {:induction false} CallAccounts(p: Program, helpers: set<string>, c: EventCall, st: State, fuel: nat)
    requires Accountable(p, helpers, [c]) && c.method_ in p.methods && p.methods[c.method_].Event?
    requires Accounted(p, st.entity) && !st.entity.replaying
    ensures var ev, out := p.methods[c.method_].event, LiveOut(p, c, st, fuel);
            && (ev.domain && (ev.guard.Some? ==> NoExit(ev.guard.value)) ==> !out.BodyFailed?)
            && (out.Looping? || (Accounted(p, out.st.entity) && !out.st.entity.replaying))
  {
    var ev := p.methods[c.method_].event;
    assert c in [c];
    var bound := st.(locals := Bind(ev.params, c.args));
    var x := if ev.guard.Some? then Eval(p, ev.guard.value, bound, fuel) else Val(Bool(true), bound);
    if ev.guard.Some? {
      GuardKeepsEntity(p, helpers, ev.guard.value, bound, fuel);
      if NoExit(ev.guard.value) { NeverReturns(p, ev.guard.value, bound, fuel); }
    }
    if x.Val? && x.v == Bool(true) {
      assert IsDomain(p, ev.name) == ev.domain;
      RecordedAccounts(p, helpers, ev, c.args, x.st, st.locals, fuel);
    }
  }

  lemma {:induction false} RecordedAccounts(
    p: Program, helpers: set<string>, ev: EventMethod, args: seq<Value>, st: State,
    caller: seq<(string, Value)>, fuel: nat)
    requires Helpers(p, helpers) && AcceptedDomain(ev) && CallsBlock(ev.body) <= helpers
             && IsDomain(p, ev.name) == ev.domain
    requires Accounted(p, st.entity) && !st.entity.replaying
    ensures var out := Recorded(p, ev, args, st, caller, fuel);
            && (ev.domain ==> !out.BodyFailed?)
            && (out.Looping? || (Accounted(p, out.st.entity) && !out.st.entity.replaying))
  {
    var queued := Enqueue(p, ev, args, st.entity);
    assert queued.Some? ==> Accounted(p, queued.value);
    if queued.Some? && (p.codec.payload)(ev.name, args) {
      var st2 := st.(entity := Digest(queued.value, ev.name, ev.version, args));
      DigestAccounts(p, queued.value, ev.name, ev.version, args);
      BodyAccounts(p, helpers, ev, args, st2, caller, fuel);
      assert Recorded(p, ev, args, st, caller, fuel) == RunBody(p, ev, args, st2, caller, fuel);
    }
  }

  lemma {:induction false} BodyAccounts(p: Program, helpers: set<string>, ev: EventMethod, args: seq<Value>, st: State,
                                        caller: seq<(string, Value)>, fuel: nat)
    requires Helpers(p, helpers) && AcceptedDomain(ev) && CallsBlock(ev.body) <= helpers
    requires Owing(p, st.entity, ev.name, ev.domain)
    ensures var out := RunBody(p, ev, args, st, caller, fuel);
            && (ev.domain ==> !out.BodyFailed?)
            && (out.Looping? || (Accounted(p, out.st.entity) && !out.st.entity.replaying))
  {
    BodyKeepsEntity(p, helpers, ev.body, st, fuel);
    if ev.domain { NeverReturnsBlock(p, ev.body, st, fuel); }
    assert st.entity.pending + [] == st.entity.pending;
  }

  /**
   Over every sequence of calls the books balance: as long as no capture failed, each recorded
   domain event that is not yet committed has exactly one pending occurrence, in order, carrying
   its sequence number. A failed capture poisons the entity, which blocks the commit.
   */
  lemma {:induction false} RunsAccount(p: Program, helpers: set<string>, calls: seq<EventCall>, st: State, fuel: nat)
    requires Accountable(p, helpers, calls) && CallsEvents(p, calls) && Accounted(p, st.entity) && !st.entity.replaying
    requires Live(p, calls, st, fuel).Some?
    ensures Accounted(p, Live(p, calls, st, fuel).value.entity)
    decreases |calls|
  {
    if calls != [] {
      assert calls[0] in calls && (forall c <- calls[1..] :: c in calls) && forall c <- [calls[0]] :: c == calls[0];
      CallAccounts(p, helpers, calls[0], st, fuel);
      assert forall i | 0 <= i < |calls[1..]| :: calls[1..][i] == calls[i + 1];
      RunsAccount(p, helpers, calls[1..], LiveOut(p, calls[0], st, fuel).st, fuel);
    }
  }

  // ---------------------------------------------------------------- generated event sets

  /** The domain events that `discover_domain_command_transitions` finds in a method body. */
  function EventSet(p: Program, body: seq<Stmt>): set<string> {
    set m | m in CallsBlock(body) && m in p.methods && p.methods[m].Event?
      && p.methods[m].event.domain :: p.methods[m].event.name
  }

  /** Calls that reach a recorder only directly: helpers, or recorders with quiet bodies. */
  ghost predicate Direct(p: Program, helpers: set<string>, names: set<string>, calls: set<string>) {
    forall m <- calls ::
      || m in helpers
      || (m in p.methods && p.methods[m].Event? && Quiet(helpers, p.methods[m].event)
          && (p.methods[m].event.domain ==> p.methods[m].event.name in names))
  }

  /** Everything captured in between is an occurrence of a listed event. */
  ghost predicate Grew(names: set<string>, a: State, b: State) {
    && a.entity.pending <= b.entity.pending
    && forall i | |a.entity.pending| <= i < |b.entity.pending| :: b.entity.pending[i].name in names
  }

  lemma {:induction false} RecorderCaptures(
    p: Program, helpers: set<string>, names: set<string>, ev: EventMethod, args: seq<Value>, st: State, fuel: nat)
    requires Helpers(p, helpers) && Quiet(helpers, ev) && (ev.domain ==> ev.name in names)
    ensures var out := CallEvent(p, ev, args, st, fuel); out.Looping? || Grew(names, st, out.st)
  {
    var bound := st.(locals := Bind(ev.params, args));
    if ev.guard.Some? { GuardKeepsEntity(p, helpers, ev.guard.value, bound, fuel); }
    var x := if ev.guard.Some? then Eval(p, ev.guard.value, bound, fuel) else Val(Bool(true), bound);
    if x.Val? && x.v == Bool(true) {
      var queued := Enqueue(p, ev, args, x.st.entity);
      if queued.Some? {
        var st1 := x.st.(entity := Digest(queued.value, ev.name, ev.version, args));
        BodyKeepsEntity(p, helpers, ev.body, st1, fuel);
        BodyCaptures(p, helpers, names, ev, args, st1, st.locals, fuel);
      }
    }
  }

  lemma {:induction false} BodyCaptures(
    p: Program, helpers: set<string>, names: set<string>, ev: EventMethod, args: seq<Value>, st: State,
    caller: seq<(string, Value)>, fuel: nat)
    requires Helpers(p, helpers) && CallsBlock(ev.body) <= helpers && (ev.domain ==> ev.name in names)
    ensures var out := RunBody(p, ev, args, st, caller, fuel); out.Looping? || Grew(names, st, out.st)
  {
    BodyKeepsEntity(p, helpers, ev.body, st, fuel);
  }

  lemma {:induction false} ExprCaptures(
    p: Program, helpers: set<string>, names: set<string>, e: Expr, st: State, fuel: nat)
    requires Helpers(p, helpers) && Direct(p, helpers, names, Calls(e))
    ensures Eval(p, e, st, fuel).Diverge? || Grew(names, st, Eval(p, e, st, fuel).st)
    decreases fuel, e, 1
  {
    match e
    case Paren(inner) => ExprCaptures(p, helpers, names, inner, st, fuel);
    case Group(inner) => ExprCaptures(p, helpers, names, inner, st, fuel);
    case Field(base, _) => ExprCaptures(p, helpers, names, base, st, fuel);
    case Assign(_, right) => ExprCaptures(p, helpers, names, right, st, fuel);
    case Call(_, args) => ArgsCapture(p, helpers, names, args, st, fuel);
    case MethodCall(_, _, _) => MethodCaptures(p, helpers, names, e, st, fuel);
    case If(_, _, _) => BranchCaptures(p, helpers, names, e, st, fuel);
    case While(_, _) => BranchCaptures(p, helpers, names, e, st, fuel);
    case Block(stmts) => BlockCaptures(p, helpers, names, stmts, st, fuel);
    case Try(inner) => ExprCaptures(p, helpers, names, inner, st, fuel);
    case Return(inner) => ExprCaptures(p, helpers, names, inner, st, fuel);
    case SetId(inner) => ExprCaptures(p, helpers, names, inner, st, fuel);
    case _ =>
  }

  lemma {:induction false} BranchCaptures(
    p: Program, helpers: set<string>, names: set<string>, e: Expr, st: State, fuel: nat)
    requires (e.If? || e.While?) && Helpers(p, helpers) && Direct(p, helpers, names, Calls(e))
    ensures Eval(p, e, st, fuel).Diverge? || Grew(names, st, Eval(p, e, st, fuel).st)
    decreases fuel, e, 0
  {
    ExprCaptures(p, helpers, names, e.cond, st, fuel);
    var out := Eval(p, e.cond, st, fuel);
    if out.Val? && e.If? {
      BlockCaptures(p, helpers, names, if out.v == Bool(true) then e.thn else e.els, out.st, fuel);
    } else if out.Val? && fuel > 0 {
      BlockCaptures(p, helpers, names, e.body, out.st, fuel);
      var turn := EvalScope(p, e.body, out.st, fuel);
      if turn.Val? { ExprCaptures(p, helpers, names, e, turn.st, fuel - 1); }
    }
  }

  lemma {:induction false} MethodCaptures(
    p: Program, helpers: set<string>, names: set<string>, e: Expr, st: State, fuel: nat)
    requires e.MethodCall? && Helpers(p, helpers) && Direct(p, helpers, names, Calls(e))
    ensures Eval(p, e, st, fuel).Diverge? || Grew(names, st, Eval(p, e, st, fuel).st)
    decreases fuel, e, 0
  {
    if !IsSelf(e.receiver) && PlaceOf(e.receiver).NoPlace? {
      ExprCaptures(p, helpers, names, e.receiver, st, fuel);
      var first := Eval(p, e.receiver, st, fuel);
      if first.Val? { ArgsCapture(p, helpers, names, e.args, first.st, fuel); }
    } else {
      ArgsCapture(p, helpers, names, e.args, st, fuel);
      var out := EvalArgs(p, e.args, st, fuel);
      if out.Vals? && IsSelf(e.receiver) && fuel > 0 {
        if e.method_ in helpers {
          HelperTogether(p, Watch(helpers, {}, {}, None), e.method_, out.vs, out.st, out.st, fuel - 1);
        } else {
          RecorderCaptures(p, helpers, names, p.methods[e.method_].event, out.vs, out.st, fuel - 1);
        }
      }
    }
  }

  lemma {:induction false} ArgsCapture(
    p: Program, helpers: set<string>, names: set<string>, es: seq<Expr>, st: State, fuel: nat)
    requires Helpers(p, helpers) && Direct(p, helpers, names, CallsArgs(es))
    ensures EvalArgs(p, es, st, fuel).DivergeOuts? || Grew(names, st, EvalArgs(p, es, st, fuel).st)
    decreases fuel, es, 0
  {
    if es != [] {
      ExprCaptures(p, helpers, names, es[0], st, fuel);
      var out := Eval(p, es[0], st, fuel);
      if out.Val? { ArgsCapture(p, helpers, names, es[1..], out.st, fuel); }
    }
  }

  lemma {:induction false} BlockCaptures(
    p: Program, helpers: set<string>, names: set<string>, ss: seq<Stmt>, st: State, fuel: nat)
    requires Helpers(p, helpers) && Direct(p, helpers, names, CallsBlock(ss))
    ensures EvalBlock(p, ss, st, fuel).Diverge? || Grew(names, st, EvalBlock(p, ss, st, fuel).st)
    ensures EvalScope(p, ss, st, fuel).Diverge? || Grew(names, st, EvalScope(p, ss, st, fuel).st)
    decreases fuel, ss, 0
  {
    if ss != [] {
      ExprCaptures(p, helpers, names, Head(ss[0]), st, fuel);
      var out := Eval(p, Head(ss[0]), st, fuel);
      if out.Val? {
        BlockCaptures(p, helpers, names, ss[1..], out.st, fuel);
        if ss[0].Let? {
          BlockCaptures(p, helpers, names, ss[1..], out.st.(locals := out.st.locals + [(ss[0].name, out.v)]), fuel);
        }
      }
    }
  }

  function BodyOf(m: Method): seq<Stmt> {
    match m case Plain(_, _, body) => body case Event(ev) => ev.body
  }

  /** A method that is no domain recorder, and whose guard, if it has one, calls only helpers. */
  ghost predicate Command(helpers: set<string>, m: Method) {
    m.Event? ==> !m.event.domain && (m.event.guard.Some? ==> Calls(m.event.guard.value) <= helpers)
  }

  lemma {:induction false} CommandCaptures(
    p: Program, helpers: set<string>, names: set<string>, ev: EventMethod, args: seq<Value>, st: State, fuel: nat)
    requires Helpers(p, helpers) && Command(helpers, Event(ev)) && Direct(p, helpers, names, CallsBlock(ev.body))
    ensures var out := CallEvent(p, ev, args, st, fuel); out.Looping? || Grew(names, st, out.st)
  {
    var bound := st.(locals := Bind(ev.params, args));
    if ev.guard.Some? { GuardKeepsEntity(p, helpers, ev.guard.value, bound, fuel); }
    var x := if ev.guard.Some? then Eval(p, ev.guard.value, bound, fuel) else Val(Bool(true), bound);
    if x.Val? && x.v == Bool(true) {
      var queued := Enqueue(p, ev, args, x.st.entity);
      if queued.Some? {
        var st1 := x.st.(entity := Digest(queued.value, ev.name, ev.version, args));
        CommandBody(p, helpers, names, ev, args, st1, st.locals, fuel);
      }
    }
  }

  lemma {:induction false} CommandBody(
    p: Program, helpers: set<string>, names: set<string>, ev: EventMethod, args: seq<Value>, st: State,
    caller: seq<(string, Value)>, fuel: nat)
    requires Helpers(p, helpers) && !ev.domain && Direct(p, helpers, names, CallsBlock(ev.body))
    ensures var out := RunBody(p, ev, args, st, caller, fuel); out.Looping? || Grew(names, st, out.st)
  {
    BlockCaptures(p, helpers, names, ev.body, st, fuel);
  }

  /**
   The generated event set is complete for methods that reach recorders directly, plain ones
   and event methods without a domain marker: whatever control flow, arguments and state, every
   occurrence a run captures is one of its events.
   */
  lemma {:induction false} EventSetIsComplete(
    p: Program, helpers: set<string>, name: string, args: seq<Value>, st: State, fuel: nat)
    requires Helpers(p, helpers) && name in p.methods && Command(helpers, p.methods[name])
    requires forall m <- CallsBlock(BodyOf(p.methods[name])) ::
               m in helpers || (m in p.methods && p.methods[m].Event? && Quiet(helpers, p.methods[m].event))
    ensures Invoke(p, name, args, st, fuel).Diverge?
            || Grew(EventSet(p, BodyOf(p.methods[name])), st, Invoke(p, name, args, st, fuel).st)
  {
    match p.methods[name]
    case Plain(_, params, body) =>
      BlockCaptures(p, helpers, EventSet(p, body), body, st.(locals := Bind(params, args)), fuel);
    case Event(ev) => CommandCaptures(p, helpers, EventSet(p, ev.body), ev, args, st, fuel);
  }

  // ---------------------------------------------------------------- why the call must be direct

  function SelfCall(name: string): seq<Stmt> {
    [Do(MethodCall(PathE(["self"]), name, []), true)]
  }

  /** A public method that records through a private helper. */
  function IndirectProgram(): Program {
    Program(
      map["command" := Plain(true, [], SelfCall("helper")),
          "helper" := Plain(false, [], SelfCall("record")),
          "record" := Event(EventMethod("recorded", 1, None, true, true, [], []))],
      map["recorded" := "record"],
      false,
      Outside({}, (_, _) => Unit, (_, v, _) => (v, Unit), (_, _) => Unit, (_, _, v) => v),
      Codec((_, _) => true, (_, _) => true, (_, _, _) => true))
  }

  lemma {:induction false} CallsOf(name: string)
    ensures CallsBlock(SelfCall(name)) == {name}
  {
    var ss := SelfCall(name);
    assert ss[1..] == [] && CallsBlock(ss[1..]) == {};
    assert CallsArgs([]) == {} && Calls(PathE(["self"])) == {};
    assert Calls(ss[0].expr) == {name};
  }

  lemma {:induction false} SelfCallRuns(p: Program, name: string, st: State, fuel: nat)
    requires Invoke(p, name, [], st, fuel).Val? && st.locals == []
    ensures EvalBlock(p, SelfCall(name), st, fuel + 1) == Val(Unit, Invoke(p, name, [], st, fuel).st)
  {
    var ss, after := SelfCall(name), Invoke(p, name, [], st, fuel).st;
    assert EvalArgs(p, [], st, fuel + 1) == Vals([], st);
    assert Eval(p, ss[0].expr, st, fuel + 1) == Invoke(p, name, [], st, fuel);
    assert ss[1..] == [];
    assert EvalBlock(p, ss[1..], after, fuel + 1) == Val(Unit, after);
  }

  /** An event recorded through a helper is captured and missing from the event set. */
  lemma {:induction false} IndirectEventIsMissed(p: Program, st: State, fuel: nat)
    requires p == IndirectProgram() && st.locals == [] && st.entity == Entity(0, 0, [], 0, false, [], false, [])
             && fuel == 2
    ensures EventSet(p, p.methods["command"].body) == {}
    ensures Invoke(p, "command", [], st, fuel).Val?
            && Invoke(p, "command", [], st, fuel).st.entity.pending == [Occurrence("recorded", 1)]
  {
    CallsOf("helper");
    var ev := p.methods["record"].event;
    var en := Digest(st.entity, "recorded", 1, []);
    var st1 := st.(entity := en);
    var st2 := st.(entity := en.(pending := [Occurrence("recorded", 1)]));
    assert EvalBlock(p, [], st1, 0) == Val(Unit, st1);
    assert EvalScope(p, ev.body, st1, 0) == Val(Unit, st1) by { assert Leave(st1, 0) == st1; }
    assert Postlude(p, ev, [], st1, []) == Done(true, st2);
    assert RunBody(p, ev, [], st1, [], 0) == Done(true, st2);
    assert st.(locals := []) == st;
    assert Recorded(p, ev, [], st, [], 0) == Done(true, st2);
    assert CallEvent(p, ev, [], st, 0) == Done(true, st2);
    assert Invoke(p, "record", [], st, 0) == Val(OkV(Unit), st2);
    SelfCallRuns(p, "record", st, 0);
    assert Invoke(p, "helper", [], st, 1) == Val(Unit, st2);
    SelfCallRuns(p, "helper", st, 1);
  }
}
