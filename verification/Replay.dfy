/**
 Event sourcing as the framework promises it: what live calls record, replay reproduces.
 */
module Replay {
  import opened Wrappers
  import opened Recorder
  import opened Frames
  import opened Histories

  /** What duplicate detection in `expand_sourced` guarantees: one method per event name. */
  ghost predicate Wired(p: Program) {
    && (forall n <- p.events ::
          p.events[n] in p.methods && p.methods[p.events[n]].Event? && p.methods[p.events[n]].event.name == n)
    && (forall m <- p.methods :: p.methods[m].Event? ==>
          p.methods[m].event.name in p.events && p.events[p.methods[m].event.name] == m)
  }

  /** Helpers that write nothing, like `can_reserve` or `is_complete`. */
  ghost predicate Looking(p: Program, lookers: set<string>) {
    && Helpers(p, lookers)
    && forall m <- lookers ::
         m in p.methods && p.methods[m].Plain? ==> WritesBlock(p.outside.readers, p.methods[m].body) == {}
  }

  /** A guard that only looks: its own code and the helpers it calls write nothing, and it does not exit. */
  ghost predicate OnlyLooks(p: Program, helpers: set<string>, g: Expr) {
    && NoExit(g) && Writes(p.outside.readers, g) == {}
    && exists lookers :: Looking(p, lookers) && lookers <= helpers && Calls(g) <= lookers
  }

  /** A recorder whose body calls only helpers, and that looks at no hidden slot but to take the id behind a test. */
  ghost predicate Ordinary(p: Program, w: Watch, ev: EventMethod) {
    && (ev.guard.Some? ==>
          OnlyLooks(p, w.helpers, ev.guard.value) && Reads(p.outside.readers, w.tests, ev.guard.value) !! w.hidden)
    && CallsBlock(ev.body) <= w.helpers
    && ReadsBlock(p.outside.readers, w.tests, ev.body) !! w.hidden
  }

  /** A recorder whose guard is a test of the id, and whose body cannot fail and writes at most the id. */
  predicate TakesIdOnce(p: Program, w: Watch, ev: EventMethod) {
    && ev.guard.Some? && ev.guard.value in w.tests && ev.synthesized
    && StraightBlock(p.outside.readers, ev.body) && CallsBlock(ev.body) == {}
    && WritesBlock(p.outside.readers, ev.body) <= {EntityId}
    && (Reads(p.outside.readers, {}, ev.guard.value) + ReadsBlock(p.outside.readers, {}, ev.body)) - {EntityId}
       !! w.hidden
  }

  ghost predicate Replayable(p: Program, w: Watch, ev: EventMethod) {
    Ordinary(p, w, ev) || TakesIdOnce(p, w, ev)
  }

  // ---------------------------------------------------------------- replay

  /** `replay_event`: dispatch on the event name, call the same method. */
  function ReplayEvent(p: Program, r: Record, st: State, fuel: nat): Option<State> {
    if r.name !in p.events || p.events[r.name] !in p.methods || !p.methods[p.events[r.name]].Event? then None
    else match CallEvent(p, p.methods[p.events[r.name]].event, r.args, st, fuel)
      case Skipped(st1) => Some(st1)
      case Done(ok, st1) => if ok then Some(st1) else None
      case _ => None
  }

  function ReplayAll(p: Program, records: seq<Record>, st: State, fuel: nat): Option<State>
    decreases |records|
  {
    if records == [] then Some(st)
    else match ReplayEvent(p, records[0], st, fuel)
      case None => None
      case Some(st1) => ReplayAll(p, records[1..], st1, fuel)
  }

  /** An entity as a store hands it to `hydrate`, its history taken out for the replay. */
  function Replaying(version: nat): Entity {
    Entity(version, 0, [], version, true, [], false, [])
  }

  /** `Entity::load_from_history`. */
  function LoadHistory(en: Entity, history: seq<Record>): Entity {
    en.(events := history, prefix := 0, version := |history|, committed := |history|, replaying := false)
  }

  /** `hydrate`. */
  function Hydrate(p: Program, defaults: map<Slot, Value>, id: Value, history: seq<Record>, fuel: nat): Option<State> {
    match ReplayAll(p, history, State(defaults[EntityId := id], [], Replaying(|history|)), fuel)
    case None => None
    case Some(st) => Some(st.(entity := LoadHistory(st.entity, history)))
  }

  // ---------------------------------------------------------------- live calls

  datatype EventCall = EventCall(method_: string, args: seq<Value>)

  ghost predicate CallsEvents(p: Program, calls: seq<EventCall>) {
    forall i | 0 <= i < |calls| :: calls[i].method_ in p.methods && p.methods[calls[i].method_].Event?
  }

  function LiveOut(p: Program, c: EventCall, st: State, fuel: nat): CallOut
    requires c.method_ in p.methods && p.methods[c.method_].Event?
  {
    CallEvent(p, p.methods[c.method_].event, c.args, st, fuel)
  }

  /** The aggregate after a sequence of calls, whatever each of them returned. */
  function Live(p: Program, calls: seq<EventCall>, st: State, fuel: nat): Option<State>
    requires forall i | 0 <= i < |calls| :: calls[i].method_ in p.methods && p.methods[calls[i].method_].Event?
    decreases |calls|
  {
    if calls == [] then Some(st)
    else match LiveOut(p, calls[0], st, fuel)
      case Looping => None
      case out => Live(p, calls[1..], out.st, fuel)
  }

  ghost predicate NoBodyFails(p: Program, calls: seq<EventCall>, st: State, fuel: nat)
    requires CallsEvents(p, calls)
    decreases |calls|
  {
    calls == [] ||
    var out := LiveOut(p, calls[0], st, fuel);
    !out.Looping? && !out.BodyFailed? && NoBodyFails(p, calls[1..], out.st, fuel)
  }

  // ---------------------------------------------------------------- simulation

  lemma {:induction false} GuardKeeps(p: Program, helpers: set<string>, g: Expr, st: State, fuel: nat)
    requires OnlyLooks(p, helpers, g)
    ensures var out := Eval(p, g, st, fuel);
            !out.Ret? && (out.Val? ==> out.st.fields == st.fields && out.st.entity == st.entity)
  {
    NeverReturns(p, g, st, fuel);
    var out := Eval(p, g, st, fuel);
    if out.Val? {
      var lookers :| Looking(p, lookers) && lookers <= helpers && Calls(g) <= lookers;
      forall slot ensures Kept(slot, st, out.st) {
        KeepsSlot(p, lookers, slot, g, st, fuel);
      }
      assert Kept(EntityId, st, out.st);
      forall k ensures (k in out.st.fields <==> k in st.fields)
        && (k in st.fields ==> out.st.fields[k] == st.fields[k]) {
        assert Kept(k, st, out.st);
      }
      MapsEqual(out.st.fields, st.fields);
    }
  }

  /** A call whose guard says no leaves the aggregate and its history as they were. */
  lemma {:induction false} SkippedChangesNothing(
    p: Program, helpers: set<string>, ev: EventMethod, args: seq<Value>, st: State, fuel: nat)
    requires ev.guard.Some? ==> OnlyLooks(p, helpers, ev.guard.value)
    requires CallEvent(p, ev, args, st, fuel).Skipped?
    ensures CallEvent(p, ev, args, st, fuel).st == st
  {
    var bound := st.(locals := Bind(ev.params, args));
    var x := if ev.guard.Some? then Eval(p, ev.guard.value, bound, fuel) else Val(Bool(true), bound);
    if ev.guard.Some? { GuardKeeps(p, helpers, ev.guard.value, bound, fuel); }
    if x.Val? { RecordedNeverSkips(p, ev, args, x.st, st.locals, fuel); }
  }

  lemma {:induction false} RecordedNeverSkips(
    p: Program, ev: EventMethod, args: seq<Value>, st: State, caller: seq<(string, Value)>, fuel: nat)
    ensures !Recorded(p, ev, args, st, caller, fuel).Skipped?
  {
  }

  lemma {:induction false} MapsEqual<K, V>(a: map<K, V>, b: map<K, V>)
    requires forall k :: (k in a <==> k in b) && (k in a ==> a[k] == b[k])
    ensures a == b
  {
  }

  /** The guard part of a call, live and replayed: same verdict, nothing changed. */
  lemma {:induction false} GuardTogether(
    p: Program, w: Watch, ev: EventMethod, a: State, b: State, fuel: nat)
    requires Oblivious(p, w) && Ordinary(p, w, ev) && Near(w, a, b)
    ensures var x := if ev.guard.Some? then Eval(p, ev.guard.value, a, fuel) else Val(Bool(true), a);
            var y := if ev.guard.Some? then Eval(p, ev.guard.value, b, fuel) else Val(Bool(true), b);
            || (x.Diverge? && y.Diverge?)
            || (x.Val? && y.Val? && x.v == y.v && x.st.locals == y.st.locals
                && x.st.fields == a.fields && y.st.fields == b.fields && x.st.entity == a.entity
                  && y.st.entity == b.entity)
  {
    if ev.guard.Some? {
      var g := ev.guard.value;
      GuardKeeps(p, w.helpers, g, a, fuel);
      GuardKeeps(p, w.helpers, g, b, fuel);
      RunsTogether(p, w, g, a, b, fuel);
    }
  }

  /** The body part: both runs fail or both finish, in step. */
  lemma {:induction false} BodyTogether(
    p: Program, w: Watch, ev: EventMethod, args: seq<Value>,
    a: State, b: State, caller: seq<(string, Value)>, fuel: nat)
    requires Oblivious(p, w) && Ordinary(p, w, ev) && Near(w, a, b)
    requires b.entity.replaying
    ensures var x, y := RunBody(p, ev, args, a, caller, fuel), RunBody(p, ev, args, b, caller, fuel);
            || (x.Looping? && y.Looping?)
            || (x.BodyFailed? && y.BodyFailed? && x.st.entity == a.entity)
            || (x.Done? && y.Done? && y.ok && Near(w, x.st, y.st) && y.st.entity == b.entity
                && x.st.entity.events == a.entity.events
                && x.st.entity.replaying == a.entity.replaying && x.st.entity.prefix == a.entity.prefix
                && x.st.locals == caller)
  {
    ScopeTogether(p, w, ev.body, a, b, fuel);
    var u, v := EvalScope(p, ev.body, a, fuel), EvalScope(p, ev.body, b, fuel);
    if !u.Diverge? {
      var x, y := RunBody(p, ev, args, a, caller, fuel), RunBody(p, ev, args, b, caller, fuel);
      if x.Done? {
        assert x.st.fields == u.st.fields && y.st.fields == v.st.fields;
        forall k | k !in w.hidden ensures SameSlot(x.st, y.st, k) { assert SameSlot(u.st, v.st, k); }
      }
    }
  }

  /** What one live call means for the replay of what it recorded. */
  ghost predicate StepMatches(
    p: Program, w: Watch, ev: EventMethod, a: State, out: CallOut, b: State, again: CallOut)
    requires !out.Looping?
  {
    var a1, old_ := out.st, a.entity.events;
    && a1.entity.replaying == a.entity.replaying
    && a1.entity.prefix == a.entity.prefix
    && if out.Skipped? || out.NotRecorded? then
         a1.fields == a.fields && a1.entity.events == old_
       else
         && |a1.entity.events| == |old_| + 1 && old_ == a1.entity.events[..|old_|]
         && a1.entity.events[|old_|].name == ev.name
         && if out.BodyFailed? then again.BodyFailed?
            else (again.Skipped? || (again.Done? && again.ok))
                 && Near(w, a1, again.st) && again.st.entity == b.entity
  }

  lemma {:induction false} RecordedTogether(
    p: Program, w: Watch, ev: EventMethod, args: seq<Value>,
    a: State, b: State, caller: seq<(string, Value)>, fuel: nat)
    requires Oblivious(p, w) && Ordinary(p, w, ev) && Near(w, a, b)
    requires !a.entity.replaying && b.entity.replaying
    requires !Recorded(p, ev, args, a, caller, fuel).Looping?
    ensures var out, again := Recorded(p, ev, args, a, caller, fuel), Recorded(p, ev, args, b, caller, fuel);
            && StepMatches(p, w, ev, a, out, b, again) && out.st.locals == caller
            && (out.BodyFailed? || out.Done? ==> out.st.entity.events[|a.entity.events|].args == args)
  {
    var queued := Enqueue(p, ev, args, a.entity);
    assert Enqueue(p, ev, args, b.entity) == Some(b.entity);
    assert Digest(b.entity, ev.name, ev.version, args) == b.entity && b.(entity := b.entity) == b;
    if queued.Some? && (p.codec.payload)(ev.name, args) {
      var digested := Digest(queued.value, ev.name, ev.version, args);
      var a2 := a.(entity := digested);
      forall k | k !in w.hidden ensures SameSlot(a2, b, k) { assert SameSlot(a, b, k); }
      BodyTogether(p, w, ev, args, a2, b, caller, fuel);
    }
  }

  lemma {:induction false} OrdinaryTogether(
    p: Program, w: Watch, ev: EventMethod, args: seq<Value>, a: State, b: State,
    fuel: nat)
    requires Oblivious(p, w) && Ordinary(p, w, ev) && Near(w, a, b)
    requires !a.entity.replaying && b.entity.replaying
    requires !CallEvent(p, ev, args, a, fuel).Looping?
    ensures var out, again := CallEvent(p, ev, args, a, fuel), CallEvent(p, ev, args, b, fuel);
            && StepMatches(p, w, ev, a, out, b, again) && out.st.locals == a.locals
            && (out.BodyFailed? || out.Done? ==> out.st.entity.events[|a.entity.events|].args == args)
  {
    var a0, b0 := a.(locals := Bind(ev.params, args)), b.(locals := Bind(ev.params, args));
    forall k | k !in w.hidden ensures SameSlot(a0, b0, k) { assert SameSlot(a, b, k); }
    GuardTogether(p, w, ev, a0, b0, fuel);
    var x := if ev.guard.Some? then Eval(p, ev.guard.value, a0, fuel) else Val(Bool(true), a0);
    var y := if ev.guard.Some? then Eval(p, ev.guard.value, b0, fuel) else Val(Bool(true), b0);
    if x.v == Bool(true) {
      forall k | k !in w.hidden ensures SameSlot(x.st, y.st, k) { assert SameSlot(a, b, k); }
      RecordedTogether(p, w, ev, args, x.st, y.st, a.locals, fuel);
    }
  }

  /** What a live call of a recorder that takes the id once does, whatever the id. */
  lemma {:induction false} TakeEffect(
    p: Program, w: Watch, ev: EventMethod, args: seq<Value>, a: State, fuel: nat)
    requires Oblivious(p, w) && TakesIdOnce(p, w, ev) && !a.entity.replaying
    ensures var out, old_ := CallEvent(p, ev, args, a, fuel), a.entity.events;
            && !out.Looping? && !out.BodyFailed? && out.st.locals == a.locals
            && out.st.entity.replaying == a.entity.replaying && out.st.entity.prefix == a.entity.prefix
            && a.fields.Keys <= out.st.fields.Keys
            && (forall k :: k != EntityId ==> SameSlot(a, out.st, k))
            && if out.Done? then
                 && |out.st.entity.events| == |old_| + 1 && old_ == out.st.entity.events[..|old_|]
                 && out.st.entity.events[|old_|].name == ev.name && out.st.entity.events[|old_|].args == args
               else out.st.fields == a.fields && out.st.entity.events == old_
  {
    var bound := a.(locals := Bind(ev.params, args));
    assert Test(p, ev.guard.value);
    TestChangesNothing(p, ev.guard.value, bound, fuel);
    if Eval(p, ev.guard.value, bound, fuel).v == Bool(true) { TakeRecorded(p, ev, args, bound, a.locals, fuel); }
    var out := CallEvent(p, ev, args, a, fuel);
    forall k ensures k != EntityId ==> SameSlot(a, out.st, k) {
      assert out.Done? && k != EntityId ==> SameSlot(bound, out.st, k);
    }
  }

  lemma {:induction false} TakeRecorded(
    p: Program, ev: EventMethod, args: seq<Value>, a: State, caller: seq<(string, Value)>, fuel: nat)
    requires StraightBlock(p.outside.readers, ev.body) && CallsBlock(ev.body) == {} && ev.synthesized
    requires WritesBlock(p.outside.readers, ev.body) <= {EntityId} && !a.entity.replaying
    ensures var out, old_ := Recorded(p, ev, args, a, caller, fuel), a.entity.events;
            && (out.Done? || out.NotRecorded?) && out.st.locals == caller
            && out.st.entity.replaying == a.entity.replaying && out.st.entity.prefix == a.entity.prefix
            && a.fields.Keys <= out.st.fields.Keys
            && (forall k :: k != EntityId ==> SameSlot(a, out.st, k))
            && if out.Done? then
                 && |out.st.entity.events| == |old_| + 1 && old_ == out.st.entity.events[..|old_|]
                 && out.st.entity.events[|old_|].name == ev.name && out.st.entity.events[|old_|].args == args
               else out.st.fields == a.fields && out.st.entity.events == old_
  {
    var queued := Enqueue(p, ev, args, a.entity);
    if queued.Some? && (p.codec.payload)(ev.name, args) {
      var a2 := a.(entity := Digest(queued.value, ev.name, ev.version, args));
      StraightBlockEnds(p, ev.body, a2, fuel);
      var done := EvalScope(p, ev.body, a2, fuel);
      KeepsSlotBlock(p, {}, Named(""), ev.body, a2, fuel);
      forall k ensures k != EntityId ==> SameSlot(a2, done.st, k) {
        if k != EntityId { KeepsSlotBlock(p, {}, k, ev.body, a2, fuel); }
      }
      var out := Recorded(p, ev, args, a, caller, fuel);
      forall k ensures k != EntityId ==> SameSlot(a, out.st, k) {
        assert k != EntityId ==> SameSlot(a2, done.st, k);
      }
    }
  }

  /** The replay of such a call takes the same id, or is skipped because the stored id is there. */
  lemma {:induction false} TakeTogether(
    p: Program, w: Watch, ev: EventMethod, args: seq<Value>, a: State, b: State, fuel: nat)
    requires Oblivious(p, w) && TakesIdOnce(p, w, ev) && Near(w, a, b)
    requires !a.entity.replaying && b.entity.replaying
    ensures var out, again := CallEvent(p, ev, args, a, fuel), CallEvent(p, ev, args, b, fuel);
            && !out.Looping? && StepMatches(p, w, ev, a, out, b, again) && out.st.locals == a.locals
            && (out.BodyFailed? || out.Done? ==> out.st.entity.events[|a.entity.events|].args == args)
  {
    TakeEffect(p, w, ev, args, a, fuel);
    assert Test(p, ev.guard.value);
    if SameSlot(a, b, EntityId) {
      assert OnlyLooks(p, {}, ev.guard.value) by { assert Looking(p, {}); }
      OrdinaryTogether(p, Settled(w), ev, args, a, b, fuel);
      TakeAlike(p, w, ev, args, a, b, fuel);
    } else {
      TakeSkipped(p, w, ev, args, a, b, fuel);
      var out := CallEvent(p, ev, args, a, fuel);
      forall k ensures k !in w.hidden ==> SameSlot(out.st, b, k) {
        assert k !in w.hidden ==> SameSlot(a, b, k) && SameSlot(a, out.st, k);
      }
    }
  }

  lemma {:induction false} TakeSkipped(
    p: Program, w: Watch, ev: EventMethod, args: seq<Value>, a: State, b: State, fuel: nat)
    requires Oblivious(p, w) && TakesIdOnce(p, w, ev) && Near(w, a, b) && !SameSlot(a, b, EntityId)
    ensures EntityId in w.hidden && CallEvent(p, ev, args, b, fuel) == Skipped(b)
  {
    var bound := b.(locals := Bind(ev.params, args));
    assert Test(p, ev.guard.value) && Refuses(p, ev.guard.value, w.id.value);
    TestChangesNothing(p, ev.guard.value, bound, fuel);
    assert Eval(p, ev.guard.value, bound, fuel).v != Bool(true);
  }

  lemma {:induction false} TakeAlike(
    p: Program, w: Watch, ev: EventMethod, args: seq<Value>, a: State, b: State, fuel: nat)
    requires !CallEvent(p, ev, args, a, fuel).Looping? && Near(w, a, b) && SameSlot(a, b, EntityId)
    requires a.fields.Keys <= CallEvent(p, ev, args, a, fuel).st.fields.Keys
    requires StepMatches(p, Settled(w), ev, a, CallEvent(p, ev, args, a, fuel), b, CallEvent(p, ev, args, b, fuel))
    ensures StepMatches(p, w, ev, a, CallEvent(p, ev, args, a, fuel), b, CallEvent(p, ev, args, b, fuel))
  {
    var out, again := CallEvent(p, ev, args, a, fuel), CallEvent(p, ev, args, b, fuel);
    if out.Done? { assert SameSlot(out.st, again.st, EntityId); }
  }

  /** One call, live and replayed. */
  lemma {:induction false} CallTogether(
    p: Program, w: Watch, ev: EventMethod, args: seq<Value>, a: State, b: State, fuel: nat)
    requires Oblivious(p, w) && Replayable(p, w, ev) && Near(w, a, b)
    requires !a.entity.replaying && b.entity.replaying
    requires !CallEvent(p, ev, args, a, fuel).Looping?
    ensures var out, again := CallEvent(p, ev, args, a, fuel), CallEvent(p, ev, args, b, fuel);
            && StepMatches(p, w, ev, a, out, b, again) && out.st.locals == a.locals
            && (out.BodyFailed? || out.Done? ==> out.st.entity.events[|a.entity.events|].args == args)
  {
    if Ordinary(p, w, ev) {
      OrdinaryTogether(p, w, ev, args, a, b, fuel);
    } else {
      TakeTogether(p, w, ev, args, a, b, fuel);
    }
  }

  // ---------------------------------------------------------------- whole runs

  /** The call is of a recorder that can be replayed. */
  ghost predicate CallReplays(p: Program, w: Watch, c: EventCall) {
    c.method_ in p.methods && p.methods[c.method_].Event? && Replayable(p, w, p.methods[c.method_].event)
  }

  /** Every recorder a run calls can be replayed. */
  ghost predicate CallsReplay(p: Program, w: Watch, calls: seq<EventCall>) {
    Oblivious(p, w) && forall c <- calls :: CallReplays(p, w, c)
  }

  /** How the replay of everything a run recorded ends, for a run that ended in `done`. */
  ghost predicate RunMatches(
    w: Watch, done: State, b: State, replayed: Option<State>, succeeded: bool) {
    && (replayed.Some? <==> succeeded)
    && (replayed.Some? ==>
          Near(w, done, replayed.value) && replayed.value.entity == b.entity)
  }

  /** The history of a run from `a` extends that of `a`, and its replay from `b` matches. */
  ghost predicate RunReplays(p: Program, w: Watch, calls: seq<EventCall>, a: State, b: State, fuel: nat)
    requires CallsEvents(p, calls) && Live(p, calls, a, fuel).Some?
  {
    var done, n := Live(p, calls, a, fuel).value, |a.entity.events|;
    && !done.entity.replaying
    && a.entity.events <= done.entity.events
    && RunMatches(w, done, b, ReplayAll(p, done.entity.events[n..], b, fuel), NoBodyFails(p, calls, a, fuel))
  }

  /** Replaying what a run recorded, from any state in step with its start. */
  lemma {:induction false} RunTogether(
    p: Program, w: Watch, calls: seq<EventCall>, a: State, b: State, fuel: nat)
    requires Wired(p) && CallsReplay(p, w, calls) && CallsEvents(p, calls)
    requires Near(w, a, b) && !a.entity.replaying && b.entity.replaying
    requires Live(p, calls, a, fuel).Some?
    ensures RunReplays(p, w, calls, a, b, fuel)
    decreases |calls|
  {
    if calls == [] {
      assert a.entity.events[|a.entity.events|..] == [];
    } else {
      var c, rest := calls[0], calls[1..];
      assert calls == [c] + rest;
      FirstStep(p, w, c, rest, a, b, fuel);
      var out, again := LiveOut(p, c, a, fuel), LiveOut(p, c, b, fuel);
      if out.Skipped? || out.NotRecorded? {
        RunTogether(p, w, rest, out.st, b, fuel);
        UnrecordedStep(p, w, c, rest, a, b, fuel);
      } else if out.Done? {
        RunTogether(p, w, rest, out.st, again.st, fuel);
        DoneStep(p, w, c, rest, a, b, fuel);
      } else {
        RunExtends(p, rest, out.st, fuel);
        FailedStep(p, w, c, rest, a, b, fuel);
      }
    }
  }

  /** One call of a run, live from `a` and again from `b`. */
  lemma {:induction false} FirstStep(
    p: Program, w: Watch, c: EventCall, rest: seq<EventCall>, a: State, b: State,
    fuel: nat)
    requires Wired(p) && CallsReplay(p, w, [c] + rest) && CallsEvents(p, [c] + rest)
    requires Near(w, a, b) && !a.entity.replaying && b.entity.replaying
    requires Live(p, [c] + rest, a, fuel).Some?
    ensures CallsReplay(p, w, rest)
    ensures Stepping(p, w, c, rest, a, b, fuel)
    ensures var out, again := LiveOut(p, c, a, fuel), LiveOut(p, c, b, fuel);
            && Live(p, rest, out.st, fuel).Some? && !out.st.entity.replaying
            && (out.Skipped? || out.NotRecorded? ==> Near(w, out.st, b))
            && (out.Done? ==> Near(w, out.st, again.st) && again.st.entity.replaying)
  {
    RestReplays(p, w, c, rest);
    LiveStep(p, c, rest, a, fuel);
    CallTogether(p, w, p.methods[c.method_].event, c.args, a, b, fuel);
    var out := LiveOut(p, c, a, fuel);
    if out.Skipped? || out.NotRecorded? {
      forall k | k !in w.hidden ensures SameSlot(out.st, b, k) { assert SameSlot(a, b, k); }
    }
  }

  lemma {:induction false} RestReplays(
    p: Program, w: Watch, c: EventCall, rest: seq<EventCall>)
    requires CallsReplay(p, w, [c] + rest) && CallsEvents(p, [c] + rest)
    ensures CallsReplay(p, w, rest) && CallsEvents(p, rest) && CallReplays(p, w, c)
  {
    var calls := [c] + rest;
    assert CallReplays(p, w, c) by { assert c in calls; }
    forall x <- rest ensures CallReplays(p, w, x) { assert x in calls; }
    assert forall i | 0 <= i < |rest| :: rest[i] == calls[i + 1];
  }

  /** The setting of one call of a run, live from `a` and again from `b`. */
  ghost predicate Stepping(
    p: Program, w: Watch, c: EventCall, rest: seq<EventCall>, a: State, b: State, fuel: nat)
  {
    && Wired(p) && CallsEvents(p, [c] + rest) && CallsEvents(p, rest) && c.method_ in p.methods
      && p.methods[c.method_].Event?
    && Live(p, [c] + rest, a, fuel).Some?
    && var out, again := LiveOut(p, c, a, fuel), LiveOut(p, c, b, fuel);
       && !out.Looping?
       && StepMatches(p, w, p.methods[c.method_].event, a, out, b, again)
       && (out.BodyFailed? || out.Done? ==> out.st.entity.events[|a.entity.events|].args == c.args)
  }

  lemma {:induction false} LiveStep(p: Program, c: EventCall, rest: seq<EventCall>, a: State, fuel: nat)
    requires CallsEvents(p, [c] + rest) && CallsEvents(p, rest) && c.method_ in p.methods && p.methods[c.method_].Event?
    ensures var out := LiveOut(p, c, a, fuel);
            && Live(p, [c] + rest, a, fuel) == (if out.Looping? then None else Live(p, rest, out.st, fuel))
            && (NoBodyFails(p, [c] + rest, a, fuel)
                <==> !out.Looping? && !out.BodyFailed? && NoBodyFails(p, rest, out.st, fuel))
  {
    assert ([c] + rest)[0] == c && ([c] + rest)[1..] == rest;
  }

  lemma {:induction false} UnrecordedStep(
    p: Program, w: Watch, c: EventCall, rest: seq<EventCall>, a: State, b: State, fuel: nat)
    requires Stepping(p, w, c, rest, a, b, fuel)
    requires var out := LiveOut(p, c, a, fuel);
             (out.Skipped? || out.NotRecorded?) && Live(p, rest, out.st, fuel).Some?
               && RunReplays(p, w, rest, out.st, b, fuel)
    ensures RunReplays(p, w, [c] + rest, a, b, fuel)
  {
    LiveStep(p, c, rest, a, fuel);
  }

  /** What is left to replay after a recorded call starts with its record. */
  lemma {:induction false} RecordedFirst(before: seq<Record>, mid: seq<Record>, done: seq<Record>)
    requires |mid| == |before| + 1 && before == mid[..|before|] && mid <= done
    ensures before <= done && done[|before|..] == [mid[|before|]] + done[|mid|..]
  {
  }

  lemma {:induction false} ReplayCons(p: Program, r: Record, rest: seq<Record>, st: State, fuel: nat)
    ensures var first := ReplayEvent(p, r, st, fuel);
            ReplayAll(p, [r] + rest, st, fuel) == if first.None? then None else ReplayAll(p, rest, first.value, fuel)
  {
    assert ([r] + rest)[0] == r && ([r] + rest)[1..] == rest;
  }

  lemma {:induction false} DoneStep(
    p: Program, w: Watch, c: EventCall, rest: seq<EventCall>, a: State, b: State, fuel: nat)
    requires Stepping(p, w, c, rest, a, b, fuel)
    requires var out, again := LiveOut(p, c, a, fuel), LiveOut(p, c, b, fuel);
             out.Done? && Live(p, rest, out.st, fuel).Some? && RunReplays(p, w, rest, out.st, again.st, fuel)
    ensures RunReplays(p, w, [c] + rest, a, b, fuel)
  {
    LiveStep(p, c, rest, a, fuel);
    var out, again := LiveOut(p, c, a, fuel), LiveOut(p, c, b, fuel);
    var n, a1, done := |a.entity.events|, out.st, Live(p, rest, out.st, fuel).value;
    var r, tail := a1.entity.events[n], done.entity.events[n + 1..];
    RecordedFirst(a.entity.events, a1.entity.events, done.entity.events);
    assert ReplayEvent(p, r, b, fuel) == Some(again.st);
    ReplayCons(p, r, tail, b, fuel);
  }

  lemma {:induction false} FailedStep(
    p: Program, w: Watch, c: EventCall, rest: seq<EventCall>, a: State, b: State, fuel: nat)
    requires Stepping(p, w, c, rest, a, b, fuel)
    requires var out := LiveOut(p, c, a, fuel);
             out.BodyFailed? && Live(p, rest, out.st, fuel).Some?
             && var done := Live(p, rest, out.st, fuel).value;
                !done.entity.replaying && out.st.entity.events <= done.entity.events
    ensures RunReplays(p, w, [c] + rest, a, b, fuel)
  {
    LiveStep(p, c, rest, a, fuel);
    var out := LiveOut(p, c, a, fuel);
    var n, a1, done := |a.entity.events|, out.st, Live(p, rest, out.st, fuel).value;
    RecordedFirst(a.entity.events, a1.entity.events, done.entity.events);
    assert ReplayEvent(p, a1.entity.events[n], b, fuel) == None;
    ReplayCons(p, a1.entity.events[n], done.entity.events[n + 1..], b, fuel);
  }

  /** Over any run of any program the history only grows, each record staying in place. */
  lemma {:induction false} RunExtends(p: Program, calls: seq<EventCall>, a: State, fuel: nat)
    requires CallsEvents(p, calls) && Live(p, calls, a, fuel).Some?
    ensures Grown(a.entity, Live(p, calls, a, fuel).value.entity)
    decreases |calls|
  {
    if calls != [] {
      assert calls == [calls[0]] + calls[1..] && forall i | 0 <= i < |calls[1..]| :: calls[1..][i] == calls[i + 1];
      LiveStep(p, calls[0], calls[1..], a, fuel);
      CallGrows(p, p.methods[calls[0].method_].event, calls[0].args, a, fuel);
      RunExtends(p, calls[1..], LiveOut(p, calls[0], a, fuel).st, fuel);
    }
  }

  /** A new aggregate: default fields, an entity without history. */
  ghost predicate Fresh(st: State) {
    && EntityId in st.fields && st.locals == []
    && st.entity == Entity(0, 0, [], 0, false, [], false, [])
  }

  lemma {:induction false} LiveConcat(p: Program, before: seq<EventCall>, after: seq<EventCall>, st: State, fuel: nat)
    requires CallsEvents(p, before) && CallsEvents(p, after) && CallsEvents(p, before + after)
    ensures var mid := Live(p, before, st, fuel);
            && Live(p, before + after, st, fuel) == (if mid.None? then None else Live(p, after, mid.value, fuel))
            && (NoBodyFails(p, before + after, st, fuel)
                <==> NoBodyFails(p, before, st, fuel) && mid.Some? && NoBodyFails(p, after, mid.value, fuel))
    decreases |before|
  {
    if before == [] {
      assert before + after == after;
    } else {
      var c, rest := before[0], before[1..];
      assert before == [c] + rest && before + after == [c] + (rest + after);
      assert forall i | 0 <= i < |rest| :: rest[i] == before[i + 1];
      assert forall i | 0 <= i < |rest + after| :: (rest + after)[i] == (before + after)[i + 1];
      LiveStep(p, c, rest, st, fuel);
      LiveStep(p, c, rest + after, st, fuel);
      var out := LiveOut(p, c, st, fuel);
      if !out.Looping? { LiveConcat(p, rest, after, out.st, fuel); }
    }
  }

  lemma {:induction false} ReplayConcat(p: Program, before: seq<Record>, after: seq<Record>, st: State, fuel: nat)
    ensures var mid := ReplayAll(p, before, st, fuel);
            ReplayAll(p, before + after, st, fuel) == (if mid.None? then None else ReplayAll(p, after, mid.value, fuel))
    decreases |before|
  {
    if before == [] {
      assert before + after == after;
    } else {
      assert (before + after)[0] == before[0] && (before + after)[1..] == before[1..] + after;
      var first := ReplayEvent(p, before[0], st, fuel);
      if first.Some? { ReplayConcat(p, before[1..], after, first.value, fuel); }
    }
  }

  /** A replay, of any program, leaves the entity alone and declares no locals. */
  lemma {:induction false} ReplayKeepsEntity(p: Program, records: seq<Record>, st: State, fuel: nat)
    requires st.entity.replaying && ReplayAll(p, records, st, fuel).Some?
    ensures ReplayAll(p, records, st, fuel).value.entity == st.entity
    ensures ReplayAll(p, records, st, fuel).value.locals == st.locals
    decreases |records|
  {
    if records != [] {
      EventKeepsEntity(p, records[0], st, fuel);
      ReplayKeepsEntity(p, records[1..], ReplayEvent(p, records[0], st, fuel).value, fuel);
    }
  }

  lemma {:induction false} EventKeepsEntity(p: Program, r: Record, st: State, fuel: nat)
    requires ReplayEvent(p, r, st, fuel).Some?
    ensures Grown(st.entity, ReplayEvent(p, r, st, fuel).value.entity)
    ensures ReplayEvent(p, r, st, fuel).value.locals == st.locals
  {
    var ev := p.methods[p.events[r.name]].event;
    CallGrows(p, ev, r.args, st, fuel);
    CallLocals(p, ev, r.args, st, fuel);
  }

  lemma {:induction false} CallLocals(p: Program, ev: EventMethod, args: seq<Value>, st: State, fuel: nat)
    ensures var out := CallEvent(p, ev, args, st, fuel); out.Looping? || out.st.locals == st.locals
  {
    var bound := st.(locals := Bind(ev.params, args));
    var x := if ev.guard.Some? then Eval(p, ev.guard.value, bound, fuel) else Val(Bool(true), bound);
    if x.Val? && x.v == Bool(true) { RecordedLocals(p, ev, args, x.st, st.locals, fuel); }
  }

  lemma {:induction false} RecordedLocals(
    p: Program, ev: EventMethod, args: seq<Value>, st: State, caller: seq<(string, Value)>, fuel: nat)
    ensures var out := Recorded(p, ev, args, st, caller, fuel); out.Looping? || out.st.locals == caller
  {
    var queued := Enqueue(p, ev, args, st.entity);
    if queued.Some? {
      var st1 := st.(entity := Digest(queued.value, ev.name, ev.version, args));
      var out := RunBody(p, ev, args, st1, caller, fuel);
      assert out.Looping? || out.st.locals == caller;
    }
  }

  /** How the calls before the id is settled compare with their replay, which starts from the stored id. */
  function Early(helpers: set<string>, tests: set<Expr>, id: Value): Watch {
    Watch(helpers, {EntityId}, tests, Some(id))
  }

  /** Once the ids are the same nothing is hidden. */
  function Late(helpers: set<string>): Watch { Watch(helpers, {}, {}, None) }

  /**
   A run in two parts: the calls before the aggregate has the id it ends with, which look at the
   id only to take it behind one of the `tests`, and the calls after, which may look at it as
   they like. Either part can be empty.
   */
  ghost predicate Settles(
    p: Program, early: set<string>, tests: set<Expr>, helpers: set<string>, before: seq<EventCall>,
    after: seq<EventCall>, st: State, fuel: nat)
  {
    && Wired(p) && CallsEvents(p, before) && CallsEvents(p, after) && CallsEvents(p, before + after)
    && Live(p, before, st, fuel).Some? && Live(p, before + after, st, fuel).Some?
    && var id := Get(Live(p, before + after, st, fuel).value.fields, EntityId);
       && Get(Live(p, before, st, fuel).value.fields, EntityId) == id
       && CallsReplay(p, Early(early, tests, id), before) && CallsReplay(p, Late(helpers), after)
  }

  /** A hydrated aggregate starts with the id the stream is stored under. */
  ghost function Stored(st: State, id: Value, entity: Entity): State {
    State(st.fields[EntityId := id], [], entity)
  }

  /** The first part, replayed from the stored id, ends exactly where the live run did. */
  lemma {:induction false} SettlesFirst(
    p: Program, early: set<string>, tests: set<Expr>, helpers: set<string>, before: seq<EventCall>,
    after: seq<EventCall>, st: State, b: State, fuel: nat)
    requires Settles(p, early, tests, helpers, before, after, st, fuel) && Fresh(st) && b.entity.replaying
    requires b == Stored(st, Get(Live(p, before + after, st, fuel).value.fields, EntityId), b.entity)
    ensures var mid := Live(p, before, st, fuel).value;
            var replayed := ReplayAll(p, mid.entity.events, b, fuel);
            && !mid.entity.replaying
            && (replayed.Some? <==> NoBodyFails(p, before, st, fuel))
            && (replayed.Some? ==> InStep({}, mid, replayed.value) && replayed.value.entity == b.entity)
  {
    var mid := Live(p, before, st, fuel).value;
    var w := Early(early, tests, Get(mid.fields, EntityId));
    forall k | k !in {EntityId} ensures SameSlot(st, b, k) {}
    RunTogether(p, w, before, st, b, fuel);
    assert mid.entity.events[0..] == mid.entity.events;
    var replayed := ReplayAll(p, mid.entity.events, b, fuel);
    if replayed.Some? {
      assert SameSlot(mid, replayed.value, EntityId);
      forall k ensures SameSlot(mid, replayed.value, k) { if k != EntityId { assert k !in {EntityId}; } }
    }
  }

  /** The whole run, replayed from the stored id under any replaying entity. */
  lemma {:induction false} ReplaysToLive(
    p: Program, early: set<string>, tests: set<Expr>, helpers: set<string>, before: seq<EventCall>,
    after: seq<EventCall>, st: State, b: State, fuel: nat)
    requires Settles(p, early, tests, helpers, before, after, st, fuel) && Fresh(st) && b.entity.replaying
    requires b == Stored(st, Get(Live(p, before + after, st, fuel).value.fields, EntityId), b.entity)
    ensures var live := Live(p, before + after, st, fuel).value;
            var replayed := ReplayAll(p, live.entity.events, b, fuel);
            && (replayed.Some? <==> NoBodyFails(p, before + after, st, fuel))
            && (replayed.Some? ==>
                  replayed.value.fields == live.fields && replayed.value.entity == b.entity
                  && replayed.value.locals == live.locals)
  {
    LiveConcat(p, before, after, st, fuel);
    SettlesFirst(p, early, tests, helpers, before, after, st, b, fuel);
    var mid, live := Live(p, before, st, fuel).value, Live(p, before + after, st, fuel).value;
    RunExtends(p, after, mid, fuel);
    var n := |mid.entity.events|;
    assert live.entity.events == mid.entity.events + live.entity.events[n..];
    ReplayConcat(p, mid.entity.events, live.entity.events[n..], b, fuel);
    var first := ReplayAll(p, mid.entity.events, b, fuel);
    if first.Some? {
      RunTogether(p, Late(helpers), after, mid, first.value, fuel);
      var replayed := ReplayAll(p, live.entity.events[n..], first.value, fuel);
      if replayed.Some? {
        forall k ensures (k in replayed.value.fields <==> k in live.fields)
                         && (k in live.fields ==> replayed.value.fields[k] == live.fields[k]) {
          assert SameSlot(live, replayed.value, k);
        }
        MapsEqual(replayed.value.fields, live.fields);
      }
    }
  }

  /**
   The aggregate once its events are stored: every field and the id as they are, the whole
   history committed, nothing pending, queued or poisoned, and ready to record.
   */
  function Committed(st: State): State {
    var h := st.entity.events;
    st.(entity := Entity(|h|, 0, h, |h|, false, [], false, []))
  }

  /**
   Replay reproduces the live aggregate. After any terminating sequence of event-method calls,
   whatever their arguments and serializers did, hydrating the recorded history succeeds
   exactly when no recorded body failed; then it gives the live aggregate as committed. Guards
   may call helpers that only look. Before the id is settled guards and bodies look at it only
   to take it; afterwards as they like.
   */
  lemma {:induction false} ReplayReproduces(
    p: Program, early: set<string>, tests: set<Expr>, helpers: set<string>, before: seq<EventCall>,
    after: seq<EventCall>, st: State, fuel: nat)
    requires Settles(p, early, tests, helpers, before, after, st, fuel) && Fresh(st)
    ensures var live := Live(p, before + after, st, fuel).value;
            var hydrated := Hydrate(p, st.fields, Get(live.fields, EntityId), live.entity.events, fuel);
            && (hydrated.Some? <==> NoBodyFails(p, before + after, st, fuel))
            && (hydrated.Some? ==> hydrated.value == Committed(live))
  {
    var live := Live(p, before + after, st, fuel).value;
    var b := Stored(st, Get(live.fields, EntityId), Replaying(|live.entity.events|));
    ReplaysToLive(p, early, tests, helpers, before, after, st, b, fuel);
  }

  // ---------------------------------------------------------------- why bodies must not record

  /** Two recorders, the body of one calling the other. */
  function NestedProgram(): Program {
    Program(
      map["outer" := Event(Outer()), "inner" := Event(Inner())],
      map["outer" := "outer", "inner" := "inner"],
      false,
      Outside({}, (_, _) => Unit, (_, v: Value, _) => (if v.Num? then Num(v.n + 1) else v, Unit),
              (_, _) => Unit, (_, _, v) => v),
      Codec((_, _) => true, (_, _) => true, (_, _, _) => true))
  }

  function Outer(): EventMethod {
    EventMethod("outer", 1, None, false, true, [], [Do(MethodCall(PathE(["self"]), "inner", []), true)])
  }

  function Inner(): EventMethod {
    EventMethod("inner", 1, None, false, true, [],
      [Do(MethodCall(Field(PathE(["self"]), Named("n")), "bump", []), true)])
  }

  function Bumped(st: State, entity: Entity): State
    requires Get(st.fields, Named("n")).Num?
  {
    st.(fields := st.fields[Named("n") := Num(Get(st.fields, Named("n")).n + 1)], entity := entity)
  }

  lemma {:induction false} InnerCall(st: State, fuel: nat)
    requires st.locals == [] && Get(st.fields, Named("n")).Num?
    ensures CallEvent(NestedProgram(), Inner(), [], st, fuel)
            == Done(true, Bumped(st, Digest(st.entity, "inner", 1, [])))
  {
    var p, ev := NestedProgram(), Inner();
    var st1 := st.(entity := Digest(st.entity, "inner", 1, []));
    var e := ev.body[0].expr;
    assert Eval(p, e, st1, fuel) == Val(Unit, Bumped(st1, st1.entity));
    var st2 := Bumped(st1, st1.entity);
    assert ev.body[1..] == [];
    assert EvalBlock(p, ev.body, st1, fuel) == EvalBlock(p, [], st2, fuel) == Val(Unit, st2);
    assert Leave(st2, 0) == st2;
    assert EvalScope(p, ev.body, st1, fuel) == Val(Unit, st2);
    assert RunBody(p, ev, [], st1, [], fuel) == Done(true, st2);
    assert st.(locals := []) == st;
    assert Recorded(p, ev, [], st, [], fuel) == Done(true, st2);
  }

  lemma {:induction false} OuterCall(st: State)
    requires st.locals == [] && Get(st.fields, Named("n")).Num?
    ensures CallEvent(NestedProgram(), Outer(), [], st, 1) ==
            Done(true, Bumped(st, Digest(Digest(st.entity, "outer", 1, []), "inner", 1, [])))
  {
    var p, ev := NestedProgram(), Outer();
    var st1 := st.(entity := Digest(st.entity, "outer", 1, []));
    InnerCall(st1, 0);
    var st2 := Bumped(st1, Digest(st1.entity, "inner", 1, []));
    assert EvalArgs(p, [], st1, 1) == Vals([], st1);
    assert Invoke(p, "inner", [], st1, 0) == Val(OkV(Unit), st2);
    assert Eval(p, ev.body[0].expr, st1, 1) == Val(OkV(Unit), st2);
    assert ev.body[1..] == [];
    assert EvalBlock(p, ev.body, st1, 1) == EvalBlock(p, [], st2, 1) == Val(Unit, st2);
    assert Leave(st2, 0) == st2;
    assert RunBody(p, ev, [], st1, [], 1) == Done(true, st2);
    assert st.(locals := []) == st;
    assert Recorded(p, ev, [], st, [], 1) == Done(true, st2);
  }

  lemma {:induction false} NestedHydrates(b: State)
    requires b.locals == [] && b.entity.replaying && Get(b.fields, Named("n")) == Num(0)
    ensures ReplayAll(NestedProgram(), [Record("outer", 1, [], 1), Record("inner", 1, [], 2)], b, 1) ==
            Some(Bumped(Bumped(b, b.entity), b.entity))
  {
    var p, history := NestedProgram(), [Record("outer", 1, [], 1), Record("inner", 1, [], 2)];
    OuterCall(b);
    var b1 := Bumped(b, b.entity);
    InnerCall(b1, 1);
    var b2 := Bumped(b1, b.entity);
    assert ReplayEvent(p, history[0], b, 1) == Some(b1);
    assert history[1..] == [history[1]];
    assert ReplayEvent(p, history[1], b1, 1) == Some(b2);
    assert ReplayAll(p, [history[1]], b1, 1) == ReplayAll(p, [], b2, 1);
  }

  lemma {:induction false} NestedLives(st: State)
    requires Fresh(st) && Get(st.fields, Named("n")) == Num(0)
    ensures var p, calls := NestedProgram(), [EventCall("outer", [])];
            && CallsEvents(p, calls) && NoBodyFails(p, calls, st, 1)
            && Live(p, calls, st, 1) == Some(Bumped(st, Digest(Digest(st.entity, "outer", 1, []), "inner", 1, [])))
  {
    var p, calls := NestedProgram(), [EventCall("outer", [])];
    OuterCall(st);
    var live := Bumped(st, Digest(Digest(st.entity, "outer", 1, []), "inner", 1, []));
    assert LiveOut(p, calls[0], st, 1) == Done(true, live);
    assert calls[1..] == [];
    assert Live(p, calls, st, 1) == Live(p, [], live, 1) == Some(live);
  }

  lemma {:induction false} NestedHistory(st: State)
    requires Fresh(st)
    ensures Digest(Digest(st.entity, "outer", 1, []), "inner", 1, []).events
         == [Record("outer", 1, [], 1), Record("inner", 1, [], 2)]
  {
  }

  /** A run in which every body succeeds, and what hydrating its history gives. */
  ghost predicate RunsAndHydrates(
    p: Program, calls: seq<EventCall>, st: State, fuel: nat, live: State, hydrated: State) {
    && CallsEvents(p, calls) && NoBodyFails(p, calls, st, fuel)
    && Live(p, calls, st, fuel) == Some(live)
    && Hydrate(p, st.fields, Get(live.fields, EntityId), live.entity.events, fuel) == Some(hydrated)
  }

  lemma {:induction false} RunsThenHydrates(
    p: Program, calls: seq<EventCall>, st: State, fuel: nat, live: State, history: seq<Record>, again: State)
    requires CallsEvents(p, calls) && NoBodyFails(p, calls, st, fuel) && Live(p, calls, st, fuel) == Some(live)
    requires live.entity.events == history
    requires ReplayAll(p, history, State(st.fields[EntityId := Get(live.fields, EntityId)], [], Replaying(|history|)),
             fuel) == Some(again)
    ensures RunsAndHydrates(p, calls, st, fuel, live, again.(entity := LoadHistory(again.entity, history)))
  {
  }

  /** A recorder called from a recorder is recorded once more, so its body replays twice. */
  lemma {:induction false} NestedRecorderReplaysTwice(p: Program, calls: seq<EventCall>, st: State, fuel: nat)
    returns (live: State, hydrated: State)
    requires p == NestedProgram() && calls == [EventCall("outer", [])] && fuel == 1
    requires Fresh(st) && Get(st.fields, Named("n")) == Num(0)
    ensures RunsAndHydrates(p, calls, st, fuel, live, hydrated)
    ensures Get(live.fields, Named("n")) == Num(1) && Get(hydrated.fields, Named("n")) == Num(2)
  {
    NestedLives(st);
    live := Bumped(st, Digest(Digest(st.entity, "outer", 1, []), "inner", 1, []));
    var history := [Record("outer", 1, [], 1), Record("inner", 1, [], 2)];
    NestedHistory(st);
    var b := State(st.fields[EntityId := Get(live.fields, EntityId)], [], Replaying(2));
    NestedHydrates(b);
    var again := Bumped(Bumped(b, b.entity), b.entity);
    RunsThenHydrates(p, calls, st, fuel, live, history, again);
    hydrated := again.(entity := LoadHistory(again.entity, history));
  }

  // ---------------------------------------------------------------- why the id must be settled

  /** A recorder that only runs while the id is empty, then sets the id and a field. */
  function Open(): EventMethod {
    EventMethod("opened", 1, Some(Call(PathE(["is_empty"]), [GetId])), false, true, ["id"],
                [Do(SetId(PathE(["id"])), true),
                 Do(Assign(Field(PathE(["self"]), Named("open")), LitE(BoolLit(true))), true)])
  }

  function OpenProgram(): Program {
    Program(
      map["open" := Event(Open())],
      map["opened" := "open"],
      false,
      Outside({}, (path, vs) => Bool(path == ["is_empty"] && vs == [Str("")]), (_, v, _) => (v, Unit),
              (_, _) => Unit, (_, _, v) => v),
      Codec((_, _) => true, (_, _) => true, (_, _, _) => true))
  }

  function Opened(st: State, id: string): State {
    st.(fields := st.fields[EntityId := Str(id)][Named("open") := Bool(true)],
        entity := Digest(st.entity, "opened", 1, [Str(id)]))
  }

  lemma {:induction false} OpenGuard(p: Program, st: State, fuel: nat)
    requires p == OpenProgram()
    ensures Eval(p, Open().guard.value, st, fuel) == Val(Bool(Get(st.fields, EntityId) == Str("")), st)
  {
    var args := [GetId];
    assert args[1..] == [];
    assert EvalArgs(p, [], st, fuel) == Vals([], st);
    assert Eval(p, GetId, st, fuel) == Val(Get(st.fields, EntityId), st);
    var vs := [Get(st.fields, EntityId)];
    assert EvalArgs(p, args, st, fuel) == Vals(vs, st) by { assert vs == [Get(st.fields, EntityId)] + []; }
    assert vs == [Str("")] <==> vs[0] == Str("");
  }

  lemma {:induction false} OpenBody(p: Program, st: State, id: string, fuel: nat)
    requires p == OpenProgram() && st.locals == [("id", Str(id))]
    ensures EvalScope(p, Open().body, st, fuel)
         == Val(Unit, st.(fields := st.fields[EntityId := Str(id)][Named("open") := Bool(true)]))
  {
    var body := Open().body;
    var st1 := st.(fields := st.fields[EntityId := Str(id)]);
    var st2 := st.(fields := st.fields[EntityId := Str(id)][Named("open") := Bool(true)]);
    assert body[1..] == [body[1]] && body[1..][1..] == [];
    assert Eval(p, PathE(["id"]), st, fuel) == Val(Str(id), st);
    assert Eval(p, body[0].expr, st, fuel) == Val(Unit, st1);
    assert Eval(p, body[1].expr, st1, fuel) == Val(Unit, st2);
    assert EvalBlock(p, body[1..], st1, fuel) == EvalBlock(p, [], st2, fuel) == Val(Unit, st2);
    assert EvalBlock(p, body, st, fuel) == Val(Unit, st2);
    assert Leave(st2, 1) == st2;
  }

  lemma {:induction false} OpenCall(p: Program, st: State, id: string, fuel: nat)
    requires p == OpenProgram() && st.locals == []
    ensures CallEvent(p, Open(), [Str(id)], st, fuel)
         == if Get(st.fields, EntityId) == Str("") then Done(true, Opened(st, id)) else Skipped(st)
  {
    var bound := st.(locals := [("id", Str(id))]);
    assert Bind(["id"], [Str(id)]) == [("id", Str(id))] by {
      assert ["id"][1..] == [] && [Str(id)][1..] == [];
      assert Bind([], []) == [];
    }
    OpenGuard(p, bound, fuel);
    assert bound.(locals := []) == st;
    if Get(st.fields, EntityId) == Str("") {
      var digested := bound.(entity := Digest(st.entity, "opened", 1, [Str(id)]));
      OpenBody(p, digested, id, fuel);
      assert RunBody(p, Open(), [Str(id)], digested, [], fuel) == Done(true, Opened(st, id));
      assert Recorded(p, Open(), [Str(id)], bound, [], fuel) == Done(true, Opened(st, id));
    }
  }

  /**
   A guard that looks at an id its own body sets: live it holds and the event is recorded, but
   a stored aggregate is hydrated with its id in place, so replay skips the event and the
   field it wrote is lost.
   */
  lemma {:induction false} UnsettledIdLosesEvents(p: Program, calls: seq<EventCall>, st: State, id: string, fuel: nat)
    returns (live: State, hydrated: State)
    requires p == OpenProgram() && calls == [EventCall("open", [Str(id)])] && id != ""
    requires Fresh(st) && Get(st.fields, EntityId) == Str("") && Get(st.fields, Named("open")) == Bool(false)
    ensures RunsAndHydrates(p, calls, st, fuel, live, hydrated)
    ensures Get(live.fields, Named("open")) == Bool(true) && Get(hydrated.fields, Named("open")) == Bool(false)
  {
    OpenCall(p, st, id, fuel);
    live := Opened(st, id);
    assert calls == [calls[0]] + [] && CallsEvents(p, [calls[0]] + []) && CallsEvents(p, []);
    LiveStep(p, calls[0], [], st, fuel);
    var history := live.entity.events;
    var r := Record("opened", 1, [Str(id)], 1);
    assert history == [r] == [r] + [];
    var b := State(st.fields[EntityId := Get(live.fields, EntityId)], [], Replaying(|history|));
    OpenCall(p, b, id, fuel);
    assert ReplayEvent(p, r, b, fuel) == Some(b);
    ReplayCons(p, r, [], b, fuel);
    RunsThenHydrates(p, calls, st, fuel, live, history, b);
    hydrated := b.(entity := LoadHistory(b.entity, history));
  }
}
