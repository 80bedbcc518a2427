/**
 What one recorder call does to the entity, exactly, and what that makes of a run: which calls
 are recorded, what is queued, and when a domain event is captured or poisons the entity.
 */
module Recording {
  import opened Wrappers
  import opened Recorder
  import opened Frames
  import opened Replay
  import opened Analyses

  /** The entity once the call's event is enqueued, and once it is also in the history. */
  function WithQueued(p: Program, ev: EventMethod, args: seq<Value>, en: Entity): Entity {
    en.(queued := en.queued + if p.enqueues then [(ev.name, args)] else [])
  }

  function WithRecord(p: Program, ev: EventMethod, args: seq<Value>, en: Entity): Entity {
    var next := en.prefix + |en.events| + 1;
    Entity(next, en.prefix, en.events + [Record(ev.name, ev.version, args, next)], en.committed, en.replaying,
           en.pending, en.poisoned, WithQueued(p, ev, args, en).queued)
  }

  /** Both serializers take the arguments; the one for the queue is asked only where there is something to queue. */
  predicate Encodes(p: Program, ev: EventMethod, args: seq<Value>) {
    QueueEncodes(p, ev, args) && (p.codec.payload)(ev.name, args)
  }

  predicate QueueEncodes(p: Program, ev: EventMethod, args: seq<Value>) {
    !p.enqueues || ev.params == [] || (p.codec.json)(ev.name, args)
  }

  /** The entity after a recorded call that ran to its end, and whether the call reports success. */
  function Captured(p: Program, ev: EventMethod, args: seq<Value>, fields: map<Slot, Value>, en: Entity)
    : (bool, Entity)
  {
    if !ev.domain then (true, en)
    else if en.poisoned || !(p.codec.capture)(ev.name, fields, args) then (false, en.(poisoned := true))
    else (true, en.(pending := en.pending + [Occurrence(ev.name, en.version)]))
  }

  /** The last event is held, not committed, and carries the entity's version. */
  predicate HasCause(en: Entity) {
    en.events != [] && en.version != en.committed && en.events[|en.events| - 1].sequence == en.version
  }

  /**
   A capture on any entity, in good order or not. While replaying it does nothing. Otherwise it
   succeeds exactly on an entity that is not poisoned and has an event to be caused by, with a
   body the codec takes; a failure poisons the entity and leaves all else as it was.
   */
  lemma CaptureExact(p: Program, ev: EventMethod, args: seq<Value>, st: State)
    requires ev.domain
    ensures var (ok, after) := Capture(p, ev, args, st);
            if st.entity.replaying then ok && after == st
            else && (ok <==> !st.entity.poisoned && HasCause(st.entity) && (p.codec.capture)(ev.name, st.fields, args))
                 && after == st.(entity := if ok
                      then st.entity.(pending := st.entity.pending + [Occurrence(ev.name, st.entity.version)])
                      else st.entity.(poisoned := true))
  {
  }

  /** How a call may end, and the entity it leaves. */
  ghost predicate Ends(p: Program, ev: EventMethod, args: seq<Value>, en: Entity, out: CallOut) {
    match out
    case Looping => true
    case Skipped(st) => st.entity == en
    case NotRecorded(st) =>
      !Encodes(p, ev, args) && st.entity == if QueueEncodes(p, ev, args) then WithQueued(p, ev, args, en) else en
    case BodyFailed(v, st) => v.ErrV? && Encodes(p, ev, args) && st.entity == WithRecord(p, ev, args, en)
    case Done(ok, st) =>
      Encodes(p, ev, args) && (ok, st.entity) == Captured(p, ev, args, st.fields, WithRecord(p, ev, args, en))
  }

  /** A recorder the macro accepts, whose guard looks without returning and whose body records nothing else. */
  ghost predicate Plainly(p: Program, helpers: set<string>, ev: EventMethod) {
    && Helpers(p, helpers) && AcceptedDomain(ev) && Quiet(helpers, ev)
    && (ev.guard.Some? ==> NoExit(ev.guard.value))
  }

  /**
   One live call. It is skipped exactly when its guard says no. Otherwise it is recorded exactly
   when its arguments encode, with the next sequence number, and queued with it; then a domain
   event is captured exactly when the entity was not poisoned and the capture is accepted.
   */
  lemma {:induction false} CallExact(
    p: Program, helpers: set<string>, ev: EventMethod, args: seq<Value>, st: State, fuel: nat)
    requires Plainly(p, helpers, ev) && Sequenced(st.entity) && !st.entity.replaying
    ensures var bound := st.(locals := Bind(ev.params, args));
            var g := if ev.guard.Some? then Eval(p, ev.guard.value, bound, fuel) else Val(Bool(true), bound);
            var out := CallEvent(p, ev, args, st, fuel);
            && Ends(p, ev, args, st.entity, out)
            && (g.Val? ==> (out.Skipped? <==> g.v != Bool(true)))
            && (g.Val? && g.v == Bool(true) ==> (out.NotRecorded? <==> !Encodes(p, ev, args)))
  {
    var bound := st.(locals := Bind(ev.params, args));
    var g := if ev.guard.Some? then Eval(p, ev.guard.value, bound, fuel) else Val(Bool(true), bound);
    if ev.guard.Some? {
      GuardKeepsEntity(p, helpers, ev.guard.value, bound, fuel);
      NeverReturns(p, ev.guard.value, bound, fuel);
    }
    if g.Val? && g.v == Bool(true) { RecordedExact(p, helpers, ev, args, g.st, st.locals, fuel); }
  }

  lemma {:induction false} RecordedExact(
    p: Program, helpers: set<string>, ev: EventMethod, args: seq<Value>, st: State, caller: seq<(string, Value)>,
    fuel: nat)
    requires Plainly(p, helpers, ev) && Sequenced(st.entity) && !st.entity.replaying
    ensures var out := Recorded(p, ev, args, st, caller, fuel);
            Ends(p, ev, args, st.entity, out) && !out.Skipped? && (out.NotRecorded? <==> !Encodes(p, ev, args))
  {
    var queued := Enqueue(p, ev, args, st.entity);
    assert st.entity.queued + [] == st.entity.queued;
    assert queued == if QueueEncodes(p, ev, args) then Some(WithQueued(p, ev, args, st.entity)) else None;
    if Encodes(p, ev, args) {
      var st1 := st.(entity := WithRecord(p, ev, args, st.entity));
      assert st1 == st.(entity := Digest(queued.value, ev.name, ev.version, args));
      BodyExact(p, helpers, ev, args, st1, caller, fuel);
      assert Recorded(p, ev, args, st, caller, fuel) == RunBody(p, ev, args, st1, caller, fuel);
    }
  }

  lemma {:induction false} BodyExact(
    p: Program, helpers: set<string>, ev: EventMethod, args: seq<Value>, st: State, caller: seq<(string, Value)>,
    fuel: nat)
    requires Helpers(p, helpers) && AcceptedDomain(ev) && CallsBlock(ev.body) <= helpers
    requires var en := st.entity;
             !en.replaying && en.committed < en.version && en.events != []
             && en.events[|en.events| - 1].sequence == en.version
    ensures var out := RunBody(p, ev, args, st, caller, fuel);
            match out
            case Looping => true
            case BodyFailed(v, end) => v.ErrV? && end.entity == st.entity
            case Done(ok, end) => (ok, end.entity) == Captured(p, ev, args, end.fields, st.entity)
            case _ => false
  {
    BodyKeepsEntity(p, helpers, ev.body, st, fuel);
    if ev.domain { NeverReturnsBlock(p, ev.body, st, fuel); }
  }

  // ---------------------------------------------------------------- runs

  ghost predicate AllPlainly(p: Program, helpers: set<string>, calls: seq<EventCall>) {
    && CallsEvents(p, calls)
    && forall c <- calls :: c.method_ in p.methods && p.methods[c.method_].Event?
                            && Plainly(p, helpers, p.methods[c.method_].event)
  }

  function EventOf(p: Program, c: EventCall): EventMethod
    requires c.method_ in p.methods && p.methods[c.method_].Event?
  {
    p.methods[c.method_].event
  }

  predicate WasRecorded(out: CallOut) { out.BodyFailed? || out.Done? }

  /** The call was recorded and ran to its end, and the capture of its domain event is refused. */
  predicate CaptureRefused(p: Program, ev: EventMethod, args: seq<Value>, out: CallOut) {
    ev.domain && out.Done? && !(p.codec.capture)(ev.name, out.st.fields, args)
  }

  /** Some call of the run has its capture refused. */
  ghost predicate SomeRefused(p: Program, calls: seq<EventCall>, st: State, fuel: nat)
    requires CallsEvents(p, calls)
    decreases |calls|
  {
    calls != [] &&
    var out := LiveOut(p, calls[0], st, fuel);
    !out.Looping?
    && (CaptureRefused(p, EventOf(p, calls[0]), calls[0].args, out) || SomeRefused(p, calls[1..], out.st, fuel))
  }

  /** The calls of the run that are recorded, in order. */
  ghost function Journal(p: Program, calls: seq<EventCall>, st: State, fuel: nat): seq<EventCall>
    requires CallsEvents(p, calls)
    decreases |calls|
  {
    if calls == [] then [] else
    var out := LiveOut(p, calls[0], st, fuel);
    if out.Looping? then []
    else (if WasRecorded(out) then [calls[0]] else []) + Journal(p, calls[1..], out.st, fuel)
  }

  /** The records that these calls leave, numbered from the one after `last`. */
  ghost function Records(p: Program, calls: seq<EventCall>, last: nat): (r: seq<Record>)
    requires CallsEvents(p, calls)
    ensures |r| == |calls|
    decreases |calls|
  {
    if calls == [] then [] else
    var ev := EventOf(p, calls[0]);
    [Record(ev.name, ev.version, calls[0].args, last + 1)] + Records(p, calls[1..], last + 1)
  }

  ghost function Queue(p: Program, calls: seq<EventCall>): seq<(string, seq<Value>)>
    requires CallsEvents(p, calls)
    decreases |calls|
  {
    if calls == [] then [] else [(EventOf(p, calls[0]).name, calls[0].args)] + Queue(p, calls[1..])
  }

  lemma {:induction false} CallKeepsSequence(p: Program, helpers: set<string>, c: EventCall, st: State, fuel: nat)
    requires c.method_ in p.methods && p.methods[c.method_].Event? && Plainly(p, helpers, p.methods[c.method_].event)
    requires Sequenced(st.entity) && !st.entity.replaying && !LiveOut(p, c, st, fuel).Looping?
    ensures var out := LiveOut(p, c, st, fuel);
            && Ends(p, EventOf(p, c), c.args, st.entity, out)
            && Sequenced(out.st.entity) && !out.st.entity.replaying && out.st.entity.prefix == st.entity.prefix
            && (out.st.entity.poisoned <==> st.entity.poisoned || CaptureRefused(p, EventOf(p, c), c.args, out))
  {
    CallExact(p, helpers, EventOf(p, c), c.args, st, fuel);
  }

  lemma {:induction false} FirstAndRest(p: Program, helpers: set<string>, calls: seq<EventCall>)
    requires AllPlainly(p, helpers, calls) && calls != []
    ensures AllPlainly(p, helpers, calls[1..]) && CallsEvents(p, [calls[0]] + calls[1..])
    ensures calls[0].method_ in p.methods && p.methods[calls[0].method_].Event?
    ensures Plainly(p, helpers, p.methods[calls[0].method_].event)
  {
    assert calls == [calls[0]] + calls[1..] && forall i | 0 <= i < |calls[1..]| :: calls[1..][i] == calls[i + 1];
    assert calls[0] in calls && forall c <- calls[1..] :: c in calls;
  }

  lemma {:induction false} JournalEvents(p: Program, calls: seq<EventCall>, st: State, fuel: nat)
    requires CallsEvents(p, calls)
    ensures CallsEvents(p, Journal(p, calls, st, fuel))
    decreases |calls|
  {
    if calls != [] && !LiveOut(p, calls[0], st, fuel).Looping? {
      JournalEvents(p, calls[1..], LiveOut(p, calls[0], st, fuel).st, fuel);
    }
  }

  /** What a run that records these calls makes of an entity's history. */
  ghost predicate Extends(p: Program, journal: seq<EventCall>, before: Entity, after: Entity) {
    && CallsEvents(p, journal)
    && after.events == before.events + Records(p, journal, before.version)
    && after.prefix == before.prefix && after.committed == before.committed && !after.replaying
    && Sequenced(after)
  }

  /**
   A whole run: the history grows by exactly the calls that were recorded, with the next
   sequence numbers, and the entity ends poisoned exactly when it began so or some capture was
   refused.
   */
  lemma {:induction false} RunExact(p: Program, helpers: set<string>, calls: seq<EventCall>, st: State, fuel: nat)
    requires AllPlainly(p, helpers, calls) && Live(p, calls, st, fuel).Some?
    requires Sequenced(st.entity) && !st.entity.replaying
    ensures var live := Live(p, calls, st, fuel).value;
            && Extends(p, Journal(p, calls, st, fuel), st.entity, live.entity)
            && (live.entity.poisoned <==> st.entity.poisoned || SomeRefused(p, calls, st, fuel))
    decreases |calls|
  {
    JournalEvents(p, calls, st, fuel);
    if calls == [] {
      assert st.entity.events + [] == st.entity.events;
    } else {
      var c, rest, out := calls[0], calls[1..], LiveOut(p, calls[0], st, fuel);
      FirstAndRest(p, helpers, calls);
      LiveStep(p, c, rest, st, fuel);
      CallKeepsSequence(p, helpers, c, st, fuel);
      RunExact(p, helpers, rest, out.st, fuel);
      JournalStep(p, c, Journal(p, rest, out.st, fuel), st.entity, out, Live(p, calls, st, fuel).value.entity);
    }
  }

  lemma {:induction false} JournalStep(
    p: Program, c: EventCall, journal: seq<EventCall>, before: Entity, out: CallOut, after: Entity)
    requires c.method_ in p.methods && p.methods[c.method_].Event? && !out.Looping? && Sequenced(before)
    requires Ends(p, EventOf(p, c), c.args, before, out) && Extends(p, journal, out.st.entity, after)
    ensures Extends(p, (if WasRecorded(out) then [c] else []) + journal, before, after)
  {
    if WasRecorded(out) {
      var r := Record(EventOf(p, c).name, EventOf(p, c).version, c.args, before.version + 1);
      assert ([c] + journal)[0] == c && ([c] + journal)[1..] == journal;
      assert out.st.entity.events == before.events + [r] && out.st.entity.version == before.version + 1;
      var later := Records(p, journal, before.version + 1);
      assert Records(p, [c] + journal, before.version) == [r] + later;
      assert before.events + [r] + later == before.events + ([r] + later);
    } else {
      assert [] + journal == journal;
    }
  }

  /** Where every payload encodes, the queue holds exactly the recorded events; where nothing is enqueued, nothing. */
  lemma {:induction false} RunQueues(p: Program, helpers: set<string>, calls: seq<EventCall>, st: State, fuel: nat)
    requires AllPlainly(p, helpers, calls) && Live(p, calls, st, fuel).Some?
    requires Sequenced(st.entity) && !st.entity.replaying && forall name, args :: (p.codec.payload)(name, args)
    ensures CallsEvents(p, Journal(p, calls, st, fuel))
    ensures Live(p, calls, st, fuel).value.entity.queued
            == st.entity.queued + if p.enqueues then Queue(p, Journal(p, calls, st, fuel)) else []
    decreases |calls|
  {
    JournalEvents(p, calls, st, fuel);
    if calls == [] {
      assert st.entity.queued + [] == st.entity.queued;
    } else {
      var c, rest, out := calls[0], calls[1..], LiveOut(p, calls[0], st, fuel);
      FirstAndRest(p, helpers, calls);
      LiveStep(p, c, rest, st, fuel);
      CallKeepsSequence(p, helpers, c, st, fuel);
      RunQueues(p, helpers, rest, out.st, fuel);
      JournalEvents(p, rest, out.st, fuel);
      QueueStep(p, c, Journal(p, rest, out.st, fuel), st.entity, out);
    }
  }

  lemma {:induction false} QueueStep(p: Program, c: EventCall, journal: seq<EventCall>, before: Entity, out: CallOut)
    requires c.method_ in p.methods && p.methods[c.method_].Event? && !out.Looping? && CallsEvents(p, journal)
    requires Ends(p, EventOf(p, c), c.args, before, out) && (p.codec.payload)(EventOf(p, c).name, c.args)
    ensures var all := (if WasRecorded(out) then [c] else []) + journal;
            && CallsEvents(p, all)
            && (p.enqueues ==> out.st.entity.queued + Queue(p, journal) == before.queued + Queue(p, all))
            && (!p.enqueues ==> out.st.entity.queued == before.queued)
  {
    assert before.queued + [] == before.queued;
    if WasRecorded(out) {
      var q := (EventOf(p, c).name, c.args);
      assert ([c] + journal)[0] == c && ([c] + journal)[1..] == journal;
      assert p.enqueues ==> out.st.entity.queued == before.queued + [q];
      assert before.queued + [q] + Queue(p, journal) == before.queued + ([q] + Queue(p, journal));
    } else {
      assert [] + journal == journal;
    }
  }

  /**
   So where every capture is accepted, a run from an entity in good order never poisons it:
   each uncommitted domain event has its one pending occurrence, in order.
   */
  lemma {:induction false} AcceptedRunsCapture(
    p: Program, helpers: set<string>, calls: seq<EventCall>, st: State, fuel: nat)
    requires AllPlainly(p, helpers, calls) && Accountable(p, helpers, calls) && Live(p, calls, st, fuel).Some?
    requires Accounted(p, st.entity) && !st.entity.replaying && !st.entity.poisoned
    requires forall name, fields, args :: (p.codec.capture)(name, fields, args)
    ensures var en := Live(p, calls, st, fuel).value.entity;
            && !en.poisoned && en.prefix <= en.committed <= en.prefix + |en.events|
            && en.pending == Owed(p, en.events[en.committed - en.prefix..])
  {
    RunExact(p, helpers, calls, st, fuel);
    NothingRefused(p, calls, st, fuel);
    RunsAccount(p, helpers, calls, st, fuel);
  }

  lemma {:induction false} NothingRefused(p: Program, calls: seq<EventCall>, st: State, fuel: nat)
    requires CallsEvents(p, calls) && forall name, fields, args :: (p.codec.capture)(name, fields, args)
    ensures !SomeRefused(p, calls, st, fuel)
    decreases |calls|
  {
    if calls != [] && !LiveOut(p, calls[0], st, fuel).Looping? {
      NothingRefused(p, calls[1..], LiveOut(p, calls[0], st, fuel).st, fuel);
    }
  }
}
