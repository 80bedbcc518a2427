/**
 `#[derive(Snapshot)]` and the snapshot cache: restoring a snapshot and replaying the tail
 against replaying everything.
 */
module Snapshots {
  import opened Wrappers
  import opened Recorder
  import opened Frames
  import opened Replay

  // ---------------------------------------------------------------- the derive

  datatype StructField = StructField(name: string, skipped: bool)

  /** What `expand_snapshot` decides: the retained fields and where the id comes from. */
  datatype Spec = Spec(retained: set<Slot>, id: Slot)

  function RetainedNames(fields: seq<StructField>, entity: string): set<string> {
    set i | 0 <= i < |fields| && fields[i].name != entity && !fields[i].skipped :: fields[i].name
  }

  /**
   `expand_snapshot`: exactly the fields that are neither the entity nor skipped are retained,
   and the id is a retained field or the entity's own id.
   */
  method ExpandSnapshot(fields: seq<StructField>, entity: string, customId: Option<string>) returns (spec: Option<Spec>)
    ensures spec.Some? <==>
              && customId != Some(entity)
              && (exists i | 0 <= i < |fields| :: fields[i].name == entity)
              && (customId.Some? ==> customId.value in RetainedNames(fields, entity))
    ensures spec.Some? ==> spec.value.retained == set n | n in RetainedNames(fields, entity) :: Named(n)
    ensures spec.Some? ==> spec.value.id == EntityId || spec.value.id in spec.value.retained
    ensures spec.Some? ==>
              spec.value.id == if customId.Some? then Named(customId.value)
                               else if "id" in RetainedNames(fields, entity) then Named("id") else EntityId
  {
    if customId == Some(entity) { return None; }
    var names: set<string>, found, i := {}, false, 0;
    while i < |fields|
      invariant 0 <= i <= |fields|
      invariant names == RetainedNames(fields[..i], entity)
      invariant found <==> exists j | 0 <= j < i :: fields[j].name == entity
    {
      RetainedStep(fields, i, entity);
      if fields[i].name == entity {
        found := true;
      } else if !fields[i].skipped {
        names := names + {fields[i].name};
      }
      i := i + 1;
    }
    assert fields[..i] == fields;
    if !found { return None; }
    if customId.Some? && customId.value !in names { return None; }
    var retained := set n | n in names :: Named(n);
    var id := if customId.Some? then Named(customId.value) else if "id" in names then Named("id") else EntityId;
    return Some(Spec(retained, id));
  }

  lemma {:induction false} RetainedStep(fields: seq<StructField>, i: nat, entity: string)
    requires i < |fields|
    ensures RetainedNames(fields[..i + 1], entity) ==
            RetainedNames(fields[..i], entity) +
            (if fields[i].name != entity && !fields[i].skipped then {fields[i].name} else {})
  {
    var a, b := fields[..i + 1], fields[..i];
    assert forall j | 0 <= j < i :: a[j] == b[j];
    assert a[i] == fields[i];
    forall n | n in RetainedNames(b, entity) ensures n in RetainedNames(a, entity) {
      var j :| 0 <= j < |b| && b[j].name != entity && !b[j].skipped && b[j].name == n;
      assert a[j].name == n;
    }
  }

  /** The generated snapshot struct: the retained values, and the value the id is restored from. */
  datatype Snapshot = Snapshot(fields: map<Slot, Value>, id: Value)

  /** The generated `snapshot()`. */
  function TakeSnapshot(spec: Spec, st: State): Snapshot {
    Snapshot(map k | k in spec.retained && k in st.fields :: st.fields[k], Get(st.fields, spec.id))
  }

  /** The generated `restore_from_snapshot`. */
  function Restore(st: State, snapshot: Snapshot): State {
    st.(fields := (st.fields + snapshot.fields)[EntityId := snapshot.id])
  }

  // ---------------------------------------------------------------- the cache

  datatype CacheRecord = CacheRecord(id: Value, aggregateType: string, schema: nat, version: nat,
    payload: Option<Snapshot>)

  /** `post_snapshot_tail`. */
  function Tail(history: seq<Record>, version: nat): seq<Record> {
    if history == [] then []
    else (if history[0].sequence > version then [history[0]] else []) + Tail(history[1..], version)
  }

  /** `prepare_snapshot`: identity, schema version, not ahead of the stream, decodable. */
  predicate Usable(record: CacheRecord, id: Value, aggregateType: string, schema: nat, streamVersion: nat) {
    && record.id == id && record.aggregateType == aggregateType
    && record.schema == schema && record.version <= streamVersion && record.payload.Some?
  }

  /** `hydrate_prepared_snapshot`. */
  function HydratePrepared(p: Program, defaults: map<Slot, Value>, id: Value, history: seq<Record>,
                           record: CacheRecord, snapshot: Snapshot, fuel: nat): Option<State> {
    var start := Restore(State(defaults[EntityId := id], [], Replaying(|history|)), snapshot);
    match ReplayAll(p, Tail(history, record.version), start, fuel)
    case None => None
    case Some(st) => Some(st.(entity := LoadHistory(st.entity, history)))
  }

  /** `hydrate_with_optional_snapshot`: an unusable record is a cache miss. */
  function HydrateCached(p: Program, defaults: map<Slot, Value>, aggregateType: string, schema: nat, id: Value,
                         history: seq<Record>, record: Option<CacheRecord>, fuel: nat): Option<State> {
    if record.Some? && Usable(record.value, id, aggregateType, schema, |history|)
    then HydratePrepared(p, defaults, id, history, record.value, record.value.payload.value, fuel)
    else Hydrate(p, defaults, id, history, fuel)
  }

  // ---------------------------------------------------------------- replaying from two states

  predicate Dispatches(p: Program, name: string) {
    name in p.events && p.events[name] in p.methods && p.methods[p.events[name]].Event?
  }

  /** Two runs that look at none of these slots. */
  function Blind(helpers: set<string>, hidden: set<Slot>): Watch { Watch(helpers, hidden, {}, None) }

  /** The recorders of these records can be replayed without looking at the hidden slots. */
  ghost predicate RecordsReplay(p: Program, w: Watch, records: seq<Record>) {
    && Oblivious(p, w)
    && forall r <- records :: Dispatches(p, r.name) ==>
         Ordinary(p, w, p.methods[p.events[r.name]].event)
  }

  ghost predicate BothReplayed(w: Watch, a: State, b: State, x: Option<State>, y: Option<State>) {
    && (x.Some? <==> y.Some?)
    && (x.Some? ==> Together(w, a, b, x.value, y.value))
  }

  lemma {:induction false} EventTogether(
    p: Program, w: Watch, r: Record, a: State, b: State, fuel: nat)
    requires RecordsReplay(p, w, [r])
    requires Near(w, a, b) && a.entity.replaying && b.entity.replaying
    ensures BothReplayed(w, a, b, ReplayEvent(p, r, a, fuel), ReplayEvent(p, r, b, fuel))
  {
    assert r in [r];
    if Dispatches(p, r.name) {
      var ev := p.methods[p.events[r.name]].event;
      var a0, b0 := a.(locals := Bind(ev.params, r.args)), b.(locals := Bind(ev.params, r.args));
      forall k | k !in w.hidden ensures SameSlot(a0, b0, k) { assert SameSlot(a, b, k); }
      GuardTogether(p, w, ev, a0, b0, fuel);
      var x := if ev.guard.Some? then Eval(p, ev.guard.value, a0, fuel) else Val(Bool(true), a0);
      var y := if ev.guard.Some? then Eval(p, ev.guard.value, b0, fuel) else Val(Bool(true), b0);
      if x.Val? {
        forall k | k !in w.hidden ensures SameSlot(x.st, y.st, k) { assert SameSlot(a, b, k); }
        if x.v == Bool(true) {
          BodyBoth(p, w, ev, r.args, x.st, y.st, a.locals, fuel);
          var u, v := Recorded(p, ev, r.args, x.st, a.locals, fuel), Recorded(p, ev, r.args, y.st, b.locals, fuel);
          if u.Done? {
            forall k ensures MovedFor(w, k, a, b, u.st, v.st) { assert MovedFor(w, k, x.st, y.st, u.st, v.st); }
          }
        } else {
          var a1, b1 := x.st.(locals := a.locals), y.st.(locals := b.locals);
          forall k | k !in w.hidden ensures SameSlot(a1, b1, k) { assert SameSlot(a, b, k); }
        }
      }
    }
  }

  lemma {:induction false} BodyBoth(
    p: Program, w: Watch, ev: EventMethod, args: seq<Value>,
    a: State, b: State, caller: seq<(string, Value)>, fuel: nat)
    requires Oblivious(p, w) && Ordinary(p, w, ev) && Near(w, a, b)
    requires a.entity.replaying && b.entity.replaying
    ensures var x, y := Recorded(p, ev, args, a, caller, fuel), Recorded(p, ev, args, b, caller, fuel);
            || (x.Looping? && y.Looping?)
            || (x.BodyFailed? && y.BodyFailed?)
            || (x.Done? && y.Done? && x.ok && y.ok && Together(w, a, b, x.st, y.st) && x.st.locals == caller)
  {
    assert a.(entity := Digest(a.entity, ev.name, ev.version, args)) == a;
    assert b.(entity := Digest(b.entity, ev.name, ev.version, args)) == b;
    ScopeTogether(p, w, ev.body, a, b, fuel);
    var u, v := EvalScope(p, ev.body, a, fuel), EvalScope(p, ev.body, b, fuel);
    if !u.Diverge? {
      BackTogether(w, a, b, u.st, v.st, caller);
    }
  }

  /** Going back to the caller's locals keeps two runs together. */
  lemma {:induction false} BackTogether(
    w: Watch, a: State, b: State, x: State, y: State, caller: seq<(string, Value)>)
    requires Together(w, a, b, x, y)
    ensures Together(w, a, b, x.(locals := caller), y.(locals := caller))
  {
    var a1, b1 := x.(locals := caller), y.(locals := caller);
    forall k | k !in w.hidden ensures SameSlot(a1, b1, k) { assert SameSlot(x, y, k); }
    forall k ensures MovedFor(w, k, a, b, a1, b1) { assert MovedFor(w, k, a, b, x, y); }
  }

  /** Replaying the same records from two states in step: both fail, or both finish in step. */
  lemma {:induction false} ReplayTogether(
    p: Program, w: Watch, records: seq<Record>, a: State, b: State, fuel: nat)
    requires RecordsReplay(p, w, records)
    requires Near(w, a, b) && a.entity.replaying && b.entity.replaying
    ensures BothReplayed(w, a, b, ReplayAll(p, records, a, fuel), ReplayAll(p, records, b, fuel))
    decreases |records|
  {
    if records != [] {
      assert records[0] in records && (forall r <- records[1..] :: r in records)
        && forall r <- [records[0]] :: r == records[0];
      EventTogether(p, w, records[0], a, b, fuel);
      var x, y := ReplayEvent(p, records[0], a, fuel), ReplayEvent(p, records[0], b, fuel);
      if x.Some? {
        ReplayTogether(p, w, records[1..], x.value, y.value, fuel);
        var x2, y2 := ReplayAll(p, records[1..], x.value, fuel), ReplayAll(p, records[1..], y.value, fuel);
        if x2.Some? { TogetherTrans(w, a, b, x.value, y.value, x2.value, y2.value); }
      }
    }
  }

  // ---------------------------------------------------------------- the theorem

  ghost predicate Contiguous(history: seq<Record>, first: nat) {
    forall i | 0 <= i < |history| :: history[i].sequence == first + i
  }

  lemma {:induction false} TailIsSuffix(history: seq<Record>, first: nat, version: nat)
    requires Contiguous(history, first) && first <= version + 1 <= first + |history|
    ensures Tail(history, version) == history[version + 1 - first..]
    decreases |history|
  {
    if history != [] {
      if first <= version {
        TailIsSuffix(history[1..], first + 1, version);
      } else {
        TailIsAll(history, version);
      }
    }
  }

  lemma {:induction false} TailIsAll(history: seq<Record>, version: nat)
    requires forall i | 0 <= i < |history| :: history[i].sequence > version
    ensures Tail(history, version) == history
    decreases |history|
  {
    if history != [] { TailIsAll(history[1..], version); }
  }

  /** The snapshot's chosen id field held the id of the aggregate it was taken of. */
  ghost predicate IdAgrees(spec: Spec, at: State) { Get(at.fields, spec.id) == Get(at.fields, EntityId) }

  /** The slots a snapshot does not carry over: skipped fields, and the id where the chosen field is not it. */
  ghost function Lost(spec: Spec, defaults: map<Slot, Value>, at: State): set<Slot> {
    (defaults.Keys - spec.retained - {EntityId}) + (if IdAgrees(spec, at) then {} else {EntityId})
  }

  lemma {:induction false} RestoredInStep(spec: Spec, defaults: map<Slot, Value>, id: Value, entity: Entity, at: State)
    requires EntityId in defaults && EntityId !in spec.retained
    requires at.fields.Keys == defaults.Keys && at.locals == [] && at.entity == entity
    ensures InStep(Lost(spec, defaults, at), at,
            Restore(State(defaults[EntityId := id], [], entity), TakeSnapshot(spec, at)))
  {
    var r := Restore(State(defaults[EntityId := id], [], entity), TakeSnapshot(spec, at));
    forall k | k !in Lost(spec, defaults, at) ensures SameSlot(at, r, k) {}
  }

  /** Two replays of a tail disagree on the id exactly when the starting ids differed and neither set it. */
  ghost predicate IdsDiffer(at: State, restored: State, full: State, cached: State) {
    !SameSlot(at, restored, EntityId) && SameSlot(at, full, EntityId) && SameSlot(restored, cached, EntityId)
  }

  /** The two replays of the tail: from the state the snapshot was taken of, and from the restored one. */
  lemma {:induction false} TailTogether(
    p: Program, helpers: set<string>, spec: Spec, defaults: map<Slot, Value>, id: Value, start: State,
    tail: seq<Record>, at: State, fuel: nat)
    requires RecordsReplay(p, Blind(helpers, Lost(spec, defaults, at)), tail)
    requires EntityId in defaults && EntityId !in spec.retained && (spec.id == EntityId || spec.id in spec.retained)
    requires start == State(defaults[EntityId := id], [], start.entity) && start.entity.replaying
    requires at.fields.Keys == defaults.Keys && at.locals == [] && at.entity == start.entity
    ensures var restored := Restore(start, TakeSnapshot(spec, at));
            var x, y := ReplayAll(p, tail, at, fuel), ReplayAll(p, tail, restored, fuel);
            && (x.Some? <==> y.Some?)
            && (x.Some? ==>
                  && (forall k <- spec.retained :: SameSlot(x.value, y.value, k))
                  && x.value.entity == y.value.entity
                  && (!SameSlot(x.value, y.value, EntityId) <==> IdsDiffer(at, restored, x.value, y.value)))
            && (SameSlot(at, restored, EntityId) <==> IdAgrees(spec, at))
  {
    var restored := Restore(start, TakeSnapshot(spec, at));
    RestoredInStep(spec, defaults, id, start.entity, at);
    ReplayTogether(p, Blind(helpers, Lost(spec, defaults, at)), tail, at, restored, fuel);
    var x, y := ReplayAll(p, tail, at, fuel), ReplayAll(p, tail, restored, fuel);
    if x.Some? {
      forall k | k in spec.retained ensures SameSlot(x.value, y.value, k) {}
      assert MovedFor(Blind(helpers, Lost(spec, defaults, at)), EntityId, at, restored, x.value, y.value);
    }
  }

  /**
   Snapshot plus tail equals full replay. For every contiguous history and every snapshot taken
   along it, hydrating from the cache succeeds exactly when full replay does, and they agree on
   all retained fields. They disagree on the id exactly when the field the snapshot takes it
   from did not hold it and the tail does not set it. The recorders of the tail must not look at
   skipped fields, nor at the id where the chosen field is not it.
   */
  lemma {:induction false} SnapshotPlusTail(
    p: Program, helpers: set<string>, spec: Spec, defaults: map<Slot, Value>, id: Value, history: seq<Record>,
    record: CacheRecord, at: State, fuel: nat)
    requires EntityId in defaults && EntityId !in spec.retained && (spec.id == EntityId || spec.id in spec.retained)
    requires Contiguous(history, 1) && record.version <= |history|
    requires ReplayAll(p, history[..record.version], State(defaults[EntityId := id], [], Replaying(|history|)), fuel)
             == Some(at)
    requires at.fields.Keys == defaults.Keys
    requires RecordsReplay(p, Blind(helpers, Lost(spec, defaults, at)), history[record.version..])
    ensures var start := State(defaults[EntityId := id], [], Replaying(|history|));
            var full := Hydrate(p, defaults, id, history, fuel);
            var cached := HydratePrepared(p, defaults, id, history, record, TakeSnapshot(spec, at), fuel);
            && (full.Some? <==> cached.Some?)
            && (full.Some? ==>
                  && (forall k <- spec.retained :: SameSlot(full.value, cached.value, k))
                  && full.value.entity == cached.value.entity
                  && (IdAgrees(spec, at) ==> SameSlot(full.value, cached.value, EntityId))
                  && (!SameSlot(full.value, cached.value, EntityId)
                      <==> IdsDiffer(at, Restore(start, TakeSnapshot(spec, at)), full.value, cached.value)))
  {
    var start := State(defaults[EntityId := id], [], Replaying(|history|));
    HydrationsByTail(p, defaults, id, history, record, TakeSnapshot(spec, at), at, fuel);
    TailTogether(p, helpers, spec, defaults, id, start, history[record.version..], at, fuel);
  }

  /** Both hydrations replay the tail: one from the prefix replay, one from the restored snapshot. */
  lemma {:induction false} HydrationsByTail(
    p: Program, defaults: map<Slot, Value>, id: Value, history: seq<Record>, record: CacheRecord, snapshot: Snapshot,
    at: State, fuel: nat)
    requires Contiguous(history, 1) && record.version <= |history|
    requires ReplayAll(p, history[..record.version], State(defaults[EntityId := id], [], Replaying(|history|)), fuel)
             == Some(at)
    ensures var start, tail := State(defaults[EntityId := id], [], Replaying(|history|)), history[record.version..];
            && at.locals == [] && at.entity == start.entity
            && Hydrate(p, defaults, id, history, fuel) == Loaded(ReplayAll(p, tail, at, fuel), history)
            && HydratePrepared(p, defaults, id, history, record, snapshot, fuel)
               == Loaded(ReplayAll(p, tail, Restore(start, snapshot), fuel), history)
  {
    var start := State(defaults[EntityId := id], [], Replaying(|history|));
    var v := record.version;
    assert history == history[..v] + history[v..];
    ReplayConcat(p, history[..v], history[v..], start, fuel);
    TailIsSuffix(history, 1, v);
    ReplayKeepsEntity(p, history[..v], start, fuel);
  }

  function Loaded(replayed: Option<State>, history: seq<Record>): Option<State> {
    if replayed.None? then None
    else Some(replayed.value.(entity := LoadHistory(replayed.value.entity, history)))
  }

  /** A cache record that holds a snapshot of some prefix replay of this stream. */
  ghost predicate Genuine(p: Program, spec: Spec, defaults: map<Slot, Value>, id: Value, history: seq<Record>,
                          record: CacheRecord, at: State, fuel: nat) {
    && record.version <= |history|
    && ReplayAll(p, history[..record.version], State(defaults[EntityId := id], [], Replaying(|history|)), fuel)
      == Some(at)
    && at.fields.Keys == defaults.Keys
    && record.payload == Some(TakeSnapshot(spec, at))
    && IdAgrees(spec, at)
  }

  /** A record of another aggregate, type or schema, ahead of the stream, or that does not decode. */
  predicate Misses(r: CacheRecord, id: Value, aggregateType: string, schema: nat, history: seq<Record>) {
    r.id != id || r.aggregateType != aggregateType || r.schema != schema || r.version > |history| || r.payload.None?
  }

  /** Such a record is a cache miss, and any other is restored and followed by the later events. */
  lemma CacheExact(
    p: Program, defaults: map<Slot, Value>, id: Value, history: seq<Record>, aggregateType: string, schema: nat,
    r: CacheRecord, fuel: nat)
    ensures HydrateCached(p, defaults, aggregateType, schema, id, history, None, fuel)
            == Hydrate(p, defaults, id, history, fuel)
    ensures var loaded := HydrateCached(p, defaults, aggregateType, schema, id, history, Some(r), fuel);
            if Misses(r, id, aggregateType, schema, history) then loaded == Hydrate(p, defaults, id, history, fuel)
            else loaded == HydratePrepared(p, defaults, id, history, r, r.payload.value, fuel)
  {
  }

  /** The cache is transparent: no record, a miss and a genuine record all load the same aggregate. */
  lemma {:induction false} CacheIsTransparent(
    p: Program, helpers: set<string>, spec: Spec, defaults: map<Slot, Value>, id: Value, history: seq<Record>,
    aggregateType: string, schema: nat, record: Option<CacheRecord>, at: State, fuel: nat)
    requires EntityId in defaults && EntityId !in spec.retained && (spec.id == EntityId || spec.id in spec.retained)
    requires Contiguous(history, 1)
    requires record.Some? && !Misses(record.value, id, aggregateType, schema, history) ==>
               && Genuine(p, spec, defaults, id, history, record.value, at, fuel)
               && RecordsReplay(p, Blind(helpers, defaults.Keys - spec.retained - {EntityId}),
                                history[record.value.version..])
    ensures var full := Hydrate(p, defaults, id, history, fuel);
            var loaded := HydrateCached(p, defaults, aggregateType, schema, id, history, record, fuel);
            && (full.Some? <==> loaded.Some?)
            && (full.Some? ==>
                  && (forall k <- spec.retained + {EntityId} :: SameSlot(full.value, loaded.value, k))
                  && full.value.entity == loaded.value.entity)
  {
    if record.Some? {
      CacheExact(p, defaults, id, history, aggregateType, schema, record.value, fuel);
    }
    if record.Some? && !Misses(record.value, id, aggregateType, schema, history) {
      assert Lost(spec, defaults, at) == defaults.Keys - spec.retained - {EntityId};
      SnapshotPlusTail(p, helpers, spec, defaults, id, history, record.value, at, fuel);
    }
  }

  // ---------------------------------------------------------------- snapshots of live aggregates

  /**
   The framework takes its snapshot of the live aggregate at commit. For a run that settles its
   id and in which no recorded body failed, that is the snapshot of the prefix replay, so a
   cache record made of it is genuine for every later history of the stream.
   */
  lemma {:induction false} LiveSnapshotIsGenuine(
    p: Program, early: set<string>, tests: set<Expr>, helpers: set<string>, before: seq<EventCall>,
    after: seq<EventCall>, st: State, spec: Spec, history: seq<Record>, record: CacheRecord, fuel: nat)
    returns (at: State)
    requires Settles(p, early, tests, helpers, before, after, st, fuel) && Fresh(st)
             && NoBodyFails(p, before + after, st, fuel)
    requires var live := Live(p, before + after, st, fuel).value;
             && live.entity.events <= history && live.fields.Keys == st.fields.Keys && IdAgrees(spec, live)
             && record.version == |live.entity.events| && record.payload == Some(TakeSnapshot(spec, live))
    ensures var live := Live(p, before + after, st, fuel).value;
            Genuine(p, spec, st.fields, Get(live.fields, EntityId), history, record, at, fuel)
  {
    var live := Live(p, before + after, st, fuel).value;
    var b := Stored(st, Get(live.fields, EntityId), Replaying(|history|));
    ReplaysToLive(p, early, tests, helpers, before, after, st, b, fuel);
    assert history[..record.version] == live.entity.events;
    at := ReplayAll(p, live.entity.events, b, fuel).value;
  }
}
