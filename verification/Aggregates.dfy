/**
 The aggregate object that the generated code acts on, step by step.
 */
module Aggregates {
  import opened Wrappers
  import opened Recorder
  import opened Frames
  import opened Replay
  import opened Snapshots

  class Aggregate {
    var fields: map<Slot, Value>
    var entity: Entity

    constructor (defaults: map<Slot, Value>, id: Value)
      ensures fields == defaults[EntityId := id] && entity == Entity(0, 0, [], 0, false, [], false, [])
    {
      fields := defaults[EntityId := id];
      entity := Entity(0, 0, [], 0, false, [], false, []);
    }

    function AsState(locals: seq<(string, Value)>): State
      reads this
    {
      State(fields, locals, entity)
    }

    method Become(st: State)
      modifies this
      ensures fields == st.fields && entity == st.entity
    {
      fields, entity := st.fields, st.entity;
    }

    /** A generated event method: guard, enqueue, digest, body, capture, each on `self` in turn. */
    method CallRecorder(p: Program, ev: EventMethod, args: seq<Value>, fuel: nat) returns (out: CallOut)
      modifies this
      ensures out == CallEvent(p, ev, args, old(AsState([])), fuel)
      ensures !out.Looping? ==> AsState([]) == out.st
    {
      ghost var start := AsState([]);
      var bound := Bind(ev.params, args);
      if ev.guard.Some? {
        match Eval(p, ev.guard.value, AsState(bound), fuel) {
          case Diverge => return Looping;
          case Ret(v, st) =>
            Become(st);
            return if v.ErrV? then BodyFailed(v, AsState([])) else Done(true, AsState([]));
          case Val(v, st) =>
            Become(st);
            bound := st.locals;
            if v != Bool(true) { return Skipped(AsState([])); }
        }
      }
      assert CallEvent(p, ev, args, start, fuel) == Recorded(p, ev, args, AsState(bound), [], fuel);
      var queued := Enqueue(p, ev, args, entity);
      if queued.None? { return NotRecorded(AsState([])); }
      entity := queued.value;
      if !entity.replaying && !(p.codec.payload)(ev.name, args) { return NotRecorded(AsState([])); }
      entity := Digest(entity, ev.name, ev.version, args);
      assert CallEvent(p, ev, args, start, fuel) == RunBody(p, ev, args, AsState(bound), [], fuel);
      match EvalScope(p, ev.body, AsState(bound), fuel) {
        case Diverge => return Looping;
        case Ret(v, st) =>
          Become(st);
          if v.ErrV? { return BodyFailed(v, AsState([])); }
          if ev.synthesized { return Done(true, AsState([])); }
          bound := st.locals;
        case Val(v, st) =>
          Become(st);
          if !ev.synthesized && v.ErrV? { return BodyFailed(v, AsState([])); }
          bound := st.locals;
      }
      var (ok, captured) := Capture(p, ev, args, AsState(bound));
      Become(captured);
      out := Done(ok, AsState([]));
    }

    /** `replay_into`: the loop over the records, stopping at the first that cannot be applied. */
    method ReplayInto(p: Program, records: seq<Record>, fuel: nat) returns (ok: bool)
      modifies this
      ensures ok == ReplayAll(p, records, old(AsState([])).(entity := old(entity).(replaying := true)), fuel).Some?
      ensures ok ==>
                var done := ReplayAll(p, records, old(AsState([])).(entity := old(entity).(replaying := true)),
                  fuel).value;
                AsState([]) == done.(locals := [], entity := done.entity.(replaying := false))
      ensures !entity.replaying
    {
      entity := entity.(replaying := true);
      ghost var start := AsState([]);
      var i := 0;
      assert records[0..] == records;
      while i < |records|
        invariant 0 <= i <= |records|
        invariant ReplayAll(p, records, start, fuel) == ReplayAll(p, records[i..], AsState([]), fuel)
      {
        assert records[i..][1..] == records[i + 1..];
        var next := ReplayEvent(p, records[i], AsState([]), fuel);
        if next.None? {
          entity := entity.(replaying := false);
          return false;
        }
        EventKeepsEntity(p, records[i], AsState([]), fuel);
        Become(next.value);
        i := i + 1;
      }
      entity := entity.(replaying := false);
      return true;
    }

    /** The generated `restore_from_snapshot`: field by field, then the entity id. */
    method RestoreFromSnapshot(snapshot: Snapshot)
      modifies this`fields
      ensures AsState([]) == Restore(old(AsState([])), snapshot)
      ensures forall k <- snapshot.fields :: k != EntityId ==> k in fields && fields[k] == snapshot.fields[k]
    {
      var id := snapshot.id;
      var left := snapshot.fields.Keys;
      while left != {}
        invariant left <= snapshot.fields.Keys
        invariant fields.Keys == old(fields).Keys + (snapshot.fields.Keys - left)
        invariant forall k | k in fields ::
                    fields[k] == if k in snapshot.fields && k !in left then snapshot.fields[k] else old(fields)[k]
        decreases left
      {
        var k :| k in left;
        fields := fields[k := snapshot.fields[k]];
        left := left - {k};
      }
      assert fields == old(fields) + snapshot.fields;
      fields := fields[EntityId := id];
    }
  }
}
