/**
 Order on projection positions and record revisions: the server's scoped comparisons, the
 client's comparisons on decimal strings, index vectors, and the snapshots an operation
 keeps.
 */
module Clocks {
  import opened Wrappers
  import opened Collections
  import opened Decimals
  import opened Envelope

  // ---------------------------------------------------------------- the server's order

  const MAX_PROJECTION_POSITION := 0x7fff_ffff_ffff_ffff

  datatype Comparison = Older | Equal | Newer | Incomparable

  datatype InputCursor<T, P, S, E> =
    InputCursor(topology: T, partition: P, source: S, epoch: E, position: nat)
  datatype ChangeCursor<T, P, E> = ChangeCursor(topology: T, partition: P, epoch: E, position: nat)
  datatype ServerRevision<S> = ServerRevision(scope: S, incarnation: nat, revision: nat)

  function CompareOrdering(a: nat, b: nat): Comparison {
    if a < b then Older else if a == b then Equal else Newer
  }

  function CompareInput<T(==), P(==), S(==), E(==)>(
    a: InputCursor<T, P, S, E>, b: InputCursor<T, P, S, E>): Comparison
  {
    if a.topology != b.topology || a.partition != b.partition || a.source != b.source || a.epoch != b.epoch
    then Incomparable
    else CompareOrdering(a.position, b.position)
  }

  function CompareChange<T(==), P(==), E(==)>(a: ChangeCursor<T, P, E>, b: ChangeCursor<T, P, E>): Comparison {
    if a.topology != b.topology || a.partition != b.partition || a.epoch != b.epoch then Incomparable
    else CompareOrdering(a.position, b.position)
  }

  function CompareRevision<S(==)>(a: ServerRevision<S>, b: ServerRevision<S>): Comparison {
    if a.scope != b.scope then Incomparable
    else if a.incarnation != b.incarnation then CompareOrdering(a.incarnation, b.incarnation)
    else CompareOrdering(a.revision, b.revision)
  }

  function Flip(c: Comparison): Comparison {
    match c case Older => Newer case Newer => Older case _ => c
  }

  ghost predicate AtMost(c: Comparison) { c.Older? || c.Equal? }

  /** Record revisions are ordered within one scope and never across scopes. */
  lemma RevisionOrder<S>(a: ServerRevision<S>, b: ServerRevision<S>, c: ServerRevision<S>)
    ensures CompareRevision(a, b).Incomparable? <==> a.scope != b.scope
    ensures CompareRevision(a, b).Equal? <==> a == b
    ensures CompareRevision(b, a) == Flip(CompareRevision(a, b))
    ensures AtMost(CompareRevision(a, b)) && AtMost(CompareRevision(b, c)) ==> AtMost(CompareRevision(a, c))
  {
  }

  /** Change positions are ordered within one topology, partition and epoch. */
  lemma ChangeOrder<T, P, E>(a: ChangeCursor<T, P, E>, b: ChangeCursor<T, P, E>, c: ChangeCursor<T, P, E>)
    ensures CompareChange(a, b).Incomparable? <==> a.(position := b.position) != b
    ensures CompareChange(a, b).Equal? <==> a == b
    ensures CompareChange(b, a) == Flip(CompareChange(a, b))
    ensures AtMost(CompareChange(a, b)) && AtMost(CompareChange(b, c)) ==> AtMost(CompareChange(a, c))
  {
  }

  /** Input positions are ordered within one topology, partition, source and epoch. */
  lemma InputOrder<T, P, S, E>(a: InputCursor<T, P, S, E>, b: InputCursor<T, P, S, E>, c: InputCursor<T, P, S, E>)
    ensures CompareInput(a, b).Incomparable? <==> a.(position := b.position) != b
    ensures CompareInput(a, b).Equal? <==> a == b
    ensures CompareInput(b, a) == Flip(CompareInput(a, b))
    ensures AtMost(CompareInput(a, b)) && AtMost(CompareInput(b, c)) ==> AtMost(CompareInput(a, c))
  {
  }

  // ---------------------------------------------------------------- the client's order

  datatype RecordClock = RecordClock(scopeToken: string, incarnation: string, revision: string, tombstone: bool)

  function CompareRecordClock(left: RecordClock, right: RecordClock): int {
    var incarnation := CompareDecimal(left.incarnation, right.incarnation);
    if incarnation == 0 then CompareDecimal(left.revision, right.revision) else incarnation
  }

  function SignOf(c: Comparison): int
    requires !c.Incomparable?
  {
    match c case Older => -1 case Equal => 0 case Newer => 1
  }

  lemma PositionAccepted(n: nat)
    requires n <= MAX_PROJECTION_POSITION
    ensures CanonicalDecimal(Render(n))
  {
    CanonicalDecimalExact(Render(n));
  }

  /** Positions and revisions up to the server's maximum reach the client, and it orders them as the server does. */
  lemma ClientAgreesWithServer<T, P, S, E>(
    c: ChangeCursor<T, P, E>, d: ChangeCursor<T, P, E>, i: InputCursor<T, P, S, E>, j: InputCursor<T, P, S, E>)
    requires c.position <= MAX_PROJECTION_POSITION && d.position <= MAX_PROJECTION_POSITION
    requires i.position <= MAX_PROJECTION_POSITION && j.position <= MAX_PROJECTION_POSITION
    ensures CanonicalDecimal(Render(c.position)) && CanonicalDecimal(Render(i.position))
    ensures !CompareChange(c, d).Incomparable? ==>
              CompareDecimal(Render(c.position), Render(d.position)) == SignOf(CompareChange(c, d))
    ensures !CompareInput(i, j).Incomparable? ==>
              CompareDecimal(Render(i.position), Render(j.position)) == SignOf(CompareInput(i, j))
  {
    PositionAccepted(c.position);
    PositionAccepted(i.position);
    RenderedOrder(c.position, d.position);
    RenderedOrder(i.position, j.position);
  }

  lemma ClientAgreesOnRecords<S>(a: ServerRevision<S>, b: ServerRevision<S>, scope: string, dead: bool, gone: bool)
    requires a.incarnation <= MAX_PROJECTION_POSITION && a.revision <= MAX_PROJECTION_POSITION
    requires b.incarnation <= MAX_PROJECTION_POSITION && b.revision <= MAX_PROJECTION_POSITION
    ensures CanonicalDecimal(Render(a.incarnation)) && CanonicalDecimal(Render(a.revision))
    ensures !CompareRevision(a, b).Incomparable? ==>
              CompareRecordClock(RecordClock(scope, Render(a.incarnation), Render(a.revision), dead),
                                 RecordClock(scope, Render(b.incarnation), Render(b.revision), gone))
              == SignOf(CompareRevision(a, b))
  {
    PositionAccepted(a.incarnation);
    PositionAccepted(a.revision);
    RenderedOrder(a.incarnation, b.incarnation);
    RenderedOrder(a.revision, b.revision);
  }

  // ---------------------------------------------------------------- index vectors

  datatype IndexClock = IndexClock(scopeToken: string, position: string)

  datatype Disposition = Fresh | Same | Higher | Lower | NotComparable

  type ClockVector = map<string, IndexClock>

  /** `indexClockMap` */
  function Vector(indexes: seq<IndexRevision>): ClockVector
    requires Distinct(IndexNames(indexes))
  {
    assert forall i | 0 <= i < |indexes| :: IndexNames(indexes)[i] == indexes[i].projection;
    map i | 0 <= i < |indexes| :: indexes[i].projection := IndexClock(indexes[i].scopeToken, indexes[i].position)
  }

  predicate OnAxis(current: ClockVector, x: IndexRevision) {
    x.projection in current && current[x.projection].scopeToken == x.scopeToken
  }

  predicate Falls(current: ClockVector, x: IndexRevision) {
    x.projection in current && CompareDecimal(x.position, current[x.projection].position) < 0
  }

  predicate Rises(current: ClockVector, x: IndexRevision) {
    x.projection in current && CompareDecimal(x.position, current[x.projection].position) > 0
  }

  function CompareVector(current: ClockVector, incoming: seq<IndexRevision>): Disposition {
    if |current| == 0 then Fresh
    else if |current| != |incoming| || (exists x <- incoming :: !OnAxis(current, x)) then NotComparable
    else
      var lower, higher := exists x <- incoming :: Falls(current, x), exists x <- incoming :: Rises(current, x);
      if lower && higher then NotComparable else if lower then Lower else if higher then Higher else Same
  }

  /** The loop with its two flags. */
  method CompareIndexVector(current: ClockVector, incoming: seq<IndexRevision>) returns (r: Disposition)
    ensures r == CompareVector(current, incoming)
  {
    if |current| == 0 { return Fresh; }
    if |current| != |incoming| { return NotComparable; }
    var lower, higher := false, false;
    for n := 0 to |incoming|
      invariant forall x <- incoming[..n] :: OnAxis(current, x)
      invariant lower <==> exists x <- incoming[..n] :: Falls(current, x)
      invariant higher <==> exists x <- incoming[..n] :: Rises(current, x)
    {
      var evidence := incoming[n];
      assert incoming[..n + 1] == incoming[..n] + [evidence];
      if evidence.projection !in current || current[evidence.projection].scopeToken != evidence.scopeToken {
        assert evidence in incoming && !OnAxis(current, evidence);
        return NotComparable;
      }
      var comparison := CompareDecimal(evidence.position, current[evidence.projection].position);
      assert evidence in incoming[..n + 1];
      assert (comparison < 0 <==> Falls(current, evidence)) && (comparison > 0 <==> Rises(current, evidence));
      lower := lower || comparison < 0;
      higher := higher || comparison > 0;
    }
    assert incoming[..|incoming|] == incoming;
    if lower && higher { return NotComparable; }
    if lower { return Lower; }
    if higher { return Higher; }
    return Same;
  }

  ghost predicate CanonicalVector(v: ClockVector) {
    forall p <- v :: Canonical(v[p].position)
  }

  /** The same projections with the same scopes. */
  ghost predicate SameAxes(v: ClockVector, w: ClockVector) {
    (forall p :: p in v <==> p in w) && forall p <- v :: p in w && v[p].scopeToken == w[p].scopeToken
  }

  /** On the same axes, no position of `v` is beyond that of `w`. */
  ghost predicate Below(v: ClockVector, w: ClockVector)
    requires CanonicalVector(v) && CanonicalVector(w)
  {
    SameAxes(v, w) && forall p <- v :: p in w && Value(v[p].position) <= Value(w[p].position)
  }

  /** `next` has exactly the clocks of `incoming`, by projection. */
  ghost predicate Tracks(next: ClockVector, incoming: seq<IndexRevision>) {
    && |next| == |incoming|
    && (forall x <- incoming :: x.projection in next && next[x.projection] == IndexClock(x.scopeToken, x.position))
    && forall p <- next :: Reports(incoming, p)
  }

  ghost predicate Reports(incoming: seq<IndexRevision>, p: string) { exists x <- incoming :: x.projection == p }

  lemma VectorTracks(indexes: seq<IndexRevision>)
    requires Distinct(IndexNames(indexes))
    ensures Tracks(Vector(indexes), indexes)
  {
    var v := Vector(indexes);
    VectorSize(indexes);
    forall x <- indexes ensures x.projection in v && v[x.projection] == IndexClock(x.scopeToken, x.position) {
      var i :| 0 <= i < |indexes| && indexes[i] == x;
      assert indexes[i].projection in v;
    }
    forall p <- v ensures Reports(indexes, p) {
      var i :| 0 <= i < |indexes| && indexes[i].projection == p;
      assert indexes[i] in indexes;
    }
  }

  lemma VectorSize(indexes: seq<IndexRevision>)
    requires Distinct(IndexNames(indexes))
    ensures |Vector(indexes)| == |indexes|
  {
    var names, v := IndexNames(indexes), Vector(indexes);
    ElementCount(names);
    assert v.Keys == set x <- names;
    assert |v| == |v.Keys|;
  }

  /** A comparison that is not refused for its axes is over the same projections. */
  lemma ComparableAxes(current: ClockVector, next: ClockVector, incoming: seq<IndexRevision>)
    requires Tracks(next, incoming) && |current| == |incoming|
    ensures (forall x <- incoming :: OnAxis(current, x)) <==> SameAxes(current, next)
  {
    if forall x <- incoming :: OnAxis(current, x) {
      forall p <- next ensures p in current && current[p].scopeToken == next[p].scopeToken {
        assert Reports(incoming, p);
        var x :| x in incoming && x.projection == p;
        assert OnAxis(current, x);
      }
      SubsetFills(next.Keys, current.Keys);
    }
  }

  /** On the same axes, something falls exactly when the old vector is not below the new. */
  lemma FallsMeaning(current: ClockVector, next: ClockVector, incoming: seq<IndexRevision>)
    requires Tracks(next, incoming) && SameAxes(current, next) && CanonicalVector(current) && CanonicalVector(next)
    ensures (exists x <- incoming :: Falls(current, x)) <==> !Below(current, next)
  {
    forall x <- incoming ensures Falls(current, x)
      <==> Value(next[x.projection].position) < Value(current[x.projection].position) {
      CompareIsNumeric(x.position, current[x.projection].position);
    }
    if !Below(current, next) {
      var p :| p in current && Value(next[p].position) < Value(current[p].position);
      assert Reports(incoming, p);
      var x :| x in incoming && x.projection == p;
      assert Falls(current, x);
    }
  }

  lemma RisesMeaning(current: ClockVector, next: ClockVector, incoming: seq<IndexRevision>)
    requires Tracks(next, incoming) && SameAxes(current, next) && CanonicalVector(current) && CanonicalVector(next)
    ensures (exists x <- incoming :: Rises(current, x)) <==> !Below(next, current)
  {
    forall x <- incoming ensures Rises(current, x)
      <==> Value(next[x.projection].position) > Value(current[x.projection].position) {
      CompareIsNumeric(x.position, current[x.projection].position);
    }
    if !Below(next, current) {
      var p :| p in next && Value(next[p].position) > Value(current[p].position);
      assert Reports(incoming, p);
      var x :| x in incoming && x.projection == p;
      assert Rises(current, x);
    }
  }

  lemma SameAxesSize(v: ClockVector, w: ClockVector)
    requires SameAxes(v, w)
    ensures |v| == |w|
  {
    assert v.Keys == w.Keys;
    assert |v| == |v.Keys| == |w.Keys| == |w|;
  }

  /** What each answer means, as an order on vectors. */
  lemma VectorMeaning(current: ClockVector, next: ClockVector, incoming: seq<IndexRevision>)
    requires Tracks(next, incoming) && |current| > 0 && CanonicalVector(current) && CanonicalVector(next)
    ensures var r := CompareVector(current, incoming);
            && (r.Same? || r.Higher? <==> Below(current, next))
            && (r.Same? || r.Lower? <==> Below(next, current))
            && !r.Fresh?
  {
    if SameAxes(current, next) {
      SameAxesSize(current, next);
      ComparableAxes(current, next, incoming);
      FallsMeaning(current, next, incoming);
      RisesMeaning(current, next, incoming);
    } else if |current| == |incoming| {
      ComparableAxes(current, next, incoming);
    }
  }

  // ---------------------------------------------------------------- an operation's snapshots

  /** What one operation remembers of the snapshots it applied: their scope and index clocks. */
  datatype OperationState = OperationState(scope: Option<string>, clocks: ClockVector)

  const CLEARED := OperationState(None, map[])

  /** A snapshot as it arrives: `reset` starts over, and `comparable` says that its indexes may be compared. */
  datatype Frame = Frame(scopeToken: string, indexes: seq<IndexRevision>, reset: bool, comparable: bool)

  ghost predicate ValidFrame(f: Frame) {
    Distinct(IndexNames(f.indexes)) && forall x <- f.indexes :: Canonical(x.position)
  }

  function CompareSnapshot(state: OperationState, f: Frame): Disposition {
    if state.scope.None? then Fresh
    else if state.scope != Some(f.scopeToken) then NotComparable
    else if |state.clocks| == 0 || |f.indexes| == 0 then
      if |state.clocks| == |f.indexes| then Same else NotComparable
    else CompareVector(state.clocks, f.indexes)
  }

  /** A lower snapshot changes nothing, one that cannot be compared clears the state, any other is kept. */
  function Observe(state: OperationState, f: Frame): OperationState
    requires ValidFrame(f)
  {
    var r := if f.reset then Fresh else CompareSnapshot(state, f);
    if !f.comparable || r.NotComparable? then CLEARED
    else if r.Lower? then state
    else OperationState(Some(f.scopeToken), Vector(f.indexes))
  }

  ghost predicate ValidState(state: OperationState) { CanonicalVector(state.clocks) }

  /** What `a` remembers is not beyond what `b` remembers. */
  ghost predicate NotBehind(a: OperationState, b: OperationState)
    requires ValidState(a) && ValidState(b)
  {
    a.scope.Some? ==> b.scope == a.scope && Below(a.clocks, b.clocks)
  }

  lemma FrameVector(f: Frame)
    requires ValidFrame(f)
    ensures Tracks(Vector(f.indexes), f.indexes) && CanonicalVector(Vector(f.indexes))
  {
    var v := Vector(f.indexes);
    VectorTracks(f.indexes);
    forall p <- v ensures Canonical(v[p].position) {
      assert Reports(f.indexes, p);
      var x :| x in f.indexes && x.projection == p;
    }
  }

  lemma EmptyAxes(v: ClockVector, w: ClockVector)
    requires CanonicalVector(v) && CanonicalVector(w) && (|v| == 0 || |w| == 0)
    ensures Below(v, w) <==> |v| == |w|
    ensures Below(w, v) <==> |v| == |w|
  {
    if |v| == |w| { assert v == map[] && w == map[]; }
    if SameAxes(v, w) { SameAxesSize(v, w); }
    if SameAxes(w, v) { SameAxesSize(w, v); }
  }

  /** What each answer means against the snapshot last kept, empty index lists included. */
  lemma SnapshotMeaning(state: OperationState, f: Frame)
    requires ValidState(state) && ValidFrame(f)
    ensures CanonicalVector(Vector(f.indexes))
    ensures var r, next := CompareSnapshot(state, f), Vector(f.indexes);
            && (r.Fresh? <==> state.scope.None?)
            && (r.Same? || r.Higher? <==> state.scope == Some(f.scopeToken) && Below(state.clocks, next))
            && (r.Same? || r.Lower? <==> state.scope == Some(f.scopeToken) && Below(next, state.clocks))
  {
    FrameVector(f);
    if |state.clocks| == 0 || |f.indexes| == 0 {
      EmptyAxes(state.clocks, Vector(f.indexes));
    } else {
      VectorMeaning(state.clocks, Vector(f.indexes), f.indexes);
    }
  }

  /**
   What becomes of a frame. One without comparable indexes clears the state. One that starts
   over, is the first, or is not behind the state in the same scope is kept with exactly its
   clocks. One that is behind changes nothing. Any other clears the state.
   */
  lemma ObserveExact(state: OperationState, f: Frame)
    requires ValidState(state) && ValidFrame(f)
    ensures CanonicalVector(Vector(f.indexes)) && Tracks(Vector(f.indexes), f.indexes)
    ensures var next, after := Vector(f.indexes), Observe(state, f);
            if !f.comparable then after == OperationState(None, map[])
            else if f.reset || state.scope.None? then after == OperationState(Some(f.scopeToken), next)
            else if state.scope != Some(f.scopeToken) then after == OperationState(None, map[])
            else if Below(state.clocks, next) then after == OperationState(Some(f.scopeToken), next)
            else if Below(next, state.clocks) then after == state
            else after == OperationState(None, map[])
  {
    FrameVector(f);
    SnapshotMeaning(state, f);
    var r := if f.reset then Fresh else CompareSnapshot(state, f);
    ObserveBy(state, f, r);
  }

  lemma ObserveBy(state: OperationState, f: Frame, r: Disposition)
    requires ValidFrame(f) && r == if f.reset then Fresh else CompareSnapshot(state, f)
    ensures Observe(state, f)
         == if !f.comparable || r.NotComparable? then OperationState(None, map[])
            else if r.Lower? then state
            else OperationState(Some(f.scopeToken), Vector(f.indexes))
  {
  }

  /** A frame that neither starts over nor clears the state never takes it back. */
  lemma ObserveNeverGoesBack(state: OperationState, f: Frame)
    requires ValidState(state) && ValidFrame(f)
    ensures ValidState(Observe(state, f))
    ensures !f.reset && Observe(state, f).scope.Some? ==> NotBehind(state, Observe(state, f))
  {
    SnapshotMeaning(state, f);
    BelowReflexive(state.clocks);
  }

  function Observed(state: OperationState, frames: seq<Frame>): OperationState
    requires forall f <- frames :: ValidFrame(f)
    decreases |frames|
  {
    if frames == [] then state else Observed(Observe(state, frames[0]), frames[1..])
  }

  /** No frame of the run starts over, and none clears the state. */
  ghost predicate Steady(state: OperationState, frames: seq<Frame>)
    requires forall f <- frames :: ValidFrame(f)
    decreases |frames|
  {
    frames == []
    || (!frames[0].reset && Observe(state, frames[0]).scope.Some? && Steady(Observe(state, frames[0]), frames[1..]))
  }

  /** While the state is neither cleared nor started over, no position ever goes back and the scope stays. */
  lemma {:induction false} RunNeverGoesBack(state: OperationState, frames: seq<Frame>)
    requires ValidState(state) && (forall f <- frames :: ValidFrame(f)) && Steady(state, frames)
    ensures ValidState(Observed(state, frames)) && NotBehind(state, Observed(state, frames))
    decreases |frames|
  {
    if frames == [] {
      BelowReflexive(state.clocks);
    } else {
      var next := Observe(state, frames[0]);
      ObserveNeverGoesBack(state, frames[0]);
      RunNeverGoesBack(next, frames[1..]);
      NotBehindTransitive(state, next, Observed(next, frames[1..]));
    }
  }

  /** The state remembers this frame, or is it. */
  ghost predicate Remembers(state: OperationState, f: Frame)
    requires ValidFrame(f)
  {
    state.scope == Some(f.scopeToken) && state.clocks == Vector(f.indexes)
  }

  /** No position the frame reports is beyond what the state remembers in the frame's scope. */
  ghost predicate Covers(state: OperationState, f: Frame)
    requires ValidState(state) && ValidFrame(f)
  {
    FrameVector(f);
    state.scope == Some(f.scopeToken) && Below(Vector(f.indexes), state.clocks)
  }

  /** Such a run ends with the highest frame: it covers all of them, and is the start or one of them. */
  lemma {:induction false} RunKeepsHighest(state: OperationState, frames: seq<Frame>)
    requires ValidState(state) && (forall f <- frames :: ValidFrame(f)) && Steady(state, frames)
    ensures ValidState(Observed(state, frames))
    ensures forall f <- frames :: Covers(Observed(state, frames), f)
    ensures Observed(state, frames) == state || exists f <- frames :: Remembers(Observed(state, frames), f)
    decreases |frames|
  {
    if frames != [] {
      var f, rest, next := frames[0], frames[1..], Observe(state, frames[0]);
      assert frames == [f] + rest;
      ObserveExact(state, f);
      ObserveNeverGoesBack(state, f);
      BelowReflexive(Vector(f.indexes));
      RunKeepsHighest(next, rest);
      RunNeverGoesBack(next, rest);
      assert Covers(next, f);
      CoversLater(next, Observed(next, rest), f);
    }
  }

  lemma CoversLater(a: OperationState, b: OperationState, f: Frame)
    requires ValidState(a) && ValidState(b) && ValidFrame(f) && Covers(a, f) && NotBehind(a, b)
    ensures Covers(b, f)
  {
    FrameVector(f);
    BelowTransitive(Vector(f.indexes), a.clocks, b.clocks);
  }

  lemma NotBehindTransitive(a: OperationState, b: OperationState, c: OperationState)
    requires ValidState(a) && ValidState(b) && ValidState(c) && NotBehind(a, b) && NotBehind(b, c)
    ensures NotBehind(a, c)
  {
    if a.scope.Some? { BelowTransitive(a.clocks, b.clocks, c.clocks); }
  }

  lemma BelowReflexive(v: ClockVector)
    requires CanonicalVector(v)
    ensures Below(v, v)
  {
  }

  lemma BelowTransitive(u: ClockVector, v: ClockVector, w: ClockVector)
    requires CanonicalVector(u) && CanonicalVector(v) && CanonicalVector(w) && Below(u, v) && Below(v, w)
    ensures Below(u, w)
  {
  }
}
