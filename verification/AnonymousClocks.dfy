/**
 Revision evidence for records the client has no key for. For each scope it keeps the
 latest clock it was shown, and refuses evidence that contradicts what it keeps.
 */
module AnonymousClocks {
  import opened Wrappers
  import opened Collections
  import opened Decimals
  import opened Clocks
  import Envelope

  const MAX_ANONYMOUS_RECORD_CLOCKS := 4096

  datatype Anonymous = Anonymous(model: string, clock: RecordClock)

  type ClockMap = map<string, Anonymous>

  function Incoming(e: Envelope.RecordRevision): Anonymous {
    Anonymous(e.model, RecordClock(e.scopeToken, e.incarnation, e.revision, e.tombstone))
  }

  function Scope(a: Anonymous): string { a.clock.scopeToken }

  datatype Verdict = Refuse | Keep | Replace

  /** Evidence against the clock already known for its scope. */
  function Resolve(current: Anonymous, e: Anonymous): Verdict {
    var comparison := CompareRecordClock(e.clock, current.clock);
    if current.model != e.model then Refuse
    else if comparison < 0 then Keep
    else if comparison == 0 then (if current.clock.tombstone != e.clock.tombstone then Refuse else Keep)
    else if current.clock.tombstone && !e.clock.tombstone
            && CompareDecimal(e.clock.incarnation, current.clock.incarnation) <= 0 then Refuse
    else Replace
  }

  /** One piece of evidence against the committed clocks and those pending in this response. */
  function Retain(committed: ClockMap, pending: ClockMap, e: Anonymous): Option<ClockMap> {
    var s := Scope(e);
    if s !in pending && s !in committed then
      if |committed.Keys + pending.Keys| >= MAX_ANONYMOUS_RECORD_CLOCKS then None else Some(pending[s := e])
    else
      Settle(pending, Resolve(Current(committed, pending, s), e), e)
  }

  function Current(committed: ClockMap, pending: ClockMap, s: string): Anonymous
    requires s in pending || s in committed
  {
    if s in pending then pending[s] else committed[s]
  }

  function Settle(pending: ClockMap, verdict: Verdict, e: Anonymous): Option<ClockMap> {
    match verdict
    case Refuse => None
    case Keep => Some(pending)
    case Replace => Some(pending[Scope(e) := e])
  }

  function RetainAll(committed: ClockMap, pending: ClockMap, es: seq<Anonymous>): Option<ClockMap>
    decreases |es|
  {
    if es == [] then Some(pending) else
    var next := Retain(committed, pending, es[0]);
    if next.None? then None else RetainAll(committed, next.value, es[1..])
  }

  /** What the client knows: pending clocks in front of committed ones. */
  function View(committed: ClockMap, pending: ClockMap): ClockMap { committed + pending }

  // ---------------------------------------------------------------- order

  ghost predicate ValidClock(a: Anonymous) {
    Canonical(a.clock.incarnation) && Canonical(a.clock.revision)
  }

  ghost predicate ValidMap(m: ClockMap) { forall s <- m :: ValidClock(m[s]) && Scope(m[s]) == s }

  ghost predicate Earlier(a: Anonymous, b: Anonymous)
    requires ValidClock(a) && ValidClock(b)
  {
    || Value(a.clock.incarnation) < Value(b.clock.incarnation)
    || (Value(a.clock.incarnation) == Value(b.clock.incarnation) && Value(a.clock.revision) < Value(b.clock.revision))
  }

  lemma ComparesAsNumbers(a: Anonymous, b: Anonymous)
    requires ValidClock(a) && ValidClock(b)
    ensures CompareRecordClock(a.clock, b.clock) < 0 <==> Earlier(a, b)
    ensures CompareRecordClock(a.clock, b.clock) > 0 <==> Earlier(b, a)
    ensures CompareRecordClock(a.clock, b.clock) == 0
       <==> a.clock.incarnation == b.clock.incarnation && a.clock.revision == b.clock.revision
    ensures CompareDecimal(a.clock.incarnation, b.clock.incarnation) > 0
       <==> Value(a.clock.incarnation) > Value(b.clock.incarnation)
  {
    CompareIsNumeric(a.clock.incarnation, b.clock.incarnation);
    CompareIsNumeric(a.clock.revision, b.clock.revision);
    CanonicalRenders(a.clock.incarnation);
    CanonicalRenders(b.clock.incarnation);
    CanonicalRenders(a.clock.revision);
    CanonicalRenders(b.clock.revision);
  }

  /** `m` keeps `a` itself or something later, for the same model. */
  ghost predicate Covers(m: ClockMap, a: Anonymous) {
    && Scope(a) in m && ValidClock(a) && ValidClock(m[Scope(a)]) && m[Scope(a)].model == a.model
    && (a == m[Scope(a)] || Earlier(a, m[Scope(a)]))
  }

  /** A record seen deleted stays deleted until a later incarnation. */
  ghost predicate StaysDeleted(before: Anonymous, after: Anonymous)
    requires ValidClock(before) && ValidClock(after)
  {
    before.clock.tombstone ==>
      || Value(after.clock.incarnation) > Value(before.clock.incarnation)
      || (after.clock.tombstone && Value(after.clock.incarnation) == Value(before.clock.incarnation))
  }

  /** Every clock of `m` is still covered in `n`, and deletions were honoured. */
  ghost predicate Extends(m: ClockMap, n: ClockMap)
    requires ValidMap(m) && ValidMap(n)
  {
    forall s <- m :: s in n && Covers(n, m[s]) && StaysDeleted(m[s], n[s])
  }

  /** One accepted step, seen on the view alone. */
  ghost predicate Admits(m: ClockMap, e: Anonymous, n: ClockMap)
    requires ValidMap(m) && ValidClock(e)
  {
    var s := Scope(e);
    if s !in m then n == m[s := e]
    else m[s].model == e.model
         && if e == m[s] || Earlier(e, m[s]) then n == m
            else n == m[s := e] && Earlier(m[s], e) && StaysDeleted(m[s], e)
  }

  lemma ViewValid(committed: ClockMap, pending: ClockMap)
    requires ValidMap(committed) && ValidMap(pending)
    ensures ValidMap(View(committed, pending))
  {
  }

  lemma ResolveMeaning(current: Anonymous, e: Anonymous)
    requires ValidClock(current) && ValidClock(e) && Scope(current) == Scope(e)
    ensures !Resolve(current, e).Refuse? ==> current.model == e.model
    ensures Resolve(current, e).Keep? ==> e == current || Earlier(e, current)
    ensures Resolve(current, e).Replace? ==> Earlier(current, e) && !Earlier(e, current) && StaysDeleted(current, e)
  {
    ComparesAsNumbers(e, current);
  }

  lemma ViewUpdate(committed: ClockMap, pending: ClockMap, s: string, e: Anonymous)
    ensures View(committed, pending[s := e]) == View(committed, pending)[s := e]
    ensures s in View(committed, pending) <==> s in pending || s in committed
    ensures s in View(committed, pending) ==>
              View(committed, pending)[s] == if s in pending then pending[s] else committed[s]
  {
  }

  lemma RetainKeepsValid(committed: ClockMap, pending: ClockMap, e: Anonymous)
    requires ValidMap(pending) && ValidClock(e) && Retain(committed, pending, e).Some?
    ensures ValidMap(Retain(committed, pending, e).value)
  {
    var next := Retain(committed, pending, e).value;
    assert next == pending || next == pending[Scope(e) := e];
  }

  lemma RetainAdmits(committed: ClockMap, pending: ClockMap, e: Anonymous)
    requires ValidMap(View(committed, pending)) && ValidClock(e) && Retain(committed, pending, e).Some?
    ensures Admits(View(committed, pending), e, View(committed, Retain(committed, pending, e).value))
  {
    var s, m := Scope(e), View(committed, pending);
    ViewUpdate(committed, pending, s, e);
    if s in m { ResolveMeaning(m[s], e); }
  }

  /** What a run of accepted evidence `es` makes of the view `m`. */
  ghost predicate Outcome(m: ClockMap, es: seq<Anonymous>, n: ClockMap) {
    ValidMap(m) && ValidMap(n) && Extends(m, n) && (forall e <- es :: Covers(n, e)) && Shown(m, es, n)
  }

  /** Every clock of `n` was already there or is among the evidence. */
  ghost predicate Shown(m: ClockMap, es: seq<Anonymous>, n: ClockMap) {
    forall s <- n :: n[s] in es || (s in m && n[s] == m[s])
  }

  lemma AdmitsOutcome(m: ClockMap, e: Anonymous, n: ClockMap)
    requires ValidMap(m) && ValidClock(e) && Admits(m, e, n)
    ensures Outcome(m, [e], n)
  {
  }

  lemma CoversTransitive(m: ClockMap, n: ClockMap, a: Anonymous)
    requires ValidMap(m) && ValidMap(n) && Covers(m, a) && Extends(m, n)
    ensures Covers(n, a)
  {
  }

  lemma ExtendsTransitive(l: ClockMap, m: ClockMap, n: ClockMap)
    requires ValidMap(l) && ValidMap(m) && ValidMap(n) && Extends(l, m) && Extends(m, n)
    ensures Extends(l, n)
  {
    forall s <- l ensures s in n && Covers(n, l[s]) && StaysDeleted(l[s], n[s]) {
      assert s in m && Covers(n, m[s]);
    }
  }

  lemma OutcomeCons(m: ClockMap, e: Anonymous, mid: ClockMap, es: seq<Anonymous>, n: ClockMap)
    requires Outcome(m, [e], mid) && Outcome(mid, es, n)
    ensures Outcome(m, [e] + es, n)
  {
    ExtendsTransitive(m, mid, n);
    assert e in [e];
    CoversTransitive(mid, n, e);
    forall s <- n ensures n[s] in [e] + es || (s in m && n[s] == m[s]) {
      assert n[s] in es || (s in mid && n[s] == mid[s]);
    }
  }

  /**
   After accepted evidence the view keeps the latest clock of every scope, for its one
   model, keeps nothing that was not shown, and has honoured every deletion.
   */
  lemma {:induction false} RetainsLatest(committed: ClockMap, pending: ClockMap, es: seq<Anonymous>)
    requires ValidMap(committed) && ValidMap(pending) && RetainAll(committed, pending, es).Some?
    requires forall e <- es :: ValidClock(e)
    ensures Outcome(View(committed, pending), es, View(committed, RetainAll(committed, pending, es).value))
    decreases |es|
  {
    if es == [] {
      OutcomeNone(committed, pending);
    } else {
      var e, rest := es[0], es[1..];
      assert e in es && forall x <- rest :: x in es;
      assert es == [e] + rest;
      RetainOutcome(committed, pending, e);
      var next := Retain(committed, pending, e).value;
      RetainsLatest(committed, next, rest);
      var last := RetainAll(committed, next, rest).value;
      OutcomeCons(View(committed, pending), e, View(committed, next), rest, View(committed, last));
    }
  }

  lemma OutcomeNone(committed: ClockMap, pending: ClockMap)
    requires ValidMap(committed) && ValidMap(pending)
    ensures Outcome(View(committed, pending), [], View(committed, pending))
  {
    ViewValid(committed, pending);
  }

  lemma RetainOutcome(committed: ClockMap, pending: ClockMap, e: Anonymous)
    requires ValidMap(committed) && ValidMap(pending) && ValidClock(e) && Retain(committed, pending, e).Some?
    ensures ValidMap(Retain(committed, pending, e).value)
    ensures Outcome(View(committed, pending), [e], View(committed, Retain(committed, pending, e).value))
  {
    ViewValid(committed, pending);
    RetainKeepsValid(committed, pending, e);
    RetainAdmits(committed, pending, e);
    AdmitsOutcome(View(committed, pending), e, View(committed, Retain(committed, pending, e).value));
  }

  /** The order evidence arrives in does not show: two accepted orders leave the same clocks. */
  lemma OrderDoesNotMatter(committed: ClockMap, es: seq<Anonymous>, fs: seq<Anonymous>)
    requires ValidMap(committed) && (forall e <- es :: ValidClock(e)) && forall e :: e in es <==> e in fs
    requires RetainAll(committed, map[], es).Some? && RetainAll(committed, map[], fs).Some?
    ensures View(committed, RetainAll(committed, map[], es).value)
            == View(committed, RetainAll(committed, map[], fs).value)
  {
    RunOutcome(committed, es);
    RunOutcome(committed, fs);
    var a := View(committed, RetainAll(committed, map[], es).value);
    var b := View(committed, RetainAll(committed, map[], fs).value);
    OutcomeUnique(committed, es, a, fs, b);
  }

  lemma RunOutcome(committed: ClockMap, es: seq<Anonymous>)
    requires ValidMap(committed) && (forall e <- es :: ValidClock(e)) && RetainAll(committed, map[], es).Some?
    ensures Outcome(committed, es, View(committed, RetainAll(committed, map[], es).value))
  {
    RetainsLatest(committed, map[], es);
    assert View(committed, map[]) == committed;
  }

  lemma OutcomeUnique(m: ClockMap, es: seq<Anonymous>, a: ClockMap, fs: seq<Anonymous>, b: ClockMap)
    requires Outcome(m, es, a) && Outcome(m, fs, b) && forall e :: e in es <==> e in fs
    ensures a == b
  {
    OutcomeCovers(m, es, a, fs, b);
    OutcomeCovers(m, fs, b, es, a);
    CoverEachOther(a, b);
  }

  lemma OutcomeCovers(m: ClockMap, es: seq<Anonymous>, a: ClockMap, fs: seq<Anonymous>, b: ClockMap)
    requires Outcome(m, es, a) && Outcome(m, fs, b) && forall e <- es :: e in fs
    ensures forall s <- a :: Covers(b, a[s])
  {
    forall s <- a ensures Covers(b, a[s]) {
      if a[s] !in es { assert s in m && a[s] == m[s]; }
    }
  }

  lemma CoverEachOther(a: ClockMap, b: ClockMap)
    requires ValidMap(a) && ValidMap(b)
    requires (forall s <- a :: Covers(b, a[s])) && forall s <- b :: Covers(a, b[s])
    ensures a == b
  {
    assert forall s <- a :: s in b && Covers(a, b[s]);
    assert a.Keys == b.Keys;
  }

  /** The client never knows more scopes than its capacity. */
  lemma {:induction false} CapacityHolds(committed: ClockMap, pending: ClockMap, es: seq<Anonymous>)
    requires |View(committed, pending)| <= 4096 && RetainAll(committed, pending, es).Some?
    ensures |View(committed, RetainAll(committed, pending, es).value)| <= 4096
    decreases |es|
  {
    if es != [] {
      var next := Retain(committed, pending, es[0]).value;
      ViewSize(committed, pending);
      ViewSize(committed, next);
      RetainForm(committed, pending, es[0]);
      AddScope(committed.Keys, pending.Keys, next.Keys, Scope(es[0]));
      CapacityHolds(committed, next, es[1..]);
    }
  }

  lemma RetainForm(committed: ClockMap, pending: ClockMap, e: Anonymous)
    requires Retain(committed, pending, e).Some?
    ensures var next, s := Retain(committed, pending, e).value, Scope(e);
            && (next.Keys == pending.Keys || next.Keys == pending.Keys + {s})
            && (s in pending || s in committed
                || (next.Keys == pending.Keys + {s} && |committed.Keys + pending.Keys| < MAX_ANONYMOUS_RECORD_CLOCKS))
  {
    assert pending[Scope(e) := e].Keys == pending.Keys + {Scope(e)};
  }

  lemma AddScope(committed: set<string>, before: set<string>, after: set<string>, s: string)
    requires after == before || after == before + {s}
    ensures |committed + after| <= |committed + before| + (if s in before || s in committed then 0 else 1)
  {
    assert committed + (before + {s}) == (committed + before) + {s};
    if s in before || s in committed { assert (committed + before) + {s} == committed + before; }
  }

  lemma ViewSize(committed: ClockMap, pending: ClockMap)
    ensures |View(committed, pending)| == |committed.Keys + pending.Keys|
  {
    assert View(committed, pending).Keys == committed.Keys + pending.Keys;
    assert |View(committed, pending)| == |View(committed, pending).Keys|;
  }

  // ---------------------------------------------------------------- when every order is accepted

  /**
   `b` may not arrive after `a`: it is for another model, it is the same clock with another
   tombstone, or it revives the incarnation that `a` deleted.
   */
  ghost predicate Clash(a: Anonymous, b: Anonymous)
    requires ValidClock(a) && ValidClock(b)
  {
    || a.model != b.model
    || (a.clock.tombstone != b.clock.tombstone && a.clock.incarnation == b.clock.incarnation
        && a.clock.revision == b.clock.revision)
    || (a.clock.tombstone && !b.clock.tombstone && a.clock.incarnation == b.clock.incarnation
        && Value(a.clock.revision) < Value(b.clock.revision))
  }

  lemma ResolveExact(current: Anonymous, e: Anonymous)
    requires ValidClock(current) && ValidClock(e)
    ensures Resolve(current, e).Refuse? <==> Clash(current, e)
  {
    ComparesAsNumbers(e, current);
    CanonicalRenders(current.clock.incarnation);
    CanonicalRenders(e.clock.incarnation);
  }

  /** Evidence that is not before the clock committed for its scope. */
  ghost predicate Fresh(committed: ClockMap, e: Anonymous)
    requires ValidMap(committed) && ValidClock(e)
  {
    Scope(e) in committed ==> !Earlier(e, committed[Scope(e)])
  }

  function Scopes(es: seq<Anonymous>): set<string> { set e <- es :: Scope(e) }

  /** The scopes shown are all known already, or there is room for them. */
  predicate Fits(known: set<string>, shown: set<string>) {
    shown <= known || |known + shown| <= 4096
  }

  /** What a client can check of the evidence before it looks at its order. */
  ghost predicate Compatible(committed: ClockMap, es: seq<Anonymous>)
    requires ValidMap(committed) && forall e <- es :: ValidClock(e)
  {
    && (forall e <- es | Scope(e) in committed :: !Clash(committed[Scope(e)], e))
    && (forall e <- es, f <- es | Scope(e) == Scope(f) && Fresh(committed, e) && Fresh(committed, f) :: !Clash(e, f))
    && Fits(committed.Keys, Scopes(es))
  }

  /** Pending clocks come from the evidence, and none is before its committed clock. */
  ghost predicate PendingFrom(committed: ClockMap, pending: ClockMap, es: seq<Anonymous>)
    requires ValidMap(committed) && forall e <- es :: ValidClock(e)
  {
    ValidMap(pending) && forall s <- pending :: pending[s] in es && Fresh(committed, pending[s])
  }

  lemma NotRefused(committed: ClockMap, pending: ClockMap, es: seq<Anonymous>, e: Anonymous)
    requires ValidMap(committed) && (forall x <- es :: ValidClock(x)) && Compatible(committed, es)
    requires PendingFrom(committed, pending, es) && e in es && (Scope(e) in pending || Scope(e) in committed)
    ensures !Resolve(Current(committed, pending, Scope(e)), e).Refuse?
  {
    var s := Scope(e);
    var current := Current(committed, pending, s);
    ResolveExact(current, e);
    if s in pending && Fresh(committed, e) {
      assert current in es && Fresh(committed, current) && !Clash(current, e);
    } else if s in pending {
      assert current in es && Scope(current) == s && !Clash(committed[s], current) && !Clash(committed[s], e);
      assert Earlier(e, current);
    }
  }

  lemma RoomForNew(known: set<string>, pending: set<string>, shown: set<string>, s: string)
    requires pending <= shown && s in shown && s !in known && s !in pending && Fits(known, shown)
    ensures |known + pending| < MAX_ANONYMOUS_RECORD_CLOCKS
  {
    assert (known + pending) + {s} <= known + shown;
    Subset((known + pending) + {s}, known + shown);
  }

  lemma PendingUpdate(committed: ClockMap, pending: ClockMap, es: seq<Anonymous>, e: Anonymous)
    requires ValidMap(committed) && forall x <- es :: ValidClock(x)
    requires PendingFrom(committed, pending, es) && e in es && Fresh(committed, e)
    ensures PendingFrom(committed, pending[Scope(e) := e], es)
  {
  }

  lemma ReplacesFresh(committed: ClockMap, pending: ClockMap, es: seq<Anonymous>, e: Anonymous)
    requires ValidMap(committed) && forall x <- es :: ValidClock(x)
    requires PendingFrom(committed, pending, es) && e in es && (Scope(e) in pending || Scope(e) in committed)
    requires Resolve(Current(committed, pending, Scope(e)), e).Replace?
    ensures Fresh(committed, e)
  {
    var current := Current(committed, pending, Scope(e));
    ResolveMeaning(current, e);
    assert Fresh(committed, current);
  }

  lemma NewScopeFits(committed: ClockMap, pending: ClockMap, es: seq<Anonymous>, e: Anonymous)
    requires ValidMap(committed) && (forall x <- es :: ValidClock(x)) && Fits(committed.Keys, Scopes(es))
    requires PendingFrom(committed, pending, es) && e in es && Scope(e) !in pending && Scope(e) !in committed
    ensures |committed.Keys + pending.Keys| < MAX_ANONYMOUS_RECORD_CLOCKS
  {
    forall t <- pending.Keys ensures t in Scopes(es) { assert pending[t] in es && Scope(pending[t]) == t; }
    RoomForNew(committed.Keys, pending.Keys, Scopes(es), Scope(e));
  }

  lemma AcceptsKnown(committed: ClockMap, pending: ClockMap, es: seq<Anonymous>, e: Anonymous)
    requires ValidMap(committed) && forall x <- es :: ValidClock(x)
    requires PendingFrom(committed, pending, es) && e in es && (Scope(e) in pending || Scope(e) in committed)
    requires !Resolve(Current(committed, pending, Scope(e)), e).Refuse?
    ensures Retain(committed, pending, e).Some? && PendingFrom(committed, Retain(committed, pending, e).value, es)
  {
    var verdict := Resolve(Current(committed, pending, Scope(e)), e);
    assert Retain(committed, pending, e) == Settle(pending, verdict, e);
    if verdict.Replace? {
      ReplacesFresh(committed, pending, es, e);
      PendingUpdate(committed, pending, es, e);
    }
  }

  lemma AcceptsNew(committed: ClockMap, pending: ClockMap, es: seq<Anonymous>, e: Anonymous)
    requires ValidMap(committed) && forall x <- es :: ValidClock(x)
    requires PendingFrom(committed, pending, es) && e in es && Scope(e) !in pending && Scope(e) !in committed
    requires |committed.Keys + pending.Keys| < MAX_ANONYMOUS_RECORD_CLOCKS
    ensures Retain(committed, pending, e).Some? && PendingFrom(committed, Retain(committed, pending, e).value, es)
  {
    assert Retain(committed, pending, e) == Some(pending[Scope(e) := e]);
    PendingUpdate(committed, pending, es, e);
  }

  lemma AcceptsEach(committed: ClockMap, pending: ClockMap, es: seq<Anonymous>, e: Anonymous)
    requires ValidMap(committed) && (forall x <- es :: ValidClock(x)) && Compatible(committed, es)
    requires PendingFrom(committed, pending, es) && e in es
    ensures Retain(committed, pending, e).Some? && PendingFrom(committed, Retain(committed, pending, e).value, es)
  {
    if Scope(e) in pending || Scope(e) in committed {
      NotRefused(committed, pending, es, e);
      AcceptsKnown(committed, pending, es, e);
    } else {
      NewScopeFits(committed, pending, es, e);
      AcceptsNew(committed, pending, es, e);
    }
  }

  lemma {:induction false} AcceptsAll(committed: ClockMap, pending: ClockMap, es: seq<Anonymous>, fs: seq<Anonymous>)
    requires ValidMap(committed) && (forall x <- es :: ValidClock(x)) && Compatible(committed, es)
    requires PendingFrom(committed, pending, es) && forall f <- fs :: f in es
    ensures RetainAll(committed, pending, fs).Some?
    decreases |fs|
  {
    if fs != [] {
      AcceptsEach(committed, pending, es, fs[0]);
      AcceptsAll(committed, Retain(committed, pending, fs[0]).value, es, fs[1..]);
    }
  }

  lemma {:induction false} AcceptedFits(committed: ClockMap, pending: ClockMap, es: seq<Anonymous>)
    requires RetainAll(committed, pending, es).Some?
    ensures Fits(committed.Keys + pending.Keys, Scopes(es))
    decreases |es|
  {
    if es != [] {
      AcceptedFits(committed, Retain(committed, pending, es[0]).value, es[1..]);
      RetainGrows(committed, pending, es[0]);
      ScopesCons(es);
      FitsCons(committed.Keys + pending.Keys, Scope(es[0]), Scopes(es[1..]));
    }
  }

  lemma RetainGrows(committed: ClockMap, pending: ClockMap, e: Anonymous)
    requires Retain(committed, pending, e).Some?
    ensures var known := committed.Keys + pending.Keys;
            && committed.Keys + Retain(committed, pending, e).value.Keys == known + {Scope(e)}
            && (Scope(e) in known || |known| < MAX_ANONYMOUS_RECORD_CLOCKS)
  {
    RetainForm(committed, pending, e);
  }

  lemma ScopesCons(es: seq<Anonymous>)
    requires es != []
    ensures Scopes(es) == {Scope(es[0])} + Scopes(es[1..])
  {
    assert es == [es[0]] + es[1..];
  }

  lemma FitsCons(known: set<string>, s: string, rest: set<string>)
    requires (s in known || |known| < MAX_ANONYMOUS_RECORD_CLOCKS) && Fits(known + {s}, rest)
    ensures Fits(known, {s} + rest)
  {
    assert known + ({s} + rest) == known + {s} + rest;
    if s in known { assert known + {s} == known; }
    if rest <= known + {s} { assert known + {s} + rest == known + {s}; }
  }

  lemma PairRefused(committed: ClockMap, e: Anonymous, f: Anonymous, rest: seq<Anonymous>)
    requires ValidMap(committed) && ValidClock(e) && ValidClock(f)
    requires Scope(e) == Scope(f) && Fresh(committed, e) && Clash(e, f)
    ensures RetainAll(committed, map[], [e, f] + rest).None?
  {
    var s, all := Scope(e), [e, f] + rest;
    assert all[1..] == [f] + rest && ([f] + rest)[1..] == rest;
    var first := Retain(committed, map[], e);
    if first.Some? {
      if s in committed { ResolveMeaning(committed[s], e); }
      ResolveExact(e, f);
      var m := first.value;
      assert s in m || s in committed;
      assert (if s in m then m[s] else committed[s]) == e;
      assert Retain(committed, m, f).None?;
    }
  }

  /** The same evidence with one element first. */
  lemma ToFront(es: seq<Anonymous>, e: Anonymous) returns (rest: seq<Anonymous>)
    requires e in es
    ensures multiset([e] + rest) == multiset(es)
  {
    var i :| 0 <= i < |es| && es[i] == e;
    rest := es[..i] + es[i + 1..];
    assert es == es[..i] + [e] + es[i + 1..];
  }

  lemma PairFirst(es: seq<Anonymous>, e: Anonymous, f: Anonymous) returns (rest: seq<Anonymous>)
    requires e in es && f in es && e != f
    ensures multiset([e, f] + rest) == multiset(es)
  {
    var others := ToFront(es, e);
    assert f in multiset([e] + others);
    rest := ToFront(others, f);
    assert [e, f] + rest == [e] + ([f] + rest);
  }

  lemma FirstRefused(committed: ClockMap, e: Anonymous, rest: seq<Anonymous>)
    requires ValidMap(committed) && ValidClock(e) && Scope(e) in committed && Clash(committed[Scope(e)], e)
    ensures RetainAll(committed, map[], [e] + rest).None?
  {
    ResolveExact(committed[Scope(e)], e);
  }

  ghost predicate EveryOrderAccepted(committed: ClockMap, es: seq<Anonymous>) {
    forall fs: seq<Anonymous> | multiset(fs) == multiset(es) :: RetainAll(committed, map[], fs).Some?
  }

  lemma CommittedAgrees(committed: ClockMap, es: seq<Anonymous>, e: Anonymous)
    requires ValidMap(committed) && EveryOrderAccepted(committed, es)
    requires e in es && ValidClock(e) && Scope(e) in committed
    ensures !Clash(committed[Scope(e)], e)
  {
    var rest := ToFront(es, e);
    if Clash(committed[Scope(e)], e) { FirstRefused(committed, e, rest); }
  }

  lemma PairsAgree(committed: ClockMap, es: seq<Anonymous>, e: Anonymous, f: Anonymous)
    requires ValidMap(committed) && EveryOrderAccepted(committed, es)
    requires e in es && f in es && ValidClock(e) && ValidClock(f)
    requires Scope(e) == Scope(f) && Fresh(committed, e)
    ensures !Clash(e, f)
  {
    if e != f {
      var rest := PairFirst(es, e, f);
      if Clash(e, f) { PairRefused(committed, e, f, rest); }
    }
  }

  /** Every order of the evidence is accepted exactly when the evidence is compatible. */
  lemma EveryOrderExact(committed: ClockMap, es: seq<Anonymous>)
    requires ValidMap(committed) && forall e <- es :: ValidClock(e)
    ensures EveryOrderAccepted(committed, es) <==> Compatible(committed, es)
  {
    if Compatible(committed, es) {
      forall fs: seq<Anonymous> | multiset(fs) == multiset(es) ensures RetainAll(committed, map[], fs).Some? {
        forall f <- fs ensures f in es { assert f in multiset(fs); }
        AcceptsAll(committed, map[], es, fs);
      }
    }
    if EveryOrderAccepted(committed, es) {
      forall e <- es | Scope(e) in committed ensures !Clash(committed[Scope(e)], e) {
        CommittedAgrees(committed, es, e);
      }
      forall e <- es, f <- es | Scope(e) == Scope(f) && Fresh(committed, e) && Fresh(committed, f)
        ensures !Clash(e, f)
      {
        PairsAgree(committed, es, e, f);
      }
      assert multiset(es) == multiset(es);
      var none: ClockMap := map[];
      AcceptedFits(committed, none, es);
      assert committed.Keys + none.Keys == committed.Keys;
    }
  }

  /** A deletion and a later live revision of its incarnation are accepted in one order and refused in the other. */
  lemma RefusalDependsOnOrder(committed: ClockMap, dead: Anonymous, live: Anonymous)
    requires ValidMap(committed) && |committed| < MAX_ANONYMOUS_RECORD_CLOCKS
    requires ValidClock(dead) && ValidClock(live) && dead.model == live.model
    requires Scope(dead) == Scope(live) && Scope(live) !in committed
    requires dead.clock.tombstone && !live.clock.tombstone && dead.clock.incarnation == live.clock.incarnation
    requires Value(dead.clock.revision) < Value(live.clock.revision)
    ensures RetainAll(committed, map[], [dead, live]).None?
    ensures RetainAll(committed, map[], [live, dead]) == Some(map[Scope(live) := live])
  {
    PairRefused(committed, dead, live, []);
    assert [dead, live] + [] == [dead, live];
    var s := Scope(live);
    var first: ClockMap := map[s := live];
    assert committed.Keys + {} == committed.Keys;
    assert [live, dead][1..] == [dead] && [dead][1..] == [];
    assert Retain(committed, map[], live) == Some(first);
    ComparesAsNumbers(dead, live);
    assert Retain(committed, first, dead) == Some(first);
    assert RetainAll(committed, first, [dead]) == Some(first);
  }

  // ---------------------------------------------------------------- the replica's maps

  class Retained {
    var committed: ClockMap
    var pending: ClockMap

    constructor (clocks: ClockMap)
      ensures committed == clocks && pending == map[]
    {
      committed, pending := clocks, map[];
    }

    method Count() returns (retained: nat)
      ensures retained == |committed.Keys + pending.Keys|
    {
      retained := |committed|;
      var scopes := pending.Keys;
      ghost var counted: set<string> := {};
      assert committed.Keys + {} == committed.Keys;
      while scopes != {}
        invariant counted !! scopes && counted + scopes == pending.Keys
        invariant retained == |committed.Keys + counted|
        decreases scopes
      {
        var s :| s in scopes;
        scopes := scopes - {s};
        if s !in committed {
          assert committed.Keys + (counted + {s}) == (committed.Keys + counted) + {s};
          retained := retained + 1;
        } else {
          assert committed.Keys + (counted + {s}) == committed.Keys + counted;
        }
        counted := counted + {s};
      }
      assert counted == pending.Keys;
    }

    method RetainEvidence(evidence: Envelope.RecordRevision) returns (ok: bool)
      modifies this`pending
      ensures ok <==> Retain(committed, old(pending), Incoming(evidence)).Some?
      ensures pending == if ok then Retain(committed, old(pending), Incoming(evidence)).value else old(pending)
    {
      var incoming := Incoming(evidence);
      var s := evidence.scopeToken;
      if s !in pending && s !in committed {
        var retained := Count();
        if retained >= MAX_ANONYMOUS_RECORD_CLOCKS { return false; }
        pending := pending[s := incoming];
        return true;
      }
      var current := if s in pending then pending[s] else committed[s];
      if current.model != incoming.model { return false; }
      var comparison := CompareRecordClock(incoming.clock, current.clock);
      if comparison < 0 { return true; }
      if comparison == 0 { return current.clock.tombstone == incoming.clock.tombstone; }
      if current.clock.tombstone && !incoming.clock.tombstone
         && CompareDecimal(incoming.clock.incarnation, current.clock.incarnation) <= 0 { return false; }
      pending := pending[s := incoming];
      return true;
    }
  }
}
