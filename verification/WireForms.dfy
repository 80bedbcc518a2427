/**
 What an envelope says, written down apart from the parsers: a value from the wire says an item
 when its named fields hold it. Each parser accepts exactly the values that say a well-formed
 item, and returns that item.
 */
module WireForms {
  import opened Wrappers
  import opened Collections
  import opened JsStrings
  import opened Envelope
  import Decimals

  // ---------------------------------------------------------------- well-formed items

  /** 1 to 512 UTF-16 code units. */
  predicate Name(s: string) { 1 <= |Units(s)| <= 512 }

  /** 1 to 16384 UTF-16 code units. */
  predicate Token(s: string) { 1 <= |Units(s)| <= 16384 }

  predicate GoodCursor(c: LiveCursor) {
    Name(c.projection) && Decimals.CanonicalDecimal(c.position) && Token(c.token)
  }

  predicate GoodIndex(x: IndexRevision) {
    && Name(x.projection) && Decimals.CanonicalDecimal(x.position) && Token(x.scopeToken)
    && (x.resume.Some? ==> Token(x.resume.value.token)
                           && x.resume.value == LiveCursor(x.projection, x.position, x.resume.value.token))
  }

  predicate GoodObservation(o: Observation) {
    Token(o.causationId) && Name(o.projection) && Name(o.model) && Token(o.scopeToken)
  }

  predicate GoodExpectation(e: Expectation) { Name(e.projection) && Name(e.model) && Token(e.scopeToken) }

  predicate GoodRecord(r: RecordRevision) {
    && Name(r.model) && Token(r.scopeToken)
    && Decimals.CanonicalDecimal(r.incarnation) && Decimals.CanonicalDecimal(r.revision)
    && (r.path.Some? ==> 1 <= |r.path.value| <= 256 && forall s <- r.path.value :: Name(s))
  }

  ghost predicate AllGood<T>(xs: seq<T>, good: T -> bool) { |xs| <= 4096 && forall x <- xs :: good(x) }

  /** At most 64 indexes carry a resume cursor, no projection repeats, and only comparable indexes are reported. */
  ghost predicate GoodSnapshot(s: Snapshot) {
    && Token(s.scopeToken) && AllGood(s.records, GoodRecord) && AllGood(s.indexes, GoodIndex)
    && AllGood(s.observations, GoodObservation)
    && Distinct(IndexNames(s.indexes)) && Carrying(s.indexes) <= 64
    && (!s.indexesComparable ==> s.indexes == [] && s.observations == [])
  }

  function Carrying(indexes: seq<IndexRevision>): nat {
    if indexes == [] then 0 else (if indexes[0].resume.Some? then 1 else 0) + Carrying(indexes[1..])
  }

  ghost predicate GoodLive(l: Live) {
    && |l.cursors| <= 64 && (forall c <- l.cursors :: GoodCursor(c)) && Distinct(CursorNames(l.cursors))
    && (!l.supported ==> l.reset && l.cursors == [])
  }

  predicate CommandState(s: string) {
    s in {"in_progress", "succeeded", "succeeded_pending_projection", "atomic", "rejected", "projection_failed",
          "expired", "unknown"}
  }

  predicate Consistency(s: string) { s in {"succeeded", "eventual", "atomic"} }

  predicate Settled(s: string) { s in {"succeeded", "succeeded_pending_projection", "atomic", "projection_failed"} }

  /** Each observation is this command's, answers an expectation, and comes once. */
  ghost predicate Answers(causationId: string, expects: seq<Expectation>, observations: seq<Observation>) {
    && (forall o <- observations ::
          o.causationId == causationId && Expectation(o.projection, o.model, o.scopeToken) in expects)
    && Distinct(observations)
  }

  ghost predicate GoodCommand(c: Command) {
    && Token(c.commandId) && Token(c.causationId) && CommandState(c.state) && Consistency(c.consistency)
    && AllGood(c.expects, GoodExpectation) && AllGood(c.observations, GoodObservation)
    && AllGood(c.records, GoodRecord) && Answers(c.causationId, c.expects, c.observations)
    && (c.revalidate ==>
          !c.hasProjection && c.expects == [] && c.observations == [] && c.records == [] && Settled(c.state))
  }

  // ---------------------------------------------------------------- what a value says

  predicate Says(v: Raw, key: string, s: string) { Field(v, key) == Str(s) }

  predicate SaysFlag(v: Raw, key: string, b: bool) { Field(v, key) == Bool(b) }

  predicate SaysCursor(v: Raw, c: LiveCursor) {
    v.Record? && Says(v, "projection", c.projection) && Says(v, "position", c.position) && Says(v, "token", c.token)
  }

  predicate SaysIndex(v: Raw, x: IndexRevision) {
    && v.Record? && Says(v, "projection", x.projection) && Says(v, "scopeToken", x.scopeToken)
    && Says(v, "position", x.position)
    && match x.resume case None => Field(v, "resume").Undefined? case Some(c) => SaysCursor(Field(v, "resume"), c)
  }

  predicate SaysObservation(v: Raw, o: Observation) {
    && v.Record? && Says(v, "causationId", o.causationId) && Says(v, "projection", o.projection)
    && Says(v, "model", o.model) && Says(v, "scopeToken", o.scopeToken)
  }

  predicate SaysExpectation(v: Raw, e: Expectation) {
    v.Record? && Says(v, "projection", e.projection) && Says(v, "model", e.model) && Says(v, "scopeToken", e.scopeToken)
  }

  predicate SaysText(v: Raw, s: string) { v == Str(s) }

  predicate SaysRecord(v: Raw, r: RecordRevision) {
    && v.Record? && Says(v, "model", r.model) && Says(v, "scopeToken", r.scopeToken)
    && Says(v, "incarnation", r.incarnation) && Says(v, "revision", r.revision) && SaysFlag(v, "tombstone", r.tombstone)
    && match r.path
       case None => Field(v, "path").Undefined?
       case Some(segments) => SaysList(Field(v, "path"), segments, SaysText)
  }

  predicate SaysList<T>(v: Raw, xs: seq<T>, says: (Raw, T) -> bool) {
    v.List? && |v.items| == |xs| && forall i | 0 <= i < |xs| :: says(v.items[i], xs[i])
  }

  ghost predicate SaysOptional<T>(v: Raw, xs: seq<T>, says: (Raw, T) -> bool) {
    if v.Undefined? then xs == [] else SaysList(v, xs, says)
  }

  predicate SaysSnapshot(v: Raw, s: Snapshot) {
    && v.Record? && Says(v, "scopeToken", s.scopeToken) && SaysFlag(v, "recordsComplete", s.recordsComplete)
    && SaysFlag(v, "indexesComparable", s.indexesComparable)
    && SaysList(Field(v, "records"), s.records, SaysRecord)
    && SaysList(Field(v, "indexes"), s.indexes, SaysIndex)
    && SaysList(Field(v, "observations"), s.observations, SaysObservation)
  }

  predicate SaysLive(v: Raw, l: Live) {
    && v.Record? && SaysFlag(v, "supported", l.supported) && SaysFlag(v, "reset", l.reset)
    && SaysList(Field(v, "cursors"), l.cursors, SaysCursor)
  }

  ghost predicate SaysCommand(v: Raw, projectionOk: Raw -> bool, c: Command) {
    && v.Record? && Says(v, "commandId", c.commandId) && Says(v, "causationId", c.causationId)
    && Says(v, "state", c.state) && Says(v, "consistency", c.consistency)
    && (if c.revalidate then Says(v, "projectionDisposition", "revalidate")
        else Field(v, "projectionDisposition").Undefined?)
    && (if c.hasProjection then !Field(v, "projection").Undefined? && projectionOk(Field(v, "projection"))
        else Field(v, "projection").Undefined?)
    && SaysList(Field(v, "expects"), c.expects, SaysExpectation)
    && SaysOptional(Field(v, "observations"), c.observations, SaysObservation)
    && SaysOptional(Field(v, "records"), c.records, SaysRecord)
  }

  // ---------------------------------------------------------------- items

  lemma CursorExact(v: Raw, c: LiveCursor)
    ensures ParseLiveCursor(v) == Some(c) <==> SaysCursor(v, c) && GoodCursor(c)
  {
  }

  lemma IndexExact(v: Raw, x: IndexRevision)
    ensures ParseIndexRevision(v) == Some(x) <==> SaysIndex(v, x) && GoodIndex(x)
  {
    if x.resume.Some? { CursorExact(Field(v, "resume"), x.resume.value); }
    var parsed := ParseLiveCursor(Field(v, "resume"));
    if parsed.Some? { CursorExact(Field(v, "resume"), parsed.value); }
  }

  lemma ObservationExact(v: Raw, o: Observation)
    ensures ParseObservation(v) == Some(o) <==> SaysObservation(v, o) && GoodObservation(o)
  {
  }

  lemma ExpectationExact(v: Raw, e: Expectation)
    ensures ParseExpectation(v) == Some(e) <==> SaysExpectation(v, e) && GoodExpectation(e)
  {
  }

  /** A list is accepted exactly when each of its items is, and then as the list of what they say. */
  lemma {:induction false} AllExact<T(!new)>(
    items: seq<Raw>, parse: Raw -> Option<T>, says: (Raw, T) -> bool, good: T -> bool, xs: seq<T>)
    requires forall v, x :: parse(v) == Some(x) <==> says(v, x) && good(x)
    ensures ParseAll(items, parse) == Some(xs)
       <==> |items| == |xs| && forall i | 0 <= i < |xs| :: says(items[i], xs[i]) && good(xs[i])
  {
    var r := ParseAll(items, parse);
    if |items| == |xs| && forall i | 0 <= i < |xs| :: says(items[i], xs[i]) && good(xs[i]) {
      forall i | 0 <= i < |items| ensures parse(items[i]) == Some(xs[i]) {}
      assert r.value == xs;
    }
  }

  lemma {:induction false} EvidenceExact<T(!new)>(
    v: Raw, parse: Raw -> Option<T>, says: (Raw, T) -> bool, good: T -> bool, xs: seq<T>)
    requires forall v, x :: parse(v) == Some(x) <==> says(v, x) && good(x)
    ensures ParseEvidence(v, parse) == Some(xs) <==> SaysList(v, xs, says) && AllGood(xs, good)
    ensures ParseOptionalEvidence(v, parse) == Some(xs) <==> SaysOptional(v, xs, says) && AllGood(xs, good)
  {
    if v.List? { AllExact(v.items, parse, says, good, xs); }
    assert (forall x <- xs :: good(x)) <==> forall i | 0 <= i < |xs| :: good(xs[i]);
  }

  lemma {:induction false} SegmentsExact(v: Raw, segments: seq<string>)
    ensures (v.List? && ParseAll(v.items, ParseSegment) == Some(segments))
       <==> SaysList(v, segments, SaysText) && forall s <- segments :: Name(s)
  {
    if v.List? { AllExact(v.items, ParseSegment, SaysText, Name, segments); }
    assert (forall s <- segments :: Name(s)) <==> forall i | 0 <= i < |segments| :: Name(segments[i]);
  }

  lemma {:induction false} RecordExact(v: Raw, r: RecordRevision)
    ensures ParseRecordRevision(v) == Some(r) <==> SaysRecord(v, r) && GoodRecord(r)
  {
    var path := Field(v, "path");
    if r.path.Some? { SegmentsExact(path, r.path.value); }
    if path.List? && ParseAll(path.items, ParseSegment).Some? {
      SegmentsExact(path, ParseAll(path.items, ParseSegment).value);
    }
  }

  // ---------------------------------------------------------------- frames and receipts

  lemma {:induction false} CarryingResumes(indexes: seq<IndexRevision>)
    ensures |Resumes(indexes)| == Carrying(indexes)
  {
    if indexes != [] { CarryingResumes(indexes[1..]); }
  }

  lemma {:induction false} IndexesExact(v: Raw, xs: seq<IndexRevision>)
    ensures ParseEvidence(v, ParseIndexRevision) == Some(xs) <==> SaysList(v, xs, SaysIndex) && AllGood(xs, GoodIndex)
  {
    forall v, x ensures ParseIndexRevision(v) == Some(x) <==> SaysIndex(v, x) && GoodIndex(x) { IndexExact(v, x); }
    EvidenceExact(v, ParseIndexRevision, SaysIndex, GoodIndex, xs);
  }

  lemma {:induction false} RecordsExact(v: Raw, xs: seq<RecordRevision>)
    ensures ParseEvidence(v, ParseRecordRevision) == Some(xs)
       <==> SaysList(v, xs, SaysRecord) && AllGood(xs, GoodRecord)
    ensures ParseOptionalEvidence(v, ParseRecordRevision) == Some(xs)
       <==> SaysOptional(v, xs, SaysRecord) && AllGood(xs, GoodRecord)
  {
    forall v, x ensures ParseRecordRevision(v) == Some(x) <==> SaysRecord(v, x) && GoodRecord(x) { RecordExact(v, x); }
    EvidenceExact(v, ParseRecordRevision, SaysRecord, GoodRecord, xs);
  }

  lemma {:induction false} ObservationsExact(v: Raw, xs: seq<Observation>)
    ensures ParseEvidence(v, ParseObservation) == Some(xs)
       <==> SaysList(v, xs, SaysObservation) && AllGood(xs, GoodObservation)
    ensures ParseOptionalEvidence(v, ParseObservation) == Some(xs)
       <==> SaysOptional(v, xs, SaysObservation) && AllGood(xs, GoodObservation)
  {
    forall v, x ensures ParseObservation(v) == Some(x) <==> SaysObservation(v, x) && GoodObservation(x) {
      ObservationExact(v, x);
    }
    EvidenceExact(v, ParseObservation, SaysObservation, GoodObservation, xs);
  }

  lemma {:induction false} ExpectationsExact(v: Raw, xs: seq<Expectation>)
    ensures ParseEvidence(v, ParseExpectation) == Some(xs)
       <==> SaysList(v, xs, SaysExpectation) && AllGood(xs, GoodExpectation)
  {
    forall v, x ensures ParseExpectation(v) == Some(x) <==> SaysExpectation(v, x) && GoodExpectation(x) {
      ExpectationExact(v, x);
    }
    EvidenceExact(v, ParseExpectation, SaysExpectation, GoodExpectation, xs);
  }

  lemma {:induction false} CursorsExact(v: Raw, xs: seq<LiveCursor>)
    ensures ParseEvidence(v, ParseLiveCursor) == Some(xs) <==> SaysList(v, xs, SaysCursor) && AllGood(xs, GoodCursor)
  {
    forall v, x ensures ParseLiveCursor(v) == Some(x) <==> SaysCursor(v, x) && GoodCursor(x) { CursorExact(v, x); }
    EvidenceExact(v, ParseLiveCursor, SaysCursor, GoodCursor, xs);
  }

  /** A snapshot is accepted exactly when it says a well-formed one, and is that one. */
  lemma {:induction false} SnapshotExact(v: Raw, s: Snapshot)
    ensures ParseSnapshot(v) == Some(s) <==> SaysSnapshot(v, s) && GoodSnapshot(s)
  {
    RecordsExact(Field(v, "records"), s.records);
    IndexesExact(Field(v, "indexes"), s.indexes);
    ObservationsExact(Field(v, "observations"), s.observations);
    UniqueMeansDistinct(IndexNames(s.indexes));
    CarryingResumes(s.indexes);
  }

  /** So is live metadata. */
  lemma {:induction false} LiveExact(v: Raw, l: Live)
    ensures ParseLive(v) == Some(l) <==> SaysLive(v, l) && GoodLive(l)
  {
    CursorsExact(Field(v, "cursors"), l.cursors);
    UniqueMeansDistinct(CursorNames(l.cursors));
  }

  lemma StatesExact(s: string)
    ensures s in COMMAND_STATES <==> CommandState(s)
    ensures s in COMMAND_CONSISTENCIES <==> Consistency(s)
    ensures s in REVALIDATING_STATES <==> Settled(s)
  {
  }

  lemma {:induction false} AnswersExact(causationId: string, expects: seq<Expectation>, observations: seq<Observation>)
    ensures Accounted(causationId, expects, observations) <==> Answers(causationId, expects, observations)
  {
    if Answers(causationId, expects, observations) {
      forall o <- observations ensures ExpectationOf(o) in expects {
        assert Expectation(o.projection, o.model, o.scopeToken) == ExpectationOf(o);
      }
    }
  }

  lemma {:induction false} ReceiptLists(v: Raw, c: Command)
    ensures ParseEvidence(Field(v, "expects"), ParseExpectation) == Some(c.expects)
       <==> SaysList(Field(v, "expects"), c.expects, SaysExpectation) && AllGood(c.expects, GoodExpectation)
    ensures ParseOptionalEvidence(Field(v, "observations"), ParseObservation) == Some(c.observations)
       <==> SaysOptional(Field(v, "observations"), c.observations, SaysObservation)
            && AllGood(c.observations, GoodObservation)
    ensures ParseOptionalEvidence(Field(v, "records"), ParseRecordRevision) == Some(c.records)
       <==> SaysOptional(Field(v, "records"), c.records, SaysRecord) && AllGood(c.records, GoodRecord)
    ensures Accounted(c.causationId, c.expects, c.observations) <==> Answers(c.causationId, c.expects, c.observations)
  {
    ExpectationsExact(Field(v, "expects"), c.expects);
    ObservationsExact(Field(v, "observations"), c.observations);
    RecordsExact(Field(v, "records"), c.records);
    AnswersExact(c.causationId, c.expects, c.observations);
  }

  lemma {:induction false} CommandSound(v: Raw, projectionOk: Raw -> bool, c: Command)
    requires ParseCommand(v, projectionOk) == Some(c)
    ensures SaysCommand(v, projectionOk, c) && GoodCommand(c)
  {
    ReceiptLists(v, c);
    StatesExact(c.state);
    StatesExact(c.consistency);
  }

  lemma {:induction false} CommandComplete(v: Raw, projectionOk: Raw -> bool, c: Command)
    requires SaysCommand(v, projectionOk, c) && GoodCommand(c)
    ensures ParseCommand(v, projectionOk) == Some(c)
  {
    ReceiptLists(v, c);
    StatesExact(c.state);
    StatesExact(c.consistency);
  }

  /** So is a command receipt. */
  lemma {:induction false} CommandExact(v: Raw, projectionOk: Raw -> bool, c: Command)
    ensures ParseCommand(v, projectionOk) == Some(c) <==> SaysCommand(v, projectionOk, c) && GoodCommand(c)
  {
    if ParseCommand(v, projectionOk) == Some(c) { CommandSound(v, projectionOk, c); }
    if SaysCommand(v, projectionOk, c) && GoodCommand(c) { CommandComplete(v, projectionOk, c); }
  }

  // ---------------------------------------------------------------- what the replica resumes with

  lemma {:induction false} ResumesExact(indexes: seq<IndexRevision>, c: LiveCursor)
    ensures c in Resumes(indexes) <==> exists x <- indexes :: x.resume == Some(c)
  {
    if indexes != [] {
      ResumesExact(indexes[1..], c);
      assert indexes == [indexes[0]] + indexes[1..];
    }
  }

  /**
   What an accepted envelope leaves the replica to resume with: the cursors of supported live
   metadata, nothing where live is not supported, and without live metadata the resume cursors
   of the indexes.
   */
  lemma {:induction false} LatestCursorsExact(snapshot: Raw, live: Raw, c: LiveCursor)
    requires ParseSnapshot(snapshot).Some? && (live.Undefined? || ParseLive(live).Some?)
    ensures var s, l := ParseSnapshot(snapshot).value, if live.Undefined? then None else ParseLive(live);
            c in LatestCursors(s, l) <==>
              match l
              case None => exists x <- s.indexes :: x.resume == Some(c)
              case Some(metadata) => metadata.supported && c in metadata.cursors
  {
    ResumesExact(ParseSnapshot(snapshot).value.indexes, c);
  }
}
