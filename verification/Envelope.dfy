/**
 The client's reading of one protocol envelope: snapshot indexes, live cursors, resume
 requests, and command receipts with their observations.
 */
module Envelope {
  import opened Wrappers
  import opened Collections
  import Decimals
  import JsonKeys
  import opened JsStrings

  const MAX_PUBLIC_NAME_LENGTH := 512
  const MAX_OPAQUE_STRING_LENGTH := 16384
  const MAX_EVIDENCE_ITEMS := 4096
  const MAX_LIVE_RESUME_CURSORS := 64
  const MAX_PATH_SEGMENTS := 256

  /** A value from the wire; `Other` stands for numbers, null and everything else that is never accepted here. */
  datatype Raw =
    | Undefined
    | Bool(b: bool)
    | Str(s: string)
    | List(items: seq<Raw>)
    | Record(fields: map<string, Raw>)
    | Other

  function Field(v: Raw, key: string): Raw {
    if v.Record? && key in v.fields then v.fields[key] else Undefined
  }

  datatype LiveCursor = LiveCursor(projection: string, position: string, token: string)
  datatype IndexRevision =
    IndexRevision(projection: string, scopeToken: string, position: string, resume: Option<LiveCursor>)
  datatype Observation = Observation(causationId: string, projection: string, model: string, scopeToken: string)
  datatype Expectation = Expectation(projection: string, model: string, scopeToken: string)
  datatype RecordRevision =
    RecordRevision(path: Option<seq<string>>, model: string, scopeToken: string,
                   incarnation: string, revision: string, tombstone: bool)
  datatype Snapshot =
    Snapshot(scopeToken: string, recordsComplete: bool, indexesComparable: bool,
             records: seq<RecordRevision>, indexes: seq<IndexRevision>, observations: seq<Observation>)
  datatype Live = Live(supported: bool, reset: bool, cursors: seq<LiveCursor>)

  // ---------------------------------------------------------------- scalars

  predicate PublicName(s: string) { 0 < |Units(s)| <= MAX_PUBLIC_NAME_LENGTH }

  predicate Opaque(s: string) { 0 < |Units(s)| <= MAX_OPAQUE_STRING_LENGTH }

  predicate IsPublicName(v: Raw) { v.Str? && PublicName(v.s) }

  predicate IsOpaque(v: Raw) { v.Str? && Opaque(v.s) }

  predicate IsDecimal(v: Raw) { v.Str? && Decimals.CanonicalDecimal(v.s) }

  // ---------------------------------------------------------------- items

  function ParseLiveCursor(v: Raw): Option<LiveCursor> {
    if v.Record? && IsPublicName(Field(v, "projection")) && IsDecimal(Field(v, "position"))
      && IsOpaque(Field(v, "token"))
    then Some(LiveCursor(Field(v, "projection").s, Field(v, "position").s, Field(v, "token").s))
    else None
  }

  function ParseIndexRevision(v: Raw): Option<IndexRevision> {
    if !v.Record? || !IsPublicName(Field(v, "projection")) || !IsDecimal(Field(v, "position")) then None else
    var projection, position := Field(v, "projection").s, Field(v, "position").s;
    var resume := ParseLiveCursor(Field(v, "resume"));
    if !Field(v, "resume").Undefined?
       && (resume.None? || resume.value.projection != projection || resume.value.position != position) then None
    else if !IsOpaque(Field(v, "scopeToken")) then None
    else Some(IndexRevision(projection, Field(v, "scopeToken").s, position,
                            if Field(v, "resume").Undefined? then None else resume))
  }

  function ParseObservation(v: Raw): Option<Observation> {
    if v.Record? && IsOpaque(Field(v, "causationId")) && IsPublicName(Field(v, "projection"))
       && IsPublicName(Field(v, "model")) && IsOpaque(Field(v, "scopeToken"))
    then Some(Observation(Field(v, "causationId").s, Field(v, "projection").s, Field(v, "model").s,
      Field(v, "scopeToken").s))
    else None
  }

  function ParseExpectation(v: Raw): Option<Expectation> {
    if v.Record? && IsPublicName(Field(v, "projection")) && IsPublicName(Field(v, "model"))
      && IsOpaque(Field(v, "scopeToken"))
    then Some(Expectation(Field(v, "projection").s, Field(v, "model").s, Field(v, "scopeToken").s))
    else None
  }

  function ParseSegment(v: Raw): Option<string> { if IsPublicName(v) then Some(v.s) else None }

  function ParseRecordRevision(v: Raw): Option<RecordRevision> {
    if !v.Record? then None else
    var path := Field(v, "path");
    var segments := if path.List? && 0 < |path.items| <= MAX_PATH_SEGMENTS then ParseAll(path.items, ParseSegment)
      else None;
    if !path.Undefined? && segments.None? then None
    else if !Field(v, "tombstone").Bool? || !IsPublicName(Field(v, "model")) || !IsOpaque(Field(v, "scopeToken"))
            || !IsDecimal(Field(v, "incarnation")) || !IsDecimal(Field(v, "revision")) then None
    else Some(RecordRevision(if path.Undefined? then None else segments, Field(v, "model").s, Field(v, "scopeToken").s,
                             Field(v, "incarnation").s, Field(v, "revision").s, Field(v, "tombstone").b))
  }

  /** `value.map(parse)`, where one failure fails the whole list. */
  function ParseAll<T>(items: seq<Raw>, parse: Raw -> Option<T>): (r: Option<seq<T>>)
    ensures r.Some? <==> forall i | 0 <= i < |items| :: parse(items[i]).Some?
    ensures r.Some? ==> |r.value| == |items| && forall i | 0 <= i < |items| :: parse(items[i]) == Some(r.value[i])
  {
    if items == [] then Some([]) else
    var head, tail := parse(items[0]), ParseAll(items[1..], parse);
    assert items == [items[0]] + items[1..];
    if head.None? || tail.None? then None else Some([head.value] + tail.value)
  }

  function ParseEvidence<T>(v: Raw, parse: Raw -> Option<T>): Option<seq<T>> {
    if v.List? && |v.items| <= MAX_EVIDENCE_ITEMS then ParseAll(v.items, parse) else None
  }

  /** `new Set(values).size === values.length` */
  predicate Unique(values: seq<string>) { |(set x <- values)| == |values| }

  function CursorNames(cursors: seq<LiveCursor>): (r: seq<string>)
    ensures |r| == |cursors| && forall i | 0 <= i < |r| :: r[i] == cursors[i].projection
  {
    seq(|cursors|, i requires 0 <= i < |cursors| => cursors[i].projection)
  }

  function IndexNames(indexes: seq<IndexRevision>): (r: seq<string>)
    ensures |r| == |indexes| && forall i | 0 <= i < |r| :: r[i] == indexes[i].projection
  {
    seq(|indexes|, i requires 0 <= i < |indexes| => indexes[i].projection)
  }

  /** The resume cursors the indexes carry, in order. */
  function Resumes(indexes: seq<IndexRevision>): seq<LiveCursor> {
    if indexes == [] then []
    else (if indexes[0].resume.Some? then [indexes[0].resume.value] else []) + Resumes(indexes[1..])
  }

  // ---------------------------------------------------------------- frames

  function ParseSnapshot(v: Raw): Option<Snapshot> {
    if !v.Record? || !Field(v, "recordsComplete").Bool? || !Field(v, "indexesComparable").Bool? then None else
    var records := ParseEvidence(Field(v, "records"), ParseRecordRevision);
    var indexes := ParseEvidence(Field(v, "indexes"), ParseIndexRevision);
    var observations := ParseEvidence(Field(v, "observations"), ParseObservation);
    if records.None? || indexes.None? || observations.None? || !Unique(IndexNames(indexes.value)) then None
    else if |Resumes(indexes.value)| > MAX_LIVE_RESUME_CURSORS then None
    else if !Field(v, "indexesComparable").b && (|indexes.value| > 0 || |observations.value| > 0) then None
    else if !IsOpaque(Field(v, "scopeToken")) then None
    else Some(Snapshot(Field(v, "scopeToken").s, Field(v, "recordsComplete").b, Field(v, "indexesComparable").b,
                       records.value, indexes.value, observations.value))
  }

  function ParseLive(v: Raw): Option<Live> {
    if !v.Record? || !Field(v, "supported").Bool? || !Field(v, "reset").Bool? then None else
    if !Field(v, "cursors").List? || |Field(v, "cursors").items| > MAX_LIVE_RESUME_CURSORS then None else
    var cursors := ParseEvidence(Field(v, "cursors"), ParseLiveCursor);
    if cursors.None? || !Unique(CursorNames(cursors.value)) then None
    else if !Field(v, "supported").b && (!Field(v, "reset").b || |cursors.value| != 0) then None
    else Some(Live(Field(v, "supported").b, Field(v, "reset").b, cursors.value))
  }

  /** Cursor `c` repeats the resume cursor of the index for its projection. */
  predicate Matches(indexes: seq<IndexRevision>, c: LiveCursor) {
    exists x <- indexes :: x.projection == c.projection && x.position == c.position
                           && x.resume.Some? && x.resume.value.token == c.token
  }

  predicate LiveMatchesSnapshot(snapshot: Option<Snapshot>, live: Option<Live>) {
    live.None? || (
      && snapshot.Some?
      && (live.value.supported ==>
            && snapshot.value.indexesComparable
            && |live.value.cursors| != 0
            && |snapshot.value.indexes| == |live.value.cursors|
            && forall c <- live.value.cursors :: Matches(snapshot.value.indexes, c)))
  }

  /** The check with its map from projection to index, in the order it is made. */
  method ValidateLiveSnapshot(snapshot: Option<Snapshot>, live: Option<Live>) returns (ok: bool)
    requires snapshot.Some? ==> Unique(IndexNames(snapshot.value.indexes))
    ensures ok <==> LiveMatchesSnapshot(snapshot, live)
  {
    if live.None? { return true; }
    if snapshot.None? { return false; }
    if !live.value.supported { return true; }
    var frame, cursors := snapshot.value, live.value.cursors;
    if !frame.indexesComparable { return false; }
    if |cursors| == 0 || |frame.indexes| != |cursors| { return false; }
    UniqueMeansDistinct(IndexNames(frame.indexes));
    var indexes: map<string, IndexRevision> := map[];
    for i := 0 to |frame.indexes|
      invariant forall p :: p in indexes <==> exists k | 0 <= k < i :: frame.indexes[k].projection == p
      invariant forall k | 0 <= k < i :: frame.indexes[k].projection in indexes
                                         && indexes[frame.indexes[k].projection] == frame.indexes[k]
    {
      assert forall k | 0 <= k < i :: IndexNames(frame.indexes)[k] != IndexNames(frame.indexes)[i];
      indexes := indexes[frame.indexes[i].projection := frame.indexes[i]];
    }
    assert forall x <- frame.indexes :: x.projection in indexes && indexes[x.projection] == x;
    for j := 0 to |cursors|
      invariant forall k | 0 <= k < j :: Matches(frame.indexes, cursors[k])
    {
      var c := cursors[j];
      assert c in cursors;
      if c.projection !in indexes { return false; }
      var index := indexes[c.projection];
      assert index in frame.indexes;
      if index.position != c.position || index.resume.None? || index.resume.value.token != c.token { return false; }
    }
    return true;
  }

  // ---------------------------------------------------------------- uniqueness

  lemma UniqueMeansDistinct(values: seq<string>)
    ensures Unique(values) <==> Distinct(values)
  {
    ElementCount(values);
  }

  // ---------------------------------------------------------------- accepted frames

  /** What an accepted cursor is known to be. */
  predicate ValidCursor(c: LiveCursor) {
    PublicName(c.projection) && Decimals.CanonicalDecimal(c.position) && Opaque(c.token)
  }

  /** An index whose resume cursor, if any, names the same projection and position. */
  predicate ValidIndex(x: IndexRevision) {
    && PublicName(x.projection) && Decimals.CanonicalDecimal(x.position) && Opaque(x.scopeToken)
    && (x.resume.Some? ==>
          ValidCursor(x.resume.value) && x.resume.value.projection == x.projection
          && x.resume.value.position == x.position)
  }

  lemma ParsedCursors(v: Raw)
    requires ParseLive(v).Some?
    ensures var l := ParseLive(v).value;
            |l.cursors| <= MAX_LIVE_RESUME_CURSORS && Distinct(CursorNames(l.cursors))
            && forall c <- l.cursors :: ValidCursor(c)
  {
    UniqueMeansDistinct(CursorNames(ParseLive(v).value.cursors));
  }

  lemma ParsedIndexes(v: Raw)
    requires ParseSnapshot(v).Some?
    ensures var s := ParseSnapshot(v).value;
            |Resumes(s.indexes)| <= MAX_LIVE_RESUME_CURSORS && Distinct(IndexNames(s.indexes))
            && forall x <- s.indexes :: ValidIndex(x)
  {
    var indexes := ParseEvidence(Field(v, "indexes"), ParseIndexRevision).value;
    assert ParseSnapshot(v).value.indexes == indexes;
    UniqueMeansDistinct(IndexNames(indexes));
    EvidenceValid(Field(v, "indexes").items);
  }

  lemma EvidenceValid(items: seq<Raw>)
    requires ParseAll(items, ParseIndexRevision).Some?
    ensures forall x <- ParseAll(items, ParseIndexRevision).value :: ValidIndex(x)
  {
    forall x <- ParseAll(items, ParseIndexRevision).value ensures ValidIndex(x) {
      var i :| 0 <= i < |items| && ParseAll(items, ParseIndexRevision).value[i] == x;
      IndexValid(items[i]);
    }
  }

  lemma IndexValid(v: Raw)
    requires ParseIndexRevision(v).Some?
    ensures ValidIndex(ParseIndexRevision(v).value)
  {
  }

  /** Index `x` and cursor `c` agree on projection, position and token. */
  predicate Pair(x: IndexRevision, c: LiveCursor) { x.projection == c.projection && x.resume == Some(c) }

  predicate HasPair(indexes: seq<IndexRevision>, c: LiveCursor) { exists x <- indexes :: Pair(x, c) }

  /** One partner for every index and every cursor, and no index or cursor repeats a projection. */
  ghost predicate OneToOne(indexes: seq<IndexRevision>, cursors: seq<LiveCursor>) {
    && |indexes| == |cursors|
    && Distinct(IndexNames(indexes)) && Distinct(CursorNames(cursors))
    && (forall x <- indexes :: x.resume.Some? && x.resume.value in cursors && Pair(x, x.resume.value))
    && (forall c <- cursors :: HasPair(indexes, c))
  }

  /**
   With supported live metadata, an envelope is accepted exactly when its indexes are
   comparable and its indexes and cursors, at least one of each, are in one-to-one
   correspondence on projection, position and token.
   */
  lemma LiveFrameBijection(snapshot: Raw, live: Raw)
    requires ParseSnapshot(snapshot).Some? && ParseLive(live).Some? && ParseLive(live).value.supported
    ensures var s, l := ParseSnapshot(snapshot).value, ParseLive(live).value;
            && (LiveMatchesSnapshot(Some(s), Some(l)) ==>
                  s.indexesComparable && l.cursors != [] && OneToOne(s.indexes, l.cursors))
            && (s.indexesComparable && l.cursors != [] && OneToOne(s.indexes, l.cursors) ==>
                  LiveMatchesSnapshot(Some(s), Some(l)))
  {
    ParsedCursors(live);
    ParsedIndexes(snapshot);
    var s, l := ParseSnapshot(snapshot).value, ParseLive(live).value;
    if LiveMatchesSnapshot(Some(s), Some(l)) { MatchedOneToOne(s.indexes, l.cursors); }
    if OneToOne(s.indexes, l.cursors) { PairedMatches(s.indexes, l.cursors); }
  }

  lemma PairedMatches(indexes: seq<IndexRevision>, cursors: seq<LiveCursor>)
    requires (forall x <- indexes :: ValidIndex(x)) && forall c <- cursors :: HasPair(indexes, c)
    ensures forall c <- cursors :: Matches(indexes, c)
  {
    forall c <- cursors ensures Matches(indexes, c) {
      assert HasPair(indexes, c);
      var x :| x in indexes && Pair(x, c);
      assert ValidIndex(x);
    }
  }

  lemma MatchedOneToOne(indexes: seq<IndexRevision>, cursors: seq<LiveCursor>)
    requires |indexes| == |cursors| && Distinct(IndexNames(indexes)) && Distinct(CursorNames(cursors))
    requires (forall x <- indexes :: ValidIndex(x)) && forall c <- cursors :: Matches(indexes, c)
    ensures OneToOne(indexes, cursors)
  {
    forall c <- cursors ensures HasPair(indexes, c) {
      assert Matches(indexes, c);
      var x :| x in indexes && x.projection == c.projection && x.position == c.position
               && x.resume.Some? && x.resume.value.token == c.token;
      assert Pair(x, c);
    }
    NamesCovered(indexes, cursors);
    forall x <- indexes ensures x.resume.Some? && x.resume.value in cursors && Pair(x, x.resume.value) {
      CursorFor(indexes, cursors, x);
    }
  }

  lemma NamesCovered(indexes: seq<IndexRevision>, cursors: seq<LiveCursor>)
    requires |indexes| == |cursors| && Distinct(CursorNames(cursors))
    requires forall c <- cursors :: HasPair(indexes, c)
    ensures forall p <- IndexNames(indexes) :: p in CursorNames(cursors)
  {
    forall p <- CursorNames(cursors) ensures p in IndexNames(indexes) {
      var j :| 0 <= j < |cursors| && CursorNames(cursors)[j] == p;
      assert cursors[j] in cursors && HasPair(indexes, cursors[j]);
      var x :| x in indexes && Pair(x, cursors[j]);
      var i :| 0 <= i < |indexes| && indexes[i] == x;
      assert IndexNames(indexes)[i] == p;
    }
    Pigeonhole(CursorNames(cursors), IndexNames(indexes));
  }

  lemma CursorFor(indexes: seq<IndexRevision>, cursors: seq<LiveCursor>, x: IndexRevision)
    requires Distinct(IndexNames(indexes)) && x in indexes
    requires forall p <- IndexNames(indexes) :: p in CursorNames(cursors)
    requires forall c <- cursors :: HasPair(indexes, c)
    ensures x.resume.Some? && x.resume.value in cursors && Pair(x, x.resume.value)
  {
    var i :| 0 <= i < |indexes| && indexes[i] == x;
    assert IndexNames(indexes)[i] in CursorNames(cursors);
    var j :| 0 <= j < |cursors| && CursorNames(cursors)[j] == x.projection;
    assert cursors[j] in cursors && HasPair(indexes, cursors[j]);
    var y :| y in indexes && Pair(y, cursors[j]);
    var k :| 0 <= k < |indexes| && indexes[k] == y;
    assert IndexNames(indexes)[k] == IndexNames(indexes)[i];
  }

  // ---------------------------------------------------------------- resuming

  function CursorValue(c: LiveCursor): Raw {
    Record(map["projection" := Str(c.projection), "position" := Str(c.position), "token" := Str(c.token)])
  }

  /** The cursors a resume request carries, or nothing when the request may not leave the client. */
  function LiveResume(values: seq<Raw>): Option<seq<LiveCursor>> {
    if |values| == 0 || |values| > MAX_LIVE_RESUME_CURSORS then None else
    var cursors := ParseAll(values, ParseLiveCursor);
    if cursors.None? || !Unique(CursorNames(cursors.value)) then None else cursors
  }

  function CursorValues(cursors: seq<LiveCursor>): (r: seq<Raw>)
    ensures |r| == |cursors| && forall i | 0 <= i < |r| :: r[i] == CursorValue(cursors[i])
  {
    seq(|cursors|, i requires 0 <= i < |cursors| => CursorValue(cursors[i]))
  }

  /** `latestCursors`: what the replica keeps for its next resume. */
  function LatestCursors(snapshot: Snapshot, live: Option<Live>): seq<LiveCursor> {
    if live.Some? then (if live.value.supported then live.value.cursors else []) else Resumes(snapshot.indexes)
  }

  lemma CursorReparses(c: LiveCursor)
    requires ValidCursor(c)
    ensures ParseLiveCursor(CursorValue(c)) == Some(c)
  {
    var v := CursorValue(c);
    assert Field(v, "projection") == Str(c.projection);
    assert Field(v, "position") == Str(c.position);
    assert Field(v, "token") == Str(c.token);
  }

  lemma ResumeAccepts(cursors: seq<LiveCursor>)
    requires 0 < |cursors| <= MAX_LIVE_RESUME_CURSORS && Distinct(CursorNames(cursors))
    requires forall c <- cursors :: ValidCursor(c)
    ensures LiveResume(CursorValues(cursors)) == Some(cursors)
  {
    forall i | 0 <= i < |cursors| ensures ParseLiveCursor(CursorValues(cursors)[i]) == Some(cursors[i]) {
      CursorReparses(cursors[i]);
    }
    assert ParseAll(CursorValues(cursors), ParseLiveCursor).value == cursors;
    UniqueMeansDistinct(CursorNames(cursors));
  }

  lemma {:induction false} ResumesValid(indexes: seq<IndexRevision>)
    requires forall x <- indexes :: ValidIndex(x)
    ensures forall c <- Resumes(indexes) :: ValidCursor(c) && c.projection in IndexNames(indexes)
  {
    if indexes != [] {
      assert indexes[0] in indexes && forall x <- indexes[1..] :: x in indexes;
      ResumesValid(indexes[1..]);
      assert IndexNames(indexes) == [indexes[0].projection] + IndexNames(indexes[1..]);
    }
  }

  lemma NamesCons(indexes: seq<IndexRevision>)
    requires indexes != [] && Distinct(IndexNames(indexes))
    ensures indexes[0].projection !in IndexNames(indexes[1..]) && Distinct(IndexNames(indexes[1..]))
  {
    assert IndexNames(indexes) == [indexes[0].projection] + IndexNames(indexes[1..]);
    DistinctCons(indexes[0].projection, IndexNames(indexes[1..]));
  }

  /** The resume cursors name indexes. */
  lemma ResumesNamed(indexes: seq<IndexRevision>, p: string)
    requires (forall x <- indexes :: ValidIndex(x)) && p in CursorNames(Resumes(indexes))
    ensures p in IndexNames(indexes)
  {
    ResumesValid(indexes);
  }

  lemma {:induction false} ResumesDistinct(indexes: seq<IndexRevision>)
    requires Distinct(IndexNames(indexes)) && forall x <- indexes :: ValidIndex(x)
    ensures Distinct(CursorNames(Resumes(indexes)))
  {
    if indexes != [] {
      var head, rest := indexes[0], indexes[1..];
      assert ValidIndex(head) by { assert head in indexes; }
      assert forall x <- rest :: ValidIndex(x) by { assert forall x <- rest :: x in indexes; }
      NamesCons(indexes);
      ResumesDistinct(rest);
      if head.resume.Some? {
        FirstResume(indexes);
        if head.projection in CursorNames(Resumes(rest)) { ResumesNamed(rest, head.projection); }
        DistinctCons(head.projection, CursorNames(Resumes(rest)));
      }
    }
  }

  lemma {:induction false} FirstResume(indexes: seq<IndexRevision>)
    requires indexes != [] && ValidIndex(indexes[0]) && indexes[0].resume.Some?
    ensures CursorNames(Resumes(indexes)) == [indexes[0].projection] + CursorNames(Resumes(indexes[1..]))
  {
  }

  /** Whatever an accepted envelope leaves the replica to resume with is accepted as a resume request. */
  lemma LatestCursorsResume(snapshot: Raw, live: Raw)
    requires ParseSnapshot(snapshot).Some? && (live.Undefined? || ParseLive(live).Some?)
    ensures var kept := LatestCursors(ParseSnapshot(snapshot).value, if live.Undefined? then None else ParseLive(live));
            kept != [] ==> LiveResume(CursorValues(kept)) == Some(kept)
  {
    var s := ParseSnapshot(snapshot).value;
    ParsedIndexes(snapshot);
    ResumesDistinct(s.indexes);
    ResumesValid(s.indexes);
    if !live.Undefined? { ParsedCursors(live); }
    var kept := LatestCursors(s, if live.Undefined? then None else ParseLive(live));
    if kept != [] { ResumeAccepts(kept); }
  }

  // ---------------------------------------------------------------- command receipts

  const COMMAND_STATES := {"in_progress", "succeeded", "succeeded_pending_projection", "atomic", "rejected",
                           "projection_failed", "expired", "unknown"}
  const COMMAND_CONSISTENCIES := {"succeeded", "eventual", "atomic"}
  const REVALIDATING_STATES := {"succeeded", "succeeded_pending_projection", "atomic", "projection_failed"}

  datatype Command =
    Command(commandId: string, causationId: string, state: string, consistency: string, revalidate: bool,
            hasProjection: bool, expects: seq<Expectation>, observations: seq<Observation>,
            records: seq<RecordRevision>)

  function ExpectationKey(e: Expectation): JsString {
    JsonKeys.Stringify([Units(e.projection), Units(e.model), Units(e.scopeToken)])
  }

  function ExpectationOf(o: Observation): Expectation { Expectation(o.projection, o.model, o.scopeToken) }

  function ObservationKey(o: Observation): JsString {
    JsonKeys.Stringify([Units(o.causationId), Units(o.projection), Units(o.model), Units(o.scopeToken)])
  }

  /** Every observation belongs to this command, was expected, and is reported once. */
  predicate Accounted(causationId: string, expects: seq<Expectation>, observations: seq<Observation>) {
    && (forall o <- observations :: o.causationId == causationId && ExpectationOf(o) in expects)
    && forall i, j | 0 <= i < j < |observations| :: observations[i] != observations[j]
  }

  lemma ExpectationKeys(e: Expectation, f: Expectation)
    ensures ExpectationKey(e) == ExpectationKey(f) <==> e == f
  {
    var a, b := [Units(e.projection), Units(e.model), Units(e.scopeToken)],
                [Units(f.projection), Units(f.model), Units(f.scopeToken)];
    JsonKeys.StringifyDistinct(a, b);
    assert a == b ==> a[0] == b[0] && a[1] == b[1] && a[2] == b[2];
    UnitsDistinct(e.projection, f.projection);
    UnitsDistinct(e.model, f.model);
    UnitsDistinct(e.scopeToken, f.scopeToken);
  }

  lemma ObservationKeys(o: Observation, p: Observation)
    ensures ObservationKey(o) == ObservationKey(p) <==> o == p
  {
    var a, b := [Units(o.causationId), Units(o.projection), Units(o.model), Units(o.scopeToken)],
                [Units(p.causationId), Units(p.projection), Units(p.model), Units(p.scopeToken)];
    JsonKeys.StringifyDistinct(a, b);
    assert a == b ==> a[0] == b[0] && a[1] == b[1] && a[2] == b[2] && a[3] == b[3];
    UnitsDistinct(o.causationId, p.causationId);
    UnitsDistinct(o.projection, p.projection);
    UnitsDistinct(o.model, p.model);
    UnitsDistinct(o.scopeToken, p.scopeToken);
  }

  /** The loop over observations, with its set of expected keys and its set of seen keys. */
  method CheckObservations(causationId: string, expects: seq<Expectation>, observations: seq<Observation>)
    returns (ok: bool)
    ensures ok <==> Accounted(causationId, expects, observations)
  {
    var expectationKeys := set e <- expects :: ExpectationKey(e);
    var seen: set<JsString> := {};
    for n := 0 to |observations|
      invariant Accounted(causationId, expects, observations[..n])
      invariant forall o :: ObservationKey(o) in seen <==> o in observations[..n]
    {
      var o := observations[n];
      var key := ObservationKey(o);
      assert ExpectationKey(ExpectationOf(o)) in expectationKeys <==> ExpectationOf(o) in expects by {
        forall e { ExpectationKeys(e, ExpectationOf(o)); }
      }
      if o.causationId != causationId || ExpectationKey(ExpectationOf(o)) !in expectationKeys {
        assert o in observations;
        return false;
      }
      if key in seen {
        assert observations[n] in observations[..n];
        return false;
      }
      forall p { ObservationKeys(p, o); }
      seen := seen + {key};
      assert observations[..n + 1] == observations[..n] + [o];
    }
    assert observations[..|observations|] == observations;
    return true;
  }

  function ParseOptionalEvidence<T>(v: Raw, parse: Raw -> Option<T>): Option<seq<T>> {
    if v.Undefined? then Some([]) else ParseEvidence(v, parse)
  }

  /** `projectionOk` stands for the parser of the projection delta, which is not part of this model. */
  function ParseCommand(v: Raw, projectionOk: Raw -> bool): Option<Command> {
    if !v.Record? || !Field(v, "state").Str? || Field(v, "state").s !in COMMAND_STATES then None else
    if !Field(v, "consistency").Str? || Field(v, "consistency").s !in COMMAND_CONSISTENCIES then None else
    var expects := ParseEvidence(Field(v, "expects"), ParseExpectation);
    var observations := ParseOptionalEvidence(Field(v, "observations"), ParseObservation);
    var records := ParseOptionalEvidence(Field(v, "records"), ParseRecordRevision);
    if expects.None? || observations.None? || records.None? then None else
    var projection, disposition := Field(v, "projection"), Field(v, "projectionDisposition");
    if !projection.Undefined? && !projectionOk(projection) then None else
    if !disposition.Undefined? && disposition != Str("revalidate") then None else
    if !IsOpaque(Field(v, "commandId")) || !IsOpaque(Field(v, "causationId")) then None else
    if !Accounted(Field(v, "causationId").s, expects.value, observations.value) then None else
    if !disposition.Undefined?
       && (!projection.Undefined? || expects.value != [] || observations.value != [] || records.value != []
           || Field(v, "state").s !in REVALIDATING_STATES) then None
    else Some(Command(Field(v, "commandId").s, Field(v, "causationId").s, Field(v, "state").s,
                      Field(v, "consistency").s, !disposition.Undefined?, !projection.Undefined?,
                      expects.value, observations.value, records.value))
  }

  ghost function Expected(observations: seq<Observation>): (r: seq<Expectation>)
    ensures |r| == |observations| && forall i | 0 <= i < |r| :: r[i] == ExpectationOf(observations[i])
  {
    seq(|observations|, i requires 0 <= i < |observations| => ExpectationOf(observations[i]))
  }

  /** Distinct observations of one command answer distinct expectations. */
  lemma {:induction false} ObservationsAnswerOnce(
    causationId: string, expects: seq<Expectation>, observations: seq<Observation>)
    requires Accounted(causationId, expects, observations)
    ensures Distinct(Expected(observations)) && |observations| <= |(set e <- expects)|
  {
    var answered := Expected(observations);
    forall i, j | 0 <= i < j < |answered| ensures answered[i] != answered[j] {
      assert observations[i] in observations && observations[j] in observations;
    }
    ElementCount(answered);
    forall e <- answered ensures e in expects {
      var i :| 0 <= i < |answered| && answered[i] == e;
      assert observations[i] in observations;
    }
    Subset(set e <- answered, set e <- expects);
  }

  /** What every accepted receipt promises the replica. */
  lemma AcceptedCommand(v: Raw, projectionOk: Raw -> bool)
    requires ParseCommand(v, projectionOk).Some?
    ensures var c := ParseCommand(v, projectionOk).value;
            && (forall o <- c.observations :: o.causationId == c.causationId && ExpectationOf(o) in c.expects)
            && Distinct(Expected(c.observations))
            && |c.observations| <= |(set e <- c.expects)| <= |c.expects| <= MAX_EVIDENCE_ITEMS
            && (c.revalidate ==> !c.hasProjection && c.expects == [] && c.observations == [] && c.records == []
                                 && c.state in REVALIDATING_STATES)
  {
    var c := ParseCommand(v, projectionOk).value;
    assert c.expects == ParseEvidence(Field(v, "expects"), ParseExpectation).value;
    ObservationsAnswerOnce(c.causationId, c.expects, c.observations);
    ElementCount(c.expects);
  }
}
