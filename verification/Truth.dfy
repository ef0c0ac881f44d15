/** Source truth: numbered snapshots, detection upserts and the resolutions a
    snapshot allows. */
module Truth {
  import opened Situations

  const MAX_ROWS: nat := 10000
  const MAX_RECORD_BYTES: nat := 16 * 1024

  /** A detector finding; `size` is the byte length of its serialized record. */
  datatype Detection = Detection(
    kind: Kind, key: string, priority: Priority, title: string, whyNow: string,
    evidence: Evidence, expiresAt: Option<int>, size: nat)

  datatype Upserted = Created | Reactivated | Refreshed | Skipped | CapacitySkipped
  datatype Summary = Summary(
    created: nat, reactivated: nat, refreshed: nat, skipped: nat, capacitySkipped: nat)
  datatype ApplySummary = ApplySummary(upsert: Summary, resolved: nat)

  const NOTHING: Summary := Summary(0, 0, 0, 0, 0)

  /** The provenance a batch stamps on the rows it writes. */
  datatype Stamp = Stamp(origin: Origin, generation: Option<nat>, at: int)

  // ----------------------------------------------------------------- upserts

  /** The row of a dedupe key, which the table declares UNIQUE. */
  ghost function FindKey(rows: seq<Row>, key: string): (found: Option<nat>)
    ensures found.Some? ==> found.value < |rows| && rows[found.value].key == key
    ensures found.None? ==> forall i :: 0 <= i < |rows| ==> rows[i].key != key
  {
    if exists i: nat :: i < |rows| && rows[i].key == key
    then (var i: nat :| i < |rows| && rows[i].key == key; Some(i))
    else None
  }

  function NewRow(d: Detection, s: Stamp): Row
  {
    Row(d.kind, s.origin, s.generation, d.key, Pending, d.priority, d.title, d.whyNow, d.evidence,
        d.expiresAt, s.at, s.at, None, None, None, None, None, None, false)
  }

  function RefreshRow(r: Row, d: Detection, s: Stamp): Row
  {
    r.(priority := d.priority, title := d.title, whyNow := d.whyNow, evidence := d.evidence,
       expiresAt := d.expiresAt, origin := s.origin, generation := s.generation, updatedAt := s.at)
  }

  function ReactivateRow(r: Row, d: Detection, s: Stamp): Row
  {
    RefreshRow(r, d, s).(state := Pending, detectedAt := s.at, resolvedAt := None,
                         expiredAt := None, snoozedUntil := None, exempt := false)
  }

  /** What one detection does to the table. */
  ghost function Verdict(db: Db, d: Detection): Upserted
  {
    var found := FindKey(db.rows, d.key);
    if d.size > MAX_RECORD_BYTES || (found.None? && |db.rows| >= MAX_ROWS) then CapacitySkipped
    else if found.None? then Created
    else
      var r := db.rows[found.value];
      if r.state == Resolved || r.state == Expired then
        if r.kind == PersonalOccasion && HasHistory(db.history, found.value) then Skipped
        else Reactivated
      else if r.state == Pending || r.state == Delivered || r.state == Snoozed then Refreshed
      else Skipped
  }

  ghost function UpsertOne(db: Db, d: Detection, s: Stamp): Db
  {
    var found := FindKey(db.rows, d.key);
    match Verdict(db, d)
    case Created => db.(rows := db.rows + [NewRow(d, s)])
    case Reactivated =>
      assert found.Some?;
      db.(rows := db.rows[found.value := ReactivateRow(db.rows[found.value], d, s)])
    case Refreshed =>
      assert found.Some?;
      db.(rows := db.rows[found.value := RefreshRow(db.rows[found.value], d, s)])
    case Skipped => db
    case CapacitySkipped => db
  }

  function Tally(sum: Summary, verdict: Upserted): Summary
  {
    match verdict
    case Created => sum.(created := sum.created + 1)
    case Reactivated => sum.(reactivated := sum.reactivated + 1)
    case Refreshed => sum.(refreshed := sum.refreshed + 1)
    case Skipped => sum.(skipped := sum.skipped + 1)
    case CapacitySkipped =>
      sum.(skipped := sum.skipped + 1, capacitySkipped := sum.capacitySkipped + 1)
  }

  ghost function UpsertBatch(db: Db, batch: seq<Detection>, expected: Option<Kind>, s: Stamp): Step<Summary>
  {
    if batch == [] then Step(db, Ok(NOTHING))
    else
      var before := UpsertBatch(db, batch[..|batch| - 1], expected, s);
      var d := batch[|batch| - 1];
      if before.result.Err? then before
      else if expected.Some? && d.kind != expected.value
      then Step(before.db, Err(KindMismatch(expected.value, d.kind)))
      else Step(UpsertOne(before.db, d, s), Ok(Tally(before.result.value, Verdict(before.db, d))))
  }

  function Keys(batch: seq<Detection>): set<string>
  {
    set d | d in batch :: d.key
  }

  // -------------------------------------------------------------- resolutions

  /** Which absent rows one application may resolve. */
  datatype Scope =
    | AllAbsent
    | ThreadsOutside(ids: set<string>)
    | ThreadsInside(ids: set<string>)
    | NoResolution

  const THREAD_FACT: string := "thread_id"

  predicate InScope(scope: Scope, r: Row)
  {
    var facts := r.evidence.facts;
    match scope
    case AllAbsent => true
    case ThreadsOutside(ids) => THREAD_FACT in facts && facts[THREAD_FACT] !in ids
    case ThreadsInside(ids) => THREAD_FACT in facts && facts[THREAD_FACT] in ids
    case NoResolution => false
  }

  predicate Resolvable(r: Row, kind: Kind, origin: Option<Origin>, present: set<string>, scope: Scope)
  {
    && Active(r.state)
    && r.kind == kind
    && (origin.Some? ==> r.origin == origin.value)
    && r.key !in present
    && InScope(scope, r)
  }

  function ResolveRows(
    rows: seq<Row>, kind: Kind, origin: Option<Origin>, present: set<string>, scope: Scope, at: int
  ): seq<Row>
  {
    seq(|rows|, i requires 0 <= i < |rows| =>
      if Resolvable(rows[i], kind, origin, present, scope) then ResolveRow(rows[i], at) else rows[i])
  }

  function ResolvedCount(
    rows: seq<Row>, kind: Kind, origin: Option<Origin>, present: set<string>, scope: Scope
  ): nat
  {
    if rows == [] then 0
    else
      ResolvedCount(rows[..|rows| - 1], kind, origin, present, scope) +
      (if Resolvable(rows[|rows| - 1], kind, origin, present, scope) then 1 else 0)
  }

  function ResolveAbsent(
    db: Db, kind: Kind, origin: Option<Origin>, present: set<string>, scope: Scope, at: int
  ): Step<nat>
  {
    Step(db.(rows := ResolveRows(db.rows, kind, origin, present, scope, at)),
         Ok(ResolvedCount(db.rows, kind, origin, present, scope)))
  }

  // -------------------------------------------------------------- generations

  function ProgressOf(db: Db, source: Source): Progress
  {
    if source in db.generations then db.generations[source] else Progress(0, 0, None, None, None)
  }

  function IssueGeneration(db: Db, source: Source, at: int): Step<nat>
  {
    var p := ProgressOf(db, source);
    var q := p.(issued := p.issued + 1, issuedAt := Some(at));
    Step(db.(generations := db.generations[source := q]), Ok(q.issued))
  }

  function AcceptGeneration(db: Db, source: Source, number: nat, status: Completeness, at: int): Step<()>
  {
    var p := ProgressOf(db, source);
    if source in db.generations && number <= p.issued && p.applied < number then
      var q := p.(applied := number, status := Some(status), appliedAt := Some(at));
      Step(db.(generations := db.generations[source := q]), Ok(()))
    else if number <= p.applied then Step(db, Err(DelayedGeneration(p.applied)))
    else Step(db, Err(UnreservedGeneration))
  }

  // -------------------------------------------------------------- diagnostics

  const BYTE_BUDGET: int := 8000000
  const MAX_REQUESTS: int := 221
  const MAX_PAGES: int := 20
  const MAX_PROJECTED: int := 200
  const MAX_EXCLUDED: int := 2000
  const MAX_REASON_COUNT: int := 200

  predicate WithinLimits(d: Diagnostics)
  {
    && 0 <= d.requests <= MAX_REQUESTS
    && 0 <= d.pages <= MAX_PAGES
    && 0 <= d.projected <= MAX_PROJECTED
    && 0 <= d.excluded <= MAX_EXCLUDED
    && 0 <= d.byteBudget <= BYTE_BUDGET
    && (forall i, j :: 0 <= i < j < |d.reasons| ==> d.reasons[i].reason != d.reasons[j].reason)
    && (forall i :: 0 <= i < |d.reasons| ==>
          !d.reasons[i].reason.OtherText? && 0 <= d.reasons[i].count <= MAX_REASON_COUNT)
  }

  // --------------------------------------------------------------- sync state

  function RecordSuccess(db: Db, source: Source, cursor: Option<string>, at: int): Db
  {
    var next :=
      if source in db.sync then
        db.sync[source].(lastSuccess := Some(at), lastAttempt := Some(at), lastError := None,
                         cursor := cursor, updatedAt := at)
      else SyncState(Configured, Some(at), Some(at), None, cursor, at);
    db.(sync := db.sync[source := next])
  }

  function RecordFailure(db: Db, source: Source, code: ErrorCode, at: int): Db
  {
    var next :=
      if source in db.sync then
        db.sync[source].(lastAttempt := Some(at), lastError := Some(code), updatedAt := at)
      else SyncState(Configured, None, Some(at), Some(code), None, at);
    db.(sync := db.sync[source := next])
  }

  function RevokedState(db: Db, source: Source, at: int): SyncState
  {
    if source in db.sync then
      db.sync[source].(authorization := NeedsReauth, lastAttempt := Some(at),
                       lastError := Some(InvalidGrant), updatedAt := at)
    else SyncState(NeedsReauth, None, Some(at), Some(InvalidGrant), None, at)
  }

  function RecordInvalidGrant(db: Db, at: int): Db
  {
    db.(sync := db.sync[Gmail := RevokedState(db, Gmail, at)][Calendar := RevokedState(db, Calendar, at)])
  }

  // ------------------------------------------------------- whole applications

  /** One numbered source result with everything its application needs. */
  datatype Snapshot = Snapshot(
    source: Source, number: nat, batch: seq<Detection>, status: Completeness,
    cursor: Option<string>, error: Option<ErrorCode>, diagnostics: Option<Diagnostics>,
    resolveAbsent: bool, scopeIds: set<string>, excludedIds: set<string>, at: int)

  function SourceKind(source: Source): Kind
  {
    match source
    case Gmail => ReplyDeadline
    case Calendar => CalendarConflict
  }

  function AllowedScope(n: Snapshot): Scope
  {
    if n.status == Complete then AllAbsent
    else if n.resolveAbsent then ThreadsOutside(n.excludedIds)
    else if n.scopeIds != {} then ThreadsInside(n.scopeIds)
    else NoResolution
  }

  function AcceptWithDiagnostics(db: Db, n: Snapshot): Step<()>
  {
    if n.diagnostics.Some? && (n.source != Gmail || !WithinLimits(n.diagnostics.value))
    then Step(db, Err(InvalidDiagnostics))
    else
      var accepted := AcceptGeneration(db, n.source, n.number, n.status, n.at);
      if accepted.result.Err? || n.diagnostics.None? then accepted
      else Step(accepted.db.(diagnostics := n.diagnostics), accepted.result)
  }

  function RecordSync(db: Db, n: Snapshot): Db
  {
    if n.error.None? then
      if n.status == Complete then RecordSuccess(db, n.source, n.cursor, n.at)
      else RecordFailure(db, n.source, DegradedRead, n.at)
    else if n.error.value == InvalidGrant then RecordInvalidGrant(db, n.at)
    else RecordFailure(db, n.source, n.error.value, n.at)
  }

  function SnapshotStamp(n: Snapshot): Stamp
  {
    Stamp(FromSource(n.source), Some(n.number), n.at)
  }

  ghost function ApplyInside(db: Db, n: Snapshot): Step<ApplySummary>
  {
    var accepted := AcceptWithDiagnostics(db, n);
    if accepted.result.Err? then Step(accepted.db, Err(accepted.result.error))
    else
      var kind := SourceKind(n.source);
      var upserted := UpsertBatch(accepted.db, n.batch, Some(kind), SnapshotStamp(n));
      if upserted.result.Err? then Step(upserted.db, Err(upserted.result.error))
      else
        var resolved := ResolveAbsent(
          upserted.db, kind, Some(FromSource(n.source)), Keys(n.batch), AllowedScope(n), n.at);
        Step(RecordSync(resolved.db, n), Ok(ApplySummary(upserted.result.value, resolved.result.value)))
  }

  ghost function ApplySnapshot(db: Db, n: Snapshot): Step<ApplySummary>
  {
    Atomically(db, ApplyInside(db, n))
  }

  ghost function LocalInside(db: Db, batch: seq<Detection>, at: int): Step<ApplySummary>
  {
    var upserted := UpsertBatch(db, batch, Some(PersonalOccasion), Stamp(Memory, None, at));
    if upserted.result.Err? then Step(upserted.db, Err(upserted.result.error))
    else
      var resolved := ResolveAbsent(upserted.db, PersonalOccasion, Some(Memory), Keys(batch), AllAbsent, at);
      Step(resolved.db, Ok(ApplySummary(upserted.result.value, resolved.result.value)))
  }

  ghost function ApplyLocal(db: Db, batch: seq<Detection>, at: int): Step<ApplySummary>
  {
    Atomically(db, LocalInside(db, batch, at))
  }

  ghost function UpsertDetections(db: Db, batch: seq<Detection>, at: int): Step<Summary>
  {
    Atomically(db, UpsertBatch(db, batch, None, Stamp(Local, None, at)))
  }
}
