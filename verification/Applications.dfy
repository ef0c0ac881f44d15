/** What the application of a snapshot leaves, told over the tables. */
module Applications {
  import opened Situations
  import opened Changes
  import opened Truth
  import opened Protocol
  import opened Upserts
  import opened Confirmations
  import S = SourceTruth

  // -------------------------------------------------------------- resolutions

  /** The row was resolved at one instant and is otherwise the same. */
  predicate ResolvedNow(r: Row, q: Row, at: int)
  {
    && q.state == Resolved && q.resolvedAt == Some(at) && q.updatedAt == at
    && SameFinding(r, q) && q.deliveredAt == r.deliveredAt && q.acknowledgedAt == r.acknowledgedAt
    && q.snoozedUntil == r.snoozedUntil && q.expiredAt == r.expiredAt && q.mutedAt == r.mutedAt
    && q.exempt == r.exempt
  }

  /** A snapshot speaks about a row: it is complete, or it is degraded and names the
      row's thread as read. */
  predicate SpeaksAbout(n: Snapshot, r: Row)
  {
    var facts := r.evidence.facts;
    || n.status == Complete
    || (n.resolveAbsent && THREAD_FACT in facts && facts[THREAD_FACT] !in n.excludedIds)
    || (!n.resolveAbsent && THREAD_FACT in facts && facts[THREAD_FACT] in n.scopeIds)
  }

  /** A row no detection names is resolved exactly when it is pending or delivered, of
      the kind and source of the snapshot, and the snapshot speaks about it. */
  lemma {:induction false} AbsentRow(db: Db, n: Snapshot, i: nat)
    requires KeysDistinct(db.rows) && HistoryInTable(db) && ApplySnapshot(db, n).result.Ok?
    requires i < |db.rows| && forall d :: d in n.batch ==> d.key != db.rows[i].key
    ensures i < |ApplySnapshot(db, n).db.rows|
    ensures var (r, q) := (db.rows[i], ApplySnapshot(db, n).db.rows[i]);
      if (r.state == Pending || r.state == Delivered)
         && r.kind == (if n.source == Gmail then ReplyDeadline else CalendarConflict)
         && r.origin == FromSource(n.source) && SpeaksAbout(n, r)
      then ResolvedNow(r, q, n.at) else q == r
  {
    S.AbsentRowsFollowScope(db, n, i);
  }

  lemma {:induction false} BatchRows(db: Db, batch: seq<Detection>, expected: Option<Kind>, s: Stamp)
    requires KeysDistinct(db.rows)
    ensures var e := UpsertBatch(db, batch, expected, s).db;
      && KeysDistinct(e.rows) && |db.rows| <= |e.rows|
      && (forall i :: 0 <= i < |db.rows| ==> e.rows[i].key == db.rows[i].key)
      && (forall i :: |db.rows| <= i < |e.rows| ==> e.rows[i].key in Keys(batch))
  {
    if batch != [] {
      var (front, d) := (batch[..|batch| - 1], batch[|batch| - 1]);
      assert batch == front + [d];
      BatchRows(db, front, expected, s);
      UpsertLast(db, front, d, expected, s);
      UpsertOneEffect(UpsertBatch(db, front, expected, s).db, d, s);
      assert Keys(front) <= Keys(batch) && d.key in Keys(batch);
    }
  }

  function Resolving(
    rows: seq<Row>, n: nat, kind: Kind, origin: Option<Origin>, present: set<string>, scope: Scope): set<nat>
    requires n <= |rows|
  {
    set i: nat | i < n && Resolvable(rows[i], kind, origin, present, scope)
  }

  lemma {:induction false} GrowsByOne(before: set<nat>, after: set<nat>, n: nat, grows: bool)
    requires n !in before && forall i: nat :: i in after <==> i in before || (i == n && grows)
    ensures |after| == |before| + (if grows then 1 else 0)
  {
    assert after == if grows then before + {n} else before;
  }

  lemma {:induction false} OneMoreRow(
    rows: seq<Row>, n: nat, kind: Kind, origin: Option<Origin>, present: set<string>, scope: Scope)
    requires n < |rows|
    ensures |Resolving(rows, n + 1, kind, origin, present, scope)| ==
      |Resolving(rows, n, kind, origin, present, scope)| +
      (if Resolvable(rows[n], kind, origin, present, scope) then 1 else 0)
  {
    GrowsByOne(
      Resolving(rows, n, kind, origin, present, scope), Resolving(rows, n + 1, kind, origin, present, scope), n,
      Resolvable(rows[n], kind, origin, present, scope));
  }

  lemma {:induction false} CountIsSize(
    rows: seq<Row>, n: nat, kind: Kind, origin: Option<Origin>, present: set<string>, scope: Scope)
    requires n <= |rows|
    ensures ResolvedCount(rows[..n], kind, origin, present, scope) == |Resolving(rows, n, kind, origin, present, scope)|
  {
    if n > 0 {
      CountIsSize(rows, n - 1, kind, origin, present, scope);
      OneMoreRow(rows, n - 1, kind, origin, present, scope);
      assert rows[..n][..n - 1] == rows[..n - 1];
    }
  }

  /** The rows an application resolved: those no detection names that changed. */
  ghost function ResolvedBy(db: Db, e: Db, batch: seq<Detection>): set<nat>
    requires |db.rows| <= |e.rows|
  {
    set i: nat | i < |db.rows| && db.rows[i].key !in Keys(batch) && e.rows[i] != db.rows[i]
  }

  lemma {:induction false} ResolvedAreAbsent(db: Db, n: Snapshot)
    requires KeysDistinct(db.rows) && HistoryInTable(db) && ApplySnapshot(db, n).result.Ok?
    ensures var (u, e) := (UpsertedTables(db, n), ApplySnapshot(db, n).db);
      && |db.rows| <= |e.rows| == |u.rows|
      && Resolving(u.rows, |u.rows|, SourceKind(n.source), Some(FromSource(n.source)), Keys(n.batch), AllowedScope(n))
         == ResolvedBy(db, e, n.batch)
  {
    var (u, e) := (UpsertedTables(db, n), ApplySnapshot(db, n).db);
    var accepted := AcceptWithDiagnostics(db, n).db;
    assert accepted.rows == db.rows;
    BatchRows(accepted, n.batch, Some(SourceKind(n.source)), SnapshotStamp(n));
    S.AppliedRows(db, n);
    forall i: nat | i < |db.rows| && db.rows[i].key !in Keys(n.batch) ensures u.rows[i] == db.rows[i] {
      S.AbsentUpserts(db, n, i);
    }
  }

  /** The count a snapshot reports is the number of rows it resolved. */
  lemma {:induction false} ResolvedAreCounted(db: Db, n: Snapshot)
    requires KeysDistinct(db.rows) && HistoryInTable(db) && ApplySnapshot(db, n).result.Ok?
    ensures |db.rows| <= |ApplySnapshot(db, n).db.rows|
    ensures ApplySnapshot(db, n).result.value.resolved == |ResolvedBy(db, ApplySnapshot(db, n).db, n.batch)|
  {
    ResolvedAreAbsent(db, n);
    var rows := UpsertedTables(db, n).rows;
    assert rows[..|rows|] == rows;
    CountIsSize(rows, |rows|, SourceKind(n.source), Some(FromSource(n.source)), Keys(n.batch), AllowedScope(n));
  }

  /** The local sweep resolves the pending and delivered occasions from memory that it
      did not find again. */
  lemma {:induction false} AbsentOccasion(db: Db, batch: seq<Detection>, at: int, i: nat)
    requires KeysDistinct(db.rows) && ApplyLocal(db, batch, at).result.Ok?
    requires i < |db.rows| && forall d :: d in batch ==> d.key != db.rows[i].key
    ensures i < |ApplyLocal(db, batch, at).db.rows|
    ensures var (r, q) := (db.rows[i], ApplyLocal(db, batch, at).db.rows[i]);
      if (r.state == Pending || r.state == Delivered) && r.kind == PersonalOccasion && r.origin == Memory
      then ResolvedNow(r, q, at) else q == r
  {
    OthersUntouched(db, batch, Some(PersonalOccasion), Stamp(Memory, None, at), i);
  }

  // -------------------------------------------------- generations and outcome

  lemma {:induction false} UpsertKeepsTables(db: Db, d: Detection, s: Stamp)
    ensures UpsertOne(db, d, s) == db.(rows := UpsertOne(db, d, s).rows)
  {
    var rows := UpsertOne(db, d, s).rows;
    match Verdict(db, d)
    case Created => assert UpsertOne(db, d, s) == db.(rows := rows);
    case Reactivated => assert UpsertOne(db, d, s) == db.(rows := rows);
    case Refreshed => assert UpsertOne(db, d, s) == db.(rows := rows);
    case Skipped =>
    case CapacitySkipped =>
  }

  lemma {:induction false} BatchKeepsTables(db: Db, batch: seq<Detection>, expected: Option<Kind>, s: Stamp)
    ensures UpsertBatch(db, batch, expected, s).db == db.(rows := UpsertBatch(db, batch, expected, s).db.rows)
  {
    if batch != [] {
      var front := batch[..|batch| - 1];
      BatchKeepsTables(db, front, expected, s);
      UpsertKeepsTables(UpsertBatch(db, front, expected, s).db, batch[|batch| - 1], s);
    }
  }

  lemma {:induction false} SyncKeepsTables(db: Db, n: Snapshot)
    ensures RecordSync(db, n) == db.(sync := RecordSync(db, n).sync)
  {
  }

  lemma {:induction false} ResolvedKeepTables(db: Db, n: Snapshot)
    ensures ResolvedTables(db, n) == AcceptWithDiagnostics(db, n).db.(rows := ResolvedTables(db, n).rows)
    ensures ResolvedTables(db, n).sync == db.sync
  {
    BatchKeepsTables(AcceptWithDiagnostics(db, n).db, n.batch, Some(SourceKind(n.source)), SnapshotStamp(n));
  }

  lemma {:induction false} AppliedTables(db: Db, n: Snapshot)
    requires ApplySnapshot(db, n).result.Ok?
    ensures var (accepted, e) := (AcceptWithDiagnostics(db, n), ApplySnapshot(db, n).db);
      && accepted.result.Ok?
      && e == accepted.db.(rows := e.rows, sync := e.sync)
      && e.sync == RecordSync(ResolvedTables(db, n), n).sync
  {
    SnapshotTables(db, n);
    ResolvedKeepTables(db, n);
    SyncKeepsTables(ResolvedTables(db, n), n);
  }

  /** A number that was issued and is newer than the applied one becomes the applied one
      with its status and instant; other sources keep theirs, the diagnostics sent along
      replace the stored ones, and every other failure changes nothing. */
  lemma {:induction false} AppliedGeneration(db: Db, n: Snapshot)
    requires ApplySnapshot(db, n).result.Ok?
    ensures var e := ApplySnapshot(db, n).db;
      && n.source in db.generations && n.source in e.generations
      && e.generations[n.source] == Progress(
           db.generations[n.source].issued, n.number, Some(n.status), db.generations[n.source].issuedAt, Some(n.at))
      && e.generations.Keys == db.generations.Keys
      && (forall other :: other in db.generations && other != n.source ==>
            e.generations[other] == db.generations[other])
      && e.diagnostics == (if n.diagnostics.Some? then n.diagnostics else db.diagnostics)
      && e.history == db.history && e.leases == db.leases && e.receipts == db.receipts
      && e.mutes == db.mutes && e.fallbacks == db.fallbacks
  {
    AppliedTables(db, n);
  }

  /** A source that never drew a number is at zero; drawing one adds one and dates it. */
  lemma {:induction false} IssuedGeneration(db: Db, source: Source, at: int)
    ensures var (step, known) := (IssueGeneration(db, source, at), source in db.generations);
      var e := step.db;
      && e == db.(generations := e.generations) && e.generations.Keys == db.generations.Keys + {source}
      && e.generations[source] == (
           if known then Progress(
             db.generations[source].issued + 1, db.generations[source].applied, db.generations[source].status,
             Some(at), db.generations[source].appliedAt)
           else Progress(1, 0, None, Some(at), None))
      && step.result == Ok(e.generations[source].issued)
      && forall other :: other in db.generations && other != source ==> e.generations[other] == db.generations[other]
  {
  }

  type SyncTable = map<Source, SyncState>

  /** Only the outcome of one source is written. */
  ghost predicate OnlySource(before: SyncTable, after: SyncTable, source: Source)
  {
    && after.Keys == before.Keys + {source}
    && forall other :: other in before && other != source ==> after[other] == before[other]
  }

  /** A success dates itself, clears the error and takes the cursor. */
  ghost predicate Succeeds(before: SyncTable, after: SyncTable, source: Source, cursor: Option<string>, at: int)
  {
    && OnlySource(before, after, source)
    && after[source].lastSuccess == Some(at) && after[source].lastAttempt == Some(at)
    && after[source].lastError == None && after[source].cursor == cursor && after[source].updatedAt == at
    && after[source].authorization == (if source in before then before[source].authorization else Configured)
  }

  /** A failure names its code and keeps the last success and its cursor. */
  ghost predicate Fails(before: SyncTable, after: SyncTable, source: Source, code: ErrorCode, at: int)
  {
    && OnlySource(before, after, source)
    && after[source].lastAttempt == Some(at) && after[source].lastError == Some(code) && after[source].updatedAt == at
    && after[source].lastSuccess == (if source in before then before[source].lastSuccess else None)
    && after[source].cursor == (if source in before then before[source].cursor else None)
    && after[source].authorization == (if source in before then before[source].authorization else Configured)
  }

  /** A revoked grant marks a source as needing a new authorization. */
  ghost predicate Revokes(before: SyncTable, after: SyncTable, source: Source, at: int)
  {
    && source in after
    && after[source].authorization == NeedsReauth && after[source].lastError == Some(InvalidGrant)
    && after[source].lastAttempt == Some(at) && after[source].updatedAt == at
    && after[source].lastSuccess == (if source in before then before[source].lastSuccess else None)
    && after[source].cursor == (if source in before then before[source].cursor else None)
  }

  lemma {:induction false} SuccessIsRecorded(db: Db, source: Source, cursor: Option<string>, at: int)
    ensures Succeeds(db.sync, RecordSuccess(db, source, cursor, at).sync, source, cursor, at)
  {
  }

  lemma {:induction false} FailureIsRecorded(db: Db, source: Source, code: ErrorCode, at: int)
    ensures Fails(db.sync, RecordFailure(db, source, code, at).sync, source, code, at)
  {
  }

  lemma {:induction false} RevocationIsRecorded(db: Db, at: int)
    ensures Revokes(db.sync, RecordInvalidGrant(db, at).sync, Gmail, at)
    ensures Revokes(db.sync, RecordInvalidGrant(db, at).sync, Calendar, at)
  {
  }

  /** Every application records its outcome for its own source: a success when it is
      complete and without an error, its error or else the degraded read as a failure,
      except that a revoked grant marks both sources, which share it. */
  lemma {:induction false} RecordedOutcome(db: Db, n: Snapshot)
    requires ApplySnapshot(db, n).result.Ok?
    ensures var after := ApplySnapshot(db, n).db.sync;
      match n.error
      case None =>
        if n.status == Complete then Succeeds(db.sync, after, n.source, n.cursor, n.at)
        else Fails(db.sync, after, n.source, DegradedRead, n.at)
      case Some(code) =>
        if code == InvalidGrant
        then Revokes(db.sync, after, Gmail, n.at) && Revokes(db.sync, after, Calendar, n.at)
        else Fails(db.sync, after, n.source, code, n.at)
  {
    var d := ResolvedTables(db, n);
    AppliedTables(db, n);
    ResolvedKeepTables(db, n);
    if n.error == Some(InvalidGrant) {
      RevocationIsRecorded(d, n.at);
    } else if n.error == None && n.status == Complete {
      SuccessIsRecorded(d, n.source, n.cursor, n.at);
    } else {
      FailureIsRecorded(d, n.source, if n.error == None then DegradedRead else n.error.value, n.at);
    }
  }

  // ------------------------------------------------------ success and failure

  /** The first detection of another kind than expected. */
  ghost predicate FirstForeign(batch: seq<Detection>, kind: Kind, j: nat)
  {
    j < |batch| && batch[j].kind != kind && forall i :: 0 <= i < j ==> batch[i].kind == kind
  }

  /** A batch that fails names the kind of its first foreign detection. */
  lemma {:induction false} ForeignKindIsNamed(db: Db, batch: seq<Detection>, kind: Kind, s: Stamp, j: nat)
    requires FirstForeign(batch, kind, j)
    ensures UpsertBatch(db, batch, Some(kind), s).result == Err(KindMismatch(kind, batch[j].kind))
  {
    var (front, d) := (batch[..|batch| - 1], batch[|batch| - 1]);
    assert batch == front + [d];
    UpsertLast(db, front, d, Some(kind), s);
    if j < |front| {
      ForeignKindIsNamed(db, front, kind, s, j);
    } else {
      BatchFailsOnForeignKind(db, front, Some(kind), s);
    }
  }

  /** The diagnostics a mailbox read may hand over. */
  ghost predicate Bounded(d: Diagnostics)
  {
    && 0 <= d.requests <= 221 && 0 <= d.pages <= 20 && 0 <= d.projected <= 200 && 0 <= d.excluded <= 2000
    && 0 <= d.byteBudget <= 8000000
    && (forall i, j :: 0 <= i < j < |d.reasons| ==> d.reasons[i].reason != d.reasons[j].reason)
    && (forall i :: 0 <= i < |d.reasons| ==> !d.reasons[i].reason.OtherText? && 0 <= d.reasons[i].count <= 200)
  }

  /** An application succeeds exactly when its diagnostics, if any, belong to the mailbox
      and are bounded, its number was issued and is newer than the applied one, and all
      its detections are of the source's kind. The first of these to fail is the error,
      and then no table changes. */
  lemma {:induction false} AppliesExactly(db: Db, n: Snapshot)
    ensures var step := ApplySnapshot(db, n);
      var (applied, issued) := if n.source in db.generations
        then (db.generations[n.source].applied, db.generations[n.source].issued) else (0, 0);
      var kind := if n.source == Gmail then ReplyDeadline else CalendarConflict;
      && (step.result.Err? ==> step.db == db)
      && if n.diagnostics.Some? && !(n.source == Gmail && Bounded(n.diagnostics.value)) then
           step.result == Err(InvalidDiagnostics)
         else if n.number <= applied then step.result == Err(DelayedGeneration(applied))
         else if n.number > issued then step.result == Err(UnreservedGeneration)
         else
           && (step.result.Ok? <==> forall d :: d in n.batch ==> d.kind == kind)
           && (forall j: nat :: FirstForeign(n.batch, kind, j) ==>
                 step.result == Err(KindMismatch(kind, n.batch[j].kind)))
  {
    SnapshotTables(db, n);
    var accepted := AcceptWithDiagnostics(db, n);
    if accepted.result.Ok? {
      BatchFailsOnForeignKind(accepted.db, n.batch, Some(SourceKind(n.source)), SnapshotStamp(n));
      forall j: nat | FirstForeign(n.batch, SourceKind(n.source), j)
        ensures ApplySnapshot(db, n).result == Err(KindMismatch(SourceKind(n.source), n.batch[j].kind))
      {
        ForeignKindIsNamed(accepted.db, n.batch, SourceKind(n.source), SnapshotStamp(n), j);
      }
    }
  }

  // ------------------------------------------------------ who wrote which row

  /** Rows that differ carry the stamp of the batch. */
  ghost predicate Stamped(before: seq<Row>, after: seq<Row>, s: Stamp)
  {
    && |before| <= |after|
    && forall i :: 0 <= i < |after| ==>
         || (i < |before| && after[i] == before[i])
         || (after[i].origin == s.origin && after[i].generation == s.generation && after[i].updatedAt == s.at)
  }

  lemma {:induction false} StampedChains(a: seq<Row>, b: seq<Row>, c: seq<Row>, s: Stamp)
    requires Stamped(a, b, s) && Stamped(b, c, s)
    ensures Stamped(a, c, s)
  {
  }

  lemma {:induction false} CarriesStamp(r: Row, d: Detection, s: Stamp)
    requires Carries(r, d, s)
    ensures r.origin == s.origin && r.generation == s.generation && r.updatedAt == s.at
  {
  }

  lemma {:induction false} UpsertStamps(db: Db, d: Detection, s: Stamp)
    requires KeysDistinct(db.rows)
    ensures Stamped(db.rows, UpsertOne(db, d, s).rows, s)
  {
    UpsertOneEffect(db, d, s);
    var e := UpsertOne(db, d, s);
    forall i | 0 <= i < |e.rows|
      ensures (i < |db.rows| && e.rows[i] == db.rows[i]) ||
        (e.rows[i].origin == s.origin && e.rows[i].generation == s.generation && e.rows[i].updatedAt == s.at)
    {
      if !(i < |db.rows| && e.rows[i] == db.rows[i]) { CarriesStamp(e.rows[i], d, s); }
    }
  }

  lemma {:induction false} BatchStamps(db: Db, batch: seq<Detection>, expected: Option<Kind>, s: Stamp)
    requires KeysDistinct(db.rows)
    ensures Stamped(db.rows, UpsertBatch(db, batch, expected, s).db.rows, s)
  {
    if batch != [] {
      var (front, d) := (batch[..|batch| - 1], batch[|batch| - 1]);
      assert batch == front + [d];
      var before := UpsertBatch(db, front, expected, s).db;
      BatchStamps(db, front, expected, s);
      BatchKeepsKeys(db, front, expected, s);
      UpsertLast(db, front, d, expected, s);
      UpsertStamps(before, d, s);
      StampedChains(db.rows, before.rows, UpsertOne(before, d, s).rows, s);
    }
  }

  /** A row was written by a source, by hand or by the memory sweep, at one instant. */
  predicate WrittenBy(r: Row, origin: Origin, generation: Option<nat>, at: int)
  {
    r.origin == origin && r.generation == generation && r.updatedAt == at
  }

  lemma {:induction false} ResolutionSigns(db: Db, u: Db, n: Snapshot, present: set<string>, scope: Scope, i: nat)
    requires Stamped(db.rows, u.rows, SnapshotStamp(n)) && i < |u.rows|
    ensures var q :=
        ResolveRows(u.rows, SourceKind(n.source), Some(FromSource(n.source)), present, scope, n.at)[i];
      || (i < |db.rows| && q == db.rows[i])
      || WrittenBy(q, FromSource(n.source), Some(n.number), n.at)
      || (i < |db.rows| && db.rows[i].origin == FromSource(n.source) && ResolvedNow(db.rows[i], q, n.at))
  {
  }

  /** An application leaves each row as it was or writes it under its source, number and
      instant; a row it resolves was its own before. */
  lemma {:induction false} SnapshotSigns(db: Db, n: Snapshot, i: nat)
    requires KeysDistinct(db.rows) && ApplySnapshot(db, n).result.Ok? && i < |ApplySnapshot(db, n).db.rows|
    ensures |db.rows| <= |ApplySnapshot(db, n).db.rows|
    ensures var q := ApplySnapshot(db, n).db.rows[i];
      || (i < |db.rows| && q == db.rows[i])
      || WrittenBy(q, FromSource(n.source), Some(n.number), n.at)
      || (i < |db.rows| && db.rows[i].origin == FromSource(n.source) && ResolvedNow(db.rows[i], q, n.at))
  {
    assert AcceptWithDiagnostics(db, n).db.rows == db.rows;
    BatchStamps(AcceptWithDiagnostics(db, n).db, n.batch, Some(SourceKind(n.source)), SnapshotStamp(n));
    S.AppliedRows(db, n);
    ResolutionSigns(db, UpsertedTables(db, n), n, Keys(n.batch), AllowedScope(n), i);
  }

  /** The memory sweep writes under memory, or resolves what memory had found; it succeeds
      exactly when all its detections are personal occasions. */
  lemma {:induction false} OccasionsSign(db: Db, batch: seq<Detection>, at: int)
    requires KeysDistinct(db.rows)
    ensures var step := ApplyLocal(db, batch, at);
      && (step.result.Ok? <==> forall d :: d in batch ==> d.kind == PersonalOccasion)
      && (step.result.Err? ==> step.db == db)
      && |db.rows| <= |step.db.rows|
      && forall i :: 0 <= i < |step.db.rows| ==>
           || (i < |db.rows| && step.db.rows[i] == db.rows[i])
           || WrittenBy(step.db.rows[i], Memory, None, at)
           || (i < |db.rows| && db.rows[i].origin == Memory && ResolvedNow(db.rows[i], step.db.rows[i], at))
  {
    BatchStamps(db, batch, Some(PersonalOccasion), Stamp(Memory, None, at));
    BatchFailsOnForeignKind(db, batch, Some(PersonalOccasion), Stamp(Memory, None, at));
  }

  /** Detections entered by hand may be of any kind and are signed as local. */
  lemma {:induction false} LocalDetectionsSign(db: Db, batch: seq<Detection>, at: int)
    requires KeysDistinct(db.rows)
    ensures var step := UpsertDetections(db, batch, at);
      && step.result.Ok?
      && |db.rows| <= |step.db.rows|
      && forall i :: 0 <= i < |step.db.rows| ==>
           (i < |db.rows| && step.db.rows[i] == db.rows[i]) || WrittenBy(step.db.rows[i], Local, None, at)
  {
    BatchStamps(db, batch, None, Stamp(Local, None, at));
    BatchFailsOnForeignKind(db, batch, None, Stamp(Local, None, at));
  }

  /** Resolving a kind by hand takes every pending or delivered row of it, of any origin,
      whose key is not among those present. */
  lemma {:induction false} AbsentOfKind(db: Db, kind: Kind, present: set<string>, at: int, i: nat)
    requires i < |db.rows|
    ensures var e := ResolveAbsent(db, kind, None, present, AllAbsent, at).db;
      && e == db.(rows := e.rows) && |e.rows| == |db.rows|
      && var (r, q) := (db.rows[i], e.rows[i]);
         if (r.state == Pending || r.state == Delivered) && r.kind == kind && r.key !in present
         then ResolvedNow(r, q, at) else q == r
  {
  }
}
