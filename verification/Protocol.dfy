/** The store as a transition system: one action is one committed transaction of
    some host, and a run is any sequence of actions of any number of hosts. Actions
    of source truth and of time leave leases, receipts and history alone and change
    rows only in the background: identity and delivery facts stay, and so do rows
    that are acknowledged or muted. */
module Protocol {
  import opened Situations
  import opened Leasing
  import opened Truth
  import F = Fallbacks

  datatype Action =
    | Reserving(claim: Claim, token: string, expires: int)
    | Confirming(token: string)
    | Acknowledging(row: nat)
    | Snoozing(row: nat, until: int)
    | Muting(row: nat)
    | MutingKind(row: nat)
    | Waking
    | Expiring
    | Upserting(batch: seq<Detection>)
    | Applying(snapshot: Snapshot)
    | ApplyingLocal(batch: seq<Detection>)
    | Resolving(kind: Kind, present: set<string>)
    | Issuing(source: Source)
    | ClaimingFallback(attempt: F.Attempt)
    | CompletingFallback(row: nat, notice: Notice)

  /** The tables after an action committed, or was rolled back, at one instant. */
  ghost function Next(db: Db, a: Action, at: int): Db
  {
    match a
    case Reserving(c, token, expires) => Reserve(db, c, token, expires).db
    case Confirming(token) => Confirm(db, token, at).db
    case Acknowledging(row) => Acknowledge(db, row, at).db
    case Snoozing(row, until) => Snooze(db, row, until, at).db
    case Muting(row) => MuteOne(db, row, at).db
    case MutingKind(row) => MuteKind(db, row, at).db
    case Waking => WakeSnoozed(db, at)
    case Expiring => ExpireLapsed(db, at)
    case Upserting(batch) => UpsertDetections(db, batch, at).db
    case Applying(n) => ApplySnapshot(db, n).db
    case ApplyingLocal(batch) => ApplyLocal(db, batch, at).db
    case Resolving(kind, present) => ResolveAbsent(db, kind, None, present, AllAbsent, at).db
    case Issuing(source) => IssueGeneration(db, source, at).db
    case ClaimingFallback(attempt) => F.ClaimNext(db, attempt).db
    case CompletingFallback(row, notice) => F.RecordOutcome(db, row, notice).db
  }

  // ---------------------------------------------------- what updates keep

  predicate Settled(state: State) { state == Resolved || state == Expired }

  /** What source truth and time may do to one row: its identity and delivery
      facts stay, acknowledged and muted rows stay as they are, and so does a
      personal occasion that was delivered once and has ended. */
  ghost predicate Background(r: Row, q: Row, delivered: bool)
  {
    && q.kind == r.kind && q.key == r.key
    && q.deliveredAt == r.deliveredAt
    && (q.exempt ==> r.exempt)
    && (q.state == r.state || q.state == Pending || Settled(q.state))
    && (r.state == Acknowledged || r.state == Muted ==> q == r)
    && (r.kind == PersonalOccasion && delivered && Settled(r.state) ==> q == r)
  }

  ghost predicate NewlyDetected(q: Row)
  {
    q.deliveredAt == None && !q.exempt && (q.state == Pending || Settled(q.state))
  }

  ghost predicate KeysDistinct(rows: seq<Row>)
  {
    forall i, j :: 0 <= i < j < |rows| ==> rows[i].key != rows[j].key
  }

  /** An update that touches neither leases, receipts nor history. */
  ghost predicate BackgroundStep(db: Db, e: Db)
  {
    && e.leases == db.leases && e.receipts == db.receipts && e.history == db.history
    && e.fallbacks == db.fallbacks && e.mutes == db.mutes
    && |db.rows| <= |e.rows| && |e.rows| <= (if |db.rows| <= MAX_ROWS then MAX_ROWS else |db.rows|)
    && (forall i :: 0 <= i < |db.rows| ==> Background(db.rows[i], e.rows[i], HasHistory(db.history, i)))
    && (forall i :: |db.rows| <= i < |e.rows| ==> NewlyDetected(e.rows[i]))
    && (KeysDistinct(db.rows) ==> KeysDistinct(e.rows))
  }

  lemma {:induction false} BackgroundChains(a: Db, b: Db, c: Db)
    requires BackgroundStep(a, b) && BackgroundStep(b, c)
    requires forall k :: 0 <= k < |a.history| ==> a.history[k].row < |a.rows|
    ensures BackgroundStep(a, c)
  {
    forall i | 0 <= i < |a.rows| ensures Background(a.rows[i], c.rows[i], HasHistory(a.history, i)) {
      assert Background(a.rows[i], b.rows[i], HasHistory(a.history, i));
      assert Background(b.rows[i], c.rows[i], HasHistory(b.history, i));
    }
    forall i | |a.rows| <= i < |c.rows| ensures NewlyDetected(c.rows[i]) {
      if i < |b.rows| {
        assert NewlyDetected(b.rows[i]);
        assert Background(b.rows[i], c.rows[i], HasHistory(b.history, i));
      }
    }
  }

  lemma {:induction false} ReplaceIsBackground(db: Db, i: nat, q: Row)
    requires i < |db.rows| && Background(db.rows[i], q, HasHistory(db.history, i))
    ensures BackgroundStep(db, db.(rows := db.rows[i := q]))
  {
    var rows := db.rows[i := q];
    forall k | 0 <= k < |rows| ensures rows[k].key == db.rows[k].key {}
  }

  lemma {:induction false} AppendIsBackground(db: Db, q: Row)
    requires NewlyDetected(q) && |db.rows| < MAX_ROWS
    requires forall i :: 0 <= i < |db.rows| ==> db.rows[i].key != q.key
    ensures BackgroundStep(db, db.(rows := db.rows + [q]))
  {
  }

  lemma {:induction false} UpsertOneIsBackground(db: Db, d: Detection, s: Stamp)
    ensures BackgroundStep(db, UpsertOne(db, d, s))
  {
    var found := FindKey(db.rows, d.key);
    match Verdict(db, d)
    case Created => AppendIsBackground(db, NewRow(d, s));
    case Reactivated => ReplaceIsBackground(db, found.value, ReactivateRow(db.rows[found.value], d, s));
    case Refreshed => ReplaceIsBackground(db, found.value, RefreshRow(db.rows[found.value], d, s));
    case Skipped =>
    case CapacitySkipped =>
  }

  ghost predicate HistoryInTable(db: Db)
  {
    forall k :: 0 <= k < |db.history| ==> db.history[k].row < |db.rows|
  }

  lemma {:induction false} UpsertBatchIsBackground(db: Db, batch: seq<Detection>, expected: Option<Kind>, s: Stamp)
    requires HistoryInTable(db)
    ensures BackgroundStep(db, UpsertBatch(db, batch, expected, s).db)
  {
    if batch != [] {
      var front := batch[..|batch| - 1];
      var d := batch[|batch| - 1];
      UpsertBatchIsBackground(db, front, expected, s);
      var before := UpsertBatch(db, front, expected, s);
      UpsertOneIsBackground(before.db, d, s);
      BackgroundChains(db, before.db, UpsertOne(before.db, d, s));
    }
  }

  lemma {:induction false} RowsAreBackground(db: Db, rows: seq<Row>)
    requires |rows| == |db.rows|
    requires forall i :: 0 <= i < |rows| ==> Background(db.rows[i], rows[i], HasHistory(db.history, i))
    ensures BackgroundStep(db, db.(rows := rows))
  {
    forall i | 0 <= i < |rows| ensures rows[i].key == db.rows[i].key {
      assert Background(db.rows[i], rows[i], HasHistory(db.history, i));
    }
  }

  lemma {:induction false} ResolveRowIsBackground(r: Row, at: int, delivered: bool)
    requires Active(r.state)
    ensures Background(r, ResolveRow(r, at), delivered)
  {
  }

  lemma {:induction false} SameIsBackground(r: Row, delivered: bool)
    ensures Background(r, r, delivered)
  {
  }

  lemma {:induction false} ResolveIsBackground(
    db: Db, kind: Kind, origin: Option<Origin>, present: set<string>, scope: Scope, at: int)
    ensures BackgroundStep(db, ResolveAbsent(db, kind, origin, present, scope, at).db)
  {
    var rows := ResolveRows(db.rows, kind, origin, present, scope, at);
    forall i | 0 <= i < |rows| ensures Background(db.rows[i], rows[i], HasHistory(db.history, i)) {
      var r := db.rows[i];
      if Resolvable(r, kind, origin, present, scope) {
        ResolveRowIsBackground(r, at, HasHistory(db.history, i));
      } else {
        SameIsBackground(r, HasHistory(db.history, i));
      }
    }
    RowsAreBackground(db, rows);
  }

  lemma {:induction false} WakeIsBackground(db: Db, at: int)
    ensures BackgroundStep(db, WakeSnoozed(db, at))
  {
    RowsAreBackground(db, WakeSnoozed(db, at).rows);
  }

  lemma {:induction false} ExpireIsBackground(db: Db, at: int)
    ensures BackgroundStep(db, ExpireLapsed(db, at))
  {
    RowsAreBackground(db, ExpireLapsed(db, at).rows);
  }

  lemma {:induction false} SyncIsBackground(db: Db, n: Snapshot)
    ensures BackgroundStep(db, RecordSync(db, n))
  {
    assert RecordSync(db, n) == db.(sync := RecordSync(db, n).sync);
  }

  lemma {:induction false} AcceptIsBackground(db: Db, n: Snapshot)
    ensures BackgroundStep(db, AcceptWithDiagnostics(db, n).db)
  {
    var e := AcceptWithDiagnostics(db, n).db;
    assert e == db.(generations := e.generations, diagnostics := e.diagnostics);
  }

  /** The tables after each stage of an application that raises no error. */
  ghost function UpsertedTables(db: Db, n: Snapshot): Db
  {
    UpsertBatch(AcceptWithDiagnostics(db, n).db, n.batch, Some(SourceKind(n.source)), SnapshotStamp(n)).db
  }

  ghost function ResolvedTables(db: Db, n: Snapshot): Db
  {
    ResolveAbsent(UpsertedTables(db, n), SourceKind(n.source), Some(FromSource(n.source)),
                  Keys(n.batch), AllowedScope(n), n.at).db
  }

  lemma {:induction false} SnapshotTables(db: Db, n: Snapshot)
    ensures ApplySnapshot(db, n).result.Err? ==> ApplySnapshot(db, n).db == db
    ensures ApplySnapshot(db, n).result.Ok? ==>
      && AcceptWithDiagnostics(db, n).result.Ok?
      && ApplySnapshot(db, n).db == RecordSync(ResolvedTables(db, n), n)
  {
  }

  lemma {:induction false} UpsertedIsBackground(db: Db, n: Snapshot)
    requires HistoryInTable(db)
    ensures BackgroundStep(db, UpsertedTables(db, n))
  {
    var accepted := AcceptWithDiagnostics(db, n).db;
    AcceptIsBackground(db, n);
    UpsertBatchIsBackground(accepted, n.batch, Some(SourceKind(n.source)), SnapshotStamp(n));
    BackgroundChains(db, accepted, UpsertedTables(db, n));
  }

  lemma {:induction false} ResolvedIsBackground(db: Db, n: Snapshot)
    requires HistoryInTable(db)
    ensures BackgroundStep(db, ResolvedTables(db, n))
  {
    UpsertedIsBackground(db, n);
    ResolveIsBackground(UpsertedTables(db, n), SourceKind(n.source), Some(FromSource(n.source)),
                        Keys(n.batch), AllowedScope(n), n.at);
    BackgroundChains(db, UpsertedTables(db, n), ResolvedTables(db, n));
  }

  lemma {:induction false} SnapshotIsBackground(db: Db, n: Snapshot)
    requires HistoryInTable(db)
    ensures BackgroundStep(db, ApplySnapshot(db, n).db)
  {
    SnapshotTables(db, n);
    if ApplySnapshot(db, n).result.Ok? {
      var resolved := ResolvedTables(db, n);
      ResolvedIsBackground(db, n);
      SyncIsBackground(resolved, n);
      BackgroundChains(db, resolved, RecordSync(resolved, n));
    } else {
      NoBackground(db);
    }
  }

  lemma {:induction false} NoBackground(db: Db)
    ensures BackgroundStep(db, db)
  {
  }

  lemma {:induction false} LocalIsBackground(db: Db, batch: seq<Detection>, at: int)
    requires HistoryInTable(db)
    ensures BackgroundStep(db, ApplyLocal(db, batch, at).db)
  {
    var s := Stamp(Memory, None, at);
    var upserted := UpsertBatch(db, batch, Some(PersonalOccasion), s);
    if upserted.result.Ok? {
      UpsertBatchIsBackground(db, batch, Some(PersonalOccasion), s);
      ResolveIsBackground(upserted.db, PersonalOccasion, Some(Memory), Keys(batch), AllAbsent, at);
      BackgroundChains(db, upserted.db,
        ResolveAbsent(upserted.db, PersonalOccasion, Some(Memory), Keys(batch), AllAbsent, at).db);
    }
  }

  predicate IsBackground(a: Action)
  {
    a.Waking? || a.Expiring? || a.Upserting? || a.Applying? || a.ApplyingLocal? || a.Resolving? || a.Issuing?
  }

  lemma {:induction false} SnapshotActions(db: Db, a: Action, at: int)
    requires HistoryInTable(db) && (a.Upserting? || a.Applying? || a.ApplyingLocal?)
    ensures BackgroundStep(db, Next(db, a, at))
  {
    match a
    case Upserting(batch) => UpsertBatchIsBackground(db, batch, None, Stamp(Local, None, at));
    case Applying(n) => SnapshotIsBackground(db, n);
    case ApplyingLocal(batch) => LocalIsBackground(db, batch, at);
  }

  lemma {:induction false} SweepingActions(db: Db, a: Action, at: int)
    requires a.Waking? || a.Expiring? || a.Resolving?
    ensures BackgroundStep(db, Next(db, a, at))
  {
    match a
    case Waking => WakeIsBackground(db, at);
    case Expiring => ExpireIsBackground(db, at);
    case Resolving(kind, present) => ResolveIsBackground(db, kind, None, present, AllAbsent, at);
  }

  lemma {:induction false} IssueIsBackground(db: Db, source: Source, at: int)
    ensures BackgroundStep(db, IssueGeneration(db, source, at).db)
  {
  }

  lemma {:induction false} BackgroundActions(db: Db, a: Action, at: int)
    requires HistoryInTable(db) && IsBackground(a)
    ensures BackgroundStep(db, Next(db, a, at))
  {
    if a.Issuing? {
      IssueIsBackground(db, a.source, at);
    } else if a.Waking? || a.Expiring? || a.Resolving? {
      SweepingActions(db, a, at);
    } else {
      SnapshotActions(db, a, at);
    }
  }
}
