/** Applying numbered snapshots: exactly when one is accepted, which rows it
    resolves, and why an older snapshot never overwrites a newer one. */
module SourceTruth {
  import opened Situations
  import opened Leasing
  import opened Truth
  import opened Protocol
  import opened Upserts
  import opened Confirmations
  import opened Runs
  import F = Fallbacks

  // ---------------------------------------------------------------- acceptance

  /** A generation is accepted exactly when it was issued and is newer than the
      applied one; a delayed one is told apart from one never issued. */
  lemma {:induction false} AcceptsExactly(db: Db, source: Source, number: nat, status: Completeness, at: int)
    ensures var p := ProgressOf(db, source);
      var step := AcceptGeneration(db, source, number, status, at);
      && (step.result.Ok? <==> p.applied < number <= p.issued)
      && (step.result == Err(DelayedGeneration(p.applied)) <==> number <= p.applied)
      && (step.result == Err(UnreservedGeneration) <==> number > p.applied && number > p.issued)
      && (step.result.Err? ==> step.db == db)
      && (step.result.Ok? ==> ProgressOf(step.db, source).applied == number && ProgressOf(step.db, source).issued == p.issued)
  {
  }

  // ---------------------------------------------------------------- resolution

  /** The content an application leaves on a row no detection names. */
  function AbsentRow(r: Row, n: Snapshot): Row
  {
    if Resolvable(r, SourceKind(n.source), Some(FromSource(n.source)), Keys(n.batch), AllowedScope(n))
    then ResolveRow(r, n.at) else r
  }

  /** The rows a successful application leaves: upserts first, then resolutions. */
  lemma {:induction false} AppliedRows(db: Db, n: Snapshot)
    requires ApplySnapshot(db, n).result.Ok?
    ensures ApplySnapshot(db, n).db.rows
      == ResolveRows(UpsertedTables(db, n).rows, SourceKind(n.source), Some(FromSource(n.source)),
                     Keys(n.batch), AllowedScope(n), n.at)
    ensures ApplySnapshot(db, n).db.generations == UpsertedTables(db, n).generations
  {
    SnapshotTables(db, n);
  }

  /** A successful application decides every row whose key is absent by the scope
      alone: complete snapshots resolve all of their active rows, degraded ones
      only rows with a known thread outside the excluded ids, or inside the scope
      ids, and none when neither is given. */
  lemma {:induction false} AbsentRowsFollowScope(db: Db, n: Snapshot, i: nat)
    requires KeysDistinct(db.rows) && HistoryInTable(db) && i < |db.rows| && db.rows[i].key !in Keys(n.batch)
    requires ApplySnapshot(db, n).result.Ok?
    ensures i < |ApplySnapshot(db, n).db.rows|
    ensures ApplySnapshot(db, n).db.rows[i] == AbsentRow(db.rows[i], n)
  {
    AppliedRows(db, n);
    AbsentUpserts(db, n, i);
  }

  lemma {:induction false} AbsentUpserts(db: Db, n: Snapshot, i: nat)
    requires KeysDistinct(db.rows) && i < |db.rows| && db.rows[i].key !in Keys(n.batch)
    ensures i < |UpsertedTables(db, n).rows| && UpsertedTables(db, n).rows[i] == db.rows[i]
  {
    var accepted := AcceptWithDiagnostics(db, n).db;
    assert accepted.rows == db.rows;
    OthersUntouched(accepted, n.batch, Some(SourceKind(n.source)), SnapshotStamp(n), i);
  }

  lemma {:induction false} ApplyKeepsNamedRows(db: Db, n: Snapshot)
    requires ApplySnapshot(db, n).result.Ok?
    ensures var u := UpsertedTables(db, n).rows;
      var e := ApplySnapshot(db, n).db.rows;
      |e| == |u| && forall i :: 0 <= i < |u| ==> e[i].key == u[i].key && (u[i].key in Keys(n.batch) ==> e[i] == u[i])
  {
    AppliedRows(db, n);
  }

  /** After a complete application every active row of the source and its kind has
      its key in the snapshot. */
  lemma {:induction false} CompleteLeavesOnlyPresentKeys(db: Db, n: Snapshot, i: nat)
    requires ApplySnapshot(db, n).result.Ok? && n.status == Complete
    requires var e := ApplySnapshot(db, n).db.rows;
      i < |e| && Active(e[i].state) && e[i].kind == SourceKind(n.source) && e[i].origin == FromSource(n.source)
    ensures ApplySnapshot(db, n).db.rows[i].key in Keys(n.batch)
  {
    AppliedRows(db, n);
  }

  /** Every key a successful application reports as created, reactivated or
      refreshed is open, with the content of the last fitting detection of the
      key and the stamp of this generation. */
  lemma {:induction false} WrittenKeysAreCurrent(db: Db, n: Snapshot, j: nat)
    requires KeysDistinct(db.rows) && ApplySnapshot(db, n).result.Ok? && j < |n.batch|
    requires Written(Verdict(
      UpsertBatch(AcceptWithDiagnostics(db, n).db, n.batch[..j], Some(SourceKind(n.source)), SnapshotStamp(n)).db,
      n.batch[j]))
    ensures var e := ApplySnapshot(db, n).db;
      var last := LastFit(n.batch, n.batch[j].key);
      && last.Some?
      && exists i :: 0 <= i < |e.rows| && e.rows[i].key == n.batch[j].key && Open(e.rows[i].state)
           && Carries(e.rows[i], n.batch[last.value], SnapshotStamp(n))
           && e.rows[i].origin == FromSource(n.source) && e.rows[i].generation == Some(n.number)
  {
    var accepted := AcceptWithDiagnostics(db, n).db;
    var kind := Some(SourceKind(n.source));
    var s := SnapshotStamp(n);
    var u := UpsertedTables(db, n);
    var key := n.batch[j].key;
    WrittenStaysOpen(accepted, n.batch, kind, s, j);
    LastFitWins(accepted, n.batch, kind, s);
    ApplyKeepsNamedRows(db, n);
    var i :| 0 <= i < |u.rows| && u.rows[i].key == key && Open(u.rows[i].state);
    assert n.batch[j] in n.batch && key in Keys(n.batch);
    var e := ApplySnapshot(db, n).db;
    assert e.rows[i] == u.rows[i];
  }

  // -------------------------------------------------------- generation ordering

  /** Applied never passes issued, and a row stamped by a source carries no newer
      generation than the one applied for it. */
  ghost predicate Ordered(db: Db)
  {
    && (forall source :: source in db.generations ==> db.generations[source].applied <= db.generations[source].issued)
    && (forall i :: 0 <= i < |db.rows| ==> StampInOrder(db, db.rows[i]))
  }

  ghost predicate StampInOrder(db: Db, r: Row)
  {
    (r.origin.FromSource? ==> r.generation.Some?) &&
    (r.origin.FromSource? && r.generation.Some? ==> r.generation.value <= ProgressOf(db, r.origin.source).applied)
  }

  ghost predicate Restamped(before: seq<Row>, after: seq<Row>, s: Stamp)
  {
    && |before| <= |after|
    && forall i :: 0 <= i < |after| ==>
         || (i < |before| && after[i].origin == before[i].origin && after[i].generation == before[i].generation)
         || (after[i].origin == s.origin && after[i].generation == s.generation)
  }

  lemma {:induction false} RestampedChains(a: seq<Row>, b: seq<Row>, c: seq<Row>, s: Stamp)
    requires Restamped(a, b, s) && Restamped(b, c, s)
    ensures Restamped(a, c, s)
  {
  }

  lemma {:induction false} ReplaceRestamps(rows: seq<Row>, at: nat, r: Row, s: Stamp)
    requires at < |rows| && r.origin == s.origin && r.generation == s.generation
    ensures Restamped(rows, rows[at := r], s)
  {
  }

  lemma {:induction false} UpsertRestamps(db: Db, d: Detection, s: Stamp)
    ensures Restamped(db.rows, UpsertOne(db, d, s).rows, s)
    ensures UpsertOne(db, d, s).generations == db.generations
  {
    var found := FindKey(db.rows, d.key);
    match Verdict(db, d)
    case Created =>
    case Reactivated =>
      ReplaceRestamps(db.rows, found.value, ReactivateRow(db.rows[found.value], d, s), s);
    case Refreshed =>
      ReplaceRestamps(db.rows, found.value, RefreshRow(db.rows[found.value], d, s), s);
    case Skipped =>
    case CapacitySkipped =>
  }

  lemma {:induction false} BatchRestamps(db: Db, batch: seq<Detection>, expected: Option<Kind>, s: Stamp)
    ensures Restamped(db.rows, UpsertBatch(db, batch, expected, s).db.rows, s)
    ensures UpsertBatch(db, batch, expected, s).db.generations == db.generations
  {
    if batch != [] {
      var front := batch[..|batch| - 1];
      var before := UpsertBatch(db, front, expected, s).db;
      BatchRestamps(db, front, expected, s);
      UpsertRestamps(before, batch[|batch| - 1], s);
      RestampedChains(db.rows, before.rows, UpsertOne(before, batch[|batch| - 1], s).rows, s);
    }
  }

  lemma {:induction false} SameStampsInOrder(db: Db, e: Db)
    requires Ordered(db) && |e.rows| == |db.rows| && e.generations == db.generations
    requires forall i :: 0 <= i < |db.rows| ==>
      e.rows[i].origin == db.rows[i].origin && e.rows[i].generation == db.rows[i].generation
    ensures Ordered(e)
  {
    forall i | 0 <= i < |e.rows| ensures StampInOrder(e, e.rows[i]) {
      assert StampInOrder(db, db.rows[i]);
    }
  }

  lemma {:induction false} RestampInOrder(db: Db, e: Db, s: Stamp)
    requires Ordered(db) && e.generations == db.generations && Restamped(db.rows, e.rows, s)
    requires s.origin.FromSource? ==>
      s.generation.Some? && s.generation.value <= ProgressOf(db, s.origin.source).applied
    ensures Ordered(e)
  {
    forall i | 0 <= i < |e.rows| ensures StampInOrder(e, e.rows[i]) {
      if i < |db.rows| { assert StampInOrder(db, db.rows[i]); }
    }
  }

  lemma {:induction false} AcceptKeepsOrder(db: Db, n: Snapshot)
    requires Ordered(db) && AcceptWithDiagnostics(db, n).result.Ok?
    ensures Ordered(AcceptWithDiagnostics(db, n).db)
    ensures ProgressOf(AcceptWithDiagnostics(db, n).db, n.source).applied == n.number
  {
    var e := AcceptWithDiagnostics(db, n).db;
    AcceptsExactly(db, n.source, n.number, n.status, n.at);
    forall i | 0 <= i < |e.rows| ensures StampInOrder(e, e.rows[i]) {
      assert StampInOrder(db, db.rows[i]);
    }
  }

  lemma {:induction false} ResolveKeepsOrder(db: Db, kind: Kind, origin: Option<Origin>, present: set<string>, scope: Scope, at: int)
    requires Ordered(db)
    ensures Ordered(ResolveAbsent(db, kind, origin, present, scope, at).db)
  {
    SameStampsInOrder(db, ResolveAbsent(db, kind, origin, present, scope, at).db);
  }

  lemma {:induction false} SnapshotKeepsOrder(db: Db, n: Snapshot)
    requires Ordered(db)
    ensures Ordered(ApplySnapshot(db, n).db)
  {
    SnapshotTables(db, n);
    if ApplySnapshot(db, n).result.Ok? {
      var accepted := AcceptWithDiagnostics(db, n).db;
      AcceptKeepsOrder(db, n);
      BatchRestamps(accepted, n.batch, Some(SourceKind(n.source)), SnapshotStamp(n));
      RestampInOrder(accepted, UpsertedTables(db, n), SnapshotStamp(n));
      ResolveKeepsOrder(UpsertedTables(db, n), SourceKind(n.source), Some(FromSource(n.source)),
                        Keys(n.batch), AllowedScope(n), n.at);
      SameStampsInOrder(ResolvedTables(db, n), RecordSync(ResolvedTables(db, n), n));
    }
  }

  lemma {:induction false} LocalKeepsOrder(db: Db, batch: seq<Detection>, at: int)
    requires Ordered(db)
    ensures Ordered(ApplyLocal(db, batch, at).db)
  {
    var s := Stamp(Memory, None, at);
    var u := UpsertBatch(db, batch, Some(PersonalOccasion), s).db;
    BatchRestamps(db, batch, Some(PersonalOccasion), s);
    RestampInOrder(db, u, s);
    ResolveKeepsOrder(u, PersonalOccasion, Some(Memory), Keys(batch), AllAbsent, at);
  }

  lemma {:induction false} UpsertKeepsOrder(db: Db, batch: seq<Detection>, at: int)
    requires Ordered(db)
    ensures Ordered(UpsertDetections(db, batch, at).db)
  {
    var s := Stamp(Local, None, at);
    BatchRestamps(db, batch, None, s);
    RestampInOrder(db, UpsertBatch(db, batch, None, s).db, s);
  }

  lemma {:induction false} IssueKeepsOrder(db: Db, source: Source, at: int)
    requires Ordered(db)
    ensures Ordered(IssueGeneration(db, source, at).db)
  {
    var e := IssueGeneration(db, source, at).db;
    forall i | 0 <= i < |e.rows| ensures StampInOrder(e, e.rows[i]) {
      assert StampInOrder(db, db.rows[i]);
    }
  }

  /** Actions that move no provenance. */
  predicate KeepsStamps(a: Action)
  {
    !a.Applying? && !a.ApplyingLocal? && !a.Upserting? && !a.Resolving? && !a.Issuing?
  }

  lemma {:induction false} StampsKept(w: World, m: Move, cooldown: int)
    requires Base(w) && Allowed(w, m, cooldown) && KeepsStamps(m.action)
    ensures var e := Next(w.db, m.action, m.at);
      && |e.rows| == |w.db.rows| && e.generations == w.db.generations
      && forall i :: 0 <= i < |e.rows| ==>
           e.rows[i].origin == w.db.rows[i].origin && e.rows[i].generation == w.db.rows[i].generation
  {
    if m.action.Reserving? {
      ReserveActions(w.db, m.action.claim, m.action.token, m.action.expires);
    } else if m.action.Confirming? {
      ConfirmIsAtomic(w, m.action.token, m.at);
    } else if m.action.ClaimingFallback? || m.action.CompletingFallback? {
      FallbackActions(w.db, m.action, m.at);
    } else if IsUser(m.action) {
      UserActions(w.db, m.action, m.at);
    }
  }

  lemma {:induction false} ChangesKeepOrder(db: Db, a: Action, at: int)
    requires Ordered(db) && !KeepsStamps(a)
    ensures Ordered(Next(db, a, at))
  {
    match a
    case Applying(n) => SnapshotKeepsOrder(db, n);
    case ApplyingLocal(batch) => LocalKeepsOrder(db, batch, at);
    case Upserting(batch) => UpsertKeepsOrder(db, batch, at);
    case Resolving(kind, present) => ResolveKeepsOrder(db, kind, None, present, AllAbsent, at);
    case Issuing(source) => IssueKeepsOrder(db, source, at);
  }

  lemma {:induction false} OrderedHolds(w: World, m: Move, cooldown: int)
    requires Base(w) && Ordered(w.db) && Allowed(w, m, cooldown)
    ensures Ordered(Advance(w, m).db)
  {
    if KeepsStamps(m.action) {
      StampsKept(w, m, cooldown);
      SameStampsInOrder(w.db, Next(w.db, m.action, m.at));
    } else {
      ChangesKeepOrder(w.db, m.action, m.at);
    }
  }

  /** In every reachable state generations are in order. */
  lemma {:induction false} OrderedInEveryRun(clock: int, moves: seq<Move>, cooldown: int)
    requires AllowedRun(Begin(clock), moves, cooldown)
    ensures Ordered(Run(Begin(clock), moves).db)
  {
    if moves != [] {
      var front := moves[..|moves| - 1];
      OrderedInEveryRun(clock, front, cooldown);
      BaseInEveryRun(clock, front, cooldown);
      OrderedHolds(Run(Begin(clock), front), moves[|moves| - 1], cooldown);
    }
  }

  lemma {:induction false} AppliedNumber(db: Db, n: Snapshot)
    requires Ordered(db) && HistoryInTable(db) && ApplySnapshot(db, n).result.Ok?
    ensures ProgressOf(db, n.source).applied < n.number <= ProgressOf(db, n.source).issued
    ensures ProgressOf(ApplySnapshot(db, n).db, n.source).applied == n.number
    ensures |db.rows| <= |ApplySnapshot(db, n).db.rows|
  {
    SnapshotTables(db, n);
    AppliedRows(db, n);
    SnapshotIsBackground(db, n);
    AcceptsExactly(db, n.source, n.number, n.status, n.at);
    AcceptKeepsOrder(db, n);
    BatchRestamps(AcceptWithDiagnostics(db, n).db, n.batch, Some(SourceKind(n.source)), SnapshotStamp(n));
  }

  /** An accepted application raises the applied generation of its source strictly,
      and every row it overwrites carried an older generation of that source; a
      delayed, unreserved or malformed result leaves every table unchanged. */
  lemma {:induction false} OlderNeverOverwritesNewer(db: Db, n: Snapshot, i: nat)
    requires Ordered(db) && KeysDistinct(db.rows) && HistoryInTable(db) && i < |db.rows|
    ensures var step := ApplySnapshot(db, n);
      && (step.result.Err? ==> step.db == db)
      && (step.result.Ok? ==>
            && ProgressOf(db, n.source).applied < n.number <= ProgressOf(db, n.source).issued
            && ProgressOf(step.db, n.source).applied == n.number
            && i < |step.db.rows|
            && (db.rows[i].origin == FromSource(n.source) ==>
                  db.rows[i].generation.Some? && db.rows[i].generation.value < n.number))
  {
    SnapshotTables(db, n);
    AcceptsExactly(db, n.source, n.number, n.status, n.at);
    assert StampInOrder(db, db.rows[i]);
    if ApplySnapshot(db, n).result.Ok? {
      AppliedNumber(db, n);
    }
  }

  lemma {:induction false} SnapshotGrows(db: Db, n: Snapshot, source: Source)
    ensures ProgressOf(db, source).applied <= ProgressOf(ApplySnapshot(db, n).db, source).applied
    ensures ProgressOf(db, source).issued <= ProgressOf(ApplySnapshot(db, n).db, source).issued
  {
    SnapshotTables(db, n);
    if ApplySnapshot(db, n).result.Ok? {
      AppliedRows(db, n);
      AcceptsExactly(db, n.source, n.number, n.status, n.at);
      BatchRestamps(AcceptWithDiagnostics(db, n).db, n.batch, Some(SourceKind(n.source)), SnapshotStamp(n));
    }
  }

  /** Only applications and new numbers touch the generations. */
  lemma {:induction false} OthersKeepProgress(w: World, m: Move, cooldown: int)
    requires Base(w) && Allowed(w, m, cooldown) && !m.action.Applying? && !m.action.Issuing?
    ensures Next(w.db, m.action, m.at).generations == w.db.generations
  {
    if KeepsStamps(m.action) {
      StampsKept(w, m, cooldown);
    } else {
      match m.action
      case ApplyingLocal(batch) => BatchRestamps(w.db, batch, Some(PersonalOccasion), Stamp(Memory, None, m.at));
      case Upserting(batch) => BatchRestamps(w.db, batch, None, Stamp(Local, None, m.at));
      case Resolving(kind, present) =>
    }
  }

  ghost predicate Grown(p: Progress, q: Progress)
  {
    p.applied <= q.applied && p.issued <= q.issued
  }

  lemma {:induction false} ApplyingGrows(db: Db, a: Action, at: int, source: Source)
    requires a.Applying?
    ensures Grown(ProgressOf(db, source), ProgressOf(Next(db, a, at), source))
  {
    SnapshotGrows(db, a.snapshot, source);
  }

  lemma {:induction false} IssuingGrows(db: Db, a: Action, at: int, source: Source)
    requires a.Issuing?
    ensures Grown(ProgressOf(db, source), ProgressOf(Next(db, a, at), source))
  {
  }

  /** No action lowers an applied or issued generation. */
  lemma {:induction false} GenerationsGrow(w: World, m: Move, cooldown: int, source: Source)
    requires Base(w) && Allowed(w, m, cooldown)
    ensures Grown(ProgressOf(w.db, source), ProgressOf(Next(w.db, m.action, m.at), source))
  {
    if m.action.Applying? {
      ApplyingGrows(w.db, m.action, m.at, source);
    } else if m.action.Issuing? {
      IssuingGrows(w.db, m.action, m.at, source);
    } else {
      OthersKeepProgress(w, m, cooldown);
      assert ProgressOf(Next(w.db, m.action, m.at), source) == ProgressOf(w.db, source);
    }
  }
}
