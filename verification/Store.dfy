/** The situation store: one method per transaction, tables changed in place. */
module Store {
  import opened Situations
  import opened Truth
  import L = Leasing
  import P = Protocol
  import U = Upserts
  import C = Confirmations
  import F = Fallbacks
  import N = NotifyOnce
  import R = ReservePasses

  datatype Dispatched = NoticeSent(row: nat) | NoticeFailed(row: nat, code: FailureCode)

  ghost predicate NothingClaimable(db: Db, a: F.Attempt)
  {
    forall row: nat :: !F.MayClaim(db, a, row)
  }

  function NoticeOf(outcome: Option<FailureCode>, at: int): Notice
  {
    if outcome.Some? then Failed(outcome.value, at) else Sent(at)
  }

  /** The record a claim has become once its notification is over. */
  function NotifiedRecord(
    rows: seq<Row>, row: nat, host: nat -> Option<FailureCode>, at: int, claimedAt: int): Fallback
    requires row < |rows|
  {
    Fallback(row, rows[row].priority, NoticeOf(host(row), at), claimedAt)
  }

  function ReportOf(row: nat, host: nat -> Option<FailureCode>): Dispatched
  {
    if host(row).Some? then NoticeFailed(row, host(row).value) else NoticeSent(row)
  }

  ghost predicate Extends(before: seq<Fallback>, after: seq<Fallback>)
  {
    |before| <= |after| && after[..|before|] == before
  }

  /** The row of the `k`-th new record was claimable on the tables at that point, by
      the configured attempt or, for the first, by the bootstrap one. */
  ghost predicate ClaimedInTurn(start: Db, a: F.Attempt, made: seq<Fallback>, k: nat)
    requires k < |made|
  {
    var tables := start.(fallbacks := start.fallbacks + made[..k]);
    F.MayClaim(tables, a, made[k].row) || (k == 0 && F.MayClaim(tables, a.(mode := F.BootstrapMode), made[k].row))
  }

  /** The new records of one dispatch with their reports. */
  ghost predicate Dispatches(
    start: Db, a: F.Attempt, host: nat -> Option<FailureCode>, at: int, made: seq<Fallback>, reports: seq<Dispatched>)
  {
    && |made| == |reports|
    && forall k: nat :: k < |made| ==>
         && ClaimedInTurn(start, a, made, k)
         && made[k].row < |start.rows|
         && made[k] == NotifiedRecord(start.rows, made[k].row, host, at, a.claimedAt)
         && reports[k] == ReportOf(made[k].row, host)
  }

  /** The old records are kept in place and the new ones are those dispatched. */
  ghost predicate DispatchSoFar(
    start: Db, a: F.Attempt, host: nat -> Option<FailureCode>, at: int, fallbacks: seq<Fallback>, reports: seq<Dispatched>)
  {
    && Extends(start.fallbacks, fallbacks)
    && Dispatches(start, a, host, at, fallbacks[|start.fallbacks|..], reports)
  }

  lemma {:induction false} NothingDispatched(start: Db, a: F.Attempt, host: nat -> Option<FailureCode>, at: int)
    ensures DispatchSoFar(start, a, host, at, start.fallbacks, [])
  {
  }

  lemma {:induction false} DispatchStep(
    start: Db, a: F.Attempt, host: nat -> Option<FailureCode>, at: int,
    before: seq<Fallback>, after: seq<Fallback>, reports: seq<Dispatched>, row: nat)
    requires DispatchSoFar(start, a, host, at, before, reports)
    requires var tables := start.(fallbacks := before);
      F.MayClaim(tables, a, row) || (before == start.fallbacks && F.MayClaim(tables, a.(mode := F.BootstrapMode), row))
    requires after == before + [NotifiedRecord(start.rows, row, host, at, a.claimedAt)]
    ensures DispatchSoFar(start, a, host, at, after, reports + [ReportOf(row, host)])
  {
    var n := |start.fallbacks|;
    assert start.fallbacks + before[n..] == before;
    DispatchOneMore(start, a, host, at, before[n..], reports, row);
    assert after[n..] == before[n..] + [after[|before|]];
    assert after[..n] == before[..n];
  }

  lemma {:induction false} DispatchOneMore(
    start: Db, a: F.Attempt, host: nat -> Option<FailureCode>, at: int,
    made: seq<Fallback>, reports: seq<Dispatched>, row: nat)
    requires Dispatches(start, a, host, at, made, reports)
    requires var tables := start.(fallbacks := start.fallbacks + made);
      F.MayClaim(tables, a, row) || (made == [] && F.MayClaim(tables, a.(mode := F.BootstrapMode), row))
    ensures Dispatches(start, a, host, at, made + [NotifiedRecord(start.rows, row, host, at, a.claimedAt)],
                       reports + [ReportOf(row, host)])
  {
    var more := made + [NotifiedRecord(start.rows, row, host, at, a.claimedAt)];
    assert more[..|made|] == made;
    forall k: nat | k < |made| ensures ClaimedInTurn(start, a, more, k) {
      assert ClaimedInTurn(start, a, made, k);
      assert more[..k] == made[..k];
    }
  }

  const FRESH_SYNC: SyncState := SyncState(Configured, None, None, None, None, 0)

  /** The store of one open database. Every method is one transaction, put back when
      it fails, and is proved against the transition the run theorems are about. */
  class SituationStore {
    var rows: seq<Row>
    var history: seq<Delivery>
    var leases: map<nat, Lease>
    var receipts: map<string, Receipt>
    var mutes: map<Kind, int>
    var generations: map<Source, Progress>
    var sync: map<Source, SyncState>
    var diagnostics: Option<Diagnostics>
    var fallbacks: seq<Fallback>

    function Tables(): Db
      reads this
    {
      Db(rows, history, leases, receipts, mutes, generations, sync, diagnostics, fallbacks)
    }

    /** The UNIQUE constraint on dedupe keys. */
    ghost predicate Valid()
      reads this
    {
      P.KeysDistinct(rows)
    }

    constructor ()
      ensures Valid() && Tables() == EMPTY
    {
      rows, history, leases, receipts := [], [], map[], map[];
      mutes, generations, sync := map[], map[], map[];
      diagnostics, fallbacks := None, [];
    }

    /** Puts back the tables a transaction started from. */
    method Rollback(saved: Db)
      modifies this
      ensures Tables() == saved
    {
      rows, history, leases, receipts := saved.rows, saved.history, saved.leases, saved.receipts;
      mutes, generations, sync := saved.mutes, saved.generations, saved.sync;
      diagnostics, fallbacks := saved.diagnostics, saved.fallbacks;
    }

    // ------------------------------------------------------------ deliveries

    method ReserveForDelivery(c: L.Claim, token: string, expires: int) returns (r: L.Reservation)
      modifies this
      ensures Tables() == L.Reserve(old(Tables()), c, token, expires).db
      ensures Ok(r) == L.Reserve(old(Tables()), c, token, expires).result
    {
      leases := map row | row in leases && leases[row].expiresAt > c.now :: leases[row];
      var page := L.DeliveryPage(rows);
      ghost var start := Tables();
      assert start == L.ExpireLeases(old(Tables()), c.now);
      var slots := L.ReservedSlots(Tables(), c, page);
      var reserved: seq<nat> := [];
      for i := 0 to |page|
        invariant L.Pass(Tables(), reserved) == L.ReservePass(start, c, token, expires, slots, page[..i])
      {
        assert page[..i + 1][..i] == page[..i];
        if L.Admits(Tables(), c, slots, page[i]) {
          leases := leases[page[i] := Lease(token, c.now, expires)];
          reserved := reserved + [page[i]];
        }
      }
      assert page[..|page|] == page;
      r := L.Reservation(token, reserved, expires);
    }

    /** Writes one history entry and one delivered row per leased situation. */
    method DeliverLeased(ids: seq<nat>, at: int) returns (ok: bool)
      modifies this`rows, this`history
      ensures L.DeliverAll(old(Tables()), ids, at) == Step(Tables(), if ok then Ok(|ids|) else Err(InvalidReceipt))
    {
      ghost var live := Tables();
      for i := 0 to |ids|
        invariant L.DeliverAll(live, ids[..i], at) == Step(Tables(), Ok(i))
      {
        var row := ids[i];
        assert ids[..i + 1][..i] == ids[..i];
        if row >= |rows| || rows[row].state != Pending {
          DeliveryFails(live, ids, i, at);
          return false;
        }
        history := history + [Delivery(row, at, rows[row].priority)];
        rows := rows[row := DeliverRow(rows[row], at)];
      }
      assert ids[..|ids|] == ids;
      ok := true;
    }

    method ConfirmDelivery(token: string, at: int) returns (r: Result<L.Confirmation>)
      modifies this
      ensures Tables() == L.Confirm(old(Tables()), token, at).db
      ensures r == L.Confirm(old(Tables()), token, at).result
    {
      if token in receipts {
        return Ok(L.AlreadyConfirmed(receipts[token].count));
      }
      var saved := Tables();
      leases := map row | row in leases && leases[row].expiresAt > at :: leases[row];
      assert Tables() == L.ExpireLeases(saved, at);
      var ids := L.Take(L.LeaseIds(leases, token, |rows|), L.PAGE_LIMIT);
      if ids == [] {
        Rollback(saved);
        return Err(InvalidReceipt);
      }
      var ok := DeliverLeased(ids, at);
      if !ok {
        Rollback(saved);
        return Err(InvalidReceipt);
      }
      leases := map row | row in leases && leases[row].token != token :: leases[row];
      receipts := receipts[token := Receipt(|ids|, at)];
      r := Ok(L.Confirmed(|ids|));
    }

    // -------------------------------------------------------- user transitions

    method AcknowledgeSituation(row: nat, at: int) returns (r: Result<Row>)
      modifies this
      ensures Tables() == Acknowledge(old(Tables()), row, at).db
      ensures r == Acknowledge(old(Tables()), row, at).result
    {
      if row >= |rows| { return Err(NotFound(row)); }
      if rows[row].state != Delivered { return Err(InvalidTransition(row, rows[row].state)); }
      rows := rows[row := AcknowledgeRow(rows[row], at)];
      r := Ok(rows[row]);
    }

    method SnoozeSituation(row: nat, until: int, at: int) returns (r: Result<Row>)
      modifies this
      ensures Tables() == Snooze(old(Tables()), row, until, at).db
      ensures r == Snooze(old(Tables()), row, until, at).result
    {
      if row >= |rows| { return Err(NotFound(row)); }
      if rows[row].state != Delivered { return Err(InvalidTransition(row, rows[row].state)); }
      rows := rows[row := SnoozeRow(rows[row], until, at)];
      r := Ok(rows[row]);
    }

    method MuteSituation(row: nat, at: int) returns (r: Result<Row>)
      modifies this
      ensures Tables() == MuteOne(old(Tables()), row, at).db
      ensures r == MuteOne(old(Tables()), row, at).result
    {
      if row >= |rows| { return Err(NotFound(row)); }
      if rows[row].state != Delivered { return Err(InvalidTransition(row, rows[row].state)); }
      rows := rows[row := MuteRow(rows[row], at)];
      r := Ok(rows[row]);
    }

    method MuteSituationType(row: nat, at: int) returns (r: Result<Row>)
      modifies this
      ensures Tables() == MuteKind(old(Tables()), row, at).db
      ensures r == MuteKind(old(Tables()), row, at).result
    {
      r := MuteSituation(row, at);
      if r.Ok? && r.value.kind !in mutes {
        mutes := mutes[r.value.kind := at];
      }
    }

    /** Wakes each snoozed row whose time has come, leaves every other row as it was,
        and returns how many woke. */
    method WakeAllSnoozed(at: int) returns (count: nat)
      modifies this`rows
      ensures |rows| == |old(rows)|
      ensures forall i :: 0 <= i < |rows| && WakesAt(old(rows)[i], at) ==>
        rows[i] == old(rows)[i].(state := Pending, snoozedUntil := None, updatedAt := at)
      ensures forall i :: 0 <= i < |rows| && !WakesAt(old(rows)[i], at) ==> rows[i] == old(rows)[i]
      ensures count == |Waking(old(rows), |old(rows)|, at)|
      ensures Tables() == WakeSnoozed(old(Tables()), at)
    {
      ghost var before := rows;
      count := 0;
      for i := 0 to |rows|
        invariant |rows| == |before|
        invariant forall k :: 0 <= k < i ==> rows[k] == WakeRow(before[k], at)
        invariant forall k :: i <= k < |rows| ==> rows[k] == before[k]
        invariant count == |Waking(before, i, at)|
      {
        WakingStep(before, i, at);
        if WakesAt(rows[i], at) {
          rows := rows[i := rows[i].(state := Pending, snoozedUntil := None, updatedAt := at)];
          count := count + 1;
        }
      }
      assert rows == WakeSnoozed(old(Tables()), at).rows;
    }

    /** Expires each active row whose expiry has come, leaves every other row as it
        was, and returns how many expired. */
    method ExpireAllLapsed(at: int) returns (count: nat)
      modifies this`rows
      ensures |rows| == |old(rows)|
      ensures forall i :: 0 <= i < |rows| && LapsesAt(old(rows)[i], at) ==>
        rows[i] == old(rows)[i].(state := Expired, expiredAt := Some(at), updatedAt := at)
      ensures forall i :: 0 <= i < |rows| && !LapsesAt(old(rows)[i], at) ==> rows[i] == old(rows)[i]
      ensures count == |Lapsing(old(rows), |old(rows)|, at)|
      ensures Tables() == ExpireLapsed(old(Tables()), at)
    {
      ghost var before := rows;
      count := 0;
      for i := 0 to |rows|
        invariant |rows| == |before|
        invariant forall k :: 0 <= k < i ==> rows[k] == ExpireRow(before[k], at)
        invariant forall k :: i <= k < |rows| ==> rows[k] == before[k]
        invariant count == |Lapsing(before, i, at)|
      {
        LapsingStep(before, i, at);
        if LapsesAt(rows[i], at) {
          rows := rows[i := rows[i].(state := Expired, expiredAt := Some(at), updatedAt := at)];
          count := count + 1;
        }
      }
      assert rows == ExpireLapsed(old(Tables()), at).rows;
    }

    // ------------------------------------------------------------ source truth

    method SituationByKey(key: string) returns (found: Option<nat>)
      requires Valid()
      ensures found == FindKey(rows, key)
    {
      for i := 0 to |rows|
        invariant forall k :: 0 <= k < i ==> rows[k].key != key
      {
        if rows[i].key == key {
          U.FindKeyUnique(rows, i);
          return Some(i);
        }
      }
      return None;
    }

    method UpsertDetection(d: Detection, s: Stamp) returns (verdict: Upserted)
      requires Valid()
      modifies this
      ensures verdict == Verdict(old(Tables()), d)
      ensures Tables() == UpsertOne(old(Tables()), d, s)
    {
      var existing := SituationByKey(d.key);
      if d.size > MAX_RECORD_BYTES || (existing.None? && |rows| >= MAX_ROWS) {
        verdict := CapacitySkipped;
      } else if existing.None? {
        rows := rows + [NewRow(d, s)];
        verdict := Created;
      } else {
        var at := existing.value;
        var state := rows[at].state;
        if state == Resolved || state == Expired {
          if rows[at].kind == PersonalOccasion && HasHistory(history, at) {
            verdict := Skipped;
          } else {
            rows := rows[at := ReactivateRow(rows[at], d, s)];
            verdict := Reactivated;
          }
        } else if state == Pending || state == Delivered || state == Snoozed {
          rows := rows[at := RefreshRow(rows[at], d, s)];
          verdict := Refreshed;
        } else {
          verdict := Skipped;
        }
      }
    }

    /** Runs inside the caller's transaction, which rolls back on an error. */
    method UpsertAll(batch: seq<Detection>, expected: Option<Kind>, s: Stamp) returns (r: Result<Summary>)
      requires Valid()
      modifies this
      ensures Valid()
      ensures r == UpsertBatch(old(Tables()), batch, expected, s).result
      ensures Tables() == UpsertBatch(old(Tables()), batch, expected, s).db
    {
      var sum := NOTHING;
      ghost var start := Tables();
      for i := 0 to |batch|
        invariant Valid()
        invariant UpsertBatch(start, batch[..i], expected, s) == Step(Tables(), Ok(sum))
      {
        var d := batch[i];
        assert batch[..i + 1][..i] == batch[..i];
        if expected.Some? && d.kind != expected.value {
          BatchFails(start, batch, i, expected, s);
          return Err(KindMismatch(expected.value, d.kind));
        }
        UpsertKeepsKeys(Tables(), d, s);
        var verdict := UpsertDetection(d, s);
        sum := Tally(sum, verdict);
      }
      assert batch[..|batch|] == batch;
      r := Ok(sum);
    }

    method ResolveMissing(kind: Kind, origin: Option<Origin>, present: set<string>, scope: Scope, at: int)
      returns (resolved: nat)
      modifies this`rows
      ensures Tables() == ResolveAbsent(old(Tables()), kind, origin, present, scope, at).db
      ensures Ok(resolved) == ResolveAbsent(old(Tables()), kind, origin, present, scope, at).result
    {
      ghost var start := rows;
      resolved := 0;
      HalfResolvedStarts(start, kind, origin, present, scope, at);
      for i := 0 to |rows|
        invariant |rows| == |start|
        invariant HalfResolved(start, i, rows, resolved, kind, origin, present, scope, at)
      {
        HalfResolvedStep(start, i, rows, resolved, kind, origin, present, scope, at);
        if Resolvable(rows[i], kind, origin, present, scope) {
          rows := rows[i := ResolveRow(rows[i], at)];
          resolved := resolved + 1;
        }
      }
      HalfResolvedEnds(start, rows, resolved, kind, origin, present, scope, at);
    }

    method UpsertDetectionsNow(batch: seq<Detection>, at: int) returns (r: Result<Summary>)
      requires Valid()
      modifies this
      ensures Valid()
      ensures Tables() == UpsertDetections(old(Tables()), batch, at).db
      ensures r == UpsertDetections(old(Tables()), batch, at).result
    {
      var saved := Tables();
      r := UpsertAll(batch, None, Stamp(Local, None, at));
      if r.Err? { Rollback(saved); }
    }

    method ApplyLocalDetections(batch: seq<Detection>, at: int) returns (r: Result<ApplySummary>)
      requires Valid()
      modifies this
      ensures Valid()
      ensures Tables() == ApplyLocal(old(Tables()), batch, at).db
      ensures r == ApplyLocal(old(Tables()), batch, at).result
    {
      var saved := Tables();
      var upserted := UpsertAll(batch, Some(PersonalOccasion), Stamp(Memory, None, at));
      if upserted.Err? {
        Rollback(saved);
        return Err(upserted.error);
      }
      ResolveKeepsKeys(rows, PersonalOccasion, Some(Memory), Keys(batch), AllAbsent, at);
      var resolved := ResolveMissing(PersonalOccasion, Some(Memory), Keys(batch), AllAbsent, at);
      r := Ok(ApplySummary(upserted.value, resolved));
    }

    method ReserveGeneration(source: Source, at: int) returns (number: nat)
      modifies this
      ensures Tables() == IssueGeneration(old(Tables()), source, at).db
      ensures Ok(number) == IssueGeneration(old(Tables()), source, at).result
    {
      if source in generations {
        var p := generations[source];
        generations := generations[source := p.(issued := p.issued + 1, issuedAt := Some(at))];
      } else {
        generations := generations[source := Progress(1, 0, None, Some(at), None)];
      }
      number := generations[source].issued;
    }

    method AcceptInside(n: Snapshot) returns (r: Result<()>)
      modifies this
      ensures Tables() == AcceptWithDiagnostics(old(Tables()), n).db
      ensures r == AcceptWithDiagnostics(old(Tables()), n).result
      ensures rows == old(rows)
    {
      if n.diagnostics.Some? && (n.source != Gmail || !WithinLimits(n.diagnostics.value)) {
        return Err(InvalidDiagnostics);
      }
      var applied := if n.source in generations then generations[n.source].applied else 0;
      if n.source in generations && n.number <= generations[n.source].issued && applied < n.number {
        generations := generations[n.source := generations[n.source].(
          applied := n.number, status := Some(n.status), appliedAt := Some(n.at))];
      } else if n.number <= applied {
        return Err(DelayedGeneration(applied));
      } else {
        return Err(UnreservedGeneration);
      }
      if n.diagnostics.Some? { diagnostics := n.diagnostics; }
      r := Ok(());
    }

    method MarkRevoked(source: Source, at: int)
      modifies this`sync
      ensures Tables() == old(Tables()).(sync := old(sync)[source := RevokedState(old(Tables()), source, at)])
    {
      var base := if source in sync then sync[source] else FRESH_SYNC;
      sync := sync[source := base.(
        authorization := NeedsReauth, lastAttempt := Some(at), lastError := Some(InvalidGrant), updatedAt := at)];
    }

    method RecordSyncInside(n: Snapshot)
      modifies this`sync
      ensures Tables() == RecordSync(old(Tables()), n)
    {
      if n.error.None? && n.status == Complete {
        var base := if n.source in sync then sync[n.source] else FRESH_SYNC;
        sync := sync[n.source := base.(
          lastSuccess := Some(n.at), lastAttempt := Some(n.at), lastError := None,
          cursor := n.cursor, updatedAt := n.at)];
      } else if n.error == Some(InvalidGrant) {
        MarkRevoked(Gmail, n.at);
        MarkRevoked(Calendar, n.at);
      } else {
        var code := if n.error.None? then DegradedRead else n.error.value;
        var base := if n.source in sync then sync[n.source] else FRESH_SYNC;
        sync := sync[n.source := base.(lastAttempt := Some(n.at), lastError := Some(code), updatedAt := n.at)];
      }
    }

    method ApplySourceGeneration(n: Snapshot) returns (r: Result<ApplySummary>)
      requires Valid()
      modifies this
      ensures Valid()
      ensures Tables() == ApplySnapshot(old(Tables()), n).db
      ensures r == ApplySnapshot(old(Tables()), n).result
    {
      var saved := Tables();
      var accepted := AcceptInside(n);
      if accepted.Err? {
        Rollback(saved);
        return Err(accepted.error);
      }
      var kind := SourceKind(n.source);
      var upserted := UpsertAll(n.batch, Some(kind), SnapshotStamp(n));
      if upserted.Err? {
        Rollback(saved);
        return Err(upserted.error);
      }
      ResolveKeepsKeys(rows, kind, Some(FromSource(n.source)), Keys(n.batch), AllowedScope(n), n.at);
      var resolved := ResolveMissing(kind, Some(FromSource(n.source)), Keys(n.batch), AllowedScope(n), n.at);
      RecordSyncInside(n);
      r := Ok(ApplySummary(upserted.value, resolved));
    }

    // --------------------------------------------------------------- fallbacks

    method ClaimNextFallback(a: F.Attempt) returns (claimed: Option<nat>)
      modifies this`fallbacks
      ensures Tables() == F.ClaimNext(old(Tables()), a).db
      ensures Ok(claimed) == F.ClaimNext(old(Tables()), a).result
    {
      var candidates := F.Candidates(Tables(), a);
      for i := 0 to |candidates|
        invariant Tables() == old(Tables())
        invariant F.FirstClaim(Tables(), a, candidates[i..]) == F.FirstClaim(Tables(), a, candidates)
      {
        var row := candidates[i];
        assert candidates[i..][0] == row && candidates[i..][1..] == candidates[i + 1..];
        if F.MayClaim(Tables(), a, row) {
          fallbacks := fallbacks + [Fallback(row, rows[row].priority, Claimed, a.claimedAt)];
          return Some(row);
        }
      }
      return None;
    }

    method CompleteFallback(row: nat, notice: Notice) returns (r: Result<()>)
      modifies this`fallbacks
      ensures Tables() == F.RecordOutcome(old(Tables()), row, notice).db
      ensures r == F.RecordOutcome(old(Tables()), row, notice).result
    {
      var open := F.FindOpen(fallbacks, row);
      if open.None? { return Err(NotClaimed(row)); }
      fallbacks := fallbacks[open.value := fallbacks[open.value].(notice := notice)];
      r := Ok(());
    }

    /** Sends one notification for a fresh claim and records how it went; the host
        is a foreign call that answers with a failure code or succeeds. */
    method Notify(row: nat, host: nat -> Option<FailureCode>, at: int) returns (d: Dispatched)
      requires F.FindOpen(fallbacks, row).Some?
      modifies this`fallbacks
      ensures var k := F.FindOpen(old(fallbacks), row).value;
        fallbacks == old(fallbacks)[k := old(fallbacks)[k].(notice := NoticeOf(host(row), at))]
      ensures d == ReportOf(row, host)
      ensures N.RecordsKept(old(fallbacks), fallbacks)
    {
      var outcome := host(row);
      if outcome.Some? {
        var _ := CompleteFallback(row, Failed(outcome.value, at));
        d := NoticeFailed(row, outcome.value);
      } else {
        var _ := CompleteFallback(row, Sent(at));
        d := NoticeSent(row);
      }
    }

    /** One claim followed by its notification. */
    method ClaimAndNotify(a: F.Attempt, host: nat -> Option<FailureCode>, at: int)
      returns (claimed: Option<nat>, d: Dispatched)
      modifies this`fallbacks
      ensures claimed.None? ==> fallbacks == old(fallbacks)
      ensures claimed.None? ==> NothingClaimable(Tables(), a)
      ensures claimed.Some? ==>
        && F.MayClaim(old(Tables()), a, claimed.value)
        && fallbacks == old(fallbacks) + [NotifiedRecord(rows, claimed.value, host, at, a.claimedAt)]
        && d == ReportOf(claimed.value, host)
    {
      ghost var before := Tables();
      F.ClaimTakesFirst(before, a);
      claimed := ClaimNextFallback(a);
      if claimed.Some? {
        var record := Fallback(claimed.value, rows[claimed.value].priority, Claimed, a.claimedAt);
        assert fallbacks == old(fallbacks) + [record];
        LastIsOpen(old(fallbacks), claimed.value, fallbacks);
        d := Notify(claimed.value, host, at);
      } else {
        d := NoticeSent(0);
      }
    }

    /** The dispatch pass: one bootstrap claim, then configured claims until none is
        left. On return every row eligible for a configured notification has been
        claimed; each new record was claimable when it was made, the first possibly
        by bootstrap, and holds the outcome and instant its report tells; and nothing
        but the fallback records has changed. */
    method Dispatch(
      enabled: bool, priorities: set<Priority>, now: int, wait: int, host: nat -> Option<FailureCode>)
      returns (dispatched: seq<Dispatched>)
      modifies this`fallbacks
      ensures !enabled || priorities == {} ==> dispatched == [] && fallbacks == old(fallbacks)
      ensures enabled && priorities != {} ==>
        NothingClaimable(Tables(), F.Attempt(now, now - wait, priorities, F.ConfiguredMode))
      ensures DispatchSoFar(old(Tables()), F.Attempt(now, now - wait, priorities, F.ConfiguredMode), host, now,
                            fallbacks, dispatched)
    {
      dispatched := [];
      if !enabled || priorities == {} {
        NothingDispatched(Tables(), F.Attempt(now, now - wait, priorities, F.ConfiguredMode), host, now);
        return;
      }
      ghost var start := Tables();
      var a := F.Attempt(now, now - wait, priorities, F.ConfiguredMode);
      var claimed, d := ClaimAndNotify(a.(mode := F.BootstrapMode), host, now);
      NothingDispatched(start, a, host, now);
      if claimed.Some? {
        DispatchStep(start, a, host, now, start.fallbacks, fallbacks, [], claimed.value);
        dispatched := [d];
      }
      while true
        invariant Tables() == start.(fallbacks := fallbacks)
        invariant DispatchSoFar(start, a, host, now, fallbacks, dispatched)
        decreases |Unclaimed(rows, fallbacks)|
      {
        ghost var before := fallbacks;
        claimed, d := ClaimAndNotify(a, host, now);
        if claimed.None? { return; }
        DispatchStep(start, a, host, now, before, fallbacks, dispatched, claimed.value);
        dispatched := dispatched + [d];
        ClaimShrinks(rows, before, fallbacks, claimed.value);
      }
    }
  }

  // -------------------------------------------------- facts the loops rely on

  /** The rows below `n` that wake, and those that expire. */
  function Waking(rows: seq<Row>, n: nat, at: int): set<nat>
  {
    set i: nat | i < n && i < |rows| && WakesAt(rows[i], at)
  }

  function Lapsing(rows: seq<Row>, n: nat, at: int): set<nat>
  {
    set i: nat | i < n && i < |rows| && LapsesAt(rows[i], at)
  }

  lemma {:induction false} WakingStep(rows: seq<Row>, n: nat, at: int)
    requires n < |rows|
    ensures |Waking(rows, n + 1, at)| == |Waking(rows, n, at)| + (if WakesAt(rows[n], at) then 1 else 0)
  {
    assert Waking(rows, n + 1, at) == Waking(rows, n, at) + (if WakesAt(rows[n], at) then {n} else {});
  }

  lemma {:induction false} LapsingStep(rows: seq<Row>, n: nat, at: int)
    requires n < |rows|
    ensures |Lapsing(rows, n + 1, at)| == |Lapsing(rows, n, at)| + (if LapsesAt(rows[n], at) then 1 else 0)
  {
    assert Lapsing(rows, n + 1, at) == Lapsing(rows, n, at) + (if LapsesAt(rows[n], at) then {n} else {});
  }

  lemma {:induction false} DeliveryFails(db: Db, ids: seq<nat>, i: nat, at: int)
    requires i < |ids| && L.DeliverAll(db, ids[..i], at).result.Ok?
    requires var d := L.DeliverAll(db, ids[..i], at).db;
      ids[i] >= |d.rows| || d.rows[ids[i]].state != Pending
    ensures L.DeliverAll(db, ids, at) == Step(L.DeliverAll(db, ids[..i], at).db, Err(InvalidReceipt))
  {
    var front := ids[..|ids| - 1];
    if i == |ids| - 1 {
      assert ids[..i] == front;
    } else {
      assert front[..i] == ids[..i];
      DeliveryFails(db, front, i, at);
    }
  }

  lemma {:induction false} BatchFails(db: Db, batch: seq<Detection>, i: nat, expected: Option<Kind>, s: Stamp)
    requires i < |batch| && UpsertBatch(db, batch[..i], expected, s).result.Ok?
    requires expected.Some? && batch[i].kind != expected.value
    ensures UpsertBatch(db, batch, expected, s)
      == Step(UpsertBatch(db, batch[..i], expected, s).db, Err(KindMismatch(expected.value, batch[i].kind)))
  {
    var front := batch[..|batch| - 1];
    if i == |batch| - 1 {
      assert batch[..i] == front;
    } else {
      assert front[..i] == batch[..i];
      BatchFails(db, front, i, expected, s);
    }
  }

  lemma {:induction false} UpsertKeepsKeys(db: Db, d: Detection, s: Stamp)
    requires P.KeysDistinct(db.rows)
    ensures P.KeysDistinct(UpsertOne(db, d, s).rows)
  {
    P.UpsertOneIsBackground(db, d, s);
  }

  lemma {:induction false} ResolveKeepsKeys(
    rows: seq<Row>, kind: Kind, origin: Option<Origin>, present: set<string>, scope: Scope, at: int)
    requires P.KeysDistinct(rows)
    ensures P.KeysDistinct(ResolveRows(rows, kind, origin, present, scope, at))
  {
    forall i | 0 <= i < |rows|
      ensures ResolveRows(rows, kind, origin, present, scope, at)[i].key == rows[i].key {}
  }

  /** The table midway through a resolution, with the rows below `i` decided. */
  ghost predicate HalfResolved(
    start: seq<Row>, i: nat, rows: seq<Row>, resolved: nat,
    kind: Kind, origin: Option<Origin>, present: set<string>, scope: Scope, at: int)
  {
    && i <= |start|
    && rows == ResolveRows(start[..i], kind, origin, present, scope, at) + start[i..]
    && resolved == ResolvedCount(start[..i], kind, origin, present, scope)
  }

  lemma {:induction false} HalfResolvedStarts(
    start: seq<Row>, kind: Kind, origin: Option<Origin>, present: set<string>, scope: Scope, at: int)
    ensures HalfResolved(start, 0, start, 0, kind, origin, present, scope, at)
  {
  }

  lemma {:induction false} HalfResolvedStep(
    start: seq<Row>, i: nat, rows: seq<Row>, resolved: nat,
    kind: Kind, origin: Option<Origin>, present: set<string>, scope: Scope, at: int)
    requires i < |start| && HalfResolved(start, i, rows, resolved, kind, origin, present, scope, at)
    ensures i < |rows| && rows[i] == start[i]
    ensures
      if Resolvable(rows[i], kind, origin, present, scope)
      then HalfResolved(start, i + 1, rows[i := ResolveRow(rows[i], at)], resolved + 1, kind, origin, present, scope, at)
      else HalfResolved(start, i + 1, rows, resolved, kind, origin, present, scope, at)
  {
    assert start[..i + 1][..i] == start[..i];
  }

  lemma {:induction false} HalfResolvedEnds(
    start: seq<Row>, rows: seq<Row>, resolved: nat,
    kind: Kind, origin: Option<Origin>, present: set<string>, scope: Scope, at: int)
    requires HalfResolved(start, |start|, rows, resolved, kind, origin, present, scope, at)
    ensures rows == ResolveRows(start, kind, origin, present, scope, at)
    ensures resolved == ResolvedCount(start, kind, origin, present, scope)
  {
    assert start[..|start|] == start;
  }

  lemma {:induction false} LastIsOpen(before: seq<Fallback>, row: nat, after: seq<Fallback>)
    requires |after| == |before| + 1 && after[..|before|] == before
    requires after[|before|].row == row && after[|before|].notice == Claimed
    ensures F.FindOpen(after, row) == Some(|before|)
  {
  }

  function Unclaimed(rows: seq<Row>, fallbacks: seq<Fallback>): set<nat>
  {
    set row: nat | row < |rows| && !F.HasFallback(fallbacks, row)
  }

  lemma {:induction false} ClaimShrinks(rows: seq<Row>, before: seq<Fallback>, after: seq<Fallback>, row: nat)
    requires row < |rows| && !F.HasFallback(before, row)
    requires |after| == |before| + 1 && after[..|before|] == before && after[|before|].row == row
    ensures |Unclaimed(rows, after)| < |Unclaimed(rows, before)|
  {
    forall r | r in Unclaimed(rows, after) ensures r in Unclaimed(rows, before) - {row} {
      assert !F.HasFallback(before, r) by {
        forall k | 0 <= k < |before| ensures before[k].row != r { assert after[k] == before[k]; }
      }
    }
    C.SubsetSize(Unclaimed(rows, after), Unclaimed(rows, before) - {row});
  }
}
