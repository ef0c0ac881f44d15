/** What one more detection of a batch does to the table, state by state. */
module Detections {
  import opened Situations
  import opened Changes
  import opened Truth
  import opened Protocol
  import opened Upserts

  /** A batch goes on without an error; the table has unique keys. */
  ghost predicate GoesOn(db: Db, front: seq<Detection>, d: Detection, expected: Option<Kind>, s: Stamp)
  {
    && KeysDistinct(db.rows)
    && UpsertBatch(db, front, expected, s).result.Ok?
    && (expected.None? || d.kind == expected.value)
  }

  /** The row shows what the detection found and when and by whom it was found. */
  predicate Shows(r: Row, d: Detection, s: Stamp)
  {
    && r.priority == d.priority && r.title == d.title && r.whyNow == d.whyNow && r.evidence == d.evidence
    && r.expiresAt == d.expiresAt && r.origin == s.origin && r.generation == s.generation && r.updatedAt == s.at
  }

  lemma {:induction false} NextDetection(db: Db, front: seq<Detection>, d: Detection, expected: Option<Kind>, s: Stamp)
    requires GoesOn(db, front, d, expected, s)
    ensures var (b, a) := (UpsertBatch(db, front, expected, s), UpsertBatch(db, front + [d], expected, s));
      && KeysDistinct(b.db.rows)
      && a == Step(UpsertOne(b.db, d, s), Ok(Tally(b.result.value, Verdict(b.db, d))))
  {
    BatchKeepsKeys(db, front, expected, s);
    UpsertLast(db, front, d, expected, s);
  }

  /** A resolved or expired row comes back pending with the new content, detected anew,
      unless it is a personal occasion that was delivered once. */
  lemma {:induction false} EndedRowComesBack(
    db: Db, front: seq<Detection>, d: Detection, expected: Option<Kind>, s: Stamp, i: nat)
    requires GoesOn(db, front, d, expected, s) && d.size <= 16384
    requires var b := UpsertBatch(db, front, expected, s).db;
      && i < |b.rows| && b.rows[i].key == d.key
      && (b.rows[i].state == Resolved || b.rows[i].state == Expired)
      && (b.rows[i].kind != PersonalOccasion || forall k :: 0 <= k < |b.history| ==> b.history[k].row != i)
    ensures var (b, a) := (UpsertBatch(db, front, expected, s), UpsertBatch(db, front + [d], expected, s));
      && a.result == Ok(b.result.value.(reactivated := b.result.value.reactivated + 1))
      && OnlyRow(b.db, a.db, i)
      && (var (r, q) := (b.db.rows[i], a.db.rows[i]);
          && q.state == Pending && Shows(q, d, s) && q.detectedAt == s.at
          && q.resolvedAt == None && q.expiredAt == None && q.snoozedUntil == None && !q.exempt
          && q.kind == r.kind && q.key == r.key && q.deliveredAt == r.deliveredAt
          && q.acknowledgedAt == r.acknowledgedAt && q.mutedAt == r.mutedAt)
  {
    NextDetection(db, front, d, expected, s);
    FindKeyUnique(UpsertBatch(db, front, expected, s).db.rows, i);
  }

  /** A pending, delivered or snoozed row keeps its state and times and shows the new
      content. */
  lemma {:induction false} OpenRowIsRefreshed(
    db: Db, front: seq<Detection>, d: Detection, expected: Option<Kind>, s: Stamp, i: nat)
    requires GoesOn(db, front, d, expected, s) && d.size <= 16384
    requires var b := UpsertBatch(db, front, expected, s).db;
      && i < |b.rows| && b.rows[i].key == d.key
      && (b.rows[i].state == Pending || b.rows[i].state == Delivered || b.rows[i].state == Snoozed)
    ensures var (b, a) := (UpsertBatch(db, front, expected, s), UpsertBatch(db, front + [d], expected, s));
      && a.result == Ok(b.result.value.(refreshed := b.result.value.refreshed + 1))
      && OnlyRow(b.db, a.db, i)
      && (var (r, q) := (b.db.rows[i], a.db.rows[i]);
          && q.state == r.state && Shows(q, d, s) && q.detectedAt == r.detectedAt
          && q.resolvedAt == r.resolvedAt && q.expiredAt == r.expiredAt && q.snoozedUntil == r.snoozedUntil
          && q.exempt == r.exempt && q.kind == r.kind && q.key == r.key && q.deliveredAt == r.deliveredAt
          && q.acknowledgedAt == r.acknowledgedAt && q.mutedAt == r.mutedAt)
  {
    NextDetection(db, front, d, expected, s);
    FindKeyUnique(UpsertBatch(db, front, expected, s).db.rows, i);
  }

  /** An acknowledged or muted row, and a personal occasion that ended after a delivery,
      is skipped and stays as it is. */
  lemma {:induction false} FinalRowIsSkipped(
    db: Db, front: seq<Detection>, d: Detection, expected: Option<Kind>, s: Stamp, i: nat)
    requires GoesOn(db, front, d, expected, s) && d.size <= 16384
    requires var b := UpsertBatch(db, front, expected, s).db;
      && i < |b.rows| && b.rows[i].key == d.key
      && (b.rows[i].state == Acknowledged || b.rows[i].state == Muted ||
          (&& (b.rows[i].state == Resolved || b.rows[i].state == Expired)
           && b.rows[i].kind == PersonalOccasion && exists k :: 0 <= k < |b.history| && b.history[k].row == i))
    ensures var (b, a) := (UpsertBatch(db, front, expected, s), UpsertBatch(db, front + [d], expected, s));
      && a.result == Ok(b.result.value.(skipped := b.result.value.skipped + 1))
      && a.db == b.db
  {
    NextDetection(db, front, d, expected, s);
    FindKeyUnique(UpsertBatch(db, front, expected, s).db.rows, i);
  }

  /** A detection of a new key is entered as a pending row while the table has fewer than
      ten thousand rows, and is dropped once it is full. */
  lemma {:induction false} NewKeyIsEntered(
    db: Db, front: seq<Detection>, d: Detection, expected: Option<Kind>, s: Stamp)
    requires GoesOn(db, front, d, expected, s) && d.size <= 16384
    requires forall r :: r in UpsertBatch(db, front, expected, s).db.rows ==> r.key != d.key
    ensures var (b, a) := (UpsertBatch(db, front, expected, s), UpsertBatch(db, front + [d], expected, s));
      var n := |b.db.rows|;
      && (n < 10000 ==>
            && a.result == Ok(b.result.value.(created := b.result.value.created + 1))
            && a.db == b.db.(rows := a.db.rows) && |a.db.rows| == n + 1 && a.db.rows[..n] == b.db.rows
            && (var q := a.db.rows[n];
                && q.state == Pending && Shows(q, d, s) && q.detectedAt == s.at && q.kind == d.kind && q.key == d.key
                && q.deliveredAt == None && q.acknowledgedAt == None && q.snoozedUntil == None
                && q.resolvedAt == None && q.expiredAt == None && q.mutedAt == None && !q.exempt))
      && (n >= 10000 ==>
            && a.result == Ok(b.result.value.(skipped := b.result.value.skipped + 1,
                                              capacitySkipped := b.result.value.capacitySkipped + 1))
            && a.db == b.db)
  {
    NextDetection(db, front, d, expected, s);
    assert FindKey(UpsertBatch(db, front, expected, s).db.rows, d.key).None?;
  }

  /** A record over 16 KiB is dropped whatever the table holds. */
  lemma {:induction false} OversizedIsDropped(
    db: Db, front: seq<Detection>, d: Detection, expected: Option<Kind>, s: Stamp)
    requires GoesOn(db, front, d, expected, s) && d.size > 16384
    ensures var (b, a) := (UpsertBatch(db, front, expected, s), UpsertBatch(db, front + [d], expected, s));
      && a.result == Ok(b.result.value.(skipped := b.result.value.skipped + 1,
                                        capacitySkipped := b.result.value.capacitySkipped + 1))
      && a.db == b.db
  {
    NextDetection(db, front, d, expected, s);
  }

  /** A conflict that was delivered and resolved comes back when it is detected again in
      a batch of its own: only personal occasions stay ended after a delivery. */
  lemma {:induction false} DeliveredConflictComesBack(db: Db, d: Detection, s: Stamp, i: nat)
    requires KeysDistinct(db.rows) && d.size <= 16384 && i < |db.rows| && db.rows[i].key == d.key
    requires db.rows[i].kind == CalendarConflict && db.rows[i].state == Resolved
    ensures var a := UpsertBatch(db, [d], Some(d.kind), s);
      && a.result == Ok(Summary(0, 1, 0, 0, 0))
      && i < |a.db.rows| && a.db.rows[i].state == Pending && a.db.rows[i].detectedAt == s.at
  {
    EndedRowComesBack(db, [], d, Some(d.kind), s, i);
    assert [] + [d] == [d];
  }
}
