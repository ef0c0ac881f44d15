/** What a detection batch does to the table: counts are conserved, the last
    fitting detection of a key wins, and applying the batch again is a no-op. */
module Upserts {
  import opened Situations
  import opened Truth
  import opened Protocol

  predicate Fits(d: Detection) { d.size <= MAX_RECORD_BYTES }

  predicate Open(state: State)
  {
    state == Pending || state == Delivered || state == Snoozed
  }

  /** The row carries the content of the detection under the stamp. */
  predicate Carries(r: Row, d: Detection, s: Stamp)
  {
    RefreshRow(r, d, s) == r
  }

  function LastFit(batch: seq<Detection>, key: string): (found: Option<nat>)
    ensures found.Some? ==> found.value < |batch|
    ensures found.Some? ==> batch[found.value].key == key && Fits(batch[found.value])
    ensures found.None? ==> forall j :: 0 <= j < |batch| ==> batch[j].key != key || !Fits(batch[j])
  {
    if batch == [] then None
    else
      var n := |batch| - 1;
      if batch[n].key == key && Fits(batch[n]) then Some(n) else LastFit(batch[..n], key)
  }

  lemma {:induction false} FindKeyUnique(rows: seq<Row>, i: nat)
    requires KeysDistinct(rows) && i < |rows|
    ensures FindKey(rows, rows[i].key) == Some(i)
  {
  }

  /** A batch with one more detection, spelled out. */
  lemma {:induction false} UpsertLast(db: Db, front: seq<Detection>, d: Detection, expected: Option<Kind>, s: Stamp)
    ensures var before := UpsertBatch(db, front, expected, s);
      UpsertBatch(db, front + [d], expected, s) ==
      if before.result.Err? then before
      else if expected.Some? && d.kind != expected.value
      then Step(before.db, Err(KindMismatch(expected.value, d.kind)))
      else Step(UpsertOne(before.db, d, s), Ok(Tally(before.result.value, Verdict(before.db, d))))
  {
    assert (front + [d])[..|front|] == front;
  }

  // ---------------------------------------------------------------- one step

  predicate Written(v: Upserted)
  {
    v == Created || v == Reactivated || v == Refreshed
  }

  predicate Settling(v: Upserted)
  {
    v == Refreshed || v == Skipped || v == CapacitySkipped
  }

  /** What one upsert keeps of the other rows, and what it makes of its own. */
  ghost predicate UpsertEffect(db: Db, e: Db, d: Detection, s: Stamp)
  {
    && KeysDistinct(e.rows) && e.history == db.history
    && |db.rows| <= |e.rows|
    && (forall i :: 0 <= i < |db.rows| ==>
          && e.rows[i].key == db.rows[i].key
          && (Open(db.rows[i].state) ==> Open(e.rows[i].state))
          && (db.rows[i].key != d.key || !Fits(d) ==> e.rows[i] == db.rows[i])
          && (e.rows[i] != db.rows[i] ==> Open(e.rows[i].state))
          && (db.rows[i].key == d.key && Fits(d) && Open(e.rows[i].state) ==> Carries(e.rows[i], d, s)))
    && (forall i :: |db.rows| <= i < |e.rows| ==>
          e.rows[i].key == d.key && Fits(d) && e.rows[i].state == Pending && Carries(e.rows[i], d, s))
    && (|db.rows| < |e.rows| ==> |db.rows| < MAX_ROWS)
  }

  ghost predicate Landed(e: Db, d: Detection)
  {
    exists i :: 0 <= i < |e.rows| && e.rows[i].key == d.key && Open(e.rows[i].state)
  }

  lemma {:induction false} AppendEffect(db: Db, d: Detection, s: Stamp)
    requires KeysDistinct(db.rows) && Fits(d) && FindKey(db.rows, d.key).None? && |db.rows| < MAX_ROWS
    ensures UpsertEffect(db, db.(rows := db.rows + [NewRow(d, s)]), d, s)
    ensures Landed(db.(rows := db.rows + [NewRow(d, s)]), d)
  {
    assert (db.rows + [NewRow(d, s)])[|db.rows|] == NewRow(d, s);
  }

  lemma {:induction false} ReplaceEffect(db: Db, d: Detection, s: Stamp, at: nat, r: Row)
    requires KeysDistinct(db.rows) && Fits(d) && at < |db.rows| && db.rows[at].key == d.key
    requires r.key == d.key && Open(r.state) && Carries(r, d, s)
    ensures UpsertEffect(db, db.(rows := db.rows[at := r]), d, s)
    ensures Landed(db.(rows := db.rows[at := r]), d)
  {
    var e := db.(rows := db.rows[at := r]);
    assert e.rows[at] == r;
    forall i | 0 <= i < |db.rows| && i != at ensures db.rows[i].key != d.key {}
    forall i | 0 <= i < |db.rows| ensures e.rows[i].key == db.rows[i].key {}
  }

  lemma {:induction false} UpsertOneEffect(db: Db, d: Detection, s: Stamp)
    requires KeysDistinct(db.rows)
    ensures UpsertEffect(db, UpsertOne(db, d, s), d, s)
    ensures |UpsertOne(db, d, s).rows| == |db.rows| + (if Verdict(db, d) == Created then 1 else 0)
    ensures Landed(UpsertOne(db, d, s), d) || (UpsertOne(db, d, s) == db && Settling(Verdict(db, d)))
    ensures Written(Verdict(db, d)) ==> Landed(UpsertOne(db, d, s), d)
  {
    var found := FindKey(db.rows, d.key);
    match Verdict(db, d)
    case Created => AppendEffect(db, d, s);
    case Reactivated => ReplaceEffect(db, d, s, found.value, ReactivateRow(db.rows[found.value], d, s));
    case Refreshed => ReplaceEffect(db, d, s, found.value, RefreshRow(db.rows[found.value], d, s));
    case Skipped => forall i | 0 <= i < |db.rows| && db.rows[i].key == d.key ensures i == found.value {}
    case CapacitySkipped =>
  }

  // ------------------------------------------------------------- conservation

  /** A batch fails exactly when it holds a detection of another kind. */
  lemma {:induction false} BatchFailsOnForeignKind(db: Db, batch: seq<Detection>, expected: Option<Kind>, s: Stamp)
    ensures UpsertBatch(db, batch, expected, s).result.Err? <==>
      expected.Some? && exists d :: d in batch && d.kind != expected.value
  {
    if batch != [] {
      var front := batch[..|batch| - 1];
      BatchFailsOnForeignKind(db, front, expected, s);
      assert batch == front + [batch[|batch| - 1]];
    }
  }

  /** The summary accounts for every detection, the table grows by exactly the
      created rows and keeps its bound, and dedupe keys stay unique. */
  lemma {:induction false} BatchConserves(db: Db, batch: seq<Detection>, expected: Option<Kind>, s: Stamp)
    requires KeysDistinct(db.rows) && |db.rows| <= MAX_ROWS
    ensures var step := UpsertBatch(db, batch, expected, s);
      && KeysDistinct(step.db.rows) && |db.rows| <= |step.db.rows| <= MAX_ROWS
      && step.db.history == db.history
      && (step.result.Ok? ==>
            var sum := step.result.value;
            && sum.created + sum.reactivated + sum.refreshed + sum.skipped == |batch|
            && sum.capacitySkipped <= sum.skipped
            && |step.db.rows| == |db.rows| + sum.created)
  {
    if batch != [] {
      var front := batch[..|batch| - 1];
      BatchConserves(db, front, expected, s);
      UpsertOneEffect(UpsertBatch(db, front, expected, s).db, batch[|batch| - 1], s);
    }
  }

  // ------------------------------------------------------------ last one wins

  /** Every open row of the table after the batch carries the content of the last
      fitting detection of its key. */
  lemma {:induction false} LastFitWins(db: Db, batch: seq<Detection>, expected: Option<Kind>, s: Stamp)
    requires KeysDistinct(db.rows) && UpsertBatch(db, batch, expected, s).result.Ok?
    ensures var e := UpsertBatch(db, batch, expected, s).db;
      && KeysDistinct(e.rows)
      && forall i :: 0 <= i < |e.rows| && Open(e.rows[i].state) ==>
           var last := LastFit(batch, e.rows[i].key);
           last.Some? ==> Carries(e.rows[i], batch[last.value], s)
  {
    if batch != [] {
      var front := batch[..|batch| - 1];
      var d := batch[|batch| - 1];
      LastFitWins(db, front, expected, s);
      var before := UpsertBatch(db, front, expected, s).db;
      var e := UpsertBatch(db, batch, expected, s).db;
      UpsertOneEffect(before, d, s);
      forall i | 0 <= i < |e.rows| && Open(e.rows[i].state)
        ensures var last := LastFit(batch, e.rows[i].key); last.Some? ==> Carries(e.rows[i], batch[last.value], s)
      {
        if e.rows[i].key != d.key || !Fits(d) {
          assert i < |before.rows|;
          assert LastFit(batch, e.rows[i].key) == LastFit(front, e.rows[i].key);
        }
      }
    }
  }

  /** Rows whose key no detection of the batch names stay as they were. */
  lemma {:induction false} OthersUntouched(db: Db, batch: seq<Detection>, expected: Option<Kind>, s: Stamp, i: nat)
    requires KeysDistinct(db.rows) && i < |db.rows| && db.rows[i].key !in Keys(batch)
    ensures var e := UpsertBatch(db, batch, expected, s).db;
      KeysDistinct(e.rows) && |db.rows| <= |e.rows| && e.rows[i] == db.rows[i]
  {
    if batch != [] {
      var front := batch[..|batch| - 1];
      var d := batch[|batch| - 1];
      assert d in batch;
      assert forall x :: x in front ==> x in batch;
      OthersUntouched(db, front, expected, s, i);
      assert batch == front + [d];
      UpsertLast(db, front, d, expected, s);
      UpsertOneEffect(UpsertBatch(db, front, expected, s).db, d, s);
    }
  }


  lemma {:induction false} LandedStays(before: Db, d: Detection, s: Stamp, other: Detection)
    requires KeysDistinct(before.rows) && Landed(before, other)
    ensures Landed(UpsertOne(before, d, s), other)
  {
    UpsertOneEffect(before, d, s);
    var e := UpsertOne(before, d, s);
    var i :| 0 <= i < |before.rows| && before.rows[i].key == other.key && Open(before.rows[i].state);
    assert e.rows[i].key == other.key && Open(e.rows[i].state);
  }

  lemma {:induction false} BatchKeepsKeys(db: Db, batch: seq<Detection>, expected: Option<Kind>, s: Stamp)
    requires KeysDistinct(db.rows)
    ensures KeysDistinct(UpsertBatch(db, batch, expected, s).db.rows)
  {
    if batch != [] {
      var (front, d) := (batch[..|batch| - 1], batch[|batch| - 1]);
      assert batch == front + [d];
      BatchKeepsKeys(db, front, expected, s);
      UpsertLast(db, front, d, expected, s);
      UpsertOneEffect(UpsertBatch(db, front, expected, s).db, d, s);
    }
  }

  /** A detection reported created, reactivated or refreshed leaves its row open. */
  lemma {:induction false} WrittenStaysOpen(
    db: Db, batch: seq<Detection>, expected: Option<Kind>, s: Stamp, j: nat)
    requires KeysDistinct(db.rows) && UpsertBatch(db, batch, expected, s).result.Ok? && j < |batch|
    requires Written(Verdict(UpsertBatch(db, batch[..j], expected, s).db, batch[j]))
    ensures Landed(UpsertBatch(db, batch, expected, s).db, batch[j])
  {
    var (front, d) := (batch[..|batch| - 1], batch[|batch| - 1]);
    assert batch == front + [d];
    var before := UpsertBatch(db, front, expected, s).db;
    BatchKeepsKeys(db, front, expected, s);
    UpsertLast(db, front, d, expected, s);
    if j == |batch| - 1 {
      UpsertOneEffect(before, d, s);
    } else {
      assert front[..j] == batch[..j];
      WrittenStaysOpen(db, front, expected, s, j);
      LandedStays(before, d, s, batch[j]);
    }
  }

  // -------------------------------------------------------------- idempotence


  lemma {:induction false} LandedSettles(e: Db, d: Detection)
    requires KeysDistinct(e.rows) && Landed(e, d)
    ensures Settling(Verdict(e, d))
  {
    var i :| 0 <= i < |e.rows| && e.rows[i].key == d.key && Open(e.rows[i].state);
    FindKeyUnique(e.rows, i);
  }

  lemma {:induction false} SettledSelf(db: Db, d: Detection, s: Stamp)
    requires KeysDistinct(db.rows)
    ensures Settling(Verdict(UpsertOne(db, d, s), d))
  {
    UpsertOneEffect(db, d, s);
    if Landed(UpsertOne(db, d, s), d) { LandedSettles(UpsertOne(db, d, s), d); }
  }

  lemma {:induction false} SettlingKept(db: Db, e: Db, d: Detection, s: Stamp, other: Detection)
    requires KeysDistinct(db.rows) && UpsertEffect(db, e, d, s)
    requires Settling(Verdict(db, other)) && Fits(other)
    ensures Settling(Verdict(e, other))
  {
    var found := FindKey(db.rows, other.key);
    if found.Some? {
      FindKeyUnique(e.rows, found.value);
      if Open(e.rows[found.value].state) { assert Landed(e, other); LandedSettles(e, other); }
    } else {
      assert |e.rows| == |db.rows|;
      assert forall i :: 0 <= i < |e.rows| ==> e.rows[i].key == db.rows[i].key;
    }
  }

  lemma {:induction false} StaysSettled(before: Db, d: Detection, s: Stamp, other: Detection)
    requires KeysDistinct(before.rows) && (Settling(Verdict(before, other)) || other == d)
    ensures Settling(Verdict(UpsertOne(before, d, s), other))
  {
    if other == d {
      SettledSelf(before, d, s);
    } else if Fits(other) {
      UpsertOneEffect(before, d, s);
      SettlingKept(before, UpsertOne(before, d, s), d, s, other);
    }
  }

  ghost predicate AllSettle(db: Db, batch: seq<Detection>)
  {
    forall j :: 0 <= j < |batch| ==> Settling(Verdict(db, batch[j]))
  }

  lemma {:induction false} SettleOneMore(before: Db, front: seq<Detection>, d: Detection, s: Stamp)
    requires KeysDistinct(before.rows) && AllSettle(before, front)
    ensures KeysDistinct(UpsertOne(before, d, s).rows) && AllSettle(UpsertOne(before, d, s), front + [d])
  {
    UpsertOneEffect(before, d, s);
    var batch := front + [d];
    forall j | 0 <= j < |batch| ensures Settling(Verdict(UpsertOne(before, d, s), batch[j])) {
      if j < |front| { assert batch[j] == front[j]; }
      StaysSettled(before, d, s, batch[j]);
    }
  }

  /** After a batch none of its detections would create or reactivate a row. */
  lemma {:induction false} BatchSettles(db: Db, batch: seq<Detection>, expected: Option<Kind>, s: Stamp)
    requires KeysDistinct(db.rows) && UpsertBatch(db, batch, expected, s).result.Ok?
    ensures KeysDistinct(UpsertBatch(db, batch, expected, s).db.rows)
    ensures AllSettle(UpsertBatch(db, batch, expected, s).db, batch)
  {
    if batch != [] {
      var (front, d) := (batch[..|batch| - 1], batch[|batch| - 1]);
      assert batch == front + [d];
      UpsertLast(db, front, d, expected, s);
      BatchSettles(db, front, expected, s);
      SettleOneMore(UpsertBatch(db, front, expected, s).db, front, d, s);
    }
  }

  /** The table midway through a second application: open rows named so far carry
      the last fitting detection of that prefix, everything else is as it was. */
  ghost predicate Overlaid(db: Db, e: Db, prefix: seq<Detection>, s: Stamp)
  {
    && e == db.(rows := e.rows) && |e.rows| == |db.rows|
    && forall i :: 0 <= i < |db.rows| ==>
         var last := LastFit(prefix, db.rows[i].key);
         e.rows[i] == if last.Some? && Open(db.rows[i].state) then RefreshRow(db.rows[i], prefix[last.value], s) else db.rows[i]
  }

  lemma {:induction false} OverlayVerdict(db: Db, e: Db, prefix: seq<Detection>, d: Detection, s: Stamp)
    requires KeysDistinct(db.rows) && Overlaid(db, e, prefix, s)
    ensures KeysDistinct(e.rows)
    ensures FindKey(e.rows, d.key) == FindKey(db.rows, d.key)
    ensures Verdict(e, d) == Verdict(db, d)
  {
    forall i | 0 <= i < |db.rows| ensures e.rows[i].key == db.rows[i].key && e.rows[i].state == db.rows[i].state {}
    var found := FindKey(db.rows, d.key);
    if found.Some? {
      FindKeyUnique(e.rows, found.value);
    }
  }

  lemma {:induction false} LastFitStep(prefix: seq<Detection>, d: Detection, key: string)
    ensures LastFit(prefix + [d], key) == if key == d.key && Fits(d) then Some(|prefix|) else LastFit(prefix, key)
  {
    assert (prefix + [d])[..|prefix|] == prefix;
  }

  lemma {:induction false} OverlayStep(db: Db, e: Db, prefix: seq<Detection>, d: Detection, s: Stamp)
    requires KeysDistinct(db.rows) && Overlaid(db, e, prefix, s) && Settling(Verdict(db, d))
    ensures Verdict(e, d) == Verdict(db, d)
    ensures Overlaid(db, UpsertOne(e, d, s), prefix + [d], s)
  {
    OverlayVerdict(db, e, prefix, d, s);
    var next := UpsertOne(e, d, s);
    var found := FindKey(db.rows, d.key);
    forall i | 0 <= i < |db.rows|
      ensures var last := LastFit(prefix + [d], db.rows[i].key);
        next.rows[i] == if last.Some? && Open(db.rows[i].state)
                        then RefreshRow(db.rows[i], (prefix + [d])[last.value], s) else db.rows[i]
    {
      LastFitStep(prefix, d, db.rows[i].key);
      if db.rows[i].key == d.key {
        FindKeyUnique(db.rows, i);
      }
    }
  }

  lemma {:induction false} SecondPass(db: Db, batch: seq<Detection>, expected: Option<Kind>, s: Stamp)
    requires KeysDistinct(db.rows)
    requires AllSettle(db, batch)
    requires expected.Some? ==> forall j :: 0 <= j < |batch| ==> batch[j].kind == expected.value
    ensures var step := UpsertBatch(db, batch, expected, s);
      && step.result.Ok? && step.result.value.created == 0 && step.result.value.reactivated == 0
      && Overlaid(db, step.db, batch, s)
  {
    if batch != [] {
      var (front, d) := (batch[..|batch| - 1], batch[|batch| - 1]);
      assert batch == front + [d];
      SecondPass(db, front, expected, s);
      UpsertLast(db, front, d, expected, s);
      OverlayStep(db, UpsertBatch(db, front, expected, s).db, front, d, s);
    }
  }

  /** Applying the same batch again at the same instant changes nothing, and
      creates and reactivates nothing. */
  lemma {:induction false} ReapplyChangesNothing(db: Db, batch: seq<Detection>, expected: Option<Kind>, s: Stamp)
    requires KeysDistinct(db.rows) && |db.rows| <= MAX_ROWS
    requires UpsertBatch(db, batch, expected, s).result.Ok?
    ensures var once := UpsertBatch(db, batch, expected, s).db;
      var twice := UpsertBatch(once, batch, expected, s);
      && twice.db == once
      && twice.result.Ok? && twice.result.value.created == 0 && twice.result.value.reactivated == 0
  {
    var once := UpsertBatch(db, batch, expected, s).db;
    BatchConserves(db, batch, expected, s);
    BatchSettles(db, batch, expected, s);
    LastFitWins(db, batch, expected, s);
    forall j | 0 <= j < |batch| && expected.Some? ensures batch[j].kind == expected.value {
      BatchFailsOnForeignKind(db, batch, expected, s);
      assert batch[j] in batch;
    }
    SecondPass(once, batch, expected, s);
    OverlayIsIdentity(once, UpsertBatch(once, batch, expected, s).db, batch, s);
  }

  lemma {:induction false} OverlayIsIdentity(db: Db, e: Db, batch: seq<Detection>, s: Stamp)
    requires Overlaid(db, e, batch, s)
    requires forall i :: 0 <= i < |db.rows| && Open(db.rows[i].state) ==>
      var last := LastFit(batch, db.rows[i].key);
      last.Some? ==> Carries(db.rows[i], batch[last.value], s)
    ensures e == db
  {
    assert e.rows == db.rows;
  }
}
