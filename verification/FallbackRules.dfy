/** Which situation a fallback claims, and what its outcome records. */
module FallbackRules {
  import opened Situations
  import opened Fallbacks

  /** A row is due for a notification: it has waited unexpired, its kind is not muted, and
      no delivery, live lease or notification of it exists; a configured attempt also asks
      for its priority, a first attempt for an empty history and no notification at all. */
  ghost predicate Due(db: Db, a: Attempt, row: nat)
  {
    && row < |db.rows|
    && db.rows[row].state == Pending && db.rows[row].detectedAt <= a.detectedBefore
    && (db.rows[row].expiresAt == None || db.rows[row].expiresAt.value > a.claimedAt)
    && db.rows[row].kind !in db.mutes
    && (forall d :: d in db.history ==> d.row != row)
    && (row in db.leases ==> db.leases[row].expiresAt <= a.claimedAt)
    && (forall f :: f in db.fallbacks ==> f.row != row)
    && (a.mode == ConfiguredMode ==> db.rows[row].priority in a.priorities)
    && (a.mode == BootstrapMode ==> db.history == [] && db.fallbacks == [])
  }

  /** The first of two due rows: by priority for a configured attempt, then by detection,
      then by id. */
  predicate First(rows: seq<Row>, mode: Mode, a: nat, b: nat)
    requires a < |rows| && b < |rows|
  {
    var (x, y) := (rows[a], rows[b]);
    var level := mode == BootstrapMode || x.priority == y.priority;
    || (mode == ConfiguredMode && x.priority == Critical && y.priority != Critical)
    || (mode == ConfiguredMode && x.priority == High && y.priority == Routine)
    || (level && x.detectedAt < y.detectedAt)
    || (level && x.detectedAt == y.detectedAt && a <= b)
  }

  lemma {:induction false} DueExactly(db: Db, a: Attempt, row: nat)
    ensures MayClaim(db, a, row) <==> Due(db, a, row)
  {
    if Due(db, a, row) {
      forall k | 0 <= k < |db.history| ensures db.history[k].row != row { assert db.history[k] in db.history; }
      forall k | 0 <= k < |db.fallbacks| ensures db.fallbacks[k].row != row { assert db.fallbacks[k] in db.fallbacks; }
    }
  }

  /** A claim records the first due row as claimed at its instant and changes nothing
      else; it finds nothing exactly when no row is due. */
  lemma {:induction false} ClaimsFirstDue(db: Db, a: Attempt)
    ensures var step := ClaimNext(db, a);
      match step.result
      case Ok(None) => step.db == db && forall row: nat :: !Due(db, a, row)
      case Ok(Some(row)) =>
        && Due(db, a, row)
        && (forall other: nat :: Due(db, a, other) ==> First(db.rows, a.mode, row, other))
        && step.db == db.(fallbacks := db.fallbacks + [Fallback(row, db.rows[row].priority, Claimed, a.claimedAt)])
      case Err(_) => false
  {
    ClaimTakesFirst(db, a);
    forall row: nat ensures MayClaim(db, a, row) <==> Due(db, a, row) {
      DueExactly(db, a, row);
    }
  }

  /** An outcome goes to a claimed record of the row and to nothing else; without one it is
      refused. */
  lemma {:induction false} OutcomeIsRecorded(db: Db, row: nat, notice: Notice)
    ensures var step := RecordOutcome(db, row, notice);
      var open := exists f :: f in db.fallbacks && f.row == row && f.notice == Claimed;
      && (!open ==> step == Step(db, Err(NotClaimed(row))))
      && (open ==>
            && step.result == Ok(())
            && step.db == db.(fallbacks := step.db.fallbacks) && |step.db.fallbacks| == |db.fallbacks|
            && exists k :: 0 <= k < |db.fallbacks|
                 && db.fallbacks[k].row == row && db.fallbacks[k].notice == Claimed
                 && step.db.fallbacks[k] == Fallback(row, db.fallbacks[k].priority, notice, db.fallbacks[k].claimedAt)
                 && forall i :: 0 <= i < |db.fallbacks| && i != k ==> step.db.fallbacks[i] == db.fallbacks[i])
  {
    var found := FindOpen(db.fallbacks, row);
    if found.Some? {
      assert db.fallbacks[found.value] in db.fallbacks;
    }
  }
}
