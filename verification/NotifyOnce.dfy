/** One-shot notifications over runs: one record per situation, one terminal
    outcome per record, and at most one record outside the configured set. */
module NotifyOnce {
  import opened Situations
  import opened Leasing
  import opened Truth
  import opened Protocol
  import opened Confirmations
  import opened Runs
  import opened Fallbacks

  ghost predicate OneRecordEach(fallbacks: seq<Fallback>)
  {
    forall i, j :: 0 <= i < j < |fallbacks| ==> fallbacks[i].row != fallbacks[j].row
  }

  /** Only the very first record may have a priority outside the set. */
  ghost predicate FirstOnlyOutside(fallbacks: seq<Fallback>, priorities: set<Priority>)
  {
    forall k :: 1 <= k < |fallbacks| ==> fallbacks[k].priority in priorities
  }

  /** Records are kept in place and a terminal outcome is never replaced. */
  ghost predicate RecordsKept(before: seq<Fallback>, after: seq<Fallback>)
  {
    && |before| <= |after|
    && forall k :: 0 <= k < |before| ==>
         && after[k].row == before[k].row
         && after[k].priority == before[k].priority
         && after[k].claimedAt == before[k].claimedAt
         && (before[k].notice != Claimed ==> after[k] == before[k])
  }

  ghost predicate Configured(m: Move, priorities: set<Priority>)
  {
    m.action.ClaimingFallback? && m.action.attempt.mode == ConfiguredMode ==>
      m.action.attempt.priorities == priorities
  }

  ghost predicate Notified(db: Db, priorities: set<Priority>)
  {
    OneRecordEach(db.fallbacks) && FirstOnlyOutside(db.fallbacks, priorities)
  }

  lemma {:induction false} ClaimAddsOneRecord(db: Db, a: Attempt)
    ensures var e := ClaimNext(db, a).db;
      e.fallbacks == db.fallbacks ||
      exists row: nat :: MayClaim(db, a, row) && e.fallbacks
        == db.fallbacks + [Fallback(row, db.rows[row].priority, Claimed, a.claimedAt)]
  {
    ClaimTakesFirst(db, a);
  }

  lemma {:induction false} OthersKeepRecords(w: World, m: Move, cooldown: int)
    requires Base(w) && Allowed(w, m, cooldown)
    requires !m.action.ClaimingFallback? && !m.action.CompletingFallback?
    ensures Next(w.db, m.action, m.at).fallbacks == w.db.fallbacks
  {
    if m.action.Reserving? {
      ReserveActions(w.db, m.action.claim, m.action.token, m.action.expires);
    } else if m.action.Confirming? {
      ConfirmIsAtomic(w, m.action.token, m.at);
    } else if IsBackground(m.action) {
      BackgroundActions(w.db, m.action, m.at);
    } else {
      UserActions(w.db, m.action, m.at);
    }
  }

  lemma {:induction false} ClaimKeepsNotified(db: Db, a: Attempt, priorities: set<Priority>)
    requires Notified(db, priorities) && (a.mode == ConfiguredMode ==> a.priorities == priorities)
    ensures Notified(ClaimNext(db, a).db, priorities)
    ensures RecordsKept(db.fallbacks, ClaimNext(db, a).db.fallbacks)
  {
    var e := ClaimNext(db, a).db;
    ClaimAddsOneRecord(db, a);
    if e.fallbacks != db.fallbacks {
      var row: nat :| MayClaim(db, a, row) && e.fallbacks
        == db.fallbacks + [Fallback(row, db.rows[row].priority, Claimed, a.claimedAt)];
      forall i | 0 <= i < |db.fallbacks| ensures db.fallbacks[i].row != row {}
    }
  }

  lemma {:induction false} CompleteKeepsNotified(db: Db, row: nat, notice: Notice, priorities: set<Priority>)
    requires Notified(db, priorities)
    ensures Notified(RecordOutcome(db, row, notice).db, priorities)
    ensures RecordsKept(db.fallbacks, RecordOutcome(db, row, notice).db.fallbacks)
  {
  }

  /** No action touches a record except to complete an open claim, and claims only
      add a record for a situation that has none. */
  lemma {:induction false} NotifiedHolds(w: World, m: Move, cooldown: int, priorities: set<Priority>)
    requires Base(w) && Allowed(w, m, cooldown) && Configured(m, priorities)
    requires Notified(w.db, priorities)
    ensures Notified(Advance(w, m).db, priorities)
    ensures RecordsKept(w.db.fallbacks, Advance(w, m).db.fallbacks)
  {
    if m.action.ClaimingFallback? {
      ClaimKeepsNotified(w.db, m.action.attempt, priorities);
    } else if m.action.CompletingFallback? {
      CompleteKeepsNotified(w.db, m.action.row, m.action.notice, priorities);
    } else {
      OthersKeepRecords(w, m, cooldown);
    }
  }

  ghost predicate ConfiguredRun(moves: seq<Move>, priorities: set<Priority>)
  {
    forall i :: 0 <= i < |moves| ==> Configured(moves[i], priorities)
  }

  /** In every run with one configured priority set, each situation has at most one
      record and at most one record has a priority outside the set. */
  lemma {:induction false} NotifiedInEveryRun(clock: int, moves: seq<Move>, cooldown: int, priorities: set<Priority>)
    requires AllowedRun(Begin(clock), moves, cooldown) && ConfiguredRun(moves, priorities)
    ensures Notified(Run(Begin(clock), moves).db, priorities)
  {
    if moves != [] {
      var front := moves[..|moves| - 1];
      NotifiedInEveryRun(clock, front, cooldown, priorities);
      BaseInEveryRun(clock, front, cooldown);
      NotifiedHolds(Run(Begin(clock), front), moves[|moves| - 1], cooldown, priorities);
    }
  }

  /** Along any continuation of a run, records stay and terminal outcomes stay. */
  lemma {:induction false} OutcomesAreFinal(w: World, moves: seq<Move>, cooldown: int, priorities: set<Priority>)
    requires Base(w) && AllowedRun(w, moves, cooldown) && ConfiguredRun(moves, priorities) && Notified(w.db, priorities)
    ensures Base(Run(w, moves)) && Notified(Run(w, moves).db, priorities)
    ensures RecordsKept(w.db.fallbacks, Run(w, moves).db.fallbacks)
  {
    if moves != [] {
      var front := moves[..|moves| - 1];
      var before := Run(w, front);
      OutcomesAreFinal(w, front, cooldown, priorities);
      NotifiedHolds(before, moves[|moves| - 1], cooldown, priorities);
      BaseHolds(before, moves[|moves| - 1], cooldown);
      KeptChains(w.db.fallbacks, before.db.fallbacks, Advance(before, moves[|moves| - 1]).db.fallbacks);
    }
  }

  lemma {:induction false} KeptChains(a: seq<Fallback>, b: seq<Fallback>, c: seq<Fallback>)
    requires RecordsKept(a, b) && RecordsKept(b, c)
    ensures RecordsKept(a, c)
  {
  }

  /** A fallback claim or outcome never changes a situation, a delivery or a lease. */
  lemma {:induction false} FallbacksLeaveDeliveryAlone(w: World, m: Move)
    requires m.action.ClaimingFallback? || m.action.CompletingFallback?
    ensures Advance(w, m).db.(fallbacks := w.db.fallbacks) == w.db
  {
    FallbackActions(w.db, m.action, m.at);
  }
}
