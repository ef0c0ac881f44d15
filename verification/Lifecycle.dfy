/** What every reachable state keeps of a situation's life: terminal states, the
    agreement of rows with the immutable history, and lease ownership. The history is
    in time order, so the last entry of a row is its newest. */
module Lifecycle {
  import opened Situations
  import opened Leasing
  import opened Truth
  import opened Protocol
  import opened ReservePasses
  import opened Confirmations
  import opened Runs

  function LastDelivery(history: seq<Delivery>, row: nat): Option<int>
  {
    if history == [] then None
    else if history[|history| - 1].row == row then Some(history[|history| - 1].at)
    else LastDelivery(history[..|history| - 1], row)
  }

  lemma {:induction false} LastDeliveryFacts(history: seq<Delivery>, row: nat)
    ensures LastDelivery(history, row).Some? <==> HasHistory(history, row)
    ensures LastDelivery(history, row).Some? ==>
      exists k :: 0 <= k < |history| && history[k] == Delivery(row, LastDelivery(history, row).value, history[k].priority)
        && forall j :: k < j < |history| ==> history[j].row != row
  {
    if history != [] {
      var n := |history| - 1;
      if history[n].row == row {
        assert history[n] == Delivery(row, history[n].at, history[n].priority);
      } else {
        LastDeliveryFacts(history[..n], row);
        if HasHistory(history[..n], row) {
          var k :| 0 <= k < n && history[..n][k] == Delivery(row, LastDelivery(history[..n], row).value, history[..n][k].priority)
            && forall j :: k < j < n ==> history[..n][j].row != row;
          assert history[k].row == row;
        }
        if HasHistory(history, row) {
          var k :| 0 <= k < |history| && history[k].row == row;
          assert history[..n][k].row == row;
        }
      }
    }
  }

  lemma {:induction false} LastAfterDeliveries(history: seq<Delivery>, rows: seq<Row>, ids: seq<nat>, at: int, row: nat)
    requires forall k :: 0 <= k < |ids| ==> ids[k] < |rows|
    ensures LastDelivery(history + Deliveries(rows, ids, at), row)
         == if row in ids then Some(at) else LastDelivery(history, row)
  {
    if ids == [] {
      assert history + Deliveries(rows, ids, at) == history;
    } else {
      var front := ids[..|ids| - 1];
      var all := history + Deliveries(rows, ids, at);
      assert all[..|all| - 1] == history + Deliveries(rows, front, at);
      assert all[|all| - 1] == Deliveries(rows, ids, at)[|ids| - 1];
      LastAfterDeliveries(history, rows, front, at, row);
      assert ids == front + [ids[|ids| - 1]];
    }
  }

  predicate WasDelivered(state: State)
  {
    state == Delivered || state == Acknowledged || state == Snoozed || state == Muted
  }

  /** Rows agree with the history: a row that was offered to the user has history,
      and `deliveredAt` is the time of the newest history entry. */
  ghost predicate RowsMatchHistory(db: Db)
  {
    forall row: nat :: row < |db.rows| ==>
      && (WasDelivered(db.rows[row].state) ==> HasHistory(db.history, row))
      && db.rows[row].deliveredAt == LastDelivery(db.history, row)
  }

  /** History is in time order, so the last entry of a row is its newest. */
  ghost predicate HistoryOrdered(w: World)
  {
    && (forall i, j :: 0 <= i < j < |w.db.history| ==> w.db.history[i].at <= w.db.history[j].at)
    && (forall i :: 0 <= i < |w.db.history| ==> w.db.history[i].at <= w.clock)
  }

  /** A leased row is pending, or it ended while the lease was out. */
  ghost predicate LeasedStates(db: Db)
  {
    forall row :: row in db.leases && row < |db.rows| ==>
      db.rows[row].state == Pending || Settled(db.rows[row].state)
  }

  ghost predicate Consistent(w: World)
  {
    RowsMatchHistory(w.db) && HistoryOrdered(w) && LeasedStates(w.db)
  }

  lemma {:induction false} NoLastDelivery(history: seq<Delivery>, row: nat)
    requires forall k :: 0 <= k < |history| ==> history[k].row != row
    ensures LastDelivery(history, row) == None && !HasHistory(history, row)
  {
    LastDeliveryFacts(history, row);
  }

  lemma {:induction false} ConsistentAfterBackground(db: Db, e: Db)
    requires HistoryInTable(db) && RowsMatchHistory(db) && LeasedStates(db) && LeasesInTable(db)
    requires BackgroundStep(db, e)
    ensures RowsMatchHistory(e) && LeasedStates(e)
  {
    forall row: nat | row < |e.rows|
      ensures WasDelivered(e.rows[row].state) ==> HasHistory(e.history, row)
      ensures e.rows[row].deliveredAt == LastDelivery(e.history, row)
    {
      if row < |db.rows| {
        assert Background(db.rows[row], e.rows[row], HasHistory(db.history, row));
      } else {
        NoLastDelivery(e.history, row);
        assert NewlyDetected(e.rows[row]);
      }
    }
    forall row | row in e.leases && row < |e.rows| ensures e.rows[row].state == Pending || Settled(e.rows[row].state) {
      assert Background(db.rows[row], e.rows[row], HasHistory(db.history, row));
    }
  }

  lemma {:induction false} MatchAfterUser(db: Db, e: Db, row: nat, snoozed: bool)
    requires RowsMatchHistory(db) && UserStep(db, e, row, snoozed)
    ensures RowsMatchHistory(e)
  {
    forall i: nat | i < |e.rows|
      ensures WasDelivered(e.rows[i].state) ==> HasHistory(e.history, i)
      ensures e.rows[i].deliveredAt == LastDelivery(e.history, i)
    {
      assert WasDelivered(db.rows[i].state) ==> HasHistory(db.history, i);
      assert db.rows[i].deliveredAt == LastDelivery(db.history, i);
    }
  }

  lemma {:induction false} LeasedAfterUser(db: Db, e: Db, row: nat, snoozed: bool)
    requires LeasedStates(db) && UserStep(db, e, row, snoozed)
    ensures LeasedStates(e)
  {
  }

  lemma {:induction false} ConsistentAfterUser(db: Db, a: Action, at: int)
    requires RowsMatchHistory(db) && LeasedStates(db) && IsUser(a)
    ensures RowsMatchHistory(Next(db, a, at)) && LeasedStates(Next(db, a, at))
  {
    var snoozed := a.Snoozing? && Snooze(db, a.row, a.until, at).result.Ok?;
    UserActions(db, a, at);
    MatchAfterUser(db, Next(db, a, at), UserRow(a), snoozed);
    LeasedAfterUser(db, Next(db, a, at), UserRow(a), snoozed);
  }

  lemma {:induction false} ConsistentAfterReserve(w: World, m: Move, cooldown: int)
    requires Base(w) && Consistent(w) && Allowed(w, m, cooldown) && m.action.Reserving?
    ensures RowsMatchHistory(Advance(w, m).db) && LeasedStates(Advance(w, m).db)
  {
    ReserveActions(w.db, m.action.claim, m.action.token, m.action.expires);
  }

  lemma {:induction false} ConsistentAfterConfirm(w: World, m: Move)
    requires Base(w) && Consistent(w) && m.action.Confirming? && Delivers(w.db, m.action, m.at)
    ensures RowsMatchHistory(Advance(w, m).db) && LeasedStates(Advance(w, m).db)
  {
    var ids := ConfirmedIds(w.db, m.action.token, m.at);
    var e := Advance(w, m).db;
    ConfirmIsAtomic(w, m.action.token, m.at);
    ConfirmedIdsFacts(w.db, m.action.token, m.at);
    forall row: nat | row < |e.rows|
      ensures WasDelivered(e.rows[row].state) ==> HasHistory(e.history, row)
      ensures e.rows[row].deliveredAt == LastDelivery(e.history, row)
    {
      LastAfterDeliveries(w.db.history, w.db.rows, ids, m.at, row);
      LastDeliveryFacts(e.history, row);
      LastDeliveryFacts(w.db.history, row);
    }
    forall row | row in e.leases && row < |e.rows| ensures e.rows[row].state == Pending || Settled(e.rows[row].state) {
      assert row !in Owned(w.db, m.action.token, m.at);
      assert row !in ids;
    }
  }

  lemma {:induction false} OrderedAppend(history: seq<Delivery>, more: seq<Delivery>, clock: int, at: int)
    requires clock <= at
    requires forall i, j :: 0 <= i < j < |history| ==> history[i].at <= history[j].at
    requires forall i :: 0 <= i < |history| ==> history[i].at <= clock
    requires forall i :: 0 <= i < |more| ==> more[i].at == at
    ensures var all := history + more;
      && (forall i, j :: 0 <= i < j < |all| ==> all[i].at <= all[j].at)
      && (forall i :: 0 <= i < |all| ==> all[i].at <= at)
  {
  }

  lemma {:induction false} OrderedAfterConfirm(w: World, m: Move)
    requires Base(w) && HistoryOrdered(w) && m.at >= w.clock && m.action.Confirming?
    ensures HistoryOrdered(Advance(w, m))
  {
    ConfirmIsAtomic(w, m.action.token, m.at);
    if Delivers(w.db, m.action, m.at) {
      var more := Deliveries(w.db.rows, ConfirmedIds(w.db, m.action.token, m.at), m.at);
      OrderedAppend(w.db.history, more, w.clock, m.at);
    }
  }

  lemma {:induction false} OrderedSame(w: World, m: Move)
    requires HistoryOrdered(w) && m.at >= w.clock
    requires Next(w.db, m.action, m.at).history == w.db.history
    ensures HistoryOrdered(Advance(w, m))
  {
  }

  lemma {:induction false} OrderedHolds(w: World, m: Move)
    requires Base(w) && HistoryOrdered(w) && m.at >= w.clock
    requires m.action.Reserving? ==> Next(w.db, m.action, m.at).history == w.db.history
    ensures HistoryOrdered(Advance(w, m))
  {
    if m.action.Confirming? {
      OrderedAfterConfirm(w, m);
    } else {
      if !m.action.Reserving? { QuietKeepsTables(w.db, m.action, m.at); }
      OrderedSame(w, m);
    }
  }

  lemma {:induction false} ConsistentHolds(w: World, m: Move, cooldown: int)
    requires Base(w) && Consistent(w) && Allowed(w, m, cooldown)
    ensures Consistent(Advance(w, m))
  {
    if m.action.Reserving? {
      ReserveActions(w.db, m.action.claim, m.action.token, m.action.expires);
      ConsistentAfterReserve(w, m, cooldown);
    } else if m.action.Confirming? {
      ConfirmIsAtomic(w, m.action.token, m.at);
      if Delivers(w.db, m.action, m.at) {
        ConsistentAfterConfirm(w, m);
      }
    } else if IsBackground(m.action) {
      BackgroundActions(w.db, m.action, m.at);
      ConsistentAfterBackground(w.db, Next(w.db, m.action, m.at));
    } else if IsUser(m.action) {
      ConsistentAfterUser(w.db, m.action, m.at);
    } else {
      FallbackActions(w.db, m.action, m.at);
    }
    OrderedHolds(w, m);
  }

  /** In every reachable state rows agree with the history and a leased row is
      pending or ended. */
  lemma {:induction false} ConsistentInEveryRun(clock: int, moves: seq<Move>, cooldown: int)
    requires AllowedRun(Begin(clock), moves, cooldown)
    ensures Consistent(Run(Begin(clock), moves))
  {
    if moves != [] {
      var front := moves[..|moves| - 1];
      ConsistentInEveryRun(clock, front, cooldown);
      BaseInEveryRun(clock, front, cooldown);
      ConsistentHolds(Run(Begin(clock), front), moves[|moves| - 1], cooldown);
    }
  }

  // --------------------------------------------------------- absorbing states

  /** A row that nothing may change any more: acknowledged, muted, or a delivered
      personal occasion that ended. */
  ghost predicate Final(db: Db, row: nat)
  {
    && row < |db.rows|
    && (|| db.rows[row].state == Acknowledged
        || db.rows[row].state == Muted
        || (db.rows[row].kind == PersonalOccasion && HasHistory(db.history, row) && Settled(db.rows[row].state)))
  }

  lemma {:induction false} FinalHolds(w: World, m: Move, cooldown: int, row: nat)
    requires Base(w) && Allowed(w, m, cooldown) && Final(w.db, row)
    ensures Final(Advance(w, m).db, row) && Advance(w, m).db.rows[row] == w.db.rows[row]
  {
    var e := Next(w.db, m.action, m.at);
    if m.action.Reserving? {
      ReserveActions(w.db, m.action.claim, m.action.token, m.action.expires);
    } else if m.action.Confirming? {
      ConfirmIsAtomic(w, m.action.token, m.at);
      if Delivers(w.db, m.action, m.at) {
        ConfirmedIdsFacts(w.db, m.action.token, m.at);
        var ids := ConfirmedIds(w.db, m.action.token, m.at);
        assert row !in ids;
        if HasHistory(w.db.history, row) {
          var k :| 0 <= k < |w.db.history| && w.db.history[k].row == row;
          assert e.history[k].row == row;
        }
      }
    } else if IsBackground(m.action) {
      BackgroundActions(w.db, m.action, m.at);
      assert Background(w.db.rows[row], e.rows[row], HasHistory(w.db.history, row));
    } else if IsUser(m.action) {
      UserActions(w.db, m.action, m.at);
    } else {
      FallbackActions(w.db, m.action, m.at);
    }
  }

  /** A final row is never changed again, whatever the run goes on to do. */
  lemma {:induction false} FinalForever(w: World, moves: seq<Move>, cooldown: int, row: nat)
    requires Base(w) && AllowedRun(w, moves, cooldown) && Final(w.db, row)
    ensures Base(Run(w, moves))
    ensures Final(Run(w, moves).db, row) && Run(w, moves).db.rows[row] == w.db.rows[row]
  {
    if moves != [] {
      var front := moves[..|moves| - 1];
      FinalForever(w, front, cooldown, row);
      BaseHolds(Run(w, front), moves[|moves| - 1], cooldown);
      FinalHolds(Run(w, front), moves[|moves| - 1], cooldown, row);
    }
  }
}
