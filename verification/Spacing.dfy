/** Over every run, two deliveries of one situation with no snooze between them
    are at least the cooldown apart. */
module Spacing {
  import opened Situations
  import opened Leasing
  import opened Truth
  import opened Protocol
  import opened ReservePasses
  import opened Confirmations
  import opened Runs

  predicate DeliversRow(e: Event, row: nat)
  {
    e.DeliveredEvent? && e.row == row
  }

  predicate SnoozesRow(e: Event, row: nat)
  {
    e.SnoozedEvent? && e.row == row
  }

  /** No snooze of the row after position `i` of the log. */
  ghost predicate Unsnoozed(events: seq<Event>, i: nat, row: nat)
  {
    forall j :: i < j < |events| ==> !SnoozesRow(events[j], row)
  }

  ghost predicate Spaced(events: seq<Event>, cooldown: int)
  {
    forall i, j, row ::
      0 <= i < j < |events| && DeliversRow(events[i], row) && DeliversRow(events[j], row)
      && Unsnoozed(events[..j], i, row)
      ==> events[i].at + cooldown <= events[j].at
  }

  ghost predicate InHistory(history: seq<Delivery>, e: Event)
  {
    exists k :: 0 <= k < |history| && history[k].row == e.row && history[k].at == e.at
  }

  ghost predicate AllRecorded(events: seq<Event>, history: seq<Delivery>)
  {
    forall i :: 0 <= i < |events| && events[i].DeliveredEvent? ==> InHistory(history, events[i])
  }

  /** Every delivery event has its row in the immutable history. */
  ghost predicate Recorded(w: World)
  {
    AllRecorded(w.events, w.db.history)
  }

  /** A row is exempt from the cooldown only if it was snoozed after each of its
      deliveries. */
  ghost predicate ExemptMeansSnoozed(w: World)
  {
    forall row: nat, i ::
      row < |w.db.rows| && w.db.rows[row].exempt && 0 <= i < |w.events| && DeliversRow(w.events[i], row)
      ==> !Unsnoozed(w.events, i, row)
  }

  /** A lease was taken a cooldown after every delivery that no snooze followed. */
  ghost predicate LeasesCooled(w: World, cooldown: int)
  {
    forall row, i ::
      row in w.db.leases && 0 <= i < |w.events| && DeliversRow(w.events[i], row) && Unsnoozed(w.events, i, row)
      ==> w.events[i].at + cooldown <= w.db.leases[row].claimedAt
  }

  ghost predicate LeasesPast(w: World)
  {
    forall row :: row in w.db.leases ==> w.db.leases[row].claimedAt <= w.clock
  }

  ghost predicate Cooling(w: World, cooldown: int)
  {
    && Recorded(w)
    && ExemptMeansSnoozed(w)
    && LeasesCooled(w, cooldown)
    && LeasesPast(w)
    && Spaced(w.events, cooldown)
  }

  lemma {:induction false} CoolingAfterBackground(w: World, m: Move, cooldown: int)
    requires Base(w) && Cooling(w, cooldown) && m.at >= w.clock
    requires IsBackground(m.action) || m.action.ClaimingFallback? || m.action.CompletingFallback?
    ensures Cooling(Advance(w, m), cooldown)
  {
    if IsBackground(m.action) {
      BackgroundActions(w.db, m.action, m.at);
    } else {
      FallbackActions(w.db, m.action, m.at);
    }
    var x := Advance(w, m);
    assert x.events == w.events;
    forall row: nat, i | row < |x.db.rows| && x.db.rows[row].exempt && 0 <= i < |x.events| && DeliversRow(x.events[i], row)
      ensures !Unsnoozed(x.events, i, row)
    {
      if row < |w.db.rows| {
        assert w.db.rows[row].exempt;
      }
    }
  }

  lemma {:induction false} AppendSnooze(events: seq<Event>, row: nat, at: int, cooldown: int)
    requires Spaced(events, cooldown)
    ensures Spaced(events + [SnoozedEvent(row, at)], cooldown)
  {
    var all := events + [SnoozedEvent(row, at)];
    forall i, j, r | 0 <= i < j < |all| && DeliversRow(all[i], r) && DeliversRow(all[j], r) && Unsnoozed(all[..j], i, r)
      ensures all[i].at + cooldown <= all[j].at
    {
      assert all[..j] == events[..j];
    }
  }

  lemma {:induction false} UnsnoozedBefore(events: seq<Event>, more: seq<Event>, i: nat, row: nat)
    requires Unsnoozed(events + more, i, row) && i < |events|
    ensures Unsnoozed(events, i, row)
  {
    var all := events + more;
    forall j | i < j < |events| ensures !SnoozesRow(events[j], row) {
      assert all[j] == events[j];
    }
  }

  lemma {:induction false} CoolingAfterUser(w: World, m: Move, cooldown: int)
    requires Base(w) && Cooling(w, cooldown) && m.at >= w.clock && IsUser(m.action)
    ensures Cooling(Advance(w, m), cooldown)
  {
    UserActions(w.db, m.action, m.at);
    var x := Advance(w, m);
    var snoozed := m.action.Snoozing? && Snooze(w.db, m.action.row, m.action.until, m.at).result.Ok?;
    var more := NewEvents(w.db, m.action, m.at);
    if snoozed {
      assert more == [SnoozedEvent(m.action.row, m.at)];
      AppendSnooze(w.events, m.action.row, m.at, cooldown);
    } else {
      assert x.events == w.events;
    }
    forall i | 0 <= i < |x.events| && x.events[i].DeliveredEvent? ensures x.events[i] == w.events[i] {}
    forall row: nat, i | row < |x.db.rows| && x.db.rows[row].exempt && 0 <= i < |x.events| && DeliversRow(x.events[i], row)
      ensures !Unsnoozed(x.events, i, row)
    {
      if snoozed && row == m.action.row {
        assert SnoozesRow(x.events[|w.events|], row);
      } else {
        assert w.db.rows[row].exempt;
        if Unsnoozed(x.events, i, row) { UnsnoozedBefore(w.events, more, i, row); }
      }
    }
    forall row, i | row in x.db.leases && 0 <= i < |x.events| && DeliversRow(x.events[i], row) && Unsnoozed(x.events, i, row)
      ensures x.events[i].at + cooldown <= x.db.leases[row].claimedAt
    {
      UnsnoozedBefore(w.events, more, i, row);
    }
  }

  /** A row a pass may lease has cooled: the snooze exemption or the history check
      covers every unsnoozed delivery. */
  lemma {:induction false} OfferableIsCooled(w: World, c: Claim, row: nat, cooldown: int, i: int)
    requires Recorded(w) && ExemptMeansSnoozed(w)
    requires Offerable(ExpireLeases(w.db, c.now), c, row) && c.cooldownAfter == c.now - cooldown
    requires 0 <= i < |w.events| && DeliversRow(w.events[i], row) && Unsnoozed(w.events, i, row)
    ensures w.events[i].at + cooldown <= c.now
  {
    assert !w.db.rows[row].exempt;
    var k :| 0 <= k < |w.db.history| && w.db.history[k].row == w.events[i].row && w.db.history[k].at == w.events[i].at;
  }

  lemma {:induction false} CoolingAfterReserve(w: World, m: Move, cooldown: int)
    requires Base(w) && Cooling(w, cooldown) && Allowed(w, m, cooldown) && m.action.Reserving?
    ensures Cooling(Advance(w, m), cooldown)
  {
    var c := m.action.claim;
    ReserveActions(w.db, c, m.action.token, m.action.expires);
    var x := Advance(w, m);
    assert x.events == w.events;
    forall row, i | row in x.db.leases && 0 <= i < |x.events| && DeliversRow(x.events[i], row) && Unsnoozed(x.events, i, row)
      ensures x.events[i].at + cooldown <= x.db.leases[row].claimedAt
    {
      if !(row in w.db.leases && x.db.leases[row] == w.db.leases[row]) {
        OfferableIsCooled(w, c, row, cooldown, i);
      }
    }
  }

  /** Appending deliveries of distinct leased rows keeps the log spaced. */
  lemma {:induction false} AppendDeliveries(w: World, ids: seq<nat>, more: seq<Event>, at: int, cooldown: int)
    requires Cooling(w, cooldown) && at >= w.clock && Distinct(ids)
    requires |more| == |ids| && forall k :: 0 <= k < |ids| ==> ids[k] in w.db.leases && more[k] == DeliveredEvent(ids[k], at)
    ensures Spaced(w.events + more, cooldown)
  {
    var all := w.events + more;
    var n := |w.events|;
    forall i, j, row | 0 <= i < j < |all| && DeliversRow(all[i], row) && DeliversRow(all[j], row) && Unsnoozed(all[..j], i, row)
      ensures all[i].at + cooldown <= all[j].at
    {
      if j < n {
        assert all[..j] == w.events[..j];
      } else {
        assert all[j] == more[j - n] && row == ids[j - n];
        assert forall k :: n <= k < j ==> all[k] == more[k - n] && ids[k - n] != row;
        assert i < n;
        assert all[..j] == w.events + more[..j - n];
        UnsnoozedBefore(w.events, more[..j - n], i, row);
      }
    }
  }

  ghost predicate DeliveryEvents(more: seq<Event>, ids: seq<nat>, at: int)
  {
    |more| == |ids| && forall k :: 0 <= k < |ids| ==> more[k] == DeliveredEvent(ids[k], at)
  }

  /** What a delivering confirmation appends to the log, and what it leaves alone. */
  lemma {:induction false} ConfirmEvents(w: World, m: Move)
    requires Base(w) && m.action.Confirming? && Delivers(w.db, m.action, m.at)
    ensures var (x, ids) := (Advance(w, m), ConfirmedIds(w.db, m.action.token, m.at));
      && Distinct(ids)
      && (forall k :: 0 <= k < |ids| ==> ids[k] in w.db.leases && ids[k] < |w.db.rows|)
      && DeliveryEvents(NewEvents(w.db, m.action, m.at), ids, m.at)
      && (forall row :: row in x.db.leases ==> row !in ids && row in w.db.leases && x.db.leases[row] == w.db.leases[row])
      && (forall row: nat :: row < |x.db.rows| && x.db.rows[row].exempt ==>
            row !in ids && row < |w.db.rows| && w.db.rows[row].exempt)
  {
    var (token, ids) := (m.action.token, ConfirmedIds(w.db, m.action.token, m.at));
    ConfirmIsAtomic(w, token, m.at);
    ConfirmedIdsFacts(w.db, token, m.at);
    forall k | 0 <= k < |ids| ensures ids[k] in w.db.leases {
      assert ids[k] in ids;
    }
  }

  /** Behind deliveries of other rows, a delivery that no snooze follows is an old
      one that no snooze followed before. */
  lemma {:induction false} OldUnsnoozed(events: seq<Event>, more: seq<Event>, ids: seq<nat>, at: int, i: int, row: nat)
    requires DeliveryEvents(more, ids, at) && row !in ids
    requires 0 <= i < |events + more| && DeliversRow((events + more)[i], row)
    ensures i < |events| && (events + more)[i] == events[i]
    ensures Unsnoozed(events + more, i, row) ==> Unsnoozed(events, i, row)
  {
    forall k | 0 <= k < |more| ensures !DeliversRow(more[k], row) {
      assert ids[k] in ids;
    }
    if Unsnoozed(events + more, i, row) { UnsnoozedBefore(events, more, i, row); }
  }

  lemma {:induction false} CoolingAfterConfirm(w: World, m: Move, cooldown: int)
    requires Base(w) && Cooling(w, cooldown) && m.at >= w.clock && m.action.Confirming?
    ensures Cooling(Advance(w, m), cooldown)
  {
    var x := Advance(w, m);
    if Delivers(w.db, m.action, m.at) {
      var (ids, more) := (ConfirmedIds(w.db, m.action.token, m.at), NewEvents(w.db, m.action, m.at));
      ConfirmEvents(w, m);
      AppendDeliveries(w, ids, more, m.at, cooldown);
      RecordedAfterConfirm(w, m);
      forall row: nat, i | row < |x.db.rows| && x.db.rows[row].exempt && 0 <= i < |x.events| && DeliversRow(x.events[i], row)
        ensures !Unsnoozed(x.events, i, row)
      {
        OldUnsnoozed(w.events, more, ids, m.at, i, row);
      }
      forall row, i | row in x.db.leases && 0 <= i < |x.events| && DeliversRow(x.events[i], row) && Unsnoozed(x.events, i, row)
        ensures x.events[i].at + cooldown <= x.db.leases[row].claimedAt
      {
        OldUnsnoozed(w.events, more, ids, m.at, i, row);
      }
    } else {
      ConfirmIsAtomic(w, m.action.token, m.at);
      assert x.events == w.events;
    }
  }

  lemma {:induction false} RecordMore(events: seq<Event>, more: seq<Event>, history: seq<Delivery>, entries: seq<Delivery>)
    requires AllRecorded(events, history) && |more| == |entries|
    requires forall k :: 0 <= k < |more| ==> more[k].row == entries[k].row && more[k].at == entries[k].at
    ensures AllRecorded(events + more, history + entries)
  {
    var (n, h, all) := (|events|, |history|, events + more);
    forall i | 0 <= i < |all| && all[i].DeliveredEvent? ensures InHistory(history + entries, all[i]) {
      if i < n {
        var k :| 0 <= k < h && history[k].row == events[i].row && history[k].at == events[i].at;
        assert (history + entries)[k] == history[k];
      } else {
        assert (history + entries)[h + (i - n)] == entries[i - n];
      }
    }
  }

  lemma {:induction false} RecordedAfterConfirm(w: World, m: Move)
    requires Base(w) && Recorded(w) && m.action.Confirming? && Delivers(w.db, m.action, m.at)
    ensures Recorded(Advance(w, m))
  {
    var ids := ConfirmedIds(w.db, m.action.token, m.at);
    ConfirmIsAtomic(w, m.action.token, m.at);
    ConfirmEvents(w, m);
    RecordMore(w.events, NewEvents(w.db, m.action, m.at), w.db.history, Deliveries(w.db.rows, ids, m.at));
  }

  lemma {:induction false} CoolingHolds(w: World, m: Move, cooldown: int)
    requires Base(w) && Cooling(w, cooldown) && Allowed(w, m, cooldown)
    ensures Cooling(Advance(w, m), cooldown)
  {
    if m.action.Reserving? {
      CoolingAfterReserve(w, m, cooldown);
    } else if m.action.Confirming? {
      CoolingAfterConfirm(w, m, cooldown);
    } else if IsUser(m.action) {
      CoolingAfterUser(w, m, cooldown);
    } else {
      CoolingAfterBackground(w, m, cooldown);
    }
  }

  lemma {:induction false} CoolingInEveryRun(clock: int, moves: seq<Move>, cooldown: int)
    requires AllowedRun(Begin(clock), moves, cooldown)
    ensures Cooling(Run(Begin(clock), moves), cooldown)
  {
    if moves != [] {
      var front := moves[..|moves| - 1];
      CoolingInEveryRun(clock, front, cooldown);
      BaseInEveryRun(clock, front, cooldown);
      CoolingHolds(Run(Begin(clock), front), moves[|moves| - 1], cooldown);
    }
  }

  /** The cooldown theorem: in every run, two deliveries of one situation without a
      snooze of it between them are at least the cooldown apart. */
  lemma {:induction false} DeliveriesRespectCooldown(clock: int, moves: seq<Move>, cooldown: int, i: int, j: int, row: nat)
    requires AllowedRun(Begin(clock), moves, cooldown)
    requires var events := Run(Begin(clock), moves).events;
      && 0 <= i < j < |events|
      && events[i].DeliveredEvent? && events[j].DeliveredEvent? && events[i].row == events[j].row == row
      && forall k :: i < k < j ==> !(events[k].SnoozedEvent? && events[k].row == row)
    ensures var events := Run(Begin(clock), moves).events;
      events[j].at - events[i].at >= cooldown
  {
    CoolingInEveryRun(clock, moves, cooldown);
    var events := Run(Begin(clock), moves).events;
    assert DeliversRow(events[i], row) && DeliversRow(events[j], row);
    assert Unsnoozed(events[..j], i, row);
  }
}
