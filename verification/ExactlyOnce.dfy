/** Confirmation over runs: one receipt delivers at most once, and every later
    confirmation of it replays the recorded count. */
module ExactlyOnce {
  import opened Situations
  import opened Leasing
  import opened Truth
  import opened Protocol
  import opened ReservePasses
  import opened Confirmations
  import opened Runs

  lemma {:induction false} ReceiptsKept(db: Db, a: Action, at: int, token: string)
    requires HistoryInTable(db) && LeasesInTable(db) && token in db.receipts
    requires a.Confirming? ==> |Rows(db, a.token)| <= PAGE_LIMIT
    ensures token in Next(db, a, at).receipts && Next(db, a, at).receipts[token] == db.receipts[token]
  {
    if IsBackground(a) {
      BackgroundActions(db, a, at);
    } else if IsUser(a) {
      UserActions(db, a, at);
    } else if a.Confirming? && a.token !in db.receipts {
      ConfirmEffect(db, a.token, at);
    } else if a.ClaimingFallback? || a.CompletingFallback? {
      FallbackActions(db, a, at);
    } else if a.Reserving? {
      ReserveKeepsReceipts(db, a.claim, a.token, a.expires);
    }
  }

  lemma {:induction false} PassKeepsReceipts(
    db: Db, c: Claim, token: string, expires: int, slots: nat, page: seq<nat>)
    ensures ReservePass(db, c, token, expires, slots, page).db.receipts == db.receipts
  {
    if page != [] { PassKeepsReceipts(db, c, token, expires, slots, page[..|page| - 1]); }
  }

  lemma {:induction false} ReserveKeepsReceipts(db: Db, c: Claim, token: string, expires: int)
    ensures Reserve(db, c, token, expires).db.receipts == db.receipts
  {
    var live := ExpireLeases(db, c.now);
    PassKeepsReceipts(live, c, token, expires, ReservedSlots(live, c, DeliveryPage(live.rows)), DeliveryPage(live.rows));
  }

  lemma {:induction false} BaseFrom(w: World, moves: seq<Move>, cooldown: int)
    requires Base(w) && AllowedRun(w, moves, cooldown)
    ensures Base(Run(w, moves))
  {
    if moves != [] {
      BaseFrom(w, moves[..|moves| - 1], cooldown);
      BaseHolds(Run(w, moves[..|moves| - 1]), moves[|moves| - 1], cooldown);
    }
  }

  /** Once a receipt is confirmed its record never changes again, and confirming it
      after any further moves answers with that count and changes nothing. */
  lemma {:induction false} ConfirmedForever(w: World, moves: seq<Move>, cooldown: int, token: string, at: int)
    requires Base(w) && AllowedRun(w, moves, cooldown) && token in w.db.receipts
    ensures var db := Run(w, moves).db;
      && token in db.receipts && db.receipts[token] == w.db.receipts[token]
      && Confirm(db, token, at) == Step(db, Ok(AlreadyConfirmed(w.db.receipts[token].count)))
  {
    if moves != [] {
      var front := moves[..|moves| - 1];
      var last := moves[|moves| - 1];
      ConfirmedForever(w, front, cooldown, token, at);
      BaseFrom(w, front, cooldown);
      ReceiptsKept(Run(w, front).db, last.action, last.at, token);
    }
  }

  function CountOf(history: seq<Delivery>, row: nat): nat
  {
    if history == [] then 0
    else CountOf(history[..|history| - 1], row) + (if history[|history| - 1].row == row then 1 else 0)
  }

  lemma {:induction false} CountAppended(history: seq<Delivery>, more: seq<Delivery>, row: nat)
    ensures CountOf(history + more, row) == CountOf(history, row) + CountOf(more, row)
  {
    if more == [] {
      assert history + more == history;
    } else {
      var front := more[..|more| - 1];
      assert (history + more)[..|history + more| - 1] == history + front;
      CountAppended(history, front, row);
    }
  }

  lemma {:induction false} CountDeliveries(rows: seq<Row>, ids: seq<nat>, at: int, row: nat)
    requires Distinct(ids) && forall k :: 0 <= k < |ids| ==> ids[k] < |rows|
    ensures CountOf(Deliveries(rows, ids, at), row) == if row in ids then 1 else 0
  {
    if ids != [] {
      var front := ids[..|ids| - 1];
      var all := Deliveries(rows, ids, at);
      assert all[..|all| - 1] == Deliveries(rows, front, at);
      CountDeliveries(rows, front, at, row);
      assert ids == front + [ids[|ids| - 1]];
      assert ids[|ids| - 1] !in front;
    }
  }

  /** A first confirmation in any reachable state: it succeeds exactly when the
      receipt still leases rows and all of them are pending; then each leased row
      gains exactly one history entry, no other row gains any, the lease is gone
      and the count is recorded. A failure leaves every table as it was. */
  lemma {:induction false} FirstConfirmation(w: World, token: string, at: int)
    requires Base(w) && token !in w.db.receipts
    ensures var owned := Owned(w.db, token, at);
      var step := Confirm(w.db, token, at);
      && (step.result.Ok? <==> owned != {} && AllOwnedPending(w.db, token, at))
      && (step.result.Err? ==> step.db == w.db)
      && (step.result.Ok? ==>
            && step.result.value == Confirmed(|owned|)
            && (forall row: nat :: CountOf(step.db.history, row)
                  == CountOf(w.db.history, row) + (if row in owned then 1 else 0))
            && w.db.history <= step.db.history
            && Rows(step.db, token) == {}
            && token in step.db.receipts && step.db.receipts[token].count == |owned|)
  {
    ConfirmEffect(w.db, token, at);
    var ids := ConfirmedIds(w.db, token, at);
    ConfirmedIdsFacts(w.db, token, at);
    if Confirm(w.db, token, at).result.Ok? {
      forall row: nat ensures CountOf(Confirm(w.db, token, at).db.history, row)
        == CountOf(w.db.history, row) + (if row in Owned(w.db, token, at) then 1 else 0)
      {
        CountAppended(w.db.history, Deliveries(w.db.rows, ids, at), row);
        CountDeliveries(w.db.rows, ids, at, row);
      }
    }
  }

  /** After a move that delivers under a receipt, no continuation of the run
      delivers under it again. */
  lemma {:induction false} DeliversOnce(w: World, m: Move, rest: seq<Move>, cooldown: int, at: int)
    requires Base(w) && Allowed(w, m, cooldown) && Delivers(w.db, m.action, m.at)
    requires AllowedRun(Advance(w, m), rest, cooldown)
    ensures !Delivers(Run(Advance(w, m), rest).db, Confirming(m.action.token), at)
    ensures var db := Run(Advance(w, m), rest).db;
      Confirm(db, m.action.token, at)
        == Step(db, Ok(AlreadyConfirmed(|Owned(w.db, m.action.token, m.at)|)))
  {
    var token := m.action.token;
    FirstConfirmation(w, token, m.at);
    BaseHolds(w, m, cooldown);
    ConfirmedForever(Advance(w, m), rest, cooldown, token, at);
  }
}
