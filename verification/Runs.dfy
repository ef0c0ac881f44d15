/** Runs of the store: any sequence of committed actions under a clock that never
    goes back, with the history facts that the tables alone do not keep. A world adds
    to the tables the last instant, the tokens issued, the log of deliveries and
    snoozes and the lease time behind every history entry; the base invariant says
    that references stay inside the tables and that tokens are sound. */
module Runs {
  import opened Situations
  import opened Leasing
  import opened Truth
  import opened Protocol
  import opened ReservePasses
  import opened Confirmations

  datatype Event = DeliveredEvent(row: nat, at: int) | SnoozedEvent(row: nat, at: int)

  /** The tables, the last instant, every receipt token issued so far, the log of
      deliveries and snoozes, and the lease time behind every history entry. */
  datatype World = World(
    db: Db, clock: int, tokens: set<string>, events: seq<Event>, leasedAt: seq<int>)

  datatype Move = Move(action: Action, at: int)

  function Begin(clock: int): World
  {
    World(EMPTY, clock, {}, [], [])
  }

  predicate Delivers(db: Db, a: Action, at: int)
  {
    a.Confirming? && a.token !in db.receipts && Confirm(db, a.token, at).result.Ok?
  }

  function NewEvents(db: Db, a: Action, at: int): seq<Event>
  {
    if Delivers(db, a, at) then
      var ids := ConfirmedIds(db, a.token, at);
      seq(|ids|, k requires 0 <= k < |ids| => DeliveredEvent(ids[k], at))
    else if a.Snoozing? && Snooze(db, a.row, a.until, at).result.Ok? then [SnoozedEvent(a.row, at)]
    else []
  }

  function NewLeaseTimes(db: Db, a: Action, at: int): seq<int>
  {
    if Delivers(db, a, at) then
      var ids := ConfirmedIds(db, a.token, at);
      seq(|ids|, k requires 0 <= k < |ids| => if ids[k] in db.leases then db.leases[ids[k]].claimedAt else at)
    else []
  }

  ghost function Advance(w: World, m: Move): World
  {
    World(
      Next(w.db, m.action, m.at),
      m.at,
      if m.action.Reserving? then w.tokens + {m.action.token} else w.tokens,
      w.events + NewEvents(w.db, m.action, m.at),
      w.leasedAt + NewLeaseTimes(w.db, m.action, m.at))
  }

  /** What a run takes for granted of each move: the clock does not go back, the
      policy derives its windows from the current instant, and a fresh receipt
      token has never been issued before. */
  predicate Allowed(w: World, m: Move, cooldown: int)
  {
    && m.at >= w.clock
    && (m.action.Reserving? ==>
          var c := m.action.claim;
          && c.now == m.at
          && c.cooldownAfter == m.at - cooldown
          && c.dayStart <= m.at < c.dayEnd
          && m.action.expires > m.at
          && m.action.token !in w.tokens)
  }

  ghost function Run(w: World, moves: seq<Move>): World
  {
    if moves == [] then w else Advance(Run(w, moves[..|moves| - 1]), moves[|moves| - 1])
  }

  ghost predicate AllowedRun(w: World, moves: seq<Move>, cooldown: int)
  {
    moves == [] ||
    (AllowedRun(w, moves[..|moves| - 1], cooldown) &&
     Allowed(Run(w, moves[..|moves| - 1]), moves[|moves| - 1], cooldown))
  }

  // ------------------------------------------------------ effects of actions

  predicate IsUser(a: Action)
  {
    a.Acknowledging? || a.Snoozing? || a.Muting? || a.MutingKind?
  }

  /** A user transition changes one delivered row, or nothing. */
  ghost predicate UserStep(db: Db, e: Db, row: nat, snoozed: bool)
  {
    && e.leases == db.leases && e.receipts == db.receipts && e.history == db.history
    && e.fallbacks == db.fallbacks && e.generations == db.generations
    && (e.rows == db.rows ||
         (&& row < |db.rows| == |e.rows|
          && db.rows[row].state == Delivered
          && e.rows == db.rows[row := e.rows[row]]
          && e.rows[row].kind == db.rows[row].kind && e.rows[row].key == db.rows[row].key
          && e.rows[row].priority == db.rows[row].priority
          && e.rows[row].deliveredAt == db.rows[row].deliveredAt
          && e.rows[row].origin == db.rows[row].origin && e.rows[row].generation == db.rows[row].generation
          && e.rows[row].state in {Acknowledged, Snoozed, Muted}
          && (e.rows[row].exempt ==> snoozed || db.rows[row].exempt)))
  }

  function UserRow(a: Action): nat
    requires IsUser(a)
  {
    a.row
  }

  lemma {:induction false} AcknowledgeIsUser(db: Db, row: nat, at: int)
    ensures UserStep(db, Acknowledge(db, row, at).db, row, false)
  {
  }

  lemma {:induction false} SnoozeIsUser(db: Db, row: nat, until: int, at: int)
    ensures UserStep(db, Snooze(db, row, until, at).db, row, Snooze(db, row, until, at).result.Ok?)
  {
  }

  lemma {:induction false} MuteIsUser(db: Db, row: nat, at: int)
    ensures UserStep(db, MuteOne(db, row, at).db, row, false)
    ensures UserStep(db, MuteKind(db, row, at).db, row, false)
  {
    assert MuteKind(db, row, at).db == MuteOne(db, row, at).db.(mutes := MuteKind(db, row, at).db.mutes);
  }

  lemma {:induction false} UserActions(db: Db, a: Action, at: int)
    requires IsUser(a)
    ensures UserStep(db, Next(db, a, at), UserRow(a), a.Snoozing? && Snooze(db, a.row, a.until, at).result.Ok?)
  {
    if a.Acknowledging? {
      AcknowledgeIsUser(db, a.row, at);
    } else if a.Snoozing? {
      SnoozeIsUser(db, a.row, a.until, at);
    } else {
      MuteIsUser(db, a.row, at);
    }
  }

  lemma {:induction false} TakenSize(rows: set<nat>, taken: seq<nat>)
    requires forall row :: row in rows ==> row in taken
    ensures |rows| <= |taken|
  {
    if taken == [] {
      assert rows == {};
    } else {
      var last := taken[|taken| - 1];
      TakenSize(rows - {last}, taken[..|taken| - 1]);
      if last in rows {
        assert rows == rows - {last} + {last};
      } else {
        assert rows == rows - {last};
      }
    }
  }

  function NewlyLeased(db: Db, e: Db): set<nat>
  {
    set row | row in e.leases && !(row in db.leases && e.leases[row] == db.leases[row])
  }

  /** A reserve pass only replaces the leases: every lease left is an unexpired
      old one or a new one on a row that was offerable. */
  ghost predicate ReserveStep(db: Db, c: Claim, token: string, expires: int, e: Db)
  {
    && e == db.(leases := e.leases)
    && (forall row :: row in e.leases ==>
          || (row in db.leases && e.leases[row] == db.leases[row] && db.leases[row].expiresAt > c.now)
          || (e.leases[row] == Lease(token, c.now, expires) && Offerable(ExpireLeases(db, c.now), c, row)))
    && |NewlyLeased(db, e)| <= PAGE_LIMIT
  }

  lemma {:induction false} ReserveActions(db: Db, c: Claim, token: string, expires: int)
    requires c.dayStart <= c.now < c.dayEnd && expires > c.now
    ensures ReserveStep(db, c, token, expires, Reserve(db, c, token, expires).db)
  {
    var start := PassStart(db, c);
    var page := DeliveryPage(db.rows);
    var ids := Wanted(start, c, page);
    ReserveTakesPrefix(db, c, token, expires);
    var taken := ids[..TakenLength(start, c, Slots(db, c), ids)];
    WantedFacts(start, c, page);
    PageFacts(db.rows);
    var e := Reserve(db, c, token, expires).db;
    forall row | row in e.leases
      ensures (row in db.leases && e.leases[row] == db.leases[row] && db.leases[row].expiresAt > c.now)
           || (e.leases[row] == Lease(token, c.now, expires) && Offerable(start, c, row))
    {
      if row in taken {
        assert row in ids;
      }
    }
    TakenSize(NewlyLeased(db, e), taken);
  }

  lemma {:induction false} FallbackActions(db: Db, a: Action, at: int)
    requires a.ClaimingFallback? || a.CompletingFallback?
    ensures Next(db, a, at) == db.(fallbacks := Next(db, a, at).fallbacks)
  {
    if a.ClaimingFallback? {
      F.ClaimTakesFirst(db, a.attempt);
    }
  }

  /** Moves that neither lease nor confirm leave leases and history alone. */
  lemma {:induction false} QuietKeepsTables(db: Db, a: Action, at: int)
    requires HistoryInTable(db) && LeasesInTable(db) && !a.Reserving? && !a.Confirming?
    ensures Next(db, a, at).leases == db.leases && Next(db, a, at).history == db.history
    ensures |db.rows| <= |Next(db, a, at).rows|
  {
    if IsBackground(a) {
      BackgroundActions(db, a, at);
    } else if IsUser(a) {
      UserActions(db, a, at);
    } else {
      FallbackActions(db, a, at);
    }
  }

  /** What a successful first confirmation leaves behind. */
  function ConfirmedDb(db: Db, token: string, at: int): Db
    requires AllPending(db.rows, ConfirmedIds(db, token, at))
  {
    var ids := ConfirmedIds(db, token, at);
    db.(rows := DeliveredRows(db.rows, ids, at),
        history := db.history + Deliveries(db.rows, ids, at),
        leases := Consume(ExpireLeases(db, at), token).leases,
        receipts := db.receipts[token := Receipt(|ids|, at)])
  }

  // ---------------------------------------------------------- base invariant

  /** References stay inside the tables, dedupe keys stay unique, and the table
      of situations never outgrows its bound. */
  ghost predicate Tables(db: Db)
  {
    && HistoryInTable(db)
    && LeasesInTable(db)
    && KeysDistinct(db.rows)
    && |db.rows| <= MAX_ROWS
  }

  /** A token leases or is confirmed only after it was issued, never both, and a
      receipt owns at most one page of rows. */
  ghost predicate TokensSound(w: World)
  {
    && (forall row :: row in w.db.leases ==> w.db.leases[row].token in w.tokens)
    && (forall token :: token in w.db.receipts ==> token in w.tokens && Rows(w.db, token) == {})
    && (forall token :: |Rows(w.db, token)| <= PAGE_LIMIT)
  }

  ghost predicate Base(w: World)
  {
    Tables(w.db) && TokensSound(w)
  }

  lemma {:induction false} ConfirmIsAtomic(w: World, token: string, at: int)
    requires Base(w)
    ensures var m := Confirming(token);
      if Delivers(w.db, m, at)
      then AllPending(w.db.rows, ConfirmedIds(w.db, token, at)) && Next(w.db, m, at) == ConfirmedDb(w.db, token, at)
      else Next(w.db, m, at) == w.db
  {
    if token in w.db.receipts {
      ReplayChangesNothing(w.db, token, at);
    } else {
      ConfirmEffect(w.db, token, at);
    }
  }

  lemma {:induction false} FewerRows(before: Db, after: Db, token: string)
    requires Rows(after, token) <= Rows(before, token)
    ensures |Rows(after, token)| <= |Rows(before, token)|
  {
    SubsetSize(Rows(after, token), Rows(before, token));
  }

  lemma {:induction false} RowsAfterReserve(w: World, m: Move, cooldown: int, t: string)
    requires Base(w) && Allowed(w, m, cooldown) && m.action.Reserving?
    ensures |Rows(Next(w.db, m.action, m.at), t)| <= PAGE_LIMIT
    ensures t in w.db.receipts ==> Rows(Next(w.db, m.action, m.at), t) == {}
  {
    var e := Next(w.db, m.action, m.at);
    ReserveActions(w.db, m.action.claim, m.action.token, m.action.expires);
    if t == m.action.token {
      assert Rows(e, t) <= NewlyLeased(w.db, e);
      SubsetSize(Rows(e, t), NewlyLeased(w.db, e));
    } else {
      FewerRows(w.db, e, t);
    }
  }

  lemma {:induction false} BaseAfterReserve(w: World, m: Move, cooldown: int)
    requires Base(w) && Allowed(w, m, cooldown) && m.action.Reserving?
    ensures Base(Advance(w, m))
  {
    ReserveActions(w.db, m.action.claim, m.action.token, m.action.expires);
    forall t ensures |Rows(Next(w.db, m.action, m.at), t)| <= PAGE_LIMIT {
      RowsAfterReserve(w, m, cooldown, t);
    }
    forall t | t in w.db.receipts ensures Rows(Next(w.db, m.action, m.at), t) == {} {
      RowsAfterReserve(w, m, cooldown, t);
    }
  }

  lemma {:induction false} TokensAfterConfirm(w: World, m: Move)
    requires Base(w) && m.action.Confirming? && Delivers(w.db, m.action, m.at)
    ensures TokensSound(Advance(w, m))
  {
    var token := m.action.token;
    var x := Advance(w, m);
    ConfirmIsAtomic(w, token, m.at);
    forall t ensures Rows(x.db, t) <= Rows(w.db, t) {}
    forall t ensures |Rows(x.db, t)| <= PAGE_LIMIT {
      FewerRows(w.db, x.db, t);
    }
    assert token in w.tokens by {
      ConfirmEffect(w.db, token, m.at);
      var row :| row in Owned(w.db, token, m.at);
      assert w.db.leases[row].token in w.tokens;
    }
    assert Rows(x.db, token) == {};
  }

  lemma {:induction false} DeliveredKeepKeys(rows: seq<Row>, ids: seq<nat>, at: int)
    requires KeysDistinct(rows)
    ensures KeysDistinct(DeliveredRows(rows, ids, at))
  {
    forall i | 0 <= i < |rows| ensures DeliveredRows(rows, ids, at)[i].key == rows[i].key {}
  }

  lemma {:induction false} TablesAfterConfirm(db: Db, token: string, at: int)
    requires Tables(db) && AllPending(db.rows, ConfirmedIds(db, token, at))
    ensures Tables(ConfirmedDb(db, token, at))
  {
    DeliveredKeepKeys(db.rows, ConfirmedIds(db, token, at), at);
  }

  lemma {:induction false} BaseAfterConfirm(w: World, m: Move)
    requires Base(w) && m.action.Confirming?
    ensures Base(Advance(w, m))
  {
    ConfirmIsAtomic(w, m.action.token, m.at);
    if Delivers(w.db, m.action, m.at) {
      TokensAfterConfirm(w, m);
      TablesAfterConfirm(w.db, m.action.token, m.at);
    }
  }

  lemma {:induction false} BaseAfterOther(w: World, m: Move)
    requires Base(w) && !m.action.Confirming? && !m.action.Reserving?
    ensures Base(Advance(w, m))
  {
    var x := Advance(w, m);
    if IsBackground(m.action) {
      BackgroundActions(w.db, m.action, m.at);
    } else if IsUser(m.action) {
      UserActions(w.db, m.action, m.at);
      assert forall i :: 0 <= i < |w.db.rows| ==> x.db.rows[i].key == w.db.rows[i].key;
    } else {
      FallbackActions(w.db, m.action, m.at);
    }
    assert x.db.leases == w.db.leases && x.db.receipts == w.db.receipts;
    forall t ensures Rows(x.db, t) == Rows(w.db, t) {}
  }

  lemma {:induction false} BaseHolds(w: World, m: Move, cooldown: int)
    requires Base(w) && Allowed(w, m, cooldown)
    ensures Base(Advance(w, m))
  {
    if m.action.Reserving? {
      BaseAfterReserve(w, m, cooldown);
    } else if m.action.Confirming? {
      BaseAfterConfirm(w, m);
    } else {
      BaseAfterOther(w, m);
    }
  }

  /** The base invariant holds after every allowed run from a new database. */
  lemma {:induction false} BaseInEveryRun(clock: int, moves: seq<Move>, cooldown: int)
    requires AllowedRun(Begin(clock), moves, cooldown)
    ensures Base(Run(Begin(clock), moves))
  {
    if moves == [] {
      forall t ensures Rows(EMPTY, t) == {} {}
    } else {
      BaseInEveryRun(clock, moves[..|moves| - 1], cooldown);
      BaseHolds(Run(Begin(clock), moves[..|moves| - 1]), moves[|moves| - 1], cooldown);
    }
  }
}
