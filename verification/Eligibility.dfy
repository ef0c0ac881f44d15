/** Which rows a reserve pass leases, told over its tables. */
module Eligibility {
  import opened Situations
  import opened Leasing
  import opened Protocol
  import opened ReservePasses
  import opened Confirmations
  import opened Runs
  import F = Fallbacks

  // ------------------------------------------------------------- one pass

  lemma {:induction false} TakenAreWanted(db: Db, c: Claim, token: string, expires: int, row: nat)
    requires c.dayStart <= c.now < c.dayEnd && expires > c.now
    requires row in Reserve(db, c, token, expires).result.value.rows
    ensures row in DeliveryPage(db.rows) && Wants(PassStart(db, c), c, row)
    ensures row in Reserve(db, c, token, expires).db.leases
    ensures Reserve(db, c, token, expires).db.leases[row] == Lease(token, c.now, expires)
  {
    ReserveTakesPrefix(db, c, token, expires);
    WantedFacts(PassStart(db, c), c, DeliveryPage(db.rows));
  }

  /** Every row a pass leases is pending and has not expired, its kind is not muted, no
      live lease holds it, it is exempt or each of its deliveries lies before the
      cooldown cut-off, a reply deadline comes from a source whose newest numbered
      result was applied and complete, and outside delivery hours it is critical. */
  lemma {:induction false} LeasedRowsQualify(db: Db, c: Claim, token: string, expires: int, row: nat)
    requires c.dayStart <= c.now < c.dayEnd && expires > c.now
    requires row in Reserve(db, c, token, expires).result.value.rows
    ensures row < |db.rows|
    ensures db.rows[row].state == Pending
    ensures db.rows[row].expiresAt == None || db.rows[row].expiresAt.value > c.now
    ensures db.rows[row].kind !in db.mutes
    ensures row in db.leases ==> db.leases[row].expiresAt <= c.now
    ensures db.rows[row].exempt || forall d :: d in db.history && d.row == row ==> d.at <= c.cooldownAfter
    ensures db.rows[row].kind == ReplyDeadline && Gmail in db.generations ==>
      && db.generations[Gmail].issued == db.generations[Gmail].applied
      && db.generations[Gmail].status == Some(Complete)
    ensures c.allowNoncritical || db.rows[row].priority == Critical
  {
    TakenAreWanted(db, c, token, expires, row);
  }

  /** A row qualifies for a pass: every condition on it but the room in the budget. */
  ghost predicate Qualifies(db: Db, c: Claim, row: nat)
  {
    && row < |db.rows|
    && db.rows[row].state == Pending
    && (db.rows[row].expiresAt == None || db.rows[row].expiresAt.value > c.now)
    && db.rows[row].kind !in db.mutes
    && (row in db.leases ==> db.leases[row].expiresAt <= c.now)
    && (db.rows[row].exempt || forall d :: d in db.history && d.row == row ==> d.at <= c.cooldownAfter)
    && (db.rows[row].kind == ReplyDeadline && Gmail in db.generations ==>
          && db.generations[Gmail].issued == db.generations[Gmail].applied
          && db.generations[Gmail].status == Some(Complete))
    && (c.allowNoncritical || db.rows[row].priority == Critical)
  }

  lemma {:induction false} QualifiesMeansWanted(db: Db, c: Claim, row: nat)
    ensures Qualifies(db, c, row) <==> Wants(PassStart(db, c), c, row)
  {
    if row < |db.rows| {
      forall k: nat | k < |db.history| && db.history[k].row == row ensures db.history[k] in db.history {}
    }
  }

  /** A critical row of the page that qualifies is leased whatever the budget is. */
  lemma {:induction false} QualifiedCriticalIsLeased(db: Db, c: Claim, token: string, expires: int, row: nat)
    requires c.dayStart <= c.now < c.dayEnd && expires > c.now
    requires row in DeliveryPage(db.rows) && Qualifies(db, c, row) && db.rows[row].priority == Critical
    ensures row in Reserve(db, c, token, expires).result.value.rows
    ensures row in Reserve(db, c, token, expires).db.leases
    ensures Reserve(db, c, token, expires).db.leases[row] == Lease(token, c.now, expires)
  {
    QualifiesMeansWanted(db, c, row);
    CriticalRowsAreLeased(db, c, token, expires, row);
  }

  // --------------------------------------------------- the order of the page

  /** Delivery urgency: critical, then high and routine rows that are no replies, then
      high and routine replies; among critical rows replies come last. */
  function Rank(r: Row): nat
  {
    var reply := r.kind == ReplyDeadline;
    match r.priority
    case Critical => if reply then 1 else 0
    case High => if reply then 4 else 2
    case Routine => if reply then 5 else 3
  }

  /** More urgent, or detected earlier, or of smaller id. */
  predicate Sooner(rows: seq<Row>, a: nat, b: nat)
    requires a < |rows| && b < |rows|
  {
    var (x, y) := (rows[a], rows[b]);
    || Rank(x) < Rank(y)
    || (Rank(x) == Rank(y) && x.detectedAt < y.detectedAt)
    || (Rank(x) == Rank(y) && x.detectedAt == y.detectedAt && a < b)
  }

  /** The page lists pending rows from the soonest on, and only when it is full with a
      hundred rows does it leave any out, which then come after all it holds. */
  lemma {:induction false} PageIsRanked(rows: seq<Row>)
    ensures var page := DeliveryPage(rows);
      && |page| <= 100
      && (forall k :: 0 <= k < |page| ==> page[k] < |rows| && rows[page[k]].state == Pending)
      && (forall i, j :: 0 <= i < j < |page| ==> Sooner(rows, page[i], page[j]))
      && (forall id: nat, k :: id < |rows| && rows[id].state == Pending && id !in page && 0 <= k < |page| ==>
            |page| == 100 && Sooner(rows, page[k], id))
      && (forall id: nat :: id < |rows| && rows[id].state == Pending && id !in page ==> |page| == 100)
  {
    var page := DeliveryPage(rows);
    PageFacts(rows);
    forall k | 0 <= k < |page| ensures page[k] < |rows| && rows[page[k]].state == Pending {
      assert page[k] in page;
    }
    forall i, j | 0 <= i < j < |page| ensures Sooner(rows, page[i], page[j]) {
      assert DeliveryOrder(rows)(page[i], page[j]);
      OrderMeansSooner(rows, page[i], page[j]);
    }
    forall id: nat, k | id < |rows| && rows[id].state == Pending && id !in page && 0 <= k < |page|
      ensures Sooner(rows, page[k], id)
    {
      assert page[k] in page;
      assert NotAfter(rows, page[k], id);
      OrderMeansSooner(rows, page[k], id);
    }
  }

  lemma {:induction false} OrderMeansSooner(rows: seq<Row>, a: nat, b: nat)
    requires a < |rows| && b < |rows| && a != b && NotAfter(rows, a, b)
    ensures Sooner(rows, a, b)
  {
  }

  lemma {:induction false} WantedInOrder(db: Db, c: Claim, page: seq<nat>)
    requires Sorting.SortedBy(DeliveryOrder(db.rows), page)
    ensures Sorting.SortedBy(DeliveryOrder(db.rows), Wanted(db, c, page))
  {
    if page != [] {
      var front := page[..|page| - 1];
      WantedInOrder(db, c, front);
      WantedFacts(db, c, front);
      var ids := Wanted(db, c, front);
      forall k | 0 <= k < |ids| ensures DeliveryOrder(db.rows)(ids[k], page[|page| - 1]) {
        assert ids[k] in front;
        var i :| 0 <= i < |front| && front[i] == ids[k];
        assert DeliveryOrder(db.rows)(page[i], page[|page| - 1]);
      }
    }
  }

  lemma {:induction false} PrefixComesFirst(ids: seq<nat>, n: nat, taken: nat, left: nat) returns (i: nat, j: nat)
    requires n <= |ids| && taken in ids[..n] && left in ids && left !in ids[..n]
    ensures i < j < |ids| && ids[i] == taken && ids[j] == left
  {
    i :| i < n && ids[..n][i] == taken;
    j :| j < |ids| && ids[j] == left;
  }

  /** A pass never passes over a row that qualifies for a later one. */
  lemma {:induction false} SoonerRowsGoFirst(db: Db, c: Claim, token: string, expires: int, taken: nat, left: nat)
    requires c.dayStart <= c.now < c.dayEnd && expires > c.now
    requires taken in Reserve(db, c, token, expires).result.value.rows
    requires left in DeliveryPage(db.rows) && Qualifies(db, c, left)
    requires left !in Reserve(db, c, token, expires).result.value.rows
    ensures taken < |db.rows| && Sooner(db.rows, taken, left)
  {
    var start := PassStart(db, c);
    var page := DeliveryPage(db.rows);
    var ids := Wanted(start, c, page);
    QualifiesMeansWanted(db, c, left);
    PageFacts(db.rows);
    WantedFacts(start, c, page);
    WantedInOrder(start, c, page);
    ReserveTakesPrefix(db, c, token, expires);
    var i, j := PrefixComesFirst(ids, TakenLength(start, c, Slots(db, c), ids), taken, left);
    assert ids[i] in page && DeliveryOrder(db.rows)(ids[i], ids[j]);
    OrderMeansSooner(db.rows, taken, left);
  }

  // ------------------------------------------------------------- the budget

  /** What counts against the budget of a day: its history entries and its live leases,
      critical ones aside. */
  lemma {:induction false} BudgetCounts(db: Db, c: Claim)
    ensures Used(db, c) ==
      |set k: nat | k < |db.history| && c.dayStart <= db.history[k].at < c.dayEnd
                    && db.history[k].priority != Critical| +
      |set row | row in db.leases && row < |db.rows| && db.rows[row].priority != Critical
                 && c.dayStart <= db.leases[row].claimedAt < c.dayEnd && db.leases[row].expiresAt > c.now|
    ensures RepliesUsed(db, c) ==
      |set k: nat | k < |db.history| && c.dayStart <= db.history[k].at < c.dayEnd
                    && db.history[k].priority != Critical
                    && db.history[k].row < |db.rows| && db.rows[db.history[k].row].kind == ReplyDeadline| +
      |set row | row in db.leases && row < |db.rows| && db.rows[row].priority != Critical
                 && c.dayStart <= db.leases[row].claimedAt < c.dayEnd && db.leases[row].expiresAt > c.now
                 && db.rows[row].kind == ReplyDeadline|
  {
    assert DeliveredIn(db, c.dayStart, c.dayEnd) ==
      (set k: nat | k < |db.history| && c.dayStart <= db.history[k].at < c.dayEnd
                    && db.history[k].priority != Critical);
    assert LeasedIn(db, c.dayStart, c.dayEnd, c.now) ==
      (set row | row in db.leases && row < |db.rows| && db.rows[row].priority != Critical
                 && c.dayStart <= db.leases[row].claimedAt < c.dayEnd && db.leases[row].expiresAt > c.now);
    assert RepliesDeliveredIn(db, c.dayStart, c.dayEnd) ==
      (set k: nat | k < |db.history| && c.dayStart <= db.history[k].at < c.dayEnd
                    && db.history[k].priority != Critical
                    && db.history[k].row < |db.rows| && db.rows[db.history[k].row].kind == ReplyDeadline);
    assert RepliesLeasedIn(db, c.dayStart, c.dayEnd, c.now) ==
      (set row | row in db.leases && row < |db.rows| && db.rows[row].priority != Critical
                 && c.dayStart <= db.leases[row].claimedAt < c.dayEnd && db.leases[row].expiresAt > c.now
                 && db.rows[row].kind == ReplyDeadline);
  }

  /** One slot is kept from replies exactly while some other non-critical row of the
      page qualifies. */
  ghost predicate KeepsSlot(db: Db, c: Claim)
  {
    exists row :: row in DeliveryPage(db.rows) && Qualifies(db, c, row)
      && db.rows[row].priority != Critical && db.rows[row].kind != ReplyDeadline
  }

  lemma {:induction false} SlotsKept(db: Db, c: Claim)
    requires c.allowNoncritical
    ensures Slots(db, c) == if KeepsSlot(db, c) then 1 else 0
  {
    var start := PassStart(db, c);
    forall row: nat ensures Qualifies(db, c, row) <==> Wants(start, c, row) {
      QualifiesMeansWanted(db, c, row);
    }
    if KeepsSlot(db, c) {
      var row :| row in DeliveryPage(db.rows) && Qualifies(db, c, row)
        && db.rows[row].priority != Critical && db.rows[row].kind != ReplyDeadline;
      assert Wants(start, c, row);
      assert Consumable(start, c, row);
    }
    if row :| row in DeliveryPage(db.rows) && Consumable(start, c, row) {
      assert Wants(start, c, row);
      assert Qualifies(db, c, row);
    }
  }

  lemma {:induction false} PlainPrefix(db: Db, ids: seq<nat>, row: nat)
    requires Grouped(db, ids) && row in ids && Group(db, row) <= 1
    ensures InGroup(db, ids, 0) + InGroup(db, ids, 1) <= |ids|
    ensures row in ids[..InGroup(db, ids, 0) + InGroup(db, ids, 1)]
  {
    GroupTotals(db, ids);
    var front := ids[..|ids| - 1];
    var last := ids[|ids| - 1];
    if Group(db, last) <= 1 {
      assert forall k :: 0 <= k < |front| ==> Group(db, front[k]) <= 1;
      NoneInGroup(db, front, 2);
      GroupTotals(db, front);
      assert ids[..|ids|] == ids;
    } else {
      assert ids == front + [last];
      PlainPrefix(db, front, row);
      var n := InGroup(db, front, 0) + InGroup(db, front, 1);
      assert front[..n] == ids[..n];
    }
  }

  lemma {:induction false} NoRoomLeft(db: Db, c: Claim, slots: nat, ids: seq<nat>, end: Db, row: nat)
    requires PassCounts(db, c, slots, ids, end) && Grouped(db, ids) && row in ids
    requires TakenLength(db, c, slots, ids) <= |ids|
    requires row !in ids[..TakenLength(db, c, slots, ids)] && !IsCritical(db, row)
    ensures Used(end, c) >= c.budget || (IsReply(db, row) && RepliesUsed(end, c) >= Minus(c.budget, slots))
  {
    GroupTotals(db, ids);
    if !IsReply(db, row) {
      PlainPrefix(db, ids, row);
    }
  }

  /** A qualifying row of the page is left out only when it is not critical and the
      budget is spent, or it is a reply and the replies have used their share. */
  lemma {:induction false} LeftOutRowsHaveNoRoom(db: Db, c: Claim, token: string, expires: int, row: nat)
    requires c.dayStart <= c.now < c.dayEnd && expires > c.now
    requires row in DeliveryPage(db.rows) && Qualifies(db, c, row)
    requires row !in Reserve(db, c, token, expires).result.value.rows
    ensures db.rows[row].priority != Critical
    ensures var end := Reserve(db, c, token, expires).db;
      || Used(end, c) >= c.budget
      || (db.rows[row].kind == ReplyDeadline && RepliesUsed(end, c) + (if KeepsSlot(db, c) then 1 else 0) >= c.budget)
  {
    var start := PassStart(db, c);
    var page := DeliveryPage(db.rows);
    var ids := Wanted(start, c, page);
    if db.rows[row].priority == Critical {
      QualifiedCriticalIsLeased(db, c, token, expires, row);
    } else {
      QualifiesMeansWanted(db, c, row);
      PageFacts(db.rows);
      PageIsGrouped(start);
      WantedFacts(start, c, page);
      WantedIsGrouped(start, c, page);
      SlotsKept(db, c);
      PassFollowsClosedForm(start, c, token, expires, Slots(db, c), page);
      NoRoomLeft(start, c, Slots(db, c), ids, Reserve(db, c, token, expires).db, row);
    }
  }

  /** A pass changes leases only: live ones stay, dead ones go, and the rows it reports
      hold new ones. */
  lemma {:induction false} PassLeases(db: Db, c: Claim, token: string, expires: int)
    requires c.dayStart <= c.now < c.dayEnd && expires > c.now
    ensures var (e, r) := (Reserve(db, c, token, expires).db, Reserve(db, c, token, expires).result.value);
      && e == db.(leases := e.leases)
      && r.token == token && r.expiresAt == expires && Distinct(r.rows) && |r.rows| <= 100
      && (forall row: nat :: row in e.leases <==>
            row in r.rows || (row in db.leases && db.leases[row].expiresAt > c.now))
      && (forall row: nat :: row in r.rows ==> e.leases[row] == Lease(token, c.now, expires))
      && (forall row: nat :: row in db.leases && db.leases[row].expiresAt > c.now ==> e.leases[row] == db.leases[row])
  {
    var start := PassStart(db, c);
    ReserveTakesPrefix(db, c, token, expires);
    WantedFacts(start, c, DeliveryPage(db.rows));
    PageFacts(db.rows);
    forall row: nat | row in Reserve(db, c, token, expires).result.value.rows
      ensures row in db.leases ==> db.leases[row].expiresAt <= c.now
    {
      LeasedRowsQualify(db, c, token, expires, row);
    }
  }

  // ------------------------------------------------------------- muted kinds

  lemma {:induction false} UsersKeepMutes(db: Db, a: Action, at: int, kind: Kind)
    requires IsUser(a) && kind in db.mutes
    ensures kind in Next(db, a, at).mutes && Next(db, a, at).mutes[kind] == db.mutes[kind]
  {
  }

  lemma {:induction false} MutesKept(w: World, m: Move, cooldown: int, kind: Kind)
    requires Base(w) && Allowed(w, m, cooldown) && kind in w.db.mutes
    ensures var e := Next(w.db, m.action, m.at);
      kind in e.mutes && e.mutes[kind] == w.db.mutes[kind]
  {
    if m.action.Reserving? {
      ReserveActions(w.db, m.action.claim, m.action.token, m.action.expires);
    } else if m.action.Confirming? {
      ConfirmIsAtomic(w, m.action.token, m.at);
    } else if IsBackground(m.action) {
      BackgroundActions(w.db, m.action, m.at);
    } else if m.action.ClaimingFallback? || m.action.CompletingFallback? {
      FallbackActions(w.db, m.action, m.at);
    } else {
      UsersKeepMutes(w.db, m.action, m.at, kind);
    }
  }

  lemma {:induction false} MutedForever(w: World, moves: seq<Move>, cooldown: int, kind: Kind)
    requires Base(w) && AllowedRun(w, moves, cooldown) && kind in w.db.mutes
    ensures Base(Run(w, moves))
    ensures kind in Run(w, moves).db.mutes && Run(w, moves).db.mutes[kind] == w.db.mutes[kind]
  {
    if moves != [] {
      var (front, last) := (moves[..|moves| - 1], moves[|moves| - 1]);
      MutedForever(w, front, cooldown, kind);
      MutesKept(Run(w, front), last, cooldown, kind);
      BaseHolds(Run(w, front), last, cooldown);
    }
  }

  /** Muting a delivered row of a kind succeeds, and from then on, after any further
      run, no pass leases and no fallback claims a row of that kind. */
  lemma {:induction false} MutedKindStaysSilent(
    w: World, row: nat, at: int, later: seq<Move>, cooldown: int,
    c: Claim, token: string, expires: int, attempt: F.Attempt)
    requires Base(w) && at >= w.clock && row < |w.db.rows| && w.db.rows[row].state == Delivered
    requires AllowedRun(Advance(w, Move(MutingKind(row), at)), later, cooldown)
    requires c.dayStart <= c.now < c.dayEnd && expires > c.now
    ensures var (db, kind) := (Run(Advance(w, Move(MutingKind(row), at)), later).db, w.db.rows[row].kind);
      && kind in db.mutes && db.mutes[kind] == (if kind in w.db.mutes then w.db.mutes[kind] else at)
      && (forall id :: id in Reserve(db, c, token, expires).result.value.rows ==>
            id < |db.rows| && db.rows[id].kind != kind)
      && (var claimed := F.ClaimNext(db, attempt).result;
          claimed.Ok? && (claimed.value.Some? ==>
            claimed.value.value < |db.rows| && db.rows[claimed.value.value].kind != kind))
  {
    var m := Move(MutingKind(row), at);
    var x := Advance(w, m);
    var kind := w.db.rows[row].kind;
    BaseHolds(w, m, cooldown);
    assert kind in x.db.mutes;
    MutedForever(x, later, cooldown, kind);
    var db := Run(x, later).db;
    forall id | id in Reserve(db, c, token, expires).result.value.rows
      ensures id < |db.rows| && db.rows[id].kind != kind
    {
      LeasedRowsQualify(db, c, token, expires, id);
    }
    F.ClaimTakesFirst(db, attempt);
  }
}
