/** The delivery lease protocol: a reserve pass leases pending rows under one
    receipt, and a confirmation turns the whole lease into delivery history. */
module Leasing {
  import opened Situations
  import Sorting

  const PAGE_LIMIT: nat := 100
  const NON_REPLY_SLOTS: nat := 1

  /** The policy values of one reserve pass. */
  datatype Claim = Claim(
    now: int, cooldownAfter: int, dayStart: int, dayEnd: int,
    budget: nat, allowNoncritical: bool)

  datatype Reservation = Reservation(token: string, rows: seq<nat>, expiresAt: int)
  datatype Confirmation = Confirmed(count: nat) | AlreadyConfirmed(count: nat)

  // ------------------------------------------------------------- delivery page

  /** The delivery rank: critical, then non-reply, then high, then age, then id. */
  predicate NotAfter(rows: seq<Row>, a: nat, b: nat)
  {
    if a >= |rows| || b >= |rows| then (a >= |rows| ==> b >= |rows| && a <= b)
    else
      var (x, y) := (rows[a], rows[b]);
      var (cx, cy) := (x.priority == Critical, y.priority == Critical);
      var (rx, ry) := (x.kind == ReplyDeadline, y.kind == ReplyDeadline);
      var (hx, hy) := (x.priority == High, y.priority == High);
      if cx != cy then cx
      else if rx != ry then ry
      else if hx != hy then hx
      else if x.detectedAt != y.detectedAt then x.detectedAt < y.detectedAt
      else a <= b
  }

  function PendingIds(rows: seq<Row>, n: nat): (ids: seq<nat>)
    requires n <= |rows|
  {
    if n == 0 then []
    else PendingIds(rows, n - 1) + (if rows[n - 1].state == Pending then [n - 1] else [])
  }

  function Take<T>(xs: seq<T>, n: nat): seq<T>
  {
    if n <= |xs| then xs[..n] else xs
  }

  function DeliveryOrder(rows: seq<Row>): (nat, nat) -> bool
  {
    (a: nat, b: nat) => NotAfter(rows, a, b)
  }

  function DeliveryPage(rows: seq<Row>): (page: seq<nat>)
  {
    Take(Sorting.Sort(DeliveryOrder(rows), PendingIds(rows, |rows|)), PAGE_LIMIT)
  }

  // --------------------------------------------------------------- eligibility

  predicate CurrentSource(db: Db, kind: Kind)
  {
    kind != ReplyDeadline || Gmail !in db.generations ||
    (var g := db.generations[Gmail]; g.issued == g.applied && g.status == Some(Complete))
  }

  predicate Cooled(db: Db, row: nat, after: int)
    requires row < |db.rows|
  {
    db.rows[row].exempt ||
    forall k :: 0 <= k < |db.history| && db.history[k].row == row ==> db.history[k].at <= after
  }

  /** Every condition on one row except source freshness and the budget. */
  predicate Offerable(db: Db, c: Claim, row: nat)
  {
    && row < |db.rows|
    && db.rows[row].state == Pending
    && (db.rows[row].expiresAt.Some? ==> db.rows[row].expiresAt.value > c.now)
    && row !in db.leases
    && db.rows[row].kind !in db.mutes
    && Cooled(db, row, c.cooldownAfter)
  }

  predicate Eligible(db: Db, c: Claim, row: nat)
  {
    Offerable(db, c, row) && CurrentSource(db, db.rows[row].kind)
  }

  predicate IsCritical(db: Db, row: nat)
  {
    row < |db.rows| && db.rows[row].priority == Critical
  }

  predicate IsReply(db: Db, row: nat)
  {
    row < |db.rows| && db.rows[row].kind == ReplyDeadline
  }

  /** The history entries that count against the budget of one day window. */
  function DeliveredIn(db: Db, start: int, end: int): set<nat>
  {
    set k: nat | k < |db.history| && start <= db.history[k].at < end && db.history[k].priority != Critical
  }

  function RepliesDeliveredIn(db: Db, start: int, end: int): set<nat>
  {
    set k: nat | k in DeliveredIn(db, start, end) && IsReply(db, db.history[k].row)
  }

  /** The live non-critical leases taken inside one day window. */
  function LeasedIn(db: Db, start: int, end: int, now: int): set<nat>
  {
    set row | row in db.leases && row < |db.rows| && !IsCritical(db, row)
      && start <= db.leases[row].claimedAt < end && db.leases[row].expiresAt > now
  }

  function RepliesLeasedIn(db: Db, start: int, end: int, now: int): set<nat>
  {
    set row | row in LeasedIn(db, start, end, now) && IsReply(db, row)
  }

  function Used(db: Db, c: Claim): nat
  {
    |DeliveredIn(db, c.dayStart, c.dayEnd)| + |LeasedIn(db, c.dayStart, c.dayEnd, c.now)|
  }

  function RepliesUsed(db: Db, c: Claim): nat
  {
    |RepliesDeliveredIn(db, c.dayStart, c.dayEnd)| + |RepliesLeasedIn(db, c.dayStart, c.dayEnd, c.now)|
  }

  function Minus(a: nat, b: nat): nat { if a <= b then 0 else a - b }

  function Min(a: nat, b: nat): nat { if a <= b then a else b }

  // -------------------------------------------------------------- reserve pass

  function ExpireLeases(db: Db, at: int): Db
  {
    db.(leases := map row | row in db.leases && db.leases[row].expiresAt > at :: db.leases[row])
  }

  predicate Consumable(db: Db, c: Claim, row: nat)
  {
    Offerable(db, c, row) && !IsCritical(db, row) && !IsReply(db, row)
  }

  function ReservedSlots(db: Db, c: Claim, page: seq<nat>): nat
  {
    if !c.allowNoncritical then 0
    else if exists row :: row in page && Consumable(db, c, row) then NON_REPLY_SLOTS
    else 0
  }

  /** The guard of the lease INSERT for one candidate. */
  predicate Admits(db: Db, c: Claim, slots: nat, row: nat)
  {
    && (c.allowNoncritical || IsCritical(db, row))
    && Eligible(db, c, row)
    && (IsCritical(db, row) || Used(db, c) < c.budget)
    && (IsCritical(db, row) || !IsReply(db, row) || RepliesUsed(db, c) < Minus(c.budget, slots))
  }

  datatype Pass = Pass(db: Db, taken: seq<nat>)

  function AddLease(db: Db, row: nat, token: string, at: int, expires: int): Db
  {
    db.(leases := db.leases[row := Lease(token, at, expires)])
  }

  /** The candidates of `page` offered one after the other, each against the
      tables its predecessors left behind. */
  function ReservePass(db: Db, c: Claim, token: string, expires: int, slots: nat, page: seq<nat>): Pass
  {
    if page == [] then Pass(db, [])
    else
      var before := ReservePass(db, c, token, expires, slots, page[..|page| - 1]);
      var row := page[|page| - 1];
      if Admits(before.db, c, slots, row)
      then Pass(AddLease(before.db, row, token, c.now, expires), before.taken + [row])
      else before
  }

  function Reserve(db: Db, c: Claim, token: string, expires: int): Step<Reservation>
  {
    var live := ExpireLeases(db, c.now);
    var page := DeliveryPage(live.rows);
    var pass := ReservePass(live, c, token, expires, ReservedSlots(live, c, page), page);
    Step(pass.db, Ok(Reservation(token, pass.taken, expires)))
  }

  // -------------------------------------------------------------- confirmation

  /** The situations one receipt owns, in id order. */
  function LeaseIds(leases: map<nat, Lease>, token: string, n: nat): (ids: seq<nat>)
  {
    if n == 0 then []
    else
      LeaseIds(leases, token, n - 1) +
      (if n - 1 in leases && leases[n - 1].token == token then [n - 1] else [])
  }

  function DeliverOne(db: Db, row: nat, at: int): Db
    requires row < |db.rows|
  {
    db.(rows := db.rows[row := DeliverRow(db.rows[row], at)],
        history := db.history + [Delivery(row, at, db.rows[row].priority)])
  }

  function DeliverAll(db: Db, ids: seq<nat>, at: int): Step<nat>
  {
    if ids == [] then Step(db, Ok(0))
    else
      var before := DeliverAll(db, ids[..|ids| - 1], at);
      var row := ids[|ids| - 1];
      if before.result.Err? then before
      else if row >= |before.db.rows| || before.db.rows[row].state != Pending
      then Step(before.db, Err(InvalidReceipt))
      else Step(DeliverOne(before.db, row, at), Ok(|ids|))
  }

  function Consume(db: Db, token: string): Db
  {
    db.(leases := map row | row in db.leases && db.leases[row].token != token :: db.leases[row])
  }

  function ConfirmFirst(db: Db, token: string, at: int): Step<Confirmation>
  {
    var live := ExpireLeases(db, at);
    var ids := Take(LeaseIds(live.leases, token, |live.rows|), PAGE_LIMIT);
    if ids == [] then Step(live, Err(InvalidReceipt))
    else
      var delivered := DeliverAll(live, ids, at);
      if delivered.result.Err? then Step(delivered.db, Err(delivered.result.error))
      else
        var consumed := Consume(delivered.db, token);
        Step(consumed.(receipts := consumed.receipts[token := Receipt(|ids|, at)]), Ok(Confirmed(|ids|)))
  }

  function Confirm(db: Db, token: string, at: int): Step<Confirmation>
  {
    if token in db.receipts then Step(db, Ok(AlreadyConfirmed(db.receipts[token].count)))
    else Atomically(db, ConfirmFirst(db, token, at))
  }
}
