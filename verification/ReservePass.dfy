/** What one reserve pass leases: a prefix of the eligible rows of its page. */
module ReservePasses {
  import opened Situations
  import opened Leasing
  import Sorting

  // ---------------------------------------------------------------- the page

  lemma {:induction false} PendingIdsFacts(rows: seq<Row>, n: nat)
    requires n <= |rows|
    ensures forall id: nat :: id in PendingIds(rows, n) <==> id < n && rows[id].state == Pending
    ensures Sorting.Ascending(PendingIds(rows, n))
  {
    if n > 0 {
      PendingIdsFacts(rows, n - 1);
      var front := PendingIds(rows, n - 1);
      forall k | 0 <= k < |front| ensures front[k] < n - 1 {
        assert front[k] in front;
      }
    }
  }

  ghost predicate Distinct<T>(xs: seq<T>)
  {
    forall i, j :: 0 <= i < j < |xs| ==> xs[i] != xs[j]
  }

  /** All pending rows in delivery order; the page is its first hundred. */
  function Queue(rows: seq<Row>): seq<nat>
  {
    Sorting.Sort(DeliveryOrder(rows), PendingIds(rows, |rows|))
  }

  lemma {:induction false} OrderIsTotal(rows: seq<Row>)
    ensures Sorting.TotalOrder(DeliveryOrder(rows))
  {
  }

  lemma {:induction false} QueueFacts(rows: seq<Row>)
    ensures Distinct(Queue(rows))
    ensures Sorting.SortedBy(DeliveryOrder(rows), Queue(rows))
    ensures forall id: nat :: id in Queue(rows) <==> id < |rows| && rows[id].state == Pending
  {
    var le := DeliveryOrder(rows);
    var ids := PendingIds(rows, |rows|);
    PendingIdsFacts(rows, |rows|);
    OrderIsTotal(rows);
    Sorting.SortPermutes(le, ids);
    Sorting.SortSorts(le, ids);
    forall i, j | 0 <= i < j < |ids| ensures ids[i] != ids[j] {
      assert ids[i] < ids[j];
    }
    Sorting.DistinctPermutation(ids, Queue(rows));
    Sorting.SameElements(Queue(rows), ids);
  }

  /** The page holds distinct pending rows in delivery order, and every pending row
      it leaves out comes after all of its one hundred entries. */
  lemma {:induction false} PageFacts(rows: seq<Row>)
    ensures |DeliveryPage(rows)| <= PAGE_LIMIT
    ensures Distinct(DeliveryPage(rows))
    ensures Sorting.SortedBy(DeliveryOrder(rows), DeliveryPage(rows))
    ensures forall id: nat :: id in DeliveryPage(rows) ==> id < |rows| && rows[id].state == Pending
    ensures forall id: nat :: id < |rows| && rows[id].state == Pending && id !in DeliveryPage(rows) ==>
      |DeliveryPage(rows)| == PAGE_LIMIT &&
      forall k :: 0 <= k < PAGE_LIMIT ==> NotAfter(rows, DeliveryPage(rows)[k], id)
  {
    var queue := Queue(rows);
    var page := DeliveryPage(rows);
    QueueFacts(rows);
    assert page <= queue;
    assert forall k :: 0 <= k < |page| ==> page[k] == queue[k] && queue[k] in queue;
    forall id: nat | id < |rows| && rows[id].state == Pending && id !in page
      ensures |page| == PAGE_LIMIT && forall k :: 0 <= k < PAGE_LIMIT ==> NotAfter(rows, page[k], id)
    {
      var m :| 0 <= m < |queue| && queue[m] == id;
      assert m >= |page|;
      forall k | 0 <= k < |page| ensures NotAfter(rows, page[k], id) {
        assert DeliveryOrder(rows)(queue[k], queue[m]);
      }
    }
  }

  // ------------------------------------------------------- rows a pass wants

  predicate Wants(db: Db, c: Claim, row: nat)
  {
    (c.allowNoncritical || IsCritical(db, row)) && Eligible(db, c, row)
  }

  function Wanted(db: Db, c: Claim, page: seq<nat>): (ids: seq<nat>)
  {
    if page == [] then []
    else
      var row := page[|page| - 1];
      Wanted(db, c, page[..|page| - 1]) + (if Wants(db, c, row) then [row] else [])
  }

  /** Delivery groups in page order: critical, then plain, then reply. */
  function Group(db: Db, row: nat): nat
  {
    if IsCritical(db, row) then 0 else if !IsReply(db, row) then 1 else 2
  }

  function InGroup(db: Db, ids: seq<nat>, group: nat): nat
  {
    if ids == [] then 0
    else InGroup(db, ids[..|ids| - 1], group) + (if Group(db, ids[|ids| - 1]) == group then 1 else 0)
  }

  function PlainTaken(plain: nat, room: nat): nat { Min(plain, room) }

  function RepliesTaken(plain: nat, replies: nat, room: nat, replyRoom: nat): nat
  {
    Min(replies, Min(Minus(room, plain), replyRoom))
  }

  /** The closed form: all critical rows, then plain rows while the budget has
      room, then replies while both the budget and their own share have room. */
  function TakenLength(db: Db, c: Claim, slots: nat, ids: seq<nat>): nat
  {
    var room := Minus(c.budget, Used(db, c));
    var replyRoom := Minus(Minus(c.budget, slots), RepliesUsed(db, c));
    var plain := InGroup(db, ids, 1);
    InGroup(db, ids, 0) + PlainTaken(plain, room) + RepliesTaken(plain, InGroup(db, ids, 2), room, replyRoom)
  }

  lemma {:induction false} WantedFacts(db: Db, c: Claim, page: seq<nat>)
    ensures forall id :: id in Wanted(db, c, page) <==> id in page && Wants(db, c, id)
    ensures |Wanted(db, c, page)| <= |page|
    ensures Distinct(page) ==> Distinct(Wanted(db, c, page))
  {
    if page != [] {
      var front := page[..|page| - 1];
      var row := page[|page| - 1];
      WantedFacts(db, c, front);
      assert page == front + [row];
      if Distinct(page) {
        assert row !in front;
      }
    }
  }

  lemma {:induction false} GroupTotals(db: Db, ids: seq<nat>)
    ensures InGroup(db, ids, 0) + InGroup(db, ids, 1) + InGroup(db, ids, 2) == |ids|
  {
    if ids != [] { GroupTotals(db, ids[..|ids| - 1]); }
  }

  lemma {:induction false} NoneInGroup(db: Db, ids: seq<nat>, group: nat)
    requires forall id :: id in ids ==> Group(db, id) != group
    ensures InGroup(db, ids, group) == 0
  {
    if ids != [] { NoneInGroup(db, ids[..|ids| - 1], group); }
  }

  ghost predicate Grouped(db: Db, page: seq<nat>)
  {
    forall i, j :: 0 <= i < j < |page| ==> Group(db, page[i]) <= Group(db, page[j])
  }

  lemma {:induction false} PageIsGrouped(db: Db)
    ensures Grouped(db, DeliveryPage(db.rows))
  {
    PageFacts(db.rows);
    var page := DeliveryPage(db.rows);
    forall i, j | 0 <= i < j < |page| ensures Group(db, page[i]) <= Group(db, page[j]) {
      assert DeliveryOrder(db.rows)(page[i], page[j]);
      assert page[i] in page && page[j] in page;
    }
  }

  // -------------------------------------------------- effect of taking leases

  function WithLeases(db: Db, taken: seq<nat>, token: string, at: int, expires: int): Db
  {
    db.(leases := db.leases + map row | row in taken :: Lease(token, at, expires))
  }

  lemma {:induction false} AddedLeases(db: Db, taken: seq<nat>, row: nat, token: string, at: int, expires: int)
    ensures AddLease(WithLeases(db, taken, token, at, expires), row, token, at, expires)
         == WithLeases(db, taken + [row], token, at, expires)
  {
  }

  lemma {:induction false} LeasedAfterLease(db: Db, c: Claim, row: nat, token: string, expires: int)
    requires row !in db.leases && row < |db.rows|
    requires c.dayStart <= c.now < c.dayEnd && expires > c.now
    ensures LeasedIn(AddLease(db, row, token, c.now, expires), c.dayStart, c.dayEnd, c.now)
         == LeasedIn(db, c.dayStart, c.dayEnd, c.now) + (if Group(db, row) == 0 then {} else {row})
  {
  }

  lemma {:induction false} RepliesAfterLease(db: Db, c: Claim, row: nat, token: string, expires: int)
    requires row !in db.leases && row < |db.rows|
    requires c.dayStart <= c.now < c.dayEnd && expires > c.now
    ensures RepliesLeasedIn(AddLease(db, row, token, c.now, expires), c.dayStart, c.dayEnd, c.now)
         == RepliesLeasedIn(db, c.dayStart, c.dayEnd, c.now) + (if Group(db, row) == 2 then {row} else {})
  {
    LeasedAfterLease(db, c, row, token, expires);
  }

  lemma {:induction false} UsedAfterLease(db: Db, c: Claim, row: nat, token: string, expires: int)
    requires row !in db.leases && row < |db.rows|
    requires c.dayStart <= c.now < c.dayEnd && expires > c.now
    ensures Used(AddLease(db, row, token, c.now, expires), c)
         == Used(db, c) + (if Group(db, row) == 0 then 0 else 1)
    ensures RepliesUsed(AddLease(db, row, token, c.now, expires), c)
         == RepliesUsed(db, c) + (if Group(db, row) == 2 then 1 else 0)
  {
    var d := AddLease(db, row, token, c.now, expires);
    assert DeliveredIn(d, c.dayStart, c.dayEnd) == DeliveredIn(db, c.dayStart, c.dayEnd);
    assert RepliesDeliveredIn(d, c.dayStart, c.dayEnd) == RepliesDeliveredIn(db, c.dayStart, c.dayEnd);
    LeasedAfterLease(db, c, row, token, expires);
    RepliesAfterLease(db, c, row, token, expires);
    assert row !in LeasedIn(db, c.dayStart, c.dayEnd, c.now);
    assert row !in RepliesLeasedIn(db, c.dayStart, c.dayEnd, c.now);
  }

  /** What a pass adds to the budget counts after a prefix of the page. */
  ghost predicate PassCounts(db: Db, c: Claim, slots: nat, ids: seq<nat>, end: Db)
  {
    var room := Minus(c.budget, Used(db, c));
    var replyRoom := Minus(Minus(c.budget, slots), RepliesUsed(db, c));
    var plain := PlainTaken(InGroup(db, ids, 1), room);
    var replies := RepliesTaken(InGroup(db, ids, 1), InGroup(db, ids, 2), room, replyRoom);
    && Used(end, c) == Used(db, c) + plain + replies
    && RepliesUsed(end, c) == RepliesUsed(db, c) + replies
  }

  /** The rows a pass has taken after a prefix of the page. */
  ghost predicate PassRows(db: Db, c: Claim, token: string, expires: int, slots: nat, ids: seq<nat>, pass: Pass)
  {
    && TakenLength(db, c, slots, ids) <= |ids|
    && pass.taken == ids[..TakenLength(db, c, slots, ids)]
    && pass.db == WithLeases(db, pass.taken, token, c.now, expires)
  }

  ghost predicate PassShape(db: Db, c: Claim, token: string, expires: int, slots: nat, page: seq<nat>, pass: Pass)
  {
    && PassRows(db, c, token, expires, slots, Wanted(db, c, page), pass)
    && PassCounts(db, c, slots, Wanted(db, c, page), pass.db)
  }

  lemma {:induction false} SameEligibility(db: Db, c: Claim, taken: seq<nat>, token: string, expires: int, row: nat)
    requires row !in taken
    ensures Eligible(WithLeases(db, taken, token, c.now, expires), c, row) == Eligible(db, c, row)
  {
  }

  lemma {:induction false} PassSkips(db: Db, c: Claim, token: string, expires: int, slots: nat, front: seq<nat>, row: nat, pass: Pass)
    requires PassShape(db, c, token, expires, slots, front, pass)
    requires row !in front && !Wants(db, c, row)
    ensures !Admits(pass.db, c, slots, row)
    ensures PassShape(db, c, token, expires, slots, front + [row], pass)
  {
    WantedFacts(db, c, front);
    assert (front + [row])[..|front|] == front;
    assert Wanted(db, c, front + [row]) == Wanted(db, c, front);
    assert row !in pass.taken;
    SameEligibility(db, c, pass.taken, token, expires, row);
  }

  /** Whether the closed form grows when a wanted row of `group` is appended. */
  predicate Grows(db: Db, c: Claim, slots: nat, ids: seq<nat>, group: nat)
  {
    var length := TakenLength(db, c, slots, ids);
    var room := Minus(c.budget, Used(db, c));
    var replyRoom := Minus(Minus(c.budget, slots), RepliesUsed(db, c));
    var plain := InGroup(db, ids, 1);
    var replies := InGroup(db, ids, 2);
    group == 0 || (group == 1 && plain < room) || (group == 2 && plain + replies < room && replies < replyRoom)
  }

  lemma {:induction false} LengthStep(db: Db, c: Claim, slots: nat, ids: seq<nat>, row: nat)
    requires forall id :: id in ids ==> Group(db, id) <= Group(db, row)
    ensures TakenLength(db, c, slots, ids) <= |ids|
    ensures TakenLength(db, c, slots, ids + [row]) <= |ids| + 1
    ensures Grows(db, c, slots, ids, Group(db, row)) ==>
      TakenLength(db, c, slots, ids) == |ids| && TakenLength(db, c, slots, ids + [row]) == |ids| + 1
    ensures !Grows(db, c, slots, ids, Group(db, row)) ==>
      TakenLength(db, c, slots, ids + [row]) == TakenLength(db, c, slots, ids)
  {
    GroupTotals(db, ids);
    assert (ids + [row])[..|ids|] == ids;
    if Group(db, row) < 2 { NoneInGroup(db, ids, 2); }
    if Group(db, row) < 1 { NoneInGroup(db, ids, 1); }
  }

  lemma {:induction false} AdmitsIffGrows(db: Db, c: Claim, token: string, expires: int, slots: nat, front: seq<nat>, row: nat, pass: Pass)
    requires PassShape(db, c, token, expires, slots, front, pass)
    requires row !in front && Wants(db, c, row)
    requires forall id :: id in front ==> Group(db, id) <= Group(db, row)
    ensures Admits(pass.db, c, slots, row) <==> Grows(db, c, slots, Wanted(db, c, front), Group(db, row))
  {
    var ids := Wanted(db, c, front);
    WantedFacts(db, c, front);
    GroupTotals(db, ids);
    assert row !in pass.taken;
    SameEligibility(db, c, pass.taken, token, expires, row);
    if Group(db, row) < 2 { NoneInGroup(db, ids, 2); }
    assert IsCritical(pass.db, row) == IsCritical(db, row) && IsReply(pass.db, row) == IsReply(db, row);
  }

  lemma {:induction false} CountsStep(
    db: Db, c: Claim, token: string, expires: int, slots: nat, ids: seq<nat>, row: nat, end: Db)
    requires c.dayStart <= c.now < c.dayEnd && expires > c.now
    requires PassCounts(db, c, slots, ids, end)
    requires end.rows == db.rows && row < |end.rows| && row !in end.leases
    requires Grows(db, c, slots, ids, Group(db, row))
    requires forall id :: id in ids ==> Group(db, id) <= Group(db, row)
    ensures PassCounts(db, c, slots, ids + [row], AddLease(end, row, token, c.now, expires))
  {
    assert (ids + [row])[..|ids|] == ids;
    UsedAfterLease(end, c, row, token, expires);
    if Group(db, row) < 2 { NoneInGroup(db, ids, 2); }
    if Group(db, row) < 1 { NoneInGroup(db, ids, 1); }
    assert Group(end, row) == Group(db, row);
    forall g: nat ensures InGroup(db, ids + [row], g) == InGroup(db, ids, g) + (if Group(db, row) == g then 1 else 0) {}
  }

  lemma {:induction false} WholePrefix(ids: seq<nat>, row: nat)
    ensures ids[..|ids|] == ids
    ensures (ids + [row])[..|ids| + 1] == ids + [row]
  {
  }

  lemma {:induction false} PassTakes(db: Db, c: Claim, token: string, expires: int, slots: nat, ids: seq<nat>, row: nat, pass: Pass)
    requires PassRows(db, c, token, expires, slots, ids, pass)
    requires Grows(db, c, slots, ids, Group(db, row))
    requires forall id :: id in ids ==> Group(db, id) <= Group(db, row)
    ensures PassRows(db, c, token, expires, slots, ids + [row],
      Pass(AddLease(pass.db, row, token, c.now, expires), pass.taken + [row]))
  {
    LengthStep(db, c, slots, ids, row);
    WholePrefix(ids, row);
    AddedLeases(db, ids, row, token, c.now, expires);
  }

  lemma {:induction false} PassStays(db: Db, c: Claim, token: string, expires: int, slots: nat, front: seq<nat>, row: nat, pass: Pass)
    requires PassShape(db, c, token, expires, slots, front, pass)
    requires Wanted(db, c, front + [row]) == Wanted(db, c, front) + [row]
    requires !Grows(db, c, slots, Wanted(db, c, front), Group(db, row))
    requires forall id :: id in Wanted(db, c, front) ==> Group(db, id) <= Group(db, row)
    ensures PassShape(db, c, token, expires, slots, front + [row], pass)
  {
    var ids := Wanted(db, c, front);
    LengthStep(db, c, slots, ids, row);
    assert (ids + [row])[..|ids|] == ids;
    if Group(db, row) < 2 { NoneInGroup(db, ids, 2); }
    var length := TakenLength(db, c, slots, ids);
    assert (ids + [row])[..length] == ids[..length];
  }

  lemma {:induction false} PassStep(db: Db, c: Claim, token: string, expires: int, slots: nat, front: seq<nat>, row: nat, pass: Pass)
    requires c.dayStart <= c.now < c.dayEnd && expires > c.now
    requires PassShape(db, c, token, expires, slots, front, pass)
    requires row !in front && Wants(db, c, row)
    requires forall id :: id in front ==> Group(db, id) <= Group(db, row)
    ensures var next :=
        if Admits(pass.db, c, slots, row)
        then Pass(AddLease(pass.db, row, token, c.now, expires), pass.taken + [row]) else pass;
      PassShape(db, c, token, expires, slots, front + [row], next)
  {
    WantedFacts(db, c, front);
    assert (front + [row])[..|front|] == front;
    assert Wanted(db, c, front + [row]) == Wanted(db, c, front) + [row];
    AdmitsIffGrows(db, c, token, expires, slots, front, row, pass);
    if Admits(pass.db, c, slots, row) {
      var ids := Wanted(db, c, front);
      PassTakes(db, c, token, expires, slots, ids, row, pass);
      CountsStep(db, c, token, expires, slots, ids, row, pass.db);
    } else {
      PassStays(db, c, token, expires, slots, front, row, pass);
    }
  }

  lemma {:induction false} PassFollowsClosedForm(
    db: Db, c: Claim, token: string, expires: int, slots: nat, page: seq<nat>)
    requires c.dayStart <= c.now < c.dayEnd && expires > c.now
    requires Distinct(page) && Grouped(db, page)
    ensures PassShape(db, c, token, expires, slots, page, ReservePass(db, c, token, expires, slots, page))
  {
    if page == [] {
      assert WithLeases(db, [], token, c.now, expires) == db;
    } else {
      var front := page[..|page| - 1];
      var row := page[|page| - 1];
      assert page == front + [row];
      assert row !in front;
      PassFollowsClosedForm(db, c, token, expires, slots, front);
      var pass := ReservePass(db, c, token, expires, slots, front);
      if Wants(db, c, row) {
        PassStep(db, c, token, expires, slots, front, row, pass);
      } else {
        PassSkips(db, c, token, expires, slots, front, row, pass);
      }
    }
  }

  // ------------------------------------------------------------ main results

  /** The tables and page one reserve pass works on. */
  function PassStart(db: Db, c: Claim): Db { ExpireLeases(db, c.now) }

  function Slots(db: Db, c: Claim): nat
  {
    ReservedSlots(PassStart(db, c), c, DeliveryPage(db.rows))
  }

  /** A reserve pass leases exactly the closed-form prefix of the eligible rows of
      its page, to this receipt, and changes nothing else. */
  lemma {:induction false} ReserveTakesPrefix(db: Db, c: Claim, token: string, expires: int)
    requires c.dayStart <= c.now < c.dayEnd && expires > c.now
    ensures var start := PassStart(db, c);
      var ids := Wanted(start, c, DeliveryPage(db.rows));
      var length := TakenLength(start, c, Slots(db, c), ids);
      var step := Reserve(db, c, token, expires);
      && length <= |ids|
      && step.result == Ok(Reservation(token, ids[..length], expires))
      && step.db == WithLeases(start, ids[..length], token, c.now, expires)
  {
    var start := PassStart(db, c);
    PageFacts(db.rows);
    PageIsGrouped(start);
    PassFollowsClosedForm(start, c, token, expires, Slots(db, c), DeliveryPage(db.rows));
  }

  /** Every eligible critical row of the page is leased, whatever the budget. */
  lemma {:induction false} CriticalRowsAreLeased(db: Db, c: Claim, token: string, expires: int, row: nat)
    requires c.dayStart <= c.now < c.dayEnd && expires > c.now
    requires row in DeliveryPage(db.rows) && IsCritical(db, row) && Eligible(PassStart(db, c), c, row)
    ensures row in Reserve(db, c, token, expires).result.value.rows
    ensures row in Reserve(db, c, token, expires).db.leases
    ensures Reserve(db, c, token, expires).db.leases[row] == Lease(token, c.now, expires)
  {
    var start := PassStart(db, c);
    var ids := Wanted(start, c, DeliveryPage(db.rows));
    ReserveTakesPrefix(db, c, token, expires);
    WantedFacts(start, c, DeliveryPage(db.rows));
    PageFacts(db.rows);
    PageIsGrouped(start);
    WantedIsGrouped(start, c, DeliveryPage(db.rows));
    CriticalPrefix(start, ids, row);
  }

  lemma {:induction false} WantedIsGrouped(db: Db, c: Claim, page: seq<nat>)
    requires Grouped(db, page)
    ensures Grouped(db, Wanted(db, c, page))
  {
    if page != [] {
      var front := page[..|page| - 1];
      WantedIsGrouped(db, c, front);
      WantedFacts(db, c, front);
      var ids := Wanted(db, c, front);
      forall k | 0 <= k < |ids| ensures Group(db, ids[k]) <= Group(db, page[|page| - 1]) {
        assert ids[k] in front;
      }
    }
  }

  lemma {:induction false} CriticalPrefix(db: Db, ids: seq<nat>, row: nat)
    requires Grouped(db, ids) && row in ids && Group(db, row) == 0
    ensures InGroup(db, ids, 0) <= |ids|
    ensures row in ids[..InGroup(db, ids, 0)]
  {
    GroupTotals(db, ids);
    var front := ids[..|ids| - 1];
    var last := ids[|ids| - 1];
    if Group(db, last) == 0 {
      assert forall k :: 0 <= k < |front| ==> ids[k] in ids && Group(db, front[k]) == 0;
      NoneInGroup(db, front, 1);
      NoneInGroup(db, front, 2);
      GroupTotals(db, front);
      assert InGroup(db, ids, 0) == |ids|;
      assert ids[..|ids|] == ids;
    } else {
      assert ids == front + [last];
      CriticalPrefix(db, front, row);
      assert front[..InGroup(db, front, 0)] == ids[..InGroup(db, ids, 0)];
    }
  }

  /** One pass never takes used plus leased above the larger of where it started
      and the budget, and while a non-reply row of the page could still be
      delivered, replies never take the last slot of the budget. */
  lemma {:induction false} ReserveStaysInBudget(db: Db, c: Claim, token: string, expires: int)
    requires c.dayStart <= c.now < c.dayEnd && expires > c.now
    ensures var start := PassStart(db, c);
      var end := Reserve(db, c, token, expires).db;
      && Used(start, c) <= Used(end, c)
      && (Used(end, c) <= Used(start, c) || Used(end, c) <= c.budget)
      && (c.allowNoncritical && (exists row :: row in DeliveryPage(db.rows) && Consumable(start, c, row)) ==>
            RepliesUsed(end, c) <= RepliesUsed(start, c) || RepliesUsed(end, c) <= Minus(c.budget, 1))
      && (!c.allowNoncritical ==> Used(end, c) == Used(start, c))
  {
    var start := PassStart(db, c);
    var page := DeliveryPage(db.rows);
    PageFacts(db.rows);
    PageIsGrouped(start);
    PassFollowsClosedForm(start, c, token, expires, Slots(db, c), page);
    if !c.allowNoncritical {
      WantedFacts(start, c, page);
      NoneInGroup(start, Wanted(start, c, page), 1);
      NoneInGroup(start, Wanted(start, c, page), 2);
    }
  }
}
