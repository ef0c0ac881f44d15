/** A confirmation is all or nothing: it delivers the whole live lease of its
    receipt, or it changes nothing. */
module Confirmations {
  import opened Situations
  import opened Leasing
  import opened ReservePasses
  import Sorting

  /** The situations a receipt still leases at an instant. */
  function Owned(db: Db, token: string, at: int): set<nat>
  {
    set row | row in db.leases && db.leases[row].token == token && db.leases[row].expiresAt > at
  }

  /** Every situation a receipt has a lease row for, expired or not. */
  function Rows(db: Db, token: string): set<nat>
  {
    set row | row in db.leases && db.leases[row].token == token
  }

  ghost predicate LeasesInTable(db: Db)
  {
    forall row :: row in db.leases ==> row < |db.rows|
  }

  lemma {:induction false} LeaseIdsFacts(leases: map<nat, Lease>, token: string, n: nat)
    ensures forall id: nat :: id in LeaseIds(leases, token, n) <==> id < n && id in leases && leases[id].token == token
    ensures Sorting.Ascending(LeaseIds(leases, token, n))
  {
    if n > 0 {
      LeaseIdsFacts(leases, token, n - 1);
      var front := LeaseIds(leases, token, n - 1);
      forall k | 0 <= k < |front| ensures front[k] < n - 1 {
        assert front[k] in front;
      }
    }
  }

  lemma {:induction false} DistinctSize(ids: seq<nat>, rows: set<nat>)
    requires Distinct(ids) && forall id: nat :: id in ids <==> id in rows
    ensures |ids| == |rows|
  {
    if ids == [] {
      assert rows == {};
    } else {
      var last := ids[|ids| - 1];
      var front := ids[..|ids| - 1];
      assert last in ids;
      forall id: nat ensures id in front <==> id in rows - {last} {
        if id in rows - {last} {
          var k :| 0 <= k < |ids| && ids[k] == id;
          assert front[k] == id;
        }
        if id in front {
          var k :| 0 <= k < |front| && front[k] == id;
          assert ids[k] == id && ids[k] != last;
        }
      }
      DistinctSize(front, rows - {last});
    }
  }

  function DeliveredRows(rows: seq<Row>, ids: seq<nat>, at: int): seq<Row>
  {
    seq(|rows|, i requires 0 <= i < |rows| => if i in ids then DeliverRow(rows[i], at) else rows[i])
  }

  function Deliveries(rows: seq<Row>, ids: seq<nat>, at: int): seq<Delivery>
    requires forall k :: 0 <= k < |ids| ==> ids[k] < |rows|
  {
    seq(|ids|, k requires 0 <= k < |ids| => Delivery(ids[k], at, rows[ids[k]].priority))
  }

  ghost predicate AllPending(rows: seq<Row>, ids: seq<nat>)
  {
    forall k :: 0 <= k < |ids| ==> ids[k] < |rows| && rows[ids[k]].state == Pending
  }

  /** Delivering a list of distinct rows succeeds exactly when all are pending. */
  lemma {:induction false} DeliverAllEffect(db: Db, ids: seq<nat>, at: int)
    requires Distinct(ids)
    ensures DeliverAll(db, ids, at).result.Ok? <==> AllPending(db.rows, ids)
    ensures AllPending(db.rows, ids) ==>
      DeliverAll(db, ids, at).db ==
      db.(rows := DeliveredRows(db.rows, ids, at), history := db.history + Deliveries(db.rows, ids, at))
  {
    if ids == [] {
      assert DeliveredRows(db.rows, ids, at) == db.rows;
    } else {
      var front := ids[..|ids| - 1];
      var row := ids[|ids| - 1];
      assert ids == front + [row];
      assert row !in front;
      DeliverAllEffect(db, front, at);
      var before := DeliverAll(db, front, at);
      if before.result.Ok? && AllPending(db.rows, ids) {
        assert before.db.rows[row] == db.rows[row];
        assert DeliveredRows(db.rows, ids, at) == before.db.rows[row := DeliverRow(db.rows[row], at)];
        assert Deliveries(db.rows, ids, at)
            == Deliveries(db.rows, front, at) + [Delivery(row, at, db.rows[row].priority)];
      }
      if before.result.Ok? && row < |db.rows| {
        assert before.db.rows[row] == db.rows[row];
      }
    }
  }

  /** The rows a confirmation delivers, in id order. */
  function ConfirmedIds(db: Db, token: string, at: int): seq<nat>
  {
    LeaseIds(ExpireLeases(db, at).leases, token, |db.rows|)
  }

  lemma ConfirmedIdsFacts(db: Db, token: string, at: int)
    requires LeasesInTable(db)
    ensures Sorting.Ascending(ConfirmedIds(db, token, at)) && Distinct(ConfirmedIds(db, token, at))
    ensures forall id: nat :: id in ConfirmedIds(db, token, at) <==> id in Owned(db, token, at)
    ensures |ConfirmedIds(db, token, at)| == |Owned(db, token, at)|
  {
    var ids := ConfirmedIds(db, token, at);
    LeaseIdsFacts(ExpireLeases(db, at).leases, token, |db.rows|);
    forall i, j | 0 <= i < j < |ids| ensures ids[i] != ids[j] {
      assert ids[i] < ids[j];
    }
    DistinctSize(ids, Owned(db, token, at));
  }

  ghost predicate AllOwnedPending(db: Db, token: string, at: int)
    requires LeasesInTable(db)
  {
    forall row :: row in Owned(db, token, at) ==> db.rows[row].state == Pending
  }

  /** A first confirmation succeeds exactly when the receipt still leases
      something and everything it leases is pending; then it appends one history
      entry per leased row, delivers exactly those rows, consumes the lease and
      records the count. Otherwise no table changes. */
  lemma ConfirmEffect(db: Db, token: string, at: int)
    requires LeasesInTable(db) && token !in db.receipts
    requires |Rows(db, token)| <= PAGE_LIMIT
    ensures var ids := ConfirmedIds(db, token, at);
      var step := Confirm(db, token, at);
      && (step.result.Ok? <==> Owned(db, token, at) != {} && AllOwnedPending(db, token, at))
      && (step.result.Err? ==> step.db == db && step.result == Err(InvalidReceipt))
      && (step.result.Ok? ==>
            && step.result == Ok(Confirmed(|Owned(db, token, at)|))
            && AllPending(db.rows, ids)
            && step.db == db.(
                 rows := DeliveredRows(db.rows, ids, at),
                 history := db.history + Deliveries(db.rows, ids, at),
                 leases := Consume(ExpireLeases(db, at), token).leases,
                 receipts := db.receipts[token := Receipt(|ids|, at)]))
  {
    var live := ExpireLeases(db, at);
    var ids := ConfirmedIds(db, token, at);
    ConfirmedIdsFacts(db, token, at);
    assert Owned(db, token, at) <= Rows(db, token);
    SubsetSize(Owned(db, token, at), Rows(db, token));
    assert Take(ids, PAGE_LIMIT) == ids;
    DeliverAllEffect(live, ids, at);
    DeliverAllError(live, ids, at);
    if ids == [] {
      assert Owned(db, token, at) == {};
    } else {
      assert ids[0] in ids;
      forall k | 0 <= k < |ids| ensures ids[k] in Owned(db, token, at) {
        assert ids[k] in ids;
      }
      assert AllPending(db.rows, ids) <==> AllOwnedPending(db, token, at);
    }
  }

  lemma {:induction false} DeliverAllError(db: Db, ids: seq<nat>, at: int)
    ensures DeliverAll(db, ids, at).result.Err? ==> DeliverAll(db, ids, at).result.error == InvalidReceipt
  {
    if ids != [] { DeliverAllError(db, ids[..|ids| - 1], at); }
  }

  lemma SubsetSize<T>(a: set<T>, b: set<T>)
    requires a <= b
    ensures |a| <= |b|
  {
    assert b == a + (b - a);
    assert |a + (b - a)| == |a| + |b - a|;
  }

  /** A receipt that was confirmed once answers with the same count again and
      changes nothing. */
  lemma ReplayChangesNothing(db: Db, token: string, at: int)
    requires token in db.receipts
    ensures Confirm(db, token, at) == Step(db, Ok(AlreadyConfirmed(db.receipts[token].count)))
  {
  }
}
