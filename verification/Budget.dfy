/** Over every run, the leases taken on one local day never exceed the daily
    budget: the delivered ones and the outstanding ones together. */
module Budget {
  import opened Situations
  import opened Leasing
  import opened Truth
  import opened Protocol
  import opened ReservePasses
  import opened Confirmations
  import opened Runs

  /** A local day with the budget that was in force on it. */
  datatype Day = Day(start: int, end: int, budget: nat)

  /** History entries of non-critical leases taken that day. */
  function DeliveredOfDay(w: World, day: Day): set<nat>
  {
    set k: nat | k < |w.db.history| && k < |w.leasedAt| && w.db.history[k].priority != Critical
      && day.start <= w.leasedAt[k] < day.end
  }

  /** Outstanding non-critical leases taken that day. */
  function LeasedOfDay(db: Db, day: Day): set<nat>
  {
    set row | row in db.leases && row < |db.rows| && !IsCritical(db, row)
      && day.start <= db.leases[row].claimedAt < day.end
  }

  function TakenOnDay(w: World, day: Day): nat
  {
    |DeliveredOfDay(w, day)| + |LeasedOfDay(w.db, day)|
  }

  /** The reserve passes of the day use its window and budget, and no move turns a
      leased row from critical to non-critical or back. */
  ghost predicate KeepsBudget(w: World, m: Move, day: Day)
  {
    && (m.action.Reserving? && day.start <= m.at < day.end ==>
          var c := m.action.claim;
          c.dayStart == day.start && c.dayEnd == day.end && c.budget == day.budget)
    && (forall row :: row in w.db.leases && row in Next(w.db, m.action, m.at).leases ==>
          IsCritical(w.db, row) == IsCritical(Next(w.db, m.action, m.at), row))
  }

  ghost predicate KeepsBudgetRun(w: World, moves: seq<Move>, day: Day)
  {
    forall i :: 0 <= i < |moves| ==> KeepsBudget(Run(w, moves[..i]), moves[i], day)
  }

  /** Every history entry was leased no later than it was delivered. */
  ghost predicate LeaseTimes(w: World)
  {
    && |w.leasedAt| == |w.db.history|
    && (forall k :: 0 <= k < |w.db.history| ==> w.leasedAt[k] <= w.db.history[k].at <= w.clock)
    && (forall row :: row in w.db.leases ==> w.db.leases[row].claimedAt <= w.clock)
  }

  ghost predicate WithinBudget(w: World, day: Day)
  {
    LeaseTimes(w) && TakenOnDay(w, day) <= day.budget
  }

  // ------------------------------------------------------------ quiet moves

  lemma {:induction false} BudgetAfterQuiet(w: World, m: Move, day: Day)
    requires Base(w) && WithinBudget(w, day) && KeepsBudget(w, m, day) && m.at >= w.clock
    requires !m.action.Reserving? && !m.action.Confirming?
    ensures WithinBudget(Advance(w, m), day)
  {
    var e := Next(w.db, m.action, m.at);
    QuietKeepsTables(w.db, m.action, m.at);
    var x := Advance(w, m);
    assert x.leasedAt == w.leasedAt;
    assert DeliveredOfDay(x, day) == DeliveredOfDay(w, day);
    SameLeasedOfDay(w.db, e, day);
  }

  lemma {:induction false} SameLeasedOfDay(db: Db, e: Db, day: Day)
    requires LeasesInTable(db) && e.leases == db.leases && |db.rows| <= |e.rows|
    requires forall row :: row in db.leases ==> IsCritical(db, row) == IsCritical(e, row)
    ensures LeasedOfDay(e, day) == LeasedOfDay(db, day)
  {
  }

  // ------------------------------------------------------------ reserve passes

  lemma {:induction false} FewerLeasedOfDay(db: Db, e: Db, day: Day)
    requires LeasedOfDay(e, day) <= LeasedOfDay(db, day)
    ensures |LeasedOfDay(e, day)| <= |LeasedOfDay(db, day)|
  {
    SubsetSize(LeasedOfDay(e, day), LeasedOfDay(db, day));
  }

  /** A pass on the day itself: the budget guard bounds what it adds. */
  lemma {:induction false} ReserveOnDay(w: World, c: Claim, token: string, expires: int, day: Day)
    requires Base(w) && WithinBudget(w, day) && c.now >= w.clock
    requires day.start <= c.now < day.end && expires > c.now
    requires c.dayStart == day.start && c.dayEnd == day.end && c.budget == day.budget
    ensures |DeliveredOfDay(w, day)| + |LeasedOfDay(Reserve(w.db, c, token, expires).db, day)| <= day.budget
  {
    var start := PassStart(w.db, c);
    var e := Reserve(w.db, c, token, expires).db;
    ReserveActions(w.db, c, token, expires);
    ReserveStaysInBudget(w.db, c, token, expires);
    assert DeliveredIn(start, day.start, day.end) == DeliveredIn(e, day.start, day.end);
    assert LeasedOfDay(e, day) == LeasedIn(e, day.start, day.end, c.now);
    assert LeasedOfDay(start, day) == LeasedIn(start, day.start, day.end, c.now);
    FewerLeasedOfDay(w.db, start, day);
    assert DeliveredOfDay(w, day) <= DeliveredIn(e, day.start, day.end);
    SubsetSize(DeliveredOfDay(w, day), DeliveredIn(e, day.start, day.end));
  }

  lemma {:induction false} BudgetAfterReserve(w: World, m: Move, day: Day, cooldown: int)
    requires Base(w) && WithinBudget(w, day) && KeepsBudget(w, m, day)
    requires Allowed(w, m, cooldown) && m.action.Reserving?
    ensures WithinBudget(Advance(w, m), day)
  {
    var c := m.action.claim;
    var x := Advance(w, m);
    ReserveActions(w.db, c, m.action.token, m.action.expires);
    assert x.leasedAt == w.leasedAt && x.db.history == w.db.history;
    assert DeliveredOfDay(x, day) == DeliveredOfDay(w, day);
    if day.start <= m.at < day.end {
      ReserveOnDay(w, c, m.action.token, m.action.expires, day);
    } else {
      FewerLeasedOfDay(w.db, x.db, day);
    }
  }

  // ------------------------------------------------------------ confirmations

  predicate Lands(ids: seq<nat>, rows: set<nat>, offset: nat, k: nat)
  {
    offset <= k < offset + |ids| && ids[k - offset] in rows
  }

  function Indices(ids: seq<nat>, rows: set<nat>, offset: nat): set<nat>
  {
    set k: nat | k < offset + |ids| && Lands(ids, rows, offset, k)
  }

  lemma {:induction false} LandsEarlier(ids: seq<nat>, rows: set<nat>, offset: nat, k: nat)
    requires Distinct(ids) && ids != []
    ensures var n := |ids| - 1;
      Lands(ids, rows, offset, k) <==>
        Lands(ids[..n], rows - {ids[n]}, offset, k) || (k == offset + n && ids[n] in rows)
  {
    var n := |ids| - 1;
    if offset <= k < offset + n {
      assert ids[..n][k - offset] == ids[k - offset] != ids[n];
    }
  }

  lemma {:induction false} IndicesSize(ids: seq<nat>, rows: set<nat>, offset: nat)
    requires Distinct(ids)
    ensures |Indices(ids, rows, offset)| <= |rows|
  {
    if ids == [] {
      assert Indices(ids, rows, offset) == {};
    } else {
      var n := |ids| - 1;
      var fewer := Indices(ids[..n], rows - {ids[n]}, offset);
      IndicesSize(ids[..n], rows - {ids[n]}, offset);
      forall k: nat ensures k in Indices(ids, rows, offset) <==> k in fewer || (k == offset + n && ids[n] in rows) {
        LandsEarlier(ids, rows, offset, k);
      }
      assert Indices(ids, rows, offset) == if ids[n] in rows then fewer + {offset + n} else fewer;
    }
  }

  /** The leased rows of the day among those a confirmation delivers. */
  function Moved(db: Db, ids: seq<nat>, day: Day): set<nat>
  {
    set row | row in LeasedOfDay(db, day) && row in ids
  }

  /** What a delivering confirmation appends: one entry and one lease time for each
      of its distinct leased rows. */
  ghost predicate Appends(w: World, x: World, ids: seq<nat>, at: int)
  {
    && Distinct(ids) && (forall k :: 0 <= k < |ids| ==> ids[k] in w.db.leases && ids[k] < |w.db.rows|)
    && |w.leasedAt| == |w.db.history| && |x.db.history| == |x.leasedAt| == |w.db.history| + |ids|
    && (forall k :: 0 <= k < |w.db.history| ==> x.db.history[k] == w.db.history[k] && x.leasedAt[k] == w.leasedAt[k])
    && (forall k :: 0 <= k < |ids| ==>
          && x.db.history[|w.db.history| + k] == Delivery(ids[k], at, w.db.rows[ids[k]].priority)
          && x.leasedAt[|w.db.history| + k] == w.db.leases[ids[k]].claimedAt)
  }

  /** What it leaves of the leases: none of its rows, the others as they were. */
  ghost predicate Releases(w: World, x: World, ids: seq<nat>)
  {
    forall row :: row in x.db.leases ==>
      && row !in ids && row in w.db.leases && x.db.leases[row] == w.db.leases[row]
      && row < |w.db.rows| && IsCritical(x.db, row) == IsCritical(w.db, row)
  }

  lemma {:induction false} ConfirmAppends(w: World, m: Move)
    requires Base(w) && LeaseTimes(w) && m.action.Confirming? && Delivers(w.db, m.action, m.at)
    ensures Appends(w, Advance(w, m), ConfirmedIds(w.db, m.action.token, m.at), m.at)
  {
    var ids := ConfirmedIds(w.db, m.action.token, m.at);
    var x := Advance(w, m);
    ConfirmIsAtomic(w, m.action.token, m.at);
    ConfirmedIdsFacts(w.db, m.action.token, m.at);
    forall k | 0 <= k < |ids| ensures ids[k] in w.db.leases {
      assert ids[k] in ids;
    }
    assert x.db.history == w.db.history + Deliveries(w.db.rows, ids, m.at);
    assert x.leasedAt == w.leasedAt + NewLeaseTimes(w.db, m.action, m.at);
  }

  lemma {:induction false} ConfirmReleases(w: World, m: Move)
    requires Base(w) && m.action.Confirming? && Delivers(w.db, m.action, m.at)
    ensures Releases(w, Advance(w, m), ConfirmedIds(w.db, m.action.token, m.at))
  {
    ConfirmIsAtomic(w, m.action.token, m.at);
    ConfirmedIdsFacts(w.db, m.action.token, m.at);
    forall row | row in Advance(w, m).db.leases
      ensures row !in ConfirmedIds(w.db, m.action.token, m.at)
    {
      assert row !in Owned(w.db, m.action.token, m.at);
    }
  }

  lemma {:induction false} TimesAfter(w: World, x: World, ids: seq<nat>, at: int)
    requires LeaseTimes(w) && Appends(w, x, ids, at) && Releases(w, x, ids) && x.clock == at >= w.clock
    ensures LeaseTimes(x)
  {
    var h := |w.db.history|;
    forall k | 0 <= k < |x.db.history| ensures x.leasedAt[k] <= x.db.history[k].at <= x.clock {
      if k >= h { assert x.db.history[h + (k - h)] == Delivery(ids[k - h], at, w.db.rows[ids[k - h]].priority); }
    }
  }

  lemma {:induction false} EntryComesFrom(w: World, x: World, ids: seq<nat>, at: int, day: Day, k: nat)
    requires Appends(w, x, ids, at) && k in DeliveredOfDay(x, day)
    ensures k in DeliveredOfDay(w, day) || Lands(ids, Moved(w.db, ids, day), |w.db.history|, k)
  {
    var h := |w.db.history|;
    if k >= h {
      assert x.db.history[h + (k - h)] == Delivery(ids[k - h], at, w.db.rows[ids[k - h]].priority);
      assert x.leasedAt[h + (k - h)] == w.db.leases[ids[k - h]].claimedAt;
      assert ids[k - h] in ids;
    }
  }

  lemma {:induction false} DeliveredGrows(w: World, x: World, ids: seq<nat>, at: int, day: Day)
    requires |w.leasedAt| == |w.db.history| && Appends(w, x, ids, at)
    ensures |DeliveredOfDay(x, day)| <= |DeliveredOfDay(w, day)| + |Moved(w.db, ids, day)|
  {
    var (h, after, before) := (|w.db.history|, DeliveredOfDay(x, day), DeliveredOfDay(w, day));
    var more := Indices(ids, Moved(w.db, ids, day), h);
    IndicesSize(ids, Moved(w.db, ids, day), h);
    forall k | k in after ensures k in before + more {
      EntryComesFrom(w, x, ids, at, day, k);
    }
    SubsetSize(after, before + more);
    UnionSize(before, more);
  }

  lemma {:induction false} UnionSize<T>(a: set<T>, b: set<T>)
    ensures |a + b| <= |a| + |b|
  {
    assert a + b == a + (b - a);
    SubsetSize(b - a, b);
  }

  lemma {:induction false} LeasedShrinks(w: World, x: World, ids: seq<nat>, day: Day)
    requires Releases(w, x, ids)
    ensures |LeasedOfDay(x.db, day)| <= |LeasedOfDay(w.db, day)| - |Moved(w.db, ids, day)|
  {
    var (left, all, moved) := (LeasedOfDay(x.db, day), LeasedOfDay(w.db, day), Moved(w.db, ids, day));
    assert left <= all - moved && moved <= all;
    SubsetSize(left, all - moved);
    assert all == (all - moved) + moved;
  }

  /** A confirmation turns outstanding leases of the day into delivered ones. */
  lemma {:induction false} BudgetAfterConfirm(w: World, m: Move, day: Day)
    requires Base(w) && WithinBudget(w, day) && m.at >= w.clock && m.action.Confirming?
    ensures WithinBudget(Advance(w, m), day)
  {
    var (x, ids) := (Advance(w, m), ConfirmedIds(w.db, m.action.token, m.at));
    if Delivers(w.db, m.action, m.at) {
      ConfirmAppends(w, m);
      ConfirmReleases(w, m);
      TimesAfter(w, x, ids, m.at);
      DeliveredGrows(w, x, ids, m.at, day);
      LeasedShrinks(w, x, ids, day);
    } else {
      ConfirmIsAtomic(w, m.action.token, m.at);
      assert x.leasedAt == w.leasedAt;
      assert DeliveredOfDay(x, day) == DeliveredOfDay(w, day);
    }
  }

  /** The budget theorem: after every allowed run whose passes on the day use its
      window and budget, the day's delivered and outstanding non-critical leases
      together stay within the budget. */
  lemma {:induction false} DayStaysWithinBudget(clock: int, moves: seq<Move>, cooldown: int, day: Day)
    requires AllowedRun(Begin(clock), moves, cooldown)
    requires KeepsBudgetRun(Begin(clock), moves, day)
    ensures WithinBudget(Run(Begin(clock), moves), day)
  {
    if moves == [] {
      assert DeliveredOfDay(Begin(clock), day) == {} && LeasedOfDay(EMPTY, day) == {};
    } else {
      var front := moves[..|moves| - 1];
      var last := moves[|moves| - 1];
      var w := Run(Begin(clock), front);
      forall i | 0 <= i < |front| ensures KeepsBudget(Run(Begin(clock), front[..i]), front[i], day) {
        assert front[..i] == moves[..i];
      }
      DayStaysWithinBudget(clock, front, cooldown, day);
      BaseInEveryRun(clock, front, cooldown);
      BudgetHolds(w, last, day, cooldown);
    }
  }

  lemma {:induction false} BudgetHolds(w: World, m: Move, day: Day, cooldown: int)
    requires Base(w) && WithinBudget(w, day) && KeepsBudget(w, m, day) && Allowed(w, m, cooldown)
    ensures WithinBudget(Advance(w, m), day)
  {
    if m.action.Reserving? {
      BudgetAfterReserve(w, m, day, cooldown);
    } else if m.action.Confirming? {
      BudgetAfterConfirm(w, m, day);
    } else {
      BudgetAfterQuiet(w, m, day);
    }
  }

  // ------------------------------------- what a change of criticality does

  /** Rows leased that day whose criticality a move takes away, or gives. */
  function Demoted(db: Db, e: Db, day: Day): set<nat>
  {
    set row | row in LeasedOfDay(e, day) && IsCritical(db, row)
  }

  function Promoted(db: Db, e: Db, day: Day): set<nat>
  {
    set row | row in LeasedOfDay(db, day) && IsCritical(e, row)
  }

  lemma {:induction false} DisjointSize<T>(a: set<T>, b: set<T>)
    requires a !! b
    ensures |a + b| == |a| + |b|
  {
  }

  lemma {:induction false} LeasedShift(db: Db, e: Db, day: Day)
    requires LeasesInTable(db) && e.leases == db.leases && |db.rows| <= |e.rows|
    ensures |LeasedOfDay(e, day)| == |LeasedOfDay(db, day)| + |Demoted(db, e, day)| - |Promoted(db, e, day)|
  {
    var (down, up) := (Demoted(db, e, day), Promoted(db, e, day));
    var kept := LeasedOfDay(db, day) - up;
    forall row ensures row in LeasedOfDay(db, day) <==> row in kept + up {}
    forall row ensures row in LeasedOfDay(e, day) <==> row in kept + down {}
    assert LeasedOfDay(db, day) == kept + up && LeasedOfDay(e, day) == kept + down;
    DisjointSize(kept, up);
    DisjointSize(kept, down);
  }

  /** The hypothesis on criticality is the exact one: a move that neither leases nor
      confirms shifts the day's count by the leased rows it demotes less those it
      promotes, so it keeps the budget if and only if that sum still fits. */
  lemma {:induction false} RefreshShiftsBudget(w: World, m: Move, day: Day)
    requires Base(w) && LeaseTimes(w) && m.at >= w.clock && !m.action.Reserving? && !m.action.Confirming?
    ensures var x := Advance(w, m);
      var (down, up) := (Demoted(w.db, x.db, day), Promoted(w.db, x.db, day));
      && TakenOnDay(x, day) == TakenOnDay(w, day) + |down| - |up|
      && (WithinBudget(x, day) <==> TakenOnDay(w, day) + |down| - |up| <= day.budget)
  {
    var x := Advance(w, m);
    QuietKeepsTables(w.db, m.action, m.at);
    assert x.leasedAt == w.leasedAt;
    assert DeliveredOfDay(x, day) == DeliveredOfDay(w, day);
    LeasedShift(w.db, x.db, day);
  }
}
