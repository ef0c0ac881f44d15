/** What a delivery and the transitions after it make of a row, field by field. */
module Transitions {
  import opened Situations
  import opened Changes
  import opened Leasing
  import opened Protocol
  import opened Confirmations
  import opened Runs
  import opened Eligibility

  // ----------------------------------------------------------- confirmations

  predicate Holds(db: Db, token: string, at: int, row: nat)
  {
    row in db.leases && db.leases[row].token == token && db.leases[row].expiresAt > at
  }

  /** After a first confirmation each row its receipt held is delivered at that instant,
      no longer snoozed or exempt and otherwise as it was, and no other row changed. */
  lemma {:induction false} ConfirmedRows(w: World, token: string, at: int, row: nat)
    requires Base(w) && token !in w.db.receipts && Confirm(w.db, token, at).result.Ok? && row < |w.db.rows|
    ensures var e := Confirm(w.db, token, at).db; |e.rows| == |w.db.rows|
    ensures Holds(w.db, token, at, row) ==>
      var (r, q) := (w.db.rows[row], Confirm(w.db, token, at).db.rows[row]);
      && r.state == Pending && q.state == Delivered
      && q.deliveredAt == Some(at) && q.updatedAt == at && q.snoozedUntil == None && !q.exempt
      && SameFinding(r, q) && q.acknowledgedAt == r.acknowledgedAt && q.resolvedAt == r.resolvedAt
      && q.expiredAt == r.expiredAt && q.mutedAt == r.mutedAt
    ensures !Holds(w.db, token, at, row) ==> Confirm(w.db, token, at).db.rows[row] == w.db.rows[row]
  {
    ConfirmEffect(w.db, token, at);
    ConfirmedIdsFacts(w.db, token, at);
    assert row in ConfirmedIds(w.db, token, at) <==> Holds(w.db, token, at, row);
  }

  lemma {:induction false} EntryOf(rows: seq<Row>, ids: seq<nat>, at: int, k: nat)
    requires k < |ids| && forall i :: 0 <= i < |ids| ==> ids[i] < |rows|
    ensures var d := Deliveries(rows, ids, at)[k];
      d.row in ids && d.row < |rows| && d.at == at && d.priority == rows[d.row].priority
  {
    assert ids[k] in ids;
  }

  /** Its new history entries are dated and carry the priority of their row. */
  lemma {:induction false} ConfirmedEntries(w: World, token: string, at: int, k: nat)
    requires Base(w) && token !in w.db.receipts && Confirm(w.db, token, at).result.Ok?
    requires |w.db.history| <= k < |Confirm(w.db, token, at).db.history|
    ensures w.db.history <= Confirm(w.db, token, at).db.history
    ensures var d := Confirm(w.db, token, at).db.history[k];
      d.row < |w.db.rows| && Holds(w.db, token, at, d.row) && d.at == at && d.priority == w.db.rows[d.row].priority
  {
    var ids := ConfirmedIds(w.db, token, at);
    ConfirmEffect(w.db, token, at);
    ConfirmedIdsFacts(w.db, token, at);
    EntryOf(w.db.rows, ids, at, k - |w.db.history|);
  }

  /** Of the leases exactly those of other receipts that are still live remain; the
      receipt is recorded at that instant, and the other tables stay as they were. */
  lemma {:induction false} ConfirmedTables(w: World, token: string, at: int)
    requires Base(w) && token !in w.db.receipts && Confirm(w.db, token, at).result.Ok?
    ensures var e := Confirm(w.db, token, at).db;
      && (forall row: nat :: row in e.leases <==>
            row in w.db.leases && w.db.leases[row].token != token && w.db.leases[row].expiresAt > at)
      && (forall row: nat :: row in e.leases ==> e.leases[row] == w.db.leases[row])
      && token in e.receipts && e.receipts[token].at == at
      && (forall t :: t in w.db.receipts ==> t in e.receipts && e.receipts[t] == w.db.receipts[t])
      && e.mutes == w.db.mutes && e.generations == w.db.generations && e.sync == w.db.sync
      && e.diagnostics == w.db.diagnostics && e.fallbacks == w.db.fallbacks
  {
    ConfirmEffect(w.db, token, at);
  }

  // -------------------------------------------------------- user transitions

  /** A user transition takes exactly delivered rows; otherwise it names the missing row
      or the state that forbids it, and changes nothing. */
  ghost predicate TakesDelivered(db: Db, row: nat, step: Step<Row>)
  {
    && (step.result.Ok? <==> row < |db.rows| && db.rows[row].state == Delivered)
    && (row >= |db.rows| ==> step == Step(db, Err(NotFound(row))))
    && (row < |db.rows| && db.rows[row].state != Delivered ==>
          step == Step(db, Err(InvalidTransition(row, db.rows[row].state))))
    && (step.result.Ok? ==> row < |step.db.rows| && step.result.value == step.db.rows[row])
  }

  lemma {:induction false} AcknowledgedRow(db: Db, row: nat, at: int)
    ensures var step := Acknowledge(db, row, at);
      && TakesDelivered(db, row, step)
      && (step.result.Ok? ==>
            var (r, q) := (db.rows[row], step.result.value);
            && q.state == Acknowledged && q.acknowledgedAt == Some(at) && q.updatedAt == at
            && SameFinding(r, q) && q.deliveredAt == r.deliveredAt && q.snoozedUntil == r.snoozedUntil
            && q.resolvedAt == r.resolvedAt && q.expiredAt == r.expiredAt && q.mutedAt == r.mutedAt
            && q.exempt == r.exempt
            && OnlyRow(db, step.db, row))
  {
  }

  lemma {:induction false} SnoozedRow(db: Db, row: nat, until: int, at: int)
    ensures var step := Snooze(db, row, until, at);
      && TakesDelivered(db, row, step)
      && (step.result.Ok? ==>
            var (r, q) := (db.rows[row], step.result.value);
            && q.state == Snoozed && q.snoozedUntil == Some(until) && q.exempt && q.updatedAt == at
            && SameFinding(r, q) && q.deliveredAt == r.deliveredAt && q.acknowledgedAt == r.acknowledgedAt
            && q.resolvedAt == r.resolvedAt && q.expiredAt == r.expiredAt && q.mutedAt == r.mutedAt
            && OnlyRow(db, step.db, row))
  {
  }

  lemma {:induction false} MutedRow(db: Db, row: nat, at: int)
    ensures var step := MuteOne(db, row, at);
      && TakesDelivered(db, row, step)
      && (step.result.Ok? ==>
            var (r, q) := (db.rows[row], step.result.value);
            && q.state == Muted && q.mutedAt == Some(at) && q.updatedAt == at
            && SameFinding(r, q) && q.deliveredAt == r.deliveredAt && q.acknowledgedAt == r.acknowledgedAt
            && q.snoozedUntil == r.snoozedUntil && q.resolvedAt == r.resolvedAt && q.expiredAt == r.expiredAt
            && q.exempt == r.exempt
            && OnlyRow(db, step.db, row))
  {
  }

  /** Muting a kind mutes the row as muting it alone does, and adds its kind to the muted
      ones at this instant unless it was muted before. */
  lemma {:induction false} MutedKind(db: Db, row: nat, at: int)
    ensures var (step, one) := (MuteKind(db, row, at), MuteOne(db, row, at));
      && TakesDelivered(db, row, step) && step.result == one.result
      && (step.result.Ok? ==>
            var kind := db.rows[row].kind;
            && step.db == one.db.(mutes := step.db.mutes)
            && kind in step.db.mutes
            && step.db.mutes[kind] == (if kind in db.mutes then db.mutes[kind] else at)
            && step.db.mutes.Keys == db.mutes.Keys + {kind}
            && forall other :: other in db.mutes ==> step.db.mutes[other] == db.mutes[other])
  {
    MutedRow(db, row, at);
  }

  /** A row is at the user's disposal as soon as it is confirmed. */
  lemma {:induction false} ConfirmedRowTransitions(w: World, token: string, at: int, row: nat, until: int, t: int)
    requires Base(w) && token !in w.db.receipts && Confirm(w.db, token, at).result.Ok?
    requires Holds(w.db, token, at, row)
    ensures var e := Confirm(w.db, token, at).db;
      && Acknowledge(e, row, t).result.Ok? && Acknowledge(e, row, t).result.value.state == Acknowledged
      && Snooze(e, row, until, t).result.Ok? && Snooze(e, row, until, t).result.value.state == Snoozed
      && MuteOne(e, row, t).result.Ok? && MuteOne(e, row, t).result.value.state == Muted
      && MuteKind(e, row, t).result.Ok? && MuteKind(e, row, t).result.value.state == Muted
  {
    var e := Confirm(w.db, token, at).db;
    ConfirmedRows(w, token, at, row);
    AcknowledgedRow(e, row, t);
    SnoozedRow(e, row, until, t);
    MutedRow(e, row, t);
    MutedKind(e, row, t);
  }

  // -------------------------------------------------------- waking and expiry

  /** A snoozed row wakes exactly from the time it was snoozed until, as a pending row
      that keeps its exemption; an earlier sweep leaves it asleep. */
  lemma {:induction false} SnoozedRowWakes(db: Db, row: nat, until: int, at: int, t: int)
    requires row < |db.rows| && db.rows[row].state == Delivered
    ensures var (asleep, e) := (Snooze(db, row, until, at).db, WakeSnoozed(Snooze(db, row, until, at).db, t));
      && |e.rows| == |asleep.rows| == |db.rows|
      && (t < until ==> e.rows[row] == asleep.rows[row] && e.rows[row].state == Snoozed)
      && (until <= t ==>
            var (r, q) := (db.rows[row], e.rows[row]);
            && q.state == Pending && q.snoozedUntil == None && q.exempt && q.updatedAt == t
            && SameFinding(r, q) && q.deliveredAt == r.deliveredAt && q.acknowledgedAt == r.acknowledgedAt
            && q.resolvedAt == r.resolvedAt && q.expiredAt == r.expiredAt && q.mutedAt == r.mutedAt)
  {
    SnoozedRow(db, row, until, at);
  }

  /** Waking changes no other row: those that are not snoozed, have no wake time, or one
      still to come. */
  lemma {:induction false} OthersSleepOn(db: Db, t: int, i: nat)
    requires i < |db.rows|
    requires db.rows[i].state != Snoozed || db.rows[i].snoozedUntil == None || db.rows[i].snoozedUntil.value > t
    ensures WakeSnoozed(db, t) == db.(rows := WakeSnoozed(db, t).rows)
    ensures |WakeSnoozed(db, t).rows| == |db.rows| && WakeSnoozed(db, t).rows[i] == db.rows[i]
  {
  }

  /** Expiry takes exactly the pending and delivered rows whose expiry has come. */
  lemma {:induction false} LapsedRowExpires(db: Db, t: int, i: nat)
    requires i < |db.rows|
    ensures var (r, e) := (db.rows[i], ExpireLapsed(db, t));
      && e == db.(rows := e.rows) && |e.rows| == |db.rows|
      && (if (r.state == Pending || r.state == Delivered) && r.expiresAt.Some? && r.expiresAt.value <= t then
            var q := e.rows[i];
            && q.state == Expired && q.expiredAt == Some(t) && q.updatedAt == t
            && SameFinding(r, q) && q.deliveredAt == r.deliveredAt && q.acknowledgedAt == r.acknowledgedAt
            && q.snoozedUntil == r.snoozedUntil && q.resolvedAt == r.resolvedAt && q.mutedAt == r.mutedAt
            && q.exempt == r.exempt
          else e.rows[i] == r)
  {
  }

  /** A snooze overrides the cooldown: a critical row that was delivered and snoozed, and
      has woken, is leased by the next pass over it however recent its delivery is. */
  lemma {:induction false} SnoozeOverridesCooldown(
    db: Db, row: nat, until: int, at: int, t: int, c: Claim, token: string, expires: int)
    requires c.dayStart <= c.now < c.dayEnd && expires > c.now
    requires row < |db.rows| && db.rows[row].state == Delivered && until <= t
    requires db.rows[row].priority == Critical && db.rows[row].kind !in db.mutes
    requires row in db.leases ==> db.leases[row].expiresAt <= c.now
    requires db.rows[row].kind == ReplyDeadline && Gmail in db.generations ==>
      && db.generations[Gmail].issued == db.generations[Gmail].applied
      && db.generations[Gmail].status == Some(Complete)
    requires db.rows[row].expiresAt == None || db.rows[row].expiresAt.value > c.now
    requires row in DeliveryPage(WakeSnoozed(Snooze(db, row, until, at).db, t).rows)
    ensures row in Reserve(WakeSnoozed(Snooze(db, row, until, at).db, t), c, token, expires).result.value.rows
  {
    var woken := WakeSnoozed(Snooze(db, row, until, at).db, t);
    SnoozedRowWakes(db, row, until, at, t);
    assert Qualifies(woken, c, row);
    QualifiedCriticalIsLeased(woken, c, token, expires, row);
  }
}
