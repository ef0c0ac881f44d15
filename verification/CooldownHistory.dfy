/** The cooldown theorem over the stored history and the moves alone. */
module CooldownHistory {
  import opened Situations
  import opened Leasing
  import opened Protocol
  import opened Confirmations
  import opened Runs
  import S = Spacing

  /** The deliveries of a log, oldest first. */
  function Logged(events: seq<Event>): seq<(nat, int)>
  {
    if events == [] then []
    else
      var e := events[|events| - 1];
      Logged(events[..|events| - 1]) + (if e.DeliveredEvent? then [(e.row, e.at)] else [])
  }

  function Entries(history: seq<Delivery>): seq<(nat, int)>
  {
    seq(|history|, k requires 0 <= k < |history| => (history[k].row, history[k].at))
  }

  lemma {:induction false} LoggedConcat(a: seq<Event>, b: seq<Event>)
    ensures Logged(a + b) == Logged(a) + Logged(b)
  {
    if b == [] {
      assert a + b == a;
    } else {
      LoggedConcat(a, b[..|b| - 1]);
      assert (a + b)[..|a + b| - 1] == a + b[..|b| - 1];
    }
  }

  lemma {:induction false} LoggedDeliveries(ids: seq<nat>, at: int, events: seq<Event>)
    requires |events| == |ids| && forall k :: 0 <= k < |ids| ==> events[k] == DeliveredEvent(ids[k], at)
    ensures Logged(events) == seq(|ids|, k requires 0 <= k < |ids| => (ids[k], at))
  {
    if ids != [] {
      var n := |ids| - 1;
      LoggedDeliveries(ids[..n], at, events[..n]);
    }
  }

  lemma {:induction false} NothingLogged(events: seq<Event>)
    requires forall k :: 0 <= k < |events| ==> !events[k].DeliveredEvent?
    ensures Logged(events) == []
  {
    if events != [] { NothingLogged(events[..|events| - 1]); }
  }

  lemma {:induction false} EntriesGrow(history: seq<Delivery>, rows: seq<Row>, ids: seq<nat>, at: int)
    requires forall k :: 0 <= k < |ids| ==> ids[k] < |rows|
    ensures Entries(history + Deliveries(rows, ids, at)) ==
      Entries(history) + seq(|ids|, k requires 0 <= k < |ids| => (ids[k], at))
  {
  }

  lemma {:induction false} ConfirmLogs(w: World, m: Move)
    requires Base(w) && m.action.Confirming? && Delivers(w.db, m.action, m.at)
    requires Logged(w.events) == Entries(w.db.history)
    ensures Logged(Advance(w, m).events) == Entries(Advance(w, m).db.history)
  {
    var ids := ConfirmedIds(w.db, m.action.token, m.at);
    var more := NewEvents(w.db, m.action, m.at);
    ConfirmIsAtomic(w, m.action.token, m.at);
    LoggedConcat(w.events, more);
    LoggedDeliveries(ids, m.at, more);
    EntriesGrow(w.db.history, w.db.rows, ids, m.at);
  }

  lemma {:induction false} OthersLogNothing(w: World, m: Move, cooldown: int)
    requires Base(w) && Allowed(w, m, cooldown) && !Delivers(w.db, m.action, m.at)
    ensures Logged(Advance(w, m).events) == Logged(w.events)
    ensures Advance(w, m).db.history == w.db.history
  {
    var more := NewEvents(w.db, m.action, m.at);
    NothingLogged(more);
    LoggedConcat(w.events, more);
    if m.action.Confirming? {
      ConfirmIsAtomic(w, m.action.token, m.at);
    } else if m.action.Reserving? {
      ReserveActions(w.db, m.action.claim, m.action.token, m.action.expires);
    } else {
      QuietKeepsTables(w.db, m.action, m.at);
    }
  }

  /** In every run the log holds exactly the deliveries of the history, in their order. */
  lemma {:induction false} LogIsHistory(clock: int, moves: seq<Move>, cooldown: int)
    requires AllowedRun(Begin(clock), moves, cooldown)
    ensures Logged(Run(Begin(clock), moves).events) == Entries(Run(Begin(clock), moves).db.history)
  {
    if moves != [] {
      var (front, m) := (moves[..|moves| - 1], moves[|moves| - 1]);
      var w := Run(Begin(clock), front);
      LogIsHistory(clock, front, cooldown);
      BaseInEveryRun(clock, front, cooldown);
      if Delivers(w.db, m.action, m.at) {
        ConfirmLogs(w, m);
      } else {
        OthersLogNothing(w, m, cooldown);
      }
    }
  }

  /** The place in the log of delivery number `i`. */
  lemma {:induction false} PlaceOf(events: seq<Event>, i: nat) returns (e: nat)
    requires i < |Logged(events)|
    ensures e < |events| && |Logged(events[..e])| == i
    ensures events[e].DeliveredEvent? && (events[e].row, events[e].at) == Logged(events)[i]
  {
    var n := |events| - 1;
    var front := events[..n];
    if i < |Logged(front)| {
      e := PlaceOf(front, i);
      assert front[..e] == events[..e];
    } else {
      e := n;
    }
  }

  lemma {:induction false} LogGrows(events: seq<Event>, a: nat, b: nat)
    requires a < b <= |events|
    ensures |Logged(events[..a])| + (if events[a].DeliveredEvent? then 1 else 0) <= |Logged(events[..b])|
  {
    var step := events[..a + 1];
    assert step[..a] == events[..a] && step + events[a + 1..b] == events[..b];
    LoggedConcat(step, events[a + 1..b]);
  }

  /** The move behind a snooze in the log: made when the log had come that far, on a row
      that was delivered. */
  lemma {:induction false} MoveOf(clock: int, moves: seq<Move>, e: nat) returns (k: nat)
    requires e < |Run(Begin(clock), moves).events| && Run(Begin(clock), moves).events[e].SnoozedEvent?
    ensures k < |moves|
    ensures var w := Run(Begin(clock), moves[..k]);
      var row := Run(Begin(clock), moves).events[e].row;
      && w.events == Run(Begin(clock), moves).events[..e]
      && moves[k].action.Snoozing? && moves[k].action.row == row
      && row < |w.db.rows| && w.db.rows[row].state == Delivered
  {
    var n := |moves| - 1;
    var front := moves[..n];
    var w := Run(Begin(clock), front);
    if e < |w.events| {
      k := MoveOf(clock, front, e);
      assert front[..k] == moves[..k];
      assert Run(Begin(clock), moves).events[..e] == w.events[..e];
    } else {
      k := n;
      assert Run(Begin(clock), moves).events == w.events + NewEvents(w.db, moves[n].action, moves[n].at);
      assert |NewEvents(w.db, moves[n].action, moves[n].at)| == 1;
    }
  }

  lemma {:induction false} SnoozeBetween(
    clock: int, moves: seq<Move>, cooldown: int, a: nat, b: nat, row: nat) returns (e: nat)
    requires AllowedRun(Begin(clock), moves, cooldown)
    requires var events := Run(Begin(clock), moves).events;
      && a < b < |events| && events[a].DeliveredEvent? && events[b].DeliveredEvent?
      && events[a].row == events[b].row == row && events[b].at - events[a].at < cooldown
    ensures a < e < b && Run(Begin(clock), moves).events[e].SnoozedEvent?
    ensures Run(Begin(clock), moves).events[e].row == row
  {
    var events := Run(Begin(clock), moves).events;
    if forall k :: a < k < b ==> !(events[k].SnoozedEvent? && events[k].row == row) {
      S.DeliveriesRespectCooldown(clock, moves, cooldown, a, b, row);
      assert false;
    } else {
      e :| a < e < b && events[e].SnoozedEvent? && events[e].row == row;
    }
  }

  /** Whenever the history of a run holds two entries of one situation less than the
      cooldown apart, the user snoozed that situation, while it was delivered, after the
      first and before the second. */
  lemma {:induction false} CloseEntriesWereSnoozed(
    clock: int, moves: seq<Move>, cooldown: int, i: nat, j: nat) returns (k: nat)
    requires AllowedRun(Begin(clock), moves, cooldown)
    requires var history := Run(Begin(clock), moves).db.history;
      i < j < |history| && history[i].row == history[j].row && history[j].at - history[i].at < cooldown
    ensures k < |moves|
    ensures var w := Run(Begin(clock), moves[..k]);
      var row := Run(Begin(clock), moves).db.history[i].row;
      && i < |w.db.history| <= j
      && moves[k].action.Snoozing? && moves[k].action.row == row
      && row < |w.db.rows| && w.db.rows[row].state == Delivered
  {
    var world := Run(Begin(clock), moves);
    var row := world.db.history[i].row;
    LogIsHistory(clock, moves, cooldown);
    var a := PlaceOf(world.events, i);
    var b := PlaceOf(world.events, j);
    if b <= a { EarlierPlace(world.events, b, a, i, j); }
    var e := SnoozeBetween(clock, moves, cooldown, a, b, row);
    LogGrows(world.events, a, e);
    LogGrows(world.events, e, b);
    k := MoveOf(clock, moves, e);
    PrefixAllowed(Begin(clock), moves, cooldown, k);
    LogIsHistory(clock, moves[..k], cooldown);
  }

  lemma {:induction false} EarlierPlace(events: seq<Event>, b: nat, a: nat, i: nat, j: nat)
    requires b <= a < |events| && |Logged(events[..a])| == i && |Logged(events[..b])| == j
    ensures j <= i
  {
    if b < a { LogGrows(events, b, a); }
  }

  lemma {:induction false} PrefixAllowed(w: World, moves: seq<Move>, cooldown: int, k: nat)
    requires AllowedRun(w, moves, cooldown) && k <= |moves|
    ensures AllowedRun(w, moves[..k], cooldown)
  {
    if k == |moves| {
      assert moves[..k] == moves;
    } else {
      var front := moves[..|moves| - 1];
      PrefixAllowed(w, front, cooldown, k);
      assert front[..k] == moves[..k];
    }
  }
}
