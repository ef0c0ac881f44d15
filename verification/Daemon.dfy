/** The single daemon row: who owns it, when a rival may take it over, and what a
    status reader is told. */
module Daemon {
  import opened Situations

  datatype Mode = Once | Continuous
  datatype RunState = UnknownRun | Succeeded | DegradedRun | FailedRun
  datatype Failure = Failure(phase: string, code: string, at: int)

  /** The persisted row; a cadence is a positive number of clock ticks. */
  datatype Heartbeat = Heartbeat(
    running: bool, pid: int, startedAt: int, beatAt: int, cycles: nat,
    owner: string, cadence: Option<int>,
    mode: Option<Mode>, lastRun: RunState, failure: Option<Failure>, completedAt: Option<int>)

  datatype Verdict = Owned | Refused | InvalidCadence
  datatype Liveness = NeverStarted | Running | Late | Stopped
  datatype Wrote = Recorded | NotOwner | NotStarted | InvalidOutcome

  const STALE_CADENCES: int := 3

  predicate ValidCadence(cadence: Option<int>)
  {
    cadence.Some? ==> cadence.value > 0
  }

  predicate OwnedBy(row: Option<Heartbeat>, token: string)
  {
    row.Some? && row.value.running && row.value.owner == token
  }

  /** A zero or missing cadence falls back to the caller's own. */
  function Cadence(h: Heartbeat, fallback: Option<int>): Option<int>
  {
    if h.cadence.Some? && h.cadence.value != 0 then h.cadence else fallback
  }

  predicate Lapsed(h: Heartbeat, at: int, fallback: Option<int>)
  {
    var cadence := Cadence(h, fallback);
    cadence.Some? && at - h.beatAt > STALE_CADENCES * cadence.value
  }

  /** A probe answers whether a process is alive; without one, it counts as alive. */
  predicate SeemsAlive(probe: Option<int -> bool>, pid: int)
  {
    probe.None? || probe.value(pid)
  }

  function Fresh(token: string, pid: int, cadence: Option<int>, at: int): Heartbeat
  {
    Heartbeat(true, pid, at, at, 0, token, cadence, None, UnknownRun, None, None)
  }

  function Replaced(h: Heartbeat, token: string, pid: int, cadence: Option<int>, at: int): Heartbeat
  {
    h.(running := true, pid := pid, startedAt := at, beatAt := at, cycles := 0, owner := token, cadence := cadence)
  }

  datatype Start = Start(token: string, pid: int, cadence: Option<int>, probe: Option<int -> bool>)

  function StartVerdict(row: Option<Heartbeat>, s: Start, at: int): Verdict
  {
    if !ValidCadence(s.cadence) then InvalidCadence
    else if row.None? || OwnedBy(row, s.token) then Owned
    else if row.value.running && !Lapsed(row.value, at, s.cadence) && SeemsAlive(s.probe, row.value.pid)
    then Refused
    else Owned
  }

  function StartRow(row: Option<Heartbeat>, s: Start, at: int): Option<Heartbeat>
  {
    if StartVerdict(row, s, at) != Owned || OwnedBy(row, s.token) then row
    else if row.None? then Some(Fresh(s.token, s.pid, s.cadence, at))
    else Some(Replaced(row.value, s.token, s.pid, s.cadence, at))
  }

  /** The four writes that only the owner of a running row may make. */
  datatype OwnedWrite =
    | Beat
    | Stop
    | RunStarted(mode: Mode)
    | RunEnded(state: RunState, failure: Option<(string, string)>)

  /** A failed run must name its phase and code. */
  predicate ValidWrite(w: OwnedWrite)
  {
    w.RunEnded? && w.state == FailedRun ==> w.failure.Some?
  }

  function WriteRow(h: Heartbeat, w: OwnedWrite, at: int): Heartbeat
  {
    match w
    case Beat => h.(beatAt := at, cycles := h.cycles + 1)
    case Stop => h.(running := false, beatAt := at)
    case RunStarted(mode) => h.(mode := Some(mode))
    case RunEnded(state, failure) =>
      h.(lastRun := state, completedAt := Some(at),
         failure := if state == FailedRun && failure.Some?
                    then Some(Failure(failure.value.0, failure.value.1, at)) else None)
  }

  function OwnedRow(row: Option<Heartbeat>, token: string, w: OwnedWrite, at: int): Option<Heartbeat>
  {
    if ValidWrite(w) && OwnedBy(row, token) then Some(WriteRow(row.value, w, at)) else row
  }

  function OwnedVerdict(row: Option<Heartbeat>, token: string, w: OwnedWrite): Wrote
  {
    if !ValidWrite(w) then InvalidOutcome
    else if OwnedBy(row, token) then Recorded else if row.None? then NotStarted else NotOwner
  }

  function Status(row: Option<Heartbeat>, at: int, staleAfter: Option<int>): Liveness
  {
    if row.None? then NeverStarted
    else if !row.value.running then Stopped
    else
      var limit :=
        if staleAfter.Some? then staleAfter.value
        else if row.value.cadence.Some? then STALE_CADENCES * row.value.cadence.value
        else 0;
      if at - row.value.beatAt <= limit then Running else Late
  }

  // -------------------------------------------------------------- the store

  class DaemonTable {
    var row: Option<Heartbeat>

    constructor ()
      ensures row == None
    {
      row := None;
    }
  }

  /** One daemon instance; instances share the table and differ in their token. */
  class DaemonStatusStore {
    const table: DaemonTable
    const token: string

    constructor (table: DaemonTable, token: string)
      ensures this.table == table && this.token == token
    {
      this.table := table;
      this.token := token;
    }

    method TryRecordStart(pid: int, cadence: Option<int>, probe: Option<int -> bool>, at: int) returns (v: Verdict)
      modifies table
      ensures v == StartVerdict(old(table.row), Start(token, pid, cadence, probe), at)
      ensures table.row == StartRow(old(table.row), Start(token, pid, cadence, probe), at)
    {
      if cadence.Some? && cadence.value <= 0 { return InvalidCadence; }
      if table.row.None? {
        table.row := Some(Fresh(token, pid, cadence, at));
        return Owned;
      }
      var h := table.row.value;
      if h.running && h.owner == token { return Owned; }
      if h.running && !Lapsed(h, at, cadence) && (probe.None? || probe.value(h.pid)) { return Refused; }
      table.row := Some(Replaced(h, token, pid, cadence, at));
      v := Owned;
    }

    method RecordOwned(w: OwnedWrite, at: int) returns (r: Wrote)
      modifies table
      ensures r == OwnedVerdict(old(table.row), token, w)
      ensures table.row == OwnedRow(old(table.row), token, w, at)
    {
      if !ValidWrite(w) { return InvalidOutcome; }
      if table.row.Some? && table.row.value.running && table.row.value.owner == token {
        table.row := Some(WriteRow(table.row.value, w, at));
        return Recorded;
      }
      r := if table.row.None? then NotStarted else NotOwner;
    }
  }

  // ------------------------------------------------------------------- runs

  datatype Act = Starts(start: Start) | Writes(token: string, write: OwnedWrite)
  datatype Move = Move(act: Act, at: int)

  /** What happened to the row: a claim by a token, or an accepted heartbeat. */
  datatype Event = ClaimedBy(token: string) | Beaten(token: string)

  datatype World = World(row: Option<Heartbeat>, events: seq<Event>)

  function Next(row: Option<Heartbeat>, m: Move): Option<Heartbeat>
  {
    match m.act
    case Starts(s) => StartRow(row, s, m.at)
    case Writes(token, w) => OwnedRow(row, token, w, m.at)
  }

  predicate Claims(row: Option<Heartbeat>, m: Move)
  {
    m.act.Starts? && StartVerdict(row, m.act.start, m.at) == Owned && !OwnedBy(row, m.act.start.token)
  }

  function NewEvents(row: Option<Heartbeat>, m: Move): seq<Event>
  {
    if Claims(row, m) then [ClaimedBy(m.act.start.token)]
    else if m.act.Writes? && m.act.write == Beat && OwnedBy(row, m.act.token) then [Beaten(m.act.token)]
    else []
  }

  function Run(moves: seq<Move>): World
  {
    if moves == [] then World(None, [])
    else
      var before := Run(moves[..|moves| - 1]);
      var m := moves[|moves| - 1];
      World(Next(before.row, m), before.events + NewEvents(before.row, m))
  }

  /** The heartbeats accepted since the last claim, and who made it. */
  function BeatsSince(events: seq<Event>): nat
  {
    if events == [] || events[|events| - 1].ClaimedBy? then 0
    else 1 + BeatsSince(events[..|events| - 1])
  }

  function Claimant(events: seq<Event>): Option<string>
  {
    if events == [] then None
    else if events[|events| - 1].ClaimedBy? then Some(events[|events| - 1].token)
    else Claimant(events[..|events| - 1])
  }

  /** The row belongs to the last claimant, counts exactly the heartbeats accepted
      since that claim, and its cadence is positive. */
  ghost predicate Faithful(w: World)
  {
    && (w.row.None? ==> w.events == [])
    && (w.row.Some? ==>
          && Claimant(w.events) == Some(w.row.value.owner)
          && w.row.value.cycles == BeatsSince(w.events)
          && ValidCadence(w.row.value.cadence))
  }

  lemma Appended(events: seq<Event>, e: Event)
    ensures Claimant(events + [e]) == if e.ClaimedBy? then Some(e.token) else Claimant(events)
    ensures BeatsSince(events + [e]) == if e.ClaimedBy? then 0 else 1 + BeatsSince(events)
  {
    assert (events + [e])[..|events|] == events;
  }

  lemma FaithfulStart(before: World, s: Start, at: int)
    requires Faithful(before)
    ensures var m := Move(Starts(s), at);
      Faithful(World(StartRow(before.row, s, at), before.events + NewEvents(before.row, m)))
  {
    var m := Move(Starts(s), at);
    if Claims(before.row, m) {
      Appended(before.events, ClaimedBy(s.token));
    } else {
      assert before.events + NewEvents(before.row, m) == before.events;
    }
  }

  lemma FaithfulWrite(before: World, token: string, w: OwnedWrite, at: int)
    requires Faithful(before)
    ensures var m := Move(Writes(token, w), at);
      Faithful(World(OwnedRow(before.row, token, w, at), before.events + NewEvents(before.row, m)))
  {
    var m := Move(Writes(token, w), at);
    if w == Beat && OwnedBy(before.row, token) {
      Appended(before.events, Beaten(token));
    } else {
      assert before.events + NewEvents(before.row, m) == before.events;
    }
  }

  lemma FaithfulStep(before: World, m: Move)
    requires Faithful(before)
    ensures Faithful(World(Next(before.row, m), before.events + NewEvents(before.row, m)))
  {
    match m.act
    case Starts(s) => FaithfulStart(before, s, m.at);
    case Writes(token, w) => FaithfulWrite(before, token, w, m.at);
  }

  /** Every run keeps the row faithful to what its owner did. */
  lemma {:induction false} FaithfulInEveryRun(moves: seq<Move>)
    ensures Faithful(Run(moves))
  {
    if moves != [] {
      FaithfulInEveryRun(moves[..|moves| - 1]);
      FaithfulStep(Run(moves[..|moves| - 1]), moves[|moves| - 1]);
    }
  }

  /** Ownership moves only by a start, and only from no row, a stopped row, a
      heartbeat older than three cadences, or a process the probe found dead. */
  lemma OwnershipMovesOnlyByClaim(row: Option<Heartbeat>, m: Move, token: string)
    requires OwnedBy(Next(row, m), token) && !OwnedBy(row, token)
    ensures m.act.Starts? && m.act.start.token == token && Claims(row, m)
    ensures row.None? || !row.value.running || Lapsed(row.value, m.at, m.act.start.cadence)
      || (m.act.start.probe.Some? && !m.act.start.probe.value(row.value.pid))
    ensures Next(row, m).value.cycles == 0 && Next(row, m).value.beatAt == m.at
  {
  }

  /** The live part of a run: its owner does not stop, rivals have no probe, and
      every instant falls within three cadences of the last heartbeat. */
  ghost predicate KeptAlive(token: string, row: Option<Heartbeat>, m: Move)
  {
    && row.Some? && row.value.cadence.Some?
    && m.at - row.value.beatAt <= STALE_CADENCES * row.value.cadence.value
    && m.act != Writes(token, Stop)
    && (m.act.Starts? ==> m.act.start.probe.None?)
  }

  lemma KeptAliveStep(token: string, row: Option<Heartbeat>, m: Move)
    requires OwnedBy(row, token) && KeptAlive(token, row, m) && ValidCadence(row.value.cadence)
    ensures var next := Next(row, m);
      && OwnedBy(next, token)
      && next.value.startedAt == row.value.startedAt && next.value.cycles >= row.value.cycles
  {
  }

  /** A rival cannot take a row that its owner keeps alive: over the rest of the run
      the owner, its start time and its cadence stay, and nobody else writes. */
  lemma {:induction false} LiveOwnerKeepsRow(token: string, moves: seq<Move>, n: nat)
    requires n <= |moves| && OwnedBy(Run(moves[..n]).row, token)
    requires forall k :: n <= k < |moves| ==> KeptAlive(token, Run(moves[..k]).row, moves[k])
    ensures OwnedBy(Run(moves).row, token)
    ensures Run(moves).row.value.startedAt == Run(moves[..n]).row.value.startedAt
    ensures Run(moves).row.value.cycles >= Run(moves[..n]).row.value.cycles
  {
    if n == |moves| {
      assert moves[..n] == moves;
    } else {
      var front := moves[..|moves| - 1];
      assert front[..n] == moves[..n];
      forall k | n <= k < |front| ensures KeptAlive(token, Run(front[..k]).row, front[k]) {
        assert front[..k] == moves[..k];
      }
      LiveOwnerKeepsRow(token, front, n);
      FaithfulInEveryRun(front);
      assert KeptAlive(token, Run(moves[..|front|]).row, moves[|front|]);
      KeptAliveStep(token, Run(front).row, moves[|front|]);
      assert Run(moves).row == Next(Run(front).row, moves[|front|]);
    }
  }

  /** A replaced owner is fenced: until it claims again, its writes change nothing. */
  lemma {:induction false} ReplacedOwnerIsFenced(token: string, moves: seq<Move>, n: nat, w: OwnedWrite, at: int)
    requires n <= |moves| && !OwnedBy(Run(moves[..n]).row, token)
    requires forall k :: n <= k < |moves| ==>
      !(Claims(Run(moves[..k]).row, moves[k]) && moves[k].act.start.token == token)
    ensures !OwnedBy(Run(moves).row, token)
    ensures OwnedRow(Run(moves).row, token, w, at) == Run(moves).row
  {
    if n == |moves| {
      assert moves[..n] == moves;
    } else {
      var front := moves[..|moves| - 1];
      assert front[..n] == moves[..n];
      forall k | n <= k < |front|
        ensures !(Claims(Run(front[..k]).row, front[k]) && front[k].act.start.token == token)
      {
        assert front[..k] == moves[..k];
      }
      ReplacedOwnerIsFenced(token, front, n, w, at);
      assert moves[..|moves| - 1] == front;
    }
  }

  /** With a persisted cadence and no probe, a rival's start is refused exactly when
      the default status calls the daemon running. */
  lemma RefusedExactlyWhenRunning(moves: seq<Move>, s: Start, at: int)
    requires var row := Run(moves).row; row.Some? && row.value.cadence.Some? && !OwnedBy(row, s.token)
    requires ValidCadence(s.cadence) && s.probe.None?
    ensures StartVerdict(Run(moves).row, s, at) == Refused <==> Status(Run(moves).row, at, None) == Running
  {
    FaithfulInEveryRun(moves);
  }

  /** Exactly when a refused start and a running status agree, for every running row
      of another owner and every rival without a probe: the row has a cadence, or no
      tick has passed since its heartbeat, or three of the rival's own cadences have. */
  lemma RefusalAgreesWithStatus(h: Heartbeat, s: Start, at: int)
    requires h.running && s.token != h.owner && s.probe.None?
    requires ValidCadence(h.cadence) && ValidCadence(s.cadence)
    ensures (StartVerdict(Some(h), s, at) == Refused <==> Status(Some(h), at, None) == Running) <==>
      (h.cadence.Some? || at <= h.beatAt || (s.cadence.Some? && at - h.beatAt > STALE_CADENCES * s.cadence.value))
  {
  }

  /** Every run can reach a row on which the two disagree: a start without a cadence,
      then a rival one tick later is refused although the status is late. */
  lemma WithoutCadenceTheyDiffer(s: Start, at: int)
    requires ValidCadence(s.cadence) && s.probe.None? && s.token != "first"
    ensures var moves := [Move(Starts(Start("first", 1, None, None)), at)];
      var row := Run(moves).row;
      && StartVerdict(row, s, at + 1) == Refused
      && Status(row, at + 1, None) == Late
  {
    var m := Move(Starts(Start("first", 1, None, None)), at);
    assert [m][..0] == [];
    assert Run([m]).row == StartRow(None, m.act.start, at);
  }
}
