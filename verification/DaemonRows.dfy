/** What starts and writes leave in the daemon row, field by field. */
module DaemonRows {
  import opened Situations
  import opened Daemon

  /** A start is refused exactly for a running row of another owner whose process seems
      alive and whose heartbeat is at most three cadences old, by the row's own cadence or
      else by the rival's; without either it never grows old. */
  lemma RefusedExactly(row: Option<Heartbeat>, s: Start, at: int)
    ensures StartVerdict(row, s, at) == Refused <==>
      && (s.cadence == None || s.cadence.value > 0)
      && row.Some? && row.value.running && row.value.owner != s.token
      && (s.probe == None || s.probe.value(row.value.pid))
      && (var own := row.value.cadence;
          if own.Some? && own.value != 0 then at - row.value.beatAt <= 3 * own.value
          else s.cadence.Some? ==> at - row.value.beatAt <= 3 * s.cadence.value)
    ensures StartVerdict(row, s, at) == InvalidCadence <==> s.cadence.Some? && s.cadence.value <= 0
    ensures StartVerdict(row, s, at) != Owned ==> StartRow(row, s, at) == row
  {
  }

  /** A start that takes the row makes it running under its own token, process, instant
      and cadence with no cycles; what earlier runs reported stays. An owner that starts
      again changes nothing. */
  lemma ClaimedRow(row: Option<Heartbeat>, s: Start, at: int)
    requires StartVerdict(row, s, at) == Owned
    ensures var e := StartRow(row, s, at);
      && e.Some? && e.value.running && e.value.owner == s.token
      && (row.Some? && row.value.running && row.value.owner == s.token ==> e == row)
      && (!(row.Some? && row.value.running && row.value.owner == s.token) ==>
            && e.value.pid == s.pid && e.value.startedAt == at && e.value.beatAt == at
            && e.value.cycles == 0 && e.value.cadence == s.cadence
            && e.value.mode == (if row.Some? then row.value.mode else None)
            && e.value.lastRun == (if row.Some? then row.value.lastRun else UnknownRun)
            && e.value.failure == (if row.Some? then row.value.failure else None)
            && e.value.completedAt == (if row.Some? then row.value.completedAt else None))
  {
  }

  /** The parts of a row that belong to the owner and its process. */
  predicate SameClaim(h: Heartbeat, e: Heartbeat)
  {
    && e.pid == h.pid && e.startedAt == h.startedAt && e.owner == h.owner && e.cadence == h.cadence
  }

  /** The parts of a row that tell of its runs. */
  predicate SameRuns(h: Heartbeat, e: Heartbeat)
  {
    && e.mode == h.mode && e.lastRun == h.lastRun && e.failure == h.failure && e.completedAt == h.completedAt
  }

  /** The owner's stop ends the row at once: readers are told so, the owner's further
      writes are refused, and any rival with a valid cadence may start. */
  lemma StopFreesTheRow(h: Heartbeat, at: int, rival: Start, t: int, stale: Option<int>, w: OwnedWrite)
    requires h.running && (rival.cadence == None || rival.cadence.value > 0)
    ensures var e := OwnedRow(Some(h), h.owner, Stop, at);
      && OwnedVerdict(Some(h), h.owner, Stop) == Recorded
      && e.Some? && !e.value.running && e.value.beatAt == at && e.value.cycles == h.cycles
      && SameClaim(h, e.value) && SameRuns(h, e.value)
      && Status(e, t, stale) == Stopped
      && StartVerdict(e, rival, t) == Owned
      && OwnedRow(e, h.owner, w, t) == e
  {
  }

  /** A heartbeat counts one cycle and is good for three cadences, or for as long as the
      reader allows. */
  lemma BeatRenewsTheRow(h: Heartbeat, at: int, t: int)
    requires h.running
    ensures var e := OwnedRow(Some(h), h.owner, Beat, at);
      && e.Some? && e.value.running && e.value.beatAt == at && e.value.cycles == h.cycles + 1
      && SameClaim(h, e.value) && SameRuns(h, e.value)
      && (h.cadence.Some? ==> (Status(e, t, None) == Running <==> t - at <= 3 * h.cadence.value))
      && (forall stale :: Status(e, t, Some(stale)) == Running <==> t - at <= stale)
  {
  }

  /** The start of a run records its mode and leaves the last outcome; its end records the
      outcome, which names a phase and code exactly when the run failed. */
  lemma RunsAreReported(h: Heartbeat, mode: Mode, state: RunState, failure: Option<(string, string)>, at: int)
    requires h.running
    ensures var e := OwnedRow(Some(h), h.owner, RunStarted(mode), at);
      && e == Some(h.(mode := e.value.mode)) && e.value.mode == Some(mode)
    ensures var (w, e) := (RunEnded(state, failure), OwnedRow(Some(h), h.owner, RunEnded(state, failure), at));
      if state == FailedRun && failure == None then
        e == Some(h) && OwnedVerdict(Some(h), h.owner, w) == InvalidOutcome
      else
        && OwnedVerdict(Some(h), h.owner, w) == Recorded
        && e.Some? && e.value.running && e.value.beatAt == h.beatAt && e.value.cycles == h.cycles
        && SameClaim(h, e.value) && e.value.mode == h.mode
        && e.value.lastRun == state && e.value.completedAt == Some(at)
        && (state == FailedRun ==> e.value.failure == Some(Failure(failure.value.0, failure.value.1, at)))
        && (state != FailedRun ==> e.value.failure == None)
  {
  }

  /** Whoever does not own a running row writes nothing, and is told whether there is one. */
  lemma OthersWriteNothing(row: Option<Heartbeat>, token: string, w: OwnedWrite, at: int)
    requires row == None || !row.value.running || row.value.owner != token
    ensures OwnedRow(row, token, w, at) == row
    ensures !(w.RunEnded? && w.state == FailedRun && w.failure == None) ==>
      OwnedVerdict(row, token, w) == if row == None then NotStarted else NotOwner
  {
  }

  /** After any run in which a token owns the row, its stop lets a rival claim it. */
  lemma RivalClaimsAfterStop(moves: seq<Move>, token: string, at: int, rival: Start, t: int)
    requires var row := Run(moves).row; row.Some? && row.value.running && row.value.owner == token
    requires rival.cadence == None || rival.cadence.value > 0
    ensures var e := Run(moves + [Move(Writes(token, Stop), at), Move(Starts(rival), t)]).row;
      e.Some? && e.value.running && e.value.owner == rival.token && e.value.startedAt == t && e.value.cycles == 0
  {
    var (stop, start) := (Move(Writes(token, Stop), at), Move(Starts(rival), t));
    assert moves + [stop, start] == moves + [stop] + [start];
    assert (moves + [stop] + [start])[..|moves| + 1] == moves + [stop];
    assert (moves + [stop])[..|moves|] == moves;
    StopFreesTheRow(Run(moves).row.value, at, rival, t, None, Beat);
    ClaimedRow(Run(moves + [stop]).row, rival, t);
  }
}
