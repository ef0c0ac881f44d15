/** The situation database: its tables, its rows and the guarded updates of single
    rows. A row id is the position of the row in `rows`, because no statement
    deletes situations and a new row takes the next id. */
module Situations {

  datatype Option<+T> = None | Some(value: T)

  datatype Kind = ReplyDeadline | CalendarConflict | PersonalOccasion
  datatype Priority = Critical | High | Routine
  datatype State = Pending | Delivered | Acknowledged | Snoozed | Muted | Resolved | Expired
  datatype Source = Gmail | Calendar
  datatype Origin = FromSource(source: Source) | Memory | Local
  datatype Completeness = Complete | Degraded

  /** The grounding of a situation; `facts` holds the provider thread id, if any. */
  datatype Evidence = Evidence(facts: map<string, string>, quoted: map<string, string>)

  datatype Row = Row(
    kind: Kind,
    origin: Origin,
    generation: Option<nat>,
    key: string,
    state: State,
    priority: Priority,
    title: string,
    whyNow: string,
    evidence: Evidence,
    expiresAt: Option<int>,
    detectedAt: int,
    updatedAt: int,
    deliveredAt: Option<int>,
    acknowledgedAt: Option<int>,
    snoozedUntil: Option<int>,
    resolvedAt: Option<int>,
    expiredAt: Option<int>,
    mutedAt: Option<int>,
    exempt: bool)

  datatype Delivery = Delivery(row: nat, at: int, priority: Priority)
  datatype Lease = Lease(token: string, claimedAt: int, expiresAt: int)
  datatype Receipt = Receipt(count: nat, at: int)
  datatype Progress = Progress(
    issued: nat, applied: nat, status: Option<Completeness>,
    issuedAt: Option<int>, appliedAt: Option<int>)

  datatype ErrorCode =
    | InvalidGrant | ScopeMismatch | Http4xx | Http5xx | Network
    | ResourceLimit | Timeout | DegradedRead | Unknown
  datatype Authorization = NotConfigured | Configured | NeedsReauth
  datatype SyncState = SyncState(
    authorization: Authorization, lastSuccess: Option<int>, lastAttempt: Option<int>,
    lastError: Option<ErrorCode>, cursor: Option<string>, updatedAt: int)

  datatype Outcome = Healthy | Partial | Stale | AuthError | TransportError
  /** The closed set of read reasons, and any other text. */
  datatype Reason =
    | BodySnippetFallback | BodyTruncated | SourceDegraded | DirectionAmbiguous | DirectionMissing
    | ProviderHttp4xx | ProviderHttp5xx | IdentityAmbiguous | GrantInvalid | MimeTruncated
    | NetworkFailure | NeverSynced | SourceNotConfigured | PaginationLimit | ResourceLimited
    | ScopesMismatch | SourceStale | SyncBudgetExhausted | ListEntrySkipped | ProjectionLimit
    | ThreadTooLarge | ThreadWithoutMessage | RequestTimeout | UnknownReason
    | OtherText(text: string)
  datatype ReasonCount = ReasonCount(reason: Reason, count: int)
  datatype Diagnostics = Diagnostics(
    outcome: Outcome, requests: int, pages: int, projected: int, excluded: int,
    byteBudget: int, reasons: seq<ReasonCount>)

  datatype FailureCode = UnsupportedPlatform | ToolMissing | NonzeroExit | TimedOut | UnknownFailure
  datatype Notice = Claimed | Sent(sentAt: int) | Failed(code: FailureCode, failedAt: int)
  datatype Fallback = Fallback(row: nat, priority: Priority, notice: Notice, claimedAt: int)

  /** All tables of the shared database. A lease is keyed by its situation, which
      the claims table declares UNIQUE; a receipt token stands for its digest. */
  datatype Db = Db(
    rows: seq<Row>,
    history: seq<Delivery>,
    leases: map<nat, Lease>,
    receipts: map<string, Receipt>,
    mutes: map<Kind, int>,
    generations: map<Source, Progress>,
    sync: map<Source, SyncState>,
    diagnostics: Option<Diagnostics>,
    fallbacks: seq<Fallback>)

  const EMPTY: Db := Db([], [], map[], map[], map[], map[], map[], None, [])

  datatype Error =
    | NotFound(row: nat)
    | InvalidTransition(row: nat, state: State)
    | InvalidReceipt
    | KindMismatch(expected: Kind, actual: Kind)
    | DelayedGeneration(applied: nat)
    | UnreservedGeneration
    | InvalidDiagnostics
    | NotClaimed(row: nat)

  datatype Result<+T> = Ok(value: T) | Err(error: Error)

  /** The tables and the result that one transaction leaves behind. */
  datatype Step<+T> = Step(db: Db, result: Result<T>)

  /** An exception inside an immediate transaction rolls every write back. */
  function Atomically<T>(before: Db, step: Step<T>): Step<T>
  {
    if step.result.Err? then Step(before, step.result) else step
  }

  predicate Active(state: State) { state == Pending || state == Delivered }

  predicate HasHistory(history: seq<Delivery>, row: nat)
  {
    exists k :: 0 <= k < |history| && history[k].row == row
  }

  // ---------------------------------------------------------------- single rows

  function DeliverRow(r: Row, at: int): Row
  {
    r.(state := Delivered, deliveredAt := Some(at), updatedAt := at,
       snoozedUntil := None, exempt := false)
  }

  function AcknowledgeRow(r: Row, at: int): Row
  {
    r.(state := Acknowledged, acknowledgedAt := Some(at), updatedAt := at)
  }

  function SnoozeRow(r: Row, until: int, at: int): Row
  {
    r.(state := Snoozed, snoozedUntil := Some(until), exempt := true, updatedAt := at)
  }

  function MuteRow(r: Row, at: int): Row
  {
    r.(state := Muted, mutedAt := Some(at), updatedAt := at)
  }

  function ResolveRow(r: Row, at: int): Row
  {
    r.(state := Resolved, resolvedAt := Some(at), updatedAt := at)
  }

  predicate WakesAt(r: Row, at: int)
  {
    r.state == Snoozed && r.snoozedUntil.Some? && r.snoozedUntil.value <= at
  }

  function WakeRow(r: Row, at: int): Row
  {
    if WakesAt(r, at)
    then r.(state := Pending, snoozedUntil := None, updatedAt := at)
    else r
  }

  predicate LapsesAt(r: Row, at: int)
  {
    Active(r.state) && r.expiresAt.Some? && r.expiresAt.value <= at
  }

  function ExpireRow(r: Row, at: int): Row
  {
    if LapsesAt(r, at)
    then r.(state := Expired, expiredAt := Some(at), updatedAt := at)
    else r
  }

  // ------------------------------------------------------- user transitions

  function GuardDelivered(db: Db, row: nat): (r: Result<Row>)
  {
    if row >= |db.rows| then Err(NotFound(row))
    else if db.rows[row].state != Delivered then Err(InvalidTransition(row, db.rows[row].state))
    else Ok(db.rows[row])
  }

  function Acknowledge(db: Db, row: nat, at: int): Step<Row>
  {
    var found := GuardDelivered(db, row);
    if found.Err? then Step(db, found)
    else
      var r := AcknowledgeRow(found.value, at);
      Step(db.(rows := db.rows[row := r]), Ok(r))
  }

  function Snooze(db: Db, row: nat, until: int, at: int): Step<Row>
  {
    var found := GuardDelivered(db, row);
    if found.Err? then Step(db, found)
    else
      var r := SnoozeRow(found.value, until, at);
      Step(db.(rows := db.rows[row := r]), Ok(r))
  }

  function MuteOne(db: Db, row: nat, at: int): Step<Row>
  {
    var found := GuardDelivered(db, row);
    if found.Err? then Step(db, found)
    else
      var r := MuteRow(found.value, at);
      Step(db.(rows := db.rows[row := r]), Ok(r))
  }

  /** Mutes one delivered row and its whole kind; an earlier kind mute is kept. */
  function MuteKind(db: Db, row: nat, at: int): Step<Row>
  {
    var muted := MuteOne(db, row, at);
    if muted.result.Err? then muted
    else
      var kind := muted.result.value.kind;
      var mutes := if kind in db.mutes then db.mutes else db.mutes[kind := at];
      Step(muted.db.(mutes := mutes), muted.result)
  }

  // --------------------------------------------------- whole-table updates

  function WakeSnoozed(db: Db, at: int): Db
  {
    db.(rows := seq(|db.rows|, i requires 0 <= i < |db.rows| => WakeRow(db.rows[i], at)))
  }

  function ExpireLapsed(db: Db, at: int): Db
  {
    db.(rows := seq(|db.rows|, i requires 0 <= i < |db.rows| => ExpireRow(db.rows[i], at)))
  }
}
