/** One-shot OS notification fallbacks: which waiting situation is claimed next and
    how a claim is completed. */
module Fallbacks {
  import opened Situations
  import Sorting

  datatype Mode = ConfiguredMode | BootstrapMode

  datatype Attempt = Attempt(claimedAt: int, detectedBefore: int, priorities: set<Priority>, mode: Mode)

  predicate HasFallback(fallbacks: seq<Fallback>, row: nat)
  {
    exists k :: 0 <= k < |fallbacks| && fallbacks[k].row == row
  }

  predicate Waiting(db: Db, a: Attempt, row: nat)
  {
    && row < |db.rows|
    && db.rows[row].state == Pending
    && db.rows[row].detectedAt <= a.detectedBefore
    && (db.rows[row].expiresAt.Some? ==> db.rows[row].expiresAt.value > a.claimedAt)
    && db.rows[row].kind !in db.mutes
    && !HasHistory(db.history, row)
    && !(row in db.leases && db.leases[row].expiresAt > a.claimedAt)
    && !HasFallback(db.fallbacks, row)
  }

  predicate MayClaim(db: Db, a: Attempt, row: nat)
  {
    && Waiting(db, a, row)
    && (a.mode == ConfiguredMode ==> db.rows[row].priority in a.priorities)
    && (a.mode == BootstrapMode ==> db.history == [] && db.fallbacks == [])
  }

  function Urgency(p: Priority): nat
  {
    match p
    case Critical => 0
    case High => 1
    case Routine => 2
  }

  predicate Older(rows: seq<Row>, mode: Mode, a: nat, b: nat)
  {
    if a >= |rows| || b >= |rows| then (a >= |rows| ==> b >= |rows| && a <= b)
    else if mode == ConfiguredMode && Urgency(rows[a].priority) != Urgency(rows[b].priority)
    then Urgency(rows[a].priority) < Urgency(rows[b].priority)
    else if rows[a].detectedAt != rows[b].detectedAt then rows[a].detectedAt < rows[b].detectedAt
    else a <= b
  }

  function ClaimOrder(rows: seq<Row>, mode: Mode): (nat, nat) -> bool
  {
    (a: nat, b: nat) => Older(rows, mode, a, b)
  }

  function ClaimableIds(db: Db, a: Attempt, n: nat): seq<nat>
  {
    if n == 0 then []
    else ClaimableIds(db, a, n - 1) + (if MayClaim(db, a, n - 1) then [n - 1] else [])
  }

  function Candidates(db: Db, a: Attempt): seq<nat>
  {
    Sorting.Sort(ClaimOrder(db.rows, a.mode), ClaimableIds(db, a, |db.rows|))
  }

  function AddClaim(db: Db, row: nat, at: int): Db
    requires row < |db.rows|
  {
    db.(fallbacks := db.fallbacks + [Fallback(row, db.rows[row].priority, Claimed, at)])
  }

  /** The first candidate whose guarded INSERT succeeds. */
  function FirstClaim(db: Db, a: Attempt, ids: seq<nat>): Step<Option<nat>>
  {
    if ids == [] then Step(db, Ok(None))
    else if MayClaim(db, a, ids[0]) then Step(AddClaim(db, ids[0], a.claimedAt), Ok(Some(ids[0])))
    else FirstClaim(db, a, ids[1..])
  }

  function ClaimNext(db: Db, a: Attempt): Step<Option<nat>>
  {
    FirstClaim(db, a, Candidates(db, a))
  }

  function FindOpen(fallbacks: seq<Fallback>, row: nat): (found: Option<nat>)
    ensures found.Some? ==> found.value < |fallbacks|
    ensures found.Some? ==> fallbacks[found.value].row == row && fallbacks[found.value].notice == Claimed
    ensures found.None? ==>
      forall k :: 0 <= k < |fallbacks| ==> fallbacks[k].row != row || fallbacks[k].notice != Claimed
  {
    if fallbacks == [] then None
    else
      var last := fallbacks[|fallbacks| - 1];
      if last.row == row && last.notice == Claimed then Some(|fallbacks| - 1)
      else FindOpen(fallbacks[..|fallbacks| - 1], row)
  }

  function RecordOutcome(db: Db, row: nat, notice: Notice): Step<()>
  {
    var open := FindOpen(db.fallbacks, row);
    if open.None? then Step(db, Err(NotClaimed(row)))
    else
      var closed := db.fallbacks[open.value].(notice := notice);
      Step(db.(fallbacks := db.fallbacks[open.value := closed]), Ok(()))
  }

  // ---------------------------------------------------------------- the order

  lemma {:induction false} ClaimableFacts(db: Db, a: Attempt, n: nat)
    ensures forall id: nat :: id in ClaimableIds(db, a, n) <==> id < n && MayClaim(db, a, id)
  {
    if n > 0 { ClaimableFacts(db, a, n - 1); }
  }

  lemma OrderIsTotal(rows: seq<Row>, mode: Mode)
    ensures Sorting.TotalOrder(ClaimOrder(rows, mode))
  {
  }

  lemma CandidatesFacts(db: Db, a: Attempt)
    ensures Sorting.SortedBy(ClaimOrder(db.rows, a.mode), Candidates(db, a))
    ensures forall id: nat :: id in Candidates(db, a) <==> MayClaim(db, a, id)
  {
    var le := ClaimOrder(db.rows, a.mode);
    var ids := ClaimableIds(db, a, |db.rows|);
    ClaimableFacts(db, a, |db.rows|);
    OrderIsTotal(db.rows, a.mode);
    Sorting.SortPermutes(le, ids);
    Sorting.SortSorts(le, ids);
    Sorting.SameElements(Candidates(db, a), ids);
  }

  /** The claim takes the first claimable row of the policy order, and finds
      nothing exactly when no row is claimable. */
  lemma ClaimTakesFirst(db: Db, a: Attempt)
    ensures var step := ClaimNext(db, a);
      match step.result
      case Ok(None) => step.db == db && forall row: nat :: !MayClaim(db, a, row)
      case Ok(Some(row)) =>
        && MayClaim(db, a, row)
        && (forall other: nat :: MayClaim(db, a, other) ==> Older(db.rows, a.mode, row, other))
        && step.db == AddClaim(db, row, a.claimedAt)
      case Err(_) => false
  {
    var ids := Candidates(db, a);
    CandidatesFacts(db, a);
    if ids == [] {
      forall row: nat ensures !MayClaim(db, a, row) {
        assert row !in ids;
      }
    } else {
      assert ids[0] in ids;
      forall other: nat | MayClaim(db, a, other) ensures Older(db.rows, a.mode, ids[0], other) {
        assert other in ids;
        OrderIsTotal(db.rows, a.mode);
        Sorting.HeadIsLeast(ClaimOrder(db.rows, a.mode), ids, other);
      }
    }
  }
}
