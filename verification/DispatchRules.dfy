/** What one dispatch pass reports and records for each notification. */
module DispatchRules {
  import opened Situations
  import F = Fallbacks
  import R = FallbackRules
  import S = Store

  /** Every record a dispatch adds belongs to a row that was due when it was claimed, under
      the configured policy or, the first only, as a bootstrap. It holds the row's priority
      and ends as sent at the instant of the pass when the host succeeded, or as failed with
      the host's code, and the report says the same. */
  lemma {:induction false} RecordTellsOutcome(
    start: Db, a: F.Attempt, host: nat -> Option<FailureCode>, at: int,
    fallbacks: seq<Fallback>, reports: seq<S.Dispatched>, k: nat)
    requires S.DispatchSoFar(start, a, host, at, fallbacks, reports) && k < |reports|
    ensures |fallbacks| == |start.fallbacks| + |reports| && fallbacks[..|start.fallbacks|] == start.fallbacks
    ensures var (n, f) := (|start.fallbacks|, fallbacks[|start.fallbacks| + k]);
      var tables := start.(fallbacks := fallbacks[..n + k]);
      && (R.Due(tables, a, f.row) || (k == 0 && R.Due(tables, a.(mode := F.BootstrapMode), f.row)))
      && f.row < |start.rows| && f.priority == start.rows[f.row].priority && f.claimedAt == a.claimedAt
      && match host(f.row)
         case None => f.notice == Sent(at) && reports[k] == S.NoticeSent(f.row)
         case Some(code) => f.notice == Failed(code, at) && reports[k] == S.NoticeFailed(f.row, code)
  {
    var n := |start.fallbacks|;
    var made := fallbacks[n..];
    assert S.ClaimedInTurn(start, a, made, k);
    assert start.fallbacks + made[..k] == fallbacks[..n + k];
    var tables := start.(fallbacks := fallbacks[..n + k]);
    R.DueExactly(tables, a, made[k].row);
    R.DueExactly(tables, a.(mode := F.BootstrapMode), made[k].row);
  }
}
