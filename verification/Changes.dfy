/** Two ways in which a change leaves the rest alone. */
module Changes {
  import opened Situations

  /** The finding itself is the same: identity, provenance and content. */
  predicate SameFinding(r: Row, q: Row)
  {
    && q.kind == r.kind && q.key == r.key && q.origin == r.origin && q.generation == r.generation
    && q.priority == r.priority && q.title == r.title && q.whyNow == r.whyNow && q.evidence == r.evidence
    && q.expiresAt == r.expiresAt && q.detectedAt == r.detectedAt
  }

  /** The tables differ in their rows only, and there only at one position. */
  ghost predicate OnlyRow(db: Db, e: Db, row: nat)
  {
    && e == db.(rows := e.rows) && |e.rows| == |db.rows|
    && forall i :: 0 <= i < |db.rows| && i != row ==> e.rows[i] == db.rows[i]
  }
}
