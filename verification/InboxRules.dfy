/** Why a thread counts as safely read, and where a listing stops. */
module InboxRules {
  import opened Situations
  import opened GmailRead
  import C = Coverage
  import T = Truth

  /** Each reason a projected thread gives, by the fact that gives it. */
  lemma ReasonsExactly(m: Message)
    ensures var rs := ThreadReasons(m);
      var (sent, inbox, text) := ("SENT" in m.labels, "INBOX" in m.labels, m.body.text.Some?);
      && (DirectionMissing in rs <==> m.labels == {})
      && (DirectionAmbiguous in rs <==> m.labels != {} && sent == inbox)
      && (IdentityAmbiguous in rs <==> m.ambiguousIdentity)
      && (BodySnippetFallback in rs <==> !text)
      && (BodyTruncated in rs <==> text && m.body.truncated)
      && (MimeTruncated in rs <==> text && !m.body.truncated && m.body.structureTruncated)
      && forall r :: r in rs ==> r in {
           DirectionMissing, DirectionAmbiguous, IdentityAmbiguous, BodySnippetFallback, BodyTruncated, MimeTruncated}
  {
  }

  /** A thread is safe exactly when its latest message went one known way, names its
      people once, and has a whole body. */
  lemma SafeExactly(d: Detail)
    ensures IsSafe(d) <==>
      && d.Projected?
      && ("SENT" in d.message.labels) != ("INBOX" in d.message.labels)
      && !d.message.ambiguousIdentity
      && d.message.body.text.Some? && !d.message.body.truncated && !d.message.body.structureTruncated
  {
  }

  /** A thread without a snapshot gives the one reason for that. */
  lemma MissingThreads()
    ensures ReasonsOf(NoMessage) == [ThreadWithoutMessage]
    ensures ReasonsOf(TooLarge) == [ThreadTooLarge]
    ensures ReasonsOf(BudgetSpent) == [SyncBudgetExhausted]
  {
  }

  /** A listing reads at most twenty pages and is incomplete only when the twentieth
      promises another. */
  lemma ListingStops(list: nat -> ListReply, l: Listed)
    requires ListedPages(list, l)
    ensures 1 <= l.pages <= 20
    ensures l.complete <==> list(l.pages - 1).page.next == None
    ensures !l.complete ==> l.pages == 20
    ensures forall k: nat :: k < l.pages ==> list(k).Listing?
  {
    forall k: nat | k < l.pages ensures list(k).Listing? {
      if k < l.pages - 1 { assert PageArrives(list, k); }
    }
  }

  /** The listing adds a reason of its own exactly when it stopped early, skipped an entry
      or listed more threads than may be read. */
  lemma ListReasonsExactly(l: Listed, limit: nat)
    ensures var rs := ListReasons(l, limit);
      && (PaginationLimit in rs <==> !l.complete)
      && (ListEntrySkipped in rs <==> l.skipped > 0)
      && (ProjectionLimit in rs <==> |l.threads| > limit)
      && forall r :: r in rs ==> r in {PaginationLimit, ListEntrySkipped, ProjectionLimit}
  {
  }

  lemma GivenUpExactly(chosen: seq<Thread>, n: nat, id: string)
    requires n < |chosen|
    ensures id in GivenUp(chosen, n) <==>
      exists j: nat, k: nat :: j <= k < |chosen| && chosen[j] == chosen[n] && chosen[k].id == id
  {
    var first := IndexOf(chosen, chosen[n]);
    if id in GivenUp(chosen, n) {
      var t :| t in chosen[first..] && t.id == id;
      var i :| 0 <= i < |chosen[first..]| && chosen[first..][i] == t;
      assert chosen[first] == chosen[n] && chosen[first + i].id == id;
    }
    if j: nat, k: nat :| j <= k < |chosen| && chosen[j] == chosen[n] && chosen[k].id == id {
      assert first <= j;
      assert chosen[first..][k - first] == chosen[k];
    }
  }

  lemma UnsafeExactly(chosen: seq<Thread>, detail: nat -> Detail, n: nat, id: string)
    ensures UnsafeBelow(chosen, detail, n, id) <==>
      exists k: nat :: k < n && k < |chosen| && chosen[k].id == id && !IsSafe(detail(k))
  {
    if UnsafeBelow(chosen, detail, n, id) {
      var k: nat :| k < n && UnsafeAt(chosen, detail, k, id);
      assert k < n && k < |chosen| && chosen[k].id == id && !IsSafe(detail(k));
    }
    if k: nat :| k < n && k < |chosen| && chosen[k].id == id && !IsSafe(detail(k)) {
      assert UnsafeAt(chosen, detail, k, id);
    }
  }

  /** A thread is excluded exactly when its own read was not safe, or when the byte budget
      ran out and it stands at or after a thread equal to the one then being read. */
  lemma ExcludedExactly(chosen: seq<Thread>, detail: nat -> Detail, p: Projection, id: string)
    requires Projects(chosen, detail, p)
    ensures id in p.excluded <==>
      || (exists k: nat :: k < p.n && k < |chosen| && chosen[k].id == id && !IsSafe(detail(k)))
      || (p.n < |chosen| && exists j: nat, k: nat ::
            j <= k < |chosen| && chosen[j] == chosen[p.n] && chosen[k].id == id)
  {
    UnsafeExactly(chosen, detail, p.n, id);
    if p.n < |chosen| { GivenUpExactly(chosen, p.n, id); }
  }

  lemma CompleteDetails(chosen: seq<Thread>, detail: nat -> Detail, p: Projection)
    requires Projects(chosen, detail, p)
    ensures p.complete <==> forall k: nat :: k < |chosen| ==> !detail(k).BudgetSpent? && !detail(k).TooLarge?
  {
  }

  /** A read counts as complete, and is applied and reported as such, exactly when the
      listing ended, no entry was skipped, every thread could be read within the limit, and
      none of them was too large or came after the byte budget ran out. */
  lemma CompleteExactly(
    l: Listed, limit: nat, detail: nat -> Detail, r: Read,
    number: nat, batch: seq<T.Detection>, cursor: Option<string>, at: int)
    requires Reads(l, limit, detail, r)
    ensures var whole := l.complete && l.skipped == 0 && |l.threads| <= limit
        && forall k: nat :: k < |l.threads| ==> !detail(k).BudgetSpent? && !detail(k).TooLarge?;
      var n := C.SnapshotOf(r, number, batch, cursor, at);
      && (r.coverageComplete <==> whole)
      && (n.status == Complete <==> whole)
      && n.source == Gmail && n.error == None && n.diagnostics.Some?
      && (n.diagnostics.value.outcome == Healthy <==> whole)
      && n.diagnostics.value.excluded == |r.excluded| && n.diagnostics.value.projected == r.projected
  {
    var chosen := Chosen(l.threads, limit);
    var p: Projection :| Projects(chosen, detail, p) && (r.coverageComplete <==> r.allowsAbsent && p.complete);
    CompleteDetails(chosen, detail, p);
  }
}
