/** What an inbox read accounts for, and what absence from it proves. */
module Coverage {
  import opened Situations
  import opened Truth
  import opened GmailRead
  import C = Confirmations

  ghost predicate DistinctIds(threads: seq<Thread>)
  {
    forall i, j :: 0 <= i < j < |threads| ==> threads[i].id != threads[j].id
  }

  /** No thread that may be read is listed again; repeats past the limit may be. */
  ghost predicate FreshWithin(threads: seq<Thread>, limit: nat)
  {
    forall i, j :: 0 <= i < j < |threads| && i < limit ==> threads[i].id != threads[j].id
  }

  // ---------------------------------------------------------------- accounting

  lemma {:induction false} ReadOutcome(chosen: seq<Thread>, detail: nat -> Detail, p: Projection, k: nat)
    requires Projects(chosen, detail, p) && k < |chosen|
    ensures chosen[k].id in p.safe + p.excluded
  {
    var id := chosen[k].id;
    if k < p.n {
      if IsSafe(detail(k)) {
        assert SafeAt(chosen, detail, k, id);
      } else {
        assert UnsafeAt(chosen, detail, k, id);
      }
    } else {
      var first := IndexOf(chosen, chosen[p.n]);
      assert first <= p.n;
      assert chosen[first..][k - first] == chosen[k];
      assert id in GivenUp(chosen, p.n);
    }
  }

  lemma {:induction false} OnlyListed(chosen: seq<Thread>, detail: nat -> Detail, p: Projection, id: string)
    requires Projects(chosen, detail, p) && id in p.safe + p.excluded
    ensures id in Ids(chosen)
  {
    if id in p.safe {
      var k: nat :| k < p.n && SafeAt(chosen, detail, k, id);
      assert chosen[k] in chosen;
    } else if UnsafeBelow(chosen, detail, p.n, id) {
      var k: nat :| k < p.n && UnsafeAt(chosen, detail, k, id);
      assert chosen[k] in chosen;
    } else {
      var t :| t in chosen[IndexOf(chosen, chosen[p.n])..] && t.id == id;
      assert t in chosen;
    }
  }

  lemma {:induction false} SplitAtLimit(threads: seq<Thread>, limit: nat)
    ensures var chosen := Chosen(threads, limit);
      Ids(threads) == Ids(chosen) + Ids(threads[|chosen|..])
  {
    var chosen := Chosen(threads, limit);
    assert threads == chosen + threads[|chosen|..];
  }

  /** The projection behind a read. */
  lemma {:induction false} ProjectionOf(l: Listed, limit: nat, detail: nat -> Detail, r: Read) returns (p: Projection)
    requires Reads(l, limit, detail, r)
    ensures Projects(Chosen(l.threads, limit), detail, p)
    ensures r.projected == p.projected && r.pages == l.pages && r.requests == 1 + l.pages + p.requests
    ensures r.reasons == ListReasons(l, limit) + p.reasons
    ensures r.safe == p.safe && r.excluded == Ids(l.threads[|Chosen(l.threads, limit)|..]) + p.excluded
  {
    p :| Projects(Chosen(l.threads, limit), detail, p)
      && r.projected == p.projected && r.pages == l.pages && r.requests == 1 + l.pages + p.requests
      && r.reasons == ListReasons(l, limit) + p.reasons
      && r.safe == p.safe && r.excluded == Ids(l.threads[|Chosen(l.threads, limit)|..]) + p.excluded;
  }

  /** Whatever the provider answers and wherever the read stops, the safe and the
      excluded threads together are exactly the listed ones. */
  lemma {:induction false} EveryThreadAccounted(l: Listed, limit: nat, detail: nat -> Detail, r: Read)
    requires Reads(l, limit, detail, r)
    ensures r.safe + r.excluded == Ids(l.threads)
  {
    var chosen := Chosen(l.threads, limit);
    var p := ProjectionOf(l, limit, detail, r);
    SplitAtLimit(l.threads, limit);
    forall id | id in Ids(chosen) ensures id in p.safe + p.excluded {
      var t :| t in chosen && t.id == id;
      var k: nat :| k < |chosen| && chosen[k] == t;
      ReadOutcome(chosen, detail, p, k);
    }
    forall id | id in p.safe + p.excluded ensures id in Ids(chosen) {
      OnlyListed(chosen, detail, p, id);
    }
  }

  lemma {:induction false} SamePosition(threads: seq<Thread>, i: nat, j: nat)
    requires DistinctIds(threads) && i < |threads| && j < |threads| && threads[i].id == threads[j].id
    ensures i == j
  {
  }

  lemma {:induction false} IdsFrom(threads: seq<Thread>, from: nat, id: string)
    requires from <= |threads| && id in Ids(threads[from..])
    ensures exists k: nat :: from <= k < |threads| && threads[k].id == id
  {
    var t :| t in threads[from..] && t.id == id;
    var j :| 0 <= j < |threads[from..]| && threads[from..][j] == t;
    assert threads[from + j] == t;
  }

  /** The position a safe id was read at. */
  lemma {:induction false} SafePosition(chosen: seq<Thread>, detail: nat -> Detail, p: Projection, id: string) returns (k: nat)
    requires Projects(chosen, detail, p) && id in p.safe
    ensures k < p.n <= |chosen| && SafeAt(chosen, detail, k, id)
  {
    assert SafeBelow(chosen, detail, p.n, id);
    k :| k < p.n && SafeAt(chosen, detail, k, id);
  }

  lemma {:induction false} NotUnsafe(chosen: seq<Thread>, detail: nat -> Detail, n: nat, k: nat, id: string)
    requires DistinctIds(chosen) && SafeAt(chosen, detail, k, id)
    ensures !UnsafeBelow(chosen, detail, n, id)
  {
    forall j: nat | j < |chosen| && chosen[j].id == id ensures j == k {
      SamePosition(chosen, j, k);
    }
  }

  lemma {:induction false} NotFrom(threads: seq<Thread>, from: nat, k: nat)
    requires k < from <= |threads|
    requires forall j :: from <= j < |threads| ==> threads[j].id != threads[k].id
    ensures threads[k].id !in Ids(threads[from..])
  {
    if threads[k].id in Ids(threads[from..]) {
      IdsFrom(threads, from, threads[k].id);
    }
  }

  lemma {:induction false} NotGivenUp(chosen: seq<Thread>, n: nat, k: nat)
    requires DistinctIds(chosen) && k < n <= |chosen|
    ensures chosen[k].id !in GivenUp(chosen, n)
  {
    if n < |chosen| {
      var first := IndexOf(chosen, chosen[n]);
      SamePosition(chosen, first, n);
      NotFrom(chosen, n, k);
    }
  }

  lemma {:induction false} ChosenApart(chosen: seq<Thread>, detail: nat -> Detail, p: Projection, id: string)
    requires DistinctIds(chosen) && Projects(chosen, detail, p) && id in p.safe
    ensures id !in p.excluded
  {
    var k := SafePosition(chosen, detail, p, id);
    NotUnsafe(chosen, detail, p.n, k, id);
    NotGivenUp(chosen, p.n, k);
  }

  lemma {:induction false} ChosenDistinct(threads: seq<Thread>, limit: nat)
    requires FreshWithin(threads, limit)
    ensures DistinctIds(Chosen(threads, limit))
  {
  }

  lemma {:induction false} ChosenNotInRest(threads: seq<Thread>, limit: nat, k: nat)
    requires FreshWithin(threads, limit) && k < |Chosen(threads, limit)|
    ensures Chosen(threads, limit)[k].id !in Ids(threads[|Chosen(threads, limit)|..])
  {
    NotFrom(threads, |Chosen(threads, limit)|, k);
  }

  /** Unless a thread within the limit is listed again, none is both safe and
      excluded. */
  lemma {:induction false} SafeAndExcludedApart(l: Listed, limit: nat, detail: nat -> Detail, r: Read, id: string)
    requires Reads(l, limit, detail, r) && FreshWithin(l.threads, limit) && id in r.safe
    ensures id !in r.excluded
  {
    var p := ProjectionOf(l, limit, detail, r);
    ChosenDistinct(l.threads, limit);
    SafeApart(l.threads, limit, detail, p, id);
  }

  lemma {:induction false} SafeApart(threads: seq<Thread>, limit: nat, detail: nat -> Detail, p: Projection, id: string)
    requires FreshWithin(threads, limit) && DistinctIds(Chosen(threads, limit))
    requires Projects(Chosen(threads, limit), detail, p) && id in p.safe
    ensures id !in Ids(threads[|Chosen(threads, limit)|..]) + p.excluded
  {
    var chosen := Chosen(threads, limit);
    ChosenApart(chosen, detail, p, id);
    var k := SafePosition(chosen, detail, p, id);
    ChosenNotInRest(threads, limit, k);
  }

  const SAFE_MESSAGE: Message := Message({"INBOX"}, false, M.Body(Some("hello"), false, false))

  lemma {:induction false} SafeMessageIsSafe()
    ensures IsSafe(Projected(SAFE_MESSAGE))
  {
    assert "INBOX" != "SENT";
  }

  /** The provider answers thread `i` with a safe message and finds none elsewhere. */
  function OnlySafeAt(i: nat): nat -> Detail
  {
    (k: nat) => if k == i then Projected(SAFE_MESSAGE) else NoMessage
  }

  function IdsBut(threads: seq<Thread>, i: nat): set<string>
  {
    set k: nat | k < |threads| && k != i :: threads[k].id
  }

  function SafeAtProjection(chosen: seq<Thread>, i: nat): Projection
    requires i < |chosen|
  {
    var (n, detail) := (|chosen|, OnlySafeAt(i));
    Projection(n, SnapshotCount(detail, n), n, true, DetailReasons(detail, n), {chosen[i].id}, IdsBut(chosen, i))
  }

  lemma {:induction false} SafeAtProjects(chosen: seq<Thread>, i: nat)
    requires i < |chosen|
    ensures Projects(chosen, OnlySafeAt(i), SafeAtProjection(chosen, i))
  {
    var (n, detail) := (|chosen|, OnlySafeAt(i));
    SafeMessageIsSafe();
    forall id ensures id == chosen[i].id <==> SafeBelow(chosen, detail, n, id) {
      if id == chosen[i].id { assert SafeAt(chosen, detail, i, id); }
    }
    forall id ensures id in IdsBut(chosen, i) <==> UnsafeBelow(chosen, detail, n, id) {
      if id in IdsBut(chosen, i) {
        var k: nat :| k < n && k != i && chosen[k].id == id;
        assert UnsafeAt(chosen, detail, k, id);
      }
    }
  }

  function SafeAtRead(l: Listed, limit: nat, i: nat): Read
    requires i < |Chosen(l.threads, limit)|
  {
    var chosen := Chosen(l.threads, limit);
    var p := SafeAtProjection(chosen, i);
    var whole := l.complete && l.skipped == 0 && |l.threads| <= limit;
    Read(p.projected, l.pages, 1 + l.pages + p.requests, whole, whole, ListReasons(l, limit) + p.reasons,
         p.safe, Ids(l.threads[|chosen|..]) + p.excluded)
  }

  lemma {:induction false} SafeAtReads(l: Listed, limit: nat, i: nat)
    requires i < |Chosen(l.threads, limit)|
    ensures Reads(l, limit, OnlySafeAt(i), SafeAtRead(l, limit, i))
  {
    SafeAtProjects(Chosen(l.threads, limit), i);
    assert SafeAtProjection(Chosen(l.threads, limit), i).complete;
  }

  /** A thread within the limit that is listed again is both safe and excluded when
      only its first read finds a message. */
  lemma {:induction false} RepeatIsBoth(l: Listed, limit: nat, i: nat, j: nat)
    requires i < j < |l.threads| && i < limit && l.threads[i].id == l.threads[j].id
    ensures i < |Chosen(l.threads, limit)|
    ensures var r := SafeAtRead(l, limit, i);
      && Reads(l, limit, OnlySafeAt(i), r)
      && l.threads[i].id in r.safe && l.threads[i].id in r.excluded
  {
    var chosen := Chosen(l.threads, limit);
    SafeAtReads(l, limit, i);
    if j >= |chosen| {
      assert l.threads[|chosen|..][j - |chosen|] == l.threads[j];
    } else {
      assert chosen[j].id in IdsBut(chosen, i);
    }
  }

  /** Safe and excluded threads are apart in every read of a listing if and only if no
      thread within the projection limit is listed again. */
  lemma {:induction false} ApartExactlyWhenFresh(l: Listed, limit: nat)
    ensures (forall detail: nat -> Detail, r: Read :: Reads(l, limit, detail, r) ==> r.safe !! r.excluded)
      <==> FreshWithin(l.threads, limit)
  {
    if FreshWithin(l.threads, limit) {
      forall detail: nat -> Detail, r: Read | Reads(l, limit, detail, r) ensures r.safe !! r.excluded {
        forall id | id in r.safe ensures id !in r.excluded {
          SafeAndExcludedApart(l, limit, detail, r, id);
        }
      }
    } else {
      var i: nat, j: nat :| i < j < |l.threads| && i < limit && l.threads[i].id == l.threads[j].id;
      RepeatIsBoth(l, limit, i, j);
      assert !(SafeAtRead(l, limit, i).safe !! SafeAtRead(l, limit, i).excluded);
    }
  }

  // --------------------------------------------------------------- diagnostics

  function CountOne(counts: seq<ReasonCount>, reason: Reason): seq<ReasonCount>
  {
    if counts == [] then [ReasonCount(reason, 1)]
    else if counts[0].reason == reason then [ReasonCount(reason, counts[0].count + 1)] + counts[1..]
    else [counts[0]] + CountOne(counts[1..], reason)
  }

  /** Reasons counted in the order of their first appearance. */
  function Counts(reasons: seq<Reason>): seq<ReasonCount>
  {
    if reasons == [] then [] else CountOne(Counts(reasons[..|reasons| - 1]), reasons[|reasons| - 1])
  }

  function DiagnosticsOf(r: Read): Diagnostics
  {
    Diagnostics(if r.coverageComplete then Healthy else Partial, r.requests, r.pages, r.projected, |r.excluded|,
                BYTE_BUDGET, Counts(r.reasons))
  }

  function Times(reasons: seq<Reason>, reason: Reason): nat
  {
    if reasons == [] then 0
    else Times(reasons[..|reasons| - 1], reason) + (if reasons[|reasons| - 1] == reason then 1 else 0)
  }

  lemma {:induction false} TimesConcat(a: seq<Reason>, b: seq<Reason>, reason: Reason)
    ensures Times(a + b, reason) == Times(a, reason) + Times(b, reason)
  {
    if b == [] {
      assert a + b == a;
    } else {
      TimesConcat(a, b[..|b| - 1], reason);
      assert (a + b)[..|a + b| - 1] == a + b[..|b| - 1];
    }
  }

  ghost predicate OnePerReason(counts: seq<ReasonCount>)
  {
    forall i, j :: 0 <= i < j < |counts| ==> counts[i].reason != counts[j].reason
  }

  /** Each count is positive and exact. */
  ghost predicate Exact(counts: seq<ReasonCount>, reasons: seq<Reason>)
  {
    forall i :: 0 <= i < |counts| ==> counts[i].count == Times(reasons, counts[i].reason) > 0
  }

  predicate Counted(counts: seq<ReasonCount>, reason: Reason)
  {
    exists i :: 0 <= i < |counts| && counts[i].reason == reason
  }

  ghost predicate Bumped(counts: seq<ReasonCount>, after: seq<ReasonCount>, reason: Reason)
  {
    && |after| == |counts| + (if Counted(counts, reason) then 0 else 1)
    && (forall i :: 0 <= i < |counts| ==> after[i].reason == counts[i].reason)
    && (forall i :: 0 <= i < |counts| ==>
          after[i].count == counts[i].count + (if counts[i].reason == reason then 1 else 0))
    && (|after| > |counts| ==> after[|counts|] == ReasonCount(reason, 1))
  }

  lemma {:induction false} TailCounts(counts: seq<ReasonCount>, reason: Reason)
    requires OnePerReason(counts) && counts != [] && counts[0].reason != reason
    ensures OnePerReason(counts[1..])
    ensures Counted(counts, reason) <==> Counted(counts[1..], reason)
  {
    var tail := counts[1..];
    forall i, j | 0 <= i < j < |tail| ensures tail[i].reason != tail[j].reason {
      assert tail[i] == counts[i + 1] && tail[j] == counts[j + 1];
    }
    forall i | 0 <= i < |tail| ensures tail[i] == counts[i + 1] {}
    if i :| 0 <= i < |counts| && counts[i].reason == reason {
      assert tail[i - 1].reason == reason;
    }
  }

  lemma {:induction false} BumpBehind(first: ReasonCount, tail: seq<ReasonCount>, after: seq<ReasonCount>, reason: Reason)
    requires first.reason != reason && Bumped(tail, after, reason)
    requires Counted([first] + tail, reason) <==> Counted(tail, reason)
    ensures Bumped([first] + tail, [first] + after, reason)
  {
    var (whole, bumped) := ([first] + tail, [first] + after);
    forall i | 0 <= i < |whole|
      ensures bumped[i].reason == whole[i].reason
      ensures bumped[i].count == whole[i].count + (if whole[i].reason == reason then 1 else 0)
    {
      if i > 0 { assert whole[i] == tail[i - 1] && bumped[i] == after[i - 1]; }
    }
  }

  lemma {:induction false} BumpFirst(counts: seq<ReasonCount>, reason: Reason)
    requires OnePerReason(counts) && (counts != [] ==> counts[0].reason == reason)
    ensures Bumped(counts, CountOne(counts, reason), reason)
  {
    if counts != [] {
      var after := CountOne(counts, reason);
      assert Counted(counts, reason);
      forall i | 0 < i < |counts| ensures after[i] == counts[i] && counts[i].reason != reason {}
    }
  }

  lemma {:induction false} CountOneBumps(counts: seq<ReasonCount>, reason: Reason)
    requires OnePerReason(counts)
    ensures Bumped(counts, CountOne(counts, reason), reason)
  {
    if counts != [] && counts[0].reason != reason {
      var tail := counts[1..];
      assert counts == [counts[0]] + tail;
      TailCounts(counts, reason);
      CountOneBumps(tail, reason);
      BumpBehind(counts[0], tail, CountOne(tail, reason), reason);
    } else {
      BumpFirst(counts, reason);
    }
  }

  lemma {:induction false} BumpKeepsExact(counts: seq<ReasonCount>, reasons: seq<Reason>, after: seq<ReasonCount>, reason: Reason)
    requires OnePerReason(counts) && Exact(counts, reasons) && Bumped(counts, after, reason)
    requires forall r :: Times(reasons, r) > 0 ==> Counted(counts, r)
    ensures OnePerReason(after) && Exact(after, reasons + [reason])
    ensures forall r :: Times(reasons + [reason], r) > 0 ==> Counted(after, r)
  {
    assert (reasons + [reason])[..|reasons|] == reasons;
    if Times(reasons, reason) == 0 {
      assert !Counted(counts, reason) by {
        forall i | 0 <= i < |counts| ensures counts[i].reason != reason {}
      }
    }
    forall r | Times(reasons + [reason], r) > 0 ensures Counted(after, r) {
      if Times(reasons, r) > 0 {
        var i :| 0 <= i < |counts| && counts[i].reason == r;
        assert after[i].reason == r;
      } else {
        assert r == reason && after[|counts|].reason == r;
      }
    }
  }

  /** The counters tally the reasons exactly. */
  lemma {:induction false} CountsTally(reasons: seq<Reason>)
    ensures OnePerReason(Counts(reasons)) && Exact(Counts(reasons), reasons)
    ensures forall r :: Times(reasons, r) > 0 ==> Counted(Counts(reasons), r)
  {
    if reasons != [] {
      var front := reasons[..|reasons| - 1];
      var last := reasons[|reasons| - 1];
      CountsTally(front);
      CountOneBumps(Counts(front), last);
      BumpKeepsExact(Counts(front), front, Counts(reasons), last);
      assert reasons == front + [last];
    }
  }

  /** Where in a read a reason can arise. */
  datatype Stage = InListing | InDirection | InIdentity | InBody | InDetail | Elsewhere

  function StageOf(reason: Reason): Stage
  {
    match reason
    case PaginationLimit => InListing
    case ListEntrySkipped => InListing
    case ProjectionLimit => InListing
    case DirectionMissing => InDirection
    case DirectionAmbiguous => InDirection
    case IdentityAmbiguous => InIdentity
    case BodySnippetFallback => InBody
    case BodyTruncated => InBody
    case MimeTruncated => InBody
    case ThreadWithoutMessage => InDetail
    case ThreadTooLarge => InDetail
    case SyncBudgetExhausted => InDetail
    case _ => Elsewhere
  }

  ghost predicate AtMostOneOf(reasons: seq<Reason>, stage: Stage)
  {
    reasons == [] || (|reasons| == 1 && StageOf(reasons[0]) == stage)
  }

  lemma {:induction false} TimesOfOne(reasons: seq<Reason>, stage: Stage, reason: Reason)
    requires AtMostOneOf(reasons, stage)
    ensures Times(reasons, reason) <= (if StageOf(reason) == stage then 1 else 0)
  {
    if reasons != [] { assert reasons[..0] == []; }
  }

  /** How often a reason can come from `n` threads. */
  function Cap(reason: Reason, n: nat): nat
  {
    if StageOf(reason) == InListing || StageOf(reason) == Elsewhere then 0 else n
  }

  lemma {:induction false} TimesOfThree(a: seq<Reason>, b: seq<Reason>, c: seq<Reason>, reason: Reason)
    requires AtMostOneOf(a, InDirection) && AtMostOneOf(b, InIdentity) && AtMostOneOf(c, InBody)
    ensures Times(a + b + c, reason) <= Cap(reason, 1)
  {
    TimesOfOne(a, InDirection, reason);
    TimesOfOne(b, InIdentity, reason);
    TimesOfOne(c, InBody, reason);
    TimesConcat(a, b, reason);
    TimesConcat(a + b, c, reason);
  }

  lemma {:induction false} MessageReasons(m: Message)
    ensures AtMostOneOf(DirectionReasons(m.labels), InDirection)
    ensures AtMostOneOf(IdentityReasons(m), InIdentity)
    ensures AtMostOneOf(BodyReasons(m.body), InBody)
  {
  }

  /** A projected thread gives each reason at most once, and none of the listing's. */
  lemma {:induction false} MessageGivesEachOnce(m: Message, reason: Reason)
    ensures Times(ThreadReasons(m), reason) <= Cap(reason, 1)
  {
    MessageReasons(m);
    TimesOfThree(DirectionReasons(m.labels), IdentityReasons(m), BodyReasons(m.body), reason);
  }

  /** One thread never gives the same reason twice, nor one of the listing's. */
  lemma {:induction false} DetailGivesEachOnce(d: Detail, reason: Reason)
    ensures Times(ReasonsOf(d), reason) <= Cap(reason, 1)
  {
    if d.Projected? {
      MessageGivesEachOnce(d.message, reason);
    } else {
      TimesOfOne(ReasonsOf(d), InDetail, reason);
    }
  }

  function TimesInDetails(detail: nat -> Detail, n: nat, reason: Reason): nat
  {
    if n == 0 then 0 else TimesInDetails(detail, n - 1, reason) + Times(ReasonsOf(detail(n - 1)), reason)
  }

  lemma {:induction false} DetailTimes(detail: nat -> Detail, n: nat, reason: Reason)
    ensures Times(DetailReasons(detail, n), reason) == TimesInDetails(detail, n, reason)
  {
    if n > 0 {
      DetailTimes(detail, n - 1, reason);
      TimesConcat(DetailReasons(detail, n - 1), ReasonsOf(detail(n - 1)), reason);
    }
  }

  lemma {:induction false} DetailReasonsBounded(detail: nat -> Detail, n: nat, reason: Reason)
    ensures TimesInDetails(detail, n, reason) <= Cap(reason, n)
  {
    if n > 0 {
      DetailReasonsBounded(detail, n - 1, reason);
      DetailGivesEachOnce(detail(n - 1), reason);
    }
  }

  /** How often a reason can come from the listing. */
  function ListCap(reason: Reason): nat
  {
    if StageOf(reason) == InListing then 3 else 0
  }

  lemma {:induction false} ListReasonsBounded(l: Listed, limit: nat, reason: Reason)
    ensures Times(ListReasons(l, limit), reason) <= ListCap(reason)
  {
    var a := if l.complete then [] else [PaginationLimit];
    var b := if l.skipped > 0 then [ListEntrySkipped] else [];
    var c := if |l.threads| > limit then [ProjectionLimit] else [];
    TimesOfOne(a, InListing, reason);
    TimesOfOne(b, InListing, reason);
    TimesOfOne(c, InListing, reason);
    TimesConcat(a, b, reason);
    TimesConcat(a + b, c, reason);
  }

  lemma {:induction false} CapsTogether(reason: Reason, n: nat)
    requires n <= 200
    ensures ListCap(reason) + Cap(reason, n) <= 200
    ensures reason.OtherText? ==> ListCap(reason) + Cap(reason, n) == 0
  {
  }

  lemma {:induction false} TimesOfBoth(l: Listed, limit: nat, detail: nat -> Detail, n: nat, reason: Reason)
    ensures Times(ListReasons(l, limit) + DetailReasons(detail, n), reason) <= ListCap(reason) + Cap(reason, n)
  {
    TimesConcat(ListReasons(l, limit), DetailReasons(detail, n), reason);
    DetailTimes(detail, n, reason);
    ListReasonsBounded(l, limit, reason);
    DetailReasonsBounded(detail, n, reason);
  }

  lemma {:induction false} ReasonBounded(l: Listed, limit: nat, detail: nat -> Detail, n: nat, reason: Reason)
    requires n <= 200
    ensures var times := Times(ListReasons(l, limit) + DetailReasons(detail, n), reason);
      times <= 200 && (times > 0 ==> !reason.OtherText?)
  {
    TimesOfBoth(l, limit, detail, n, reason);
    CapsTogether(reason, n);
  }

  lemma {:induction false} EntriesBounded(list: nat -> ListReply, n: nat)
    requires forall k: nat :: k < n ==> PageArrives(list, k)
    requires forall k: nat :: k < n ==> PageArrives(list, k) && |list(k).page.entries| <= 100
    ensures |Entries(list, n)| <= 100 * n
  {
    if n > 0 {
      EntriesBounded(list, n - 1);
      assert PageArrives(list, n - 1);
    }
  }

  lemma {:induction false} IdsBounded(threads: seq<Thread>)
    ensures |Ids(threads)| <= |threads|
  {
    if threads == [] {
      assert Ids(threads) == {};
    } else {
      var front := threads[..|threads| - 1];
      IdsBounded(front);
      assert threads == front + [threads[|threads| - 1]];
      assert Ids(threads) == Ids(front) + {threads[|threads| - 1].id};
    }
  }

  lemma {:induction false} ExcludedBounded(list: nat -> ListReply, l: Listed, limit: nat, detail: nat -> Detail, r: Read)
    requires ListedPages(list, l) && Reads(l, limit, detail, r)
    requires forall k: nat :: k < l.pages ==> PageArrives(list, k) && |list(k).page.entries| <= 100
    ensures |r.excluded| <= 2000
  {
    EntriesBounded(list, l.pages);
    EveryThreadAccounted(l, limit, detail, r);
    IdsBounded(l.threads);
    C.SubsetSize(r.excluded, Ids(l.threads));
  }

  lemma {:induction false} CountsPass(l: Listed, limit: nat, detail: nat -> Detail, n: nat, reasons: seq<Reason>)
    requires n <= 200 && reasons == ListReasons(l, limit) + DetailReasons(detail, n)
    ensures OnePerReason(Counts(reasons))
    ensures forall i :: 0 <= i < |Counts(reasons)| ==>
      !Counts(reasons)[i].reason.OtherText? && 0 <= Counts(reasons)[i].count <= 200
  {
    CountsTally(reasons);
    var counts := Counts(reasons);
    forall i | 0 <= i < |counts| ensures !counts[i].reason.OtherText? && 0 <= counts[i].count <= 200 {
      ReasonBounded(l, limit, detail, n, counts[i].reason);
    }
  }

  lemma {:induction false} CountersBounded(l: Listed, limit: nat, detail: nat -> Detail, r: Read)
    requires limit <= 200 && l.pages <= 20 && Reads(l, limit, detail, r)
    ensures r.requests <= 221 && r.pages <= 20 && r.projected <= 200
    ensures exists n: nat :: n <= 200 && r.reasons == ListReasons(l, limit) + DetailReasons(detail, n)
  {
    var p := ProjectionOf(l, limit, detail, r);
    assert p.requests <= |Chosen(l.threads, limit)| <= 200;
    assert r.reasons == ListReasons(l, limit) + DetailReasons(detail, p.requests);
  }

  /** Provided a page holds at most 100 entries and at most 200 threads are
      projected, the diagnostics of every read pass the store's validation. */
  lemma {:induction false} DiagnosticsAlwaysPass(list: nat -> ListReply, l: Listed, limit: nat, detail: nat -> Detail, r: Read)
    requires limit <= 200 && ListedPages(list, l) && Reads(l, limit, detail, r)
    requires forall k: nat :: k < l.pages ==> PageArrives(list, k) && |list(k).page.entries| <= 100
    ensures WithinLimits(DiagnosticsOf(r))
  {
    ExcludedBounded(list, l, limit, detail, r);
    CountersBounded(l, limit, detail, r);
    var n: nat :| n <= 200 && r.reasons == ListReasons(l, limit) + DetailReasons(detail, n);
    CountsPass(l, limit, detail, n, r.reasons);
  }

  // ------------------------------------------------------- what absence proves

  /** The application of a read to the store. */
  function SnapshotOf(r: Read, number: nat, batch: seq<Detection>, cursor: Option<string>, at: int): Snapshot
  {
    Snapshot(Gmail, number, batch, if r.coverageComplete then Complete else Degraded, cursor, None,
             Some(DiagnosticsOf(r)), r.allowsAbsent, r.safe, r.excluded, at)
  }

  lemma {:induction false} CoverageNeedsWholeList(l: Listed, limit: nat, detail: nat -> Detail, r: Read)
    requires Reads(l, limit, detail, r)
    ensures r.coverageComplete ==> r.allowsAbsent
  {
  }

  lemma {:induction false} ScopeCases(n: Snapshot, row: Row, listed: set<string>)
    requires THREAD_FACT in row.evidence.facts
    requires n.scopeIds + n.excludedIds == listed && n.scopeIds !! n.excludedIds
    requires n.status == Complete ==> n.resolveAbsent
    ensures var id := row.evidence.facts[THREAD_FACT];
      InScope(AllowedScope(n), row) <==>
        || id in n.scopeIds
        || (id in n.excludedIds && n.status == Complete)
        || (id !in listed && n.resolveAbsent)
  {
    var id := row.evidence.facts[THREAD_FACT];
    assert id in listed <==> id in n.scopeIds || id in n.excludedIds;
  }

  /** Which absent rows an application may resolve: always those of safely read
      threads; those of excluded threads exactly when the read claims complete
      coverage; those of unlisted threads exactly when the whole list was read. */
  lemma {:induction false} AbsenceIsBelieved(
    l: Listed, limit: nat, detail: nat -> Detail, r: Read,
    number: nat, batch: seq<Detection>, cursor: Option<string>, at: int, row: Row)
    requires Reads(l, limit, detail, r) && FreshWithin(l.threads, limit)
    requires THREAD_FACT in row.evidence.facts
    ensures var id := row.evidence.facts[THREAD_FACT];
      InScope(AllowedScope(SnapshotOf(r, number, batch, cursor, at)), row) <==>
        || id in r.safe
        || (id in r.excluded && r.coverageComplete)
        || (id !in Ids(l.threads) && r.allowsAbsent)
  {
    EveryThreadAccounted(l, limit, detail, r);
    CoverageNeedsWholeList(l, limit, detail, r);
    forall id | id in r.safe ensures id !in r.excluded {
      SafeAndExcludedApart(l, limit, detail, r, id);
    }
    ScopeCases(SnapshotOf(r, number, batch, cursor, at), row, Ids(l.threads));
  }

  /** Complete coverage does not mean that nothing was excluded: a thread without a
      projectable message is excluded, yet the read still counts as complete, and so
      the absence of its situation is believed. */
  lemma {:induction false} CompleteReadCanExclude()
    ensures exists l: Listed, detail: nat -> Detail, r: Read ::
      Reads(l, 200, detail, r) && DistinctIds(l.threads) && r.coverageComplete && r.excluded != {}
  {
    var l := Listed([Thread("a", None)], 1, 0, true);
    var detail: nat -> Detail := (k: nat) => NoMessage;
    var p := Projection(1, 0, 1, true, [ThreadWithoutMessage], {}, {"a"});
    var r := Read(0, 1, 3, true, true, [ThreadWithoutMessage], {}, {"a"});
    assert DetailReasons(detail, 1) == [ThreadWithoutMessage] by { assert DetailReasons(detail, 0) == []; }
    assert UnsafeAt(l.threads, detail, 0, "a");
    assert Projects(l.threads, detail, p);
    assert Chosen(l.threads, 200) == l.threads && Ids(l.threads[1..]) == {};
    assert ListReasons(l, 200) == [];
    assert Reads(l, 200, detail, r);
  }
}
