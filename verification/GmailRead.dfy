/** The bounded inbox read: paging, projection, and the bookkeeping of threads that
    were read safely and threads whose absence proves nothing. */
module GmailRead {
  import opened Situations
  import M = Mime

  const MAX_PAGES: nat := 20

  datatype Thread = Thread(id: string, cursor: Option<string>)
  datatype Page = Page(entries: seq<Option<Thread>>, next: Option<string>)

  /** The provider's answer to a list request; a failed request raises. */
  datatype ListReply = Listing(page: Page) | ListFailed

  /** The facts of a thread's latest message that its projection depends on. */
  datatype Message = Message(labels: set<string>, ambiguousIdentity: bool, body: M.Body)

  /** The provider's answer to one thread request. */
  datatype Detail =
    | Projected(message: Message)
    | NoMessage
    | TooLarge
    | BudgetSpent
    | DetailFailed

  datatype Listed = Listed(threads: seq<Thread>, pages: nat, skipped: nat, complete: bool)

  datatype Read = Read(
    projected: nat, pages: nat, requests: nat, coverageComplete: bool, allowsAbsent: bool,
    reasons: seq<Reason>, safe: set<string>, excluded: set<string>)

  // ------------------------------------------------------------------ listing

  predicate PageArrives(list: nat -> ListReply, k: nat)
  {
    list(k).Listing?
  }

  function NextToken(list: nat -> ListReply, k: nat): Option<string>
    requires PageArrives(list, k)
  {
    list(k).page.next
  }

  /** The first `n` pages arrived, and each of them promised another page under a
      token not promised before. */
  ghost predicate Continues(list: nat -> ListReply, n: nat)
  {
    && (forall k: nat :: k < n ==> PageArrives(list, k) && NextToken(list, k).Some?)
    && (forall i: nat, k: nat :: i < k < n ==> NextToken(list, i) != NextToken(list, k))
  }

  function Named(entries: seq<Option<Thread>>): seq<Thread>
  {
    if entries == [] then []
    else
      var last := entries[|entries| - 1];
      Named(entries[..|entries| - 1]) + (if last.Some? then [last.value] else [])
  }

  function Entries(list: nat -> ListReply, n: nat): seq<Option<Thread>>
    requires forall k: nat :: k < n ==> PageArrives(list, k)
  {
    if n == 0 then []
    else
      assert PageArrives(list, n - 1);
      Entries(list, n - 1) + list(n - 1).page.entries
  }

  lemma {:induction false} NamedConcat(a: seq<Option<Thread>>, b: seq<Option<Thread>>)
    ensures Named(a + b) == Named(a) + Named(b)
  {
    if b == [] {
      assert a + b == a;
    } else {
      NamedConcat(a, b[..|b| - 1]);
      assert (a + b)[..|a + b| - 1] == a + b[..|b| - 1];
    }
  }

  /** Sorts the entries of one page into threads and skipped rows. */
  method TakeEntries(entries: seq<Option<Thread>>) returns (threads: seq<Thread>, skipped: nat)
    ensures threads == Named(entries) && |threads| + skipped == |entries|
  {
    threads, skipped := [], 0;
    for i := 0 to |entries|
      invariant threads == Named(entries[..i]) && |threads| + skipped == i
    {
      assert entries[..i + 1][..i] == entries[..i];
      if entries[i].None? {
        skipped := skipped + 1;
      } else {
        threads := threads + [entries[i].value];
      }
    }
    assert entries[..|entries|] == entries;
  }

  lemma NextEntries(list: nat -> ListReply, n: nat)
    requires forall k: nat :: k < n + 1 ==> PageArrives(list, k)
    ensures PageArrives(list, n)
    ensures Named(Entries(list, n + 1)) == Named(Entries(list, n)) + Named(list(n).page.entries)
    ensures |Entries(list, n + 1)| == |Entries(list, n)| + |list(n).page.entries|
  {
    assert PageArrives(list, n);
    NamedConcat(Entries(list, n), list(n).page.entries);
  }

  ghost predicate RepeatsToken(list: nat -> ListReply, n: nat)
  {
    && PageArrives(list, n) && NextToken(list, n).Some?
    && exists k: nat :: k < n && PageArrives(list, k) && NextToken(list, k) == NextToken(list, n)
  }

  ghost predicate TokensOf(list: nat -> ListReply, n: nat, tokens: set<string>)
  {
    && (forall k: nat :: k < n ==> PageArrives(list, k))
    && (forall t :: t in tokens <==> exists k: nat :: k < n && NextToken(list, k) == Some(t))
  }

  lemma NewToken(list: nat -> ListReply, n: nat, tokens: set<string>, token: string)
    requires Continues(list, n) && TokensOf(list, n, tokens)
    requires PageArrives(list, n) && NextToken(list, n) == Some(token)
    ensures token in tokens ==> RepeatsToken(list, n)
    ensures token !in tokens ==> Continues(list, n + 1) && TokensOf(list, n + 1, tokens + {token})
  {
    if token in tokens {
      var k: nat :| k < n && NextToken(list, k) == Some(token);
      assert PageArrives(list, k);
    } else {
      forall i: nat | i < n ensures NextToken(list, i) != NextToken(list, n) {}
      forall t ensures t in tokens + {token} <==> exists k: nat :: k < n + 1 && NextToken(list, k) == Some(t) {
        if t == token { assert NextToken(list, n) == Some(t); }
      }
    }
  }

  /** A list read that ended after `n` pages. */
  ghost predicate ListedPages(list: nat -> ListReply, l: Listed)
  {
    && 1 <= l.pages <= MAX_PAGES && Continues(list, l.pages - 1) && PageArrives(list, l.pages - 1)
    && (l.complete <==> NextToken(list, l.pages - 1).None?)
    && (!l.complete ==> l.pages == MAX_PAGES && Continues(list, l.pages))
    && l.threads == Named(Entries(list, l.pages))
    && |l.threads| + l.skipped == |Entries(list, l.pages)|
  }

  ghost predicate ListingBreaks(list: nat -> ListReply, n: nat)
  {
    n < MAX_PAGES && Continues(list, n) && (!PageArrives(list, n) || RepeatsToken(list, n))
  }

  /** The listing after `n` pages, none of them the last. */
  ghost predicate ListingSoFar(list: nat -> ListReply, n: nat, tokens: set<string>, threads: seq<Thread>, skipped: nat)
  {
    && Continues(list, n) && TokensOf(list, n, tokens)
    && threads == Named(Entries(list, n)) && |threads| + skipped == |Entries(list, n)|
  }

  /** One more page ends the listing, repeats a token, or continues it. */
  lemma PageTaken(
    list: nat -> ListReply, n: nat, tokens: set<string>, threads: seq<Thread>, skipped: nat,
    named: seq<Thread>, unnamed: nat)
    requires ListingSoFar(list, n, tokens, threads, skipped) && n < MAX_PAGES && PageArrives(list, n)
    requires named == Named(list(n).page.entries) && |named| + unnamed == |list(n).page.entries|
    ensures var next := NextToken(list, n);
      && (next.None? ==> ListedPages(list, Listed(threads + named, n + 1, skipped + unnamed, true)))
      && (next.Some? && next.value in tokens ==> ListingBreaks(list, n))
      && (next.Some? && next.value !in tokens ==>
            ListingSoFar(list, n + 1, tokens + {next.value}, threads + named, skipped + unnamed))
  {
    NextEntries(list, n);
    if NextToken(list, n).Some? { NewToken(list, n, tokens, NextToken(list, n).value); }
  }

  /** Follows the pages to the last one or to the limit. It fails exactly when a
      request fails or a page token comes back, which would page in circles. */
  method ListThreads(list: nat -> ListReply) returns (r: Option<Listed>)
    ensures r.Some? ==> ListedPages(list, r.value)
    ensures r.None? ==> exists n: nat :: ListingBreaks(list, n)
  {
    var threads: seq<Thread> := [];
    var skipped: nat, pages: nat := 0, 0;
    var tokens: set<string> := {};
    while pages < MAX_PAGES
      invariant pages <= MAX_PAGES && ListingSoFar(list, pages, tokens, threads, skipped)
    {
      if list(pages).ListFailed? {
        assert ListingBreaks(list, pages);
        return None;
      }
      assert PageArrives(list, pages);
      var page := list(pages).page;
      var named, unnamed := TakeEntries(page.entries);
      PageTaken(list, pages, tokens, threads, skipped, named, unnamed);
      threads, skipped, pages := threads + named, skipped + unnamed, pages + 1;
      if page.next.None? {
        return Some(Listed(threads, pages, skipped, true));
      }
      if page.next.value in tokens {
        return None;
      }
      tokens := tokens + {page.next.value};
    }
    r := Some(Listed(threads, pages, skipped, false));
  }

  /** The two outcomes exclude each other, so the method decides which one holds. */
  lemma ListingEndsOrBreaks(list: nat -> ListReply, l: Listed, n: nat)
    requires ListedPages(list, l)
    ensures !ListingBreaks(list, n)
  {
  }

  // --------------------------------------------------------------- projection

  function DirectionReasons(labels: set<string>): seq<Reason>
  {
    if labels == {} then [DirectionMissing]
    else if ("SENT" in labels) == ("INBOX" in labels) then [DirectionAmbiguous]
    else []
  }

  function IdentityReasons(m: Message): seq<Reason>
  {
    if m.ambiguousIdentity then [IdentityAmbiguous] else []
  }

  function BodyReasons(body: M.Body): seq<Reason>
  {
    if body.text.None? then [BodySnippetFallback]
    else if body.truncated then [BodyTruncated]
    else if body.structureTruncated then [MimeTruncated]
    else []
  }

  /** Why a projected thread is degraded; without a reason it is resolution-safe. */
  function ThreadReasons(m: Message): seq<Reason>
  {
    DirectionReasons(m.labels)
    + IdentityReasons(m)
    + BodyReasons(m.body)
  }

  predicate IsSafe(d: Detail)
  {
    d.Projected? && ThreadReasons(d.message) == []
  }

  /** The position of the first thread equal to one that is present. */
  function IndexOf(threads: seq<Thread>, t: Thread): (k: nat)
    requires t in threads
    ensures k < |threads| && threads[k] == t && forall j :: 0 <= j < k ==> threads[j] != t
  {
    if threads[0] == t then 0 else 1 + IndexOf(threads[1..], t)
  }

  function Ids(threads: seq<Thread>): set<string>
  {
    set t | t in threads :: t.id
  }

  /** The detail reads end before thread `n`: by the end of the list or because the
      byte budget of the whole read is spent there. */
  ghost predicate EndsAt(threads: seq<Thread>, detail: nat -> Detail, n: nat)
  {
    && n <= |threads|
    && (forall k: nat :: k < n ==> !detail(k).BudgetSpent? && !detail(k).DetailFailed?)
    && (n < |threads| ==> detail(n).BudgetSpent?)
  }

  // ---------------------------------------------------------- detail reasons

  function ReasonsOf(d: Detail): seq<Reason>
  {
    match d
    case Projected(m) => ThreadReasons(m)
    case NoMessage => [ThreadWithoutMessage]
    case TooLarge => [ThreadTooLarge]
    case BudgetSpent => [SyncBudgetExhausted]
    case DetailFailed => []
  }

  function DetailReasons(detail: nat -> Detail, n: nat): seq<Reason>
  {
    if n == 0 then [] else DetailReasons(detail, n - 1) + ReasonsOf(detail(n - 1))
  }

  /** How many of the first `n` threads gave a snapshot. */
  function SnapshotCount(detail: nat -> Detail, n: nat): (count: nat)
    ensures count <= n
  {
    if n == 0 then 0 else SnapshotCount(detail, n - 1) + (if detail(n - 1).Projected? then 1 else 0)
  }

  /** What the detail reads made of the chosen threads when they ended at `n`. */
  datatype Projection = Projection(
    n: nat, projected: nat, requests: nat, complete: bool,
    reasons: seq<Reason>, safe: set<string>, excluded: set<string>)

  predicate UnsafeAt(chosen: seq<Thread>, detail: nat -> Detail, k: nat, id: string)
  {
    k < |chosen| && chosen[k].id == id && !IsSafe(detail(k))
  }

  predicate SafeAt(chosen: seq<Thread>, detail: nat -> Detail, k: nat, id: string)
  {
    k < |chosen| && chosen[k].id == id && IsSafe(detail(k))
  }

  /** The threads given up when the budget is spent at `n`: from the first one equal
      to the thread being read. */
  function GivenUp(chosen: seq<Thread>, n: nat): set<string>
  {
    if n < |chosen| then Ids(chosen[IndexOf(chosen, chosen[n])..]) else {}
  }

  ghost predicate SafeBelow(chosen: seq<Thread>, detail: nat -> Detail, n: nat, id: string)
  {
    exists k: nat :: k < n && SafeAt(chosen, detail, k, id)
  }

  ghost predicate UnsafeBelow(chosen: seq<Thread>, detail: nat -> Detail, n: nat, id: string)
  {
    exists k: nat :: k < n && UnsafeAt(chosen, detail, k, id)
  }

  ghost predicate Bookkeeping(chosen: seq<Thread>, detail: nat -> Detail, n: nat, safe: set<string>, excluded: set<string>)
  {
    && (forall id :: id in safe <==> SafeBelow(chosen, detail, n, id))
    && (forall id :: id in excluded <==> UnsafeBelow(chosen, detail, n, id))
  }

  ghost predicate Projects(chosen: seq<Thread>, detail: nat -> Detail, p: Projection)
  {
    && EndsAt(chosen, detail, p.n)
    && p.projected == SnapshotCount(detail, p.n)
    && p.requests == p.n + (if p.n < |chosen| then 1 else 0)
    && (p.complete <==> p.n == |chosen| && forall k: nat :: k < p.n ==> !detail(k).TooLarge?)
    && p.reasons == DetailReasons(detail, p.requests)
    && (forall id :: id in p.safe <==> SafeBelow(chosen, detail, p.n, id))
    && (forall id :: id in p.excluded <==> UnsafeBelow(chosen, detail, p.n, id) || id in GivenUp(chosen, p.n))
  }

  lemma BookOne(
    chosen: seq<Thread>, detail: nat -> Detail, n: nat, safe: set<string>, excluded: set<string>)
    requires Bookkeeping(chosen, detail, n, safe, excluded) && n < |chosen|
    ensures
      if IsSafe(detail(n)) then Bookkeeping(chosen, detail, n + 1, safe + {chosen[n].id}, excluded)
      else Bookkeeping(chosen, detail, n + 1, safe, excluded + {chosen[n].id})
  {
    var id := chosen[n].id;
    assert IsSafe(detail(n)) ==> SafeAt(chosen, detail, n, id);
    assert !IsSafe(detail(n)) ==> UnsafeAt(chosen, detail, n, id);
    forall other ensures SafeBelow(chosen, detail, n + 1, other) <==>
      SafeBelow(chosen, detail, n, other) || (IsSafe(detail(n)) && other == id) {}
    forall other ensures UnsafeBelow(chosen, detail, n + 1, other) <==>
      UnsafeBelow(chosen, detail, n, other) || (!IsSafe(detail(n)) && other == id) {}
  }

  /** The books after one more thread was read, whatever its answer was. */
  function Absorb(p: Projection, id: string, d: Detail): Projection
    requires !d.BudgetSpent? && !d.DetailFailed?
  {
    Projection(
      p.n + 1,
      if d.Projected? then p.projected + 1 else p.projected,
      p.requests + 1,
      p.complete && !d.TooLarge?,
      p.reasons + ReasonsOf(d),
      if IsSafe(d) then p.safe + {id} else p.safe,
      if IsSafe(d) then p.excluded else p.excluded + {id})
  }

  ghost predicate SoFar(chosen: seq<Thread>, detail: nat -> Detail, p: Projection)
  {
    && p.n <= |chosen| && p.projected == SnapshotCount(detail, p.n) && p.requests == p.n
    && (forall k: nat :: k < p.n ==> !detail(k).BudgetSpent? && !detail(k).DetailFailed?)
    && (p.complete <==> forall k: nat :: k < p.n ==> !detail(k).TooLarge?)
    && p.reasons == DetailReasons(detail, p.n)
    && Bookkeeping(chosen, detail, p.n, p.safe, p.excluded)
  }

  lemma AbsorbCounts(chosen: seq<Thread>, detail: nat -> Detail, p: Projection, q: Projection)
    requires SoFar(chosen, detail, p) && p.n < |chosen|
    requires !detail(p.n).BudgetSpent? && !detail(p.n).DetailFailed?
    requires q.n == p.n + 1 == q.requests && q.projected == SnapshotCount(detail, q.n)
    requires q.complete == (p.complete && !detail(p.n).TooLarge?)
    requires q.reasons == p.reasons + ReasonsOf(detail(p.n))
    requires Bookkeeping(chosen, detail, q.n, q.safe, q.excluded)
    ensures SoFar(chosen, detail, q)
  {
  }

  lemma AbsorbBooks(chosen: seq<Thread>, detail: nat -> Detail, p: Projection)
    requires Bookkeeping(chosen, detail, p.n, p.safe, p.excluded) && p.n < |chosen|
    requires !detail(p.n).BudgetSpent? && !detail(p.n).DetailFailed?
    ensures var q := Absorb(p, chosen[p.n].id, detail(p.n)); Bookkeeping(chosen, detail, p.n + 1, q.safe, q.excluded)
  {
    BookOne(chosen, detail, p.n, p.safe, p.excluded);
  }

  lemma AbsorbOne(chosen: seq<Thread>, detail: nat -> Detail, p: Projection)
    requires SoFar(chosen, detail, p) && p.n < |chosen|
    requires !detail(p.n).BudgetSpent? && !detail(p.n).DetailFailed?
    ensures SoFar(chosen, detail, Absorb(p, chosen[p.n].id, detail(p.n)))
  {
    AbsorbBooks(chosen, detail, p);
    AbsorbCounts(chosen, detail, p, Absorb(p, chosen[p.n].id, detail(p.n)));
  }

  /** A request for the details of thread `n` fails before the budget is spent. */
  ghost predicate DetailBreaks(chosen: seq<Thread>, detail: nat -> Detail, n: nat)
  {
    n < |chosen| && detail(n).DetailFailed? && forall k: nat :: k < n ==> !detail(k).BudgetSpent?
  }

  /** Reads the chosen threads one by one. */
  method ProjectThreads(chosen: seq<Thread>, detail: nat -> Detail) returns (r: Option<Projection>)
    ensures r.Some? ==> Projects(chosen, detail, r.value)
    ensures r.None? ==> exists n: nat :: DetailBreaks(chosen, detail, n)
  {
    var p := Projection(0, 0, 0, true, [], {}, {});
    while p.n < |chosen|
      invariant SoFar(chosen, detail, p)
      decreases |chosen| - p.n
    {
      var d := detail(p.n);
      if d.DetailFailed? {
        assert DetailBreaks(chosen, detail, p.n);
        return None;
      }
      if d.BudgetSpent? {
        var first := IndexOf(chosen, chosen[p.n]);
        return Some(p.(
          requests := p.requests + 1, complete := false, reasons := p.reasons + [SyncBudgetExhausted],
          excluded := p.excluded + Ids(chosen[first..])));
      }
      AbsorbOne(chosen, detail, p);
      p := Absorb(p, chosen[p.n].id, d);
    }
    r := Some(p);
  }

  /** Details that end meet no failing request first, so the two outcomes exclude
      each other. */
  lemma DetailsEndOrBreak(chosen: seq<Thread>, detail: nat -> Detail, p: Projection, n: nat)
    requires Projects(chosen, detail, p)
    ensures !DetailBreaks(chosen, detail, n)
  {
  }

  // ------------------------------------------------------------ the inbox read

  function Chosen(threads: seq<Thread>, limit: nat): seq<Thread>
  {
    if limit <= |threads| then threads[..limit] else threads
  }

  function ListReasons(l: Listed, limit: nat): seq<Reason>
  {
    (if l.complete then [] else [PaginationLimit])
    + (if l.skipped > 0 then [ListEntrySkipped] else [])
    + (if |l.threads| > limit then [ProjectionLimit] else [])
  }

  ghost predicate Reads(l: Listed, limit: nat, detail: nat -> Detail, r: Read)
  {
    var chosen := Chosen(l.threads, limit);
    exists p: Projection ::
      && Projects(chosen, detail, p)
      && r.projected == p.projected && r.pages == l.pages && r.requests == 1 + l.pages + p.requests
      && r.reasons == ListReasons(l, limit) + p.reasons
      && (r.allowsAbsent <==> l.complete && l.skipped == 0 && |l.threads| <= limit)
      && (r.coverageComplete <==> r.allowsAbsent && p.complete)
      && r.safe == p.safe && r.excluded == Ids(l.threads[|chosen|..]) + p.excluded
  }

  /** One whole read after the profile request. It fails exactly when the listing
      breaks or a detail request fails before the budget is spent. */
  method ReadInbox(list: nat -> ListReply, limit: nat, detail: nat -> Detail)
    returns (l: Option<Listed>, r: Option<Read>)
    ensures l.Some? ==> ListedPages(list, l.value)
    ensures l.None? ==> r.None? && exists n: nat :: ListingBreaks(list, n)
    ensures r.Some? ==> l.Some? && Reads(l.value, limit, detail, r.value)
    ensures l.Some? && r.None? ==> exists n: nat :: DetailBreaks(Chosen(l.value.threads, limit), detail, n)
  {
    l := ListThreads(list);
    if l.None? { return l, None; }
    var listed := l.value;
    var reasons := if listed.complete then [] else [PaginationLimit];
    var complete := listed.complete;
    var excluded: set<string> := {};
    if listed.skipped > 0 {
      reasons := reasons + [ListEntrySkipped];
      complete := false;
    }
    var chosen := Chosen(listed.threads, limit);
    if |chosen| < |listed.threads| {
      reasons := reasons + [ProjectionLimit];
      complete := false;
      excluded := Ids(listed.threads[|chosen|..]);
    }
    var projection := ProjectThreads(chosen, detail);
    if projection.None? { return l, None; }
    var p := projection.value;
    assert reasons == ListReasons(listed, limit);
    assert excluded == Ids(listed.threads[|chosen|..]);
    r := Some(Read(
      p.projected, listed.pages, 1 + listed.pages + p.requests, complete && p.complete,
      listed.complete && listed.skipped == 0 && |chosen| == |listed.threads|,
      reasons + p.reasons, p.safe, excluded + p.excluded));
  }
}
