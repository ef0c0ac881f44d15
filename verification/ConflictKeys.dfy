/** The dedupe keys of conflicts: exactly when two pairs of one timeline share one. */
module ConflictKeys {
  import opened Conflicts
  import opened Situations
  import Sorting
  import Text

  function Joined(low: string, high: string): string
  {
    low + ":" + high
  }

  function DedupeKey(c: Conflict): string
  {
    "calendar_conflict:" + Joined(c.low, c.high)
  }

  // ---------------------------------------------------------------- the text

  /** The second pair reads the key of the first with a later colon as the joint. */
  ghost predicate Straddles(a: string, b: string, c: string, d: string)
  {
    exists x: string :: c == Joined(a, x) && b == Joined(x, d)
  }

  lemma LongerFirst(a: string, b: string, c: string, d: string)
    requires Joined(a, b) == Joined(c, d) && |a| < |c|
    ensures Straddles(a, b, c, d)
  {
    var (key, x) := (Joined(a, b), c[|a| + 1..]);
    assert key[..|c|] == c && key[..|a|] == a && key[|a|] == ':' && key[|a| + 1..] == b;
    assert c == Joined(a, x);
    assert key[|a| + 1..] == x + (":" + d);
    assert b == Joined(x, d);
  }

  /** Two pairs join to one text if and only if they are equal or one straddles the
      other, which takes an id with a colon. */
  lemma JoinsAgreeExactly(a: string, b: string, c: string, d: string)
    ensures Joined(a, b) == Joined(c, d) <==>
      (a == c && b == d) || Straddles(a, b, c, d) || Straddles(c, d, a, b)
    ensures Straddles(a, b, c, d) ==> ':' in c && ':' in b
  {
    if Joined(a, b) == Joined(c, d) {
      if |a| < |c| {
        LongerFirst(a, b, c, d);
      } else if |c| < |a| {
        LongerFirst(c, d, a, b);
      } else {
        assert a == Joined(a, b)[..|a|] && c == Joined(c, d)[..|c|];
        assert b == Joined(a, b)[|a| + 1..] && d == Joined(c, d)[|c| + 1..];
      }
    }
    if Straddles(a, b, c, d) { StraddledJoins(a, b, c, d); }
    if Straddles(c, d, a, b) { StraddledJoins(c, d, a, b); }
  }

  lemma StraddledJoins(a: string, b: string, c: string, d: string)
    requires Straddles(a, b, c, d)
    ensures Joined(a, b) == Joined(c, d) && ':' in c && ':' in b
  {
    var x: string :| c == Joined(a, x) && b == Joined(x, d);
    assert Joined(a, Joined(x, d)) == Joined(Joined(a, x), d);
    assert c[|a|] == ':' && b[|x|] == ':';
  }

  lemma KeysAgreeAsJoins(c: Conflict, d: Conflict)
    ensures DedupeKey(c) == DedupeKey(d) <==> Joined(c.low, c.high) == Joined(d.low, d.high)
  {
    var head := "calendar_conflict:";
    assert DedupeKey(c)[|head|..] == Joined(c.low, c.high);
    assert DedupeKey(d)[|head|..] == Joined(d.low, d.high);
  }

  // ---------------------------------------------------- distinct ids, positions

  ghost predicate DistinctIds(events: seq<Event>)
  {
    forall i, j :: 0 <= i < j < |events| ==> events[i].id != events[j].id
  }

  lemma {:induction false} DistinctTimeline(events: seq<Event>, s: Setting)
    requires DistinctIds(events)
    ensures forall i, j :: 0 <= i < j < |Intervals(events, s)| ==>
      Intervals(events, s)[i].event.id != Intervals(events, s)[j].event.id
  {
    if events != [] {
      var front := events[..|events| - 1];
      DistinctTimeline(front, s);
      IntervalsFacts(front, s);
      var ivs := Intervals(front, s);
      forall i | 0 <= i < |ivs| ensures ivs[i].event.id != events[|events| - 1].id {
        assert ivs[i] in ivs;
        var k :| 0 <= k < |front| && front[k] == ivs[i].event;
        assert events[k] == front[k];
      }
    }
  }

  lemma TimelineIdsDiffer(events: seq<Event>, s: Setting, i: nat, j: nat)
    requires DistinctIds(events) && i < |Timeline(events, s)| && j < |Timeline(events, s)| && i != j
    ensures Timeline(events, s)[i].event.id != Timeline(events, s)[j].event.id
  {
    var (xs, ivs) := (Timeline(events, s), Intervals(events, s));
    TimelineFacts(events, s);
    DistinctTimeline(events, s);
    Sorting.DistinctPermutation(ivs, xs);
    Sorting.SameElements(xs, ivs);
    assert xs[i] in ivs && xs[j] in ivs && xs[i] != xs[j];
    var a :| 0 <= a < |ivs| && ivs[a] == xs[i];
    var b :| 0 <= b < |ivs| && ivs[b] == xs[j];
    assert a != b;
  }

  lemma IdsFixPosition(events: seq<Event>, s: Setting, i: nat, j: nat)
    requires DistinctIds(events) && i < |Timeline(events, s)| && j < |Timeline(events, s)|
    ensures Timeline(events, s)[i].event.id == Timeline(events, s)[j].event.id ==> i == j
  {
    if i != j { TimelineIdsDiffer(events, s, i, j); }
  }

  lemma SameIds(a: string, b: string, c: string, d: string)
    requires Lesser(a, b) == Lesser(c, d) && Greater(a, b) == Greater(c, d)
    ensures (a == c && b == d) || (a == d && b == c)
  {
  }

  lemma SameIdsSamePair(events: seq<Event>, s: Setting, i: nat, j: nat, k: nat, l: nat)
    requires DistinctIds(events) && Clash(Timeline(events, s), i, j) && Clash(Timeline(events, s), k, l)
    requires var xs := Timeline(events, s);
      && Lesser(xs[i].event.id, xs[j].event.id) == Lesser(xs[k].event.id, xs[l].event.id)
      && Greater(xs[i].event.id, xs[j].event.id) == Greater(xs[k].event.id, xs[l].event.id)
    ensures i == k && j == l
  {
    var xs := Timeline(events, s);
    SameIds(xs[i].event.id, xs[j].event.id, xs[k].event.id, xs[l].event.id);
    IdsFixPosition(events, s, i, k);
    IdsFixPosition(events, s, j, l);
    IdsFixPosition(events, s, i, l);
    IdsFixPosition(events, s, j, k);
  }

  // -------------------------------------------------------------- the theorems

  /** Two clashing pairs of one timeline of distinct ids share a dedupe key if and
      only if they are the same pair or the ids of one straddle those of the other. */
  lemma {:induction false} PairsShareKeysExactly(events: seq<Event>, s: Setting, i: nat, j: nat, k: nat, l: nat)
    requires DistinctIds(events) && Clash(Timeline(events, s), i, j) && Clash(Timeline(events, s), k, l)
    ensures var xs := Timeline(events, s);
      var (c, d) := (Describe(xs[i], xs[j], s), Describe(xs[k], xs[l], s));
      DedupeKey(c) == DedupeKey(d) <==>
        (i == k && j == l) || Straddles(c.low, c.high, d.low, d.high) || Straddles(d.low, d.high, c.low, c.high)
  {
    var xs := Timeline(events, s);
    var (c, d) := (Describe(xs[i], xs[j], s), Describe(xs[k], xs[l], s));
    KeysAgreeAsJoins(c, d);
    JoinsAgreeExactly(c.low, c.high, d.low, d.high);
    if c.low == d.low && c.high == d.high { SameIdsSamePair(events, s, i, j, k, l); }
  }

  lemma ColonsOf(events: seq<Event>, s: Setting, i: nat, j: nat)
    requires (forall e :: e in events ==> ':' !in e.id) && Clash(Timeline(events, s), i, j)
    ensures var c := Describe(Timeline(events, s)[i], Timeline(events, s)[j], s); ':' !in c.low && ':' !in c.high
  {
    var xs := Timeline(events, s);
    TimelineFacts(events, s);
    assert xs[i] in xs && xs[j] in xs;
  }

  /** So ids without colons identify the pair. */
  lemma {:induction false} PairsHaveOwnKeys(events: seq<Event>, s: Setting, i: nat, j: nat, k: nat, l: nat)
    requires DistinctIds(events) && forall e :: e in events ==> ':' !in e.id
    requires Clash(Timeline(events, s), i, j) && Clash(Timeline(events, s), k, l)
    requires var xs := Timeline(events, s);
      DedupeKey(Describe(xs[i], xs[j], s)) == DedupeKey(Describe(xs[k], xs[l], s))
    ensures i == k && j == l
  {
    var xs := Timeline(events, s);
    var (c, d) := (Describe(xs[i], xs[j], s), Describe(xs[k], xs[l], s));
    PairsShareKeysExactly(events, s, i, j, k, l);
    ColonsOf(events, s, i, j);
    ColonsOf(events, s, k, l);
    JoinsAgreeExactly(c.low, c.high, d.low, d.high);
    JoinsAgreeExactly(d.low, d.high, c.low, c.high);
  }

  // --------------------------------------------------------------- the witness

  function Meeting(id: string, start: int, end: int): Event
  {
    Event(id, ConfirmedEvent, None, Some(Timed(start)), Some(Timed(end)), true, None, Transparency.Opaque)
  }

  lemma TwoIntervals(xs: seq<Event>, e: Event, s: Setting)
    requires Relevant(e, s)
    ensures Intervals(xs + [e], s) == Intervals(xs, s) + [ToInterval(e, s.zone)]
  {
    assert (xs + [e])[..|xs|] == xs;
  }

  /** Four running meetings with distinct ids whose first and last two clash. */
  function Colliding(now: int): seq<Event>
  {
    [Meeting("a", now, now + 9), Meeting("b:c", now + 1, now + 9),
     Meeting("a:b", now + 2, now + 9), Meeting("c", now + 3, now + 9)]
  }

  function InOrder(s: Setting): (xs: seq<Interval>)
    ensures |xs| == 4 && forall k :: 0 <= k < 4 ==> xs[k].start == s.now + k
    ensures forall k :: 0 <= k < 4 ==> xs[k].event == Colliding(s.now)[k] && xs[k].end == s.now + 9 && !xs[k].allDay
  {
    var es := Colliding(s.now);
    [ToInterval(es[0], s.zone), ToInterval(es[1], s.zone), ToInterval(es[2], s.zone), ToInterval(es[3], s.zone)]
  }

  lemma CollidingIntervals(s: Setting)
    ensures Intervals(Colliding(s.now), s) == InOrder(s)
  {
    var es := Colliding(s.now);
    TwoIntervals([], es[0], s);
    TwoIntervals([es[0]], es[1], s);
    TwoIntervals([es[0], es[1]], es[2], s);
    TwoIntervals([es[0], es[1], es[2]], es[3], s);
    assert [] + [es[0]] == [es[0]] && [es[0]] + [es[1]] == [es[0], es[1]];
    assert [es[0], es[1]] + [es[2]] == [es[0], es[1], es[2]] && [es[0], es[1], es[2]] + [es[3]] == es;
  }

  lemma AlreadySorted(xs: seq<Interval>, ys: seq<Interval>)
    requires forall i, j :: 0 <= i < j < |xs| ==> xs[i].start < xs[j].start
    requires Sorting.SortedBy(ByStart(), ys) && multiset(xs) == multiset(ys)
    ensures xs == ys
  {
    EarlierIsTotal();
    forall p, q | p in xs && q in xs && ByStart()(p, q) && ByStart()(q, p) ensures p == q {
      assert p.start == q.start;
    }
    Sorting.SortedUnique(ByStart(), xs, ys);
  }

  lemma CollidingTimeline(s: Setting)
    ensures Timeline(Colliding(s.now), s) == InOrder(s)
  {
    CollidingIntervals(s);
    TimelineFacts(Colliding(s.now), s);
    AlreadySorted(InOrder(s), Timeline(Colliding(s.now), s));
  }

  /** With colons, one timeline of events with distinct ids can hold two different
      clashing pairs under one key. */
  lemma {:induction false} ColonsCollide(s: Setting)
    ensures var events := Colliding(s.now);
      var xs := Timeline(events, s);
      && DistinctIds(events) && Clash(xs, 0, 1) && Clash(xs, 2, 3)
      && DedupeKey(Describe(xs[0], xs[1], s)) == DedupeKey(Describe(xs[2], xs[3], s))
  {
    CollidingTimeline(s);
    var xs := Timeline(Colliding(s.now), s);
    assert DedupeKey(Describe(xs[0], xs[1], s)) == "calendar_conflict:a:b:c";
    assert DedupeKey(Describe(xs[2], xs[3], s)) == "calendar_conflict:a:b:c";
  }
}
