/** Calendar conflicts by definition: the committed intervals of the events, in
    start order, and every pair of them that overlaps. */
module Conflicts {
  import Sorting
  import Text
  import opened Situations

  datatype Status = ConfirmedEvent | TentativeEvent | CancelledEvent
  datatype Transparency = Opaque | Transparent
  datatype Response = NeedsAction | Declined | Tentative | Accepted
  datatype Bound = Timed(instant: int) | AllDay(date: int)

  datatype Event = Event(
    id: string, status: Status, summary: Option<string>, start: Option<Bound>, end: Option<Bound>,
    organizer: bool, response: Option<Response>, transparency: Transparency)

  datatype Interval = Interval(event: Event, start: int, end: int, allDay: bool)

  /** The instant and policy one detection run is made with; `zone` gives the
      instant at which a local date starts. */
  datatype Setting = Setting(now: int, zone: int -> int, critical: int, high: int)

  datatype Conflict = Conflict(
    first: Interval, second: Interval, low: string, high: string,
    overlapStart: int, overlapEnd: int, priority: Priority)

  const MAX_CONFLICTS: nat := 1000

  // ---------------------------------------------------------------- intervals

  function Instant(bound: Option<Bound>, zone: int -> int): Option<int>
  {
    match bound
    case None => None
    case Some(Timed(instant)) => Some(instant)
    case Some(AllDay(date)) => Some(zone(date))
  }

  predicate Committed(e: Event)
  {
    && e.status == ConfirmedEvent && e.transparency == Opaque
    && (e.organizer || e.response == Some(Accepted))
    && e.start.Some? && e.end.Some?
  }

  function ToInterval(e: Event, zone: int -> int): Interval
    requires Committed(e)
  {
    Interval(e, Instant(e.start, zone).value, Instant(e.end, zone).value, e.start.value.AllDay?)
  }

  predicate Relevant(e: Event, s: Setting)
  {
    Committed(e) && ToInterval(e, s.zone).end > s.now
  }

  function Intervals(events: seq<Event>, s: Setting): seq<Interval>
  {
    if events == [] then []
    else
      var e := events[|events| - 1];
      Intervals(events[..|events| - 1], s) + (if Relevant(e, s) then [ToInterval(e, s.zone)] else [])
  }

  predicate Earlier(a: Interval, b: Interval)
  {
    if a.start != b.start then a.start < b.start
    else if a.end != b.end then a.end < b.end
    else Text.AtMost(a.event.id, b.event.id)
  }

  function ByStart(): (Interval, Interval) -> bool
  {
    (a: Interval, b: Interval) => Earlier(a, b)
  }

  function Timeline(events: seq<Event>, s: Setting): seq<Interval>
  {
    Sorting.Sort(ByStart(), Intervals(events, s))
  }

  // -------------------------------------------------------------------- pairs

  /** Interval `i` is still running when the later interval `j` starts, and at
      least one of the two is timed. */
  predicate Clash(xs: seq<Interval>, i: nat, j: nat)
  {
    i < j < |xs| && xs[i].end > xs[j].start && !(xs[i].allDay && xs[j].allDay)
  }

  function Lesser(a: string, b: string): string { if Text.AtMost(a, b) then a else b }

  function Greater(a: string, b: string): string { if Text.AtMost(a, b) then b else a }

  function PriorityOf(start: int, s: Setting): Priority
  {
    if start <= s.now + s.critical then Critical
    else if start <= s.now + s.high then High
    else Routine
  }

  function Describe(a: Interval, b: Interval, s: Setting): Conflict
  {
    Conflict(a, b, Lesser(a.event.id, b.event.id), Greater(a.event.id, b.event.id),
             b.start, if a.end <= b.end then a.end else b.end, PriorityOf(b.start, s))
  }

  /** The earlier intervals below `n` that clash with interval `j`. */
  function Partners(xs: seq<Interval>, j: nat, n: nat): seq<nat>
  {
    if n == 0 then []
    else Partners(xs, j, n - 1) + (if Clash(xs, n - 1, j) then [n - 1] else [])
  }

  function WithLater(partners: seq<nat>, j: nat): seq<(nat, nat)>
  {
    seq(|partners|, k requires 0 <= k < |partners| => (partners[k], j))
  }

  /** All clashing pairs whose later interval is below `n`, by later and then by
      earlier interval. */
  function Pairs(xs: seq<Interval>, n: nat): seq<(nat, nat)>
  {
    if n == 0 then [] else Pairs(xs, n - 1) + WithLater(Partners(xs, n - 1, n - 1), n - 1)
  }

  predicate InRange(xs: seq<Interval>, pairs: seq<(nat, nat)>)
  {
    forall p :: p in pairs ==> p.0 < |xs| && p.1 < |xs|
  }

  function Described(xs: seq<Interval>, pairs: seq<(nat, nat)>, s: Setting): seq<Conflict>
    requires InRange(xs, pairs)
  {
    seq(|pairs|, k requires 0 <= k < |pairs| =>
      assert pairs[k] in pairs;
      Describe(xs[pairs[k].0], xs[pairs[k].1], s))
  }

  // ------------------------------------------- what the list of pairs contains

  lemma {:induction false} PartnersFacts(xs: seq<Interval>, j: nat, n: nat)
    ensures forall i: nat :: i in Partners(xs, j, n) <==> i < n && Clash(xs, i, j)
    ensures Sorting.Ascending(Partners(xs, j, n))
  {
    if n > 0 {
      PartnersFacts(xs, j, n - 1);
      var ps := Partners(xs, j, n - 1);
      forall a | 0 <= a < |ps| ensures ps[a] < n - 1 {
        assert ps[a] in ps;
      }
    }
  }

  predicate Ordered(p: (nat, nat), q: (nat, nat))
  {
    p.1 < q.1 || (p.1 == q.1 && p.0 < q.0)
  }

  ghost predicate InOrder(ps: seq<(nat, nat)>)
  {
    forall a, b :: 0 <= a < b < |ps| ==> Ordered(ps[a], ps[b])
  }

  lemma WithLaterFacts(partners: seq<nat>, j: nat)
    ensures forall i: nat, k: nat :: (i, k) in WithLater(partners, j) <==> i in partners && k == j
  {
    var ps := WithLater(partners, j);
    forall i: nat | i in partners ensures (i, j) in ps {
      var a :| 0 <= a < |partners| && partners[a] == i;
      assert ps[a] == (i, j);
    }
  }

  /** The list holds each clashing pair exactly once, in order. */
  lemma {:induction false} PairsAreTheClashes(xs: seq<Interval>, n: nat)
    requires n <= |xs|
    ensures forall i: nat, j: nat :: (i, j) in Pairs(xs, n) <==> j < n && Clash(xs, i, j)
    ensures InOrder(Pairs(xs, n))
  {
    if n > 0 {
      var front := Pairs(xs, n - 1);
      var row := Partners(xs, n - 1, n - 1);
      PairsAreTheClashes(xs, n - 1);
      PartnersFacts(xs, n - 1, n - 1);
      WithLaterFacts(row, n - 1);
      forall a | 0 <= a < |front| ensures front[a].1 < n - 1 {
        assert (front[a].0, front[a].1) in front;
      }
    }
  }

  // ------------------------------------------------------------- true overlaps

  /** Two intervals share a stretch of time. */
  predicate Overlap(a: Interval, b: Interval)
  {
    (if a.start >= b.start then a.start else b.start) < (if a.end <= b.end then a.end else b.end)
  }

  /** A reported pair shares a stretch of time exactly when its later event is not
      empty; two committed intervals that do share one, not both all-day, always
      form a pair. */
  lemma ClashMeansOverlap(events: seq<Event>, s: Setting, i: nat, j: nat)
    requires i < j < |Timeline(events, s)|
    ensures var xs := Timeline(events, s);
      Overlap(xs[i], xs[j]) && !(xs[i].allDay && xs[j].allDay) <==>
      Clash(xs, i, j) && xs[j].start < xs[j].end
  {
    TimelineFacts(events, s);
    assert Earlier(Timeline(events, s)[i], Timeline(events, s)[j]);
  }

  /** At every instant, an event that ends when it starts is reported against a
      running one. */
  lemma EmptyEventIsReported(s: Setting)
    ensures exists events: seq<Event> :: var xs := Timeline(events, s);
      |xs| == 2 && Clash(xs, 0, 1) && !Overlap(xs[0], xs[1])
  {
    var (start, middle, end) := (s.now, s.now + 5, s.now + 9);
    var a := Event("a", ConfirmedEvent, None, Some(Timed(start)), Some(Timed(end)), true, None, Opaque);
    var b := a.(id := "b", start := Some(Timed(middle)), end := Some(Timed(middle)));
    var (x, y) := (ToInterval(a, s.zone), ToInterval(b, s.zone));
    assert Intervals([a], s) == [x] by { assert [a][..0] == []; }
    assert Intervals([a, b], s) == [x, y] by { assert [a, b][..1] == [a]; }
    assert [x, y][1..] == [y] && [y][1..] == [];
    assert Sorting.Sort(ByStart(), [y]) == [y];
    assert Timeline([a, b], s) == [x, y];
    assert Clash([x, y], 0, 1) && !Overlap(x, y);
  }

  // -------------------------------------------------------------- the timeline

  lemma EarlierIsTotal()
    ensures Sorting.TotalOrder(ByStart())
  {
    forall a: Interval, b: Interval ensures ByStart()(a, b) || ByStart()(b, a) {
      Text.Total(a.event.id, b.event.id);
    }
    forall a: Interval, b: Interval, c: Interval | ByStart()(a, b) && ByStart()(b, c) ensures ByStart()(a, c) {
      if a.start == b.start == c.start && a.end == b.end == c.end {
        Text.Transitive(a.event.id, b.event.id, c.event.id);
      }
    }
  }

  lemma {:induction false} IntervalsFacts(events: seq<Event>, s: Setting)
    ensures forall x :: x in Intervals(events, s) ==>
      x.event in events && Relevant(x.event, s) && x == ToInterval(x.event, s.zone)
  {
    if events != [] {
      IntervalsFacts(events[..|events| - 1], s);
    }
  }

  lemma TimelineFacts(events: seq<Event>, s: Setting)
    ensures Sorting.SortedBy(ByStart(), Timeline(events, s))
    ensures multiset(Timeline(events, s)) == multiset(Intervals(events, s))
    ensures forall x :: x in Timeline(events, s) ==>
      x.event in events && Relevant(x.event, s) && x == ToInterval(x.event, s.zone)
  {
    var ivs := Intervals(events, s);
    EarlierIsTotal();
    Sorting.SortSorts(ByStart(), ivs);
    Sorting.SortPermutes(ByStart(), ivs);
    Sorting.SameElements(Timeline(events, s), ivs);
    IntervalsFacts(events, s);
  }

  lemma {:induction false} IntervalsConcat(xs: seq<Event>, ys: seq<Event>, s: Setting)
    ensures Intervals(xs + ys, s) == Intervals(xs, s) + Intervals(ys, s)
  {
    if ys == [] {
      assert xs + ys == xs;
    } else {
      IntervalsConcat(xs, ys[..|ys| - 1], s);
      assert (xs + ys)[..|xs + ys| - 1] == xs + ys[..|ys| - 1];
    }
  }

  lemma RestPermutes<T>(xs: seq<T>, ys: seq<T>, k: nat)
    requires multiset(xs) == multiset(ys) && xs != [] && k < |ys| && ys[k] == xs[|xs| - 1]
    ensures multiset(xs[..|xs| - 1]) == multiset(ys[..k] + ys[k + 1..])
  {
    var (x, front, rest) := (xs[|xs| - 1], xs[..|xs| - 1], ys[..k] + ys[k + 1..]);
    assert xs == front + [x];
    assert ys == ys[..k] + [x] + ys[k + 1..];
    assert multiset(ys) == multiset(rest) + multiset{x};
    forall y ensures multiset(front)[y] == multiset(rest)[y] {
      assert multiset(xs)[y] == multiset(front)[y] + multiset{x}[y];
      assert multiset(ys)[y] == multiset(rest)[y] + multiset{x}[y];
    }
  }

  lemma {:induction false} IntervalsPermute(xs: seq<Event>, ys: seq<Event>, s: Setting)
    requires multiset(xs) == multiset(ys)
    ensures multiset(Intervals(xs, s)) == multiset(Intervals(ys, s))
  {
    Sorting.SameElements(xs, ys);
    if xs != [] {
      var e := xs[|xs| - 1];
      var front := xs[..|xs| - 1];
      assert e in ys;
      var k :| 0 <= k < |ys| && ys[k] == e;
      assert xs == front + [e];
      assert ys == ys[..k] + [e] + ys[k + 1..];
      RestPermutes(xs, ys, k);
      IntervalsPermute(front, ys[..k] + ys[k + 1..], s);
      IntervalsConcat(front, [e], s);
      IntervalsConcat(ys[..k], ys[k + 1..], s);
      IntervalsConcat(ys[..k], [e], s);
      IntervalsConcat(ys[..k] + [e], ys[k + 1..], s);
    }
  }

  ghost predicate UniqueIds(events: seq<Event>)
  {
    forall a, b :: a in events && b in events && a.id == b.id ==> a == b
  }

  /** With unique ids the timeline does not depend on the order of the events. */
  lemma TimelineIgnoresOrder(xs: seq<Event>, ys: seq<Event>, s: Setting)
    requires multiset(xs) == multiset(ys) && UniqueIds(xs)
    ensures Timeline(xs, s) == Timeline(ys, s)
  {
    var (a, b) := (Timeline(xs, s), Timeline(ys, s));
    EarlierIsTotal();
    TimelineFacts(xs, s);
    TimelineFacts(ys, s);
    IntervalsPermute(xs, ys, s);
    forall p, q | p in a && q in a && ByStart()(p, q) && ByStart()(q, p) ensures p == q {
      Text.Antisymmetric(p.event.id, q.event.id);
    }
    Sorting.SortedUnique(ByStart(), a, b);
  }
}
