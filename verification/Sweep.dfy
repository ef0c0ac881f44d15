/** The conflict sweep: one pass finds all clashing pairs. */
module Sweeps {
  import opened Conflicts
  import opened EndHeap
  import opened Situations
  import Sorting

  datatype Report = Report(detections: seq<Conflict>, resolutionSafe: bool)

  /** The bounded output the pairs of a timeline call for. */
  predicate Reports(xs: seq<Interval>, s: Setting, r: Report)
  {
    var pairs := Pairs(xs, |xs|);
    && InRange(xs, pairs)
    && (r.resolutionSafe <==> |pairs| <= MAX_CONFLICTS)
    && r.detections == Described(xs, if r.resolutionSafe then pairs else pairs[..MAX_CONFLICTS], s)
  }

  ghost predicate Upcoming(xs: seq<Interval>, s: Setting)
  {
    forall x :: x in xs ==> x.end > s.now
  }

  // -------------------------------------------------------- running intervals

  /** The table without one of its keys; the others keep their order. */
  function Without(table: seq<nat>, key: nat): seq<nat>
  {
    if table == [] then []
    else if table[0] == key then Without(table[1..], key)
    else [table[0]] + Without(table[1..], key)
  }

  lemma {:induction false} WithoutFacts(table: seq<nat>, key: nat)
    requires Sorting.Ascending(table)
    ensures Sorting.Ascending(Without(table, key))
    ensures forall i: nat :: i in Without(table, key) <==> i in table && i != key
  {
    if table != [] {
      WithoutFacts(table[1..], key);
      var rest := Without(table[1..], key);
      assert table == [table[0]] + table[1..];
      forall k | 0 <= k < |rest| ensures table[0] < rest[k] {
        assert rest[k] in rest;
        assert rest[k] in table[1..];
      }
    }
  }

  /** The sweep has three views of the intervals that may still be running: all of
      them, the timed ones, and the heap of their ends. */
  datatype Running = Running(active: seq<nat>, timed: seq<nat>, ends: seq<End>)

  ghost predicate ByStartTime(xs: seq<Interval>)
  {
    forall i, j :: 0 <= i < j < |xs| ==> xs[i].start <= xs[j].start
  }

  ghost predicate EndsMatch(xs: seq<Interval>, active: seq<nat>, ends: seq<End>)
  {
    forall e: End :: multiset(ends)[e] ==
      if e.index < |xs| && e.index in active && e.at == xs[e.index].end then 1 else 0
  }

  ghost predicate TablesMatch(xs: seq<Interval>, j: nat, w: Running)
  {
    && Sorting.Ascending(w.active) && Sorting.Ascending(w.timed)
    && (forall i: nat :: i in w.active ==> i < j && i < |xs|)
    && (forall i: nat :: i in w.timed <==> i in w.active && i < |xs| && !xs[i].allDay)
  }

  /** Intervals before `j` that left the tables end before anything to come starts. */
  ghost predicate DroppedEnded(xs: seq<Interval>, j: nat, active: seq<nat>)
  {
    forall i: nat, k: nat :: i < j <= k < |xs| && i !in active ==> xs[i].end <= xs[k].start
  }

  ghost predicate Tracks(xs: seq<Interval>, j: nat, w: Running)
  {
    && j <= |xs|
    && IsHeap(w.ends)
    && TablesMatch(xs, j, w)
    && EndsMatch(xs, w.active, w.ends)
    && DroppedEnded(xs, j, w.active)
  }

  lemma EndIsActive(xs: seq<Interval>, w: Running, e: End)
    requires EndsMatch(xs, w.active, w.ends) && e in w.ends
    ensures e.index < |xs| && e.index in w.active && e.at == xs[e.index].end
  {
    assert multiset(w.ends)[e] > 0;
  }

  lemma DropKeepsTables(xs: seq<Interval>, j: nat, w: Running, key: nat)
    requires TablesMatch(xs, j, w)
    ensures TablesMatch(xs, j, w.(active := Without(w.active, key), timed := Without(w.timed, key)))
  {
    WithoutFacts(w.active, key);
    WithoutFacts(w.timed, key);
  }

  lemma DropKeepsEnds(xs: seq<Interval>, active: seq<nat>, ends: seq<End>, least: End, rest: seq<End>)
    requires Sorting.Ascending(active) && EndsMatch(xs, active, ends)
    requires multiset(ends) == multiset(rest) + multiset{least}
    ensures EndsMatch(xs, Without(active, least.index), rest)
  {
    WithoutFacts(active, least.index);
    assert multiset(ends)[least] >= 1;
    forall e: End
      ensures multiset(rest)[e] ==
        if e.index < |xs| && e.index in Without(active, least.index) && e.at == xs[e.index].end then 1 else 0
    {
      assert multiset(ends)[e] == multiset(rest)[e] + multiset{least}[e];
    }
  }

  lemma DropKeepsDropped(xs: seq<Interval>, j: nat, active: seq<nat>, key: nat)
    requires ByStartTime(xs) && Sorting.Ascending(active) && DroppedEnded(xs, j, active)
    requires key < j < |xs| && xs[key].end <= xs[j].start
    ensures DroppedEnded(xs, j, Without(active, key))
  {
    WithoutFacts(active, key);
  }

  lemma AllDayKeyIsNotTimed(xs: seq<Interval>, j: nat, w: Running, key: nat)
    requires TablesMatch(xs, j, w) && key < |xs| && xs[key].allDay
    ensures Without(w.timed, key) == w.timed
  {
    WithoutFacts(w.timed, key);
    Sorting.AscendingUnique(Without(w.timed, key), w.timed);
  }

  /** Drops every running interval that ended by the start of interval `j`. */
  method Expire(xs: seq<Interval>, j: nat, w: Running) returns (r: Running)
    requires ByStartTime(xs) && Tracks(xs, j, w) && j < |xs|
    ensures Tracks(xs, j, r)
    ensures forall i: nat :: i in r.active <==> i < j && xs[i].end > xs[j].start
  {
    r := w;
    while r.ends != [] && r.ends[0].at <= xs[j].start
      invariant Tracks(xs, j, r)
      decreases |r.ends|
    {
      EndIsActive(xs, r, r.ends[0]);
      var least, rest := Pop(r.ends);
      assert least in multiset(rest) + multiset{least};
      EndIsActive(xs, r, least);
      assert NotAfter(least, r.ends[0]);
      assert |multiset(r.ends)| == |multiset(rest)| + 1;
      DropKeepsTables(xs, j, r, least.index);
      if xs[least.index].allDay { AllDayKeyIsNotTimed(xs, j, r, least.index); }
      DropKeepsEnds(xs, r.active, r.ends, least, rest);
      DropKeepsDropped(xs, j, r.active, least.index);
      r := Running(
        Without(r.active, least.index),
        if xs[least.index].allDay then r.timed else Without(r.timed, least.index),
        rest);
    }
    forall i: nat | i in r.active ensures xs[i].end > xs[j].start {
      var e := End(xs[i].end, i);
      assert multiset(r.ends)[e] == 1;
      var k :| 0 <= k < |r.ends| && r.ends[k] == e;
      RootIsLeast(r.ends, k);
    }
  }

  lemma AppendAscends(xs: seq<nat>, j: nat)
    requires Sorting.Ascending(xs) && forall i: nat :: i in xs ==> i < j
    ensures Sorting.Ascending(xs + [j])
  {
    forall k | 0 <= k < |xs| ensures xs[k] < j {
      assert xs[k] in xs;
    }
  }

  /** Enters interval `j` into the tables. */
  method Enter(xs: seq<Interval>, j: nat, w: Running) returns (r: Running)
    requires Tracks(xs, j, w) && j < |xs|
    ensures Tracks(xs, j + 1, r)
  {
    AppendAscends(w.active, j);
    AppendAscends(w.timed, j);
    var x := End(xs[j].end, j);
    var ends := Push(w.ends, x);
    r := Running(w.active + [j], if xs[j].allDay then w.timed else w.timed + [j], ends);
    forall e: End
      ensures multiset(r.ends)[e] ==
        if e.index < |xs| && e.index in r.active && e.at == xs[e.index].end then 1 else 0
    {
      assert multiset(r.ends)[e] == multiset(w.ends)[e] + multiset{x}[e];
    }
  }

  /** Once expired, the running intervals are the partners of interval `j`. */
  lemma CandidatesArePartners(xs: seq<Interval>, j: nat, w: Running)
    requires Tracks(xs, j, w) && j < |xs|
    requires forall i: nat :: i in w.active <==> i < j && xs[i].end > xs[j].start
    ensures Partners(xs, j, j) == if xs[j].allDay then w.timed else w.active
  {
    PartnersFacts(xs, j, j);
    Sorting.AscendingUnique(Partners(xs, j, j), if xs[j].allDay then w.timed else w.active);
  }

  // ---------------------------------------------------------------- the output

  lemma {:induction false} PairsGrow(xs: seq<Interval>, m: nat, n: nat)
    requires m <= n
    ensures Pairs(xs, m) <= Pairs(xs, n)
  {
    if m < n { PairsGrow(xs, m, n - 1); }
  }

  lemma PairsInRange(xs: seq<Interval>, n: nat)
    requires n <= |xs|
    ensures InRange(xs, Pairs(xs, n))
  {
    PairsAreTheClashes(xs, n);
    forall p | p in Pairs(xs, n) ensures p.0 < |xs| && p.1 < |xs| {
      assert (p.0, p.1) in Pairs(xs, n);
    }
  }

  lemma AppendLater(before: seq<(nat, nat)>, ps: seq<nat>, j: nat)
    ensures var after := before + WithLater(ps, j);
      && |after| == |before| + |ps| && after[..|before|] == before
      && forall k :: 0 <= k < |ps| ==> after[|before| + k] == (ps[k], j)
  {
  }

  lemma PartnersInRange(xs: seq<Interval>, j: nat)
    requires j < |xs|
    ensures forall k :: 0 <= k < |Partners(xs, j, j)| ==> Partners(xs, j, j)[k] < |xs|
  {
    var ps := Partners(xs, j, j);
    PartnersFacts(xs, j, j);
    forall k | 0 <= k < |ps| ensures ps[k] < |xs| {
      assert ps[k] in ps;
    }
  }

  lemma NextPairs(xs: seq<Interval>, j: nat)
    requires j < |xs|
    ensures var (ps, before, after) := (Partners(xs, j, j), Pairs(xs, j), Pairs(xs, j + 1));
      && InRange(xs, after) && |after| == |before| + |ps| && after[..|before|] == before
      && forall k :: 0 <= k < |ps| ==> ps[k] < |xs| && after[|before| + k] == (ps[k], j)
  {
    PairsInRange(xs, j + 1);
    PartnersInRange(xs, j);
    AppendLater(Pairs(xs, j), Partners(xs, j, j), j);
  }

  lemma DescribeOneMore(xs: seq<Interval>, pairs: seq<(nat, nat)>, k: nat, s: Setting)
    requires InRange(xs, pairs) && k < |pairs|
    ensures Described(xs, pairs[..k + 1], s)
         == Described(xs, pairs[..k], s) + [Describe(xs[pairs[k].0], xs[pairs[k].1], s)]
  {
    assert pairs[..k + 1] == pairs[..k] + [pairs[k]];
  }

  /** Appends the conflicts of interval `j` with its partners, in the order of the
      pairs, until the output is full; reports whether any had to be left out. */
  method ReportPartners(
    xs: seq<Interval>, j: nat, partners: seq<nat>, s: Setting, before: seq<Conflict>, ghost pairs: seq<(nat, nat)>)
    returns (detections: seq<Conflict>, full: bool)
    requires j < |xs| && InRange(xs, pairs) && |partners| + |before| == |pairs|
    requires forall k :: 0 <= k < |partners| ==> partners[k] < |xs| && pairs[|before| + k] == (partners[k], j)
    requires Upcoming(xs, s)
    requires |before| <= MAX_CONFLICTS && before == Described(xs, pairs[..|before|], s)
    ensures full <==> |pairs| > MAX_CONFLICTS
    ensures detections == Described(xs, if full then pairs[..MAX_CONFLICTS] else pairs, s)
  {
    detections := before;
    for k := 0 to |partners|
      invariant |detections| == |before| + k <= MAX_CONFLICTS
      invariant detections == Described(xs, pairs[..|before| + k], s)
    {
      var (a, b) := (xs[partners[k]], xs[j]);
      assert a in xs && b in xs;
      assert (if a.end <= b.end then a.end else b.end) > s.now;
      if |detections| == MAX_CONFLICTS {
        return detections, true;
      }
      DescribeOneMore(xs, pairs, |before| + k, s);
      detections := detections + [Describe(a, b, s)];
    }
    assert pairs[..|pairs|] == pairs;
    full := false;
  }

  /** The output after the intervals below `j`. */
  ghost predicate ReportedUpTo(xs: seq<Interval>, j: nat, s: Setting, detections: seq<Conflict>)
  {
    && InRange(xs, Pairs(xs, j))
    && |detections| <= MAX_CONFLICTS
    && detections == Described(xs, Pairs(xs, j), s)
  }

  lemma OverflowReport(xs: seq<Interval>, n: nat, s: Setting)
    requires n <= |xs| && InRange(xs, Pairs(xs, n)) && |Pairs(xs, n)| > MAX_CONFLICTS
    ensures Reports(xs, s, Report(Described(xs, Pairs(xs, n)[..MAX_CONFLICTS], s), false))
  {
    PairsGrow(xs, n, |xs|);
    PairsInRange(xs, |xs|);
    assert Pairs(xs, n)[..MAX_CONFLICTS] == Pairs(xs, |xs|)[..MAX_CONFLICTS];
  }

  lemma SamePrefixSameOutput(
    xs: seq<Interval>, shown: seq<(nat, nat)>, all: seq<(nat, nat)>, s: Setting, before: seq<Conflict>)
    requires InRange(xs, shown) && InRange(xs, all) && |shown| <= |all| && all[..|shown|] == shown
    requires before == Described(xs, shown, s)
    ensures |before| == |shown| && before == Described(xs, all[..|before|], s)
  {
  }

  /** The pairs of interval `j` continue the output where it stands. */
  lemma NextReports(xs: seq<Interval>, j: nat, s: Setting, before: seq<Conflict>)
    requires j < |xs| && ReportedUpTo(xs, j, s, before)
    ensures var (partners, pairs) := (Partners(xs, j, j), Pairs(xs, j + 1));
      && InRange(xs, pairs) && |partners| + |before| == |pairs|
      && (forall k :: 0 <= k < |partners| ==> partners[k] < |xs| && pairs[|before| + k] == (partners[k], j))
      && before == Described(xs, pairs[..|before|], s)
  {
    NextPairs(xs, j);
    SamePrefixSameOutput(xs, Pairs(xs, j), Pairs(xs, j + 1), s, before);
  }

  lemma ReportedNow(xs: seq<Interval>, n: nat, s: Setting, detections: seq<Conflict>, full: bool)
    requires n <= |xs| && InRange(xs, Pairs(xs, n)) && (full <==> |Pairs(xs, n)| > MAX_CONFLICTS)
    requires detections == Described(xs, if full then Pairs(xs, n)[..MAX_CONFLICTS] else Pairs(xs, n), s)
    ensures !full ==> ReportedUpTo(xs, n, s, detections)
    ensures full ==> Reports(xs, s, Report(detections, false))
  {
    if full { OverflowReport(xs, n, s); }
  }

  /** All conflicts in which interval `j` is the later one. */
  method ReportLater(xs: seq<Interval>, j: nat, w: Running, s: Setting, before: seq<Conflict>)
    returns (detections: seq<Conflict>, full: bool)
    requires j < |xs| && Upcoming(xs, s) && Tracks(xs, j, w)
    requires forall i: nat :: i in w.active <==> i < j && xs[i].end > xs[j].start
    requires ReportedUpTo(xs, j, s, before)
    ensures !full ==> ReportedUpTo(xs, j + 1, s, detections)
    ensures full ==> Reports(xs, s, Report(detections, false))
  {
    var partners := if xs[j].allDay then w.timed else w.active;
    CandidatesArePartners(xs, j, w);
    NextReports(xs, j, s, before);
    detections, full := ReportPartners(xs, j, partners, s, before, Pairs(xs, j + 1));
    ReportedNow(xs, j + 1, s, detections, full);
  }

  /** One pass over a timeline. */
  method Sweep(xs: seq<Interval>, s: Setting) returns (r: Report)
    requires ByStartTime(xs) && Upcoming(xs, s)
    ensures Reports(xs, s, r)
  {
    var w := Running([], [], []);
    var detections: seq<Conflict> := [];
    for j := 0 to |xs|
      invariant Tracks(xs, j, w)
      invariant ReportedUpTo(xs, j, s, detections)
    {
      w := Expire(xs, j, w);
      var full;
      detections, full := ReportLater(xs, j, w, s, detections);
      if full {
        return Report(detections, false);
      }
      w := Enter(xs, j, w);
    }
    r := Report(detections, true);
  }

  /** The committed intervals of the events that have not ended. */
  method Collect(events: seq<Event>, s: Setting) returns (xs: seq<Interval>)
    ensures xs == Intervals(events, s)
  {
    xs := [];
    for i := 0 to |events|
      invariant xs == Intervals(events[..i], s)
    {
      assert events[..i + 1][..i] == events[..i];
      var e := events[i];
      if e.status == ConfirmedEvent && e.transparency == Transparency.Opaque {
        if e.organizer || e.response == Some(Accepted) {
          var (start, end) := (Instant(e.start, s.zone), Instant(e.end, s.zone));
          if start.Some? && end.Some? && end.value > s.now {
            xs := xs + [Interval(e, start.value, end.value, e.start.value.AllDay?)];
          }
        }
      }
    }
    assert events[..|events|] == events;
  }

  /** The whole detection run: the report is the one the pairs of the timeline call
      for, all-pairs definition included. */
  method DetectConflicts(events: seq<Event>, s: Setting) returns (r: Report)
    ensures Reports(Timeline(events, s), s, r)
  {
    var xs := Collect(events, s);
    xs := Sorting.Sort(ByStart(), xs);
    TimelineFacts(events, s);
    forall i, j | 0 <= i < j < |xs| ensures xs[i].start <= xs[j].start {
      assert Earlier(xs[i], xs[j]);
    }
    r := Sweep(xs, s);
  }

  /** Two reports of the same events under unique ids agree, in whatever order the
      events were read. */
  lemma {:induction false} ReportIgnoresOrder(events: seq<Event>, others: seq<Event>, s: Setting, r: Report, q: Report)
    requires multiset(events) == multiset(others) && UniqueIds(events)
    requires Reports(Timeline(events, s), s, r) && Reports(Timeline(others, s), s, q)
    ensures r == q
  {
    TimelineIgnoresOrder(events, others, s);
  }
}
