/** What each conflict of a report says about its two events. */
module ConflictReport {
  import opened Situations
  import opened Conflicts
  import opened Sweeps
  import Sorting
  import Text

  /** The instant a bound stands for: its own, or the start of its local date. */
  predicate BeginsAt(bound: Option<Bound>, at: int, zone: int -> int)
  {
    && bound.Some?
    && (bound.value.Timed? ==> at == bound.value.instant)
    && (bound.value.AllDay? ==> at == zone(bound.value.date))
  }

  /** The interval of a confirmed busy event its owner organizes or accepted, with both
      bounds, that has not ended yet. */
  predicate CommittedTime(x: Interval, s: Setting)
  {
    && x.event.status == ConfirmedEvent && x.event.transparency == Opaque
    && (x.event.organizer || x.event.response == Some(Accepted))
    && BeginsAt(x.event.start, x.start, s.zone) && BeginsAt(x.event.end, x.end, s.zone)
    && (x.allDay <==> x.event.start.value.AllDay?)
    && x.end > s.now
  }

  lemma {:induction false} InstantBegins(bound: Option<Bound>, zone: int -> int)
    ensures Instant(bound, zone).Some? <==> bound.Some?
    ensures bound.Some? ==> BeginsAt(bound, Instant(bound, zone).value, zone)
  {
  }

  lemma {:induction false} TimelineCommits(events: seq<Event>, s: Setting)
    ensures var xs := Timeline(events, s);
      forall k :: 0 <= k < |xs| ==> xs[k].event in events && CommittedTime(xs[k], s)
  {
    var xs := Timeline(events, s);
    TimelineFacts(events, s);
    forall k | 0 <= k < |xs| ensures xs[k].event in events && CommittedTime(xs[k], s) {
      assert xs[k] in xs;
    }
  }

  lemma {:induction false} IntervalsComplete(events: seq<Event>, s: Setting, x: Interval)
    requires x.event in events && CommittedTime(x, s)
    ensures x in Intervals(events, s)
  {
    var (front, e) := (events[..|events| - 1], events[|events| - 1]);
    assert events == front + [e];
    if x.event in front {
      IntervalsComplete(front, s, x);
    } else {
      assert Relevant(e, s) && ToInterval(e, s.zone) == x;
    }
  }

  /** The timeline has exactly the committed times of the events, by start, then end,
      then id. */
  lemma {:induction false} TimelineHasAll(events: seq<Event>, s: Setting)
    ensures var xs := Timeline(events, s);
      && (forall x: Interval :: x in xs <==> x.event in events && CommittedTime(x, s))
      && (forall i, j :: 0 <= i < j < |xs| ==>
            || xs[i].start < xs[j].start
            || (xs[i].start == xs[j].start && xs[i].end < xs[j].end)
            || (xs[i].start == xs[j].start && xs[i].end == xs[j].end
                && Text.AtMost(xs[i].event.id, xs[j].event.id)))
  {
    var xs := Timeline(events, s);
    TimelineFacts(events, s);
    TimelineCommits(events, s);
    forall x: Interval | x.event in events && CommittedTime(x, s) ensures x in xs {
      IntervalsComplete(events, s, x);
      assert x in multiset(Intervals(events, s));
    }
    forall i, j | 0 <= i < j < |xs| ensures ByStart()(xs[i], xs[j]) {}
  }

  /** The later of two instants, and the earlier. */
  function Later(a: int, b: int): int { if a < b then b else a }

  function Sooner(a: int, b: int): int { if a < b then a else b }

  /** The conflict speaks of two events: both ids in text order, the time they share, and
      a priority by how soon that starts. */
  ghost predicate SpeaksOf(d: Conflict, x: Interval, y: Interval, s: Setting)
  {
    && d.first == x && d.second == y
    && d.overlapStart == Later(x.start, y.start) && d.overlapEnd == Sooner(x.end, y.end)
    && Text.AtMost(d.low, d.high) && multiset{d.low, d.high} == multiset{x.event.id, y.event.id}
    && (d.priority == Critical <==> d.overlapStart - s.now <= s.critical)
    && (d.priority == High <==> d.overlapStart - s.now > s.critical && d.overlapStart - s.now <= s.high)
    && (d.priority == Routine <==> d.overlapStart - s.now > s.critical && d.overlapStart - s.now > s.high)
  }

  lemma {:induction false} DescriptionSpeaks(a: Interval, b: Interval, s: Setting)
    requires a.start <= b.start
    ensures SpeaksOf(Describe(a, b, s), a, b, s)
  {
    Text.Total(a.event.id, b.event.id);
  }

  lemma {:induction false} ShownPairs(xs: seq<Interval>, pairs: seq<(nat, nat)>, s: Setting)
    requires InRange(xs, pairs)
    requires forall p :: p in pairs ==> p.0 < |xs| && p.1 < |xs| && xs[p.0].start <= xs[p.1].start
    ensures |Described(xs, pairs, s)| == |pairs|
    ensures forall k :: 0 <= k < |pairs| ==>
      pairs[k].0 < |xs| && pairs[k].1 < |xs| && SpeaksOf(Described(xs, pairs, s)[k], xs[pairs[k].0], xs[pairs[k].1], s)
  {
    forall k | 0 <= k < |pairs|
      ensures pairs[k].0 < |xs| && pairs[k].1 < |xs|
      ensures SpeaksOf(Described(xs, pairs, s)[k], xs[pairs[k].0], xs[pairs[k].1], s)
    {
      assert pairs[k] in pairs;
      DescriptionSpeaks(xs[pairs[k].0], xs[pairs[k].1], s);
    }
  }

  /** Two events of the timeline conflict: the earlier one still runs when the later one
      starts, and they are not both all-day. */
  ghost predicate InConflict(xs: seq<Interval>, i: nat, j: nat)
  {
    i < j < |xs| && xs[j].start < xs[i].end && (!xs[i].allDay || !xs[j].allDay)
  }

  lemma {:induction false} PairsConflict(events: seq<Event>, s: Setting)
    ensures var (xs, pairs) := (Timeline(events, s), Pairs(Timeline(events, s), |Timeline(events, s)|));
      && (forall i: nat, j: nat :: (i, j) in pairs <==> InConflict(xs, i, j))
      && InOrder(pairs)
      && (forall p :: p in pairs ==> p.0 < |xs| && p.1 < |xs| && xs[p.0].start <= xs[p.1].start)
  {
    var xs := Timeline(events, s);
    var pairs := Pairs(xs, |xs|);
    PairsAreTheClashes(xs, |xs|);
    TimelineFacts(events, s);
    forall p | p in pairs ensures p.0 < |xs| && p.1 < |xs| && xs[p.0].start <= xs[p.1].start {
      assert (p.0, p.1) in pairs;
      assert ByStart()(xs[p.0], xs[p.1]);
    }
  }

  /** A report lists its conflicts with the intervals they are about. */
  ghost predicate Lists(xs: seq<Interval>, pairs: seq<(nat, nat)>, s: Setting, r: Report)
  {
    && |r.detections| <= |pairs|
    && forall k :: 0 <= k < |r.detections| ==>
         pairs[k].0 < |xs| && pairs[k].1 < |xs| && SpeaksOf(r.detections[k], xs[pairs[k].0], xs[pairs[k].1], s)
  }

  lemma {:induction false} ReportLists(xs: seq<Interval>, pairs: seq<(nat, nat)>, s: Setting, r: Report)
    requires InRange(xs, pairs)
    requires forall p :: p in pairs ==> p.0 < |xs| && p.1 < |xs| && xs[p.0].start <= xs[p.1].start
    requires r.resolutionSafe <==> |pairs| <= MAX_CONFLICTS
    requires r.detections == Described(xs, if r.resolutionSafe then pairs else pairs[..MAX_CONFLICTS], s)
    ensures Lists(xs, pairs, s, r)
    ensures |r.detections| == (if |pairs| <= 1000 then |pairs| else 1000)
  {
    var shown := if r.resolutionSafe then pairs else pairs[..1000];
    assert forall p :: p in shown ==> p in pairs;
    ShownPairs(xs, shown, s);
  }

  /** The whole report, without reference to how it is computed: over the committed times
      of the events in order it lists the conflicts by later and then by earlier event, all
      of them, or the first thousand with the warning that some are missing. */
  lemma {:induction false} ReportSaysItAll(events: seq<Event>, s: Setting, r: Report)
    requires Reports(Timeline(events, s), s, r)
    ensures var (xs, pairs) := (Timeline(events, s), Pairs(Timeline(events, s), |Timeline(events, s)|));
      && (forall i: nat, j: nat :: (i, j) in pairs <==> InConflict(xs, i, j))
      && InOrder(pairs)
      && Lists(xs, pairs, s, r)
      && (r.resolutionSafe <==> |pairs| <= 1000)
      && |r.detections| == (if |pairs| <= 1000 then |pairs| else 1000)
  {
    var xs := Timeline(events, s);
    var pairs := Pairs(xs, |xs|);
    PairsConflict(events, s);
    ReportLists(xs, pairs, s, r);
  }

  /** Every conflict of a report joins two committed times of the events that conflict. */
  lemma {:induction false} ConflictIsReal(events: seq<Event>, s: Setting, r: Report, k: nat)
    requires Reports(Timeline(events, s), s, r) && k < |r.detections|
    ensures var d := r.detections[k];
      && d.first.event in events && CommittedTime(d.first, s)
      && d.second.event in events && CommittedTime(d.second, s)
      && d.first.start <= d.second.start < d.first.end && (!d.first.allDay || !d.second.allDay)
      && SpeaksOf(d, d.first, d.second, s)
      && d.overlapEnd > s.now
  {
    var xs := Timeline(events, s);
    var pairs := Pairs(xs, |xs|);
    ReportSaysItAll(events, s, r);
    PairsConflict(events, s);
    TimelineCommits(events, s);
    var p := pairs[k];
    assert p in pairs && (p.0, p.1) in pairs;
    assert SpeaksOf(r.detections[k], xs[p.0], xs[p.1], s);
  }
}
