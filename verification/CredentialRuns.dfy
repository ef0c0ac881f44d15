/** Credentials over runs with crashes: which payload a load can return, what a
    tombstone guarantees, and when a stopped operation loses nothing. */
module CredentialRuns {
  import opened Situations
  import opened Credentials

  datatype Op =
    | Saving(payload: Payload, revision: string, answer: Answer)
    | Loading(answer: Answer)
    | Deleting(loaded: Option<Version>, revision: string, answer: Answer)

  function Plan(d: Disk, op: Op): seq<Write>
  {
    match op
    case Saving(payload, revision, a) => SavePlan(d, payload, revision, a)
    case Loading(a) => LoadPlan(d, a)
    case Deleting(loaded, revision, a) => DeletePlan(d, loaded, revision, a)
  }

  // -------------------------------------------- any interleaving of the writes

  /** The devices, the payload of every save begun so far, every revision drawn, the
      operations begun so far and what each of them still has to write. */
  datatype World = World(
    disk: Disk, saved: map<Version, Payload>, drawn: set<string>, begun: seq<Op>, pending: seq<seq<Write>>)

  /** An operation begins, or one begun makes its next write; one that crashed or
      raised simply never continues. */
  datatype Act = Begins(op: Op) | Continues(which: nat)

  const NEW_WORLD: World := World(Disk(None, None, None), map[], {}, [], [])

  function Next(w: World, act: Act): World
  {
    match act
    case Begins(op) =>
      World(
        w.disk,
        if op.Saving? then w.saved[Version(NextEpoch(w.disk), op.revision) := op.payload] else w.saved,
        if op.Loading? then w.drawn else w.drawn + {op.revision},
        w.begun + [op],
        w.pending + [Plan(w.disk, op)])
    case Continues(which) =>
      if which >= |w.pending| || w.pending[which] == [] then w
      else w.(disk := Apply(w.disk, w.pending[which][0]),
              pending := w.pending[which := w.pending[which][1..]])
  }

  function Run(w: World, acts: seq<Act>): World
  {
    if acts == [] then w else Next(Run(w, acts[..|acts| - 1]), acts[|acts| - 1])
  }

  predicate FreshRevision(w: World, act: Act)
  {
    act.Begins? && !act.op.Loading? ==> act.op.revision !in w.drawn
  }

  ghost predicate FreshRun(w: World, acts: seq<Act>)
  {
    acts == [] ||
    (FreshRun(w, acts[..|acts| - 1]) && FreshRevision(Run(w, acts[..|acts| - 1]), acts[|acts| - 1]))
  }

  /** A write tells the truth about the saves begun so far. */
  predicate Honest(write: Write, saved: map<Version, Payload>, drawn: set<string>)
  {
    match write
    case SetKeyring(e) => e.version in saved && saved[e.version] == e.payload
    case SetFile(e) => e.version in saved && saved[e.version] == e.payload
    case SetMarker(m) =>
      && m.version.revision in drawn
      && (m.tombstone || m.backend == Nowhere <==> m.version !in saved)
    case DropKeyring => true
    case DropFile => true
  }

  predicate HonestDisk(w: World)
  {
    && (w.disk.keyring.Some? ==> Honest(SetKeyring(w.disk.keyring.value), w.saved, w.drawn))
    && (w.disk.file.Some? ==> Honest(SetFile(w.disk.file.value), w.saved, w.drawn))
    && (w.disk.marker.Some? ==> Honest(SetMarker(w.disk.marker.value), w.saved, w.drawn))
  }

  ghost predicate Sound(w: World)
  {
    && HonestDisk(w)
    && (forall v :: v in w.saved ==> v.revision in w.drawn)
    && (forall i, k :: 0 <= i < |w.pending| && 0 <= k < |w.pending[i]| ==>
          Honest(w.pending[i][k], w.saved, w.drawn))
  }

  lemma {:induction false} HonestGrows(write: Write, w: World, op: Op)
    requires Honest(write, w.saved, w.drawn) && FreshRevision(w, Begins(op))
    requires forall v :: v in w.saved ==> v.revision in w.drawn
    ensures var x := Next(w, Begins(op)); Honest(write, x.saved, x.drawn)
  {
    if op.Saving? {
      assert Version(NextEpoch(w.disk), op.revision) !in w.saved;
    }
  }

  lemma {:induction false} PlanIsHonest(w: World, op: Op)
    requires Sound(w) && FreshRevision(w, Begins(op))
    ensures var x := Next(w, Begins(op));
      forall k :: 0 <= k < |Plan(w.disk, op)| ==> Honest(Plan(w.disk, op)[k], x.saved, x.drawn)
  {
  }

  lemma {:induction false} SoundHolds(w: World, act: Act)
    requires Sound(w) && FreshRevision(w, act)
    ensures Sound(Next(w, act))
  {
    var x := Next(w, act);
    match act
    case Begins(op) =>
      PlanIsHonest(w, op);
      if w.disk.keyring.Some? { HonestGrows(SetKeyring(w.disk.keyring.value), w, op); }
      if w.disk.file.Some? { HonestGrows(SetFile(w.disk.file.value), w, op); }
      if w.disk.marker.Some? { HonestGrows(SetMarker(w.disk.marker.value), w, op); }
      forall i, k | 0 <= i < |x.pending| && 0 <= k < |x.pending[i]|
        ensures Honest(x.pending[i][k], x.saved, x.drawn)
      {
        if i < |w.pending| { HonestGrows(w.pending[i][k], w, op); }
      }
    case Continues(which) =>
  }

  lemma {:induction false} SoundInEveryRun(acts: seq<Act>)
    requires FreshRun(NEW_WORLD, acts)
    ensures Sound(Run(NEW_WORLD, acts))
  {
    if acts != [] {
      var front := acts[..|acts| - 1];
      SoundInEveryRun(front);
      SoundHolds(Run(NEW_WORLD, front), acts[|acts| - 1]);
    }
  }

  /** However operations of any number of holders interleave and wherever they stop,
      once a marker exists a load returns nothing but the payload of the very save
      whose epoch and revision the marker names, and nothing under a tombstone. */
  lemma {:induction false} LoadReturnsMarkedSave(acts: seq<Act>, a: Answer)
    requires FreshRun(NEW_WORLD, acts) && Run(NEW_WORLD, acts).disk.marker.Some?
    ensures var w := Run(NEW_WORLD, acts);
      var m := w.disk.marker.value;
      && (LoadResult(w.disk, a).Found? ==> m.version in w.saved && w.saved[m.version] == LoadResult(w.disk, a).payload)
      && (Tombstoned(w.disk) <==> m.version !in w.saved)
      && (Tombstoned(w.disk) ==> !LoadResult(w.disk, a).Found?)
  {
    SoundInEveryRun(acts);
  }

  // ---- what ends a tombstone, and how a version can return

  predicate LiveMarker(write: Write)
  {
    write.SetMarker? && !write.marker.tombstone && write.marker.backend != Nowhere
  }

  predicate MarksVersion(write: Write, v: Version)
  {
    write.SetMarker? && write.marker.version == v
  }

  /** The act makes the next write of operation `which`, and it is `write`. */
  predicate Performs(w: World, act: Act, write: Write)
  {
    && act.Continues? && act.which < |w.pending| && w.pending[act.which] != []
    && w.pending[act.which][0] == write
  }

  ghost predicate Aligned(w: World)
  {
    |w.begun| == |w.pending|
  }

  /** The operation an act continues began after `start`. */
  predicate BegunSince(start: World, act: Act)
  {
    act.Continues? && act.which >= |start.pending|
  }

  /** The act writes a live marker for a save, or for an operation begun before. */
  ghost predicate Revives(start: World, w: World, act: Act)
  {
    exists write :: Performs(w, act, write) && LiveMarker(write)
      && (!BegunSince(start, act) || (act.which < |w.begun| && w.begun[act.which].Saving?))
  }

  /** Under a tombstone, the loads and deletes begun since have no live marker left
      to write. */
  ghost predicate LateLoadsHarmless(start: World, w: World)
  {
    && Aligned(w) && |start.pending| <= |w.pending|
    && forall i, k :: |start.pending| <= i < |w.pending| && 0 <= k < |w.pending[i]| && !w.begun[i].Saving? ==>
         !LiveMarker(w.pending[i][k])
  }

  lemma {:induction false} NoLiveMarkerPlanned(d: Disk, op: Op, k: nat)
    requires Tombstoned(d) && !op.Saving? && k < |Plan(d, op)|
    ensures !LiveMarker(Plan(d, op)[k])
  {
  }

  lemma {:induction false} HarmlessStep(start: World, w: World, act: Act)
    requires LateLoadsHarmless(start, w) && Tombstoned(w.disk)
    ensures LateLoadsHarmless(start, Next(w, act))
    ensures Tombstoned(Next(w, act).disk) <==> !Revives(start, w, act)
  {
    match act
    case Begins(op) =>
      if !op.Saving? {
        forall k: nat | k < |Plan(w.disk, op)| ensures !LiveMarker(Plan(w.disk, op)[k]) {
          NoLiveMarkerPlanned(w.disk, op, k);
        }
      }
    case Continues(which) =>
      if which < |w.pending| && w.pending[which] != [] {
        assert Performs(w, act, w.pending[which][0]);
      }
  }

  ghost predicate NeverRevived(start: World, acts: seq<Act>)
  {
    acts == [] ||
    (NeverRevived(start, acts[..|acts| - 1]) && !Revives(start, Run(start, acts[..|acts| - 1]), acts[|acts| - 1]))
  }

  lemma {:induction false} HarmlessRun(start: World, acts: seq<Act>)
    requires Aligned(start) && Tombstoned(start.disk) && NeverRevived(start, acts)
    ensures LateLoadsHarmless(start, Run(start, acts)) && Tombstoned(Run(start, acts).disk)
  {
    if acts != [] {
      HarmlessRun(start, acts[..|acts| - 1]);
      HarmlessStep(start, Run(start, acts[..|acts| - 1]), acts[|acts| - 1]);
    }
  }

  /** However operations interleave, a tombstone stands, and no load yields anything,
      until a live marker is written for a save or for an operation begun before it;
      and such a write does end it. */
  lemma {:induction false} TombstoneEndsExactlyBy(start: World, acts: seq<Act>, next: Act, a: Answer)
    requires Aligned(start) && Tombstoned(start.disk) && NeverRevived(start, acts)
    ensures var w := Run(start, acts);
      && Tombstoned(w.disk) && !LoadResult(w.disk, a).Found?
      && (Tombstoned(Next(w, next).disk) <==> !Revives(start, w, next))
  {
    HarmlessRun(start, acts);
    HarmlessStep(start, Run(start, acts), next);
  }

  // ---- the race that revives a delete

  const SECRET: Payload := Payload("p", true, true)
  const FIRST: Version := Version(1, "r1")
  const TOMB: Marker := Marker(Version(2, "r2"), Nowhere, true)
  const PROMOTION: seq<Write> := [
    SetKeyring(Envelope(FIRST, SECRET)), SetMarker(Marker(FIRST, InKeyring, false)), DropFile]

  const SAVES: seq<Act> := [Begins(Saving(SECRET, "r1", Missing)), Continues(0), Continues(0)]
  const DELETES: seq<Act> := [Begins(Deleting(None, "r2", Works)), Continues(2), Continues(2), Continues(2)]

  /** A save to the file, a load that plans its promotion, a whole delete, and then the
      first two writes of the promotion. */
  const RACE: seq<Act> := SAVES + [Begins(Loading(Works))] + DELETES + [Continues(1), Continues(1)]

  lemma {:induction false} RunConcat(w: World, acts: seq<Act>, act: Act)
    ensures Run(w, acts + [act]) == Next(Run(w, acts), act)
    ensures FreshRun(w, acts + [act]) <==> FreshRun(w, acts) && FreshRevision(Run(w, acts), act)
  {
    assert (acts + [act])[..|acts|] == acts;
  }

  lemma {:induction false} AfterSaves()
    ensures FreshRun(NEW_WORLD, SAVES)
    ensures Run(NEW_WORLD, SAVES) == World(
      Disk(None, Some(Envelope(FIRST, SECRET)), Some(Marker(FIRST, InFile, false))),
      map[FIRST := SECRET], {"r1"}, [Saving(SECRET, "r1", Missing)], [[]])
  {
    var e := Envelope(FIRST, SECRET);
    var (first, second) := (SetFile(e), SetMarker(Marker(FIRST, InFile, false)));
    RunConcat(NEW_WORLD, [], SAVES[0]);
    RunConcat(NEW_WORLD, [SAVES[0]], SAVES[1]);
    RunConcat(NEW_WORLD, [SAVES[0], SAVES[1]], SAVES[2]);
    assert [] + [SAVES[0]] == [SAVES[0]] && [SAVES[0]] + [SAVES[1]] == [SAVES[0], SAVES[1]];
    assert [SAVES[0], SAVES[1]] + [SAVES[2]] == SAVES;
    var w := Run(NEW_WORLD, [SAVES[0]]);
    assert w.pending == [[first, second]] && w.begun == [SAVES[0].op];
    var x := Run(NEW_WORLD, [SAVES[0], SAVES[1]]);
    assert x == w.(disk := Apply(w.disk, first), pending := [[second]]) by { assert [first, second][1..] == [second]; }
    assert [second][1..] == [];
  }

  /** The load reads the live marker and plans its promotion. */
  lemma {:induction false} AfterLoad()
    ensures var acts := SAVES + [Begins(Loading(Works))];
      var (before, w) := (Run(NEW_WORLD, SAVES), Run(NEW_WORLD, acts));
      && FreshRun(NEW_WORLD, acts)
      && w.disk == before.disk && w.drawn == {"r1"}
      && Aligned(w) && w.pending == [[], PROMOTION]
  {
    AfterSaves();
    RunConcat(NEW_WORLD, SAVES, Begins(Loading(Works)));
  }

  /** A delete that runs to its end at once leaves the tombstone and no copy. */
  lemma {:induction false} WholeDelete(w: World, revision: string)
    requires Aligned(w) && w.disk.marker.Some? && revision !in w.drawn
    ensures var (n, d) := (|w.pending|, Begins(Deleting(None, revision, Works)));
      var x := Next(Next(Next(Next(w, d), Continues(n)), Continues(n)), Continues(n));
      && x.disk == Disk(None, None, Some(Marker(Version(NextEpoch(w.disk), revision), Nowhere, true)))
      && Aligned(x) && |x.pending| == n + 1 && x.pending[..n] == w.pending && x.pending[n] == []
  {
  }

  lemma {:induction false} AfterDelete()
    ensures var acts := SAVES + [Begins(Loading(Works))] + DELETES;
      var w := Run(NEW_WORLD, acts);
      && FreshRun(NEW_WORLD, acts)
      && w.disk == Disk(None, None, Some(TOMB)) && Aligned(w) && |w.pending| == 3 && w.pending[1] == PROMOTION
  {
    var acts := SAVES + [Begins(Loading(Works))];
    AfterSaves();
    AfterLoad();
    WholeDelete(Run(NEW_WORLD, acts), "r2");
    RunConcat(NEW_WORLD, acts, DELETES[0]);
    RunConcat(NEW_WORLD, acts + [DELETES[0]], DELETES[1]);
    RunConcat(NEW_WORLD, acts + [DELETES[0]] + [DELETES[1]], DELETES[2]);
    RunConcat(NEW_WORLD, acts + [DELETES[0]] + [DELETES[1]] + [DELETES[2]], DELETES[3]);
    assert acts + [DELETES[0]] + [DELETES[1]] + [DELETES[2]] + [DELETES[3]] == acts + DELETES;
    var w := Run(NEW_WORLD, acts + DELETES);
    assert w.pending[..2][1] == w.pending[1];
  }

  /** Two writes of a pending promotion bring its credential back. */
  lemma {:induction false} PromotionWrites(w: World)
    requires Aligned(w) && |w.pending| == 3 && w.pending[1] == PROMOTION
    ensures var x := Next(Next(w, Continues(1)), Continues(1));
      LoadResult(x.disk, Works) == Found(SECRET)
  {
  }

  /** A load that began before a delete can revive the credential after it. */
  lemma {:induction false} PromotionCanReviveADelete()
    ensures var acts := SAVES + [Begins(Loading(Works))] + DELETES;
      && FreshRun(NEW_WORLD, RACE) && acts <= RACE
      && Tombstoned(Run(NEW_WORLD, acts).disk)
      && LoadResult(Run(NEW_WORLD, RACE).disk, Works) == Found(SECRET)
  {
    var acts := SAVES + [Begins(Loading(Works))] + DELETES;
    AfterDelete();
    PromotionWrites(Run(NEW_WORLD, acts));
    RunConcat(NEW_WORLD, acts, Continues(1));
    RunConcat(NEW_WORLD, acts + [Continues(1)], Continues(1));
    assert acts + [Continues(1)] + [Continues(1)] == RACE;
  }

  /** Operations begun since have no marker of version `v` to write. */
  ghost predicate LateForeign(start: World, w: World, v: Version)
  {
    && Aligned(w) && |start.pending| <= |w.pending| && v.revision in w.drawn
    && w.disk.marker.Some? && w.disk.marker.value.version != v
    && forall i, k :: |start.pending| <= i < |w.pending| && 0 <= k < |w.pending[i]| ==>
         !MarksVersion(w.pending[i][k], v)
  }

  ghost predicate Restores(start: World, w: World, act: Act, v: Version)
  {
    exists write :: Performs(w, act, write) && MarksVersion(write, v) && !BegunSince(start, act)
  }

  lemma {:induction false} ForeignPlanned(w: World, op: Op, v: Version, k: nat)
    requires w.disk.marker.Some? && w.disk.marker.value.version != v && v.revision in w.drawn
    requires FreshRevision(w, Begins(op)) && k < |Plan(w.disk, op)|
    ensures !MarksVersion(Plan(w.disk, op)[k], v)
  {
  }

  lemma {:induction false} ForeignStep(start: World, w: World, act: Act, v: Version)
    requires LateForeign(start, w, v) && FreshRevision(w, act) && !Restores(start, w, act, v)
    ensures LateForeign(start, Next(w, act), v)
  {
    match act
    case Begins(op) =>
      forall k: nat | k < |Plan(w.disk, op)| ensures !MarksVersion(Plan(w.disk, op)[k], v) {
        ForeignPlanned(w, op, v, k);
      }
    case Continues(which) =>
      if which < |w.pending| && w.pending[which] != [] {
        assert Performs(w, act, w.pending[which][0]);
      }
  }

  ghost predicate NeverRestored(start: World, acts: seq<Act>, v: Version)
  {
    acts == [] ||
    (var (front, w) := (acts[..|acts| - 1], Run(start, acts[..|acts| - 1]));
     && NeverRestored(start, front, v)
     && FreshRevision(w, acts[|acts| - 1]) && !Restores(start, w, acts[|acts| - 1], v))
  }

  lemma {:induction false} ForeignRun(start: World, acts: seq<Act>, v: Version)
    requires LateForeign(start, start, v) && NeverRestored(start, acts, v)
    ensures LateForeign(start, Run(start, acts), v)
  {
    if acts != [] {
      ForeignRun(start, acts[..|acts| - 1], v);
      ForeignStep(start, Run(start, acts[..|acts| - 1]), acts[|acts| - 1], v);
    }
  }

  /** However operations interleave, once the marker names another version, a delete
      by a holder of the replaced one plans no write, until an operation begun before
      the replacement writes its marker of that version back. */
  lemma {:induction false} StaleDeleteInterleaved(start: World, acts: seq<Act>, v: Version, revision: string, a: Answer)
    requires Aligned(start) && start.disk.marker.Some? && start.disk.marker.value.version != v
    requires v.revision in start.drawn && NeverRestored(start, acts, v)
    ensures var w := Run(start, acts);
      var x := Next(w, Begins(Deleting(Some(v), revision, a)));
      x.disk == w.disk && x.pending == w.pending + [[]]
  {
    ForeignRun(start, acts, v);
  }

  // ------------------------------------- whole operations that stop part-way

  /** One operation at a time, stopped after `reached` of its writes. */
  datatype Try = Try(op: Op, reached: nat)

  function Written(d: Disk, t: Try): seq<Write>
  {
    var plan := Plan(d, t.op);
    if t.reached <= |plan| then plan[..t.reached] else plan
  }

  function Tried(d: Disk, t: Try): Disk
  {
    After(d, Written(d, t))
  }

  function TriedAll(d: Disk, tries: seq<Try>): Disk
  {
    if tries == [] then d
    else Tried(TriedAll(d, tries[..|tries| - 1]), tries[|tries| - 1])
  }

  /** The devices after at most three writes, spelled out. */
  lemma {:induction false} Unrolled(d: Disk, writes: seq<Write>)
    requires |writes| <= 3
    ensures After(d, writes) ==
      if |writes| == 0 then d
      else if |writes| == 1 then Apply(d, writes[0])
      else if |writes| == 2 then Apply(Apply(d, writes[0]), writes[1])
      else Apply(Apply(Apply(d, writes[0]), writes[1]), writes[2])
  {
    if |writes| == 1 {
      assert writes == [writes[0]];
      UpToThree(d, writes[0], writes[0], writes[0]);
    } else if |writes| == 2 {
      assert writes == [writes[0], writes[1]];
      UpToThree(d, writes[0], writes[1], writes[0]);
    } else if |writes| == 3 {
      assert writes == [writes[0], writes[1], writes[2]];
      UpToThree(d, writes[0], writes[1], writes[2]);
    }
  }

  // ---- tombstones

  predicate ReachesMarker(d: Disk, t: Try)
  {
    t.op.Saving? && |Written(d, t)| >= 2
  }

  lemma {:induction false} TombstoneKept(d: Disk, t: Try)
    requires Tombstoned(d) && !ReachesMarker(d, t)
    ensures Tombstoned(Tried(d, t))
  {
    Unrolled(d, Written(d, t));
  }

  /** After a tombstone, and until some save writes its marker, no load yields a
      credential, whatever else runs and wherever it stops. */
  lemma {:induction false} DeletedStaysDeleted(d: Disk, tries: seq<Try>, a: Answer)
    requires Tombstoned(d)
    requires forall i :: 0 <= i < |tries| ==> !ReachesMarker(TriedAll(d, tries[..i]), tries[i])
    ensures Tombstoned(TriedAll(d, tries))
    ensures !LoadResult(TriedAll(d, tries), a).Found?
  {
    if tries != [] {
      var front := tries[..|tries| - 1];
      forall i | 0 <= i < |front| ensures !ReachesMarker(TriedAll(d, front[..i]), front[i]) {
        assert front[..i] == tries[..i];
      }
      DeletedStaysDeleted(d, front, a);
      TombstoneKept(TriedAll(d, front), tries[|tries| - 1]);
    }
  }

  /** A delete that is not superseded hides the credential from its first write on;
      when it runs to its end with a working keyring no copy is left. */
  lemma {:induction false} DeleteHidesAtOnce(d: Disk, t: Try, a: Answer)
    requires t.op.Deleting? && !Superseded(d, t.op.loaded) && t.reached > 0
    ensures Tombstoned(Tried(d, t)) && !LoadResult(Tried(d, t), a).Found?
    ensures t.op.answer == Works && t.reached >= 3 ==> Tried(d, t).keyring == None && Tried(d, t).file == None
  {
    Unrolled(d, Written(d, t));
  }

  // ---- nothing is lost

  /** A load, wherever it stops, never changes what the next load returns: promotion
      from file to keyring cannot lose the credential. */
  lemma {:induction false} LoadKeepsCredential(d: Disk, t: Try)
    requires t.op.Loading? && d.marker.Some? && LoadResult(d, Works).Found?
    ensures LoadResult(Tried(d, t), Works) == LoadResult(d, Works)
    ensures Tried(d, t).marker.Some?
  {
    Unrolled(d, Written(d, t));
  }

  /** What a save leaves loadable, at every point where it can stop. The old
      credential is lost without the new one exactly when the save stops between
      overwriting the copy the marker names and writing the new marker. */
  lemma {:induction false} StoppedSave(d: Disk, t: Try)
    requires t.op.Saving? && d.marker.Some? && LoadResult(d, Works).Found?
    ensures var place := if t.op.answer == Works then InKeyring else InFile;
      LoadResult(Tried(d, t), Works) ==
      if |Written(d, t)| == 0 then LoadResult(d, Works)
      else if |Written(d, t)| >= 2 then (if t.op.payload.parses then Found(t.op.payload) else Nothing)
      else if d.marker.value.backend == place then Nothing
      else LoadResult(d, Works)
  {
    Unrolled(d, Written(d, t));
  }

  /** The first save of all is visible from its first write on, in the keyring or the
      file: the next load adopts it. */
  lemma {:induction false} FirstSaveIsAdopted(t: Try)
    requires t.op.Saving? && t.op.payload.refreshable && t.op.payload.parses && t.reached > 0
    requires t.op.answer == Works || t.op.answer == Missing
    ensures LoadResult(Tried(NEW_WORLD.disk, t), Works) == Found(t.op.payload)
    ensures t.op.answer == Missing ==> LoadResult(Tried(NEW_WORLD.disk, t), Missing) == Found(t.op.payload)
  {
    Unrolled(NEW_WORLD.disk, Written(NEW_WORLD.disk, t));
  }

  // ---- versions

  /** The marker moves to a later epoch or keeps its version. */
  predicate NotOlder(m: Marker, n: Marker)
  {
    m.version == n.version || m.version.epoch < n.version.epoch
  }

  lemma {:induction false} MarkerAdvances(d: Disk, t: Try)
    requires d.marker.Some?
    ensures Tried(d, t).marker.Some? && NotOlder(d.marker.value, Tried(d, t).marker.value)
  {
    Unrolled(d, Written(d, t));
  }

  lemma {:induction false} MarkerNeverReturns(d: Disk, tries: seq<Try>)
    requires d.marker.Some?
    ensures TriedAll(d, tries).marker.Some? && NotOlder(d.marker.value, TriedAll(d, tries).marker.value)
  {
    if tries != [] {
      MarkerNeverReturns(d, tries[..|tries| - 1]);
      MarkerAdvances(TriedAll(d, tries[..|tries| - 1]), tries[|tries| - 1]);
    }
  }

  lemma {:induction false} TriedConcat(d: Disk, first: seq<Try>, rest: seq<Try>)
    ensures TriedAll(d, first + rest) == TriedAll(TriedAll(d, first), rest)
  {
    if rest == [] {
      assert first + rest == first;
    } else {
      TriedConcat(d, first, rest[..|rest| - 1]);
      assert (first + rest)[..|first + rest| - 1] == first + rest[..|rest| - 1];
    }
  }

  lemma {:induction false} SupersededDelete(d: Disk, t: Try)
    requires t.op.Deleting? && Superseded(d, t.op.loaded)
    ensures Tried(d, t) == d
  {
    assert Written(d, t) == [];
  }

  /** A holder that loaded a version which has since been replaced deletes nothing,
      at once or after any further run: replaced versions do not come back. */
  lemma {:induction false} StaleDeleteChangesNothing(d: Disk, replaced: seq<Try>, later: seq<Try>, t: Try)
    requires d.marker.Some? && t.op.Deleting? && t.op.loaded == Some(d.marker.value.version)
    requires TriedAll(d, replaced).marker != None
    requires TriedAll(d, replaced).marker.value.version != d.marker.value.version
    ensures Tried(TriedAll(d, replaced + later), t) == TriedAll(d, replaced + later)
  {
    MarkerNeverReturns(d, replaced);
    MarkerNeverReturns(TriedAll(d, replaced), later);
    TriedConcat(d, replaced, later);
    SupersededDelete(TriedAll(d, replaced + later), t);
  }
}
