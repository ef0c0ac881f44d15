/** Loads over runs: what they return, and that they lose nothing. */
module CredentialLoads {
  import opened Situations
  import opened Credentials
  import opened CredentialRuns

  // ------------------------------------------------------- what a load returns

  /** The copy a load reads: without a marker the keyring's and else the file's, under a
      live marker the one it names. */
  predicate Serves(d: Disk, a: Answer, copy: Envelope)
  {
    && copy.payload.parses
    && (d.marker == None ==>
          || (a == Works && d.keyring == Some(copy))
          || (a == Works && d.keyring == None && d.file == Some(copy))
          || (a == Missing && d.file == Some(copy)))
    && (d.marker != None ==>
          && !d.marker.value.tombstone && copy.version == d.marker.value.version
          && ((d.marker.value.backend == InKeyring && a == Works && d.keyring == Some(copy)) ||
              (d.marker.value.backend == InFile && (a == Works || a == Missing) && d.file == Some(copy))))
  }

  lemma {:induction false} LoadFindsExactly(d: Disk, a: Answer, p: Payload)
    ensures LoadResult(d, a) == Found(p) <==> exists copy :: Serves(d, a, copy) && copy.payload == p
  {
    if LoadResult(d, a) == Found(p) {
      var copy := if d.keyring.Some? && Serves(d, a, d.keyring.value) then d.keyring.value else d.file.value;
      assert Serves(d, a, copy) && copy.payload == p;
    }
  }

  /** A load reports that the keyring cannot be asked exactly when it would have to ask
      it: without a marker, to clear a tombstone, for a copy the marker puts there, or to
      promote a readable copy in the file. */
  lemma {:induction false} LoadFailsExactly(d: Disk, a: Answer)
    ensures LoadResult(d, a) == Unavailable <==>
      match d.marker
      case None => a == Fails || a == Refuses
      case Some(m) =>
        if m.tombstone || m.backend == Nowhere then a == Fails
        else if m.backend == InKeyring then a != Works
        else
          && (a == Fails || a == Refuses)
          && d.file.Some? && d.file.value.payload.parses && d.file.value.version == m.version
  {
  }

  // ----------------------------------------------------- loads change nothing

  /** On every disk, with a marker or without, a load that finds a credential leaves it to
      be found by the next load under the same answer, wherever it stops. */
  lemma {:induction false} LoadIsStable(d: Disk, t: Try)
    requires t.op.Loading? && LoadResult(d, t.op.answer).Found?
    ensures LoadResult(Tried(d, t), t.op.answer) == LoadResult(d, t.op.answer)
  {
    Unrolled(d, Written(d, t));
  }

  /** A load without a keyring adopts the file although the keyring holds another
      credential. */
  predicate AdoptsTheOther(d: Disk, t: Try)
  {
    && d.marker == None && t.op.Loading? && t.op.answer == Missing && t.reached > 0
    && d.keyring.Some? && Parses(d.file) && d.file.value.payload != d.keyring.value.payload
  }

  /** A load under any answer keeps what a load with a working keyring finds, if and only
      if it does not adopt the other of two copies without a marker. */
  lemma {:induction false} LoadKeepsExactly(d: Disk, t: Try)
    requires t.op.Loading? && LoadResult(d, Works).Found?
    ensures LoadResult(Tried(d, t), Works) == LoadResult(d, Works) <==> !AdoptsTheOther(d, t)
  {
    Unrolled(d, Written(d, t));
  }

  // ------------------------------------------------------- saves survive loads

  /** The credential is found, and there are no two copies without a marker. */
  predicate Kept(d: Disk, p: Payload)
  {
    LoadResult(d, Works) == Found(p) && (d.marker == None ==> d.keyring == None || d.file == None)
  }

  lemma {:induction false} LoadKeeps(d: Disk, t: Try, p: Payload)
    requires t.op.Loading? && Kept(d, p)
    ensures Kept(Tried(d, t), p)
  {
    Unrolled(d, Written(d, t));
  }

  lemma {:induction false} LoadsKeep(d: Disk, loads: seq<Try>, p: Payload)
    requires Kept(d, p) && forall i :: 0 <= i < |loads| ==> loads[i].op.Loading?
    ensures Kept(TriedAll(d, loads), p)
  {
    if loads != [] {
      var front := loads[..|loads| - 1];
      LoadsKeep(d, front, p);
      LoadKeeps(TriedAll(d, front), loads[|loads| - 1], p);
    }
  }

  /** The first save of all, stopped anywhere after its first write, is what every later
      load with a working keyring finds, after any number of loads under any answers that
      stop anywhere. */
  lemma {:induction false} FirstSaveSurvivesLoads(t: Try, loads: seq<Try>)
    requires t.op.Saving? && t.op.payload.refreshable && t.op.payload.parses && t.reached > 0
    requires t.op.answer == Works || t.op.answer == Missing
    requires forall i :: 0 <= i < |loads| ==> loads[i].op.Loading?
    ensures LoadResult(TriedAll(Tried(NEW_WORLD.disk, t), loads), Works) == Found(t.op.payload)
  {
    Unrolled(NEW_WORLD.disk, Written(NEW_WORLD.disk, t));
    LoadsKeep(Tried(NEW_WORLD.disk, t), loads, t.op.payload);
  }

  /** A save that writes its marker is what every later load finds, whatever was stored
      before, live or deleted; without a keyring it is read back from the file. */
  lemma {:induction false} SaveSurvivesLoads(d: Disk, t: Try, loads: seq<Try>)
    requires t.op.Saving? && t.op.payload.refreshable && t.op.payload.parses && t.reached >= 2
    requires t.op.answer == Works || t.op.answer == Missing
    requires forall i :: 0 <= i < |loads| ==> loads[i].op.Loading?
    ensures LoadResult(TriedAll(Tried(d, t), loads), Works) == Found(t.op.payload)
    ensures t.op.answer == Missing ==> LoadResult(Tried(d, t), Missing) == Found(t.op.payload)
    ensures t.op.answer == Works && t.reached >= 3 ==> Tried(d, t).file == None
  {
    Unrolled(d, Written(d, t));
    LoadsKeep(Tried(d, t), loads, t.op.payload);
  }

  /** A payload without the required scopes, or a keyring that fails, saves nothing. */
  lemma {:induction false} RefusedSave(d: Disk, t: Try)
    requires t.op.Saving?
    requires !t.op.payload.refreshable || t.op.answer == Fails || t.op.answer == Refuses
    ensures Tried(d, t) == d
  {
    assert Written(d, t) == [];
  }

  // ------------------------------------------------------------- moving copies

  /** A load that runs to its end with a working keyring moves the copy in the file to the
      keyring, under its version. */
  lemma {:induction false} PromotionCompletes(d: Disk, t: Try, m: Marker)
    requires t.op == Loading(Works) && t.reached >= 3
    requires d.marker == Some(m) && m.backend == InFile && LoadResult(d, Works).Found?
    ensures Tried(d, t) == Disk(d.file, None, Some(Marker(m.version, InKeyring, false)))
  {
    Unrolled(d, Written(d, t));
  }

  /** Over a tombstone a load clears the file, and the keyring when it works. */
  lemma {:induction false} LoadClearsTombstone(d: Disk, t: Try)
    requires t.op.Loading? && Tombstoned(d) && t.reached >= 2
    ensures Tried(d, t) == Disk(if t.op.answer == Works then None else d.keyring, None, d.marker)
  {
    Unrolled(d, Written(d, t));
  }

  /** A delete that runs to its end leaves a tombstone of the next epoch; it removes the
      file unless the keyring fails, and the keyring copy when the keyring works. */
  lemma {:induction false} DeleteCompletes(d: Disk, t: Try)
    requires t.op.Deleting? && !Superseded(d, t.op.loaded) && t.reached >= 3
    ensures var e := Tried(d, t);
      && e.marker == Some(Marker(
           Version(if d.marker == None then 1 else d.marker.value.version.epoch + 1, t.op.revision), Nowhere, true))
      && e.keyring == (if t.op.answer == Works then None else d.keyring)
      && e.file == (if t.op.answer == Fails then d.file else None)
  {
    Unrolled(d, Written(d, t));
  }
}
