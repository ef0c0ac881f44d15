/** The credential store as single writes to keyring, file and marker. */
module Credentials {
  import opened Situations

  /** A version is never reused, because its revision is drawn at random. */
  datatype Version = Version(epoch: nat, revision: string)
  /** A credential as text: whether it is refreshable under the required scopes, which
      a save demands, and whether the text parses back into one, which a load does. */
  datatype Payload = Payload(text: string, refreshable: bool, parses: bool)
  datatype Envelope = Envelope(version: Version, payload: Payload)
  datatype Backend = InKeyring | InFile | Nowhere
  datatype Marker = Marker(version: Version, backend: Backend, tombstone: bool)

  /** What outlives a process. */
  datatype Disk = Disk(keyring: Option<Envelope>, file: Option<Envelope>, marker: Option<Marker>)

  datatype Write =
    | SetKeyring(envelope: Envelope)
    | DropKeyring
    | SetFile(envelope: Envelope)
    | DropFile
    | SetMarker(marker: Marker)

  /** How the keyring answers one call: it works, there is none, it fails, or it
      refuses to delete. */
  datatype Answer = Works | Missing | Fails | Refuses

  datatype Loaded = Found(payload: Payload) | Nothing | Unavailable

  function Apply(d: Disk, w: Write): Disk
  {
    match w
    case SetKeyring(envelope) => d.(keyring := Some(envelope))
    case DropKeyring => d.(keyring := None)
    case SetFile(envelope) => d.(file := Some(envelope))
    case DropFile => d.(file := None)
    case SetMarker(marker) => d.(marker := Some(marker))
  }

  function After(d: Disk, writes: seq<Write>): Disk
    decreases |writes|
  {
    if writes == [] then d else After(Apply(d, writes[0]), writes[1..])
  }

  lemma UpToThree(d: Disk, a: Write, b: Write, c: Write)
    ensures After(d, [a]) == Apply(d, a)
    ensures After(d, [a, b]) == Apply(Apply(d, a), b)
    ensures After(d, [a, b, c]) == Apply(Apply(Apply(d, a), b), c)
  {
    var (x, y) := (Apply(d, a), Apply(Apply(d, a), b));
    assert [a, b][1..] == [b] && [a, b, c][1..] == [b, c] && [b, c][1..] == [c];
    assert After(d, [a]) == x;
    assert After(x, [b]) == y;
    assert After(y, [c]) == Apply(y, c);
    assert After(x, [b, c]) == After(y, [c]);
  }

  function NextEpoch(d: Disk): nat
  {
    if d.marker.None? then 1 else d.marker.value.version.epoch + 1
  }

  // -------------------------------------------------------------------- plans

  // Every operation is a sequence of single writes; a crash or a storage error stops
  // it after any of them.

  function SavePlan(d: Disk, payload: Payload, revision: string, a: Answer): seq<Write>
  {
    var version := Version(NextEpoch(d), revision);
    var envelope := Envelope(version, payload);
    if !payload.refreshable then [] else
    match a
    case Works => [SetKeyring(envelope), SetMarker(Marker(version, InKeyring, false)), DropFile]
    case Missing => [SetFile(envelope), SetMarker(Marker(version, InFile, false))]
    case Fails => []
    case Refuses => []
  }

  predicate Tombstoned(d: Disk)
  {
    d.marker.Some? && (d.marker.value.tombstone || d.marker.value.backend == Nowhere)
  }

  predicate Parses(copy: Option<Envelope>)
  {
    copy.Some? && copy.value.payload.parses
  }

  /** The copy holds a readable credential of the version the marker names. */
  predicate Matches(copy: Option<Envelope>, m: Marker)
  {
    Parses(copy) && copy.value.version == m.version
  }

  function AdoptPlan(copy: Option<Envelope>, backend: Backend): seq<Write>
  {
    if Parses(copy) then [SetMarker(Marker(copy.value.version, backend, false))] else []
  }

  function LoadPlan(d: Disk, a: Answer): seq<Write>
  {
    if d.marker.None? then
      match a
      case Works => if d.keyring.Some? then AdoptPlan(d.keyring, InKeyring) else AdoptPlan(d.file, InFile)
      case Missing => AdoptPlan(d.file, InFile)
      case Fails => []
      case Refuses => []
    else if Tombstoned(d) then
      [DropFile] + (if a == Works then [DropKeyring] else [])
    else if d.marker.value.backend == InFile && Matches(d.file, d.marker.value) && a == Works then
      [SetKeyring(d.file.value), SetMarker(d.marker.value.(backend := InKeyring)), DropFile]
    else []
  }

  function FoundIn(copy: Option<Envelope>): Loaded
  {
    if Parses(copy) then Found(copy.value.payload) else Nothing
  }

  function ReadCopy(copy: Option<Envelope>, m: Marker): Loaded
  {
    if Matches(copy, m) then Found(copy.value.payload) else Nothing
  }

  function LoadResult(d: Disk, a: Answer): Loaded
  {
    if d.marker.None? then
      if a == Fails || a == Refuses then Unavailable
      else if a == Works && d.keyring.Some? then FoundIn(d.keyring)
      else FoundIn(d.file)
    else if Tombstoned(d) then (if a == Fails then Unavailable else Nothing)
    else if d.marker.value.backend == InFile then
      if Matches(d.file, d.marker.value) && (a == Fails || a == Refuses) then Unavailable
      else ReadCopy(d.file, d.marker.value)
    else if a == Works then ReadCopy(d.keyring, d.marker.value)
    else Unavailable
  }

  /** Another holder replaced the version this one has loaded. */
  predicate Superseded(d: Disk, loaded: Option<Version>)
  {
    loaded.Some? && d.marker.Some? && d.marker.value.version != loaded.value
  }

  function DeletePlan(d: Disk, loaded: Option<Version>, revision: string, a: Answer): seq<Write>
  {
    if Superseded(d, loaded) then []
    else
      [SetMarker(Marker(Version(NextEpoch(d), revision), Nowhere, true))] +
      match a
      case Works => [DropKeyring, DropFile]
      case Missing => [DropFile]
      case Refuses => [DropFile]
      case Fails => []
  }

  // ---------------------------------------------------------------- the store

  /** One holder of the credential. The ghost log records the single writes in the
      order they reach the devices. */
  class CredentialStore {
    var keyring: Option<Envelope>
    var file: Option<Envelope>
    var marker: Option<Marker>
    var loaded: Option<Version>
    ghost var log: seq<Write>

    function OnDisk(): Disk
      reads this
    {
      Disk(keyring, file, marker)
    }

    constructor (d: Disk)
      ensures OnDisk() == d && loaded == None && log == []
    {
      keyring, file, marker := d.keyring, d.file, d.marker;
      loaded := None;
      log := [];
    }

    method Put(w: Write)
      modifies this`keyring, this`file, this`marker, this`log
      ensures log == old(log) + [w] && OnDisk() == Apply(old(OnDisk()), w)
    {
      match w {
        case SetKeyring(envelope) => keyring := Some(envelope);
        case DropKeyring => keyring := None;
        case SetFile(envelope) => file := Some(envelope);
        case DropFile => file := None;
        case SetMarker(m) => marker := Some(m);
      }
      log := log + [w];
    }

    /** Saves to the keyring, or to the private file where there is none. */
    method Save(payload: Payload, revision: string, a: Answer) returns (ok: bool)
      modifies this
      ensures log == old(log) + SavePlan(old(OnDisk()), payload, revision, a)
      ensures OnDisk() == After(old(OnDisk()), SavePlan(old(OnDisk()), payload, revision, a))
      ensures ok <==> payload.refreshable && (a == Works || a == Missing)
      ensures loaded == if ok then Some(Version(NextEpoch(old(OnDisk())), revision)) else old(loaded)
    {
      if !payload.refreshable { return false; }
      var version := Version(if marker.None? then 1 else marker.value.version.epoch + 1, revision);
      var envelope := Envelope(version, payload);
      UpToThree(OnDisk(), SetFile(envelope), SetMarker(Marker(version, InFile, false)), DropFile);
      UpToThree(OnDisk(), SetKeyring(envelope), SetMarker(Marker(version, InKeyring, false)), DropFile);
      if a == Missing {
        Put(SetFile(envelope));
        Put(SetMarker(Marker(version, InFile, false)));
      } else if a == Works {
        Put(SetKeyring(envelope));
        Put(SetMarker(Marker(version, InKeyring, false)));
        Put(DropFile);
      } else {
        return false;
      }
      loaded := Some(version);
      ok := true;
    }

    method Adopt(copy: Option<Envelope>, backend: Backend) returns (r: Loaded)
      modifies this
      ensures log == old(log) + AdoptPlan(copy, backend)
      ensures OnDisk() == After(old(OnDisk()), AdoptPlan(copy, backend))
      ensures r == FoundIn(copy)
      ensures loaded == if Parses(copy) then Some(copy.value.version) else old(loaded)
    {
      if copy.None? || !copy.value.payload.parses { return Nothing; }
      Put(SetMarker(Marker(copy.value.version, backend, false)));
      loaded := Some(copy.value.version);
      r := Found(copy.value.payload);
    }

    method LoadFile(m: Marker, a: Answer) returns (r: Loaded)
      requires marker == Some(m) && m.backend == InFile && !m.tombstone
      modifies this`keyring, this`file, this`marker, this`log
      ensures log == old(log) + LoadPlan(old(OnDisk()), a)
      ensures OnDisk() == After(old(OnDisk()), LoadPlan(old(OnDisk()), a))
      ensures r == LoadResult(old(OnDisk()), a)
    {
      if file.None? || file.value.version != m.version || !file.value.payload.parses { return Nothing; }
      var envelope := file.value;
      if a == Missing { return Found(envelope.payload); }
      if a != Works { return Unavailable; }
      UpToThree(OnDisk(), SetKeyring(envelope), SetMarker(m.(backend := InKeyring)), DropFile);
      Put(SetKeyring(envelope));
      Put(SetMarker(Marker(m.version, InKeyring, false)));
      Put(DropFile);
      r := Found(envelope.payload);
    }

    /** Loads the copy the marker names; without a marker adopts what is there. */
    method Load(a: Answer) returns (r: Loaded)
      modifies this
      ensures log == old(log) + LoadPlan(old(OnDisk()), a)
      ensures OnDisk() == After(old(OnDisk()), LoadPlan(old(OnDisk()), a))
      ensures r == LoadResult(old(OnDisk()), a)
      ensures old(marker).Some? ==> loaded == Some(old(marker).value.version)
    {
      if marker.None? {
        if a == Fails || a == Refuses { return Unavailable; }
        if a == Works && keyring.Some? {
          r := Adopt(keyring, InKeyring);
        } else {
          r := Adopt(file, InFile);
        }
        return;
      }
      var m := marker.value;
      loaded := Some(m.version);
      if m.tombstone || m.backend == Nowhere {
        UpToThree(OnDisk(), DropFile, DropKeyring, DropFile);
        Put(DropFile);
        if a == Works { Put(DropKeyring); }
        return if a == Fails then Unavailable else Nothing;
      }
      if m.backend == InFile {
        r := LoadFile(m, a);
        return;
      }
      if a != Works { return Unavailable; }
      if keyring.None? || keyring.value.version != m.version || !keyring.value.payload.parses { return Nothing; }
      r := Found(keyring.value.payload);
    }

    /** Writes the tombstone first, then removes the copies. */
    method Delete(revision: string, a: Answer) returns (ok: bool)
      modifies this
      ensures log == old(log) + DeletePlan(old(OnDisk()), old(loaded), revision, a)
      ensures OnDisk() == After(old(OnDisk()), DeletePlan(old(OnDisk()), old(loaded), revision, a))
      ensures ok <==> Superseded(old(OnDisk()), old(loaded)) || a == Works
    {
      if loaded.Some? && marker.Some? && marker.value.version != loaded.value { return true; }
      var version := Version(if marker.None? then 1 else marker.value.version.epoch + 1, revision);
      var tombstone := SetMarker(Marker(version, Nowhere, true));
      UpToThree(OnDisk(), tombstone, DropKeyring, DropFile);
      UpToThree(OnDisk(), tombstone, DropFile, DropFile);
      Put(tombstone);
      loaded := Some(version);
      if a == Works {
        Put(DropKeyring);
      } else if a == Fails {
        return false;
      }
      Put(DropFile);
      ok := a == Works;
    }
  }
}
