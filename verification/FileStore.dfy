/**
  `FilePayloadStore`: one JSON file replaced through a temporary file, and what a crash at any moment
  leaves behind.
*/
module FileStore {
  import opened Prelude
  import opened Payload
  import opened Commit

  datatype Content = Empty | Torn | Whole(payload: PayloadEnvelope)

  /** Only synced content is sure to survive a crash. */
  datatype File = Missing | Present(content: Content, synced: bool)

  /** `older` are the main files replaced since the directory was last synced, oldest first. */
  datatype Disk = Disk(main: File, tmp: File, older: seq<File>)

  datatype StoreError = PayloadError(error: TypeError) | IoError | SerdeError

  // ---------- the primitive disk effects of `persist`, in order ----------

  function CreateTmp(d: Disk): Disk {
    d.(tmp := Present(Empty, false))
  }

  function TearTmp(d: Disk): Disk {
    d.(tmp := Present(Torn, false))
  }

  function FillTmp(d: Disk, p: PayloadEnvelope): Disk {
    d.(tmp := Present(Whole(p), false))
  }

  function SyncTmp(d: Disk): Disk {
    if d.tmp.Present? then d.(tmp := d.tmp.(synced := true)) else d
  }

  /** Atomic: the temporary file takes the place of the main one. */
  function RenameTmp(d: Disk): Disk {
    Disk(d.tmp, Missing, d.older + [d.main])
  }

  /** The rename can no longer be undone by a crash. */
  function SyncDir(d: Disk): Disk {
    d.(older := [])
  }

  /** Reading a file back: a missing one is an empty store, unreadable bytes are an error. */
  function Held(f: File): Result<Option<PayloadEnvelope>, StoreError> {
    match f
    case Missing => Ok(None)
    case Present(Whole(p), _) => Ok(Some(p))
    case Present(_, _) => Err(SerdeError)
  }

  /** `open` reads the main file. */
  function Load(d: Disk): Result<Option<PayloadEnvelope>, StoreError> {
    Held(d.main)
  }

  /** What a file may look like after a crash: synced content is kept, anything else is up for grabs. */
  ghost predicate SurvivesAs(before: File, after: File) {
    match before
    case Missing => after == Missing
    case Present(_, synced) => if synced then after == before else after == Missing || (after.Present? && after.synced)
  }

  /** The main files a crash may leave, oldest first. */
  function Versions(d: Disk): seq<File> {
    d.older + [d.main]
  }

  /** Some version of the main file survives; nothing is promised of the temporary file. */
  ghost predicate CrashImage(before: Disk, after: Disk) {
    after.older == [] && exists f :: f in Versions(before) && SurvivesAs(f, after.main)
  }

  /** The file is absent, or whole and synced. */
  predicate Sound(f: File) {
    f.Missing? || (f.synced && f.content.Whole?)
  }

  ghost predicate AllSound(d: Disk) {
    forall f :: f in Versions(d) ==> Sound(f)
  }

  /** With sound versions, what can be reopened after a crash is exactly those versions. */
  lemma CrashReopensVersion(d: Disk, after: Disk)
    requires AllSound(d) && CrashImage(d, after)
    ensures after.main in Versions(d) && Load(after).Ok?
  {
  }

  lemma VersionReopens(d: Disk, f: File)
    requires AllSound(d) && f in Versions(d)
    ensures CrashImage(d, Disk(f, Missing, [])) && Load(Disk(f, Missing, [])) == Held(f)
  {
    assert SurvivesAs(f, f);
  }

  /** After a crash here, the store reopens with the new payload or with what the disk might have before. */
  ghost predicate Recoverable(d: Disk, was: Disk, p: PayloadEnvelope) {
    forall after :: CrashImage(d, after) ==>
      Load(after) == Ok(Some(p)) || (Load(after).Ok? && after.main in Versions(was))
  }

  lemma SameVersionsRecover(d: Disk, was: Disk, p: PayloadEnvelope)
    requires AllSound(was) && Versions(d) == Versions(was)
    ensures Recoverable(d, was, p)
  {
    forall after | CrashImage(d, after) ensures Load(after).Ok? && after.main in Versions(was) {
      CrashReopensVersion(d, after);
    }
  }

  lemma RenamedRecovers(d: Disk, was: Disk, p: PayloadEnvelope)
    requires AllSound(was) && d.main == Present(Whole(p), true)
    requires d.older == [] || d.older == Versions(was)
    ensures AllSound(d) && Recoverable(d, was, p)
  {
    forall after | CrashImage(d, after)
      ensures Load(after) == Ok(Some(p)) || (Load(after).Ok? && after.main in Versions(was))
    {
      CrashReopensVersion(d, after);
    }
  }

  // ---------- the store ----------

  /** Which of the file operations succeed. */
  datatype Io = Io(mkdir: bool, create: bool, setLen: bool, write: bool, sync: bool, rename: bool, syncDir: bool)

  /** A failed sync of the directory is ignored. */
  predicate AllSucceed(io: Io) {
    io.mkdir && io.create && io.setLen && io.write && io.sync && io.rename
  }

  /** A commit is acknowledged when it is ignored, or accepted and written in full. */
  predicate CommitSucceeds(latest: Option<PayloadEnvelope>, p: PayloadEnvelope, io: Io) {
    FilePayload(latest, p).Ok? && (FilePayload(latest, p).value == latest || AllSucceed(io))
  }

  /** `open`: the store holds what the main file says, or opening fails. */
  method Open(disk: Disk) returns (r: Result<FilePayloadStore, StoreError>)
    ensures r.Err? <==> disk.main.Present? && !disk.main.content.Whole?
    ensures r.Err? ==> r.error == SerdeError
    ensures r.Ok? ==> fresh(r.value) && r.value.disk == disk && Load(disk) == Ok(r.value.latest)
    ensures r.Ok? ==> r.value.latest == if disk.main.Missing? then None else Some(disk.main.content.payload)
    ensures r.Ok? && AllSound(disk) ==> r.value.Valid()
  {
    match disk.main
    case Missing =>
      var store := new FilePayloadStore(disk, None);
      r := Ok(store);
    case Present(Whole(p), _) =>
      var store := new FilePayloadStore(disk, Some(p));
      r := Ok(store);
    case Present(_, _) =>
      r := Err(SerdeError);
  }

  class FilePayloadStore {
    var latest: Option<PayloadEnvelope>
    var disk: Disk

    /** Memory mirrors the main file, and every version a crash may bring back is sound. */
    ghost predicate Valid()
      reads this
    {
      AllSound(disk) && Load(disk) == Ok(latest)
    }

    constructor (disk: Disk, loaded: Option<PayloadEnvelope>)
      ensures this.disk == disk && latest == loaded
    {
      this.disk := disk;
      latest := loaded;
    }

    /**
      Afterwards a crash can bring back the old main file only if the sync of the directory failed, and at
      any disk state on the way it brings back a version from before the call or the new payload.
    */
    method Persist(p: PayloadEnvelope, io: Io)
      returns (r: Result<(), StoreError>, ghost visited: seq<Disk>)
      requires Valid()
      modifies this`disk
      ensures r == if AllSucceed(io) then Ok(()) else Err(IoError)
      ensures r.Ok? ==> disk.main == Present(Whole(p), true)
      ensures r.Ok? ==> disk.older == if io.syncDir then [] else Versions(old(disk))
      ensures r.Err? ==> disk.main == old(disk.main) && disk.older == old(disk.older)
      ensures AllSound(disk)
      ensures forall d :: d in visited ==> Recoverable(d, old(disk), p)
      ensures disk in visited
    {
      ghost var was := disk;
      SameVersionsRecover(disk, was, p);
      visited := [disk];
      if !io.mkdir { return Err(IoError), visited; }
      if !io.create { return Err(IoError), visited; }
      disk := CreateTmp(disk);
      SameVersionsRecover(disk, was, p);
      visited := visited + [disk];
      if !io.setLen { return Err(IoError), visited; }
      disk := TearTmp(disk);
      SameVersionsRecover(disk, was, p);
      visited := visited + [disk];
      if !io.write { return Err(IoError), visited; }
      disk := FillTmp(disk, p);
      SameVersionsRecover(disk, was, p);
      visited := visited + [disk];
      if !io.sync { return Err(IoError), visited; }
      disk := SyncTmp(disk);
      SameVersionsRecover(disk, was, p);
      visited := visited + [disk];
      if !io.rename { return Err(IoError), visited; }
      disk := RenameTmp(disk);
      RenamedRecovers(disk, was, p);
      visited := visited + [disk];
      if io.syncDir {
        disk := SyncDir(disk);
        RenamedRecovers(disk, was, p);
        visited := visited + [disk];
      }
      return Ok(()), visited;
    }

    /**
      The new payload is kept or ignored as `FilePayload` decides. A failure leaves memory and all versions
      of the main file as they were.
    */
    method Commit(p: PayloadEnvelope, io: Io)
      returns (r: Result<(), StoreError>, ghost visited: seq<Disk>)
      requires Valid()
      modifies this
      ensures Valid()
      ensures r.Ok? ==> FilePayload(old(latest), p) == Ok(latest)
      ensures r.Err? ==> latest == old(latest) && Versions(disk) == old(Versions(disk))
      ensures r.Err? <==> !CommitSucceeds(old(latest), p, io)
      ensures r.Err? ==> r.error == if FilePayload(old(latest), p).Err?
                                    then PayloadError(FilePayload(old(latest), p).error) else IoError
      ensures latest == old(latest) ==> Versions(disk) == old(Versions(disk))
      ensures latest != old(latest) ==>
                && latest == Some(p) && disk.main == Present(Whole(p), true)
                && disk.older == if io.syncDir then [] else old(Versions(disk))
      ensures forall d :: d in visited ==> Recoverable(d, old(disk), p)
    {
      SameVersionsRecover(disk, disk, p);
      visited := [disk];
      if p.BlockNumber().Err? { return Err(PayloadError(p.BlockNumber().error)), visited; }
      var newNumber := p.BlockNumber().value;
      if p.BlockHash().Err? { return Err(PayloadError(p.BlockHash().error)), visited; }
      if latest.Some? {
        var current := latest.value.BlockNumber();
        if current.Err? { return Err(PayloadError(current.error)), visited; }
        if current.value >= newNumber { return Ok(()), visited; }
      }
      r, visited := Persist(p, io);
      if r.Err? { return; }
      latest := Some(p);
    }
  }

  // ---------- whole runs, with crashes ----------

  /** `pc` counts the disk effects already done for the payload in flight. */
  datatype Phase = Idle | Writing(payload: PayloadEnvelope, pc: nat)

  datatype Node = Node(latest: Option<PayloadEnvelope>, disk: Disk, phase: Phase)

  const RENAMED := 5

  function Effect(d: Disk, p: PayloadEnvelope, pc: nat): Disk
    requires pc < RENAMED
  {
    if pc == 0 then CreateTmp(d)
    else if pc == 1 then TearTmp(d)
    else if pc == 2 then FillTmp(d, p)
    else if pc == 3 then SyncTmp(d)
    else RenameTmp(d)
  }

  ghost predicate Next(s: Node, t: Node) {
    || Begins(s, t) || Advances(s, t) || Fails(s, t) || Finishes(s, t, true) || Finishes(s, t, false)
    || Restarts(s, t) || Crashes(s, t)
  }

  /** A commit that will write starts; ignored and rejected commits change nothing. */
  ghost predicate Begins(s: Node, t: Node) {
    && s.phase.Idle? && t.phase.Writing? && t.phase.pc == 0
    && FilePayload(s.latest, t.phase.payload) == Ok(Some(t.phase.payload))
    && Some(t.phase.payload) != s.latest
    && t == s.(phase := t.phase)
  }

  ghost predicate Advances(s: Node, t: Node) {
    && s.phase.Writing? && s.phase.pc < RENAMED
    && t == s.(disk := Effect(s.disk, s.phase.payload, s.phase.pc), phase := s.phase.(pc := s.phase.pc + 1))
  }

  /** Any file operation before the rename has taken effect may fail and abandon the commit. */
  ghost predicate Fails(s: Node, t: Node) {
    s.phase.Writing? && s.phase.pc < RENAMED && t == s.(phase := Idle)
  }

  /** After the rename the directory is synced or not, and the commit is acknowledged either way. */
  ghost predicate Finishes(s: Node, t: Node, synced: bool) {
    && s.phase.Writing? && s.phase.pc == RENAMED
    && t == Node(Some(s.phase.payload), if synced then SyncDir(s.disk) else s.disk, Idle)
  }

  /** Only the process goes down: the file system is as it was, and `open` reads it back. */
  ghost predicate Restarts(s: Node, t: Node) {
    Load(s.disk).Ok? && t == Node(Load(s.disk).value, s.disk, Idle)
  }

  /** The whole machine goes down. */
  ghost predicate Crashes(s: Node, t: Node) {
    && CrashImage(s.disk, t.disk)
    && Load(t.disk).Ok?
    && t == Node(Load(t.disk).value, t.disk, Idle)
  }

  ghost predicate Initial(s: Node) {
    Sound(s.disk.main) && s.disk.older == [] && Load(s.disk) == Ok(s.latest) && s.phase.Idle?
  }

  ghost predicate Run(states: seq<Node>) {
    && |states| > 0 && Initial(states[0])
    && forall i :: 0 <= i < |states| - 1 ==> Next(states[i], states[i + 1])
  }

  /** The second payload exists and has the greater block number. */
  predicate Newer(a: Option<PayloadEnvelope>, b: Option<PayloadEnvelope>) {
    && b.Some? && b.value.BlockNumber().Ok?
    && (a.None? || (a.value.BlockNumber().Ok? && a.value.BlockNumber().value < b.value.BlockNumber().value))
  }

  predicate NotOlder(a: Option<PayloadEnvelope>, b: Option<PayloadEnvelope>) {
    a == b || Newer(a, b)
  }

  /** The versions a crash may bring back are sound, each newer than those before. */
  ghost predicate Ascending(versions: seq<File>) {
    && (forall a :: 0 <= a < |versions| ==> Sound(versions[a]))
    && (forall a, b :: 0 <= a < b < |versions| ==> Newer(Held(versions[a]).value, Held(versions[b]).value))
  }

  ghost predicate Inv(s: Node) {
    && Ascending(Versions(s.disk))
    && match s.phase
       case Idle => Load(s.disk) == Ok(s.latest)
       case Writing(p, pc) =>
         && pc <= RENAMED && Newer(s.latest, Some(p))
         && (pc < RENAMED ==> Load(s.disk) == Ok(s.latest))
         && (pc == RENAMED ==>
               && Load(s.disk) == Ok(Some(p)) && s.disk.older != []
               && Held(s.disk.older[|s.disk.older| - 1]) == Ok(s.latest))
         && (pc == 3 || pc == 4 ==> s.disk.tmp == Present(Whole(p), pc == 4))
  }

  lemma AscendingExtends(versions: seq<File>, f: File)
    requires Ascending(versions) && versions != [] && Sound(f)
    requires Newer(Held(versions[|versions| - 1]).value, Held(f).value)
    ensures Ascending(versions + [f])
  {
    var n := |versions| - 1;
    forall a | 0 <= a <= n ensures Newer(Held(versions[a]).value, Held(f).value) {
      assert a < n ==> Newer(Held(versions[a]).value, Held(versions[n]).value);
    }
  }

  lemma AdvanceStep(s: Node, t: Node)
    requires Inv(s) && Advances(s, t)
    ensures Inv(t) && t.latest == s.latest
  {
    if s.phase.pc == RENAMED - 1 {
      AscendingExtends(Versions(s.disk), s.disk.tmp);
    } else {
      assert Versions(t.disk) == Versions(s.disk);
    }
  }

  lemma AllVersionsSound(s: Node)
    requires Inv(s)
    ensures AllSound(s.disk)
  {
  }

  lemma CrashStep(s: Node, t: Node)
    requires Inv(s) && Crashes(s, t)
    ensures Inv(t) && t.disk.main in Versions(s.disk)
  {
    AllVersionsSound(s);
    CrashReopensVersion(s.disk, t.disk);
  }

  lemma FinishStep(s: Node, t: Node, synced: bool)
    requires Inv(s) && Finishes(s, t, synced)
    ensures Inv(t)
  {
    assert Versions(s.disk)[|s.disk.older|] == s.disk.main;
  }

  lemma InvStep(s: Node, t: Node)
    requires Inv(s) && Next(s, t)
    ensures Inv(t)
  {
    if Crashes(s, t) {
      CrashStep(s, t);
    } else if Advances(s, t) {
      AdvanceStep(s, t);
    } else if Finishes(s, t, true) {
      FinishStep(s, t, true);
    } else if Finishes(s, t, false) {
      FinishStep(s, t, false);
    }
  }

  lemma {:induction false} RunInv(states: seq<Node>, i: nat)
    requires Run(states) && i < |states|
    ensures Inv(states[i])
  {
    if i > 0 {
      RunInv(states, i - 1);
      InvStep(states[i - 1], states[i]);
    }
  }

  // ---------- when a crash is safe ----------

  /** The payload in use may still be taken away by a crash: its rename has not reached the directory for sure. */
  predicate Exposed(s: Node) {
    |s.disk.older| > if s.phase.Writing? && s.phase.pc == RENAMED then 1 else 0
  }

  /** The renamed payload is acknowledged, or read back by a restart, without its directory being synced. */
  ghost predicate LeavesUnsynced(s: Node, t: Node) {
    Finishes(s, t, false) || (Restarts(s, t) && s.phase.Writing? && s.phase.pc == RENAMED)
  }

  /** A restart as such neither begins nor ends the exposure. */
  lemma ExposedStep(s: Node, t: Node)
    requires Inv(s) && Next(s, t)
    ensures Exposed(t) <==>
            LeavesUnsynced(s, t) || (Exposed(s) && !Finishes(s, t, true) && !Crashes(s, t))
  {
  }

  /** A payload came into use with its directory not synced, and nothing has settled the directory since. */
  ghost predicate Unsettled(states: seq<Node>, k: nat, i: nat)
    requires k < i < |states|
  {
    && LeavesUnsynced(states[k], states[k + 1])
    && forall m :: k < m < i ==> !Finishes(states[m], states[m + 1], true) && !Crashes(states[m], states[m + 1])
  }

  lemma UnsettledStep(states: seq<Node>, k: nat, i: nat)
    requires k < i - 1 && i < |states|
    ensures Unsettled(states, k, i) <==>
            && Unsettled(states, k, i - 1)
            && !Finishes(states[i - 1], states[i], true) && !Crashes(states[i - 1], states[i])
  {
    assert i - 1 + 1 == i;
  }

  /**
    A node is exposed exactly from an acknowledgement with a failed directory sync, or a restart between
    rename and sync, to the next sync that works or the next crash of the machine; restarts do not end it.
  */
  lemma {:induction false} ExposedIffUnsettled(states: seq<Node>, i: nat)
    requires Run(states) && i < |states|
    ensures Exposed(states[i]) <==> exists k :: 0 <= k < i && Unsettled(states, k, i)
  {
    if i > 0 {
      ExposedIffUnsettled(states, i - 1);
      RunInv(states, i - 1);
      assert Next(states[i - 1], states[i - 1 + 1]);
      ExposedStep(states[i - 1], states[i]);
      if LeavesUnsynced(states[i - 1], states[i]) {
        assert Unsettled(states, i - 1, i);
      } else if Exposed(states[i]) {
        var k :| 0 <= k < i - 1 && Unsettled(states, k, i - 1);
        UnsettledStep(states, k, i);
      } else {
        forall k | 0 <= k < i ensures !Unsettled(states, k, i) {
          if k < i - 1 { UnsettledStep(states, k, i); }
        }
      }
    }
  }

  /** The payload last acknowledged, or the one being written. */
  ghost predicate AckedOrInFlight(s: Node, kept: Option<PayloadEnvelope>) {
    kept == s.latest || (s.phase.Writing? && kept == Some(s.phase.payload))
  }

  /** Every crash here reopens without error at the last acknowledged payload or the one in flight. */
  ghost predicate CrashSafe(s: Node) {
    forall after :: CrashImage(s.disk, after) ==> Load(after).Ok? && AckedOrInFlight(s, Load(after).value)
  }

  /** In an exposed state the oldest version is older than the payload acknowledged. */
  lemma ExposedIsOlder(s: Node)
    requires Inv(s) && Exposed(s)
    ensures Newer(Held(Versions(s.disk)[0]).value, s.latest)
    ensures s.phase.Writing? ==> Newer(Held(Versions(s.disk)[0]).value, Some(s.phase.payload))
  {
    var versions := Versions(s.disk);
    var n := |versions| - 1;
    assert Newer(Held(versions[0]).value, Held(versions[n]).value);
    assert n > 1 ==> Newer(Held(versions[0]).value, Held(versions[n - 1]).value);
  }

  lemma UnexposedVersions(s: Node, f: File)
    requires Inv(s) && !Exposed(s) && f in Versions(s.disk)
    ensures Held(f).Ok? && AckedOrInFlight(s, Held(f).value) && NotOlder(s.latest, Held(f).value)
  {
  }

  /**
    Crash safety and its exact condition: at every moment of every run, every crash reopens without error,
    and always at the last acknowledged payload or the one in flight if and only if the node is not exposed.
  */
  lemma CrashSafety(states: seq<Node>, i: nat)
    requires Run(states) && i < |states|
    ensures forall after :: CrashImage(states[i].disk, after) ==> Load(after).Ok?
    ensures CrashSafe(states[i]) <==> !Exposed(states[i])
  {
    var s := states[i];
    RunInv(states, i);
    AllVersionsSound(s);
    forall after | CrashImage(s.disk, after)
      ensures Load(after).Ok? && (!Exposed(s) ==> AckedOrInFlight(s, Load(after).value))
    {
      CrashReopensVersion(s.disk, after);
      if !Exposed(s) { UnexposedVersions(s, after.main); }
    }
    if Exposed(s) {
      ExposedIsOlder(s);
      VersionReopens(s.disk, Versions(s.disk)[0]);
    }
  }

  lemma HeldStep(s: Node, t: Node)
    requires Inv(s) && Next(s, t) && (Crashes(s, t) ==> !Exposed(s))
    ensures NotOlder(s.latest, t.latest)
  {
    if Crashes(s, t) {
      CrashStep(s, t);
      UnexposedVersions(s, t.disk.main);
    }
  }

  /** A node can lose the block number it holds in its next step if and only if it is exposed. */
  lemma DropsIffExposed(states: seq<Node>, i: nat)
    requires Run(states) && i < |states|
    ensures (exists t :: Next(states[i], t) && !NotOlder(states[i].latest, t.latest)) <==> Exposed(states[i])
  {
    var s := states[i];
    RunInv(states, i);
    if Exposed(s) {
      ExposedIsOlder(s);
      AllVersionsSound(s);
      var f := Versions(s.disk)[0];
      VersionReopens(s.disk, f);
      var t := Node(Held(f).value, Disk(f, Missing, []), Idle);
      assert Crashes(s, t) && Next(s, t) && !NotOlder(s.latest, t.latest);
    } else {
      forall t | Next(s, t) ensures NotOlder(s.latest, t.latest) {
        HeldStep(s, t);
      }
    }
  }

  lemma NotOlderTransitive(a: Option<PayloadEnvelope>, b: Option<PayloadEnvelope>, c: Option<PayloadEnvelope>)
    requires NotOlder(a, b) && NotOlder(b, c)
    ensures NotOlder(a, c)
  {
  }

  /** Across failures, crashes and reopenings the number held never goes down, if no crash hits an exposed node. */
  lemma {:induction false} HeldNumberNeverDrops(states: seq<Node>, i: nat, j: nat)
    requires Run(states) && i <= j < |states|
    requires forall k :: i <= k < j && Crashes(states[k], states[k + 1]) ==> !Exposed(states[k])
    ensures NotOlder(states[i].latest, states[j].latest)
    decreases j
  {
    if i < j {
      HeldNumberNeverDrops(states, i, j - 1);
      RunInv(states, j - 1);
      assert Next(states[j - 1], states[j - 1 + 1]);
      HeldStep(states[j - 1], states[j]);
      NotOlderTransitive(states[i].latest, states[j - 1].latest, states[j].latest);
    }
  }

  /** And it happens: the first payload a new store acknowledges is gone after a crash. */
  lemma AckedPayloadLost(p: PayloadEnvelope) returns (states: seq<Node>)
    requires FilePayload(None, p).Ok?
    ensures Run(states) && |states| == 9 && states[7].phase.Idle?
    ensures states[7].latest == Some(p) && states[8].latest == None
  {
    var d0 := Disk(Missing, Missing, []);
    var d1 := CreateTmp(d0);
    var d2 := TearTmp(d1);
    var d3 := FillTmp(d2, p);
    var d4 := SyncTmp(d3);
    var d5 := RenameTmp(d4);
    states := [
      Node(None, d0, Idle), Node(None, d0, Writing(p, 0)), Node(None, d1, Writing(p, 1)),
      Node(None, d2, Writing(p, 2)), Node(None, d3, Writing(p, 3)), Node(None, d4, Writing(p, 4)),
      Node(None, d5, Writing(p, 5)), Node(Some(p), d5, Idle), Node(None, d0, Idle)];
    assert SurvivesAs(Missing, Missing) && Missing in Versions(d5) && CrashImage(d5, d0);
    assert forall i :: 0 <= i < 8 ==> Next(states[i], states[i + 1]);
  }

  /** A remark on the model: the sync before the rename matters, for without it a crash can leave nothing readable. */
  lemma RenameWithoutSyncLosesData(d: Disk, p: PayloadEnvelope)
    ensures exists after :: CrashImage(RenameTmp(FillTmp(d, p)), after) && Load(after).Err?
  {
    var after := Disk(Present(Torn, true), Missing, []);
    assert SurvivesAs(Present(Whole(p), false), after.main);
    assert CrashImage(RenameTmp(FillTmp(d, p)), after);
  }
}
