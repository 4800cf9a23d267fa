/**
  Storage calls of `MemoryRaftStore` interleaved at every await point. A call writes its fields, then
  `persist_to_disk` takes the persist lock, reads the seven fields one lock at a time, writes the
  temporary file, renames it and syncs the directory, ignoring a failure of that last step. Every write
  carries a fresh time stamp; disk and memory are compared field by field through the stamps.
*/
module Durability {
  import opened Prelude

  // Fields, numbered in the order `persist_to_disk` reads them.
  const LAST_PURGED := 0
  const COMMITTED := 1
  const LOG := 2
  const VOTE := 3
  const MACHINE := 4
  const SNAPSHOT := 5
  const SNAPSHOT_COUNTER := 6
  const FIELDS := 7

  datatype Call =
    | SaveVote | SaveCommitted | Append | TruncateAfter | Purge | BuildSnapshot | InstallSnapshot | Apply

  /** The fields a call writes, in order, each under its own lock. */
  function Writes(call: Call): (fields: seq<nat>)
    ensures forall k :: 0 <= k < |fields| ==> fields[k] < FIELDS
  {
    match call
    case SaveVote => [VOTE]
    case SaveCommitted => [COMMITTED]
    case Append => [LOG]
    case TruncateAfter => [LOG]
    case Purge => [LAST_PURGED, LOG]
    case BuildSnapshot => [SNAPSHOT_COUNTER, SNAPSHOT]
    case InstallSnapshot => [MACHINE, SNAPSHOT]
    case Apply => [MACHINE]
  }

  /** `done` counts the writes made so far; `own` maps each field written to the stamp of that write. */
  datatype Task =
    | NotStarted(call: Call)
    | Writing(call: Call, done: nat, own: map<nat, nat>)
    | WaitingForLock(own: map<nat, nat>)
    | Reading(own: map<nat, nat>, image: seq<nat>)
    | TmpWritten(own: map<nat, nat>, image: seq<nat>)
    | Renamed(own: map<nat, nat>)
    | Acked(own: map<nat, nat>, synced: bool)
    | Failed

  predicate HoldsLock(t: Task) {
    t.Reading? || t.TmpWritten? || t.Renamed?
  }

  /**
    `versions` are the contents the store's file has had since its directory was last synced, oldest
    first: a crash may bring back any of them.
  */
  datatype System = System(
    clock: nat,
    mem: seq<nat>,
    versions: seq<seq<nat>>,
    tmp: Option<seq<nat>>,
    lock: Option<nat>,
    tasks: seq<Task>)

  /** The file as a reader sees it while the machine is up. */
  function Disk(s: System): seq<nat>
    requires s.versions != []
  {
    s.versions[|s.versions| - 1]
  }

  datatype Step =
    | Start(i: nat)
    | Write(i: nat)
    | Enqueue(i: nat)
    | Acquire(i: nat)
    | Read(i: nat)
    | WriteTmp(i: nat)
    | Rename(i: nat)
    | Ack(i: nat, synced: bool)
    | Fail(i: nat)
    | Restart
    | Crash(version: nat)

  predicate Enabled(s: System, step: Step) {
    |s.mem| == FIELDS && s.versions != [] &&
    match step
    case Restart => true
    case Crash(version) => version < |s.versions|
    case _ => step.i < |s.tasks| && EnabledFor(s, step, s.tasks[step.i])
  }

  predicate EnabledFor(s: System, step: Step, t: Task) {
    match step
    case Start(_) => t.NotStarted?
    case Write(_) => t.Writing? && t.done < |Writes(t.call)|
    case Enqueue(_) => t.Writing? && t.done == |Writes(t.call)|
    case Acquire(_) => t.WaitingForLock? && s.lock == None
    case Read(_) => t.Reading? && |t.image| < FIELDS
    case WriteTmp(_) => t.Reading? && |t.image| == FIELDS
    case Rename(_) => t.TmpWritten? && s.tmp.Some?
    case Ack(_, _) => t.Renamed?
    case Fail(_) => t.Writing? || t.WaitingForLock? || t.Reading? || t.TmpWritten?
    case _ => true
  }

  function Survivor(t: Task): Task {
    if t.NotStarted? || t.Acked? then t else Failed
  }

  /** The process goes down, alone or with the machine. */
  predicate Reopens(step: Step) {
    step.Restart? || step.Crash?
  }

  /** Memory, lock and calls under way are lost; `open` reads memory back from the last of these versions. */
  function Reopened(s: System, versions: seq<seq<nat>>): System
    requires versions != []
  {
    System(s.clock, versions[|versions| - 1], versions, None, None,
           seq(|s.tasks|, i requires 0 <= i < |s.tasks| => Survivor(s.tasks[i])))
  }

  /**
    A restart of the process finds the file system as it was; a crash of the machine leaves whichever
    version the file system kept.
  */
  function Do(s: System, step: Step): System
    requires Enabled(s, step)
  {
    if step.Restart? then Reopened(s, s.versions)
    else if step.Crash? then Reopened(s, [s.versions[step.version]])
    else
      var i := step.i;
      var t := s.tasks[i];
      match step
      case Start(_) => s.(tasks := s.tasks[i := Writing(t.call, 0, map[])])
      case Write(_) =>
        var now := s.clock + 1;
        var field := Writes(t.call)[t.done];
        s.(clock := now, mem := s.mem[field := now],
           tasks := s.tasks[i := Writing(t.call, t.done + 1, t.own[field := now])])
      case Enqueue(_) => s.(tasks := s.tasks[i := WaitingForLock(t.own)])
      case Acquire(_) => s.(lock := Some(i), tasks := s.tasks[i := Reading(t.own, [])])
      case Read(_) => s.(tasks := s.tasks[i := Reading(t.own, t.image + [s.mem[|t.image|]])])
      case WriteTmp(_) => s.(tmp := Some(t.image), tasks := s.tasks[i := TmpWritten(t.own, t.image)])
      case Rename(_) => s.(versions := s.versions + [s.tmp.value], tmp := None, tasks := s.tasks[i := Renamed(t.own)])
      case Ack(_, synced) =>
        s.(versions := if synced then [Disk(s)] else s.versions,
           lock := None, tasks := s.tasks[i := Acked(t.own, synced)])
      case Fail(_) => s.(lock := if HoldsLock(t) then None else s.lock, tasks := s.tasks[i := Failed])
  }

  ghost predicate Initial(s: System) {
    && |s.mem| == FIELDS && s.versions == [s.mem] && s.tmp == None && s.lock == None
    && (forall f :: 0 <= f < FIELDS ==> s.mem[f] <= s.clock)
    && (forall i :: 0 <= i < |s.tasks| ==> s.tasks[i].NotStarted?)
  }

  ghost predicate Run(states: seq<System>, steps: seq<Step>) {
    && |states| == |steps| + 1 && Initial(states[0])
    && forall i :: 0 <= i < |steps| ==> Enabled(states[i], steps[i]) && states[i + 1] == Do(states[i], steps[i])
  }

  // ---------- the invariant ----------

  /** Each own write is no newer than the given stamps. */
  ghost predicate Within(own: map<nat, nat>, stamps: seq<nat>) {
    forall f :: f in own ==> f < |stamps| && own[f] <= stamps[f]
  }

  /** Field-wise order of two equally long prefixes of stamps. */
  ghost predicate Below(a: seq<nat>, b: seq<nat>) {
    |a| == |b| && forall f :: 0 <= f < |a| ==> a[f] <= b[f]
  }

  /** What has been read lies between disk and memory and includes the reader's own writes. */
  ghost predicate FreshImage(s: System, own: map<nat, nat>, image: seq<nat>) {
    && |image| <= FIELDS && s.versions != [] && |s.mem| == |Disk(s)| == FIELDS
    && Below(Disk(s)[..|image|], image) && Below(image, s.mem[..|image|])
    && (forall f :: f in own && f < |image| ==> own[f] <= image[f])
  }

  ghost predicate GoodTask(s: System, t: Task) {
    match t
    case NotStarted(_) => true
    case Writing(_, _, own) => Within(own, s.mem)
    case WaitingForLock(own) => Within(own, s.mem)
    case Reading(own, image) => Within(own, s.mem) && FreshImage(s, own, image)
    case TmpWritten(own, image) =>
      Within(own, s.mem) && FreshImage(s, own, image) && |image| == FIELDS && s.tmp == Some(image)
    case Renamed(own) => s.versions != [] && Within(own, Disk(s))
    case Acked(own, synced) => s.versions != [] && (synced ==> Within(own, s.versions[0]))
    case Failed => true
  }

  /** Later versions of the file are field by field no older than earlier ones. */
  ghost predicate Chain(versions: seq<seq<nat>>) {
    && (forall a :: 0 <= a < |versions| ==> |versions[a]| == FIELDS)
    && (forall a, b :: 0 <= a <= b < |versions| ==> Below(versions[a], versions[b]))
  }

  ghost predicate Inv(s: System) {
    && |s.mem| == FIELDS && s.versions != [] && Chain(s.versions)
    && Below(Disk(s), s.mem)
    && (forall f :: 0 <= f < FIELDS ==> s.mem[f] <= s.clock)
    && (forall i :: 0 <= i < |s.tasks| ==> GoodTask(s, s.tasks[i]))
    && (forall i :: 0 <= i < |s.tasks| ==> (HoldsLock(s.tasks[i]) <==> s.lock == Some(i)))
  }

  /** Growing memory, with disk and temporary file untouched, keeps every task good. */
  lemma MemoryGrows(s: System, s': System, t: Task)
    requires GoodTask(s, t) && s.versions != [] && |s.mem| == |Disk(s)| == FIELDS
    requires s'.versions == s.versions && s'.tmp == s.tmp && Below(s.mem, s'.mem)
    ensures GoodTask(s', t)
  {
  }

  lemma WriteStep(s: System, step: Step)
    requires Inv(s) && step.Write? && Enabled(s, step)
    ensures Inv(Do(s, step))
  {
    var s' := Do(s, step);
    var t := s.tasks[step.i];
    assert GoodTask(s, t);
    forall i | 0 <= i < |s'.tasks| ensures GoodTask(s', s'.tasks[i]) {
      if i != step.i { MemoryGrows(s, s', s.tasks[i]); }
    }
  }

  lemma ReadStep(s: System, step: Step)
    requires Inv(s) && step.Read? && Enabled(s, step)
    ensures Inv(Do(s, step))
  {
  }

  /** A persist under way has read nothing older than the file holds, so the new version tops the chain. */
  lemma RenameStep(s: System, step: Step)
    requires Inv(s) && step.Rename? && Enabled(s, step)
    ensures Inv(Do(s, step))
  {
    var s' := Do(s, step);
    var image := s.tmp.value;
    assert GoodTask(s, s.tasks[step.i]);
    assert Below(Disk(s), image) by { assert Disk(s)[..FIELDS] == Disk(s); }
    assert Below(image, s.mem) by { assert s.mem[..FIELDS] == s.mem; }
    forall x, y | 0 <= x <= y < |s'.versions| ensures Below(s'.versions[x], s'.versions[y]) {
      if x < |s.versions| { assert Below(s.versions[x], Disk(s)); }
    }
    forall i | 0 <= i < |s'.tasks| ensures GoodTask(s', s'.tasks[i]) {
      assert GoodTask(s, s.tasks[i]);
    }
  }

  lemma AckStep(s: System, step: Step)
    requires Inv(s) && step.Ack? && Enabled(s, step)
    ensures Inv(Do(s, step))
  {
    var s' := Do(s, step);
    forall i | 0 <= i < |s'.tasks| ensures GoodTask(s', s'.tasks[i]) {
      assert GoodTask(s, s.tasks[i]);
      assert Below(s.versions[0], Disk(s));
    }
  }

  lemma RestartStep(s: System, step: Step)
    requires Inv(s) && step.Restart? && Enabled(s, step)
    ensures Inv(Do(s, step))
  {
    var s' := Do(s, step);
    forall i | 0 <= i < |s'.tasks| ensures GoodTask(s', s'.tasks[i]) {
      assert GoodTask(s, s.tasks[i]);
    }
  }

  lemma CrashStep(s: System, step: Step)
    requires Inv(s) && step.Crash? && Enabled(s, step)
    ensures Inv(Do(s, step))
  {
    var s' := Do(s, step);
    var kept := s.versions[step.version];
    assert Below(s.versions[0], kept) && Below(kept, Disk(s));
    forall i | 0 <= i < |s'.tasks| ensures GoodTask(s', s'.tasks[i]) {
      assert GoodTask(s, s.tasks[i]);
    }
  }

  /** Steps that touch neither memory nor disk. */
  lemma QuietStep(s: System, step: Step)
    requires Inv(s) && Enabled(s, step)
    requires !Reopens(step) && !step.Write? && !step.Read? && !step.Rename? && !step.Ack?
    ensures Inv(Do(s, step))
  {
    var s' := Do(s, step);
    var t := s.tasks[step.i];
    assert GoodTask(s, t);
    forall i | 0 <= i < |s'.tasks| ensures GoodTask(s', s'.tasks[i]) {
      if i != step.i && !s.tasks[i].TmpWritten? {
        assert GoodTask(s, s.tasks[i]);
      }
    }
  }

  lemma InvStep(s: System, step: Step)
    requires Inv(s) && Enabled(s, step)
    ensures Inv(Do(s, step))
  {
    match step
    case Write(_) => WriteStep(s, step);
    case Read(_) => ReadStep(s, step);
    case Rename(_) => RenameStep(s, step);
    case Ack(_, _) => AckStep(s, step);
    case Restart => RestartStep(s, step);
    case Crash(_) => CrashStep(s, step);
    case _ => QuietStep(s, step);
  }

  lemma {:induction false} RunInv(states: seq<System>, steps: seq<Step>, i: nat)
    requires Run(states, steps) && i < |states|
    ensures Inv(states[i])
  {
    if i > 0 {
      RunInv(states, steps, i - 1);
      InvStep(states[i - 1], steps[i - 1]);
    }
  }

  // ---------- running steps ----------

  /** Runs a list of steps as far as each is enabled. */
  function Exec(s: System, steps: seq<Step>): Option<System>
    decreases |steps|
  {
    if steps == [] then Some(s)
    else if Enabled(s, steps[0]) then Exec(Do(s, steps[0]), steps[1..])
    else None
  }

  lemma {:induction false} ExecConcat(s: System, a: seq<Step>, b: seq<Step>)
    requires Exec(s, a).Some?
    ensures Exec(s, a + b) == Exec(Exec(s, a).value, b)
    decreases |a|
  {
    if a == [] {
      assert a + b == b;
    } else {
      assert (a + b)[0] == a[0] && (a + b)[1..] == a[1..] + b;
      ExecConcat(Do(s, a[0]), a[1..], b);
    }
  }

  lemma {:induction false} ExecInv(s: System, steps: seq<Step>)
    requires Inv(s) && Exec(s, steps).Some?
    ensures Inv(Exec(s, steps).value)
    decreases |steps|
  {
    if steps != [] {
      InvStep(s, steps[0]);
      ExecInv(Do(s, steps[0]), steps[1..]);
    }
  }

  lemma ExecThen(s: System, steps: seq<Step>, mid: System, step: Step)
    requires Exec(s, steps) == Some(mid) && Enabled(mid, step)
    ensures Exec(s, steps + [step]) == Some(Do(mid, step))
  {
    var end := Do(mid, step);
    assert [step][1..] == [] && Exec(end, []) == Some(end) && Exec(mid, [step]) == Some(end);
    ExecConcat(s, steps, [step]);
  }

  /** The first task makes its one write, stamped with the next time, and gets the persist lock. */
  lemma PersistBegins(s: System, f: nat) returns (steps: seq<Step>, s': System)
    requires Initial(s) && s.tasks != [] && Writes(s.tasks[0].call) == [f] && f < FIELDS
    ensures Exec(s, steps) == Some(s')
    ensures s' == s.(clock := s.clock + 1, mem := s.mem[f := s.clock + 1], lock := Some(0),
                     tasks := s.tasks[0 := Reading(map[f := s.clock + 1], [])])
  {
    var s1 := Do(s, Start(0));
    var s2 := Do(s1, Write(0));
    var s3 := Do(s2, Enqueue(0));
    s' := Do(s3, Acquire(0));
    assert Exec(s, []) == Some(s);
    ExecThen(s, [], s, Start(0));
    ExecThen(s, [] + [Start(0)], s1, Write(0));
    ExecThen(s, [] + [Start(0)] + [Write(0)], s2, Enqueue(0));
    ExecThen(s, [] + [Start(0)] + [Write(0)] + [Enqueue(0)], s3, Acquire(0));
    steps := [] + [Start(0)] + [Write(0)] + [Enqueue(0)] + [Acquire(0)];
  }

  /**
    A persist left alone from its current read onwards writes what it has read followed by memory as it
    stands; left alone from the start it writes the whole of memory.
  */
  lemma {:induction false} PersistAlone(s: System, i: nat) returns (steps: seq<Step>)
    requires |s.mem| == FIELDS && s.versions != [] && i < |s.tasks|
    requires s.tasks[i].Reading? && |s.tasks[i].image| <= FIELDS
    ensures Exec(s, steps).Some?
    ensures var image := s.tasks[i].image;
            Exec(s, steps).value.versions == s.versions + [image + s.mem[|image|..]]
    ensures Exec(s, steps).value.tasks == s.tasks[i := Renamed(s.tasks[i].own)]
    ensures Exec(s, steps).value.mem == s.mem
    decreases FIELDS - |s.tasks[i].image|
  {
    var image := s.tasks[i].image;
    if |image| < FIELDS {
      var s1 := Do(s, Read(i));
      var rest := PersistAlone(s1, i);
      steps := [Read(i)] + rest;
      assert steps[0] == Read(i) && steps[1..] == rest;
      assert image + s.mem[|image|..] == s1.tasks[i].image + s.mem[|image| + 1..];
      assert s1.tasks[i := Renamed(s.tasks[i].own)] == s.tasks[i := Renamed(s.tasks[i].own)];
    } else {
      var s1 := Do(s, WriteTmp(i));
      var s2 := Do(s1, Rename(i));
      steps := [WriteTmp(i), Rename(i)];
      assert steps[1..] == [Rename(i)] && steps[1..][1..] == [];
      assert Exec(s2, []) == Some(s2) && Exec(s1, [Rename(i)]) == Some(s2);
      assert image + s.mem[FIELDS..] == image;
      assert s2.tasks == s.tasks[i := Renamed(s.tasks[i].own)];
    }
  }

  // ---------- what an acknowledged call can rely on ----------

  /** A crash that brings back an older version than the one readers saw. */
  ghost predicate Loses(s: System, step: Step) {
    step.Crash? && step.version + 1 < |s.versions|
  }

  lemma DiskStep(s: System, step: Step)
    requires Inv(s) && Enabled(s, step)
    ensures Inv(Do(s, step))
    ensures Below(s.versions[0], Do(s, step).versions[0])
    ensures !Loses(s, step) ==> Below(Disk(s), Disk(Do(s, step)))
  {
    InvStep(s, step);
    var s' := Do(s, step);
    assert Below(s.versions[0], Disk(s));
    if step.Rename? { assert s'.versions[|s.versions| - 1] == Disk(s); }
  }

  /**
    The oldest version a crash can bring back never gets older, crashes included, and the file as readers
    see it goes back only at a crash with a rename whose directory was not synced.
  */
  lemma {:induction false} DiskNeverGoesBack(states: seq<System>, steps: seq<Step>, i: nat, j: nat)
    requires Run(states, steps) && i <= j < |states|
    ensures Inv(states[i]) && Inv(states[j])
    ensures Below(states[i].versions[0], states[j].versions[0])
    ensures (forall k :: i <= k < j ==> !Loses(states[k], steps[k])) ==> Below(Disk(states[i]), Disk(states[j]))
    decreases j
  {
    RunInv(states, steps, i);
    RunInv(states, steps, j);
    if i < j {
      DiskNeverGoesBack(states, steps, i, j - 1);
      DiskStep(states[j - 1], steps[j - 1]);
    }
  }

  /**
    From the moment a call acknowledges, disk and memory hold, for every field it wrote, that write or a
    newer one: after any crash if its directory sync worked, and otherwise until a crash brings back an
    older version.
  */
  lemma AckedWritesStay(states: seq<System>, steps: seq<Step>, a: nat, j: nat)
    requires Run(states, steps) && a < j < |states| && steps[a].Ack?
    requires steps[a].synced || forall k :: a < k < j ==> !Loses(states[k], steps[k])
    ensures Inv(states[j])
    ensures var own := states[a].tasks[steps[a].i].own;
            Within(own, Disk(states[j])) && Within(own, states[j].mem)
  {
    RunInv(states, steps, a);
    assert GoodTask(states[a], states[a].tasks[steps[a].i]);
    assert states[a + 1] == Do(states[a], steps[a]);
    DiskNeverGoesBack(states, steps, a + 1, j);
    assert Below(states[j].versions[0], Disk(states[j]));
  }

  /** A directory sync worked at a moment when the file held the given writes. */
  ghost predicate SyncedWith(s: System, step: Step, own: map<nat, nat>) {
    step.Ack? && step.synced && s.versions != [] && Within(own, Disk(s))
  }

  lemma SafeStep(s: System, step: Step, own: map<nat, nat>)
    requires Inv(s) && Enabled(s, step) && !step.Crash?
    ensures Within(own, Do(s, step).versions[0]) <==> Within(own, s.versions[0]) || SyncedWith(s, step, own)
  {
    assert Below(s.versions[0], Disk(s));
  }

  lemma {:induction false} SafeIffSynced(
    states: seq<System>, steps: seq<Step>, i: nat, j: nat, own: map<nat, nat>)
    requires Run(states, steps) && i <= j < |states|
    requires forall k :: i <= k < j ==> !steps[k].Crash?
    ensures Inv(states[i]) && Inv(states[j])
    ensures Within(own, states[j].versions[0]) <==>
            Within(own, states[i].versions[0]) || exists m :: i <= m < j && SyncedWith(states[m], steps[m], own)
    decreases j
  {
    RunInv(states, steps, i);
    RunInv(states, steps, j);
    if i < j {
      SafeIffSynced(states, steps, i, j - 1, own);
      assert states[j - 1 + 1] == Do(states[j - 1], steps[j - 1]);
      SafeStep(states[j - 1], steps[j - 1], own);
    }
  }

  /**
    When writes are at risk, exactly: with no crash since a moment at which the oldest version lacked
    them, the next crash can lose them if and only if no directory sync has worked since while the file
    held them.
  */
  lemma AtRiskIffNotSynced(states: seq<System>, steps: seq<Step>, i: nat, j: nat, own: map<nat, nat>)
    requires Run(states, steps) && i <= j < |states|
    requires forall k :: i <= k < j ==> !steps[k].Crash?
    requires states[i].versions != [] && !Within(own, states[i].versions[0])
    ensures (exists v :: Enabled(states[j], Crash(v)) && !Within(own, Do(states[j], Crash(v)).mem))
            <==> !exists m :: i <= m < j && SyncedWith(states[m], steps[m], own)
  {
    SafeIffSynced(states, steps, i, j, own);
    var s := states[j];
    assert Enabled(s, Crash(0));
    forall v: nat | Enabled(s, Crash(v)) && Within(own, s.versions[0]) ensures Within(own, Do(s, Crash(v)).mem) {
      assert Below(s.versions[0], s.versions[v]);
    }
  }

  /** And it happens: an acknowledged vote whose directory sync failed is gone after a crash. */
  lemma AckedVoteLost(s0: System) returns (steps: seq<Step>, acked: System)
    requires Initial(s0) && s0.tasks == [NotStarted(SaveVote)]
    ensures Exec(s0, steps) == Some(acked)
    ensures |acked.tasks| == 1 && acked.tasks[0].Acked? && VOTE in acked.tasks[0].own
    ensures Enabled(acked, Crash(0)) && |acked.versions[0]| == FIELDS
    ensures Do(acked, Crash(0)).mem[VOTE] < acked.tasks[0].own[VOTE]
  {
    var prefix, s1 := PersistBegins(s0, VOTE);
    var rest := PersistAlone(s1, 0);
    ExecConcat(s0, prefix, rest);
    var s2 := Exec(s1, rest).value;
    assert s2.versions[0] == s0.mem;
    ExecThen(s0, prefix + rest, s2, Ack(0, false));
    steps, acked := prefix + rest + [Ack(0, false)], Do(s2, Ack(0, false));
  }

  /** The stamps a task carries are for exactly the fields its call has written so far. */
  ghost predicate OwnsItsWrites(call: Call, t: Task) {
    match t
    case NotStarted(c) => c == call
    case Writing(c, done, own) => c == call && done <= |Writes(call)| && own.Keys == (set f | f in Writes(call)[..done])
    case Failed => true
    case _ => t.own.Keys == (set f | f in Writes(call))
  }

  lemma OwnsStep(s: System, step: Step, call: Call, i: nat)
    requires Enabled(s, step) && i < |s.tasks| && OwnsItsWrites(call, s.tasks[i])
    ensures |Do(s, step).tasks| == |s.tasks| && OwnsItsWrites(call, Do(s, step).tasks[i])
  {
    if step.Write? && step.i == i {
      var done := s.tasks[i].done;
      assert Writes(call)[..done + 1] == Writes(call)[..done] + [Writes(call)[done]];
    }
  }

  /** An acknowledged call has a stamp for each field it is documented to write. */
  lemma {:induction false} AckCoversCall(states: seq<System>, steps: seq<Step>, i: nat, task: nat)
    requires Run(states, steps) && i < |states| && task < |states[0].tasks|
    ensures |states[i].tasks| == |states[0].tasks|
    ensures OwnsItsWrites(states[0].tasks[task].call, states[i].tasks[task])
  {
    if i > 0 {
      AckCoversCall(states, steps, i - 1, task);
      OwnsStep(states[i - 1], steps[i - 1], states[0].tasks[task].call, task);
    }
  }

  // ---------- a torn image ----------

  /** The step writes the given field of memory. */
  ghost predicate WritesField(s: System, step: Step, f: nat) {
    Enabled(s, step) && step.Write? && Writes(s.tasks[step.i].call)[s.tasks[step.i].done] == f
  }

  lemma FieldStep(s: System, step: Step, f: nat)
    requires Inv(s) && Enabled(s, step) && !Reopens(step) && f < FIELDS
    ensures |Do(s, step).mem| == FIELDS && s.mem[f] <= Do(s, step).mem[f]
    ensures s.mem[f] < Do(s, step).mem[f] <==> WritesField(s, step, f)
  {
  }

  /** A step raises a field exactly if it writes it, and otherwise leaves it alone. */
  ghost predicate RaisedByWrites(states: seq<System>, steps: seq<Step>, k: nat, f: nat)
    requires k < |steps| < |states| && f < FIELDS
  {
    && |states[k].mem| == |states[k + 1].mem| == FIELDS && states[k].mem[f] <= states[k + 1].mem[f]
    && (states[k].mem[f] < states[k + 1].mem[f] <==> WritesField(states[k], steps[k], f))
  }

  lemma WritesRaise(states: seq<System>, steps: seq<Step>, k: nat, f: nat)
    requires Run(states, steps) && k < |steps| && !Reopens(steps[k]) && f < FIELDS
    ensures RaisedByWrites(states, steps, k, f)
  {
    RunInv(states, steps, k);
    FieldStep(states[k], steps[k], f);
  }

  /** No step from one moment to another writes the field. */
  ghost predicate Unwritten(states: seq<System>, steps: seq<Step>, x: nat, y: nat, f: nat)
    requires y <= |steps| <= |states|
  {
    forall k :: x <= k < y ==> !WritesField(states[k], steps[k], f)
  }

  lemma UnwrittenStep(states: seq<System>, steps: seq<Step>, x: nat, y: nat, f: nat)
    requires x < y <= |steps| <= |states|
    ensures Unwritten(states, steps, x, y, f) <==>
            Unwritten(states, steps, x, y - 1, f) && !WritesField(states[y - 1], steps[y - 1], f)
  {
  }

  lemma {:induction false} KeptIffUnwritten(states: seq<System>, steps: seq<Step>, x: nat, y: nat, f: nat)
    requires x <= y < |states| == |steps| + 1 && f < FIELDS && |states[x].mem| == FIELDS
    requires forall k :: x <= k < y ==> RaisedByWrites(states, steps, k, f)
    ensures |states[y].mem| == FIELDS && states[x].mem[f] <= states[y].mem[f]
    ensures states[x].mem[f] == states[y].mem[f] <==> Unwritten(states, steps, x, y, f)
    decreases y
  {
    if x < y {
      KeptIffUnwritten(states, steps, x, y - 1, f);
      assert RaisedByWrites(states, steps, y - 1, f);
      UnwrittenStep(states, steps, x, y, f);
    }
  }

  /** Between restarts and crashes a field keeps its value over exactly the stretches in which nobody writes it. */
  lemma FieldKeptIff(states: seq<System>, steps: seq<Step>, x: nat, y: nat, f: nat)
    requires Run(states, steps) && x <= y < |states| && f < FIELDS
    requires forall k :: x <= k < y ==> !Reopens(steps[k])
    ensures |states[x].mem| == |states[y].mem| == FIELDS
    ensures states[x].mem[f] == states[y].mem[f] <==> Unwritten(states, steps, x, y, f)
  {
    RunInv(states, steps, x);
    forall k | x <= k < y ensures RaisedByWrites(states, steps, k, f) { WritesRaise(states, steps, k, f); }
    KeptIffUnwritten(states, steps, x, y, f);
  }

  /** This persist has read the given field and its image is not on disk yet. */
  ghost predicate HasRead(s: System, i: nat, f: nat) {
    i < |s.tasks| && (s.tasks[i].Reading? || s.tasks[i].TmpWritten?) && |s.tasks[i].image| > f
  }

  lemma HasReadStep(s: System, step: Step, i: nat, f: nat)
    requires Enabled(s, step) && HasRead(Do(s, step), i, f)
    ensures !Reopens(step) && i < |s.tasks|
    ensures if HasRead(s, i, f) then Do(s, step).tasks[i].image[f] == s.tasks[i].image[f]
            else && step == Read(i) && s.tasks[i].Reading? && |s.tasks[i].image| == f && f < |s.mem|
                 && Do(s, step).tasks[i].image[f] == s.mem[f]
  {
  }

  /** The step keeps what was read of the field, or is the one that reads it. */
  ghost predicate KeepsOrReads(states: seq<System>, steps: seq<Step>, k: nat, i: nat, f: nat)
    requires k < |steps| < |states|
  {
    HasRead(states[k + 1], i, f) ==>
      && !Reopens(steps[k]) && i < |states[k].tasks|
      && if HasRead(states[k], i, f) then states[k + 1].tasks[i].image[f] == states[k].tasks[i].image[f]
         else && steps[k] == Read(i) && states[k].tasks[i].Reading? && |states[k].tasks[i].image| == f
              && f < |states[k].mem| && states[k + 1].tasks[i].image[f] == states[k].mem[f]
  }

  lemma StepKeepsOrReads(states: seq<System>, steps: seq<Step>, k: nat, i: nat, f: nat)
    requires Run(states, steps) && k < |steps|
    ensures KeepsOrReads(states, steps, k, i, f)
  {
    if HasRead(states[k + 1], i, f) { HasReadStep(states[k], steps[k], i, f); }
  }

  lemma {:induction false} LastRead(states: seq<System>, steps: seq<Step>, n: nat, i: nat, f: nat)
    returns (a: nat)
    requires n < |states| == |steps| + 1 && HasRead(states[n], i, f) && !HasRead(states[0], i, f)
    requires forall k :: 0 <= k < n ==> KeepsOrReads(states, steps, k, i, f)
    ensures a < n && steps[a] == Read(i) && i < |states[a].tasks| && f < |states[a].mem|
    ensures states[a].tasks[i].Reading? && |states[a].tasks[i].image| == f
    ensures states[n].tasks[i].image[f] == states[a].mem[f]
    ensures forall x :: a < x <= n ==> HasRead(states[x], i, f)
    ensures forall k :: a <= k < n ==> !Reopens(steps[k])
    decreases n
  {
    assert KeepsOrReads(states, steps, n - 1, i, f);
    if HasRead(states[n - 1], i, f) {
      a := LastRead(states, steps, n - 1, i, f);
    } else {
      a := n - 1;
    }
  }

  /** Every field of an image was read from memory at one moment, with no restart or crash since. */
  lemma ReadMoment(states: seq<System>, steps: seq<Step>, n: nat, i: nat, f: nat) returns (a: nat)
    requires Run(states, steps) && n < |states| && HasRead(states[n], i, f)
    ensures a < n && steps[a] == Read(i) && i < |states[a].tasks| && f < |states[a].mem|
    ensures states[a].tasks[i].Reading? && |states[a].tasks[i].image| == f
    ensures states[n].tasks[i].image[f] == states[a].mem[f]
    ensures forall x :: a < x <= n ==> HasRead(states[x], i, f)
    ensures forall k :: a <= k < n ==> !Reopens(steps[k])
  {
    forall k | 0 <= k < n ensures KeepsOrReads(states, steps, k, i, f) { StepKeepsOrReads(states, steps, k, i, f); }
    a := LastRead(states, steps, n, i, f);
  }

  /** Memory held the given pair of last-purged id and log at once. */
  ghost predicate HeldPair(s: System, purged: nat, log: nat) {
    |s.mem| == FIELDS && s.mem[LAST_PURGED] == purged && s.mem[LOG] == log
  }

  /** Somebody wrote the last-purged id and then somebody the log, between two moments. */
  ghost predicate PurgeThenLog(states: seq<System>, steps: seq<Step>, a: nat, c: nat)
    requires c <= |steps| < |states|
  {
    exists p, r :: a <= p < r < c
      && WritesField(states[p], steps[p], LAST_PURGED) && WritesField(states[r], steps[r], LOG)
  }

  lemma {:induction false} FirstWrite(states: seq<System>, steps: seq<Step>, a: nat, c: nat, f: nat)
    returns (m: nat)
    requires |states| == |steps| + 1 && a <= c <= |steps|
    ensures a <= m <= c && Unwritten(states, steps, a, m, f)
    ensures m < c ==> WritesField(states[m], steps[m], f)
    decreases c - a
  {
    if a == c || WritesField(states[a], steps[a], f) {
      m := a;
    } else {
      m := FirstWrite(states, steps, a + 1, c, f);
    }
  }

  lemma PairHeldAt(states: seq<System>, steps: seq<Step>, a: nat, m: nat, c: nat)
    requires Run(states, steps) && a <= m <= c < |steps|
    requires forall k :: a <= k < c ==> !Reopens(steps[k])
    requires |states[a].mem| == |states[c].mem| == FIELDS
    ensures HeldPair(states[m], states[a].mem[LAST_PURGED], states[c].mem[LOG]) <==>
            Unwritten(states, steps, a, m, LAST_PURGED) && Unwritten(states, steps, m, c, LOG)
  {
    FieldKeptIff(states, steps, a, m, LAST_PURGED);
    FieldKeptIff(states, steps, m, c, LOG);
  }

  lemma PairHeldIff(states: seq<System>, steps: seq<Step>, a: nat, c: nat)
    requires Run(states, steps) && a < c < |steps|
    requires forall k :: a <= k < c ==> !Reopens(steps[k])
    requires |states[a].mem| == |states[c].mem| == FIELDS
    ensures (exists m :: a <= m <= c && HeldPair(states[m], states[a].mem[LAST_PURGED], states[c].mem[LOG]))
            <==> !PurgeThenLog(states, steps, a, c)
  {
    var purged, log := states[a].mem[LAST_PURGED], states[c].mem[LOG];
    if PurgeThenLog(states, steps, a, c) {
      forall m | a <= m <= c ensures !HeldPair(states[m], purged, log) {
        PairHeldAt(states, steps, a, m, c);
      }
    } else {
      var m := FirstWrite(states, steps, a, c, LAST_PURGED);
      PairHeldAt(states, steps, a, m, c);
      assert HeldPair(states[m], purged, log);
    }
  }

  /** A renamed image holds the given field as it was read, at a moment with no restart or crash since. */
  lemma RenamedField(states: seq<System>, steps: seq<Step>, d: nat, f: nat) returns (a: nat)
    requires Run(states, steps) && d < |steps| && steps[d].Rename? && f < FIELDS
    ensures a < d && |states[a].mem| == FIELDS
    ensures steps[a] == Read(steps[d].i) && steps[d].i < |states[a].tasks|
    ensures states[a].tasks[steps[d].i].Reading? && |states[a].tasks[steps[d].i].image| == f
    ensures states[d + 1].versions != [] && |Disk(states[d + 1])| == FIELDS
    ensures Disk(states[d + 1])[f] == states[a].mem[f]
    ensures forall x :: a < x <= d ==> HasRead(states[x], steps[d].i, f)
    ensures forall k :: a <= k < d ==> !Reopens(steps[k])
  {
    RunInv(states, steps, d);
    assert GoodTask(states[d], states[d].tasks[steps[d].i]);
    assert HasRead(states[d], steps[d].i, f);
    a := ReadMoment(states, steps, d, steps[d].i, f);
    RunInv(states, steps, a);
  }

  /**
    When an image is torn, exactly: every rename of every run puts on disk the last-purged id read at one
    moment and the log read at a later one, and memory held that pair at some moment in between if and
    only if no write of the last-purged id is followed by a write of the log between the two reads.
  */
  lemma ImageHeldTogetherIff(states: seq<System>, steps: seq<Step>, d: nat) returns (a: nat, c: nat)
    requires Run(states, steps) && d < |steps| && steps[d].Rename?
    ensures a < c < d && steps[a] == steps[c] == Read(steps[d].i)
    ensures states[d + 1].versions != [] && |Disk(states[d + 1])| == |states[a].mem| == |states[c].mem| == FIELDS
    ensures Disk(states[d + 1])[LAST_PURGED] == states[a].mem[LAST_PURGED]
    ensures Disk(states[d + 1])[LOG] == states[c].mem[LOG]
    ensures var file := Disk(states[d + 1]);
            (exists m :: a <= m <= c && HeldPair(states[m], file[LAST_PURGED], file[LOG]))
            <==> !PurgeThenLog(states, steps, a, c)
  {
    a := RenamedField(states, steps, d, LAST_PURGED);
    c := RenamedField(states, steps, d, LOG);
    assert !HasRead(states[a], steps[d].i, LOG);
    PairHeldIff(states, steps, a, c);
  }

  lemma FieldGrows(states: seq<System>, steps: seq<Step>, x: nat, y: nat, f: nat)
    requires Run(states, steps) && x <= y < |states| && f < FIELDS
    requires forall k :: x <= k < y ==> !Reopens(steps[k])
    ensures |states[x].mem| == |states[y].mem| == FIELDS && states[x].mem[f] <= states[y].mem[f]
  {
    RunInv(states, steps, x);
    forall k | x <= k < y ensures RaisedByWrites(states, steps, k, f) { WritesRaise(states, steps, k, f); }
    KeptIffUnwritten(states, steps, x, y, f);
  }

  /**
    The order of the reads protects the fields read later: if an image on disk shows a write of one field,
    or a newer one, then it shows every field read after it at least as memory held it when that write was
    made, as long as memory was not lost in between. So a purged log never reaches the disk without the
    state machine and the snapshot that memory held at the purge.
  */
  lemma LaterFieldsNotOlder(states: seq<System>, steps: seq<Step>, p: nat, d: nat, f: nat, g: nat)
    requires Run(states, steps) && p < d < |steps| && steps[d].Rename? && f < g < FIELDS
    requires WritesField(states[p], steps[p], f) && forall k :: p <= k < d ==> !Reopens(steps[k])
    ensures states[d + 1].versions != []
    ensures |Disk(states[d + 1])| == |states[p].mem| == |states[p + 1].mem| == FIELDS
    ensures Disk(states[d + 1])[f] >= states[p + 1].mem[f] ==> Disk(states[d + 1])[g] >= states[p].mem[g]
  {
    var c := RenamedField(states, steps, d, f);
    var e := RenamedField(states, steps, d, g);
    assert c < e by { assert !HasRead(states[c], steps[d].i, g); }
    WritesRaise(states, steps, p, f);
    if c <= p {
      FieldGrows(states, steps, c, p, f);
    } else {
      FieldGrows(states, steps, p, e, g);
    }
  }

  /** The disk holds the log as a purge left it, next to a last-purged id older than that purge. */
  ghost predicate HoldsHalfAPurge(s: System, j: nat) {
    && s.versions != [] && |Disk(s)| == FIELDS && j < |s.tasks|
    && s.tasks[j].Writing? && s.tasks[j].call == Purge && s.tasks[j].own.Keys == {LAST_PURGED, LOG}
    && Disk(s)[LOG] == s.tasks[j].own[LOG]
    && Disk(s)[LAST_PURGED] < s.tasks[j].own[LAST_PURGED]
  }

  /** Wherever a persist stands between those two reads, a purge running in between can tear its image. */
  lemma PurgeBetweenReadsTears(s: System, i: nat, j: nat) returns (steps: seq<Step>)
    requires Inv(s) && i < |s.tasks| && j < |s.tasks|
    requires s.tasks[i].Reading? && LAST_PURGED < |s.tasks[i].image| <= LOG
    requires s.tasks[j] == Writing(Purge, 0, map[])
    ensures Exec(s, steps).Some? && HoldsHalfAPurge(Exec(s, steps).value, j)
  {
    assert GoodTask(s, s.tasks[i]);
    var s1 := Do(s, Write(j));
    var s2 := Do(s1, Write(j));
    assert s2.tasks[j] == Writing(Purge, 2, map[LAST_PURGED := s.clock + 1, LOG := s.clock + 2]);
    var rest := PersistAlone(s2, i);
    steps := [Write(j), Write(j)] + rest;
    assert steps[0] == steps[1] == Write(j) && steps[1..][1..] == rest;
    assert Exec(s, steps) == Exec(s1, steps[1..]) == Exec(s2, rest);
    var image := s.tasks[i].image;
    assert image[LAST_PURGED] <= s.clock by { assert s.mem[..|image|][LAST_PURGED] == s.mem[LAST_PURGED]; }
  }

  /**
    And it happens: a state machine call that persists while the log store purges leaves the disk with
    half the purge.
  */
  lemma TornImageReachable(s0: System) returns (steps: seq<Step>)
    requires Initial(s0) && s0.tasks == [NotStarted(Apply), NotStarted(Purge)]
    ensures Exec(s0, steps).Some? && HoldsHalfAPurge(Exec(s0, steps).value, 1)
  {
    var begin, s1 := PersistBegins(s0, MACHINE);
    var s2 := Do(s1, Read(0));
    var s3 := Do(s2, Start(1));
    ExecThen(s0, begin, s1, Read(0));
    ExecThen(s0, begin + [Read(0)], s2, Start(1));
    var prefix := begin + [Read(0)] + [Start(1)];
    ExecInv(s0, prefix);
    var rest := PurgeBetweenReadsTears(s3, 0, 1);
    ExecConcat(s0, prefix, rest);
    steps := prefix + rest;
  }
}
