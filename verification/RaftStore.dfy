/**
  `MemoryRaftStore`: a keyed log with append, truncate and purge, the state machine, snapshots, and one
  JSON file rewritten after every change. Storage calls run one at a time here; Durability interleaves them.
*/
module RaftStore {
  import opened Prelude
  import opened Payload
  import opened Commit
  import opened RaftTypes
  import Durability

  // ---------- the log as one window ----------

  /** The first index the log may hold: just after the last purged one. */
  function WindowStart(lastPurged: Option<LogId>): nat {
    if lastPurged.Some? then lastPurged.value.index + 1 else 0
  }

  /** The keys are exactly `first .. first + |entries|`, each key holding the entry of that index. */
  ghost predicate IsWindow(log: map<nat, Entry>, first: nat, entries: seq<Entry>) {
    && (forall k :: k in log <==> first <= k < first + |entries|)
    && (forall i :: 0 <= i < |entries| ==> log[first + i] == entries[i])
    && (forall i :: 0 <= i < |entries| ==> entries[i].logId.index == first + i)
  }

  /** A batch carries consecutive indices beginning at `start`. */
  ghost predicate Consecutive(batch: seq<Entry>, start: nat) {
    forall i :: 0 <= i < |batch| ==> batch[i].logId.index == start + i
  }

  function LogIdIndex(id: Option<LogId>): int {
    if id.Some? then id.value.index else -1
  }

  function SnapshotIndex(snapshot: Option<Snapshot>): int {
    if snapshot.Some? then LogIdIndex(snapshot.value.meta.lastLogId) else -1
  }

  /**
    A log is a proper window for one start only, unless it is empty: an image that pairs a log with the
    last purged id of another moment reopens as a window exactly in those two cases.
  */
  lemma WindowStartDetermined(log: map<nat, Entry>, first: nat, entries: seq<Entry>, other: nat)
    requires IsWindow(log, first, entries)
    ensures (exists w :: IsWindow(log, other, w)) <==> other == first || entries == []
  {
    if entries == [] {
      assert IsWindow(log, other, []);
    } else {
      assert first in log && (first > 0 ==> first - 1 !in log);
    }
  }

  lemma WindowExtends(log: map<nat, Entry>, first: nat, entries: seq<Entry>, e: Entry)
    requires IsWindow(log, first, entries) && e.logId.index == first + |entries|
    ensures IsWindow(log[e.logId.index := e], first, entries + [e])
  {
  }

  /** What is left of a window's entries after a purge up to the given index. */
  function Unpurged(first: nat, entries: seq<Entry>, index: nat): seq<Entry>
    requires first <= index + 1
  {
    if index + 1 - first <= |entries| then entries[index + 1 - first..] else []
  }

  lemma WindowPurged(log: map<nat, Entry>, first: nat, entries: seq<Entry>, index: nat)
    requires IsWindow(log, first, entries) && first <= index + 1
    ensures IsWindow(log - (set k | k in log && k <= index), index + 1, Unpurged(first, entries, index))
  {
    var rest := Unpurged(first, entries, index);
    var drop := index + 1 - first;
    forall i | 0 <= i < |rest| ensures log[index + 1 + i] == rest[i] {
      assert log[first + (drop + i)] == entries[drop + i];
    }
  }

  /** Exactly the entries after that index are left. */
  lemma UnpurgedMeaning(first: nat, entries: seq<Entry>, index: nat)
    requires Consecutive(entries, first) && first <= index + 1
    ensures forall e :: e in Unpurged(first, entries, index) <==> e in entries && e.logId.index > index
  {
    var rest := Unpurged(first, entries, index);
    forall e | e in entries && e.logId.index > index ensures e in rest {
      var i :| 0 <= i < |entries| && entries[i] == e;
      assert rest[i - (index + 1 - first)] == e;
    }
  }

  // ---------- the snapshot trigger ----------

  /** Saturating 64-bit arithmetic on the last key and the snapshot's index. */
  function LogsSinceSnapshot(last: nat, snapshotIndex: int): nat
    requires -1 <= snapshotIndex
  {
    if snapshotIndex >= 0 then (if last >= snapshotIndex then last - snapshotIndex else 0)
    else if last < U64_MAX then last + 1 else U64_MAX
  }

  ghost function Uncovered(log: map<nat, Entry>, snapshotIndex: int): set<nat> {
    set k | k in log && k > snapshotIndex
  }

  function IndexRange(lo: nat, hi: nat): (s: set<nat>)
    ensures forall k :: k in s <==> lo <= k < hi
    ensures |s| == if lo <= hi then hi - lo else 0
    decreases hi
  {
    if lo >= hi then {} else IndexRange(lo, hi - 1) + {hi - 1}
  }

  lemma UncoveredCount(log: map<nat, Entry>, first: nat, entries: seq<Entry>, snapshotIndex: int)
    requires IsWindow(log, first, entries) && -1 <= snapshotIndex
    ensures var start := Max(first, snapshotIndex + 1);
            |Uncovered(log, snapshotIndex)| ==
            if start <= first + |entries| then first + |entries| - start else 0
  {
    assert Uncovered(log, snapshotIndex) == IndexRange(Max(first, snapshotIndex + 1), first + |entries|);
  }

  function SnapshotDue(lastKey: Option<nat>, snapshotIndex: int, threshold: nat): bool
    requires -1 <= snapshotIndex
  {
    threshold != 0 && lastKey.Some? && LogsSinceSnapshot(lastKey.value, snapshotIndex) >= threshold
  }

  /** The greatest key of a window, as the log's iterator ends on it. */
  function LastKey(first: nat, entries: seq<Entry>): Option<nat> {
    if entries == [] then None else Some(first + |entries| - 1)
  }

  /** The trigger counts the log indices the snapshot does not cover, at this threshold. */
  ghost predicate TriggerExact(log: map<nat, Entry>, first: nat, entries: seq<Entry>, snapshotIndex: int, threshold: nat)
    requires -1 <= snapshotIndex
  {
    SnapshotDue(LastKey(first, entries), snapshotIndex, threshold)
    <==> threshold != 0 && |Uncovered(log, snapshotIndex)| >= threshold
  }

  /**
    The trigger is exact for every 64-bit threshold if and only if no purge ran past the snapshot, or
    the log is empty anyway.
  */
  lemma TriggerExactIff(log: map<nat, Entry>, first: nat, entries: seq<Entry>, snapshotIndex: int)
    requires IsWindow(log, first, entries) && -1 <= snapshotIndex
    requires first + |entries| <= U64_MAX
    ensures (forall threshold: nat :: threshold <= U64_MAX ==>
               TriggerExact(log, first, entries, snapshotIndex, threshold))
       <==> first <= snapshotIndex + 1 || entries == []
  {
    UncoveredCount(log, first, entries, snapshotIndex);
    if first > snapshotIndex + 1 && entries != [] {
      var threshold := |entries| + 1;
      assert |Uncovered(log, snapshotIndex)| == |entries|;
      assert !TriggerExact(log, first, entries, snapshotIndex, threshold);
    }
  }

  // ---------- reads ----------

  datatype LogState = LogState(lastPurged: Option<LogId>, lastLogId: Option<LogId>)

  /** The position of index `k` in a window of `n` entries, clamped to its ends. */
  function Clamp(k: nat, first: nat, n: nat): (c: nat)
    ensures c <= n
  {
    if k < first then 0 else if k > first + n then n else k - first
  }

  /** The part of the window whose indices lie in `lo .. hi`. */
  function Slice(first: nat, entries: seq<Entry>, lo: nat, hi: nat): seq<Entry>
    requires lo <= hi
  {
    entries[Clamp(lo, first, |entries|)..Clamp(hi, first, |entries|)]
  }

  /** What is left of a window's entries after truncation to the given last id. */
  function Kept(first: nat, entries: seq<Entry>, last: Option<LogId>): seq<Entry> {
    entries[..Clamp(if last.Some? then last.value.index + 1 else 0, first, |entries|)]
  }

  lemma WindowTruncated(log: map<nat, Entry>, first: nat, entries: seq<Entry>, last: Option<LogId>, start: nat)
    requires IsWindow(log, first, entries) && start == if last.Some? then last.value.index + 1 else 0
    ensures IsWindow(log - (set k | k in log && start <= k), first, Kept(first, entries, last))
  {
  }

  /** Exactly the entries up to that index are left, as a prefix. */
  lemma KeptMeaning(first: nat, entries: seq<Entry>, last: Option<LogId>)
    requires Consecutive(entries, first)
    ensures Kept(first, entries, last) <= entries
    ensures forall i :: 0 <= i < |entries| ==>
              (i < |Kept(first, entries, last)| <==> last.Some? && entries[i].logId.index <= last.value.index)
  {
  }

  /** The keys of a window within `lo .. hi` are one contiguous stretch. */
  lemma SliceKeys(log: map<nat, Entry>, first: nat, entries: seq<Entry>, lo: nat, hi: nat)
    requires IsWindow(log, first, entries) && lo <= hi
    ensures var from, to := first + Clamp(lo, first, |entries|), first + Clamp(hi, first, |entries|);
            from <= to && forall k :: k in log && lo <= k < hi <==> from <= k < to
  {
  }

  lemma SliceMember(first: nat, entries: seq<Entry>, lo: nat, hi: nat, i: nat)
    requires Consecutive(entries, first) && lo <= hi && i < |entries| && lo <= entries[i].logId.index < hi
    ensures entries[i] in Slice(first, entries, lo, hi)
  {
    assert Slice(first, entries, lo, hi)[i - Clamp(lo, first, |entries|)] == entries[i];
  }

  lemma SliceElement(first: nat, entries: seq<Entry>, lo: nat, hi: nat, i: nat)
    requires Consecutive(entries, first) && lo <= hi && i < |Slice(first, entries, lo, hi)|
    ensures var c := Clamp(lo, first, |entries|);
            && c + i < |entries| && Slice(first, entries, lo, hi)[i] == entries[c + i]
            && lo <= entries[c + i].logId.index == first + c + i < hi
  {
  }

  /** The slice holds exactly the entries with an index in `lo .. hi`, ascending. */
  lemma SliceMeaning(first: nat, entries: seq<Entry>, lo: nat, hi: nat)
    requires Consecutive(entries, first) && lo <= hi
    ensures var part := Slice(first, entries, lo, hi);
            && (forall e :: e in part <==> e in entries && lo <= e.logId.index < hi)
            && (forall i, j :: 0 <= i < j < |part| ==> part[i].logId.index < part[j].logId.index)
  {
    var part := Slice(first, entries, lo, hi);
    forall e | e in entries && lo <= e.logId.index < hi ensures e in part {
      var i :| 0 <= i < |entries| && entries[i] == e;
      SliceMember(first, entries, lo, hi, i);
    }
    forall i | 0 <= i < |part|
      ensures part[i] in entries && lo <= part[i].logId.index < hi
      ensures part[i].logId.index == first + Clamp(lo, first, |entries|) + i
    {
      SliceElement(first, entries, lo, hi, i);
    }
  }

  lemma SliceFound(log: map<nat, Entry>, first: nat, entries: seq<Entry>, lo: nat, hi: nat, found: seq<Entry>)
    requires IsWindow(log, first, entries) && lo <= hi
    requires var c := Clamp(lo, first, |entries|);
             && |found| == Clamp(hi, first, |entries|) - c
             && forall i :: 0 <= i < |found| ==> first + c + i in log && found[i] == log[first + c + i]
    ensures found == Slice(first, entries, lo, hi)
  {
    var c := Clamp(lo, first, |entries|);
    forall i | 0 <= i < |found| ensures found[i] == entries[c + i] {
      assert log[first + (c + i)] == entries[c + i];
    }
  }

  lemma GreatestExists(s: set<nat>) returns (m: nat)
    requires s != {}
    ensures m in s && forall k :: k in s ==> k <= m
    decreases s
  {
    var x :| x in s;
    var rest := s - {x};
    assert s == rest + {x};
    m := x;
    if rest != {} {
      var r := GreatestExists(rest);
      if x < r { m := r; }
    }
  }

  lemma LeastExists(s: set<nat>) returns (m: nat)
    requires s != {}
    ensures m in s && forall k :: k in s ==> m <= k
    decreases s
  {
    var x :| x in s;
    var rest := s - {x};
    assert s == rest + {x};
    m := x;
    if rest != {} {
      var r := LeastExists(rest);
      if r < x { m := r; }
    }
  }

  method LeastKey(keys: set<nat>) returns (key: nat)
    requires keys != {}
    ensures key in keys && forall k :: k in keys ==> key <= k
  {
    ghost var _ := LeastExists(keys);
    key :| key in keys && forall k :: k in keys ==> key <= k;
  }

  /** An ordered map's iterator over a contiguous stretch of keys: least key first. */
  method WalkUp(log: map<nat, Entry>, keys: set<nat>, ghost lo: nat, ghost hi: nat) returns (found: seq<Entry>)
    requires lo <= hi && keys <= log.Keys
    requires forall k :: k in keys <==> lo <= k < hi
    ensures |found| == hi - lo
    ensures forall i :: 0 <= i < hi - lo ==> found[i] == log[lo + i]
  {
    var rest := keys;
    found := [];
    while rest != {}
      invariant |found| <= hi - lo
      invariant forall k :: k in rest <==> lo + |found| <= k < hi
      invariant forall i :: 0 <= i < |found| ==> found[i] == log[lo + i]
      decreases rest
    {
      var key := LeastKey(rest);
      assert key == lo + |found| by { assert |found| < hi - lo; assert lo + |found| in rest; }
      found := found + [log[key]];
      rest := rest - {key};
    }
    assert lo + |found| !in rest;
  }

  /** Each payload is answered with the one it found, other entries with nothing. */
  ghost predicate Answer(sm: StateMachine, batch: seq<Entry>, responses: seq<Option<PayloadEnvelope>>) {
    |responses| <= |batch| && forall i :: 0 <= i < |responses| ==>
      responses[i] == if batch[i].payload.Normal? then ApplyAll(sm, batch[..i]).latest else None
  }

  lemma ApplyNext(sm: StateMachine, batch: seq<Entry>, i: nat)
    requires i < |batch|
    ensures ApplyAll(sm, batch[..i + 1]) == ApplyEntry(ApplyAll(sm, batch[..i]), batch[i])
    ensures ValidEntries(batch[..i + 1]) <==> ValidEntries(batch[..i]) && ValidEntry(batch[i])
  {
    assert batch[..i + 1][..i] == batch[..i];
    assert forall k :: 0 <= k < i ==> batch[..i + 1][k] == batch[..i][k];
  }

  class MemoryRaftStore {
    const durable: bool
    var lastPurged: Option<LogId>
    var committed: Option<LogId>
    var log: map<nat, Entry>
    var vote: Option<Vote>
    var sm: StateMachine
    var snapshot: Option<Snapshot>
    var snapshotCounter: nat
    var file: StoreFile

    /** The abstract log: the entries after the last purged index. */
    ghost var entries: seq<Entry>

    ghost predicate Valid()
      reads this
    {
      IsWindow(log, WindowStart(lastPurged), entries)
    }

    function CurrentImage(): Image
      reads this
    {
      Image(lastPurged, committed, log, vote, sm, snapshot, snapshotCounter)
    }

    /** Acknowledged calls of a durable store leave the whole image on disk, failed ones leave it alone. */
    twostate predicate Persisted(acked: bool)
      reads this
    {
      file == if acked && durable then Holds(CurrentImage()) else old(file)
    }

    /** A call writes no field but those Durability has it write. */
    twostate predicate Wrote(call: Durability.Call)
      reads this
    {
      var fields := Durability.Writes(call);
      && (Durability.LAST_PURGED !in fields ==> lastPurged == old(lastPurged))
      && (Durability.COMMITTED !in fields ==> committed == old(committed))
      && (Durability.LOG !in fields ==> log == old(log))
      && (Durability.VOTE !in fields ==> vote == old(vote))
      && (Durability.MACHINE !in fields ==> sm == old(sm))
      && (Durability.SNAPSHOT !in fields ==> snapshot == old(snapshot))
      && (Durability.SNAPSHOT_COUNTER !in fields ==> snapshotCounter == old(snapshotCounter))
    }

    constructor (image: Image, ghost window: seq<Entry>)
      ensures durable && CurrentImage() == image && file == Holds(image) && entries == window
    {
      durable := true;
      lastPurged := image.lastPurged;
      committed := image.committed;
      log := image.log;
      vote := image.vote;
      sm := image.sm;
      snapshot := image.snapshot;
      snapshotCounter := image.snapshotCounter;
      entries := window;
      file := Holds(image);
    }

    method PersistToDisk(ioOk: bool) returns (r: Result<(), StoreError>)
      modifies this`file
      ensures r == if !durable || ioOk then Ok(()) else Err(Io)
      ensures Persisted(r.Ok?)
    {
      if !durable { return Ok(()); }
      if !ioOk { return Err(Io); }
      file := Holds(CurrentImage());
      return Ok(());
    }

    method SaveVote(v: Vote, ioOk: bool) returns (r: Result<(), StoreError>)
      requires Valid()
      modifies this`vote, this`file
      ensures Valid() && vote == Some(v) && Persisted(r.Ok?) && Wrote(Durability.SaveVote)
      ensures r == if !durable || ioOk then Ok(()) else Err(Io)
    {
      vote := Some(v);
      r := PersistToDisk(ioOk);
    }

    method SaveCommitted(id: Option<LogId>, ioOk: bool) returns (r: Result<(), StoreError>)
      requires Valid()
      modifies this`committed, this`file
      ensures Valid() && committed == id && Persisted(r.Ok?) && Wrote(Durability.SaveCommitted)
      ensures r == if !durable || ioOk then Ok(()) else Err(Io)
    {
      committed := id;
      r := PersistToDisk(ioOk);
    }

    /** Consecutive entries after the window extend it. */
    method Append(batch: seq<Entry>, ioOk: bool) returns (r: Result<(), StoreError>)
      requires Valid()
      requires Consecutive(batch, WindowStart(lastPurged) + |entries|)
      modifies this`log, this`entries, this`file
      ensures Valid() && entries == old(entries) + batch && Persisted(r.Ok?) && Wrote(Durability.Append)
      ensures r == if !durable || ioOk then Ok(()) else Err(Io)
    {
      var i := 0;
      while i < |batch|
        invariant 0 <= i <= |batch|
        invariant entries == old(entries) + batch[..i]
        invariant Valid()
        invariant file == old(file)
      {
        WindowExtends(log, WindowStart(lastPurged), entries, batch[i]);
        log := log[batch[i].logId.index := batch[i]];
        entries := entries + [batch[i]];
        i := i + 1;
      }
      r := PersistToDisk(ioOk);
    }

    method RemoveKeys(keys: set<nat>)
      modifies this`log
      ensures log == old(log) - keys
    {
      var rest := keys;
      while rest != {}
        invariant rest <= keys
        invariant log == old(log) - (keys - rest)
        decreases rest
      {
        var key :| key in rest;
        log := log - {key};
        rest := rest - {key};
      }
    }

    /** Everything after the given id goes; the window keeps its start. */
    method TruncateAfter(last: Option<LogId>, ioOk: bool) returns (r: Result<(), StoreError>)
      requires Valid()
      modifies this`log, this`entries, this`file
      ensures Valid() && Persisted(r.Ok?) && Wrote(Durability.TruncateAfter)
      ensures r == if !durable || ioOk then Ok(()) else Err(Io)
      ensures entries == Kept(WindowStart(lastPurged), old(entries), last)
    {
      var start: nat := if last.Some? then last.value.index + 1 else 0;
      var keys := set k | k in log && start <= k;
      ghost var rest := Kept(WindowStart(lastPurged), entries, last);
      assert IsWindow(log - keys, WindowStart(lastPurged), rest) by {
        WindowTruncated(log, WindowStart(lastPurged), entries, last, start);
      }
      RemoveKeys(keys);
      entries := rest;
      r := PersistToDisk(ioOk);
    }

    /** The window now starts just after `id`, even when `id` lies beyond its old end. */
    method Purge(id: LogId, ioOk: bool) returns (r: Result<(), StoreError>)
      requires Valid()
      requires LogIdIndex(lastPurged) <= id.index
      modifies this`lastPurged, this`log, this`entries, this`file
      ensures Valid() && lastPurged == Some(id) && Persisted(r.Ok?) && Wrote(Durability.Purge)
      ensures r == if !durable || ioOk then Ok(()) else Err(Io)
      ensures entries == Unpurged(WindowStart(old(lastPurged)), old(entries), id.index)
    {
      var keys := set k | k in log && k <= id.index;
      ghost var rest := Unpurged(WindowStart(lastPurged), entries, id.index);
      assert IsWindow(log - keys, id.index + 1, rest) by {
        WindowPurged(log, WindowStart(lastPurged), entries, id.index);
      }
      lastPurged := Some(id);
      RemoveKeys(keys);
      entries := rest;
      r := PersistToDisk(ioOk);
    }

    /** The true ends of the window; an empty window ends at the last purged id. */
    method GetLogState() returns (state: LogState)
      requires Valid()
      ensures state.lastPurged == lastPurged
      ensures state.lastLogId == if entries != [] then Some(entries[|entries| - 1].logId) else lastPurged
      ensures LogIdIndex(state.lastLogId) + 1 == WindowStart(lastPurged) + |entries|
    {
      var last: Option<LogId> := None;
      assert entries != [] ==> WindowStart(lastPurged) in log;
      if log.Keys != {} {
        ghost var _ := GreatestExists(log.Keys);
        var key :| key in log.Keys && forall k :: k in log.Keys ==> k <= key;
        assert entries != [] by { assert key in log; }
        assert WindowStart(lastPurged) + |entries| - 1 in log;
        last := Some(log[key].logId);
      }
      state := LogState(lastPurged, if last.Some? then last else lastPurged);
    }

    /** A range read walks the keys upwards and returns that slice of the window, in order. */
    method TryGetLogEntries(lo: nat, hi: nat) returns (found: seq<Entry>)
      requires Valid() && lo <= hi
      ensures found == Slice(WindowStart(lastPurged), entries, lo, hi)
      ensures forall e :: e in found <==> e in entries && lo <= e.logId.index < hi
      ensures forall i, j :: 0 <= i < j < |found| ==> found[i].logId.index < found[j].logId.index
    {
      var keys := set k | k in log && lo <= k < hi;
      ghost var first := WindowStart(lastPurged);
      ghost var from := first + Clamp(lo, first, |entries|);
      ghost var to := first + Clamp(hi, first, |entries|);
      SliceKeys(log, first, entries, lo, hi);
      found := WalkUp(log, keys, from, to);
      SliceFound(log, first, entries, lo, hi, found);
      SliceMeaning(first, entries, lo, hi);
    }

    /**
      Whether enough has been logged since the snapshot. As long as no purge passed the snapshot, that is
      the number of log indices the snapshot does not cover.
    */
    method ShouldSnapshot(threshold: nat) returns (due: bool)
      requires Valid() && threshold <= U64_MAX
      ensures due == SnapshotDue(LastKey(WindowStart(lastPurged), entries), SnapshotIndex(snapshot), threshold)
      ensures due ==> threshold != 0 && entries != []
      ensures threshold != 0 && entries != [] ==>
                var last := entries[|entries| - 1].logId.index;
                if snapshot.Some? && snapshot.value.meta.lastLogId.Some?
                then due == (last >= snapshot.value.meta.lastLogId.value.index + threshold)
                else due == (last + 1 >= threshold)
      ensures LogIdIndex(lastPurged) <= SnapshotIndex(snapshot) ==>
                due == (threshold != 0 && |Uncovered(log, SnapshotIndex(snapshot))| >= threshold)
    {
      UncoveredCount(log, WindowStart(lastPurged), entries, SnapshotIndex(snapshot));
      if threshold == 0 { return false; }
      assert entries != [] ==> WindowStart(lastPurged) in log;
      if log.Keys == {} { return false; }
      ghost var _ := GreatestExists(log.Keys);
      var last :| last in log.Keys && forall k :: k in log.Keys ==> k <= last;
      assert last in log && WindowStart(lastPurged) + |entries| - 1 in log;
      return LogsSinceSnapshot(last, SnapshotIndex(snapshot)) >= threshold;
    }

    /** The snapshot carries the state machine and its last id, under a fresh number. */
    method BuildSnapshot(ioOk: bool) returns (r: Result<Snapshot, StoreError>)
      requires Valid()
      modifies this`snapshot, this`snapshotCounter, this`file
      ensures Valid() && snapshotCounter == old(snapshotCounter) + 1
      ensures snapshot == Some(SnapshotOf(sm, snapshotCounter)) && snapshot.value.data == Encoded(sm)
      ensures snapshot.value.meta.lastLogId == snapshot.value.meta.id.last == sm.lastApplied
      ensures snapshot.value.meta.lastMembership == sm.lastMembership
      ensures snapshot.value.meta.id.counter == old(snapshotCounter) + 1
      ensures Wrote(Durability.BuildSnapshot)
      ensures if !durable || ioOk then r.Ok? && Some(r.value) == snapshot else r == Err(Io)
      ensures Persisted(r.Ok?)
    {
      snapshotCounter := snapshotCounter + 1;
      var meta := SnapshotMeta(sm.lastApplied, sm.lastMembership, SnapshotId(sm.lastApplied, snapshotCounter));
      var built := Snapshot(meta, Encoded(sm));
      snapshot := Some(built);
      var p := PersistToDisk(ioOk);
      r := if p.Ok? then Ok(built) else Err(Io);
    }

    /** Bytes that do not decode change nothing; otherwise machine and snapshot are both replaced. */
    method InstallSnapshot(meta: SnapshotMeta, data: SnapshotData, ioOk: bool) returns (r: Result<(), StoreError>)
      requires Valid()
      modifies this`sm, this`snapshot, this`file
      ensures Valid()
      ensures data.Undecodable? ==> r == Err(InvalidData) && sm == old(sm) && snapshot == old(snapshot)
      ensures data.Encoded? ==> sm == data.sm && snapshot == Some(Snapshot(meta, data))
      ensures data.Encoded? ==> r == if !durable || ioOk then Ok(()) else Err(Io)
      ensures Persisted(r.Ok?) && Wrote(Durability.InstallSnapshot)
    {
      if data.Undecodable? { return Err(InvalidData); }
      sm := data.sm;
      snapshot := Some(Snapshot(meta, data));
      r := PersistToDisk(ioOk);
    }

    /**
      Valid entries are all applied and each is answered with the payload it found; the first invalid one
      ends the call with an error and nothing is persisted.
    */
    method Apply(batch: seq<Entry>, ioOk: bool)
      returns (r: Result<(), StoreError>, responses: seq<Option<PayloadEnvelope>>)
      requires Valid()
      modifies this`sm, this`file
      ensures Valid() && Persisted(r.Ok?) && Wrote(Durability.Apply)
      ensures ValidEntries(batch) ==> sm == ApplyAll(old(sm), batch)
      ensures r.Ok? <==> ValidEntries(batch) && (!durable || ioOk)
      ensures r.Ok? ==> |responses| == |batch| && Answer(old(sm), batch, responses)
      ensures r.Err? ==> responses == []
      ensures !ValidEntries(batch) ==>
                exists i :: && 0 <= i < |batch| && !ValidEntry(batch[i]) && ValidEntries(batch[..i])
                            && sm == ApplyAll(old(sm), batch[..i + 1])
    {
      responses := [];
      var i := 0;
      while i < |batch|
        invariant 0 <= i <= |batch| && |responses| == i
        invariant sm == ApplyAll(old(sm), batch[..i])
        invariant ValidEntries(batch[..i])
        invariant Answer(old(sm), batch, responses)
        invariant file == old(file)
      {
        var entry := batch[i];
        ApplyNext(old(sm), batch, i);
        sm := sm.(lastApplied := Some(entry.logId));
        var response: Option<PayloadEnvelope> := None;
        match entry.payload {
          case Blank =>
          case Normal(p) =>
            if !p.Valid() {
              assert !ValidEntry(batch[i]);
              return Err(InvalidData), [];
            }
            response := sm.latest;
            sm := sm.(latest := ApplyPayload(sm.latest, p));
          case Membership(config) =>
            sm := sm.(lastMembership := StoredMembership(Some(entry.logId), config));
        }
        responses := responses + [response];
        i := i + 1;
      }
      assert batch[..i] == batch;
      r := PersistToDisk(ioOk);
      if r.Err? { responses := []; }
    }
  }

  /**
    `open`: a readable file becomes memory and is written back, so what was persisted comes back field by
    field; it is a proper store again whenever the image's log is a window.
  */
  method OpenStore(file: StoreFile, ioOk: bool, ghost window: seq<Entry>)
    returns (r: Result<MemoryRaftStore, StoreError>)
    ensures r.Ok? <==> !file.Corrupt? && !file.Unreadable? && ioOk
    ensures r.Err? ==> r.error == if file.Corrupt? then InvalidData else Io
    ensures r.Ok? ==> fresh(r.value) && r.value.durable && r.value.file == Holds(r.value.CurrentImage())
    ensures r.Ok? && file.Holds? ==> r.value.CurrentImage() == file.image
    ensures r.Ok? && !file.Holds? ==>
              && r.value.lastPurged == r.value.committed == None && r.value.log == map[] && r.value.vote == None
              && r.value.sm == StateMachine(None, StoredMembership(None, {}), None)
              && r.value.snapshot == None && r.value.snapshotCounter == 0
    ensures r.Ok? && IsWindow(r.value.log, WindowStart(r.value.lastPurged), window) ==>
              r.value.Valid() && r.value.entries == window
  {
    var image := OpenImage(file);
    if image.Err? { return Err(image.error); }
    if !ioOk { return Err(Io); }
    var store := new MemoryRaftStore(image.value, window);
    r := Ok(store);
  }

  /**
    Round trip: a durable store whose last call was acknowledged, closed and opened again, is the same
    store, field by field and with the same window.
  */
  method Reopen(store: MemoryRaftStore, ioOk: bool) returns (r: Result<MemoryRaftStore, StoreError>)
    requires store.Valid() && store.file == Holds(store.CurrentImage())
    ensures r.Ok? <==> ioOk
    ensures r.Ok? ==> fresh(r.value) && r.value.Valid() && r.value.entries == store.entries
    ensures r.Ok? ==> r.value.CurrentImage() == store.CurrentImage()
  {
    r := OpenStore(store.file, ioOk, store.entries);
  }

  /** Every payload that went through `commit_unsafe_payload` is checked before it is proposed. */
  function Propose(p: PayloadEnvelope): Result<EntryPayload, TypeError> {
    match p.BlockNumber()
    case Err(e) => Err(e)
    case Ok(_) =>
      match p.BlockHash()
      case Err(e) => Err(e)
      case Ok(_) => Ok(Normal(p))
  }

  /** A remark: so a log made of proposals, membership changes and blanks never makes `apply` fail. */
  lemma ProposedLogsApply(es: seq<Entry>)
    requires forall i :: 0 <= i < |es| && es[i].payload.Normal? ==>
               Propose(es[i].payload.payload) == Ok(es[i].payload)
    ensures ValidEntries(es)
  {
  }
}
