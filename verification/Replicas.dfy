/**
  A cluster of replicas over one committed log: each applies batches, builds and installs snapshots,
  writes parts of its memory to disk and reopens after a crash. However they got there, replicas at the
  same index agree.
*/
module Replicas {
  import opened Prelude
  import opened RaftTypes

  /** What matters of one node: memory and disk copies of the state machine and of the snapshot. */
  datatype Replica = Replica(
    sm: StateMachine,
    snapshot: Option<Snapshot>,
    diskSm: StateMachine,
    diskSnapshot: Option<Snapshot>)

  /** `sent` holds every snapshot any node ever built: any of them may still arrive somewhere. */
  datatype Cluster = Cluster(nodes: map<nat, Replica>, sent: set<Snapshot>)

  /** The committed log starts at index 0 and its indices are consecutive. */
  ghost predicate CommittedLog(log: seq<Entry>) {
    forall i :: 0 <= i < |log| ==> log[i].logId.index == i
  }

  /** How many entries a state machine has behind it. */
  function Applied(sm: StateMachine): nat {
    if sm.lastApplied.Some? then sm.lastApplied.value.index + 1 else 0
  }

  /** A snapshot that reaches a node decodes: its bytes were produced by `SnapshotOf`. */
  function Decoded(s: Snapshot): StateMachine {
    if s.data.Encoded? then s.data.sm else INITIAL
  }

  datatype Step =
    | ApplyBatch(node: nat, count: nat)
    | BuildSnapshot(node: nat, counter: nat)
    | InstallSnapshot(node: nat, received: Snapshot)
    | WriteMachine(node: nat)
    | WriteSnapshot(node: nat)
    | Reopen(node: nat)

  /** One step of one node; a crash may fall between any two writes, so each field is written on its own. */
  ghost predicate Next(log: seq<Entry>, c: Cluster, step: Step, d: Cluster) {
    && step.node in c.nodes
    && var r := c.nodes[step.node];
       match step
       case ApplyBatch(n, count) =>
         && Applied(r.sm) + count <= |log|
         && d == c.(nodes := c.nodes[n := r.(
                sm := ApplyAll(r.sm, log[Applied(r.sm)..Applied(r.sm) + count]))])
       case BuildSnapshot(n, counter) =>
         && d == Cluster(c.nodes[n := r.(snapshot := Some(SnapshotOf(r.sm, counter)))],
                         c.sent + {SnapshotOf(r.sm, counter)})
       case InstallSnapshot(n, received) =>
         && received in c.sent
         && d == c.(nodes := c.nodes[n := r.(sm := Decoded(received), snapshot := Some(received))])
       case WriteMachine(n) => d == c.(nodes := c.nodes[n := r.(diskSm := r.sm)])
       case WriteSnapshot(n) => d == c.(nodes := c.nodes[n := r.(diskSnapshot := r.snapshot)])
       case Reopen(n) => d == c.(nodes := c.nodes[n := r.(sm := r.diskSm, snapshot := r.diskSnapshot)])
  }

  ghost predicate Initial(c: Cluster) {
    c.sent == {} && forall n :: n in c.nodes ==> c.nodes[n] == Replica(INITIAL, None, INITIAL, None)
  }

  ghost predicate Run(log: seq<Entry>, states: seq<Cluster>, steps: seq<Step>) {
    && |states| == |steps| + 1
    && Initial(states[0])
    && forall i :: 0 <= i < |steps| ==> Next(log, states[i], steps[i], states[i + 1])
  }

  // ---------- the invariant ----------

  /** The machine is what replaying the whole log up to its last applied index gives. */
  ghost predicate IsReplay(log: seq<Entry>, sm: StateMachine) {
    Applied(sm) <= |log| && sm == Replay(log[..Applied(sm)])
  }

  ghost predicate GoodSnapshot(log: seq<Entry>, s: Snapshot) {
    && s.data.Encoded? && IsReplay(log, s.data.sm)
    && s.meta.lastLogId == s.data.sm.lastApplied
    && s.meta.lastMembership == s.data.sm.lastMembership
  }

  ghost predicate GoodReplica(log: seq<Entry>, r: Replica) {
    && IsReplay(log, r.sm) && IsReplay(log, r.diskSm)
    && (r.snapshot.Some? ==> GoodSnapshot(log, r.snapshot.value))
    && (r.diskSnapshot.Some? ==> GoodSnapshot(log, r.diskSnapshot.value))
  }

  ghost predicate Inv(log: seq<Entry>, c: Cluster) {
    && (forall n :: n in c.nodes ==> GoodReplica(log, c.nodes[n]))
    && (forall s :: s in c.sent ==> GoodSnapshot(log, s))
  }

  /** Replaying `n` entries leaves the machine `n` entries along. */
  lemma ReplayApplied(log: seq<Entry>, n: nat)
    requires CommittedLog(log) && n <= |log|
    ensures Applied(Replay(log[..n])) == n
  {
  }

  /** Snapshot plus suffix is full replay: applying what follows a replayed prefix extends the replay. */
  lemma PrefixPlusSuffix(log: seq<Entry>, sm: StateMachine, count: nat)
    requires CommittedLog(log) && IsReplay(log, sm) && Applied(sm) + count <= |log|
    ensures ApplyAll(sm, log[Applied(sm)..Applied(sm) + count]) == Replay(log[..Applied(sm) + count])
    ensures IsReplay(log, ApplyAll(sm, log[Applied(sm)..Applied(sm) + count]))
    ensures Applied(ApplyAll(sm, log[Applied(sm)..Applied(sm) + count])) == Applied(sm) + count
  {
    var n := Applied(sm);
    ApplyAllConcat(INITIAL, log[..n], log[n..n + count]);
    assert log[..n] + log[n..n + count] == log[..n + count];
    ReplayApplied(log, n + count);
  }

  lemma InvStep(log: seq<Entry>, c: Cluster, step: Step, d: Cluster)
    requires CommittedLog(log) && Inv(log, c) && Next(log, c, step, d)
    ensures Inv(log, d)
  {
    var r := c.nodes[step.node];
    assert GoodReplica(log, r);
    match step
    case ApplyBatch(n, count) => PrefixPlusSuffix(log, r.sm, count);
    case BuildSnapshot(n, counter) => assert GoodSnapshot(log, SnapshotOf(r.sm, counter));
    case InstallSnapshot(n, received) => assert GoodSnapshot(log, received);
    case WriteMachine(n) =>
    case WriteSnapshot(n) =>
    case Reopen(n) =>
  }

  /** Applying moves the node on by exactly the batch; installing takes it to exactly the snapshot's last id. */
  lemma StepProgress(log: seq<Entry>, c: Cluster, step: Step, d: Cluster)
    requires CommittedLog(log) && Inv(log, c) && Next(log, c, step, d)
    ensures step.node in d.nodes
    ensures step.ApplyBatch? ==> Applied(d.nodes[step.node].sm) == Applied(c.nodes[step.node].sm) + step.count
    ensures step.InstallSnapshot? ==>
              && d.nodes[step.node].sm.lastApplied == step.received.meta.lastLogId
              && d.nodes[step.node].sm.lastMembership == step.received.meta.lastMembership
              && d.nodes[step.node].snapshot == Some(step.received)
    ensures step.BuildSnapshot? ==>
              && d.nodes[step.node].sm == c.nodes[step.node].sm && d.nodes[step.node].snapshot.Some?
              && d.nodes[step.node].snapshot.value in d.sent
              && d.nodes[step.node].snapshot.value.meta.lastLogId == c.nodes[step.node].sm.lastApplied
    ensures forall n :: n in c.nodes && n != step.node ==> n in d.nodes && d.nodes[n] == c.nodes[n]
  {
    var r := c.nodes[step.node];
    assert GoodReplica(log, r);
    if step.ApplyBatch? { PrefixPlusSuffix(log, r.sm, step.count); }
    if step.InstallSnapshot? { assert GoodSnapshot(log, step.received); }
  }

  lemma {:induction false} RunInv(log: seq<Entry>, states: seq<Cluster>, steps: seq<Step>, i: nat)
    requires CommittedLog(log) && Run(log, states, steps) && i < |states|
    ensures Inv(log, states[i])
  {
    if i == 0 {
      assert log[..0] == [];
    } else {
      RunInv(log, states, steps, i - 1);
      InvStep(log, states[i - 1], steps[i - 1], states[i]);
    }
  }

  /**
    Convergence: two nodes, at any two moments of any run, that reached the same last-applied index hold
    the same state machine, namely the replay of the committed log up to there.
  */
  lemma ReplicasConverge(
    log: seq<Entry>, states: seq<Cluster>, steps: seq<Step>, i: nat, j: nat, a: nat, b: nat)
    requires CommittedLog(log) && Run(log, states, steps) && i < |states| && j < |states|
    requires a in states[i].nodes && b in states[j].nodes
    requires Applied(states[i].nodes[a].sm) == Applied(states[j].nodes[b].sm)
    ensures states[i].nodes[a].sm == states[j].nodes[b].sm
    ensures IsReplay(log, states[i].nodes[a].sm)
  {
    RunInv(log, states, steps, i);
    RunInv(log, states, steps, j);
    assert GoodReplica(log, states[i].nodes[a]) && GoodReplica(log, states[j].nodes[b]);
  }

  /** Any snapshot in the cluster, followed by the log after it, restores the full replay. */
  lemma SnapshotPlusSuffix(
    log: seq<Entry>, states: seq<Cluster>, steps: seq<Step>, i: nat, s: Snapshot)
    requires CommittedLog(log) && Run(log, states, steps) && i < |states| && s in states[i].sent
    ensures s.data.Encoded? && Applied(s.data.sm) <= |log|
    ensures s.meta.lastLogId == s.data.sm.lastApplied
    ensures ApplyAll(s.data.sm, log[Applied(s.data.sm)..]) == Replay(log)
  {
    RunInv(log, states, steps, i);
    assert GoodSnapshot(log, s);
    var n := Applied(s.data.sm);
    PrefixPlusSuffix(log, s.data.sm, |log| - n);
    assert log[n..|log|] == log[n..] && log[..|log|] == log;
  }
}
