/** What the Raft store keeps: log entries, the replicated state machine, snapshots and the disk image. */
module RaftTypes {
  import opened Prelude
  import opened Payload
  import opened Commit

  /** `leader` stands for the committed leader id (term and node). */
  datatype LogId = LogId(leader: nat, index: nat)

  datatype Vote = Vote(term: nat, node: string, committed: bool)

  datatype EntryPayload =
    | Blank
    | Normal(payload: PayloadEnvelope)
    | Membership(config: set<string>)

  datatype Entry = Entry(logId: LogId, payload: EntryPayload)

  datatype StoredMembership = StoredMembership(logId: Option<LogId>, config: set<string>)

  datatype StateMachine = StateMachine(
    lastApplied: Option<LogId>,
    lastMembership: StoredMembership,
    latest: Option<PayloadEnvelope>)

  const INITIAL := StateMachine(None, StoredMembership(None, {}), None)

  datatype SnapshotId = SnapshotId(last: Option<LogId>, counter: nat)

  datatype SnapshotMeta = SnapshotMeta(lastLogId: Option<LogId>, lastMembership: StoredMembership, id: SnapshotId)

  /** Serialised state machines decode losslessly; other bytes do not decode. */
  datatype SnapshotData = Encoded(sm: StateMachine) | Undecodable

  datatype Snapshot = Snapshot(meta: SnapshotMeta, data: SnapshotData)

  /** The snapshot of a state machine: its last id, its membership and its bytes, under the given number. */
  function SnapshotOf(sm: StateMachine, counter: nat): Snapshot {
    Snapshot(SnapshotMeta(sm.lastApplied, sm.lastMembership, SnapshotId(sm.lastApplied, counter)), Encoded(sm))
  }

  datatype Image = Image(
    lastPurged: Option<LogId>,
    committed: Option<LogId>,
    log: map<nat, Entry>,
    vote: Option<Vote>,
    sm: StateMachine,
    snapshot: Option<Snapshot>,
    snapshotCounter: nat)

  const EMPTY_IMAGE := Image(None, None, map[], None, INITIAL, None, 0)

  /** The store's JSON file as `open` finds it. */
  datatype StoreFile = Missing | Blanked | Unreadable | Corrupt | Holds(image: Image)

  datatype StoreError = Io | InvalidData

  /** A missing or empty file opens as the default image. */
  function OpenImage(file: StoreFile): Result<Image, StoreError> {
    match file
    case Missing => Ok(EMPTY_IMAGE)
    case Blanked => Ok(EMPTY_IMAGE)
    case Unreadable => Err(Io)
    case Corrupt => Err(InvalidData)
    case Holds(image) => Ok(image)
  }

  // ---------- the fold ----------

  predicate ValidEntry(e: Entry) {
    e.payload.Normal? ==> e.payload.payload.Valid()
  }

  ghost predicate ValidEntries(es: seq<Entry>) {
    forall i :: 0 <= i < |es| ==> ValidEntry(es[i])
  }

  /** One turn of the `apply` loop; an invalid payload still moves the last-applied id. */
  function ApplyEntry(sm: StateMachine, e: Entry): StateMachine {
    var sm := sm.(lastApplied := Some(e.logId));
    match e.payload
    case Blank => sm
    case Normal(p) => if p.Valid() then sm.(latest := ApplyPayload(sm.latest, p)) else sm
    case Membership(config) => sm.(lastMembership := StoredMembership(Some(e.logId), config))
  }

  function ApplyAll(sm: StateMachine, es: seq<Entry>): StateMachine {
    if es == [] then sm else ApplyEntry(ApplyAll(sm, es[..|es| - 1]), es[|es| - 1])
  }

  function Replay(es: seq<Entry>): StateMachine {
    ApplyAll(INITIAL, es)
  }

  /** How the log is cut into batches does not matter. */
  lemma {:induction false} ApplyAllConcat(sm: StateMachine, a: seq<Entry>, b: seq<Entry>)
    ensures ApplyAll(sm, a + b) == ApplyAll(ApplyAll(sm, a), b)
    decreases |b|
  {
    if b == [] {
      assert a + b == a;
    } else {
      var b' := b[..|b| - 1];
      assert (a + b)[..|a + b| - 1] == a + b';
      assert (a + b)[|a + b| - 1] == b[|b| - 1];
      ApplyAllConcat(sm, a, b');
    }
  }

  // ---------- what a replayed state machine means ----------

  function Payloads(es: seq<Entry>): (ps: seq<PayloadEnvelope>)
  {
    if es == [] then []
    else
      var front := Payloads(es[..|es| - 1]);
      if es[|es| - 1].payload.Normal? then front + [es[|es| - 1].payload.payload] else front
  }

  /** `m` is the membership recorded by the last membership entry, if there is one. */
  ghost predicate IsLastMembership(es: seq<Entry>, m: StoredMembership) {
    || (m == INITIAL.lastMembership && forall i :: 0 <= i < |es| ==> !es[i].payload.Membership?)
    || exists i :: && 0 <= i < |es| && es[i].payload.Membership?
                   && m == StoredMembership(Some(es[i].logId), es[i].payload.config)
                   && forall j :: i < j < |es| ==> !es[j].payload.Membership?
  }

  lemma {:induction false} PayloadsValid(es: seq<Entry>)
    requires ValidEntries(es)
    ensures AllValid(Payloads(es))
    decreases |es|
  {
    if es != [] { PayloadsValid(es[..|es| - 1]); }
  }

  lemma {:induction false} ReplayLatest(es: seq<Entry>)
    requires ValidEntries(es) && AllValid(Payloads(es))
    ensures Replay(es).latest == ApplyPayloads(Payloads(es))
    decreases |es|
  {
    if es != [] {
      var front, last := es[..|es| - 1], es[|es| - 1];
      PayloadsValid(front);
      ReplayLatest(front);
      if last.payload.Normal? {
        var ps := Payloads(es);
        assert ValidEntry(last);
        assert ps[..|ps| - 1] == Payloads(front) && ps[|ps| - 1] == last.payload.payload;
      }
    }
  }

  lemma {:induction false} ReplayMembership(es: seq<Entry>)
    ensures IsLastMembership(es, Replay(es).lastMembership)
    decreases |es|
  {
    if es != [] {
      var n := |es| - 1;
      var front := es[..n];
      ReplayMembership(front);
      var m := Replay(front).lastMembership;
      assert forall i :: 0 <= i < n ==> front[i] == es[i];
      if !es[n].payload.Membership? && !(forall i :: 0 <= i < n ==> !front[i].payload.Membership?) {
        var i :| && 0 <= i < n && front[i].payload.Membership?
                 && m == StoredMembership(Some(front[i].logId), front[i].payload.config)
                 && forall j :: i < j < n ==> !front[j].payload.Membership?;
        assert es[i].payload.Membership?;
      }
    }
  }

  /**
    A replayed log is exactly: the id of its last entry, its last membership, and the earliest payload
    with the greatest block number.
  */
  lemma ReplayMeaning(es: seq<Entry>)
    requires ValidEntries(es)
    ensures Replay(es).lastApplied == if es == [] then None else Some(es[|es| - 1].logId)
    ensures IsLastMembership(es, Replay(es).lastMembership)
    ensures AllValid(Payloads(es)) && KeepsEarliestHighest(Payloads(es), Replay(es).latest)
  {
    PayloadsValid(es);
    ReplayLatest(es);
    ReplayMembership(es);
    CommitSemanticsAgree(Payloads(es));
  }
}
