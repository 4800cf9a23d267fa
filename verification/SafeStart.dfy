/**
  Starting the sequencer: repair or verify the node against the committed unsafe head, then start it in
  one of three modes. The node is observed at successive moments of one attempt.
*/
module SafeStart {
  import opened Prelude
  import opened Payload

  // ---------- errors and their classification ----------

  datatype RpcError = JsonRpc(code: int, message: string) | InvalidResponse(message: string) | OtherRpc

  datatype SequencerError = Rpc(rpc: RpcError) | HeadMismatch(expected: Hash, actual: Hash, number: nat)

  datatype StartError = ConsensusFailed | NoUnsafeHead | UnsafeHeadMismatch | Sequencer(error: SequencerError)

  predicate OccursAt(text: string, needle: string, i: nat) {
    i + |needle| <= |text| && text[i..i + |needle|] == needle
  }

  predicate Contains(text: string, needle: string) {
    exists i :: 0 <= i <= |text| && OccursAt(text, needle, i)
  }

  predicate MessageContains(e: SequencerError, needles: set<string>) {
    && e.Rpc? && !e.rpc.OtherRpc?
    && exists n :: n in needles && Contains(e.rpc.message, n)
  }

  predicate AlreadyStarted(e: SequencerError) {
    MessageContains(e, {"sequencer already running", "sequencer already started", "already started"})
  }

  /** The second of the three messages is a case of the third. */
  lemma AlreadyStartedMeaning(e: SequencerError)
    ensures AlreadyStarted(e) <==>
              && e.Rpc? && (e.rpc.JsonRpc? || e.rpc.InvalidResponse?)
              && (Contains(e.rpc.message, "sequencer already running") || Contains(e.rpc.message, "already started"))
  {
    if e.Rpc? && !e.rpc.OtherRpc? && Contains(e.rpc.message, "sequencer already started") {
      var text := e.rpc.message;
      var i :| 0 <= i <= |text| && OccursAt(text, "sequencer already started", i);
      assert text[i + 10..i + 25] == text[i..i + 25][10..] == "already started";
      assert OccursAt(text, "already started", i + 10);
    }
  }

  predicate InvalidParams(e: RpcError) {
    e.JsonRpc? && e.code == -32602
  }

  // ---------- the node during one attempt ----------

  const ZERO_HASH: Hash := seq(32, _ => 0)

  /** The node's chain: the hash at position `n` is its block `n`; there is always a genesis block. */
  type Chain = c: seq<Hash> | |c| > 0 witness [ZERO_HASH]

  function Head(c: Chain): Hash {
    c[|c| - 1]
  }

  function HeadNumber(c: Chain): nat {
    |c| - 1
  }

  datatype StartMode = HashParam | Parameterless | Auto

  /** The chain as it stands at each call of the attempt, and the call's error if it has one. */
  datatype Node = Node(
    payload: Result<Option<PayloadEnvelope>, ()>,
    atHead: Chain, headError: Option<RpcError>,
    atBlock: Chain, blockError: Option<RpcError>, postError: Option<RpcError>,
    hashStartError: Option<RpcError>,
    atCheck: Chain, checkError: Option<RpcError>,
    atPlainStart: Chain, plainStartError: Option<RpcError>)

  /** `StartPlain` records what the node will build on: its head when the call arrives. */
  datatype Call = Post(payload: PayloadEnvelope) | StartWithHash(hash: Hash) | StartPlain(expected: Hash, head: Hash)

  datatype Attempt = Attempt(result: Result<(), StartError>, calls: seq<Call>)

  datatype Controller = Controller(result: Result<(), SequencerError>, calls: seq<Call>)

  function Reply(error: Option<RpcError>): Result<(), SequencerError> {
    if error.Some? then Err(Rpc(error.value)) else Ok(())
  }

  // ---------- the sequencer controller ----------

  function AssertLatestUnsafe(expected: Hash, w: Node): Result<(), SequencerError> {
    if w.checkError.Some? then Err(Rpc(w.checkError.value))
    else if Head(w.atCheck) != expected then Err(HeadMismatch(expected, Head(w.atCheck), HeadNumber(w.atCheck)))
    else Ok(())
  }

  function StartParameterlessAfterCheck(expected: Hash, w: Node): Controller {
    var check := AssertLatestUnsafe(expected, w);
    if check.Err? then Controller(check, [])
    else Controller(Reply(w.plainStartError), [StartPlain(expected, Head(w.atPlainStart))])
  }

  function ControllerStart(mode: StartMode, expected: Hash, w: Node): Controller {
    match mode
    case HashParam => Controller(Reply(w.hashStartError), [StartWithHash(expected)])
    case Parameterless => StartParameterlessAfterCheck(expected, w)
    case Auto =>
      if w.hashStartError.Some? && InvalidParams(w.hashStartError.value) then
        var plain := StartParameterlessAfterCheck(expected, w);
        Controller(plain.result, [StartWithHash(expected)] + plain.calls)
      else Controller(Reply(w.hashStartError), [StartWithHash(expected)])
  }

  // ---------- the conductor's attempt ----------

  /** The committed head, if consensus has one whose hash and number can be read. */
  function Committed(w: Node): Result<PayloadEnvelope, StartError> {
    match w.payload
    case Err(_) => Err(ConsensusFailed)
    case Ok(None) => Err(NoUnsafeHead)
    case Ok(Some(p)) => if p.Valid() then Ok(p) else Err(UnsafeHeadMismatch)
  }

  datatype Preparation = Ready(startHash: Hash, before: seq<Call>) | Refused(error: StartError, tried: seq<Call>)

  /** Same head, a small gap to repair, a node ahead on the same chain, or nothing to start from. */
  function Prepare(p: PayloadEnvelope, depth: nat, w: Node): Preparation
    requires p.Valid()
  {
    var hash, number := p.BlockHash().value, p.Number();
    var headNumber := HeadNumber(w.atHead);
    if w.headError.Some? then Refused(Sequencer(Rpc(w.headError.value)), [])
    else if Head(w.atHead) == hash then Ready(hash, [])
    else if headNumber < number && number - headNumber <= depth then
      if w.postError.Some? then Refused(Sequencer(Rpc(w.postError.value)), [Post(p)]) else Ready(hash, [Post(p)])
    else if headNumber > number then
      if w.blockError.Some? then Refused(Sequencer(Rpc(w.blockError.value)), [])
      else if number >= |w.atBlock| || w.atBlock[number] != hash then Refused(UnsafeHeadMismatch, [])
      else Ready(Head(w.atHead), [])
    else Refused(UnsafeHeadMismatch, [])
  }

  function StartAttempt(depth: nat, mode: StartMode, w: Node): Attempt {
    match Committed(w)
    case Err(e) => Attempt(Err(e), [])
    case Ok(p) =>
      match Prepare(p, depth, w)
      case Refused(e, tried) => Attempt(Err(e), tried)
      case Ready(hash, before) =>
        var c := ControllerStart(mode, hash, w);
        Attempt(if c.result.Ok? || AlreadyStarted(c.result.error) then Ok(()) else Err(Sequencer(c.result.error)),
                before + c.calls)
  }

  /** `start_sequencer` as the conductor runs it, statement by statement. */
  method StartSequencer(depth: nat, mode: StartMode, w: Node)
    returns (r: Result<(), StartError>, calls: seq<Call>, seqActive: bool)
    ensures Attempt(r, calls) == StartAttempt(depth, mode, w)
    ensures seqActive <==> r.Ok?
  {
    calls, seqActive := [], false;
    if w.payload.Err? { return Err(ConsensusFailed), calls, false; }
    if w.payload.value.None? { return Err(NoUnsafeHead), calls, false; }
    var payload := w.payload.value.value;
    var hash := payload.BlockHash();
    if hash.Err? { return Err(UnsafeHeadMismatch), calls, false; }
    var number := payload.BlockNumber();
    if number.Err? { return Err(UnsafeHeadMismatch), calls, false; }
    if w.headError.Some? { return Err(Sequencer(Rpc(w.headError.value))), calls, false; }
    var nodeHead, nodeNumber := Head(w.atHead), HeadNumber(w.atHead);
    var startHash := hash.value;
    if nodeHead != hash.value {
      if number.value > nodeNumber && number.value - nodeNumber <= depth {
        calls := calls + [Post(payload)];
        if w.postError.Some? { return Err(Sequencer(Rpc(w.postError.value))), calls, false; }
      } else if nodeNumber > number.value {
        if w.blockError.Some? { return Err(Sequencer(Rpc(w.blockError.value))), calls, false; }
        if number.value >= |w.atBlock| || w.atBlock[number.value] != hash.value {
          return Err(UnsafeHeadMismatch), calls, false;
        }
        startHash := nodeHead;
      } else {
        return Err(UnsafeHeadMismatch), calls, false;
      }
    }
    var started := ControllerStart(mode, startHash, w);
    calls := calls + started.calls;
    if started.result.Err? && !AlreadyStarted(started.result.error) {
      return Err(Sequencer(started.result.error)), calls, false;
    }
    seqActive := true;
    r := Ok(());
  }

  // ---------- ancestry ----------

  /** Following `k` parent links from `b` leads to `a`. */
  ghost predicate ReachesIn(parent: map<Hash, Hash>, b: Hash, a: Hash, k: nat)
    decreases k
  {
    if k == 0 then a == b else b in parent && ReachesIn(parent, parent[b], a, k - 1)
  }

  /** `b` is `a` or has it as an ancestor. */
  ghost predicate BuildsOn(parent: map<Hash, Hash>, b: Hash, a: Hash) {
    exists k: nat :: ReachesIn(parent, b, a, k)
  }

  /** Each block of the chain is the parent of the next. */
  ghost predicate Linked(parent: map<Hash, Hash>, c: Chain) {
    forall i :: 1 <= i < |c| ==> c[i] in parent && parent[c[i]] == c[i - 1]
  }

  /** The node's chain only grows from one observation to the next. */
  ghost predicate OnlyGrows(w: Node) {
    w.atHead <= w.atBlock <= w.atCheck <= w.atPlainStart
  }

  lemma {:induction false} LaterBuildsOnEarlier(parent: map<Hash, Hash>, c: Chain, i: nat, j: nat)
    requires Linked(parent, c) && i <= j < |c|
    ensures ReachesIn(parent, c[j], c[i], j - i)
    decreases j
  {
    if i < j {
      LaterBuildsOnEarlier(parent, c, i, j - 1);
    }
  }

  lemma {:induction false} BuildsOnTransitive(parent: map<Hash, Hash>, c: Hash, b: Hash, a: Hash, k: nat, m: nat)
    requires ReachesIn(parent, c, b, k) && ReachesIn(parent, b, a, m)
    ensures ReachesIn(parent, c, a, k + m)
    decreases k
  {
    if k > 0 { BuildsOnTransitive(parent, parent[c], b, a, k - 1, m); }
  }

  lemma BuildsOnBuildsOn(parent: map<Hash, Hash>, c: Hash, b: Hash, a: Hash)
    requires BuildsOn(parent, c, b) && BuildsOn(parent, b, a)
    ensures BuildsOn(parent, c, a)
  {
    var k: nat :| ReachesIn(parent, c, b, k);
    var m: nat :| ReachesIn(parent, b, a, m);
    BuildsOnTransitive(parent, c, b, a, k, m);
  }

  /** What the node would build on if this start were accepted. */
  function StartPoint(call: Call): Hash
    requires !call.Post?
  {
    if call.StartWithHash? then call.hash else call.head
  }

  lemma PreparedHashIsSafe(parent: map<Hash, Hash>, p: PayloadEnvelope, depth: nat, w: Node)
    requires p.Valid() && OnlyGrows(w) && Linked(parent, w.atPlainStart)
    requires Prepare(p, depth, w).Ready?
    ensures BuildsOn(parent, Prepare(p, depth, w).startHash, p.BlockHash().value)
  {
    var start := Prepare(p, depth, w).startHash;
    var hash := p.BlockHash().value;
    if start == hash {
      assert ReachesIn(parent, start, hash, 0);
    } else {
      var n, h := p.Number(), HeadNumber(w.atHead);
      assert w.atPlainStart[n] == w.atBlock[n] == hash;
      assert w.atPlainStart[h] == w.atHead[h] == start;
      LaterBuildsOnEarlier(parent, w.atPlainStart, n, h);
    }
  }

  /** A parameterless start follows only an observation of the expected head, and builds on it. */
  lemma PlainStartIsSafe(parent: map<Hash, Hash>, mode: StartMode, expected: Hash, w: Node, call: Call)
    requires OnlyGrows(w) && Linked(parent, w.atPlainStart)
    requires call in ControllerStart(mode, expected, w).calls && call.StartPlain?
    ensures w.checkError.None? && Head(w.atCheck) == expected == call.expected
    ensures call.head == Head(w.atPlainStart) && BuildsOn(parent, call.head, expected)
  {
    var seen := HeadNumber(w.atCheck);
    assert w.atPlainStart[seen] == expected;
    LaterBuildsOnEarlier(parent, w.atPlainStart, seen, HeadNumber(w.atPlainStart));
  }

  /** A start call comes from the controller, for the hash that was prepared. */
  lemma StartCallsComeFromController(depth: nat, mode: StartMode, w: Node, call: Call)
    requires call in StartAttempt(depth, mode, w).calls && !call.Post?
    ensures Committed(w).Ok? && Prepare(Committed(w).value, depth, w).Ready?
    ensures call in ControllerStart(mode, Prepare(Committed(w).value, depth, w).startHash, w).calls
    ensures call.StartWithHash? ==> call.hash == Prepare(Committed(w).value, depth, w).startHash
  {
  }

  /**
    Safe start: in every mode, whatever the node answers, each start call builds on the committed unsafe
    head, provided the node's chain only grows during the attempt.
  */
  lemma EveryStartBuildsOnCommitted(parent: map<Hash, Hash>, depth: nat, mode: StartMode, w: Node, call: Call)
    requires OnlyGrows(w) && Linked(parent, w.atPlainStart)
    requires call in StartAttempt(depth, mode, w).calls && !call.Post?
    ensures Committed(w).Ok?
    ensures BuildsOn(parent, StartPoint(call), Committed(w).value.BlockHash().value)
  {
    StartCallsComeFromController(depth, mode, w, call);
    var p := Committed(w).value;
    PreparedHashIsSafe(parent, p, depth, w);
    var start, hash := Prepare(p, depth, w).startHash, p.BlockHash().value;
    if call.StartPlain? {
      PlainStartIsSafe(parent, mode, start, w, call);
      BuildsOnBuildsOn(parent, call.head, start, hash);
    }
  }

  /** A repair posts the committed payload, before anything else and once, for a gap of 1 to `depth`. */
  lemma RepairIsBounded(depth: nat, mode: StartMode, w: Node, i: nat)
    requires i < |StartAttempt(depth, mode, w).calls| && StartAttempt(depth, mode, w).calls[i].Post?
    ensures i == 0
    ensures Committed(w).Ok? && StartAttempt(depth, mode, w).calls[0] == Post(Committed(w).value)
    ensures 1 <= Committed(w).value.Number() - HeadNumber(w.atHead) <= depth
  {
    var p := Committed(w).value;
    var prep := Prepare(p, depth, w);
    if prep.Ready? {
      var c := ControllerStart(mode, prep.startHash, w);
      assert forall k :: 0 <= k < |c.calls| ==> !c.calls[k].Post?;
    }
  }

  // ---------- what an attempt does, seen from outside ----------

  /** Consensus answers with an unsafe head whose hash and number can be read. */
  predicate HasHead(w: Node) {
    w.payload.Ok? && w.payload.value.Some? && w.payload.value.value.Valid()
  }

  function CommittedHead(w: Node): PayloadEnvelope
    requires HasHead(w)
  {
    w.payload.value.value
  }

  function CommittedHash(w: Node): Hash
    requires HasHead(w)
  {
    CommittedHead(w).BlockHash().value
  }

  /** The node lags behind by at most the repair depth: it is sent the committed payload. */
  predicate Repairs(depth: nat, w: Node)
    requires HasHead(w)
  {
    && w.headError.None? && Head(w.atHead) != CommittedHash(w)
    && 1 <= CommittedHead(w).Number() - HeadNumber(w.atHead) <= depth
  }

  /** The node is ahead: it is asked for its block of the committed number. */
  predicate AsksForAncestor(w: Node)
    requires HasHead(w)
  {
    && w.headError.None? && Head(w.atHead) != CommittedHash(w)
    && HeadNumber(w.atHead) > CommittedHead(w).Number()
  }

  /** The node can be started from: same head, repairable gap with the post accepted, or verified ahead. */
  predicate Startable(depth: nat, w: Node) {
    HasHead(w) && w.headError.None? &&
    var number := CommittedHead(w).Number();
    || Head(w.atHead) == CommittedHash(w)
    || (Repairs(depth, w) && w.postError.None?)
    || (AsksForAncestor(w) && w.blockError.None? && number < |w.atBlock| && w.atBlock[number] == CommittedHash(w))
  }

  /** What a start is for: the node's own head if it is ahead, the committed one otherwise. */
  function StartHash(w: Node): Hash
    requires HasHead(w)
  {
    if HeadNumber(w.atHead) > CommittedHead(w).Number() then Head(w.atHead) else CommittedHash(w)
  }

  /** A start without the hash is in order: always, never, or once the node has refused the argument. */
  predicate MayStartPlain(mode: StartMode, w: Node) {
    || mode.Parameterless?
    || (mode.Auto? && w.hashStartError.Some?
        && w.hashStartError.value.JsonRpc? && w.hashStartError.value.code == -32602)
  }

  /** The call went through, or the node says that it already runs. */
  predicate Accepted(error: Option<RpcError>) {
    error.Some? ==> AlreadyStarted(Rpc(error.value))
  }

  /** The check before a parameterless start saw the given head. */
  predicate Observed(w: Node, hash: Hash) {
    w.checkError.None? && Head(w.atCheck) == hash
  }

  /** The calls due: the repair, then the start with the hash, then the one without it. */
  function CallsDue(depth: nat, mode: StartMode, w: Node): seq<Call> {
    (if HasHead(w) && Repairs(depth, w) then [Post(CommittedHead(w))] else [])
    + (if Startable(depth, w) && !mode.Parameterless? then [StartWithHash(StartHash(w))] else [])
    + if Startable(depth, w) && MayStartPlain(mode, w) && Observed(w, StartHash(w))
      then [StartPlain(StartHash(w), Head(w.atPlainStart))] else []
  }

  /** Already started counts as started. */
  function StartResult(e: Option<SequencerError>): Result<(), StartError> {
    if e.None? || AlreadyStarted(e.value) then Ok(()) else Err(Sequencer(e.value))
  }

  /** The error of the start call that counts, if it has one. */
  function StartFailure(mode: StartMode, w: Node): Option<SequencerError>
    requires HasHead(w)
  {
    if !MayStartPlain(mode, w) then (if w.hashStartError.Some? then Some(Rpc(w.hashStartError.value)) else None)
    else if w.checkError.Some? then Some(Rpc(w.checkError.value))
    else if Head(w.atCheck) != StartHash(w)
    then Some(HeadMismatch(StartHash(w), Head(w.atCheck), HeadNumber(w.atCheck)))
    else if w.plainStartError.Some? then Some(Rpc(w.plainStartError.value)) else None
  }

  function ResultDue(depth: nat, mode: StartMode, w: Node): Result<(), StartError> {
    if w.payload.Err? then Err(ConsensusFailed)
    else if w.payload.value.None? then Err(NoUnsafeHead)
    else if !HasHead(w) then Err(UnsafeHeadMismatch)
    else if Startable(depth, w) then StartResult(StartFailure(mode, w))
    else if w.headError.Some? then Err(Sequencer(Rpc(w.headError.value)))
    else if Repairs(depth, w) && w.postError.Some? then Err(Sequencer(Rpc(w.postError.value)))
    else if AsksForAncestor(w) && w.blockError.Some? then Err(Sequencer(Rpc(w.blockError.value)))
    else Err(UnsafeHeadMismatch)
  }

  lemma PrepareMeaning(depth: nat, w: Node)
    requires HasHead(w)
    ensures var before := if Repairs(depth, w) then [Post(CommittedHead(w))] else [];
            var prep := Prepare(CommittedHead(w), depth, w);
            && (Startable(depth, w) ==> prep == Ready(StartHash(w), before))
            && (!Startable(depth, w) ==> prep.Refused? && prep.tried == before)
  {
  }

  lemma ControllerMeaning(mode: StartMode, w: Node)
    requires HasHead(w)
    ensures var c := ControllerStart(mode, StartHash(w), w);
            && (if c.result.Ok? then None else Some(c.result.error)) == StartFailure(mode, w)
            && c.calls == (if mode.Parameterless? then [] else [StartWithHash(StartHash(w))])
                          + if MayStartPlain(mode, w) && Observed(w, StartHash(w))
                            then [StartPlain(StartHash(w), Head(w.atPlainStart))] else []
  {
  }

  lemma RefusalMeaning(depth: nat, mode: StartMode, w: Node)
    requires !Startable(depth, w)
    ensures StartAttempt(depth, mode, w) == Attempt(ResultDue(depth, mode, w), CallsDue(depth, mode, w))
  {
    if HasHead(w) { PrepareMeaning(depth, w); }
  }

  /**
    What one attempt does, for every node and every answer: exactly the calls due and the result due. A node
    that is ahead is started on its own head, any other on the committed one.
  */
  lemma AttemptMeaning(depth: nat, mode: StartMode, w: Node)
    ensures StartAttempt(depth, mode, w) == Attempt(ResultDue(depth, mode, w), CallsDue(depth, mode, w))
  {
    if Startable(depth, w) {
      PrepareMeaning(depth, w);
      ControllerMeaning(mode, w);
    } else {
      RefusalMeaning(depth, mode, w);
    }
  }

  /** Every start call is for that hash, and sent only to a startable node. */
  lemma StartsAreForStartHash(depth: nat, mode: StartMode, w: Node, call: Call)
    requires call in StartAttempt(depth, mode, w).calls && !call.Post?
    ensures Startable(depth, w)
    ensures call.StartWithHash? ==> call.hash == StartHash(w)
    ensures call.StartPlain? ==> call.expected == StartHash(w) && call.head == Head(w.atPlainStart)
  {
    AttemptMeaning(depth, mode, w);
  }

  /** Exactly the startable nodes are offered a start: with the hash, without it, or one after the other. */
  lemma OfferedIffStartable(depth: nat, mode: StartMode, w: Node)
    ensures !Startable(depth, w) ==> forall c :: c in StartAttempt(depth, mode, w).calls ==> c.Post?
    ensures Startable(depth, w) ==>
              && (StartWithHash(StartHash(w)) in StartAttempt(depth, mode, w).calls <==> !mode.Parameterless?)
              && (StartPlain(StartHash(w), Head(w.atPlainStart)) in StartAttempt(depth, mode, w).calls
                  <==> MayStartPlain(mode, w) && Observed(w, StartHash(w)))
  {
    AttemptMeaning(depth, mode, w);
  }

  /**
    The attempt succeeds exactly for a startable node that accepts the start which counts: the one without
    the hash where the mode leads to it, after the expected head was seen, and the one with it otherwise.
    An error of the head check that speaks of an already started sequencer also passes for success.
  */
  lemma SucceedsIff(depth: nat, mode: StartMode, w: Node)
    ensures StartAttempt(depth, mode, w).result.Ok? <==>
              && Startable(depth, w)
              && if MayStartPlain(mode, w)
                 then (Observed(w, StartHash(w)) && Accepted(w.plainStartError))
                      || (w.checkError.Some? && Accepted(w.checkError))
                 else Accepted(w.hashStartError)
  {
    AttemptMeaning(depth, mode, w);
  }

  /** The node took this start call, or answered that it already runs. */
  predicate Took(w: Node, call: Call) {
    || (call.StartWithHash? && Accepted(w.hashStartError))
    || (call.StartPlain? && Accepted(w.plainStartError))
  }

  /**
    What a success means, exactly: some start call was taken or answered with already started, unless the
    head check before a parameterless start failed, and then only if the refusal of the hash argument
    itself spoke of an already started sequencer.
  */
  lemma SuccessMeansStartedIff(depth: nat, mode: StartMode, w: Node)
    requires StartAttempt(depth, mode, w).result.Ok?
    ensures (exists call :: call in StartAttempt(depth, mode, w).calls && Took(w, call)) <==>
              || !(MayStartPlain(mode, w) && w.checkError.Some?)
              || (mode.Auto? && Accepted(w.hashStartError))
  {
    SucceedsIff(depth, mode, w);
    OfferedIffStartable(depth, mode, w);
    forall call | call in StartAttempt(depth, mode, w).calls && Took(w, call)
      ensures !(MayStartPlain(mode, w) && w.checkError.Some?) || (mode.Auto? && Accepted(w.hashStartError))
    {
      AttemptMeaning(depth, mode, w);
    }
    var withHash, plain := StartWithHash(StartHash(w)), StartPlain(StartHash(w), Head(w.atPlainStart));
    assert Took(w, withHash) <==> Accepted(w.hashStartError);
    assert Took(w, plain) <==> Accepted(w.plainStartError);
  }

  /** And it happens: a node at the committed head reports success although no call was sent to it. */
  lemma SuccessWithoutAnyCall(depth: nat, p: PayloadEnvelope) returns (w: Node)
    requires p.Valid()
    ensures w.payload == Ok(Some(p)) && Head(w.atHead) == p.BlockHash().value && OnlyGrows(w)
    ensures StartAttempt(depth, Parameterless, w) == Attempt(Ok(()), [])
  {
    var hash := p.BlockHash().value;
    var message := "already started";
    assert OccursAt(message, "already started", 0);
    assert Contains(message, "already started");
    w := Node(Ok(Some(p)), [hash], None, [hash], None, None, None, [hash], Some(InvalidResponse(message)), [hash], None);
  }
}
