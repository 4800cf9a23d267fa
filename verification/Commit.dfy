/**
  Which unsafe payload is kept: the decision made by the Raft state machine and the one made by the
  file store, both measured against one declarative reference.
*/
module Commit {
  import opened Prelude
  import opened Payload

  /** Raft `apply`: an unreadable stored number never blocks an update. */
  function ApplyPayload(current: Option<PayloadEnvelope>, p: PayloadEnvelope): Option<PayloadEnvelope>
    requires p.Valid()
  {
    if current.Some? && current.value.BlockNumber().Ok? && p.Number() <= current.value.BlockNumber().value
    then current else Some(p)
  }

  /** `FilePayloadStore::commit`: an unreadable stored number is an error. */
  function FilePayload(current: Option<PayloadEnvelope>, p: PayloadEnvelope)
    : Result<Option<PayloadEnvelope>, TypeError>
  {
    if p.BlockNumber().Err? then Err(p.BlockNumber().error)
    else if p.BlockHash().Err? then Err(p.BlockHash().error)
    else if current.None? then Ok(Some(p))
    else if current.value.BlockNumber().Err? then Err(current.value.BlockNumber().error)
    else if current.value.BlockNumber().value >= p.Number() then Ok(current)
    else Ok(Some(p))
  }

  ghost predicate AllValid(ps: seq<PayloadEnvelope>) {
    forall i :: 0 <= i < |ps| ==> ps[i].Valid()
  }

  function ApplyPayloads(ps: seq<PayloadEnvelope>): Option<PayloadEnvelope>
    requires AllValid(ps)
  {
    if ps == [] then None else ApplyPayload(ApplyPayloads(ps[..|ps| - 1]), ps[|ps| - 1])
  }

  function FilePayloads(ps: seq<PayloadEnvelope>): Result<Option<PayloadEnvelope>, TypeError> {
    if ps == [] then Ok(None)
    else match FilePayloads(ps[..|ps| - 1])
      case Err(e) => Err(e)
      case Ok(kept) => FilePayload(kept, ps[|ps| - 1])
  }

  function Numbers(ps: seq<PayloadEnvelope>): (ns: seq<nat>)
    requires AllValid(ps)
    ensures |ns| == |ps|
  {
    seq(|ps|, i requires 0 <= i < |ps| => ps[i].Number())
  }

  /** Position `i` holds the earliest occurrence of the greatest number. */
  ghost predicate IsEarliestHighest(ns: seq<nat>, i: nat) {
    && i < |ns|
    && (forall j :: 0 <= j < |ns| ==> ns[j] <= ns[i])
    && (forall j :: 0 <= j < i ==> ns[j] < ns[i])
  }

  /** The reference: nothing from nothing, otherwise the earliest payload with the greatest number. */
  ghost predicate KeepsEarliestHighest(ps: seq<PayloadEnvelope>, kept: Option<PayloadEnvelope>)
    requires AllValid(ps)
  {
    if ps == [] then kept == None
    else exists i: nat :: IsEarliestHighest(Numbers(ps), i) && kept == Some(ps[i])
  }

  lemma EarliestIndexUnique(ns: seq<nat>, i: nat, j: nat)
    requires IsEarliestHighest(ns, i) && IsEarliestHighest(ns, j)
    ensures i == j
  {
    assert ns[i] <= ns[j] <= ns[i];
  }

  /** The reference admits one answer only. */
  lemma EarliestHighestUnique(ps: seq<PayloadEnvelope>, a: Option<PayloadEnvelope>, b: Option<PayloadEnvelope>)
    requires AllValid(ps) && KeepsEarliestHighest(ps, a) && KeepsEarliestHighest(ps, b)
    ensures a == b
  {
    if ps != [] {
      var i: nat :| IsEarliestHighest(Numbers(ps), i) && a == Some(ps[i]);
      var j: nat :| IsEarliestHighest(Numbers(ps), j) && b == Some(ps[j]);
      EarliestIndexUnique(Numbers(ps), i, j);
    }
  }

  lemma EarliestIndexExtend(ns: seq<nat>, i: nat)
    requires |ns| > 1 && IsEarliestHighest(ns[..|ns| - 1], i)
    ensures IsEarliestHighest(ns, if ns[|ns| - 1] <= ns[i] then i else |ns| - 1)
  {
  }

  /**
    Which payloads are refused, on any input: the file store refuses one that is not valid, and any while
    the number it holds cannot be read; Raft replaces a held payload it cannot read.
  */
  lemma DecisionsOnAnyInput(current: Option<PayloadEnvelope>, p: PayloadEnvelope)
    ensures FilePayload(current, p).Err? <==> !p.Valid() || (current.Some? && current.value.BlockNumber().Err?)
    ensures FilePayload(current, p).Ok? ==>
              FilePayload(current, p).value ==
              if current.Some? && current.value.BlockNumber().value >= p.BlockNumber().value then current else Some(p)
    ensures p.Valid() && current.Some? && current.value.BlockNumber().Err? ==> ApplyPayload(current, p) == Some(p)
  {
  }

  /** On valid payloads the two decisions are the same comparison. */
  lemma DecisionsAgree(current: Option<PayloadEnvelope>, p: PayloadEnvelope)
    requires p.Valid() && (current.Some? ==> current.value.Valid())
    ensures FilePayload(current, p) == Ok(ApplyPayload(current, p))
    ensures ApplyPayload(current, p)
         == if current.Some? && p.Number() <= current.value.Number() then current else Some(p)
  {
  }

  lemma KeepsOneOfTwo(ps: seq<PayloadEnvelope>, i: nat)
    requires AllValid(ps) && |ps| > 1 && IsEarliestHighest(Numbers(ps)[..|ps| - 1], i)
    ensures KeepsEarliestHighest(ps, ApplyPayload(Some(ps[i]), ps[|ps| - 1]))
    ensures FilePayload(Some(ps[i]), ps[|ps| - 1]) == Ok(ApplyPayload(Some(ps[i]), ps[|ps| - 1]))
  {
    var n, ns := |ps| - 1, Numbers(ps);
    EarliestIndexExtend(ns, i);
    DecisionsAgree(Some(ps[i]), ps[n]);
    assert ns[i] == ps[i].Number() && ns[n] == ps[n].Number();
  }

  lemma KeepStep(ps: seq<PayloadEnvelope>, kept: Option<PayloadEnvelope>)
    requires AllValid(ps) && ps != []
    requires KeepsEarliestHighest(ps[..|ps| - 1], kept)
    ensures KeepsEarliestHighest(ps, ApplyPayload(kept, ps[|ps| - 1]))
    ensures FilePayload(kept, ps[|ps| - 1]) == Ok(ApplyPayload(kept, ps[|ps| - 1]))
  {
    var n := |ps| - 1;
    var front := ps[..n];
    var ns := Numbers(ps);
    if n == 0 {
      assert front == [];
      DecisionsAgree(kept, ps[n]);
      assert IsEarliestHighest(ns, 0);
    } else {
      var i: nat :| IsEarliestHighest(Numbers(front), i) && kept == Some(front[i]);
      assert Numbers(front) == ns[..n];
      KeepsOneOfTwo(ps, i);
    }
  }

  /** Both commit paths keep the earliest payload with the greatest block number, and never fail. */
  lemma {:induction false} CommitSemanticsAgree(ps: seq<PayloadEnvelope>)
    requires AllValid(ps)
    ensures KeepsEarliestHighest(ps, ApplyPayloads(ps))
    ensures FilePayloads(ps) == Ok(ApplyPayloads(ps))
    decreases |ps|
  {
    if ps != [] {
      CommitSemanticsAgree(ps[..|ps| - 1]);
      KeepStep(ps, ApplyPayloads(ps[..|ps| - 1]));
    }
  }
}
