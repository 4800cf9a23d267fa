/**
  `LocalConsensus`: the single-process consensus. A transfer of the conductor clears its leader flag exactly
  when it is accepted, with and without round robin, and only a leader commits payloads.
*/
module LocalConsensus {
  import opened Prelude
  import opened Payload
  import opened Commit
  import opened FileStore
  import opened RoundRobin

  datatype ConsensusError = NotLeader | ServerUnknown | ServerAddrMismatch | Store(error: StoreError)

  class LocalConsensus {
    const serverId: string
    var leader: bool
    var members: map<string, Server>
    const store: FilePayloadStore

    ghost predicate Valid()
      reads this, store
    {
      store.Valid() && forall id :: id in members ==> members[id].id == id
    }

    constructor (serverId: string, addr: string, leader: bool, store: FilePayloadStore)
      requires store.Valid()
      ensures Valid() && this.serverId == serverId && this.leader == leader && this.store == store
      ensures members == map[serverId := Server(serverId, addr, Voter)]
    {
      this.serverId := serverId;
      this.leader := leader;
      this.store := store;
      members := map[serverId := Server(serverId, addr, Voter)];
    }

    method TransferLeader()
      modifies this`leader
      ensures !leader
    {
      leader := false;
    }

    /** How a transfer is answered: the server must be listed under that address. */
    ghost predicate Accepts(id: string, addr: string)
      reads this
    {
      id in members && members[id].addr == addr
    }

    /** Leadership is given up exactly when the target is known under that address. */
    method TransferLeaderTo(id: string, addr: string) returns (r: Result<(), ConsensusError>)
      modifies this`leader
      ensures r.Ok? <==> Accepts(id, addr)
      ensures leader == (old(leader) && r.Err?)
      ensures r.Err? ==> r.error == if id in members then ServerAddrMismatch else ServerUnknown
    {
      if id !in members { return Err(ServerUnknown); }
      if members[id].addr != addr { return Err(ServerAddrMismatch); }
      leader := false;
      return Ok(());
    }

    /** Followers refuse; a leader's store keeps the earliest highest payload or stays as it was. */
    method CommitUnsafePayload(p: PayloadEnvelope, io: Io) returns (r: Result<(), ConsensusError>)
      requires Valid()
      modifies store
      ensures Valid()
      ensures !leader ==> r == Err(NotLeader) && unchanged(store)
      ensures r.Ok? <==> leader && CommitSucceeds(old(store.latest), p, io)
      ensures r.Ok? ==> FilePayload(old(store.latest), p) == Ok(store.latest)
      ensures r.Err? ==> store.latest == old(store.latest)
      ensures leader && r.Err? ==> r.error.Store?
    {
      if !leader { return Err(NotLeader); }
      var committed, _ := store.Commit(p, io);
      r := if committed.Ok? then Ok(()) else Err(Store(committed.error));
    }

    // ---------- the conductor's transfer ----------

    ghost predicate IsVoter(id: string)
      reads this`members
    {
      id in members && members[id].suffrage.Voter?
    }

    /** A rotation fails only for a node that is not itself among at least two voters. */
    ghost predicate CanTransfer(roundRobin: bool)
      reads this`members
    {
      !roundRobin || IsVoter(serverId) || forall a, b :: IsVoter(a) && IsVoter(b) ==> a == b
    }

    /** `membership`: the values of the map, each once. */
    method Membership() returns (servers: seq<Server>)
      requires Valid()
      ensures DistinctIds(servers) && forall v :: v in servers <==> v in members.Values
    {
      servers := [];
      var left := members.Keys;
      while left != {}
        invariant left <= members.Keys && DistinctIds(servers)
        invariant forall v :: v in servers <==> v in members.Values && v.id !in left
        decreases |left|
      {
        var id :| id in left;
        assert members[id] in members.Values;
        servers := servers + [members[id]];
        left := left - {id};
      }
    }

    /** Every server it lists is a target it accepts, so a rotation over its own members ends at once. */
    lemma AcceptsOwnMembers(target: Server)
      requires Valid() && target in members.Values
      ensures Accepts(target.id, target.addr)
    {
      var id :| id in members && members[id] == target;
    }

    lemma VotersListed(servers: seq<Server>)
      requires Valid() && DistinctIds(servers) && forall v :: v in servers <==> v in members.Values
      ensures var voters := SortById(VotersOf(servers));
              && (forall v :: v in voters ==> v in members.Values && IsVoter(v.id))
              && (|voters| <= 1 <==> forall a, b :: IsVoter(a) && IsVoter(b) ==> a == b)
              && (forall id :: IsVoter(id) <==> exists i :: Holds(voters, id, i))
    {
      SortedVoters(servers);
      var voters := SortById(VotersOf(servers));
      forall id | IsVoter(id) ensures exists i :: Holds(voters, id, i) {
        assert members[id] in voters;
        var i :| 0 <= i < |voters| && voters[i] == members[id];
        assert Holds(voters, id, i);
      }
      if |voters| > 1 {
        assert voters[0] in voters && voters[1] in voters && voters[0].id != voters[1].id;
      }
    }

    method WouldTransfer(roundRobin: bool) returns (can: bool)
      requires Valid()
      ensures can == CanTransfer(roundRobin)
    {
      if !roundRobin { return true; }
      var servers := Membership();
      VotersListed(servers);
      var voters := SortById(VotersOf(servers));
      var self := PositionOf(voters, serverId);
      can := |voters| <= 1 || self.Some?;
    }

    /** `transfer_leader_internal` over this consensus: leadership is given up exactly when it answers Ok. */
    method TransferLeaderInternal(roundRobin: bool) returns (r: Result<(), Error>)
      requires Valid()
      modifies this`leader
      ensures Valid()
      ensures r.Ok? <==> !old(leader) || CanTransfer(roundRobin)
      ensures leader == (old(leader) && r.Err?)
    {
      if !leader { return Ok(()); }
      if roundRobin {
        var servers := Membership();
        VotersListed(servers);
        var known := members;
        var answer := (s: Server) => if s.id in known && known[s.id].addr == s.addr then Accepted else Rejected;
        var attempts, fellBack;
        r, attempts, fellBack := TransferRoundRobin(Some(servers), serverId, answer, true);
        ghost var voters := SortById(VotersOf(servers));
        forall v | v in voters ensures !answer(v).Rejected? { AcceptsOwnMembers(v); }
        assert IsVoter(serverId) <==> exists i :: Holds(voters, serverId, i);
        if r.Err? { return; }
      } else {
        TransferLeader();
      }
      leader := false;
      r := Ok(());
    }
  }
}
