/**
  Choosing whom to hand leadership to: the round-robin rotation over the sorted voters, and the default
  target with the most advanced log.
*/
module RoundRobin {
  import opened Prelude

  datatype Suffrage = Voter | Nonvoter

  datatype Server = Server(id: string, addr: string, suffrage: Suffrage)

  datatype Error = ServerNotFound | MembershipUnknown | TransferFailed | CannotFindPeer

  /** What the consensus says to one transfer request; a transfer already in progress counts as accepted. */
  datatype Reply = Accepted | InProgress | Rejected

  // ---------- order of ids ----------

  /** Lexicographic order, as on Rust strings. */
  predicate Precedes(a: string, b: string) {
    if b == "" then false
    else if a == "" then true
    else if a[0] != b[0] then a[0] < b[0]
    else Precedes(a[1..], b[1..])
  }

  /** The ids agree up to a position where the first ends or has the smaller character. */
  predicate ComesBefore(a: string, b: string, k: nat) {
    k <= |a| && k < |b| && (forall i :: 0 <= i < k ==> a[i] == b[i]) && (k == |a| || a[k] < b[k])
  }

  lemma {:induction false} PrecedesMeaning(a: string, b: string)
    ensures Precedes(a, b) <==> exists k: nat :: ComesBefore(a, b, k)
    decreases |a|
  {
    if a == "" {
      assert b != "" ==> ComesBefore(a, b, 0);
    } else if b != "" {
      if a[0] != b[0] {
        assert a[0] < b[0] ==> ComesBefore(a, b, 0);
      } else {
        PrecedesMeaning(a[1..], b[1..]);
        if Precedes(a, b) {
          var k: nat :| ComesBefore(a[1..], b[1..], k);
          assert ComesBefore(a, b, k + 1);
        }
        forall k: nat | ComesBefore(a, b, k) ensures k > 0 && ComesBefore(a[1..], b[1..], k - 1) {
        }
      }
    }
  }

  lemma {:induction false} PrecedesTotal(a: string, b: string)
    ensures Precedes(a, b) || Precedes(b, a) || a == b
    decreases |a|
  {
    if a != "" && b != "" && a[0] == b[0] {
      PrecedesTotal(a[1..], b[1..]);
      if a[1..] == b[1..] { assert a == [a[0]] + a[1..] && b == [b[0]] + b[1..]; }
    }
  }

  lemma {:induction false} PrecedesTransitive(a: string, b: string, c: string)
    requires Precedes(a, b) && Precedes(b, c)
    ensures Precedes(a, c)
    decreases |a|
  {
    if a != "" && a[0] == b[0] == c[0] { PrecedesTransitive(a[1..], b[1..], c[1..]); }
  }

  lemma {:induction false} PrecedesIrreflexive(a: string)
    ensures !Precedes(a, a)
    decreases |a|
  {
    if a != "" { PrecedesIrreflexive(a[1..]); }
  }

  ghost predicate SortedById(s: seq<Server>) {
    forall i, j :: 0 <= i < j < |s| ==> Precedes(s[i].id, s[j].id)
  }

  ghost predicate DistinctIds(s: seq<Server>) {
    forall i, j :: 0 <= i < j < |s| ==> s[i].id != s[j].id
  }

  function Insert(s: seq<Server>, x: Server): seq<Server> {
    if s == [] then [x]
    else if Precedes(x.id, s[0].id) then [x] + s
    else [s[0]] + Insert(s[1..], x)
  }

  /** `sort_by` on the id. */
  function SortById(s: seq<Server>): seq<Server> {
    if s == [] then [] else Insert(SortById(s[..|s| - 1]), s[|s| - 1])
  }

  lemma {:induction false} InsertMembers(s: seq<Server>, x: Server, y: Server)
    requires y in Insert(s, x)
    ensures y == x || y in s
    decreases |s|
  {
    if s != [] && !Precedes(x.id, s[0].id) && y != s[0] { InsertMembers(s[1..], x, y); }
  }

  lemma {:induction false} InsertSorts(s: seq<Server>, x: Server)
    requires SortedById(s) && forall i :: 0 <= i < |s| ==> s[i].id != x.id
    ensures SortedById(Insert(s, x)) && multiset(Insert(s, x)) == multiset(s) + multiset{x}
    decreases |s|
  {
    if s == [] {
    } else if Precedes(x.id, s[0].id) {
      forall j | 1 <= j < |s| ensures Precedes(x.id, s[j].id) { PrecedesTransitive(x.id, s[0].id, s[j].id); }
    } else {
      PrecedesTotal(x.id, s[0].id);
      InsertSorts(s[1..], x);
      var rest := Insert(s[1..], x);
      assert s == [s[0]] + s[1..];
      forall j | 0 <= j < |rest| ensures Precedes(s[0].id, rest[j].id) {
        InsertMembers(s[1..], x, rest[j]);
      }
    }
  }

  lemma LastIsNew(s: seq<Server>, sorted: seq<Server>, i: nat)
    requires DistinctIds(s) && s != [] && multiset(sorted) == multiset(s[..|s| - 1]) && i < |sorted|
    ensures sorted[i].id != s[|s| - 1].id
  {
    assert sorted[i] in multiset(sorted);
    assert sorted[i] in s[..|s| - 1];
  }

  /** Servers with distinct ids end up in strictly ascending order, none lost and none added. */
  lemma {:induction false} SortByIdSorts(s: seq<Server>)
    requires DistinctIds(s)
    ensures SortedById(SortById(s)) && multiset(SortById(s)) == multiset(s)
    decreases |s|
  {
    if s != [] {
      var front, x := s[..|s| - 1], s[|s| - 1];
      SortByIdSorts(front);
      var sorted := SortById(front);
      forall i | 0 <= i < |sorted| ensures sorted[i].id != x.id { LastIsNew(s, sorted, i); }
      InsertSorts(sorted, x);
      assert s == front + [x];
    }
  }

  lemma SortedIsDistinct(s: seq<Server>)
    requires SortedById(s)
    ensures DistinctIds(s)
  {
    forall i, j | 0 <= i < j < |s| ensures s[i].id != s[j].id { PrecedesIrreflexive(s[i].id); }
  }

  // ---------- the rotation ----------

  /** The others, beginning just after position `current` and wrapping around. */
  function Rotation(voters: seq<Server>, current: nat): seq<Server>
    requires current < |voters|
  {
    voters[current + 1..] + voters[..current]
  }

  /** The modular index walks the rotation. */
  lemma RotationIndex(voters: seq<Server>, current: nat, offset: nat)
    requires current < |voters| && 1 <= offset < |voters|
    ensures Rotation(voters, current)[offset - 1] == voters[(current + offset) % |voters|]
  {
    var n := |voters|;
    if current + offset < n {
      assert (current + offset) % n == current + offset;
    } else {
      assert (current + offset) % n == current + offset - n by {
        ModOnce(current + offset, n);
      }
    }
  }

  lemma ModOnce(a: nat, n: nat)
    requires 0 < n <= a < 2 * n
    ensures a % n == a - n
  {
  }

  function VotersOf(servers: seq<Server>): seq<Server> {
    if servers == [] then []
    else
      var front := VotersOf(servers[..|servers| - 1]);
      if servers[|servers| - 1].suffrage.Voter? then front + [servers[|servers| - 1]] else front
  }

  /** Exactly the voters, still with distinct ids. */
  lemma {:induction false} VotersOfMeaning(servers: seq<Server>)
    ensures forall v :: v in VotersOf(servers) <==> v in servers && v.suffrage.Voter?
    ensures DistinctIds(servers) ==> DistinctIds(VotersOf(servers))
    decreases |servers|
  {
    if servers != [] {
      var front, last := servers[..|servers| - 1], servers[|servers| - 1];
      VotersOfMeaning(front);
      assert servers == front + [last];
      if DistinctIds(servers) {
        forall v | v in VotersOf(front) ensures v.id != last.id {
          var i :| 0 <= i < |front| && front[i] == v;
          assert servers[i] == v && servers[|servers| - 1] == last;
        }
      }
    }
  }

  predicate Holds(s: seq<Server>, id: string, i: nat) {
    i < |s| && s[i].id == id
  }

  /** The transfers made: a prefix of the rotation ending at the first acceptance, or all and then the fallback. */
  ghost predicate Rotated(
    voters: seq<Server>, current: nat, answer: Server -> Reply, fallbackOk: bool,
    r: Result<(), Error>, attempts: seq<Server>, fellBack: bool)
  {
    && current < |voters| && attempts <= Rotation(voters, current)
    && (forall i :: 0 <= i < |attempts| - 1 ==> answer(attempts[i]).Rejected?)
    && (fellBack <==> forall v :: v in Rotation(voters, current) ==> answer(v).Rejected?)
    && (fellBack ==> attempts == Rotation(voters, current) && r == if fallbackOk then Ok(()) else Err(TransferFailed))
    && (!fellBack ==> attempts != [] && !answer(attempts[|attempts| - 1]).Rejected? && r == Ok(()))
  }

  /** The loop over offsets: ask each target in rotation, remember a refusal, fall back when all refused. */
  method TryRotation(voters: seq<Server>, current: nat, answer: Server -> Reply, fallbackOk: bool)
    returns (r: Result<(), Error>, attempts: seq<Server>, fellBack: bool)
    requires current < |voters| && |voters| > 1
    ensures Rotated(voters, current, answer, fallbackOk, r, attempts, fellBack)
  {
    attempts, fellBack := [], false;
    var lastErr := false;
    ghost var rotation := Rotation(voters, current);
    for offset := 1 to |voters|
      invariant attempts == rotation[..offset - 1] && !fellBack
      invariant forall i :: 0 <= i < |attempts| ==> answer(attempts[i]).Rejected?
      invariant lastErr <==> offset > 1
    {
      RotationIndex(voters, current, offset);
      var target := voters[(current + offset) % |voters|];
      assert target == rotation[offset - 1] && target in rotation;
      attempts := attempts + [target];
      assert attempts == rotation[..offset];
      var reply := answer(target);
      if reply.Accepted? || reply.InProgress? {
        return Ok(()), attempts, fellBack;
      }
      lastErr := true;
    }
    assert attempts == rotation;
    if lastErr {
      fellBack := true;
      if !fallbackOk { return Err(TransferFailed), attempts, fellBack; }
    }
    r := Ok(());
  }

  method PositionOf(s: seq<Server>, id: string) returns (p: Option<nat>)
    ensures p.Some? ==> Holds(s, id, p.value)
    ensures p.None? ==> forall i :: !Holds(s, id, i)
  {
    for i := 0 to |s|
      invariant forall k :: 0 <= k < i ==> s[k].id != id
    {
      if s[i].id == id { return Some(i); }
    }
    return None;
  }

  /**
    `transfer_leader_round_robin`: nothing to do for a lone voter, an error for a node that is no voter,
    otherwise the rotation that starts just after the node itself.
  */
  method TransferRoundRobin(
    membership: Option<seq<Server>>, self: string, answer: Server -> Reply, fallbackOk: bool)
    returns (r: Result<(), Error>, attempts: seq<Server>, fellBack: bool)
    ensures membership.None? ==> r == Err(MembershipUnknown) && attempts == [] && !fellBack
    ensures membership.Some? ==>
              Transferred(SortById(VotersOf(membership.value)), self, answer, fallbackOk, r, attempts, fellBack)
  {
    if membership.None? { return Err(MembershipUnknown), [], false; }
    var voters := SortById(VotersOf(membership.value));
    if |voters| <= 1 { return Ok(()), [], false; }
    var current := PositionOf(voters, self);
    if current.None? { return Err(ServerNotFound), [], false; }
    r, attempts, fellBack := TryRotation(voters, current.value, answer, fallbackOk);
  }

  ghost predicate Transferred(
    voters: seq<Server>, self: string, answer: Server -> Reply, fallbackOk: bool,
    r: Result<(), Error>, attempts: seq<Server>, fellBack: bool)
  {
    if |voters| <= 1 then r == Ok(()) && attempts == [] && !fellBack
    else if forall i :: !Holds(voters, self, i) then r == Err(ServerNotFound) && attempts == [] && !fellBack
    else exists current :: Holds(voters, self, current) && Rotated(voters, current, answer, fallbackOk, r, attempts, fellBack)
  }

  lemma RotatedAttempts(
    voters: seq<Server>, current: nat, answer: Server -> Reply, fallbackOk: bool,
    r: Result<(), Error>, attempts: seq<Server>, fellBack: bool)
    requires DistinctIds(voters) && Rotated(voters, current, answer, fallbackOk, r, attempts, fellBack)
    ensures DistinctIds(attempts)
    ensures forall v :: v in attempts ==> v in voters && v.id != voters[current].id
    ensures fellBack ==> forall v :: v in voters && v.id != voters[current].id ==> v in attempts && answer(v).Rejected?
  {
  }

  /** The sorted voters are the voting servers, each once. */
  lemma SortedVoters(servers: seq<Server>)
    requires DistinctIds(servers)
    ensures DistinctIds(SortById(VotersOf(servers)))
    ensures forall v :: v in SortById(VotersOf(servers)) <==> v in servers && v.suffrage.Voter?
  {
    VotersOfMeaning(servers);
    SortByIdSorts(VotersOf(servers));
    SortedIsDistinct(SortById(VotersOf(servers)));
    SameMembers(VotersOf(servers), SortById(VotersOf(servers)));
  }

  /** Each other voter is asked at most once and the node never asks itself, whatever the answers. */
  lemma AttemptsAreOthers(
    servers: seq<Server>, self: string, answer: Server -> Reply, fallbackOk: bool,
    r: Result<(), Error>, attempts: seq<Server>, fellBack: bool)
    requires DistinctIds(servers)
    requires Transferred(SortById(VotersOf(servers)), self, answer, fallbackOk, r, attempts, fellBack)
    ensures DistinctIds(attempts)
    ensures forall v :: v in attempts ==> v in servers && v.suffrage.Voter? && v.id != self
    ensures fellBack ==>
              forall v :: v in servers && v.suffrage.Voter? && v.id != self ==> v in attempts && answer(v).Rejected?
  {
    SortedVoters(servers);
    var voters := SortById(VotersOf(servers));
    if |voters| > 1 && exists i :: Holds(voters, self, i) {
      var current: nat :| Holds(voters, self, current) && Rotated(voters, current, answer, fallbackOk, r, attempts, fellBack);
      RotatedAttempts(voters, current, answer, fallbackOk, r, attempts, fellBack);
    }
  }

  lemma SameMembers(a: seq<Server>, b: seq<Server>)
    requires multiset(a) == multiset(b)
    ensures forall v :: v in a <==> v in b
  {
    assert forall v :: v in a <==> v in multiset(a);
  }

  // ---------- n transfers visit everybody ----------

  /** What one transfer did. */
  datatype Transfer = Transfer(fallbackOk: bool, r: Result<(), Error>, attempts: seq<Server>, fellBack: bool)

  /** The transfer is one the node may make, and its last attempt is the next leader. */
  ghost predicate HandsOver(voters: seq<Server>, answer: Server -> Reply, t: Transfer, from: Server, to: Server) {
    && Transferred(voters, from.id, answer, t.fallbackOk, t.r, t.attempts, t.fellBack)
    && t.attempts != [] && to == t.attempts[|t.attempts| - 1]
  }

  function NextPosition(voters: seq<Server>, p: nat): nat
    requires p < |voters|
  {
    if p + 1 < |voters| then p + 1 else 0
  }

  /** When nobody refuses, leadership goes to the next voter, wrapping around. */
  lemma HandsOverToNext(
    voters: seq<Server>, answer: Server -> Reply, t: Transfer, p: nat, to: Server)
    requires DistinctIds(voters) && |voters| > 1 && p < |voters|
    requires forall v :: v in voters ==> !answer(v).Rejected?
    requires HandsOver(voters, answer, t, voters[p], to)
    ensures to == voters[NextPosition(voters, p)]
  {
    assert Holds(voters, voters[p].id, p);
    var current: nat :| Holds(voters, voters[p].id, current)
      && Rotated(voters, current, answer, t.fallbackOk, t.r, t.attempts, t.fellBack);
    assert current == p;
    var rotation := Rotation(voters, p);
    assert rotation[0] == voters[NextPosition(voters, p)] && rotation[0] in rotation;
    assert t.attempts[0] == rotation[0] && t.attempts[0] in voters;
  }

  /** The position `k` places after the first, wrapping around once. */
  function PositionAfter(n: nat, start: nat, k: nat): (p: nat)
    requires start < n && k <= n
    ensures p < n
  {
    if start + k < n then start + k else start + k - n
  }

  lemma {:induction false} LeadersAdvance(
    voters: seq<Server>, answer: Server -> Reply, leaders: seq<Server>, ts: seq<Transfer>, start: nat, k: nat)
    requires DistinctIds(voters) && |voters| > 1 && start < |voters|
    requires forall v :: v in voters ==> !answer(v).Rejected?
    requires |ts| == |voters| && |leaders| == |ts| + 1 && leaders[0] == voters[start] && k <= |ts|
    requires forall i :: 0 <= i < |ts| ==> HandsOver(voters, answer, ts[i], leaders[i], leaders[i + 1])
    ensures leaders[k] == voters[PositionAfter(|voters|, start, k)]
  {
    if k > 0 {
      LeadersAdvance(voters, answer, leaders, ts, start, k - 1);
      HandsOverToNext(voters, answer, ts[k - 1], PositionAfter(|voters|, start, k - 1), leaders[k - 1 + 1]);
    }
  }

  lemma VoterIsReached(
    voters: seq<Server>, answer: Server -> Reply, leaders: seq<Server>, ts: seq<Transfer>, start: nat, i: nat)
    requires DistinctIds(voters) && |voters| > 1 && start < |voters| && i < |voters|
    requires forall v :: v in voters ==> !answer(v).Rejected?
    requires |ts| == |voters| && |leaders| == |ts| + 1 && leaders[0] == voters[start]
    requires forall k :: 0 <= k < |ts| ==> HandsOver(voters, answer, ts[k], leaders[k], leaders[k + 1])
    ensures voters[i] in leaders[1..]
  {
    var k := if i > start then i - start else i + |voters| - start;
    LeadersAdvance(voters, answer, leaders, ts, start, k);
    assert leaders[1..][k - 1] == voters[i];
  }

  /** Transfers among the voters that nobody refuses, each by the leader the one before made. */
  ghost predicate Cycle(voters: seq<Server>, answer: Server -> Reply, leaders: seq<Server>, ts: seq<Transfer>) {
    && (forall v :: v in voters ==> !answer(v).Rejected?)
    && |ts| == |voters| && |leaders| == |ts| + 1 && leaders[0] in voters
    && forall k :: 0 <= k < |ts| ==> HandsOver(voters, answer, ts[k], leaders[k], leaders[k + 1])
  }

  /**
    If nobody refuses and the membership stays, any `n` successive transfers among `n` voters, the leader of
    each being the last one asked in the one before, make every voter leader and come back to the first.
  */
  lemma FullCycle(servers: seq<Server>, answer: Server -> Reply, leaders: seq<Server>, ts: seq<Transfer>)
    requires DistinctIds(servers) && |SortById(VotersOf(servers))| > 1
    requires Cycle(SortById(VotersOf(servers)), answer, leaders, ts)
    ensures forall v :: v in servers && v.suffrage.Voter? ==> v in leaders[1..]
    ensures leaders[|ts|] == leaders[0]
  {
    SortedVoters(servers);
    var voters := SortById(VotersOf(servers));
    var start :| 0 <= start < |voters| && voters[start] == leaders[0];
    LeadersAdvance(voters, answer, leaders, ts, start, |voters|);
    forall v | v in voters ensures v in leaders[1..] {
      var i :| 0 <= i < |voters| && voters[i] == v;
      VoterIsReached(voters, answer, leaders, ts, start, i);
    }
  }

  // ---------- the default target ----------

  /** One past the matched index, or zero when nothing has matched; saturating. */
  function NextIndex(matched: Option<nat>): nat {
    if matched.None? then 0 else if matched.value < U64_MAX then matched.value + 1 else U64_MAX
  }

  /** A voter other than the node itself that is being replicated to and has matched something. */
  predicate Candidate(server: Server, self: string, matched: map<string, Option<nat>>) {
    server.id != self && server.suffrage.Voter? && server.id in matched && matched[server.id].Some?
  }

  /** The first candidate with the most advanced log, or an error exactly when there is none. */
  method DefaultTransferTarget(servers: seq<Server>, self: string, matched: map<string, Option<nat>>)
    returns (r: Result<Server, Error>)
    ensures r.Err? <==> forall i :: 0 <= i < |servers| ==> !Candidate(servers[i], self, matched)
    ensures r.Err? ==> r.error == CannotFindPeer
    ensures r.Ok? ==> exists i :: && 0 <= i < |servers| && servers[i] == r.value && Candidate(servers[i], self, matched)
                                  && IsMostAdvanced(servers, i, self, matched)
  {
    var pick: Option<Server> := None;
    var current := 0;
    ghost var at := 0;
    var i := 0;
    while i < |servers|
      invariant 0 <= i <= |servers|
      invariant pick.None? ==> current == 0 && forall j :: 0 <= j < i ==> !Candidate(servers[j], self, matched)
      invariant pick.Some? ==> 0 <= at < i && servers[at] == pick.value && Candidate(servers[at], self, matched)
      invariant pick.Some? ==> current == NextIndex(matched[servers[at].id])
      invariant pick.Some? ==> forall j :: 0 <= j < i && Candidate(servers[j], self, matched) ==>
                  NextIndex(matched[servers[j].id]) <= current && (j < at ==> NextIndex(matched[servers[j].id]) < current)
    {
      var server := servers[i];
      if server.id != self && server.suffrage.Voter? && server.id in matched {
        var next := NextIndex(matched[server.id]);
        if next > current {
          current := next;
          pick := Some(server);
          at := i;
        }
      }
      i := i + 1;
    }
    if pick.Some? {
      assert IsMostAdvanced(servers, at, self, matched);
      r := Ok(pick.value);
    } else {
      r := Err(CannotFindPeer);
    }
  }

  /** No candidate has matched more and no earlier one as much; the last two 64-bit indices count alike. */
  ghost predicate IsMostAdvanced(servers: seq<Server>, i: nat, self: string, matched: map<string, Option<nat>>)
    requires i < |servers| && Candidate(servers[i], self, matched)
  {
    var best := matched[servers[i].id].value;
    forall j :: 0 <= j < |servers| && Candidate(servers[j], self, matched) ==>
      && (matched[servers[j].id].value <= best || best >= U64_MAX - 1)
      && (j < i ==> matched[servers[j].id].value < best && matched[servers[j].id].value < U64_MAX - 1)
  }
}
