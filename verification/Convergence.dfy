/**
  Repeated actions settle. Health is fixed and leadership changes only through the conductor's own
  transfers. Calls may fail and an accepted transfer may leave the node leader, but every action that is
  not already settled either meets one of the two or comes one stage closer to rest.
*/
module Convergence {
  import opened Conductor
  import LocalConsensus

  /** The conductor together with the leader flag of its consensus. */
  datatype World = World(fields: Fields, leader: bool)

  /** Whether the calls of one action would be accepted, and whether a transfer would leave the node leader. */
  datatype Answers = Answers(startOk: bool, stop: StopReply, transferOk: bool, stays: bool)

  function EnvOf(w: World, a: Answers): Env {
    Env(w.leader, w.leader, a.startOk, a.stop, a.transferOk)
  }

  function Effects(w: World, a: Answers): seq<Effect> {
    Action(w.fields, EnvOf(w, a)).effects
  }

  /** Leadership is lost through an accepted transfer that takes effect, and not otherwise. */
  function Act(w: World, a: Answers): World {
    World(Action(w.fields, EnvOf(w, a)).fields, w.leader && (a.stays || Transferred(true) !in Effects(w, a)))
  }

  function Refused(e: Effect): nat {
    if e.ok then 0 else 1
  }

  function Failures(effects: seq<Effect>): nat {
    if effects == [] then 0 else Failures(effects[..|effects| - 1]) + Refused(effects[|effects| - 1])
  }

  /** Failed calls, and accepted transfers without effect. */
  function Setbacks(w: World, a: Answers): nat {
    Failures(Effects(w, a)) + if a.stays && Transferred(true) in Effects(w, a) then 1 else 0
  }

  function After(w: World, answers: seq<Answers>): World {
    if answers == [] then w else Act(After(w, answers[..|answers| - 1]), answers[|answers| - 1])
  }

  function SetbacksIn(w: World, answers: seq<Answers>): nat {
    if answers == [] then 0
    else
      var front := answers[..|answers| - 1];
      SetbacksIn(w, front) + Setbacks(After(w, front), answers[|answers| - 1])
  }

  /** Stages left if every call were accepted. */
  function Rank(w: World): nat {
    var f := w.fields;
    if Halted(f) then 0
    else match Decide(State(w.leader, f.health.Healthy?, f.seqActive), f.previous, f.health)
      case Nothing => 0
      case Wait => 0
      case StopIt => 1
      case StartIt => 1
      case GiveUpLeadership => 1
      case StopAndTransfer => 2
      case StartOrTransfer => 3
  }

  /** At rest: whatever the answers would be, this action and all later ones call nothing. */
  ghost predicate Settled(w: World) {
    forall answers: seq<Answers>, a: Answers :: Effects(After(w, answers), a) == []
  }

  lemma FailureCounts(w: World, a: Answers)
    ensures Effects(w, a) == [] ==> Failures(Effects(w, a)) == 0
    ensures |Effects(w, a)| == 1 ==> Failures(Effects(w, a)) == Refused(Effects(w, a)[0])
    ensures |Effects(w, a)| == 2 ==> Failures(Effects(w, a)) == Refused(Effects(w, a)[0]) + Refused(Effects(w, a)[1])
    ensures |Effects(w, a)| <= 2
  {
    var es := Effects(w, a);
    if |es| == 2 {
      assert es[..1][..0] == [] && es[..1][0] == es[0];
      assert Failures(es[..1]) == Failures(es[..1][..0]) + Refused(es[0]);
    } else if |es| == 1 {
      assert es[..0] == [];
    }
  }

  /** The real measure: three per setback met pays for any stage lost. */
  lemma ActionProgress(w: World, a: Answers)
    ensures Rank(w) == 0 ==> Effects(w, a) == [] && Rank(Act(w, a)) == 0
    ensures Rank(w) > 0 ==> Rank(Act(w, a)) < Rank(w) + 3 * Setbacks(w, a)
  {
    FailureCounts(w, a);
    var f := w.fields;
    if !Halted(f) {
      PlanActivity(f.seqActive, Decide(Status(f, EnvOf(w, a)), f.previous, f.health), EnvOf(w, a));
    }
  }

  lemma {:induction false} RankBound(w: World, answers: seq<Answers>)
    ensures Rank(After(w, answers)) == 0
         || Rank(After(w, answers)) + |answers| <= Rank(w) + 3 * SetbacksIn(w, answers)
    decreases |answers|
  {
    if answers != [] {
      var front := answers[..|answers| - 1];
      RankBound(w, front);
      ActionProgress(After(w, front), answers[|answers| - 1]);
    }
  }

  lemma {:induction false} RestIsForever(w: World, answers: seq<Answers>)
    requires Rank(w) == 0
    ensures Rank(After(w, answers)) == 0
    decreases |answers|
  {
    if answers != [] {
      RestIsForever(w, answers[..|answers| - 1]);
      ActionProgress(After(w, answers[..|answers| - 1]), answers[|answers| - 1]);
    }
  }

  /** Rank zero is exactly rest: every other rank makes a call at once. */
  lemma SettledIffRankZero(w: World)
    ensures Settled(w) <==> Rank(w) == 0
  {
    if Rank(w) == 0 {
      forall answers: seq<Answers>, a: Answers ensures Effects(After(w, answers), a) == [] {
        RestIsForever(w, answers);
        ActionProgress(After(w, answers), a);
      }
    } else {
      var a := Answers(true, StoppedNow, true, false);
      assert After(w, []) == w;
      assert Effects(After(w, []), a) != [];
    }
  }

  /**
    From any state, any sequence of actions longer than three per setback met on the way plus three ends at
    rest, where no further start, stop or transfer is ever issued.
  */
  lemma ActionsConverge(w: World, answers: seq<Answers>)
    requires |answers| >= 3 * SetbacksIn(w, answers) + 3
    ensures Settled(After(w, answers))
  {
    RankBound(w, answers);
    SettledIffRankZero(After(w, answers));
  }

  /** Where it rests: halted, a follower with its sequencer off, a healthy active leader, or waiting. */
  lemma RestShape(w: World)
    requires !Halted(w.fields)
    ensures Settled(w) <==>
              || (!w.leader && !w.fields.seqActive)
              || (w.leader && w.fields.health.Healthy? && w.fields.seqActive)
              || (w.leader && !w.fields.health.Healthy? && w.fields.seqActive
                  && w.fields.previous == State(true, false, false)
                  && !w.fields.health.PreventsHealthRecoveryWait())
  {
    SettledIffRankZero(w);
  }

  // ---------- with the local consensus ----------

  /**
    One action of a conductor over a `LocalConsensus`, with or without round robin: it is the step above,
    and an accepted transfer never leaves the node leader.
  */
  method ActLocally(
    conductor: Conductor, consensus: LocalConsensus.LocalConsensus, roundRobin: bool, startOk: bool, stop: StopReply)
    returns (ghost a: Answers)
    requires consensus.Valid()
    modifies conductor, consensus`leader
    ensures consensus.Valid() && !a.stays && a.startOk == startOk && a.stop == stop
    ensures a.transferOk == old(consensus.CanTransfer(roundRobin))
    ensures World(conductor.View(), consensus.leader) == Act(old(World(conductor.View(), consensus.leader)), a)
  {
    var can := consensus.WouldTransfer(roundRobin);
    var env := Env(consensus.leader, consensus.leader, startOk, stop, can);
    var effects := Action(conductor.View(), env).effects;
    a := Answers(startOk, stop, can, false);
    ghost var w := World(conductor.View(), consensus.leader);
    TransfersOnlyAsLeader(w, a);
    var _ := conductor.ActionLocked(env);
    if Transferred(true) in effects || Transferred(false) in effects {
      var _ := consensus.TransferLeaderInternal(roundRobin);
    }
  }

  lemma TransfersOnlyAsLeader(w: World, a: Answers)
    ensures Transferred(!a.transferOk) !in Effects(w, a)
    ensures Transferred(a.transferOk) in Effects(w, a) ==> w.leader
  {
  }

  function FailuresIn(w: World, answers: seq<Answers>): nat {
    if answers == [] then 0
    else
      var front := answers[..|answers| - 1];
      FailuresIn(w, front) + Failures(Effects(After(w, front), answers[|answers| - 1]))
  }

  lemma {:induction false} LocalSetbacksAreFailures(w: World, answers: seq<Answers>)
    requires forall k :: 0 <= k < |answers| ==> !answers[k].stays
    ensures SetbacksIn(w, answers) == FailuresIn(w, answers)
    decreases |answers|
  {
    if answers != [] { LocalSetbacksAreFailures(w, answers[..|answers| - 1]); }
  }

  /** So with it only failed calls delay rest. */
  lemma LocalActionsConverge(w: World, answers: seq<Answers>)
    requires forall k :: 0 <= k < |answers| ==> !answers[k].stays
    requires |answers| >= 3 * FailuresIn(w, answers) + 3
    ensures Settled(After(w, answers))
  {
    LocalSetbacksAreFailures(w, answers);
    ActionsConverge(w, answers);
  }

  // ---------- transfers without effect ----------

  /** Every call is accepted and no transfer has effect: Raft with round robin and a lone voter. */
  const LONE := Answers(true, StoppedNow, true, true)

  function LoneAnswers(n: nat): (answers: seq<Answers>)
    ensures |answers| == n
  {
    seq(n, _ => LONE)
  }

  /** An unhealthy leader that is bound to hand over now, or right after its takeover. */
  predicate MustHandOver(w: World) {
    !Halted(w.fields) &&
    match Decide(State(w.leader, w.fields.health.Healthy?, w.fields.seqActive), w.fields.previous, w.fields.health)
    case GiveUpLeadership => true
    case StopAndTransfer => true
    case StartOrTransfer => w.fields.health.RollupBoostPartiallyHealthy?
    case _ => false
  }

  lemma LoneStep(w: World)
    ensures MustHandOver(w) ==> Rank(w) > 0 && MustHandOver(Act(w, LONE))
    ensures !MustHandOver(w) ==> Rank(Act(w, LONE)) == 0
  {
    var f := w.fields;
    if !Halted(f) {
      PlanActivity(f.seqActive, Decide(Status(f, EnvOf(w, LONE)), f.previous, f.health), EnvOf(w, LONE));
    }
  }

  lemma {:induction false} LoneKeepsHandingOver(w: World, n: nat)
    requires MustHandOver(w)
    ensures MustHandOver(After(w, LoneAnswers(n)))
  {
    if n > 0 {
      LoneKeepsHandingOver(w, n - 1);
      assert LoneAnswers(n)[..n - 1] == LoneAnswers(n - 1);
      LoneStep(After(w, LoneAnswers(n - 1)));
    }
  }

  /** Then the actions come to rest if and only if the node is not bound to hand over. */
  lemma LoneVoterRestsIff(w: World)
    ensures (exists n: nat :: Settled(After(w, LoneAnswers(n)))) <==> !MustHandOver(w)
  {
    if MustHandOver(w) {
      forall n: nat ensures !Settled(After(w, LoneAnswers(n))) {
        LoneKeepsHandingOver(w, n);
        LoneStep(After(w, LoneAnswers(n)));
        SettledIffRankZero(After(w, LoneAnswers(n)));
      }
    } else {
      LoneStep(w);
      assert LoneAnswers(1)[..0] == [] && After(w, LoneAnswers(1)) == Act(w, LONE);
      SettledIffRankZero(After(w, LoneAnswers(1)));
    }
  }
}
