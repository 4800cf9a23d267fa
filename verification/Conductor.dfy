/**
  The conductor's control action: what it does for each combination of leadership, health, sequencer
  activity and last recorded state, with every remote call answered by an arbitrary environment.
*/
module Conductor {
  import opened Prelude

  datatype State = State(leader: bool, healthy: bool, active: bool)

  datatype Health =
    | Healthy
    | Unhealthy
    | SequencerConnectionDown
    | SupervisorConnectionDown
    | ExecutionP2pConnectionDown
    | RollupBoostConnectionDown
    | RollupBoostPartiallyHealthy
  {
    predicate PreventsNewLeaderStart() {
      SequencerConnectionDown?
    }

    predicate PreventsHealthRecoveryWait() {
      SequencerConnectionDown? || RollupBoostPartiallyHealthy?
    }
  }

  datatype Error =
    | WaitingForHealthRecovery
    | StartFailed
    | StopFailed
    | TransferFailed
    | StopAndTransferFailed
    | ConductorStopped
    | SequencerUnreachable
    | ShutdownFailed

  /** Calls that reach the sequencer or the consensus, and whether they were accepted. */
  datatype Effect = Started(ok: bool) | Stopped(ok: bool) | Transferred(ok: bool)

  datatype StopReply = StoppedNow | AlreadyStopped | StopRefused

  /** Answers met by one action: leadership as read twice, and the outcome of each call if it is made. */
  datatype Env = Env(leader: bool, leaderAtTransfer: bool, startOk: bool, stop: StopReply, transferOk: bool)

  /** The conductor's own fields. */
  datatype Fields = Fields(
    paused: bool,
    stopping: bool,
    stopped: bool,
    seqActive: bool,
    health: Health,
    previous: State)

  datatype Outcome = Outcome(fields: Fields, result: Result<(), Error>, effects: seq<Effect>)

  predicate Halted(f: Fields) {
    f.paused || f.stopping || f.stopped
  }

  /** The status an action works from, read before it does anything. */
  function Status(f: Fields, env: Env): State {
    State(env.leader, f.health.Healthy?, f.seqActive)
  }

  // ---------- the decision table ----------

  datatype Plan = Nothing | StopIt | StartIt | StartOrTransfer | GiveUpLeadership | Wait | StopAndTransfer

  function Decide(status: State, previous: State, health: Health): Plan {
    if !status.leader then (if status.active then StopIt else Nothing)
    else if status.healthy then (if status.active then Nothing else StartIt)
    else if !status.active then
      (if !previous.leader && !previous.active && !health.PreventsNewLeaderStart() then StartOrTransfer
       else GiveUpLeadership)
    else if previous == State(true, false, false) && !health.PreventsHealthRecoveryWait() then Wait
    else StopAndTransfer
  }

  function TransferEffects(env: Env): seq<Effect> {
    if env.leaderAtTransfer then [Transferred(env.transferOk)] else []
  }

  predicate TransferSucceeds(env: Env) {
    !env.leaderAtTransfer || env.transferOk
  }

  /** The calls a plan makes, in order. */
  function PlanEffects(plan: Plan, env: Env): seq<Effect> {
    match plan
    case Nothing => []
    case Wait => []
    case StopIt => [Stopped(!env.stop.StopRefused?)]
    case StartIt => [Started(env.startOk)]
    case StartOrTransfer => [Started(env.startOk)] + if env.startOk then [] else TransferEffects(env)
    case GiveUpLeadership => TransferEffects(env)
    case StopAndTransfer => [Stopped(!env.stop.StopRefused?)] + TransferEffects(env)
  }

  function PlanResult(plan: Plan, env: Env): Result<(), Error> {
    match plan
    case Nothing => Ok(())
    case Wait => Err(WaitingForHealthRecovery)
    case StopIt => if env.stop.StopRefused? then Err(StopFailed) else Ok(())
    case StartIt => if env.startOk then Ok(()) else Err(StartFailed)
    case StartOrTransfer => if env.startOk || TransferSucceeds(env) then Ok(()) else Err(TransferFailed)
    case GiveUpLeadership => if TransferSucceeds(env) then Ok(()) else Err(TransferFailed)
    case StopAndTransfer =>
      if env.stop.StopRefused? && !TransferSucceeds(env) then Err(StopAndTransferFailed)
      else if env.stop.StopRefused? then Err(StopFailed)
      else if !TransferSucceeds(env) then Err(TransferFailed)
      else Ok(())
  }

  /** The cached activity after a list of calls. */
  function ActiveAfter(active: bool, effects: seq<Effect>): bool {
    if effects == [] then active
    else match effects[|effects| - 1]
      case Started(ok) => ok || ActiveAfter(active, effects[..|effects| - 1])
      case Stopped(ok) => !ok && ActiveAfter(active, effects[..|effects| - 1])
      case Transferred(_) => ActiveAfter(active, effects[..|effects| - 1])
  }

  /** One action: the status seen beforehand is recorded only if the action succeeded. */
  function Action(f: Fields, env: Env): Outcome {
    if Halted(f) then Outcome(f, Ok(()), [])
    else
      var status := Status(f, env);
      var plan := Decide(status, f.previous, f.health);
      var effects := PlanEffects(plan, env);
      var result := PlanResult(plan, env);
      Outcome(f.(seqActive := ActiveAfter(f.seqActive, effects),
                 previous := if result.Ok? then status else f.previous),
              result, effects)
  }

  /** Only an accepted start or stop changes the cached activity. */
  lemma PlanActivity(active: bool, plan: Plan, env: Env)
    ensures ActiveAfter(active, PlanEffects(plan, env)) ==
            match plan
            case StopIt => active && env.stop.StopRefused?
            case StopAndTransfer => active && env.stop.StopRefused?
            case StartIt => active || env.startOk
            case StartOrTransfer => active || env.startOk
            case _ => active
  {
    var effects := PlanEffects(plan, env);
    if |effects| == 2 {
      assert effects[..1] == [effects[0]] && effects[..1][..0] == [];
      assert ActiveAfter(active, effects[..0]) == active;
    } else if |effects| == 1 {
      assert effects[..0] == [];
    }
  }

  // ---------- what an action is for, without the table ----------

  /** An unhealthy node just made leader may start, unless its connection is down. */
  predicate MayTakeOver(health: Health, previous: State) {
    !previous.leader && !previous.active && !health.SequencerConnectionDown?
  }

  /** After its takeover a leader waits for a verdict that may pass by itself. */
  predicate MustWait(health: Health, previous: State) {
    && previous.leader && !previous.healthy && !previous.active
    && !health.SequencerConnectionDown? && !health.RollupBoostPartiallyHealthy?
  }

  predicate StartsNow(active: bool, health: Health, previous: State, env: Env) {
    env.leader && !active && (health.Healthy? || MayTakeOver(health, previous))
  }

  predicate StopsNow(active: bool, health: Health, previous: State, env: Env) {
    active && (!env.leader || (!health.Healthy? && !MustWait(health, previous)))
  }

  predicate HandsOverNow(active: bool, health: Health, previous: State, env: Env) {
    && env.leader && env.leaderAtTransfer && !health.Healthy?
    && if active then !MustWait(health, previous) else !(MayTakeOver(health, previous) && env.startOk)
  }

  /** The calls due for what was seen: at most a start, a stop and a transfer, in this order. */
  function CallsDue(active: bool, health: Health, previous: State, env: Env): seq<Effect> {
    (if StartsNow(active, health, previous, env) then [Started(env.startOk)] else [])
    + (if StopsNow(active, health, previous, env) then [Stopped(env.stop != StopRefused)] else [])
    + if HandsOverNow(active, health, previous, env) then [Transferred(env.transferOk)] else []
  }

  /** Waiting is an error; a failed start counts only for a healthy leader; stop and transfer errors combine. */
  function ResultDue(active: bool, health: Health, previous: State, env: Env): Result<(), Error> {
    var stopFailed := StopsNow(active, health, previous, env) && env.stop == StopRefused;
    var transferFailed := HandsOverNow(active, health, previous, env) && !env.transferOk;
    if env.leader && active && !health.Healthy? && MustWait(health, previous) then Err(WaitingForHealthRecovery)
    else if stopFailed && transferFailed then Err(StopAndTransferFailed)
    else if stopFailed then Err(StopFailed)
    else if transferFailed then Err(TransferFailed)
    else if health.Healthy? && StartsNow(active, health, previous, env) && !env.startOk then Err(StartFailed)
    else Ok(())
  }

  function PlanFor(active: bool, health: Health, previous: State, env: Env): Plan {
    Decide(State(env.leader, health.Healthy?, active), previous, health)
  }

  lemma PlanCalls(active: bool, health: Health, previous: State, env: Env)
    ensures PlanEffects(PlanFor(active, health, previous, env), env) == CallsDue(active, health, previous, env)
  {
  }

  lemma PlanAnswers(active: bool, health: Health, previous: State, env: Env)
    ensures PlanResult(PlanFor(active, health, previous, env), env) == ResultDue(active, health, previous, env)
  {
  }

  lemma PlanLeaves(active: bool, plan: Plan, env: Env)
    requires plan.StartIt? || plan.StartOrTransfer? ==> !active
    ensures var effects := PlanEffects(plan, env);
            ActiveAfter(active, effects) == (Started(true) in effects || (active && Stopped(true) !in effects))
  {
    PlanActivity(active, plan, env);
  }

  /**
    What one action does, for every state and every answer: exactly the calls due, the result due, the
    activity its accepted calls leave, and the status it saw on record exactly if it succeeded.
  */
  lemma ActionMeaning(f: Fields, env: Env)
    ensures Halted(f) ==> Action(f, env) == Outcome(f, Ok(()), [])
    ensures !Halted(f) ==>
              var o := Action(f, env);
              && o.effects == CallsDue(f.seqActive, f.health, f.previous, env)
              && o.result == ResultDue(f.seqActive, f.health, f.previous, env)
              && o.fields == Fields(
                   false, false, false,
                   Started(true) in o.effects || (f.seqActive && Stopped(true) !in o.effects),
                   f.health,
                   if o.result.Ok? then State(env.leader, f.health.Healthy?, f.seqActive) else f.previous)
  {
    if !Halted(f) {
      PlanCalls(f.seqActive, f.health, f.previous, env);
      PlanAnswers(f.seqActive, f.health, f.previous, env);
      PlanLeaves(f.seqActive, PlanFor(f.seqActive, f.health, f.previous, env), env);
    }
  }

  // ---------- pause, resume, stop ----------

  function PauseOutcome(f: Fields): Outcome {
    if f.stopped then Outcome(f, Err(ConductorStopped), []) else Outcome(f.(paused := true), Ok(()), [])
  }

  /** Resuming asks the sequencer for its activity first; without an answer nothing changes. */
  function ResumeOutcome(f: Fields, reply: Option<bool>): Outcome {
    if f.stopped then Outcome(f, Err(ConductorStopped), [])
    else if reply.None? then Outcome(f, Err(SequencerUnreachable), [])
    else Outcome(f.(seqActive := reply.value, paused := false), Ok(()), [])
  }

  /** A failed shutdown leaves the conductor stopping, hence halted. */
  function StopOutcome(f: Fields, shutdownOk: bool): Outcome {
    if f.stopped then Outcome(f, Ok(()), [])
    else if shutdownOk then Outcome(f.(stopping := true, stopped := true), Ok(()), [])
    else Outcome(f.(stopping := true), Err(ShutdownFailed), [])
  }

  // ---------- the conductor object ----------

  class Conductor {
    var paused: bool
    var stopping: bool
    var stopped: bool
    var seqActive: bool
    var healthy: Health
    var previous: State

    /** Every call made so far. */
    ghost var calls: seq<Effect>

    function View(): Fields
      reads this
    {
      Fields(paused, stopping, stopped, seqActive, healthy, previous)
    }

    constructor (startPaused: bool, leader: bool)
      ensures View() == Fields(startPaused, false, false, false, Healthy, State(leader, true, false))
      ensures calls == []
    {
      paused, stopping, stopped, seqActive := startPaused, false, false, false;
      healthy, previous := Healthy, State(leader, true, false);
      calls := [];
    }

    /** The fields and the calls made are those of the outcome. */
    twostate predicate Did(o: Outcome)
      reads this
    {
      View() == o.fields && calls == old(calls) + o.effects
    }

    method Pause() returns (r: Result<(), Error>)
      modifies this`paused
      ensures Did(PauseOutcome(old(View()))) && r == PauseOutcome(old(View())).result
    {
      if stopped { return Err(ConductorStopped); }
      paused := true;
      return Ok(());
    }

    method Resume(reply: Option<bool>) returns (r: Result<(), Error>)
      modifies this`paused, this`seqActive
      ensures Did(ResumeOutcome(old(View()), reply)) && r == ResumeOutcome(old(View()), reply).result
    {
      if stopped { return Err(ConductorStopped); }
      if reply.None? { return Err(SequencerUnreachable); }
      seqActive := reply.value;
      paused := false;
      return Ok(());
    }

    method Stop(shutdownOk: bool) returns (r: Result<(), Error>)
      modifies this`stopping, this`stopped
      ensures Did(StopOutcome(old(View()), shutdownOk)) && r == StopOutcome(old(View()), shutdownOk).result
    {
      if stopped { return Ok(()); }
      stopping := true;
      if !shutdownOk { return Err(ShutdownFailed); }
      stopped := true;
      return Ok(());
    }

    /** Being told it is already stopped counts as stopped. */
    method StopSequencer(reply: StopReply) returns (r: Result<(), Error>)
      modifies this`seqActive, this`calls
      ensures r == if reply.StopRefused? then Err(StopFailed) else Ok(())
      ensures calls == old(calls) + [Stopped(r.Ok?)]
      ensures seqActive == (old(seqActive) && r.Err?)
    {
      match reply {
        case StoppedNow =>
          seqActive := false;
          r := Ok(());
        case AlreadyStopped =>
          seqActive := false;
          r := Ok(());
        case StopRefused =>
          r := Err(StopFailed);
      }
      calls := calls + [Stopped(r.Ok?)];
    }

    /** The attempt itself is modelled in SafeStart; here it is accepted or not. */
    method StartSequencer(accepted: bool) returns (r: Result<(), Error>)
      modifies this`seqActive, this`calls
      ensures r == if accepted then Ok(()) else Err(StartFailed)
      ensures calls == old(calls) + [Started(accepted)]
      ensures seqActive == (old(seqActive) || accepted)
    {
      calls := calls + [Started(accepted)];
      if !accepted { return Err(StartFailed); }
      seqActive := true;
      return Ok(());
    }

    method TransferLeaderInternal(env: Env) returns (r: Result<(), Error>)
      modifies this`calls
      ensures r == if TransferSucceeds(env) then Ok(()) else Err(TransferFailed)
      ensures calls == old(calls) + TransferEffects(env)
    {
      if !env.leaderAtTransfer { return Ok(()); }
      calls := calls + [Transferred(env.transferOk)];
      return if env.transferOk then Ok(()) else Err(TransferFailed);
    }

    /** Leadership is handed over even when the stop failed; the errors are combined. */
    method StopAndTransferLeader(env: Env) returns (r: Result<(), Error>)
      modifies this`seqActive, this`calls
      ensures r == PlanResult(StopAndTransfer, env)
      ensures calls == old(calls) + PlanEffects(StopAndTransfer, env)
      ensures seqActive == (old(seqActive) && env.stop.StopRefused?)
    {
      var stop := StopSequencer(env.stop);
      var transfer := TransferLeaderInternal(env);
      match (stop, transfer) {
        case (Ok(_), Ok(_)) => r := Ok(());
        case (Err(e), Ok(_)) => r := Err(e);
        case (Ok(_), Err(e)) => r := Err(e);
        case (Err(_), Err(_)) => r := Err(StopAndTransferFailed);
      }
    }

    method ShouldWaitForHealthRecovery(health: Health) returns (wait: bool)
      ensures wait == (previous == State(true, false, false) && !health.PreventsHealthRecoveryWait())
    {
      var prev := previous;
      wait := prev.leader && !prev.healthy && !prev.active && !health.PreventsHealthRecoveryWait();
    }

    /** `action_locked` follows the decision table. */
    method ActionLocked(env: Env) returns (r: Result<(), Error>)
      modifies this
      ensures Did(Action(old(View()), env)) && r == Action(old(View()), env).result
    {
      ghost var before := calls;
      if paused || stopping || stopped { return Ok(()); }
      var health := healthy;
      var status := State(env.leader, health.Healthy?, seqActive);
      match status {
        case State(false, _, true) => r := StopSequencer(env.stop);
        case State(true, true, false) => r := StartSequencer(env.startOk);
        case State(true, false, false) =>
          var prev := previous;
          if !prev.leader && !prev.active && !health.PreventsNewLeaderStart() {
            r := StartSequencer(env.startOk);
            if r.Err? { r := TransferLeaderInternal(env); }
          } else {
            r := TransferLeaderInternal(env);
          }
        case State(true, false, true) =>
          var wait := ShouldWaitForHealthRecovery(health);
          if wait { return Err(WaitingForHealthRecovery); }
          r := StopAndTransferLeader(env);
        case _ => r := Ok(());
      }
      PlanActivity(old(seqActive), Decide(status, previous, health), env);
      assert calls == before + PlanEffects(Decide(status, previous, health), env);
      if r.Ok? {
        if previous != status { previous := status; }
      }
    }

    /** `update_health` followed by the action. */
    method UpdateHealth(health: Health, env: Env) returns (r: Result<(), Error>)
      modifies this
      ensures Did(Action(old(View()).(health := health), env)) && r == Action(old(View()).(health := health), env).result
    {
      healthy := health;
      r := ActionLocked(env);
    }

    /** A tick refreshes the cached activity, or takes the connection for lost, and then acts. */
    method Tick(refreshed: Option<bool>, health: Health, env: Env) returns (r: Result<(), Error>)
      modifies this
      ensures Did(TickOutcome(old(View()), refreshed, health, env)) && r == TickOutcome(old(View()), refreshed, health, env).result
    {
      if stopping || stopped { return Ok(()); }
      match refreshed {
        case Some(active) =>
          seqActive := active;
          r := UpdateHealth(health, env);
        case None =>
          r := UpdateHealth(SequencerConnectionDown, env);
      }
    }
  }

  function TickOutcome(f: Fields, refreshed: Option<bool>, health: Health, env: Env): Outcome {
    if f.stopping || f.stopped then Outcome(f, Ok(()), [])
    else match refreshed
      case Some(active) => Action(f.(seqActive := active, health := health), env)
      case None => Action(f.(health := SequencerConnectionDown), env)
  }

  /**
    A tick once stopping does nothing. Before, it records the verdict, or a lost connection if the activity
    call failed, and makes the calls due for the activity just answered, or else for the cached one. While
    paused it only refreshes.
  */
  lemma TickMeaning(f: Fields, refreshed: Option<bool>, health: Health, env: Env)
    ensures var o := TickOutcome(f, refreshed, health, env);
            var active := if refreshed.Some? then refreshed.value else f.seqActive;
            var verdict := if refreshed.Some? then health else SequencerConnectionDown;
            if f.stopping || f.stopped then o == Outcome(f, Ok(()), [])
            else if f.paused then o == Outcome(f.(seqActive := active, health := verdict), Ok(()), [])
            else && o.fields.health == verdict
                 && o.effects == CallsDue(active, verdict, f.previous, env)
                 && o.result == ResultDue(active, verdict, f.previous, env)
  {
    if !f.stopping && !f.stopped {
      var active := if refreshed.Some? then refreshed.value else f.seqActive;
      var verdict := if refreshed.Some? then health else SequencerConnectionDown;
      assert TickOutcome(f, refreshed, health, env) == Action(f.(seqActive := active, health := verdict), env);
      PlanCalls(active, verdict, f.previous, env);
      PlanAnswers(active, verdict, f.previous, env);
    }
  }

  /** With the connection taken for lost nothing is started. */
  lemma UnansweredTickStartsNothing(f: Fields, health: Health, env: Env, ok: bool)
    ensures Started(ok) !in TickOutcome(f, None, health, env).effects
  {
    TickMeaning(f, None, health, env);
  }
}
