/**
  Runs of the conductor: actions mixed in any order with health updates, activity refreshes, pauses and
  stops. An unhealthy node takes over at most once per period as a follower, and then waits.
*/
module Takeover {
  import opened Prelude
  import opened Conductor

  datatype Event =
    | Act(env: Env)
    | SetHealth(health: Health)
    | SetActive(active: bool)
    | Pause
    | Resume(reply: Option<bool>)
    | Stop(shutdownOk: bool)

  function Step(f: Fields, e: Event): Outcome {
    match e
    case Act(env) => Action(f, env)
    case SetHealth(h) => Outcome(f.(health := h), Ok(()), [])
    case SetActive(b) => Outcome(f.(seqActive := b), Ok(()), [])
    case Pause => PauseOutcome(f)
    case Resume(reply) => ResumeOutcome(f, reply)
    case Stop(shutdownOk) => StopOutcome(f, shutdownOk)
  }

  ghost predicate Run(fs: seq<Fields>, es: seq<Event>) {
    |fs| == |es| + 1 && forall i :: 0 <= i < |es| ==> fs[i + 1] == Step(fs[i], es[i]).fields
  }

  /** An action that was carried out, succeeded, and had seen the node as a follower. */
  ghost predicate RecordedAsFollower(f: Fields, e: Event) {
    e.Act? && !Halted(f) && !e.env.leader && Action(f, e.env).result.Ok?
  }

  /** An action that started the sequencer while the node was unhealthy. */
  ghost predicate UnhealthyStart(f: Fields, e: Event) {
    e.Act? && !f.health.Healthy? && Started(true) in Action(f, e.env).effects
  }

  lemma UnhealthyStartShape(f: Fields, e: Event)
    requires UnhealthyStart(f, e)
    ensures !f.previous.leader && !f.health.SequencerConnectionDown?
    ensures Step(f, e).fields == f.(seqActive := true, previous := State(true, false, false))
  {
  }

  lemma PreviousStep(f: Fields, e: Event)
    requires f.previous.leader && !RecordedAsFollower(f, e)
    ensures Step(f, e).fields.previous.leader
  {
  }

  /** The recorded state keeps saying leader until a follower's action is recorded. */
  lemma {:induction false} LeaderRemembered(fs: seq<Fields>, es: seq<Event>, i: nat, j: nat)
    requires Run(fs, es) && i <= j < |fs| && fs[i].previous.leader
    requires forall k :: i <= k < j ==> !RecordedAsFollower(fs[k], es[k])
    ensures fs[j].previous.leader
    decreases j
  {
    if i < j {
      LeaderRemembered(fs, es, i, j - 1);
      PreviousStep(fs[j - 1], es[j - 1]);
    }
  }

  /**
    Between two unhealthy starts of any run there is a recorded action that saw the node as a follower.
  */
  lemma OneTakeoverPerFollowerPeriod(fs: seq<Fields>, es: seq<Event>, i: nat, j: nat)
    requires Run(fs, es) && i < j < |es|
    requires UnhealthyStart(fs[i], es[i]) && UnhealthyStart(fs[j], es[j])
    ensures exists k :: i < k < j && RecordedAsFollower(fs[k], es[k])
  {
    UnhealthyStartShape(fs[i], es[i]);
    UnhealthyStartShape(fs[j], es[j]);
    if forall k :: i < k < j ==> !RecordedAsFollower(fs[k], es[k]) {
      LeaderRemembered(fs, es, i + 1, j);
    }
  }

  /** The conductor's tick is an activity refresh, a verdict and an action in a row. */
  lemma TickIsEvents(f: Fields, refreshed: Option<bool>, health: Health, env: Env)
    requires !f.stopping && !f.stopped
    ensures var g := if refreshed.Some? then Step(f, SetActive(refreshed.value)).fields else f;
            var h := Step(g, SetHealth(if refreshed.Some? then health else SequencerConnectionDown)).fields;
            Step(h, Act(env)) == TickOutcome(f, refreshed, health, env)
  {
  }

  // ---------- pause, resume and stop over runs ----------

  /** What the three calls answer and change, from the flags alone. */
  lemma ControlMeaning(f: Fields, e: Event)
    requires e.Pause? || e.Resume? || e.Stop?
    ensures Step(f, e).effects == []
    ensures e.Pause? ==> Step(f, e).result.Ok? == !f.stopped
    ensures e.Resume? ==> Step(f, e).result.Ok? == (!f.stopped && e.reply.Some?)
    ensures e.Stop? ==> Step(f, e).result.Ok? == (f.stopped || e.shutdownOk)
    ensures Step(f, e).fields.seqActive == if Resumes(f, e) then e.reply.value else f.seqActive
    ensures Step(f, e).fields.health == f.health && Step(f, e).fields.previous == f.previous
  {
  }

  /** A pause that is not refused. */
  ghost predicate Pauses(f: Fields, e: Event) {
    e.Pause? && !f.stopped
  }

  /** A resume that is neither refused nor left unanswered. */
  ghost predicate Resumes(f: Fields, e: Event) {
    e.Resume? && !f.stopped && e.reply.Some?
  }

  lemma FlagsStep(f: Fields, e: Event)
    ensures var g := Step(f, e).fields;
            && (g.paused <==> Pauses(f, e) || (f.paused && !Resumes(f, e)))
            && (g.stopping <==> f.stopping || (e.Stop? && !f.stopped))
            && (g.stopped <==> f.stopped || e == Stop(true))
  {
  }

  ghost predicate NoResume(fs: seq<Fields>, es: seq<Event>, k: nat, j: nat)
    requires j <= |es| <= |fs|
  {
    forall m :: k <= m < j ==> !Resumes(fs[m], es[m])
  }

  /** A pause took effect and no resume has since; `k` counts the events before and including the pause. */
  ghost predicate PausedSince(fs: seq<Fields>, es: seq<Event>, k: nat, j: nat)
    requires k <= j <= |es| < |fs|
  {
    (if k == 0 then fs[0].paused else Pauses(fs[k - 1], es[k - 1])) && NoResume(fs, es, k, j)
  }

  lemma PausedSinceStep(fs: seq<Fields>, es: seq<Event>, k: nat, j: nat)
    requires k < j <= |es| < |fs|
    ensures PausedSince(fs, es, k, j) <==> PausedSince(fs, es, k, j - 1) && !Resumes(fs[j - 1], es[j - 1])
  {
  }

  /**
    The flags of every run of a conductor, from its events: paused exactly since its start as such or a
    pause answered Ok with no resume answered Ok after it, stopped exactly after a successful shutdown,
    stopping exactly after any.
  */
  lemma {:induction false} FlagsMeaning(fs: seq<Fields>, es: seq<Event>, j: nat)
    requires Run(fs, es) && j < |fs| && !fs[0].stopping && !fs[0].stopped
    ensures fs[j].paused <==> exists k :: 0 <= k <= j && PausedSince(fs, es, k, j)
    ensures fs[j].stopped <==> exists k :: 0 <= k < j && es[k] == Stop(true)
    ensures fs[j].stopping <==> exists k :: 0 <= k < j && es[k].Stop?
  {
    if j == 0 {
      assert PausedSince(fs, es, 0, 0) <==> fs[0].paused;
    } else {
      FlagsMeaning(fs, es, j - 1);
      FlagsStep(fs[j - 1], es[j - 1]);
      assert fs[j - 1 + 1] == Step(fs[j - 1], es[j - 1]).fields;
      if Pauses(fs[j - 1], es[j - 1]) {
        assert PausedSince(fs, es, j, j);
      } else if fs[j].paused {
        var k :| 0 <= k <= j - 1 && PausedSince(fs, es, k, j - 1);
        PausedSinceStep(fs, es, k, j);
      } else {
        forall k | 0 <= k <= j ensures !PausedSince(fs, es, k, j) {
          if k < j { PausedSinceStep(fs, es, k, j); }
        }
      }
    }
  }

  /** No call is made from an Ok pause to the next resume, nor ever after a stop, failed or not. */
  lemma NoCallsWhileHalted(fs: seq<Fields>, es: seq<Event>, i: nat, j: nat)
    requires Run(fs, es) && i < j < |es| && !fs[0].stopping && !fs[0].stopped
    requires es[i].Stop? || (es[i].Pause? && Step(fs[i], es[i]).result.Ok? && forall m :: i < m < j ==> !es[m].Resume?)
    ensures Step(fs[j], es[j]).effects == []
    ensures es[i].Pause? ==> fs[j].paused
  {
    FlagsMeaning(fs, es, j);
    if es[i].Pause? {
      ControlMeaning(fs[i], es[i]);
      assert PausedSince(fs, es, i + 1, j);
    }
    if es[j].Act? { ActionMeaning(fs[j], es[j].env); }
  }

  /** Unhealthy in a way that may pass by itself. */
  predicate MayRecover(h: Health) {
    !h.Healthy? && !h.PreventsHealthRecoveryWait()
  }

  /** The event leaves the node a leader, active, and unhealthy in a way that may pass. */
  predicate StaysTakenOver(e: Event) {
    match e
    case Act(env) => env.leader
    case SetHealth(h) => MayRecover(h)
    case SetActive(b) => b
    case Resume(reply) => reply.Some? ==> reply.value
    case _ => true
  }

  ghost predicate Waiting(f: Fields) {
    f.seqActive && MayRecover(f.health) && f.previous == State(true, false, false)
  }

  lemma {:induction false} KeepsWaiting(fs: seq<Fields>, es: seq<Event>, i: nat, j: nat)
    requires Run(fs, es) && i <= j < |fs| && Waiting(fs[i])
    requires forall k :: i <= k < j ==> StaysTakenOver(es[k])
    ensures Waiting(fs[j])
    decreases j
  {
    if i < j {
      KeepsWaiting(fs, es, i, j - 1);
      assert StaysTakenOver(es[j - 1]);
    }
  }

  /**
    After an unhealthy start the node makes no call at all while it stays leader, active and unhealthy
    with neither the connection down nor the builder partially healthy; every action that is carried out
    reports that it waits.
  */
  lemma WaitsAfterTakeover(fs: seq<Fields>, es: seq<Event>, i: nat, j: nat)
    requires Run(fs, es) && i < j < |es|
    requires UnhealthyStart(fs[i], es[i]) && MayRecover(fs[i].health)
    requires forall k :: i < k <= j ==> StaysTakenOver(es[k])
    ensures Step(fs[j], es[j]).effects == []
    ensures es[j].Act? && !Halted(fs[j]) ==> Step(fs[j], es[j]).result == Err(WaitingForHealthRecovery)
  {
    UnhealthyStartShape(fs[i], es[i]);
    KeepsWaiting(fs, es, i + 1, j);
    assert StaysTakenOver(es[j]);
  }

  /** The action changes the recorded state: it was carried out and succeeded. */
  ghost predicate Recorded(f: Fields, e: Event) {
    e.Act? && !Halted(f) && Action(f, e.env).result.Ok?
  }

  lemma {:induction false} UnrecordedKeepsPrevious(fs: seq<Fields>, es: seq<Event>, i: nat, j: nat)
    requires Run(fs, es) && i <= j < |fs|
    requires forall k :: i <= k < j ==> !Recorded(fs[k], es[k])
    ensures fs[j].previous == fs[i].previous
    decreases j
  {
    if i < j {
      UnrecordedKeepsPrevious(fs, es, i, j - 1);
      assert !Recorded(fs[j - 1], es[j - 1]);
    }
  }

  /**
    When the wait is kept, exactly: with nothing recorded since an unhealthy start, whatever else happened,
    an action of a leader that is still active and unhealthy waits if and only if its current verdict may
    pass by itself. Otherwise, with the connection down or the builder partially healthy, it stops and
    hands over.
  */
  lemma WaitsIffMayRecover(fs: seq<Fields>, es: seq<Event>, i: nat, j: nat)
    requires Run(fs, es) && i < j < |es| && UnhealthyStart(fs[i], es[i])
    requires forall k :: i < k < j ==> !Recorded(fs[k], es[k])
    requires es[j].Act? && es[j].env.leader && !Halted(fs[j]) && fs[j].seqActive && !fs[j].health.Healthy?
    ensures Step(fs[j], es[j]).result == Err(WaitingForHealthRecovery) <==> MayRecover(fs[j].health)
    ensures Step(fs[j], es[j]).effects ==
            if MayRecover(fs[j].health) then []
            else [Stopped(!es[j].env.stop.StopRefused?)] + TransferEffects(es[j].env)
  {
    UnhealthyStartShape(fs[i], es[i]);
    UnrecordedKeepsPrevious(fs, es, i + 1, j);
  }
}
