/**
  `run_control_loop` with its coalescing watch channel and its retry timer: signals may arrive before the
  loop subscribes, during an action, or several at once, and none is lost. Failing ticks push the retry
  timer back, but every such tick has run an action of its own.
*/
module ControlLoop {

  /** Where the loop is; a tick checks for a stop, then refreshes, and then acts. */
  datatype At = Starting | Selecting | Acting | Ticking | TickChecked | TickActing | Returned

  /** The retry timer has fired and was not reset, runs towards its deadline, or is past it. */
  datatype Timer = Spent | Waiting | Due

  /**
    `version` and `seen` are the watch channel's and the receiver's versions. `now`, `lastSignal` and
    `lastBegun` are moments: of the run, of the last `queue_action`, and of the last attempt the loop began.
  */
  datatype Loop = Loop(
    at: At,
    version: nat,
    seen: nat,
    pending: bool,
    timer: Timer,
    stopping: bool,
    stopped: bool,
    now: nat,
    lastSignal: nat,
    lastBegun: nat)

  datatype Step =
    | QueueAction
    | StopBegins
    | StopEnds
    | Elapse
    | Subscribe
    | SeeChange
    | BeginAction
    | EndAction(ok: bool)
    | BeginTick
    | TickPass
    | TickAct
    | EndTick(ok: bool)

  const INITIAL := Loop(Starting, 0, 0, false, Spent, false, false, 1, 0, 0)

  predicate Enabled(l: Loop, s: Step) {
    match s
    case QueueAction => true
    case StopBegins => true
    case StopEnds => l.stopping
    case Elapse => l.timer.Waiting?
    case Subscribe => l.at.Starting?
    case SeeChange => l.at.Selecting? && l.seen != l.version
    case BeginAction => l.at.Selecting? && l.pending && l.timer.Due?
    case EndAction(_) => l.at.Acting?
    case BeginTick => l.at.Selecting?
    case TickPass => l.at.Ticking?
    case TickAct => l.at.TickChecked?
    case EndTick(_) => l.at.TickActing?
  }

  /**
    Sending without a receiver leaves the channel's version alone. A failed action or tick sets the timer
    to a later moment, even if it was due.
  */
  function Effect(l: Loop, s: Step): Loop
    requires Enabled(l, s)
  {
    match s
    case QueueAction =>
      l.(version := if l.at.Starting? then l.version else l.version + 1, lastSignal := l.now)
    case StopBegins => l.(stopping := true)
    case StopEnds => l.(stopped := true)
    case Elapse => l.(timer := Due)
    case Subscribe => l.(at := Selecting, seen := l.version, pending := true, timer := Due)
    case SeeChange =>
      if l.stopped then l.(at := Returned)
      else if l.pending then l.(seen := l.version)
      else l.(seen := l.version, pending := true, timer := Due)
    case BeginAction =>
      if l.stopped then l.(at := Returned) else l.(at := Acting, timer := Spent, lastBegun := l.now)
    case EndAction(ok) =>
      if ok then l.(at := Selecting, pending := false) else l.(at := Selecting, timer := Waiting)
    case BeginTick => l.(at := if l.stopped then Returned else Ticking)
    case TickPass => l.(at := if l.stopping then Selecting else TickChecked)
    case TickAct => l.(at := TickActing)
    case EndTick(ok) => if ok then l.(at := Selecting) else l.(at := Selecting, pending := true, timer := Waiting)
  }

  function Do(l: Loop, s: Step): Loop
    requires Enabled(l, s)
  {
    Effect(l, s).(now := l.now + 1)
  }

  ghost predicate Run(ls: seq<Loop>, steps: seq<Step>) {
    && |ls| == |steps| + 1 && ls[0] == INITIAL
    && forall i :: 0 <= i < |steps| ==> Enabled(ls[i], steps[i]) && ls[i + 1] == Do(ls[i], steps[i])
  }

  lemma RunExtends(ls: seq<Loop>, steps: seq<Step>, s: Step)
    requires Run(ls, steps) && Enabled(ls[|steps|], s)
    ensures Run(ls + [Do(ls[|steps|], s)], steps + [s])
  {
  }

  // ---------- no lost wake-up ----------

  /** The loop still owes an attempt: it is about to make one, or will notice that it must. */
  predicate Owes(l: Loop) {
    l.at.Starting? || l.pending || l.seen != l.version
  }

  ghost predicate Inv(l: Loop) {
    && l.seen <= l.version
    && l.lastSignal < l.now && l.lastBegun < l.now
    && (l.pending && !l.at.Acting? ==> !l.timer.Spent?)
    && (l.at.Acting? ==> l.pending)
    && (l.at.Starting? ==> !l.pending)
    && (l.at.Returned? ==> l.stopped)
    && (l.stopped ==> l.stopping)
    && (l.lastSignal > l.lastBegun ==>
          l.at.Returned? || (if l.at.Acting? then l.seen != l.version else Owes(l)))
    && (l.lastSignal == l.lastBegun ==> l.lastSignal == 0)
  }

  lemma InvStep(l: Loop, s: Step)
    requires Inv(l) && Enabled(l, s)
    ensures Inv(Do(l, s))
  {
  }

  lemma {:induction false} RunInv(ls: seq<Loop>, steps: seq<Step>, i: nat)
    requires Run(ls, steps) && i < |ls|
    ensures Inv(ls[i]) && ls[i].now == i + 1
  {
    if i > 0 {
      RunInv(ls, steps, i - 1);
      InvStep(ls[i - 1], steps[i - 1]);
    }
  }

  /** The step begins an attempt of the loop's own. */
  ghost predicate Begins(l: Loop, s: Step) {
    s.BeginAction? && !l.stopped
  }

  lemma LastBegunStep(l: Loop, s: Step)
    requires Enabled(l, s)
    ensures Do(l, s).lastBegun == if Begins(l, s) then l.now else l.lastBegun
  {
  }

  /** The recorded moment of the last attempt is that of an actual step. */
  lemma {:induction false} LastBegunIsAStep(ls: seq<Loop>, steps: seq<Step>, i: nat, b: nat)
    requires Run(ls, steps) && i < |ls| && ls[i].lastBegun == b + 1
    ensures b < i && Begins(ls[b], steps[b])
    decreases i
  {
    assert i > 0;
    var l, s := ls[i - 1], steps[i - 1];
    RunInv(ls, steps, i - 1);
    LastBegunStep(l, s);
    if !Begins(l, s) { LastBegunIsAStep(ls, steps, i - 1, b); }
  }

  lemma {:induction false} LastSignalCovers(ls: seq<Loop>, steps: seq<Step>, q: nat, i: nat)
    requires Run(ls, steps) && q < i < |ls| && steps[q].QueueAction?
    ensures ls[i].lastSignal >= q + 1
    decreases i
  {
    RunInv(ls, steps, i - 1);
    if q < i - 1 { LastSignalCovers(ls, steps, q, i - 1); }
  }

  /**
    No lost wake-up: for every `queue_action` of every run, at every later moment, an attempt began after
    it, or the loop still owes one, or it has returned because the conductor stopped.
  */
  lemma NoLostWakeUp(ls: seq<Loop>, steps: seq<Step>, q: nat, i: nat)
    requires Run(ls, steps) && q < i < |ls| && steps[q].QueueAction?
    ensures || (ls[i].at.Returned? && ls[i].stopped)
            || Owes(ls[i])
            || exists b :: q < b < i && Begins(ls[b], steps[b])
  {
    RunInv(ls, steps, i);
    LastSignalCovers(ls, steps, q, i);
    if ls[i].lastBegun > q {
      var b := ls[i].lastBegun - 1;
      LastBegunIsAStep(ls, steps, i, b);
      assert q < b < i && Begins(ls[b], steps[b]);
    }
  }

  // ---------- what is pending, and why ----------

  /** The step asks for an attempt: the first one, a signal seen, or a failed tick. */
  ghost predicate Asks(l: Loop, s: Step) {
    s.Subscribe? || (s.SeeChange? && !l.stopped) || s == EndTick(false)
  }

  lemma PendingStep(l: Loop, s: Step)
    requires Enabled(l, s)
    ensures Do(l, s).pending <==> Asks(l, s) || (l.pending && s != EndAction(true))
  {
  }

  ghost predicate AskedSince(ls: seq<Loop>, steps: seq<Step>, k: nat, i: nat)
    requires k < i <= |steps| <= |ls|
  {
    Asks(ls[k], steps[k]) && forall m :: k < m < i ==> steps[m] != EndAction(true)
  }

  lemma AskedSinceStep(ls: seq<Loop>, steps: seq<Step>, k: nat, i: nat)
    requires k < i - 1 < |steps| <= |ls|
    ensures AskedSince(ls, steps, k, i) <==> AskedSince(ls, steps, k, i - 1) && steps[i - 1] != EndAction(true)
  {
  }

  /**
    In every run an attempt is pending exactly if one was asked for and none has succeeded since: nothing
    asked for is dropped, and nothing is tried again after it succeeded.
  */
  lemma {:induction false} PendingIffAsked(ls: seq<Loop>, steps: seq<Step>, i: nat)
    requires Run(ls, steps) && i < |ls|
    ensures ls[i].pending <==> exists k :: 0 <= k < i && AskedSince(ls, steps, k, i)
  {
    if i > 0 {
      var n := i - 1;
      PendingIffAsked(ls, steps, n);
      assert ls[n + 1] == Do(ls[n], steps[n]);
      PendingStep(ls[n], steps[n]);
      if Asks(ls[n], steps[n]) {
        assert AskedSince(ls, steps, n, i);
      } else if ls[i].pending {
        var k :| 0 <= k < n && AskedSince(ls, steps, k, n);
        AskedSinceStep(ls, steps, k, i);
      } else {
        forall k | 0 <= k < i ensures !AskedSince(ls, steps, k, i) {
          if k < n { AskedSinceStep(ls, steps, k, i); }
        }
      }
    }
  }

  predicate IsFailure(s: Step) {
    s == EndAction(false) || s == EndTick(false)
  }

  /** An attempt is pending, not under way, and its timer runs or is due. */
  predicate Scheduled(l: Loop) {
    l.pending && !l.at.Acting? && !l.timer.Spent?
  }

  lemma ScheduledStep(l: Loop, s: Step)
    requires Inv(l) && Enabled(l, s)
    ensures IsFailure(s) || (Scheduled(l) && !Begins(l, s)) ==> Scheduled(Do(l, s))
    ensures IsFailure(s) ==> Do(l, s).timer.Waiting?
    ensures l.timer.Waiting? && Scheduled(l) && !s.Elapse? ==> !Begins(l, s) && Do(l, s).timer.Waiting?
  {
  }

  /**
    A failed action or tick is tried again: ever after, the attempt is scheduled or has begun, and it
    begins no sooner than the retry deadline.
  */
  lemma {:induction false} FailureIsRetried(ls: seq<Loop>, steps: seq<Step>, e: nat, i: nat)
    requires Run(ls, steps) && e < i < |ls| && IsFailure(steps[e])
    ensures Scheduled(ls[i]) || exists b :: e < b < i && Begins(ls[b], steps[b])
    ensures (forall m :: e < m < i ==> !steps[m].Elapse?) ==>
              ls[i].timer.Waiting? && Scheduled(ls[i]) && forall b :: e < b < i ==> !Begins(ls[b], steps[b])
    decreases i
  {
    var n := i - 1;
    RunInv(ls, steps, n);
    assert ls[n + 1] == Do(ls[n], steps[n]);
    ScheduledStep(ls[n], steps[n]);
    if e < n { FailureIsRetried(ls, steps, e, n); }
  }

  /** The first attempt, and one asked for while nothing was pending, is due at once. */
  lemma SignalIsPrompt(ls: seq<Loop>, steps: seq<Step>, k: nat)
    requires Run(ls, steps) && k < |steps| && !ls[k].stopped
    requires steps[k].Subscribe? || (steps[k].SeeChange? && !ls[k].pending)
    ensures AttemptDue(ls[k + 1]) && ls[k + 1].at.Selecting?
  {
    assert ls[k + 1] == Do(ls[k], steps[k]);
  }

  // ---------- what postpones an owed attempt ----------

  /** The loop's own attempt could begin as soon as the loop selects. */
  predicate AttemptDue(l: Loop) {
    l.pending && l.timer.Due? && !l.at.Acting?
  }

  /** A due attempt that neither begins nor meets a stop stays due, except through a failing tick. */
  lemma DueStep(l: Loop, s: Step)
    requires Enabled(l, s) && AttemptDue(l) && !s.BeginAction? && !l.stopped
    ensures AttemptDue(Do(l, s)) <==> s != EndTick(false)
  {
  }

  /** Only failing ticks postpone: without one, a due attempt is still due at any later moment. */
  lemma {:induction false} OnlyFailingTicksPostpone(ls: seq<Loop>, steps: seq<Step>, i: nat, j: nat)
    requires Run(ls, steps) && i <= j < |ls| && AttemptDue(ls[i]) && !ls[j].stopped
    requires forall k :: i <= k < j ==> steps[k] != EndTick(false) && !steps[k].BeginAction?
    ensures AttemptDue(ls[j])
    ensures ls[j].at.Selecting? ==> Enabled(ls[j], BeginAction) && Begins(ls[j], BeginAction)
    decreases j
  {
    if i < j {
      assert ls[j - 1 + 1] == Do(ls[j - 1], steps[j - 1]);
      OnlyFailingTicksPostpone(ls, steps, i, j - 1);
      DueStep(ls[j - 1], steps[j - 1]);
    }
  }

  lemma {:induction false} ActingTickBegan(ls: seq<Loop>, steps: seq<Step>, q: nat, k: nat)
    requires Run(ls, steps) && q <= k < |ls| && !ls[q].at.TickActing? && ls[k].at.TickActing?
    ensures exists m :: q <= m < k && steps[m].TickAct?
    decreases k
  {
    assert q < k;
    assert ls[k - 1 + 1] == Do(ls[k - 1], steps[k - 1]);
    if !steps[k - 1].TickAct? { ActingTickBegan(ls, steps, q, k - 1); }
  }

  /**
    A failing tick has itself run an action, and after the signal unless that action was already under
    way when the signal came.
  */
  lemma FailingTickHasActed(ls: seq<Loop>, steps: seq<Step>, q: nat, k: nat)
    requires Run(ls, steps) && q < k < |steps| && steps[q].QueueAction? && steps[k] == EndTick(false)
    ensures ls[q].at.TickActing? || exists m :: q < m < k && steps[m].TickAct?
  {
    if !ls[q].at.TickActing? { ActingTickBegan(ls, steps, q, k); }
  }

  predicate IsFailingTick(s: Step) {
    s == EndTick(false)
  }

  function FailingTicks(steps: seq<Step>): nat {
    if steps == [] then 0
    else FailingTicks(steps[..|steps| - 1]) + if IsFailingTick(steps[|steps| - 1]) then 1 else 0
  }

  lemma ExtendWaiting(ls: seq<Loop>, steps: seq<Step>, s: Step) returns (ls': seq<Loop>, steps': seq<Step>)
    requires Run(ls, steps) && Enabled(ls[|steps|], s) && !s.BeginAction?
    requires forall k :: 0 <= k < |ls| ==> Owes(ls[k])
    requires forall k :: 0 <= k < |steps| ==> !steps[k].BeginAction?
    requires Owes(Do(ls[|steps|], s))
    ensures Run(ls', steps') && ls'[|steps'|] == Do(ls[|steps|], s)
    ensures forall k :: 0 <= k < |ls'| ==> Owes(ls'[k])
    ensures forall k :: 0 <= k < |steps'| ==> !steps'[k].BeginAction?
    ensures FailingTicks(steps') == FailingTicks(steps) + if IsFailingTick(s) then 1 else 0
  {
    RunExtends(ls, steps, s);
    ls', steps' := ls + [Do(ls[|steps|], s)], steps + [s];
    assert steps'[..|steps'| - 1] == steps;
  }

  /**
    And they may do so without end: for every `n` there is a run with `n` failing ticks in which an
    attempt is owed throughout, falls due each time, and never begins.
  */
  lemma {:induction false} TicksMayPostponeForever(n: nat) returns (ls: seq<Loop>, steps: seq<Step>)
    ensures Run(ls, steps) && FailingTicks(steps) == n
    ensures forall k :: 0 <= k < |ls| ==> Owes(ls[k])
    ensures forall k :: 0 <= k < |steps| ==> !steps[k].BeginAction?
    ensures ls[|steps|].at.Selecting? && AttemptDue(ls[|steps|]) && !ls[|steps|].stopping && !ls[|steps|].stopped
  {
    if n == 0 {
      ls, steps := ExtendWaiting([INITIAL], [], Subscribe);
    } else {
      ls, steps := TicksMayPostponeForever(n - 1);
      ls, steps := ExtendWaiting(ls, steps, BeginTick);
      ls, steps := ExtendWaiting(ls, steps, TickPass);
      ls, steps := ExtendWaiting(ls, steps, TickAct);
      ls, steps := ExtendWaiting(ls, steps, EndTick(false));
      ls, steps := ExtendWaiting(ls, steps, Elapse);
    }
  }

  // ---------- an action comes soon, from the loop or from a tick ----------

  /** The step begins an action: the loop's own attempt, or that of a tick. */
  ghost predicate BeginsAny(l: Loop, s: Step) {
    Begins(l, s) || s.TickAct?
  }

  /** Steps the loop takes itself, apart from beginnings of actions. */
  predicate IsTurn(s: Step) {
    s.Subscribe? || s.SeeChange? || s.EndAction? || s.BeginTick? || s.TickPass? || s.EndTick?
  }

  function Turns(steps: seq<Step>): nat {
    if steps == [] then 0
    else Turns(steps[..|steps| - 1]) + if IsTurn(steps[|steps| - 1]) then 1 else 0
  }

  function Signals(steps: seq<Step>): nat {
    if steps == [] then 0
    else Signals(steps[..|steps| - 1]) + if steps[|steps| - 1].QueueAction? then 1 else 0
  }

  /** Turns the loop can still take before it must begin an action or be signalled again. */
  function Slack(l: Loop): (n: nat)
    ensures n <= 4
  {
    (match l.at
     case Starting => 3
     case Acting => 3
     case TickActing => 3
     case Selecting => 2
     case Ticking => 1
     case TickChecked => 0
     case Returned => 0) + if l.seen != l.version then 1 else 0
  }

  lemma SlackStep(l: Loop, s: Step)
    requires Inv(l) && Enabled(l, s) && !BeginsAny(l, s) && !Do(l, s).stopping
    ensures (if IsTurn(s) then 1 else 0) + Slack(Do(l, s)) <= Slack(l) + if s.QueueAction? then 1 else 0
  {
  }

  lemma SliceFront(steps: seq<Step>, i: nat, j: nat)
    requires i < j <= |steps|
    ensures var part := steps[i..j];
            part[..|part| - 1] == steps[i..j - 1] && part[|part| - 1] == steps[j - 1]
  {
  }

  lemma {:induction false} TurnsWithinSlack(ls: seq<Loop>, steps: seq<Step>, i: nat, j: nat)
    requires Run(ls, steps) && i <= j < |ls| && !ls[j].stopping
    requires forall k :: i <= k < j ==> !BeginsAny(ls[k], steps[k])
    ensures Turns(steps[i..j]) + Slack(ls[j]) <= Slack(ls[i]) + Signals(steps[i..j])
    decreases j
  {
    if i < j {
      SliceFront(steps, i, j);
      assert ls[j - 1 + 1] == Do(ls[j - 1], steps[j - 1]);
      TurnsWithinSlack(ls, steps, i, j - 1);
      RunInv(ls, steps, j - 1);
      SlackStep(ls[j - 1], steps[j - 1]);
    }
  }

  /**
    From any moment on, counting ticks too, the loop takes at most four turns more than there are new
    signals before some action begins, its own or a tick's, as long as no stop has begun.
  */
  lemma ActionBeginsSoon(ls: seq<Loop>, steps: seq<Step>, i: nat, j: nat)
    requires Run(ls, steps) && i <= j < |ls| && !ls[j].stopping
    requires Turns(steps[i..j]) > 4 + Signals(steps[i..j])
    ensures exists k :: i <= k < j && BeginsAny(ls[k], steps[k])
  {
    if forall k :: i <= k < j ==> !BeginsAny(ls[k], steps[k]) {
      TurnsWithinSlack(ls, steps, i, j);
    }
  }

  /** And it can always take one: no state but the final one leaves the loop without a step of its own. */
  lemma LoopNeverStuck(ls: seq<Loop>, steps: seq<Step>, i: nat)
    requires Run(ls, steps) && i < |ls| && !ls[i].at.Returned?
    ensures exists s :: (IsTurn(s) || BeginsAny(ls[i], s)) && Enabled(ls[i], s)
  {
    var s := match ls[i].at
      case Starting => Subscribe
      case Selecting => BeginTick
      case Acting => EndAction(true)
      case Ticking => TickPass
      case TickChecked => TickAct
      case _ => EndTick(true);
    assert (IsTurn(s) || BeginsAny(ls[i], s)) && Enabled(ls[i], s);
  }

  // ---------- stopping ----------

  /** Steps of the loop itself, beginnings of actions included. */
  predicate IsLoopStep(s: Step) {
    IsTurn(s) || s.BeginAction? || s.TickAct?
  }

  function LoopSteps(steps: seq<Step>): nat {
    if steps == [] then 0
    else LoopSteps(steps[..|steps| - 1]) + if IsLoopStep(steps[|steps| - 1]) then 1 else 0
  }

  /** Steps left to a stopped loop. */
  function Left(l: Loop): (n: nat)
    ensures n <= 3
  {
    match l.at
    case Returned => 0
    case Selecting => 1
    case TickChecked => 3
    case _ => 2
  }

  lemma LeftStep(l: Loop, s: Step)
    requires Inv(l) && Enabled(l, s) && l.stopped
    ensures Do(l, s).stopped
    ensures if IsLoopStep(s) then Left(Do(l, s)) < Left(l) else Left(Do(l, s)) == Left(l)
  {
  }

  lemma {:induction false} StoppedLoopWindsDown(ls: seq<Loop>, steps: seq<Step>, i: nat, j: nat)
    requires Run(ls, steps) && i <= j < |ls| && ls[i].stopped
    ensures ls[j].stopped && LoopSteps(steps[i..j]) + Left(ls[j]) <= Left(ls[i])
    decreases j
  {
    if i < j {
      SliceFront(steps, i, j);
      assert ls[j - 1 + 1] == Do(ls[j - 1], steps[j - 1]);
      StoppedLoopWindsDown(ls, steps, i, j - 1);
      RunInv(ls, steps, j - 1);
      LeftStep(ls[j - 1], steps[j - 1]);
    }
  }

  /** Once the conductor has stopped, the loop returns with at most three more steps of its own, beginning nothing. */
  lemma StopEndsLoop(ls: seq<Loop>, steps: seq<Step>, i: nat, j: nat)
    requires Run(ls, steps) && i <= j < |ls| && ls[i].stopped
    ensures LoopSteps(steps[i..j]) <= 3
    ensures LoopSteps(steps[i..j]) == 3 ==> ls[j].at.Returned?
    ensures forall k :: i <= k < j ==> !Begins(ls[k], steps[k])
  {
    StoppedLoopWindsDown(ls, steps, i, j);
    forall k | i <= k < j ensures !Begins(ls[k], steps[k]) { StoppedLoopWindsDown(ls, steps, i, k); }
  }

  // ---------- the loop itself ----------

  /** Fires the steps of a schedule in turn, passing over those that are not ready. */
  function Follow(l: Loop, schedule: seq<Step>): Loop {
    if schedule == [] then l
    else
      var before := Follow(l, schedule[..|schedule| - 1]);
      var s := schedule[|schedule| - 1];
      if Enabled(before, s) then Do(before, s) else before
  }

  /**
    `run_control_loop` over a finite schedule of signals, timers and outcomes, with its own variables. The
    steps it fires are those of the schedule that were ready, and they make up a run that ends where the
    loop's variables stand, so that everything proved of runs holds of the loop.
  */
  method RunControlLoop(schedule: seq<Step>) returns (l: Loop, ghost ls: seq<Loop>, ghost steps: seq<Step>)
    ensures l == Follow(INITIAL, schedule)
    ensures Run(ls, steps) && ls[|steps|] == l
  {
    var at, version, seen, stopping, stopped := Starting, 0, 0, false, false;
    var actionPending, actionRetry := false, Spent;
    var now, lastSignal, lastBegun := 1, 0, 0;
    l := INITIAL;
    ls, steps := [INITIAL], [];
    var i := 0;
    while i < |schedule|
      invariant 0 <= i <= |schedule|
      invariant l == Loop(at, version, seen, actionPending, actionRetry, stopping, stopped, now, lastSignal, lastBegun)
      invariant l == Follow(INITIAL, schedule[..i])
      invariant Run(ls, steps) && ls[|steps|] == l
    {
      assert schedule[..i + 1][..i] == schedule[..i];
      var s := schedule[i];
      var ready := Enabled(l, s);
      match s {
        case QueueAction =>
          if !at.Starting? { version := version + 1; }
          lastSignal := now;
        case StopBegins =>
          stopping := true;
        case StopEnds =>
          if stopping { stopped := true; }
        case Elapse =>
          if actionRetry.Waiting? { actionRetry := Due; }
        case Subscribe =>
          if at.Starting? {
            at, seen, actionPending, actionRetry := Selecting, version, true, Due;
          }
        case SeeChange =>
          if at.Selecting? && seen != version {
            if stopped {
              at := Returned;
            } else {
              seen := version;
              if !actionPending { actionPending, actionRetry := true, Due; }
            }
          }
        case BeginAction =>
          if at.Selecting? && actionPending && actionRetry.Due? {
            if stopped {
              at := Returned;
            } else {
              at, actionRetry := Acting, Spent;
              lastBegun := now;
            }
          }
        case EndAction(ok) =>
          if at.Acting? {
            at := Selecting;
            if ok { actionPending := false; } else { actionRetry := Waiting; }
          }
        case BeginTick =>
          if at.Selecting? {
            at := if stopped then Returned else Ticking;
          }
        case TickPass =>
          if at.Ticking? {
            at := if stopping then Selecting else TickChecked;
          }
        case TickAct =>
          if at.TickChecked? { at := TickActing; }
        case EndTick(ok) =>
          if at.TickActing? {
            at := Selecting;
            if !ok { actionPending, actionRetry := true, Waiting; }
          }
      }
      if ready {
        now := now + 1;
        RunExtends(ls, steps, s);
        ls, steps := ls + [Do(l, s)], steps + [s];
      }
      l := Loop(at, version, seen, actionPending, actionRetry, stopping, stopped, now, lastSignal, lastBegun);
      i := i + 1;
    }
    assert schedule[..i] == schedule;
  }
}
