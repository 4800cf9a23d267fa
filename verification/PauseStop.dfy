/**
  Any number of `action`, `pause`, `resume` and `stop` calls running concurrently, interleaved at every
  lock, flag access and remote call, under the action lock and the stop lock.
*/
module PauseStop {
  import opened Prelude
  import Conductor

  /** Calls an action may issue; its script is whatever the environment leads it to do. */
  datatype Remote = StartCall | StopCall | PostCall | TransferCall

  /** One constructor per program point; `Done` carries whether the call returned Ok. */
  datatype Task =
    | ActWant(script: seq<Remote>)
    | ActReadPaused(script: seq<Remote>)
    | ActReadStopping(script: seq<Remote>)
    | ActReadStopped(script: seq<Remote>)
    | ActWork(script: seq<Remote>)
    | PauseCheck
    | PauseWant
    | PauseStore
    | PauseRelease
    | ResumeCheck
    | ResumeQuery
    | ResumeStore
    | StopWant
    | StopCheck
    | StopMark
    | StopWantAction
    | StopShutdown
    | StopStore
    | StopRelease
    | Done(ok: bool)

  predicate HoldsAction(t: Task) {
    || t.ActReadPaused? || t.ActReadStopping? || t.ActReadStopped? || t.ActWork?
    || t.PauseStore? || t.PauseRelease? || t.StopShutdown? || t.StopStore? || t.StopRelease?
  }

  predicate HoldsStop(t: Task) {
    t.StopCheck? || t.StopMark? || t.StopWantAction? || t.StopShutdown? || t.StopStore? || t.StopRelease?
  }

  datatype System = System(
    paused: bool,
    stopping: bool,
    stopped: bool,
    actionLock: Option<nat>,
    stopLock: Option<nat>,
    shutdownBegun: bool,
    shutdowns: nat,
    tasks: seq<Task>)

  /** A task can move unless it is done or waits for a lock that is taken. */
  predicate Enabled(s: System, i: nat) {
    i < |s.tasks| &&
    match s.tasks[i]
    case Done(_) => false
    case ActWant(_) => s.actionLock == None
    case PauseWant => s.actionLock == None
    case StopWantAction => s.actionLock == None
    case StopWant => s.stopLock == None
    case _ => true
  }

  /** Where task `i` goes next; `ok` is the environment's answer when a remote call is involved. */
  function Move(s: System, t: Task, ok: bool): Task {
    match t
    case ActWant(script) => ActReadPaused(script)
    case ActReadPaused(script) => if s.paused then Done(true) else ActReadStopping(script)
    case ActReadStopping(script) => if s.stopping then Done(true) else ActReadStopped(script)
    case ActReadStopped(script) => if s.stopped then Done(true) else ActWork(script)
    case ActWork(script) => if script == [] then Done(ok) else ActWork(script[1..])
    case PauseCheck => if s.stopped then Done(false) else PauseWant
    case PauseWant => PauseStore
    case PauseStore => PauseRelease
    case PauseRelease => Done(true)
    case ResumeCheck => if s.stopped then Done(false) else ResumeQuery
    case ResumeQuery => if ok then ResumeStore else Done(false)
    case ResumeStore => Done(true)
    case StopWant => StopCheck
    case StopCheck => if s.stopped then Done(true) else StopMark
    case StopMark => StopWantAction
    case StopWantAction => StopShutdown
    case StopShutdown => if ok then StopStore else Done(false)
    case StopStore => StopRelease
    case StopRelease => Done(true)
    case Done(b) => Done(b)
  }

  function Relock(lock: Option<nat>, i: nat, before: bool, after: bool): Option<nat> {
    if !before && after then Some(i) else if before && !after then None else lock
  }

  function Do(s: System, i: nat, ok: bool): System
    requires Enabled(s, i)
  {
    var t := s.tasks[i];
    var t' := Move(s, t, ok);
    System(
      if t.PauseStore? then true else if t.ResumeStore? then false else s.paused,
      s.stopping || t.StopMark?,
      s.stopped || t.StopStore?,
      Relock(s.actionLock, i, HoldsAction(t), HoldsAction(t')),
      Relock(s.stopLock, i, HoldsStop(t), HoldsStop(t')),
      s.shutdownBegun || t.StopShutdown?,
      if t.StopShutdown? && ok then s.shutdowns + 1 else s.shutdowns,
      s.tasks[i := t'])
  }

  datatype Step = Step(i: nat, ok: bool)

  predicate IsEntry(t: Task) {
    t.ActWant? || t.PauseCheck? || t.ResumeCheck? || t.StopWant?
  }

  ghost predicate Initial(s: System) {
    && !s.stopping && !s.stopped && s.actionLock == None && s.stopLock == None
    && !s.shutdownBegun && s.shutdowns == 0
    && forall i :: 0 <= i < |s.tasks| ==> IsEntry(s.tasks[i])
  }

  ghost predicate Run(states: seq<System>, steps: seq<Step>) {
    && |states| == |steps| + 1 && Initial(states[0])
    && forall k :: 0 <= k < |steps| ==>
         Enabled(states[k], steps[k].i) && states[k + 1] == Do(states[k], steps[k].i, steps[k].ok)
  }

  /** The step makes task `i` issue a remote call. */
  predicate Issues(s: System, i: nat) {
    i < |s.tasks| && s.tasks[i].ActWork? && s.tasks[i].script != []
  }

  // ---------- the invariant ----------

  predicate PastPauseCheck(t: Task) {
    t.ActReadStopping? || t.ActReadStopped? || t.ActWork?
  }

  predicate PastStopCheck(t: Task) {
    t.ActReadStopped? || t.ActWork?
  }

  ghost predicate LocksAgree(s: System) {
    && (forall i :: 0 <= i < |s.tasks| ==> (HoldsAction(s.tasks[i]) <==> s.actionLock == Some(i)))
    && (forall i :: 0 <= i < |s.tasks| ==> (HoldsStop(s.tasks[i]) <==> s.stopLock == Some(i)))
    && (s.actionLock.Some? ==> s.actionLock.value < |s.tasks|)
    && (s.stopLock.Some? ==> s.stopLock.value < |s.tasks|)
  }

  /** What the flags say at each program point. */
  ghost predicate GoodTask(s: System, t: Task) {
    && (PastPauseCheck(t) ==> !s.paused)
    && (PastStopCheck(t) ==> !s.shutdownBegun)
    && (t.StopWantAction? || t.StopShutdown? || t.StopStore? || t.StopRelease? ==> s.stopping)
    && (t.StopMark? || t.StopWantAction? || t.StopShutdown? ==> !s.stopped && s.shutdowns == 0)
    && (t.StopStore? ==> !s.stopped && s.shutdowns == 1 && s.shutdownBegun)
  }

  ghost predicate Inv(s: System) {
    && LocksAgree(s)
    && (forall i :: 0 <= i < |s.tasks| ==> GoodTask(s, s.tasks[i]))
    && (s.shutdownBegun ==> s.stopping)
    && (s.stopped ==> s.shutdownBegun && s.shutdowns == 1)
    && s.shutdowns <= 1
    && (s.shutdowns == 1 ==> s.stopped || (s.stopLock.Some? && s.tasks[s.stopLock.value].StopStore?))
  }

  lemma LocksStep(s: System, i: nat, ok: bool)
    requires LocksAgree(s) && Enabled(s, i)
    ensures LocksAgree(Do(s, i, ok))
  {
  }

  /** Two tasks never hold one lock, so flags set under it are not seen to change by another holder. */
  lemma OtherTask(s: System, i: nat, ok: bool, j: nat)
    requires Inv(s) && Enabled(s, i) && j < |s.tasks| && j != i
    ensures GoodTask(Do(s, i, ok), s.tasks[j])
  {
  }

  lemma MovedTask(s: System, i: nat, ok: bool)
    requires Inv(s) && Enabled(s, i)
    ensures GoodTask(Do(s, i, ok), Move(s, s.tasks[i], ok))
  {
  }

  lemma InvStep(s: System, i: nat, ok: bool)
    requires Inv(s) && Enabled(s, i)
    ensures Inv(Do(s, i, ok))
  {
    var s' := Do(s, i, ok);
    LocksStep(s, i, ok);
    forall j | 0 <= j < |s'.tasks| ensures GoodTask(s', s'.tasks[j]) {
      if j == i { MovedTask(s, i, ok); } else { OtherTask(s, i, ok, j); }
    }
    assert GoodTask(s, s.tasks[i]);
    if s.stopLock.Some? && s.stopLock.value != i {
      assert s'.tasks[s.stopLock.value] == s.tasks[s.stopLock.value];
      assert HoldsStop(s.tasks[s.stopLock.value]) && !HoldsStop(s.tasks[i]);
    }
  }

  lemma {:induction false} RunInv(states: seq<System>, steps: seq<Step>, k: nat)
    requires Run(states, steps) && k < |states|
    ensures Inv(states[k]) && |states[k].tasks| == |states[0].tasks|
  {
    if k > 0 {
      RunInv(states, steps, k - 1);
      InvStep(states[k - 1], steps[k - 1].i, steps[k - 1].ok);
    }
  }

  // ---------- safety ----------

  /** A remote call is only ever issued unpaused and before any shutdown has begun. */
  lemma CallsOnlyWhileRunning(states: seq<System>, steps: seq<Step>, k: nat)
    requires Run(states, steps) && k < |steps| && Issues(states[k], steps[k].i)
    ensures !states[k].paused && !states[k].shutdownBegun && !states[k].stopped
  {
    RunInv(states, steps, k);
    assert GoodTask(states[k], states[k].tasks[steps[k].i]);
  }

  lemma {:induction false} StaysPaused(states: seq<System>, steps: seq<Step>, j: nat, k: nat)
    requires Run(states, steps) && j <= k < |states| && states[j].paused
    requires forall m :: j <= m < k ==> !states[m].tasks[steps[m].i].ResumeStore?
    ensures states[k].paused
    decreases k
  {
    if j < k {
      StaysPaused(states, steps, j, k - 1);
      assert !states[k - 1].tasks[steps[k - 1].i].ResumeStore?;
    }
  }

  /**
    Once a `pause` has set the flag, no action issues a call until some `resume` clears it, whatever
    actions were waiting or under way.
  */
  lemma PauseIsRespected(states: seq<System>, steps: seq<Step>, j: nat, k: nat)
    requires Run(states, steps) && j < k < |steps|
    requires states[j].tasks[steps[j].i].PauseStore?
    requires forall m :: j < m < k ==> !states[m].tasks[steps[m].i].ResumeStore?
    ensures !Issues(states[k], steps[k].i)
  {
    StaysPaused(states, steps, j + 1, k);
    if Issues(states[k], steps[k].i) {
      CallsOnlyWhileRunning(states, steps, k);
    }
  }

  lemma {:induction false} ShutdownIsForever(states: seq<System>, steps: seq<Step>, j: nat, k: nat)
    requires Run(states, steps) && j <= k < |states| && states[j].shutdownBegun
    ensures states[k].shutdownBegun
    decreases k
  {
    if j < k { ShutdownIsForever(states, steps, j, k - 1); }
  }

  /** After consensus shutdown has begun no call is issued, even if the shutdown fails and is retried. */
  lemma StopIsRespected(states: seq<System>, steps: seq<Step>, j: nat, k: nat)
    requires Run(states, steps) && j < k < |steps|
    requires states[j].tasks[steps[j].i].StopShutdown?
    ensures !Issues(states[k], steps[k].i)
  {
    ShutdownIsForever(states, steps, j + 1, k);
    if Issues(states[k], steps[k].i) {
      CallsOnlyWhileRunning(states, steps, k);
    }
  }

  /** Consensus is shut down successfully at most once, and exactly once when stopped. */
  lemma ShutdownOnce(states: seq<System>, steps: seq<Step>, k: nat)
    requires Run(states, steps) && k < |states|
    ensures states[k].shutdowns <= 1
    ensures states[k].stopped ==> states[k].shutdowns == 1
  {
    RunInv(states, steps, k);
  }

  // ---------- no deadlock ----------

  /** Whoever waits, someone can move: the stop lock is always taken before the action lock. */
  lemma NoDeadlock(states: seq<System>, steps: seq<Step>, k: nat, i: nat)
    requires Run(states, steps) && k < |states| && i < |states[k].tasks| && !states[k].tasks[i].Done?
    ensures exists m :: Enabled(states[k], m)
  {
    RunInv(states, steps, k);
    var s := states[k];
    if s.actionLock.Some? {
      assert HoldsAction(s.tasks[s.actionLock.value]);
      assert Enabled(s, s.actionLock.value);
    } else if s.stopLock.Some? {
      assert HoldsStop(s.tasks[s.stopLock.value]);
      assert Enabled(s, s.stopLock.value);
    } else {
      assert Enabled(s, i);
    }
  }

  /** Moves a task has left at most. */
  function Weight(t: Task): nat {
    match t
    case ActWant(script) => |script| + 5
    case ActReadPaused(script) => |script| + 4
    case ActReadStopping(script) => |script| + 3
    case ActReadStopped(script) => |script| + 2
    case ActWork(script) => |script| + 1
    case PauseCheck => 4
    case PauseWant => 3
    case PauseStore => 2
    case PauseRelease => 1
    case ResumeCheck => 3
    case ResumeQuery => 2
    case ResumeStore => 1
    case StopWant => 7
    case StopCheck => 6
    case StopMark => 5
    case StopWantAction => 4
    case StopShutdown => 3
    case StopStore => 2
    case StopRelease => 1
    case Done(_) => 0
  }

  function TotalWeight(ts: seq<Task>): nat {
    if ts == [] then 0 else TotalWeight(ts[..|ts| - 1]) + Weight(ts[|ts| - 1])
  }

  lemma {:induction false} WeightUpdate(ts: seq<Task>, i: nat, t: Task)
    requires i < |ts| && Weight(t) < Weight(ts[i])
    ensures TotalWeight(ts[i := t]) < TotalWeight(ts)
    decreases |ts|
  {
    var n := |ts| - 1;
    if i == n {
      assert ts[i := t][..n] == ts[..n];
    } else {
      assert ts[i := t][..n] == ts[..n][i := t];
      WeightUpdate(ts[..n], i, t);
    }
  }

  lemma MoveLightens(s: System, i: nat, ok: bool)
    requires Enabled(s, i)
    ensures Weight(Move(s, s.tasks[i], ok)) < Weight(s.tasks[i])
  {
  }

  lemma StepLightens(s: System, i: nat, ok: bool)
    requires Enabled(s, i)
    ensures TotalWeight(Do(s, i, ok).tasks) < TotalWeight(s.tasks)
  {
    MoveLightens(s, i, ok);
    WeightUpdate(s.tasks, i, Move(s, s.tasks[i], ok));
  }

  lemma {:induction false} RunLength(states: seq<System>, steps: seq<Step>, k: nat)
    requires Run(states, steps) && k < |states|
    ensures k + TotalWeight(states[k].tasks) <= TotalWeight(states[0].tasks)
  {
    if k > 0 {
      RunLength(states, steps, k - 1);
      StepLightens(states[k - 1], steps[k - 1].i, steps[k - 1].ok);
    }
  }

  /**
    However the scheduler interleaves them, every run is finite, and one that cannot go on has brought
    every call to its end.
  */
  lemma EveryCallReturns(states: seq<System>, steps: seq<Step>)
    requires Run(states, steps)
    ensures |steps| <= TotalWeight(states[0].tasks)
    ensures (forall m :: !Enabled(states[|steps|], m)) ==>
              forall i :: 0 <= i < |states[|steps|].tasks| ==> states[|steps|].tasks[i].Done?
  {
    RunLength(states, steps, |steps|);
    var last := states[|steps|];
    if forall m :: !Enabled(last, m) {
      forall i | 0 <= i < |last.tasks| ensures last.tasks[i].Done? {
        if !last.tasks[i].Done? { NoDeadlock(states, steps, |steps|, i); }
      }
    }
  }

  // ---------- one call without interleaving ----------

  /** The call moves until it is done or has to wait, every remote call being answered alike. */
  function RunAlone(s: System, i: nat, ok: bool): System
    requires i < |s.tasks|
    decreases Weight(s.tasks[i])
  {
    if !Enabled(s, i) then s
    else
      MoveLightens(s, i, ok);
      RunAlone(Do(s, i, ok), i, ok)
  }

  /** The flags are those of the conductor's fields. */
  predicate SameFlags(s: System, f: Conductor.Fields) {
    s.paused == f.paused && s.stopping == f.stopping && s.stopped == f.stopped
  }

  /** The call has come to its end with the flags and the result of the conductor's method. */
  predicate EndsAs(s: System, i: nat, o: Conductor.Outcome) {
    && i < |s.tasks| && s.tasks[i] == Done(o.result.Ok?) && SameFlags(s, o.fields)
    && s.actionLock == None && s.stopLock == None
  }

  lemma {:induction false} ScriptAlone(s: System, i: nat, ok: bool)
    requires i < |s.tasks| && s.tasks[i].ActWork? && s.actionLock == Some(i) && s.stopLock == None
    ensures RunAlone(s, i, ok) == s.(actionLock := None, tasks := s.tasks[i := Done(ok)])
    decreases |s.tasks[i].script|
  {
    var s1 := Do(s, i, ok);
    assert RunAlone(s, i, ok) == RunAlone(s1, i, ok);
    if s.tasks[i].script != [] {
      ScriptAlone(s1, i, ok);
      assert s1.tasks[i := Done(ok)] == s.tasks[i := Done(ok)];
    } else {
      assert RunAlone(s1, i, ok) == s1;
    }
  }

  lemma PauseAlone(s: System, i: nat, f: Conductor.Fields, ok: bool)
    requires i < |s.tasks| && s.actionLock == None && s.stopLock == None && SameFlags(s, f)
    requires s.tasks[i] == PauseCheck
    ensures EndsAs(RunAlone(s, i, ok), i, Conductor.PauseOutcome(f))
  {
    var s1 := Do(s, i, ok);
    assert RunAlone(s, i, ok) == RunAlone(s1, i, ok);
    if s.stopped {
      assert RunAlone(s1, i, ok) == s1;
    } else {
      var s2 := Do(s1, i, ok);
      assert RunAlone(s1, i, ok) == RunAlone(s2, i, ok);
      PauseTail(s2, i, ok);
    }
  }

  lemma PauseTail(s: System, i: nat, ok: bool)
    requires i < |s.tasks| && s.tasks[i] == PauseStore && s.actionLock == Some(i)
    ensures RunAlone(s, i, ok) == s.(paused := true, actionLock := None, tasks := s.tasks[i := Done(true)])
  {
    var s1 := Do(s, i, ok);
    var s2 := Do(s1, i, ok);
    assert RunAlone(s, i, ok) == RunAlone(s1, i, ok) == RunAlone(s2, i, ok) == s2;
  }

  lemma ResumeAlone(s: System, i: nat, f: Conductor.Fields, reply: Option<bool>)
    requires i < |s.tasks| && s.actionLock == None && s.stopLock == None && SameFlags(s, f)
    requires s.tasks[i] == ResumeCheck
    ensures EndsAs(RunAlone(s, i, reply.Some?), i, Conductor.ResumeOutcome(f, reply))
  {
    var ok := reply.Some?;
    var s1 := Do(s, i, ok);
    assert RunAlone(s, i, ok) == RunAlone(s1, i, ok);
    if s.stopped { assert RunAlone(s1, i, ok) == s1; } else { ResumeTail(s1, i, ok); }
  }

  lemma ResumeTail(s: System, i: nat, ok: bool)
    requires i < |s.tasks| && s.tasks[i] == ResumeQuery
    ensures RunAlone(s, i, ok) == s.(paused := s.paused && !ok, tasks := s.tasks[i := Done(ok)])
  {
    var s1 := Do(s, i, ok);
    assert RunAlone(s, i, ok) == RunAlone(s1, i, ok);
    if ok {
      var s2 := Do(s1, i, ok);
      assert RunAlone(s1, i, ok) == RunAlone(s2, i, ok) == s2;
    } else {
      assert RunAlone(s1, i, ok) == s1;
    }
  }

  lemma StopAlone(s: System, i: nat, f: Conductor.Fields, ok: bool)
    requires i < |s.tasks| && s.actionLock == None && s.stopLock == None && SameFlags(s, f)
    requires s.tasks[i] == StopWant
    ensures EndsAs(RunAlone(s, i, ok), i, Conductor.StopOutcome(f, ok))
  {
    var s1 := Do(s, i, ok);
    var s2 := Do(s1, i, ok);
    assert RunAlone(s, i, ok) == RunAlone(s1, i, ok) == RunAlone(s2, i, ok);
    if s.stopped { assert RunAlone(s2, i, ok) == s2; } else { StopMarks(s2, i, ok); }
  }

  lemma StopMarks(s: System, i: nat, ok: bool)
    requires i < |s.tasks| && s.tasks[i] == StopMark && s.actionLock == None && s.stopLock == Some(i) && !s.stopped
    ensures var ended := RunAlone(s, i, ok);
            && i < |ended.tasks| && ended.tasks[i] == Done(ok) && ended.actionLock == ended.stopLock == None
            && ended.paused == s.paused && ended.stopping && ended.stopped == ok
  {
    var s1 := Do(s, i, ok);
    var s2 := Do(s1, i, ok);
    assert RunAlone(s, i, ok) == RunAlone(s1, i, ok) == RunAlone(s2, i, ok);
    StopTail(s2, i, ok);
  }

  lemma StopTail(s: System, i: nat, ok: bool)
    requires i < |s.tasks| && s.tasks[i] == StopShutdown && s.actionLock == s.stopLock == Some(i) && !s.stopped
    ensures var ended := RunAlone(s, i, ok);
            && i < |ended.tasks| && ended.tasks[i] == Done(ok) && ended.actionLock == ended.stopLock == None
            && ended.paused == s.paused && ended.stopping == s.stopping && ended.stopped == ok
  {
    var s1 := Do(s, i, ok);
    assert RunAlone(s, i, ok) == RunAlone(s1, i, ok);
    if ok {
      var s2 := Do(s1, i, ok);
      var s3 := Do(s2, i, ok);
      assert RunAlone(s1, i, ok) == RunAlone(s2, i, ok) == RunAlone(s3, i, ok) == s3;
    } else {
      assert RunAlone(s1, i, ok) == s1;
    }
  }

  /** A halted action ends Ok without touching its script; any other works it off. */
  lemma ActionAlone(s: System, i: nat, f: Conductor.Fields, ok: bool)
    requires i < |s.tasks| && s.actionLock == None && s.stopLock == None && SameFlags(s, f)
    requires s.tasks[i].ActWant?
    ensures RunAlone(s, i, ok) == s.(tasks := s.tasks[i := Done(Conductor.Halted(f) || ok)])
  {
    var s1 := Do(s, i, ok);
    var s2 := Do(s1, i, ok);
    assert RunAlone(s, i, ok) == RunAlone(s1, i, ok) == RunAlone(s2, i, ok);
    if s.paused { assert RunAlone(s2, i, ok) == s2; } else { ActionTail(s2, i, ok); }
  }

  lemma ActionTail(s: System, i: nat, ok: bool)
    requires i < |s.tasks| && s.tasks[i].ActReadStopping? && s.actionLock == Some(i) && s.stopLock == None
    ensures RunAlone(s, i, ok) ==
            s.(actionLock := None, tasks := s.tasks[i := Done(s.stopping || s.stopped || ok)])
  {
    var s1 := Do(s, i, ok);
    assert RunAlone(s, i, ok) == RunAlone(s1, i, ok);
    if s.stopping {
      assert RunAlone(s1, i, ok) == s1;
    } else {
      var s2 := Do(s1, i, ok);
      assert RunAlone(s1, i, ok) == RunAlone(s2, i, ok);
      if s.stopped { assert RunAlone(s2, i, ok) == s2; } else { ScriptAlone(s2, i, ok); }
    }
  }

  /** What the conductor's method for this call does; an action that is not halted ends as its calls do. */
  function MethodOutcome(t: Task, f: Conductor.Fields, reply: Option<bool>): Conductor.Outcome {
    match t
    case PauseCheck => Conductor.PauseOutcome(f)
    case ResumeCheck => Conductor.ResumeOutcome(f, reply)
    case StopWant => Conductor.StopOutcome(f, reply.Some?)
    case _ => Conductor.Outcome(
      f, if Conductor.Halted(f) || reply.Some? then Ok(()) else Err(Conductor.StartFailed), [])
  }

  /**
    The interleaved calls are the conductor's methods taken apart: each of them, left alone, comes to its
    end with the flags and the result of `pause`, `resume`, `stop` or the halt check of an action.
  */
  lemma CallsAloneAreMethods(s: System, i: nat, f: Conductor.Fields, reply: Option<bool>)
    requires i < |s.tasks| && s.actionLock == None && s.stopLock == None && SameFlags(s, f) && IsEntry(s.tasks[i])
    ensures EndsAs(RunAlone(s, i, reply.Some?), i, MethodOutcome(s.tasks[i], f, reply))
  {
    match s.tasks[i]
    case PauseCheck => PauseAlone(s, i, f, reply.Some?);
    case ResumeCheck => ResumeAlone(s, i, f, reply);
    case StopWant => StopAlone(s, i, f, reply.Some?);
    case _ => ActionAlone(s, i, f, reply.Some?);
  }
}
