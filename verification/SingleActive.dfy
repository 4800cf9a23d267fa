/**
  A cluster with one stable leader. Every node ticks at its own pace: it asks its sequencer whether it
  runs, stores the answer, reads its status and acts on it. Ticks and queued actions of all nodes, also of
  one node, interleave between those steps.
*/
module SingleActive {
  import opened Prelude
  import opened Conductor

  /** The conductor's fields, and whether the node's sequencer really runs. */
  datatype Node = Node(running: bool, fields: Fields)

  /**
    A tick of one node; `answered` remembers whether the activity call succeeded. A queued action is a
    tick that starts at `Refreshed`, with nothing asked.
  */
  datatype Tick =
    | Begun(node: nat)
    | Asked(node: nat, reply: Option<bool>)
    | Refreshed(node: nat, answered: bool)
    | Judged(node: nat, answered: bool, active: bool, health: Health)
    | Ended(node: nat, answered: bool, ok: bool)

  datatype Cluster = Cluster(leader: nat, nodes: map<nat, Node>, ticks: seq<Tick>)

  datatype Step =
    | Ask(i: nat, answers: bool)
    | Store(i: nat, health: Health)
    | ReadStatus(i: nat)
    | Act(i: nat, env: Env)

  /** Leadership is stable, and a sequencer that says it is already stopped does not run. */
  predicate Truthful(c: Cluster, n: nat, env: Env)
    requires n in c.nodes
  {
    && env.leader == env.leaderAtTransfer == (n == c.leader)
    && (env.stop.AlreadyStopped? ==> !c.nodes[n].running)
  }

  predicate Enabled(c: Cluster, step: Step) {
    step.i < |c.ticks| && c.ticks[step.i].node in c.nodes &&
    match step
    case Ask(i, _) => c.ticks[i].Begun?
    case Store(i, _) => c.ticks[i].Asked?
    case ReadStatus(i) => c.ticks[i].Refreshed?
    case Act(i, env) => c.ticks[i].Judged? && Truthful(c, c.ticks[i].node, env)
  }

  /** The action decides on the status it read; its accepted calls change sequencer and cache. */
  function Decision(n: Node, active: bool, health: Health, env: Env): Outcome {
    Action(n.fields.(seqActive := active, health := health), env)
  }

  function ActOn(n: Node, active: bool, health: Health, env: Env): Node {
    var o := Decision(n, active, health, env);
    Node(ActiveAfter(n.running, o.effects),
         n.fields.(seqActive := ActiveAfter(n.fields.seqActive, o.effects), previous := o.fields.previous))
  }

  function Do(c: Cluster, step: Step): Cluster
    requires Enabled(c, step)
  {
    var i := step.i;
    var t := c.ticks[i];
    var node := c.nodes[t.node];
    match step
    case Ask(_, answers) =>
      c.(ticks := c.ticks[i := Asked(t.node, if answers then Some(node.running) else None)])
    case Store(_, health) =>
      var f := if t.reply.Some? then node.fields.(seqActive := t.reply.value, health := health)
               else node.fields.(health := SequencerConnectionDown);
      c.(nodes := c.nodes[t.node := node.(fields := f)], ticks := c.ticks[i := Refreshed(t.node, t.reply.Some?)])
    case ReadStatus(_) =>
      c.(ticks := c.ticks[i := Judged(t.node, t.answered, node.fields.seqActive, node.fields.health)])
    case Act(_, env) =>
      c.(nodes := c.nodes[t.node := ActOn(node, t.active, t.health, env)],
         ticks := c.ticks[i := Ended(t.node, t.answered, Decision(node, t.active, t.health, env).result.Ok?)])
  }

  ghost predicate Initial(c: Cluster) {
    && (forall n :: n in c.nodes ==> !Halted(c.nodes[n].fields))
    && (forall i :: 0 <= i < |c.ticks| ==> c.ticks[i].Begun? || c.ticks[i] == Refreshed(c.ticks[i].node, false))
  }

  ghost predicate Run(states: seq<Cluster>, steps: seq<Step>) {
    && |states| == |steps| + 1 && Initial(states[0])
    && forall k :: 0 <= k < |steps| ==> Enabled(states[k], steps[k]) && states[k + 1] == Do(states[k], steps[k])
  }

  // ---------- the invariant ----------

  /** The tick has put an answered activity into its node's cache. */
  predicate ReachedCache(t: Tick) {
    (t.Refreshed? || t.Judged? || t.Ended?) && t.answered
  }

  /** A cache that says inactive can be believed. */
  predicate CacheSound(n: Node) {
    !n.fields.seqActive ==> !n.running
  }

  ghost predicate GoodTick(c: Cluster, t: Tick) {
    t.node in c.nodes && t.node != c.leader ==>
      && (t.Asked? && t.reply == Some(false) ==> !c.nodes[t.node].running)
      && (ReachedCache(t) ==> CacheSound(c.nodes[t.node]))
      && (t.Judged? && t.answered && !t.active ==> !c.nodes[t.node].running)
      && (t.Ended? && t.answered && t.ok ==> !c.nodes[t.node].running)
  }

  ghost predicate Inv(c: Cluster) {
    && (forall n :: n in c.nodes ==> !Halted(c.nodes[n].fields))
    && (forall i :: 0 <= i < |c.ticks| ==> GoodTick(c, c.ticks[i]))
  }

  /**
    A follower's action never starts anything, and one that succeeds leaves its sequencer running exactly if
    it ran and the status read said inactive.
  */
  lemma FollowerAct(n: Node, active: bool, health: Health, env: Env)
    requires !Halted(n.fields) && !env.leader && !env.leaderAtTransfer
    ensures var n' := ActOn(n, active, health, env);
            && (n'.running ==> n.running)
            && (CacheSound(n) ==> CacheSound(n'))
            && (Decision(n, active, health, env).result.Ok? ==> (n'.running <==> n.running && !active))
            && !Halted(n'.fields)
  {
    var f := n.fields.(seqActive := active, health := health);
    var plan := Decide(Status(f, env), f.previous, f.health);
    PlanActivity(n.running, plan, env);
    PlanActivity(n.fields.seqActive, plan, env);
  }

  /** One step leaves every other tick good. */
  lemma OtherTick(c: Cluster, step: Step, t: Tick)
    requires Inv(c) && Enabled(c, step) && GoodTick(c, t)
    ensures GoodTick(Do(c, step), t)
  {
    var own := c.ticks[step.i];
    assert GoodTick(c, own);
    if step.Act? && own.node != c.leader { FollowerAct(c.nodes[own.node], own.active, own.health, step.env); }
  }

  lemma OwnTick(c: Cluster, step: Step)
    requires Inv(c) && Enabled(c, step)
    ensures GoodTick(Do(c, step), Do(c, step).ticks[step.i])
  {
    var own := c.ticks[step.i];
    assert GoodTick(c, own);
    if step.Act? && own.node != c.leader { FollowerAct(c.nodes[own.node], own.active, own.health, step.env); }
  }

  lemma InvStep(c: Cluster, step: Step)
    requires Inv(c) && Enabled(c, step)
    ensures Inv(Do(c, step)) && Do(c, step).leader == c.leader
  {
    var d := Do(c, step);
    forall k | 0 <= k < |d.ticks| ensures GoodTick(d, d.ticks[k]) {
      if k == step.i { OwnTick(c, step); } else { OtherTick(c, step, c.ticks[k]); }
    }
  }

  lemma {:induction false} RunInv(states: seq<Cluster>, steps: seq<Step>, k: nat)
    requires Run(states, steps) && k < |states|
    ensures Inv(states[k])
  {
    if k > 0 {
      RunInv(states, steps, k - 1);
      InvStep(states[k - 1], steps[k - 1]);
    }
  }

  /** The node has completed a tick that returned Ok and whose activity call was answered. */
  ghost predicate TickedWell(c: Cluster, n: nat) {
    exists i :: 0 <= i < |c.ticks| && c.ticks[i] == Ended(n, true, true)
  }

  lemma {:induction false} EndedTicksStay(states: seq<Cluster>, steps: seq<Step>, j: nat, k: nat, i: nat)
    requires Run(states, steps) && j <= k < |states| && i < |states[j].ticks| && states[j].ticks[i].Ended?
    ensures i < |states[k].ticks| && states[k].ticks[i] == states[j].ticks[i]
    decreases k
  {
    if j < k { EndedTicksStay(states, steps, j, k - 1, i); }
  }

  /**
    Once every follower has completed an answered, successful tick, only the leader's sequencer can run,
    then and for the rest of the run.
  */
  lemma OnlyLeaderRuns(states: seq<Cluster>, steps: seq<Step>, j: nat, k: nat)
    requires Run(states, steps) && j <= k < |states|
    requires forall n :: n in states[k].nodes && n != states[k].leader ==> TickedWell(states[j], n)
    ensures forall n :: n in states[k].nodes && n != states[k].leader ==> !states[k].nodes[n].running
  {
    RunInv(states, steps, k);
    forall n | n in states[k].nodes && n != states[k].leader ensures !states[k].nodes[n].running {
      var i :| 0 <= i < |states[j].ticks| && states[j].ticks[i] == Ended(n, true, true);
      EndedTicksStay(states, steps, j, k, i);
      assert GoodTick(states[k], states[k].ticks[i]);
    }
  }

  // ---------- one tick without interleaving ----------

  /** The four steps of a tick back to back. */
  function WholeTick(c: Cluster, i: nat, answers: bool, health: Health, env: Env): Cluster
    requires Enabled(c, Ask(i, answers)) && Truthful(c, c.ticks[i].node, env)
  {
    var stored := Do(Do(c, Ask(i, answers)), Store(i, health));
    Do(Do(stored, ReadStatus(i)), Act(i, env))
  }

  /** They make up the conductor's `tick`: its fields, its result and its calls, answered truthfully. */
  lemma WholeTickIsTick(c: Cluster, i: nat, answers: bool, health: Health, env: Env)
    requires Enabled(c, Ask(i, answers)) && Truthful(c, c.ticks[i].node, env)
    requires var f := c.nodes[c.ticks[i].node].fields; !f.stopping && !f.stopped
    ensures var n := c.ticks[i].node;
            var node := c.nodes[n];
            var o := TickOutcome(node.fields, if answers then Some(node.running) else None, health, env);
            var ended := WholeTick(c, i, answers, health, env);
            && ended.nodes == c.nodes[n := Node(ActiveAfter(node.running, o.effects), o.fields)]
            && ended.ticks == c.ticks[i := Ended(n, answers, o.result.Ok?)]
  {
  }

  /**
    What a successful tick of a follower says about its sequencer, exactly: answered, that it is off;
    unanswered, that it is off if and only if it was off before or the cache said active.
  */
  lemma FollowerTickMeaning(c: Cluster, i: nat, answers: bool, health: Health, env: Env)
    requires Enabled(c, Ask(i, answers)) && Truthful(c, c.ticks[i].node, env) && c.ticks[i].node != c.leader
    requires !Halted(c.nodes[c.ticks[i].node].fields)
    ensures var n := c.ticks[i].node;
            var ended := WholeTick(c, i, answers, health, env);
            && n in ended.nodes && |ended.ticks| == |c.ticks| && ended.ticks[i].Ended?
            && (ended.ticks[i].ok ==>
                  (ended.nodes[n].running <==> !answers && c.nodes[n].running && !c.nodes[n].fields.seqActive))
            && (!answers && !c.nodes[n].fields.seqActive ==> ended.ticks[i].ok)
  {
    WholeTickIsTick(c, i, answers, health, env);
    var stored := Do(Do(c, Ask(i, answers)), Store(i, health)).nodes[c.ticks[i].node];
    FollowerAct(stored, stored.fields.seqActive, stored.fields.health, env);
  }
}
