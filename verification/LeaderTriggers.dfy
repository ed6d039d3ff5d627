/**
 In-memory triggers across the main instances of a cluster. Only the leader may register them,
 but `add` reads the role first and registers later, with other work in between.
 */
module LeaderTriggers {

  type InstanceId = nat
  type WorkflowId = string

  /** `adding` holds the activations that found the instance to be leader and did not register yet. */
  datatype Instance = Instance(leader: bool, triggers: set<WorkflowId>, adding: set<WorkflowId>)

  type Cluster = map<InstanceId, Instance>

  datatype Step =
    | TakeOver(i: InstanceId)
    | StepDown(i: InstanceId)
    | BeginAdd(i: InstanceId, id: WorkflowId)
    | FinishAdd(i: InstanceId, id: WorkflowId)
    | AbortAdd(i: InstanceId, id: WorkflowId)
    | Remove(i: InstanceId, id: WorkflowId)

  predicate HasLeader(c: Cluster) {
    exists i :: i in c && c[i].leader
  }

  /** A step of an instance; leadership is granted only while nobody holds it. */
  ghost function Next(c: Cluster, step: Step): Cluster {
    if step.i !in c then c
    else
      var me := c[step.i];
      match step
      case TakeOver(i) => if HasLeader(c) then c else c[i := me.(leader := true)]
      case StepDown(i) => c[i := me.(leader := false, triggers := {})]
      case BeginAdd(i, id) => if me.leader then c[i := me.(adding := me.adding + {id})] else c
      case FinishAdd(i, id) =>
        if id in me.adding then c[i := me.(adding := me.adding - {id}, triggers := me.triggers + {id})] else c
      case AbortAdd(i, id) => c[i := me.(adding := me.adding - {id})]
      case Remove(i, id) => c[i := me.(triggers := me.triggers - {id})]
  }

  ghost function Run(c: Cluster, steps: seq<Step>): Cluster
    decreases |steps|
  {
    if steps == [] then c else Run(Next(c, steps[0]), steps[1..])
  }

  ghost predicate OneLeader(c: Cluster) {
    forall i, j :: i in c && j in c && c[i].leader && c[j].leader ==> i == j
  }

  /** At most one leader, and only the leader holds triggers. */
  ghost predicate Safe(c: Cluster) {
    OneLeader(c) && forall i :: i in c && c[i].triggers != {} ==> c[i].leader
  }

  ghost predicate NeverTwice(c: Cluster) {
    forall i, j :: i in c && j in c && i != j ==> c[i].triggers !! c[j].triggers
  }

  /** The one unsafe step: registering after the instance lost the leadership it had when it checked. */
  lemma SafeKeptExactlyUnlessLateRegistration(c: Cluster, step: Step)
    requires Safe(c)
    ensures Safe(Next(c, step))
       <==> !(step.FinishAdd? && step.i in c && step.id in c[step.i].adding && !c[step.i].leader)
  {
    var c' := Next(c, step);
    if step.FinishAdd? && step.i in c && step.id in c[step.i].adding && !c[step.i].leader {
      assert step.id in c'[step.i].triggers;
    }
  }

  /**
   What a step does to one instance and one workflow. Triggers appear only where an activation in
   progress registers them, and go with a removal or with the leadership.
   */
  lemma StepOnInstance(c: Cluster, step: Step, i: InstanceId, id: WorkflowId)
    requires i in c
    ensures var c' := Next(c, step);
      && c'.Keys == c.Keys
      && (c'[i].leader <==> if c[i].leader then step != StepDown(i) else step == TakeOver(i) && !HasLeader(c))
      && (id in c'[i].triggers <==>
            || (step == FinishAdd(i, id) && id in c[i].adding)
            || (id in c[i].triggers && step != Remove(i, id) && step != StepDown(i)))
      && (id in c'[i].adding <==>
            || (step == BeginAdd(i, id) && c[i].leader)
            || (id in c[i].adding && step != FinishAdd(i, id) && step != AbortAdd(i, id)))
  {
  }

  /** Registered triggers stay live until they are removed or the instance steps down. */
  lemma {:induction false} LiveUntilRemoved(c: Cluster, steps: seq<Step>, i: InstanceId, id: WorkflowId)
    requires i in c && id in c[i].triggers
    ensures i in Run(c, steps)
    ensures (forall k :: 0 <= k < |steps| ==> steps[k] != Remove(i, id) && steps[k] != StepDown(i)) ==>
      id in Run(c, steps)[i].triggers
    decreases |steps|
  {
    if steps != [] {
      StepOnInstance(c, steps[0], i, id);
      if id in Next(c, steps[0])[i].triggers { LiveUntilRemoved(Next(c, steps[0]), steps[1..], i, id); }
      else { KeepsInstance(Next(c, steps[0]), steps[1..], i); }
    }
  }

  lemma {:induction false} KeepsInstance(c: Cluster, steps: seq<Step>, i: InstanceId)
    requires i in c
    ensures i in Run(c, steps)
    decreases |steps|
  {
    if steps != [] {
      StepOnInstance(c, steps[0], i, "");
      KeepsInstance(Next(c, steps[0]), steps[1..], i);
    }
  }

  /** No instance that is not leader is in the middle of an activation. */
  ghost predicate NoLateAdds(c: Cluster) {
    forall i :: i in c && c[i].adding != {} ==> c[i].leader
  }

  lemma LateAddsAriseExactlyByStepDown(c: Cluster, step: Step)
    requires NoLateAdds(c)
    ensures NoLateAdds(Next(c, step)) <==> !(step.StepDown? && step.i in c && c[step.i].adding != {})
  {
    var c' := Next(c, step);
    if step.StepDown? && step.i in c && c[step.i].adding != {} {
      assert c'[step.i].adding != {} && !c'[step.i].leader;
    }
  }

  /** No instance steps down in the middle of an activation of its own. */
  ghost predicate CleanStepDowns(c: Cluster, steps: seq<Step>)
    decreases |steps|
  {
    steps == [] ||
    (!(steps[0].StepDown? && steps[0].i in c && c[steps[0].i].adding != {})
     && CleanStepDowns(Next(c, steps[0]), steps[1..]))
  }

  /** In every run in which no stepdown interrupts an activation, a workflow's triggers are never live twice. */
  lemma {:induction false} TriggersNeverLiveTwice(c: Cluster, steps: seq<Step>)
    requires Safe(c) && NoLateAdds(c) && CleanStepDowns(c, steps)
    ensures Safe(Run(c, steps))
    ensures NeverTwice(Run(c, steps))
    decreases |steps|
  {
    if steps != [] {
      LateAddsAriseExactlyByStepDown(c, steps[0]);
      SafeKeptExactlyUnlessLateRegistration(c, steps[0]);
      TriggersNeverLiveTwice(Next(c, steps[0]), steps[1..]);
    }
  }

  lemma Then(c: Cluster, steps: seq<Step>, step: Step) returns (more: seq<Step>)
    ensures more == steps + [step] && Run(c, more) == Next(Run(c, steps), step)
    decreases |steps|
  {
    more := steps + [step];
    if steps == [] {
      assert more == [step] && more[1..] == [];
    } else {
      var rest := Then(Next(c, steps[0]), steps[1..], step);
      assert more[1..] == rest;
    }
  }

  /**
   Conversely, from every safe cluster in which the leader is in the middle of an activation and
   another instance exists, a run interrupted by a stepdown leaves the triggers of that workflow
   on both.
   */
  lemma InterruptedAddDuplicates(c: Cluster, i: InstanceId, j: InstanceId, id: WorkflowId) returns (steps: seq<Step>)
    requires Safe(c) && i in c && c[i].leader && id in c[i].adding && j in c && j != i
    ensures var c' := Run(c, steps);
      i in c' && j in c' && id in c'[i].triggers && id in c'[j].triggers && !NeverTwice(c')
  {
    steps := Then(c, [], StepDown(i));
    assert !HasLeader(Run(c, steps));
    steps := Then(c, steps, TakeOver(j));
    steps := Then(c, steps, BeginAdd(j, id));
    steps := Then(c, steps, FinishAdd(j, id));
    steps := Then(c, steps, FinishAdd(i, id));
  }
}
