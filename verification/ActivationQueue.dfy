/**
 The queue of workflow activations to retry: one entry per workflow with its current delay and
 timer, and a retry closure that re-arms itself when the activation fails again.
 */
module ActivationQueue {
  import opened Common

  type WorkflowId = string

  const INITIAL_TIMEOUT: nat := 1000
  const MAX_TIMEOUT: nat := 24 * 60 * 60 * 1000

  /** `failures` counts the ordinary failures since the workflow was enqueued; the source does not keep it. */
  datatype Entry = Entry(lastTimeout: nat, timer: nat, failures: nat)

  /** `armed` holds the timers still to fire, `inFlight` the retries that fired and did not end yet. */
  datatype State = State(
    queued: map<WorkflowId, Entry>,
    armed: map<nat, WorkflowId>,
    inFlight: multiset<WorkflowId>,
    nextTimer: nat)

  /**
   A retry that does not throw has `added` the workflow and dequeued it, or found it archived or
   without an active version and returned before that.
   */
  datatype Step =
    | Enqueue(id: WorkflowId)
    | Dequeue(id: WorkflowId)
    | DequeueAll
    | Fire(timer: nat)
    | Succeed(id: WorkflowId, added: bool)
    | Fail(id: WorkflowId, isolate: bool)

  function Init(): State {
    State(map[], map[], multiset{}, 0)
  }

  // ---------- Backoff ----------

  /** The delay the retry closure computes from the last one. */
  function NextTimeout(last: nat, isolate: bool): nat {
    if !isolate && last < MAX_TIMEOUT then Min(last * 2, MAX_TIMEOUT) else last
  }

  function Backoff(failures: nat): nat {
    Min(INITIAL_TIMEOUT * Pow2(failures), MAX_TIMEOUT)
  }

  lemma NextTimeoutIsBackoff(failures: nat, isolate: bool)
    ensures NextTimeout(Backoff(failures), isolate) == Backoff(if isolate then failures else failures + 1)
  {
    assert Pow2(failures + 1) == 2 * Pow2(failures);
  }

  /** The cap of one day is reached at the 17th ordinary failure and not before. */
  lemma CapReachedAtSeventeen(failures: nat)
    ensures Backoff(failures) == MAX_TIMEOUT <==> failures >= 17
  {
    assert Pow2(4) == 16;
    assert Pow2(8) == 256;
    assert Pow2(12) == 4096;
    assert Pow2(16) == 65536;
    assert Pow2(17) == 131072;
    if failures >= 17 { Pow2Monotone(17, failures); } else { Pow2Monotone(failures, 16); }
  }

  // ---------- Steps ----------

  function Remove(s: State, id: WorkflowId): State {
    if id in s.queued then s.(armed := s.armed - {s.queued[id].timer}, queued := s.queued - {id}) else s
  }

  function Arm(s: State, id: WorkflowId, timeout: nat, failures: nat): State {
    s.(queued := s.queued[id := Entry(timeout, s.nextTimer, failures)],
       armed := s.armed[s.nextTimer := id],
       nextTimer := s.nextTimer + 1)
  }

  function Next(s: State, step: Step): State {
    match step
    case Enqueue(id) => Arm(Remove(s, id), id, INITIAL_TIMEOUT, 0)
    case Dequeue(id) => Remove(s, id)
    case DequeueAll =>
      s.(queued := map[], armed := s.armed - (set id | id in s.queued :: s.queued[id].timer))
    case Fire(t) =>
      if t in s.armed then s.(armed := s.armed - {t}, inFlight := s.inFlight + multiset{s.armed[t]}) else s
    case Succeed(id, added) =>
      if id !in s.inFlight then s
      else
        var s' := s.(inFlight := s.inFlight - multiset{id});
        if added then Remove(s', id) else s'
    case Fail(id, isolate) =>
      if id !in s.inFlight then s
      else
        var s' := s.(inFlight := s.inFlight - multiset{id});
        if id !in s.queued then s'  // the closure throws: its entry is gone
        else Arm(s', id, NextTimeout(s.queued[id].lastTimeout, isolate),
                 if isolate then s.queued[id].failures else s.queued[id].failures + 1)
  }

  function Run(s: State, steps: seq<Step>): State
    decreases |steps|
  {
    if steps == [] then s else Run(Next(s, steps[0]), steps[1..])
  }

  ghost predicate Inv(s: State) {
    && (forall id :: id in s.queued ==>
          s.queued[id].timer < s.nextTimer && s.queued[id].lastTimeout == Backoff(s.queued[id].failures))
    && (forall t :: t in s.armed ==> t < s.nextTimer)
    && (forall id :: id in s.queued && s.queued[id].timer in s.armed ==> s.armed[s.queued[id].timer] == id)
    && (forall id, id' :: id in s.queued && id' in s.queued && s.queued[id].timer == s.queued[id'].timer ==> id == id')
  }

  lemma RemoveInv(s: State, id: WorkflowId)
    requires Inv(s)
    ensures Inv(Remove(s, id))
  {
  }

  lemma ArmInv(s: State, id: WorkflowId, timeout: nat, failures: nat)
    requires Inv(s) && timeout == Backoff(failures)
    ensures Inv(Arm(s, id, timeout, failures))
  {
  }

  lemma FailInv(s: State, id: WorkflowId, isolate: bool)
    requires Inv(s)
    ensures Inv(Next(s, Fail(id, isolate)))
  {
    if id in s.inFlight && id in s.queued {
      var e := s.queued[id];
      NextTimeoutIsBackoff(e.failures, isolate);
      ArmInv(s.(inFlight := s.inFlight - multiset{id}), id,
             NextTimeout(e.lastTimeout, isolate), if isolate then e.failures else e.failures + 1);
    }
  }

  lemma FireInv(s: State, t: nat)
    requires Inv(s)
    ensures Inv(Next(s, Fire(t))) && Inv(Next(s, DequeueAll))
  {
  }

  lemma NextInv(s: State, step: Step)
    requires Inv(s)
    ensures Inv(Next(s, step))
  {
    match step
    case Enqueue(id) =>
      RemoveInv(s, id);
      ArmInv(Remove(s, id), id, INITIAL_TIMEOUT, 0);
    case Dequeue(id) => RemoveInv(s, id);
    case DequeueAll => FireInv(s, 0);
    case Fire(t) => FireInv(s, t);
    case Succeed(id, _) => RemoveInv(s.(inFlight := s.inFlight - multiset{id}), id);
    case Fail(id, isolate) => FailInv(s, id, isolate);
  }

  lemma {:induction false} RunInv(s: State, steps: seq<Step>)
    requires Inv(s)
    ensures Inv(Run(s, steps))
    decreases |steps|
  {
    if steps != [] {
      NextInv(s, steps[0]);
      RunInv(Next(s, steps[0]), steps[1..]);
    }
  }

  /**
   In every run each entry's delay is min(1000 * 2^n, one day) after n ordinary failures;
   isolate failures do not count.
   */
  lemma DelayIsCappedExponential(steps: seq<Step>, id: WorkflowId)
    requires id in Run(Init(), steps).queued
    ensures var e := Run(Init(), steps).queued[id];
            e.lastTimeout == Min(1000 * Pow2(e.failures), 86400000) && (e.lastTimeout == 86400000 <==> e.failures >= 17)
  {
    RunInv(Init(), steps);
    CapReachedAtSeventeen(Run(Init(), steps).queued[id].failures);
  }

  // ---------- Backoff over whole runs ----------

  /** Whether the step puts the workflow into the queue or may take it out. */
  predicate Touches(step: Step, id: WorkflowId) {
    step == Enqueue(id) || step == Dequeue(id) || step == DequeueAll || (step.Succeed? && step.id == id)
  }

  /** How often a retry of the workflow that was in flight ends in an ordinary failure. */
  function OrdinaryFailures(s: State, steps: seq<Step>, id: WorkflowId): nat
    decreases |steps|
  {
    if steps == [] then 0
    else (if steps[0] == Fail(id, false) && id in s.inFlight then 1 else 0)
         + OrdinaryFailures(Next(s, steps[0]), steps[1..], id)
  }

  /** The entry says what the timers do: it waits for its own, or its retry is in flight. */
  ghost predicate Pending(s: State, id: WorkflowId) {
    && id in s.queued
    && ((s.queued[id].timer in s.armed && s.armed[s.queued[id].timer] == id) || id in s.inFlight)
  }

  lemma PendingStep(s: State, step: Step, id: WorkflowId)
    requires Inv(s) && Pending(s, id) && !Touches(step, id)
    ensures Pending(Next(s, step), id)
    ensures Next(s, step).queued[id].failures
         == s.queued[id].failures + (if step == Fail(id, false) && id in s.inFlight then 1 else 0)
  {
    match step
    case Enqueue(_) => OtherKept(s, step.id, id);
    case Dequeue(_) => OtherKept(s, step.id, id);
    case Succeed(_, _) => OtherKept(s.(inFlight := s.inFlight - multiset{step.id}), step.id, id);
    case Fire(t) => FireKeepsPending(s, t, id);
    case Fail(_, isolate) => FailKeepsPending(s, step.id, isolate, id);
    case DequeueAll =>
  }

  lemma FireKeepsPending(s: State, t: nat, id: WorkflowId)
    requires Inv(s) && Pending(s, id)
    ensures Pending(Next(s, Fire(t)), id) && Next(s, Fire(t)).queued == s.queued
  {
  }

  lemma FailKeepsPending(s: State, failing: WorkflowId, isolate: bool, id: WorkflowId)
    requires Inv(s) && Pending(s, id)
    ensures Pending(Next(s, Fail(failing, isolate)), id)
    ensures Next(s, Fail(failing, isolate)).queued[id].failures
         == s.queued[id].failures + (if failing == id && !isolate && id in s.inFlight then 1 else 0)
  {
  }

  lemma OtherKept(s: State, other: WorkflowId, id: WorkflowId)
    requires Inv(s) && Pending(s, id) && other != id
    ensures Pending(Remove(s, other), id) && Remove(s, other).queued[id] == s.queued[id]
  {
  }

  lemma {:induction false} PendingAlong(s: State, steps: seq<Step>, id: WorkflowId)
    requires Inv(s) && Pending(s, id) && forall k :: 0 <= k < |steps| ==> !Touches(steps[k], id)
    ensures Pending(Run(s, steps), id)
    ensures Run(s, steps).queued[id].failures == s.queued[id].failures + OrdinaryFailures(s, steps, id)
    decreases |steps|
  {
    if steps != [] {
      assert !Touches(steps[0], id);
      NextInv(s, steps[0]);
      PendingStep(s, steps[0], id);
      PendingAlong(Next(s, steps[0]), steps[1..], id);
    }
  }

  /**
   Whatever happened before and whatever else goes on: while a workflow that was enqueued is neither
   enqueued anew nor taken out, it has a timer or a retry in flight, and after n ordinary failures
   its delay is min(1000 * 2^n, one day).
   */
  lemma BackoffCountsFailures(before: seq<Step>, id: WorkflowId, rest: seq<Step>)
    requires forall k :: 0 <= k < |rest| ==> !Touches(rest[k], id)
    ensures var enqueued := Next(Run(Init(), before), Enqueue(id));
      var s, n := Run(enqueued, rest), OrdinaryFailures(enqueued, rest, id);
      && Pending(s, id)
      && s.queued[id].lastTimeout == if 1000 * Pow2(n) <= 86400000 then 1000 * Pow2(n) else 86400000
  {
    RunInv(Init(), before);
    NextInv(Run(Init(), before), Enqueue(id));
    var enqueued := Next(Run(Init(), before), Enqueue(id));
    PendingAlong(enqueued, rest, id);
    RunInv(enqueued, rest);
  }

  lemma RunConcat(s: State, a: seq<Step>, b: seq<Step>)
    ensures Run(s, a + b) == Run(Run(s, a), b)
    decreases |a|
  {
    if a == [] {
      assert a + b == b;
    } else {
      assert (a + b)[1..] == a[1..] + b;
      RunConcat(Next(s, a[0]), a[1..], b);
    }
  }

  /** A workflow that is enqueued and whose retries keep failing, each by an ordinary error. */
  function Retries(id: WorkflowId, n: nat): seq<Step> {
    if n == 0 then [Enqueue(id)] else Retries(id, n - 1) + [Fire(n - 1), Fail(id, false)]
  }

  /** One entry, with its timer armed for the delay of `n` ordinary failures, and nothing else. */
  function Alone(id: WorkflowId, n: nat): State {
    var delay: nat := if 1000 * Pow2(n) <= 86400000 then 1000 * Pow2(n) else 86400000;
    State(map[id := Entry(delay, n, n)], map[n := id], multiset{}, n + 1)
  }

  lemma RetryOnce(id: WorkflowId, n: nat)
    ensures Run(Alone(id, n), [Fire(n), Fail(id, false)]) == Alone(id, n + 1)
  {
    var fired := Next(Alone(id, n), Fire(n));
    assert fired == State(Alone(id, n).queued, map[], multiset{id}, n + 1);
    NextTimeoutIsBackoff(n, false);
    var failed := Next(fired, Fail(id, false));
    assert failed.armed == map[n + 1 := id] && failed.inFlight == multiset{};
    assert failed.queued == Alone(id, n + 1).queued;
    assert [Fire(n), Fail(id, false)][1..] == [Fail(id, false)] && [Fail(id, false)][1..] == [];
    assert Run(fired, [Fail(id, false)]) == Run(failed, []);
  }

  /** Its timers fire one after the other, and before each there is the delay of that many failures. */
  lemma {:induction false} RetriesBackOff(id: WorkflowId, n: nat)
    ensures Run(Init(), Retries(id, n)) == Alone(id, n)
  {
    if n == 0 {
      assert Retries(id, 0)[1..] == [];
    } else {
      RetriesBackOff(id, n - 1);
      RunConcat(Init(), Retries(id, n - 1), [Fire(n - 1), Fail(id, false)]);
      RetryOnce(id, n - 1);
    }
  }

  // ---------- One timer per workflow ----------

  /** Every armed timer is that of its workflow's entry, and a workflow being retried has none. */
  ghost predicate OneTimer(s: State) {
    && (forall t :: t in s.armed ==>
          s.armed[t] in s.queued && s.queued[s.armed[t]].timer == t && s.armed[t] !in s.inFlight)
    && (forall id :: s.inFlight[id] <= 1)
  }

  /** The workflow is enqueued while a retry of it is in flight. */
  predicate Overlaps(s: State, step: Step) {
    step.Enqueue? && step.id in s.inFlight
  }

  /** Such an overlap is the one step that breaks this. */
  lemma OneTimerKeptExactlyUnlessOverlap(s: State, step: Step)
    requires Inv(s) && OneTimer(s)
    ensures OneTimer(Next(s, step)) <==> !Overlaps(s, step)
  {
    match step
    case Enqueue(id) => EnqueueOneTimer(s, id);
    case Fire(t) => FireOneTimer(s, t);
    case Fail(id, isolate) => FailOneTimer(s, id, isolate);
    case _ => RemovalOneTimer(s, step);
  }

  lemma RemovalOneTimer(s: State, step: Step)
    requires Inv(s) && OneTimer(s) && (step.Dequeue? || step.DequeueAll? || step.Succeed?)
    ensures OneTimer(Next(s, step))
  {
  }

  lemma EnqueueOneTimer(s: State, id: WorkflowId)
    requires Inv(s) && OneTimer(s)
    ensures OneTimer(Next(s, Enqueue(id))) <==> id !in s.inFlight
  {
    assert Next(s, Enqueue(id)).armed[s.nextTimer] == id;
  }

  lemma FireOneTimer(s: State, t: nat)
    requires Inv(s) && OneTimer(s)
    ensures OneTimer(Next(s, Fire(t)))
  {
  }

  lemma FailOneTimer(s: State, id: WorkflowId, isolate: bool)
    requires Inv(s) && OneTimer(s)
    ensures OneTimer(Next(s, Fail(id, isolate)))
  {
    if id in s.inFlight { assert s.inFlight[id] == 1; }
  }

  /** The overlap costs exactly this: when the retry then fails, two timers are armed for the workflow. */
  lemma OverlapThenFailureArmsTwice(s: State, id: WorkflowId, isolate: bool)
    requires Inv(s) && id in s.inFlight
    ensures var s' := Next(Next(s, Enqueue(id)), Fail(id, isolate));
      && s.nextTimer in s'.armed && s.nextTimer + 1 in s'.armed
      && s'.armed[s.nextTimer] == s'.armed[s.nextTimer + 1] == id
  {
  }

  ghost predicate NeverOverlaps(s: State, steps: seq<Step>)
    decreases |steps|
  {
    steps == [] || (!Overlaps(s, steps[0]) && NeverOverlaps(Next(s, steps[0]), steps[1..]))
  }

  lemma {:induction false} OneTimerAlong(s: State, steps: seq<Step>)
    requires Inv(s) && OneTimer(s) && NeverOverlaps(s, steps)
    ensures OneTimer(Run(s, steps))
    decreases |steps|
  {
    if steps != [] {
      NextInv(s, steps[0]);
      OneTimerKeptExactlyUnlessOverlap(s, steps[0]);
      OneTimerAlong(Next(s, steps[0]), steps[1..]);
    }
  }

  /**
   In every run in which no workflow is enqueued during its own retry, at most one timer is armed
   for a workflow, and none while its retry is in flight.
   */
  lemma OneTimerPerWorkflow(steps: seq<Step>, t: nat, u: nat)
    requires NeverOverlaps(Init(), steps)
    ensures var s := Run(Init(), steps);
      && (t in s.armed && u in s.armed && s.armed[t] == s.armed[u] ==> t == u)
      && (t in s.armed ==> s.armed[t] !in s.inFlight)
  {
    OneTimerAlong(Init(), steps);
  }

  // ---------- Leaving the queue ----------

  ghost predicate NoTimer(s: State, id: WorkflowId) {
    forall t :: t in s.armed ==> s.armed[t] != id
  }

  /**
   Dequeuing and every return of the retry leave no timer of the workflow, and a retry that fails
   after a dequeue arms none. The entry goes too, unless the retry returned without adding.
   */
  lemma DequeueAndSuccessClear(s: State, id: WorkflowId, added: bool, isolate: bool)
    requires Inv(s) && OneTimer(s)
    ensures var s' := Next(s, Dequeue(id));
      id !in s'.queued && NoTimer(s', id)
      && id !in Next(s', Fail(id, isolate)).queued && NoTimer(Next(s', Fail(id, isolate)), id)
    ensures id in s.inFlight ==>
      var s' := Next(s, Succeed(id, added));
      NoTimer(s', id) && (id in s'.queued <==> id in s.queued && !added)
    ensures Next(s, DequeueAll).queued == map[] && NoTimer(Next(s, DequeueAll), id)
  {
  }

  ghost predicate Idle(s: State, id: WorkflowId) {
    NoTimer(s, id) && id !in s.inFlight
  }

  lemma IdleStep(s: State, step: Step, id: WorkflowId)
    requires Idle(s, id) && step != Enqueue(id)
    ensures Idle(Next(s, step), id)
  {
    if step.Fire? && step.timer in s.armed { assert s.armed[step.timer] != id; }
  }

  /** However a retry returned, the workflow is not retried again until it is enqueued anew. */
  lemma {:induction false} IdleUntilEnqueued(s: State, steps: seq<Step>, id: WorkflowId)
    requires Idle(s, id) && forall k :: 0 <= k < |steps| ==> steps[k] != Enqueue(id)
    ensures Idle(Run(s, steps), id)
    decreases |steps|
  {
    if steps != [] {
      IdleStep(s, steps[0], id);
      IdleUntilEnqueued(Next(s, steps[0]), steps[1..], id);
    }
  }

  lemma ReturnedRetryStaysIdle(before: seq<Step>, id: WorkflowId, added: bool, steps: seq<Step>)
    requires NeverOverlaps(Init(), before) && id in Run(Init(), before).inFlight
    requires forall k :: 0 <= k < |steps| ==> steps[k] != Enqueue(id)
    ensures Idle(Run(Next(Run(Init(), before), Succeed(id, added)), steps), id)
  {
    var s := Run(Init(), before);
    RunInv(Init(), before);
    OneTimerAlong(Init(), before);
    assert s.inFlight[id] == 1;
    IdleUntilEnqueued(Next(s, Succeed(id, added)), steps, id);
  }

  // ---------- The queue ----------

  class Queue {
    var queuedActivations: map<WorkflowId, Entry>
    var armed: map<nat, WorkflowId>
    var inFlight: multiset<WorkflowId>
    var nextTimer: nat

    ghost function Abs(): State
      reads this
    {
      State(queuedActivations, armed, inFlight, nextTimer)
    }

    constructor ()
      ensures Abs() == Init() && Inv(Abs()) && OneTimer(Abs())
    {
      queuedActivations, armed, inFlight, nextTimer := map[], map[], multiset{}, 0;
    }

    method SetTimeout(id: WorkflowId) returns (timer: nat)
      modifies this`armed, this`nextTimer
      ensures timer == old(nextTimer) && nextTimer == old(nextTimer) + 1 && armed == old(armed)[timer := id]
    {
      timer := nextTimer;
      armed := armed[timer := id];
      nextTimer := nextTimer + 1;
    }

    method RemoveQueuedWorkflowActivation(id: WorkflowId)
      modifies this`queuedActivations, this`armed
      ensures Abs() == Next(old(Abs()), Dequeue(id))
    {
      if id in queuedActivations {
        armed := armed - {queuedActivations[id].timer};
        queuedActivations := queuedActivations - {id};
      }
    }

    method AddQueuedWorkflowActivation(id: WorkflowId)
      modifies this
      ensures Abs() == Next(old(Abs()), Enqueue(id))
    {
      RemoveQueuedWorkflowActivation(id);
      var timer := SetTimeout(id);
      queuedActivations := queuedActivations[id := Entry(INITIAL_TIMEOUT, timer, 0)];
    }

    method RemoveAllQueuedWorkflowActivations()
      modifies this`queuedActivations, this`armed
      ensures Abs() == Next(old(Abs()), DequeueAll)
    {
      ghost var cleared: set<nat> := {};
      var todo := queuedActivations.Keys;
      while todo != {}
        invariant todo == queuedActivations.Keys && todo <= old(queuedActivations).Keys
        invariant forall id :: id in todo ==> queuedActivations[id] == old(queuedActivations)[id]
        invariant cleared == set id | id in old(queuedActivations) && id !in todo :: old(queuedActivations)[id].timer
        invariant armed == old(armed) - cleared
        decreases todo
      {
        var id :| id in todo;
        cleared := cleared + {queuedActivations[id].timer};
        RemoveQueuedWorkflowActivation(id);
        todo := todo - {id};
      }
      assert queuedActivations == map[];
      assert cleared == set id | id in old(queuedActivations) :: old(queuedActivations)[id].timer;
    }

    method OnTimer(timer: nat)
      requires timer in armed
      modifies this`armed, this`inFlight
      ensures Abs() == Next(old(Abs()), Fire(timer))
    {
      inFlight := inFlight + multiset{armed[timer]};
      armed := armed - {timer};
    }

    method RetryReturned(id: WorkflowId, added: bool)
      requires id in inFlight
      modifies this
      ensures Abs() == Next(old(Abs()), Succeed(id, added))
    {
      inFlight := inFlight - multiset{id};
      if added {
        RemoveQueuedWorkflowActivation(id);
      }
    }

    /** `crashed` says that the entry was gone and the closure threw instead of re-arming. */
    method RetryFailed(id: WorkflowId, isolate: bool) returns (crashed: bool)
      requires id in inFlight
      modifies this
      ensures Abs() == Next(old(Abs()), Fail(id, isolate)) && crashed == (id !in old(queuedActivations))
      ensures !crashed ==>
        var last := old(queuedActivations[id].lastTimeout);
        && id in queuedActivations && queuedActivations[id].timer in armed
        && queuedActivations[id].lastTimeout
           == if isolate || last >= 86400000 then last else if 2 * last <= 86400000 then 2 * last else 86400000
    {
      inFlight := inFlight - multiset{id};
      crashed := id !in queuedActivations;
      if crashed {
        return;
      }
      var entry := queuedActivations[id];
      var lastTimeout := entry.lastTimeout;
      if !isolate && lastTimeout < MAX_TIMEOUT {
        lastTimeout := Min(lastTimeout * 2, MAX_TIMEOUT);
      }
      var timer := SetTimeout(id);
      queuedActivations := queuedActivations[id :=
        Entry(lastTimeout, timer, if isolate then entry.failures else entry.failures + 1)];
    }
  }
}
