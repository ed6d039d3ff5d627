/**
 Tracking waiting executions with timers, and resuming a parent with bounded retry.

 `StartExecution` drops the tracked entry without clearing its timer, and `StopTracking` clears
 the timers without dropping the entries. The theorems say exactly what each omission costs.
 */
module WaitTracker {
  import opened Common

  type Id = string

  /** `tracked` maps an execution to its timer; `armed` maps every timer still to fire to its execution. */
  datatype State = State(tracked: map<Id, nat>, armed: map<nat, Id>, nextTimer: nat, polled: bool)

  datatype Step =
    | Poll(found: seq<Id>)
    | Fire(timer: nat)
    | Start(id: Id)
    | Stop(id: Id)
    | TakeOver
    | StepDown

  function Init(): State {
    State(map[], map[], 0, false)
  }

  function Track(s: State, id: Id): State {
    if id in s.tracked then s
    else s.(tracked := s.tracked[id := s.nextTimer], armed := s.armed[s.nextTimer := id], nextTimer := s.nextTimer + 1)
  }

  function TrackAll(s: State, ids: seq<Id>): State
    decreases |ids|
  {
    if ids == [] then s else TrackAll(Track(s, ids[0]), ids[1..])
  }

  function Next(s: State, step: Step): State {
    match step
    case Poll(found) => TrackAll(s, found)
    case Fire(t) =>
      if t in s.armed then s.(armed := s.armed - {t}, tracked := s.tracked - {s.armed[t]}) else s
    case Start(id) => s.(tracked := s.tracked - {id})
    case Stop(id) =>
      if id in s.tracked then s.(armed := s.armed - {s.tracked[id]}, tracked := s.tracked - {id}) else s
    case TakeOver => s.(polled := true)
    case StepDown => if s.polled then s.(armed := s.armed - s.tracked.Values) else s
  }

  function Run(s: State, steps: seq<Step>): State
    decreases |steps|
  {
    if steps == [] then s else Run(Next(s, steps[0]), steps[1..])
  }

  ghost predicate Inv(s: State) {
    && (forall id :: id in s.tracked ==> s.tracked[id] < s.nextTimer)
    && (forall t :: t in s.armed ==> t < s.nextTimer)
    && (forall id :: id in s.tracked && s.tracked[id] in s.armed ==> s.armed[s.tracked[id]] == id)
    && (forall id, id' :: id in s.tracked && id' in s.tracked && s.tracked[id] == s.tracked[id'] ==> id == id')
  }

  lemma {:induction false} TrackAllInv(s: State, ids: seq<Id>)
    requires Inv(s)
    ensures Inv(TrackAll(s, ids))
    decreases |ids|
  {
    if ids != [] { TrackAllInv(Track(s, ids[0]), ids[1..]); }
  }

  lemma NextInv(s: State, step: Step)
    requires Inv(s)
    ensures Inv(Next(s, step))
  {
    if step.Poll? { TrackAllInv(s, step.found); }
  }

  // ---------- What a step does to one execution ----------

  /** Exactly these executions are tracked in addition, with new timers if with any; all else stays. */
  ghost predicate Tracks(s: State, s': State, ids: seq<Id>) {
    && s'.polled == s.polled
    && (forall id :: id in s'.tracked <==> id in s.tracked || id in ids)
    && (forall id :: id in s.tracked ==> id in s'.tracked && s'.tracked[id] == s.tracked[id])
    && (forall t :: t in s.armed ==> t in s'.armed && s'.armed[t] == s.armed[t])
    && (forall t :: t in s'.armed && t !in s.armed ==> s'.armed[t] in ids && s'.armed[t] !in s.tracked)
  }

  lemma TrackFrame(s: State, id: Id)
    requires Inv(s)
    ensures Tracks(s, Track(s, id), [id]) && Inv(Track(s, id))
  {
  }

  lemma TracksMore(s: State, s1: State, s2: State, id: Id, ids: seq<Id>)
    requires Tracks(s, s1, [id]) && Tracks(s1, s2, ids)
    ensures Tracks(s, s2, [id] + ids)
  {
  }

  lemma {:induction false} TrackAllFrame(s: State, ids: seq<Id>)
    requires Inv(s)
    ensures Tracks(s, TrackAll(s, ids), ids)
    decreases |ids|
  {
    if ids != [] {
      TrackFrame(s, ids[0]);
      TrackAllFrame(Track(s, ids[0]), ids[1..]);
      TracksMore(s, Track(s, ids[0]), TrackAll(s, ids), ids[0], ids[1..]);
      assert ids == [ids[0]] + ids[1..];
    }
  }

  /**
   Which step tracks or forgets an execution: a poll that finds it, its own timer, start and stop,
   and no other. The polling starts with the first takeover of the leadership.
   */
  lemma TrackedByPollOnly(s: State, step: Step, id: Id)
    requires Inv(s)
    ensures var s' := Next(s, step);
      && (s'.polled <==> s.polled || step == TakeOver)
      && (id in s'.tracked <==>
            if step.Poll? then id in s.tracked || id in step.found
            else id in s.tracked && step != Start(id) && step != Stop(id)
                 && !(step.Fire? && step.timer in s.armed && s.armed[step.timer] == id))
      && (id in s.tracked && id in s'.tracked ==> s'.tracked[id] == s.tracked[id])
  {
    if step.Poll? { TrackAllFrame(s, step.found); }
  }

  /**
   Which step arms or silences a timer: only a poll arms one, for what it found untracked, and a
   timer falls silent by firing, by a stop of its execution or by a loss of the leadership, the
   last two only if the execution is tracked with it.
   */
  lemma ArmedByPollOnly(s: State, step: Step, t: nat)
    requires Inv(s)
    ensures var s' := Next(s, step);
      && (t in s.armed ==>
            var id := s.armed[t];
            var tracked := id in s.tracked && s.tracked[id] == t;
            (t in s'.armed <==>
               step != Fire(t) && !(step == Stop(id) && tracked) && !(step == StepDown && s.polled && tracked)))
      && (t in s.armed && t in s'.armed ==> s'.armed[t] == s.armed[t])
      && (t !in s.armed && t in s'.armed ==> step.Poll? && s'.armed[t] in step.found && s'.armed[t] !in s.tracked)
  {
    if step.Poll? { TrackAllFrame(s, step.found); }
  }

  // ---------- Stale timers ----------

  /** An armed timer that is not the one its execution is tracked with. */
  predicate Stale(s: State, t: nat) {
    t in s.armed && !(s.armed[t] in s.tracked && s.tracked[s.armed[t]] == t)
  }

  ghost predicate NoStale(s: State) {
    forall t :: t in s.armed ==> !Stale(s, t)
  }

  lemma {:induction false} TrackAllNoStale(s: State, ids: seq<Id>)
    requires Inv(s)
    ensures NoStale(s) ==> NoStale(TrackAll(s, ids))
    decreases |ids|
  {
    if ids != [] {
      TrackAllInv(s, [ids[0]]);
      assert TrackAll(s, [ids[0]]) == Track(s, ids[0]) by { assert [ids[0]][1..] == []; }
      if NoStale(s) {
        var s' := Track(s, ids[0]);
        forall t | t in s'.armed ensures !Stale(s', t) {
          if t in s.armed { assert !Stale(s, t); }
        }
      }
      TrackAllNoStale(Track(s, ids[0]), ids[1..]);
    }
  }

  /** A tracked execution is started directly, by a finished child, while its timer is armed. */
  predicate StartsArmed(s: State, step: Step) {
    step.Start? && step.id in s.tracked && s.tracked[step.id] in s.armed
  }

  /** Timers go stale exactly by such a start. */
  lemma StaleTimersAriseExactlyByDirectStart(s: State, step: Step)
    requires Inv(s) && NoStale(s)
    ensures NoStale(Next(s, step)) <==> !StartsArmed(s, step)
  {
    var s' := Next(s, step);
    if step.Poll? {
      TrackAllNoStale(s, step.found);
    } else if StartsArmed(s, step) {
      assert Stale(s', s.tracked[step.id]);
    } else {
      OtherStepsKeepNoStale(s, step);
    }
  }

  lemma OtherStepsKeepNoStale(s: State, step: Step)
    requires Inv(s) && NoStale(s) && !step.Poll? && !StartsArmed(s, step)
    ensures NoStale(Next(s, step))
  {
    forall t | t in Next(s, step).armed ensures !Stale(Next(s, step), t) {
      assert !Stale(s, t);
    }
  }

  ghost predicate HasTimer(s: State, id: Id) {
    exists t :: t in s.armed && s.armed[t] == id
  }

  /** Stopping an execution leaves no timer that would start it, exactly if none was stale. */
  lemma StopSilencesUnlessStale(s: State, id: Id)
    requires Inv(s)
    ensures HasTimer(Next(s, Stop(id)), id) <==> exists t :: t in s.armed && s.armed[t] == id && Stale(s, t)
  {
    var s' := Next(s, Stop(id));
    if HasTimer(s', id) {
      var t :| t in s'.armed && s'.armed[t] == id;
      assert t in s.armed && s.armed[t] == id && Stale(s, t);
    }
    if exists t :: t in s.armed && s.armed[t] == id && Stale(s, t) {
      var t :| t in s.armed && s.armed[t] == id && Stale(s, t);
      assert t in s'.armed && s'.armed[t] == id;
    }
  }

  ghost predicate NeverStartsArmed(s: State, steps: seq<Step>)
    decreases |steps|
  {
    steps == [] || (!StartsArmed(s, steps[0]) && NeverStartsArmed(Next(s, steps[0]), steps[1..]))
  }

  lemma {:induction false} NoStaleAlong(s: State, steps: seq<Step>)
    requires Inv(s) && NoStale(s) && NeverStartsArmed(s, steps)
    ensures Inv(Run(s, steps)) && NoStale(Run(s, steps))
    decreases |steps|
  {
    if steps != [] {
      NextInv(s, steps[0]);
      StaleTimersAriseExactlyByDirectStart(s, steps[0]);
      NoStaleAlong(Next(s, steps[0]), steps[1..]);
    }
  }

  /**
   In every run in which no execution is started directly while its timer is armed, an execution
   has at most one timer, and none once it is stopped.
   */
  lemma OneTimerPerExecution(steps: seq<Step>, t: nat, u: nat, id: Id)
    requires NeverStartsArmed(Init(), steps)
    ensures var s := Run(Init(), steps);
      && (t in s.armed && u in s.armed && s.armed[t] == s.armed[u] ==> t == u)
      && !HasTimer(Next(s, Stop(id)), id)
  {
    NoStaleAlong(Init(), steps);
    var s := Run(Init(), steps);
    if t in s.armed && u in s.armed { assert !Stale(s, t) && !Stale(s, u); }
    StopSilencesUnlessStale(s, id);
  }

  /** From any reachable state, such a start followed by a poll that finds the execution waiting arms two timers. */
  lemma DirectStartThenPollArmsTwice(s: State, id: Id)
    requires Inv(s) && StartsArmed(s, Start(id))
    ensures var s' := Next(Next(s, Start(id)), Poll([id]));
      && s.tracked[id] in s'.armed && s.nextTimer in s'.armed && s.tracked[id] != s.nextTimer
      && s'.armed[s.tracked[id]] == s'.armed[s.nextTimer] == id
  {
    var started := Next(s, Start(id));
    assert [id][1..] == [];
    assert TrackAll(started, [id]) == TrackAll(Track(started, id), []);
  }

  // ---------- Stranded entries ----------

  /** A tracked execution whose timer will never fire. */
  predicate Stranded(s: State, id: Id) {
    id in s.tracked && s.tracked[id] !in s.armed
  }

  lemma {:induction false} TrackAllOutcome(s: State, ids: seq<Id>, id: Id)
    requires Inv(s)
    ensures var s' := TrackAll(s, ids);
      && (Stranded(s, id) ==> Stranded(s', id) && s'.tracked[id] == s.tracked[id])
      && (id in s.tracked && !Stranded(s, id) ==> id in s'.tracked && !Stranded(s', id))
      && (id in ids && id !in s.tracked ==> id in s'.tracked && !Stranded(s', id))
    decreases |ids|
  {
    if ids != [] {
      TrackAllInv(s, [ids[0]]);
      assert TrackAll(s, [ids[0]]) == Track(s, ids[0]) by { assert [ids[0]][1..] == []; }
      TrackAllOutcome(Track(s, ids[0]), ids[1..], id);
    }
  }

  /** After a poll that found it, a waiting execution has a live timer exactly if it was not stranded before. */
  lemma PollArmsExactlyUnlessStranded(s: State, found: seq<Id>, id: Id)
    requires Inv(s) && id in found
    ensures id in Next(s, Poll(found)).tracked && (Stranded(Next(s, Poll(found)), id) <==> Stranded(s, id))
  {
    TrackAllOutcome(s, found, id);
  }

  /** The only steps that free a stranded entry: its own start or stop, or a stale timer of its execution. */
  predicate Frees(s: State, step: Step, id: Id) {
    (step == Start(id)) || (step == Stop(id)) || (step.Fire? && step.timer in s.armed && s.armed[step.timer] == id)
  }

  ghost predicate NeverFreed(s: State, steps: seq<Step>, id: Id)
    decreases |steps|
  {
    steps == [] || (!Frees(s, steps[0], id) && NeverFreed(Next(s, steps[0]), steps[1..], id))
  }

  /** However often the leadership changes and the database is polled, a stranded execution gets no timer. */
  lemma {:induction false} StrandedUntilFreed(s: State, steps: seq<Step>, id: Id)
    requires Inv(s) && Stranded(s, id) && NeverFreed(s, steps, id)
    ensures Stranded(Run(s, steps), id)
    decreases |steps|
  {
    if steps != [] {
      if steps[0].Poll? { TrackAllOutcome(s, steps[0].found, id); }
      NextInv(s, steps[0]);
      StrandedUntilFreed(Next(s, steps[0]), steps[1..], id);
    }
  }

  lemma {:induction false} RunInv(s: State, steps: seq<Step>)
    requires Inv(s)
    ensures Inv(Run(s, steps))
    decreases |steps|
  {
    if steps != [] {
      NextInv(s, steps[0]);
      RunInv(Next(s, steps[0]), steps[1..]);
    }
  }

  /**
   In every run, whatever is tracked when the leadership is lost is stranded from then on, through
   any polls and changes of leadership, until its own start or stop or a stale timer frees it.
   */
  lemma StepDownStrandsUntilFreed(before: seq<Step>, steps: seq<Step>, id: Id)
    requires Run(Init(), before).polled && id in Run(Init(), before).tracked
    requires NeverFreed(Next(Run(Init(), before), StepDown), steps, id)
    ensures Stranded(Run(Next(Run(Init(), before), StepDown), steps), id)
  {
    var s := Run(Init(), before);
    RunInv(Init(), before);
    NextInv(s, StepDown);
    assert s.tracked[id] in s.tracked.Values;
    StrandedUntilFreed(Next(s, StepDown), steps, id);
  }

  // ---------- The tracker ----------

  class Tracker {
    var waitingExecutions: map<Id, nat>
    var armed: map<nat, Id>
    var nextTimer: nat
    var polled: bool

    ghost function Abs(): State
      reads this
    {
      State(waitingExecutions, armed, nextTimer, polled)
    }

    constructor ()
      ensures Abs() == Init() && Inv(Abs())
    {
      waitingExecutions, armed, nextTimer, polled := map[], map[], 0, false;
    }

    method StartTracking()
      modifies this`polled
      ensures Abs() == Next(old(Abs()), TakeOver)
    {
      polled := true;
    }

    method GetWaitingExecutions(found: seq<Id>)
      modifies this
      ensures Abs() == Next(old(Abs()), Poll(found))
    {
      var i := 0;
      while i < |found|
        invariant i <= |found| && TrackAll(Abs(), found[i..]) == TrackAll(old(Abs()), found)
      {
        assert found[i..][0] == found[i] && found[i..][1..] == found[i + 1..];
        if found[i] !in waitingExecutions {
          waitingExecutions := waitingExecutions[found[i] := nextTimer];
          armed := armed[nextTimer := found[i]];
          nextTimer := nextTimer + 1;
        }
        i := i + 1;
      }
    }

    method StopExecution(id: Id)
      modifies this`armed, this`waitingExecutions
      ensures Abs() == Next(old(Abs()), Stop(id))
    {
      if id !in waitingExecutions {
        return;
      }
      armed := armed - {waitingExecutions[id]};
      waitingExecutions := waitingExecutions - {id};
    }

    /** The tracked part of starting an execution; its timer, if any, stays armed. */
    method StartExecution(id: Id)
      modifies this`waitingExecutions
      ensures Abs() == Next(old(Abs()), Start(id))
    {
      waitingExecutions := waitingExecutions - {id};
    }

    method OnTimer(timer: nat)
      requires timer in armed
      modifies this`armed, this`waitingExecutions
      ensures Abs() == Next(old(Abs()), Fire(timer))
    {
      var id := armed[timer];
      armed := armed - {timer};
      StartExecution(id);
    }

    method StopTracking()
      modifies this`armed
      ensures Abs() == Next(old(Abs()), StepDown)
    {
      if !polled {
        return;
      }
      var todo := waitingExecutions.Keys;
      ghost var cleared: set<nat> := {};
      while todo != {}
        invariant todo <= waitingExecutions.Keys
        invariant cleared == set id | id in waitingExecutions && id !in todo :: waitingExecutions[id]
        invariant armed == old(armed) - cleared
        decreases todo
      {
        var id :| id in todo;
        armed := armed - {waitingExecutions[id]};
        cleared := cleared + {waitingExecutions[id]};
        todo := todo - {id};
      }
      assert cleared == waitingExecutions.Values;
    }
  }

  // ---------- Bounded retry ----------

  datatype Attempt = Success | Failure(error: string, retryable: bool)

  predicate Retries(a: Attempt) {
    a.Failure? && a.retryable
  }

  /** Runs `operation`, whose `k`-th call (from 1) has outcome `operation(k)`; `slept` is the total backoff in ms. */
  method WithRetry(operation: nat -> Attempt, maxAttempts: int) returns (result: Attempt, calls: nat, slept: nat)
    ensures 1 <= calls && calls <= if maxAttempts > 1 then maxAttempts else 1
    ensures result == operation(calls)
    ensures forall k :: 1 <= k < calls ==> Retries(operation(k))
    ensures Retries(result) ==> calls >= maxAttempts
    ensures slept == 100 * (Pow2(calls - 1) - 1)
    ensures maxAttempts >= 1 ==> slept <= 100 * (Pow2(maxAttempts - 1) - 1)
    ensures maxAttempts >= 1 && (forall k :: 1 <= k <= maxAttempts ==> Retries(operation(k))) ==>
        calls == maxAttempts && slept == 100 * (Pow2(maxAttempts - 1) - 1)
  {
    calls := 1;
    slept := 0;
    while true
      invariant calls >= 1 && (calls > 1 ==> calls <= maxAttempts)
      invariant forall k :: 1 <= k < calls ==> Retries(operation(k))
      invariant slept == 100 * (Pow2(calls - 1) - 1)
      decreases maxAttempts - calls
    {
      result := operation(calls);
      if result.Success? || calls >= maxAttempts || !result.retryable {
        if maxAttempts >= 1 { Pow2Monotone(calls - 1, maxAttempts - 1); }
        return;
      }
      slept := slept + 100 * Pow2(calls - 1);
      calls := calls + 1;
    }
  }

  const MAX_PARENT_RESUME_ATTEMPTS := 3

  datatype ChildResult = NoResult | ChildWaiting | Completed

  /**
   Patches and then starts the parent, each with its own retries. It never rejects: a failure is
   logged, and the parent is started only after a patch attempt that returned.
   */
  method ResumeParentExecution(child: ChildResult, patch: nat -> Attempt, start: nat -> Attempt)
    returns (logged: bool, patchCalls: nat, startCalls: nat)
    ensures !child.Completed? ==> !logged && patchCalls == 0 && startCalls == 0
    ensures child.Completed? ==> 1 <= patchCalls <= 3 && startCalls <= 3
    ensures child.Completed? ==> (startCalls > 0 <==> patch(patchCalls).Success?)
    ensures child.Completed? ==> (!logged <==> startCalls > 0 && start(startCalls).Success?)
    ensures forall k :: 1 <= k < patchCalls ==> patch(k).Failure? && patch(k).retryable
    ensures forall k :: 1 <= k < startCalls ==> start(k).Failure? && start(k).retryable
    ensures logged && startCalls == 0 ==>
        patchCalls == 3 || (patch(patchCalls).Failure? && !patch(patchCalls).retryable)
    ensures logged && startCalls > 0 ==>
        startCalls == 3 || (start(startCalls).Failure? && !start(startCalls).retryable)
  {
    logged, patchCalls, startCalls := false, 0, 0;
    if !child.Completed? {
      return;
    }
    var result, slept;
    result, patchCalls, slept := WithRetry(patch, MAX_PARENT_RESUME_ATTEMPTS);
    if result.Success? {
      result, startCalls, slept := WithRetry(start, MAX_PARENT_RESUME_ATTEMPTS);
    }
    logged := !result.Success?;
  }
}
