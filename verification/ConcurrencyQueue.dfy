/**
 The queue behind the production concurrency limit. Only `capacity` and `queue` exist in the
 source; `running` and `admitted` record which executions were let through.
 */
module ConcurrencyQueue {

  type Id = string

  datatype State = State(capacity: int, queue: seq<Id>, running: int, admitted: seq<Id>)

  datatype Step = Enqueue(id: Id) | Dequeue | Remove(id: Id)

  function Init(limit: nat): State {
    State(limit, [], 0, [])
  }

  function ResolveNext(s: State): State {
    if s.queue == [] then s
    else s.(queue := s.queue[1..], running := s.running + 1, admitted := s.admitted + [s.queue[0]])
  }

  function Without(queue: seq<Id>, id: Id): seq<Id> {
    if queue == [] then []
    else if queue[0] == id then queue[1..]
    else [queue[0]] + Without(queue[1..], id)
  }

  function Next(s: State, step: Step): State {
    match step
    case Enqueue(id) =>
      if s.capacity - 1 < 0 then s.(capacity := s.capacity - 1, queue := s.queue + [id])
      else s.(capacity := s.capacity - 1, running := s.running + 1, admitted := s.admitted + [id])
    case Dequeue => ResolveNext(s.(capacity := s.capacity + 1, running := s.running - 1))
    case Remove(id) =>
      if id in s.queue then ResolveNext(s.(capacity := s.capacity + 1, queue := Without(s.queue, id))) else s
  }

  function Run(s: State, steps: seq<Step>): State
    decreases |steps|
  {
    if steps == [] then s else Run(Next(s, steps[0]), steps[1..])
  }

  ghost predicate Balanced(s: State, limit: nat) {
    s.capacity == limit - s.running - |s.queue|
  }

  /** At most `limit` executions run, and one waits only while that many run. */
  ghost predicate Bounded(s: State, limit: nat) {
    s.running <= limit && (s.queue != [] ==> s.running == limit)
  }

  lemma {:induction false} WithoutSize(queue: seq<Id>, id: Id)
    requires id in queue
    ensures |Without(queue, id)| == |queue| - 1
  {
    if queue[0] != id { WithoutSize(queue[1..], id); }
  }

  lemma {:induction false} WithoutAt(queue: seq<Id>, id: Id, index: nat)
    requires index < |queue| && queue[index] == id && id !in queue[..index]
    ensures Without(queue, id) == queue[..index] + queue[index + 1..]
  {
    if index > 0 {
      assert queue[..index][0] == queue[0];
      assert queue[1..][..index - 1] == queue[..index][1..];
      WithoutAt(queue[1..], id, index - 1);
      assert queue[..index] == [queue[0]] + queue[1..][..index - 1];
      assert queue[1..][index..] == queue[index + 1..];
    }
  }

  lemma NextBalanced(s: State, limit: nat, step: Step)
    requires Balanced(s, limit)
    ensures Balanced(Next(s, step), limit)
  {
    if step.Remove? && step.id in s.queue { WithoutSize(s.queue, step.id); }
  }

  /**
   Every step keeps the limit except one: removing a queued execution while another one is queued
   lets the next one through although no running execution finished.
   */
  lemma LimitKeptExactlyUnlessRemoveAdmits(s: State, limit: nat, step: Step)
    requires Balanced(s, limit) && Bounded(s, limit)
    ensures Bounded(Next(s, step), limit) <==> !(step.Remove? && step.id in s.queue && |s.queue| > 1)
  {
    if step.Remove? && step.id in s.queue { WithoutSize(s.queue, step.id); }
  }

  function Arrivals(steps: seq<Step>): seq<Id> {
    if steps == [] then []
    else (if steps[0].Enqueue? then [steps[0].id] else []) + Arrivals(steps[1..])
  }

  /**
   Whatever is asked, the capacity accounts for everyone;
   without removals the limit holds and service is in order of arrival.
   */
  lemma {:induction false} ServedInOrderWithinLimit(s: State, limit: nat, steps: seq<Step>)
    requires Balanced(s, limit) && Bounded(s, limit)
    ensures Balanced(Run(s, steps), limit)
    ensures (forall k :: 0 <= k < |steps| ==> !steps[k].Remove?) ==>
      && Bounded(Run(s, steps), limit)
      && Run(s, steps).admitted + Run(s, steps).queue == s.admitted + s.queue + Arrivals(steps)
    decreases |steps|
  {
    if steps != [] {
      var s1 := Next(s, steps[0]);
      NextBalanced(s, limit, steps[0]);
      if forall k :: 0 <= k < |steps| ==> !steps[k].Remove? {
        assert !steps[0].Remove?;
        LimitKeptExactlyUnlessRemoveAdmits(s, limit, steps[0]);
        ServedInOrderWithinLimit(s1, limit, steps[1..]);
        var first: seq<Id> := if steps[0].Enqueue? then [steps[0].id] else [];
        assert s1.admitted + s1.queue == s.admitted + s.queue + first;
        assert s.admitted + s.queue + first + Arrivals(steps[1..])
           == s.admitted + s.queue + (first + Arrivals(steps[1..]));
      } else {
        RunBalanced(s1, limit, steps[1..]);
      }
    }
  }

  lemma {:induction false} RunBalanced(s: State, limit: nat, steps: seq<Step>)
    requires Balanced(s, limit)
    ensures Balanced(Run(s, steps), limit)
    decreases |steps|
  {
    if steps != [] {
      NextBalanced(s, limit, steps[0]);
      RunBalanced(Next(s, steps[0]), limit, steps[1..]);
    }
  }

  /** How many executions finished. */
  function Finished(steps: seq<Step>): nat {
    if steps == [] then 0 else (if steps[0].Dequeue? then 1 else 0) + Finished(steps[1..])
  }

  /** The executions that were taken out of the queue before their turn. */
  function Removed(s: State, steps: seq<Step>): multiset<Id>
    decreases |steps|
  {
    if steps == [] then multiset{}
    else (if steps[0].Remove? && steps[0].id in s.queue then multiset{steps[0].id} else multiset{})
         + Removed(Next(s, steps[0]), steps[1..])
  }

  /** Everyone who is somewhere. */
  ghost function Everyone(s: State): multiset<Id> {
    multiset(s.admitted) + multiset(s.queue)
  }

  lemma {:induction false} WithoutMembers(queue: seq<Id>, id: Id)
    requires id in queue
    ensures multiset(queue) == multiset(Without(queue, id)) + multiset{id}
  {
    assert queue == [queue[0]] + queue[1..];
    if queue[0] != id { WithoutMembers(queue[1..], id); }
  }

  lemma ResolveKeepsEveryone(s: State)
    ensures Everyone(ResolveNext(s)) == Everyone(s)
    ensures |ResolveNext(s).admitted| - ResolveNext(s).running == |s.admitted| - s.running
  {
    if s.queue != [] { assert s.queue == [s.queue[0]] + s.queue[1..]; }
  }

  lemma OneStep(s: State, step: Step)
    ensures Removed(s, [step]) == if step.Remove? && step.id in s.queue then multiset{step.id} else multiset{}
    ensures multiset(Arrivals([step])) == if step.Enqueue? then multiset{step.id} else multiset{}
  {
    assert [step][1..] == [];
    assert Arrivals([step][1..]) == [];
    assert Arrivals([step]) == if step.Enqueue? then [step.id] else [];
  }

  lemma EnqueueAccounts(s: State, id: Id)
    ensures Everyone(Next(s, Enqueue(id))) == Everyone(s) + multiset{id}
  {
  }

  lemma RemoveAccounts(s: State, id: Id)
    requires id in s.queue
    ensures Everyone(Next(s, Remove(id))) + multiset{id} == Everyone(s)
  {
    WithoutMembers(s.queue, id);
    ResolveKeepsEveryone(s.(capacity := s.capacity + 1, queue := Without(s.queue, id)));
  }

  lemma StepAccounts(s: State, step: Step)
    ensures Everyone(Next(s, step)) + Removed(s, [step]) == Everyone(s) + multiset(Arrivals([step]))
  {
    OneStep(s, step);
    match step
    case Enqueue(id) => EnqueueAccounts(s, id);
    case Dequeue => ResolveKeepsEveryone(s.(capacity := s.capacity + 1, running := s.running - 1));
    case Remove(id) => if id in s.queue { RemoveAccounts(s, id); }
  }

  lemma StepCountsRunning(s: State, step: Step)
    ensures var s' := Next(s, step);
      |s'.admitted| - s'.running == |s.admitted| - s.running + (if step.Dequeue? then 1 else 0)
  {
  }

  lemma SplitFirst(s: State, steps: seq<Step>)
    requires steps != []
    ensures Removed(s, steps) == Removed(s, [steps[0]]) + Removed(Next(s, steps[0]), steps[1..])
    ensures multiset(Arrivals(steps)) == multiset(Arrivals([steps[0]])) + multiset(Arrivals(steps[1..]))
  {
    assert [steps[0]][1..] == [];
    assert Arrivals(steps) == Arrivals([steps[0]]) + Arrivals(steps[1..]);
  }

  lemma {:induction false} RunAccounts(s: State, steps: seq<Step>)
    ensures |Run(s, steps).admitted| - Run(s, steps).running == |s.admitted| - s.running + Finished(steps)
    ensures Everyone(Run(s, steps)) + Removed(s, steps) == Everyone(s) + multiset(Arrivals(steps))
    decreases |steps|
  {
    if steps != [] {
      var s1, rest := Next(s, steps[0]), steps[1..];
      StepAccounts(s, steps[0]);
      StepCountsRunning(s, steps[0]);
      RunAccounts(s1, rest);
      SplitFirst(s, steps);
      AddBalances(Everyone(s), Everyone(s1), Everyone(Run(s1, rest)), Removed(s, [steps[0]]), Removed(s1, rest),
                  multiset(Arrivals([steps[0]])), multiset(Arrivals(rest)));
    }
  }

  lemma AddBalances(
    e0: multiset<Id>, e1: multiset<Id>, e2: multiset<Id>,
    r1: multiset<Id>, r2: multiset<Id>, a1: multiset<Id>, a2: multiset<Id>)
    requires e1 + r1 == e0 + a1 && e2 + r2 == e1 + a2
    ensures e2 + (r1 + r2) == e0 + (a1 + a2)
  {
    assert e2 + (r1 + r2) == (e2 + r2) + r1;
    assert (e1 + a2) + r1 == (e1 + r1) + a2;
  }

  /**
   In every run each execution that arrived was let through, is queued, or was taken out of the
   queue, and those that run are those let through less those that finished.
   */
  lemma EveryArrivalIsAccountedFor(limit: nat, steps: seq<Step>)
    ensures var s := Run(Init(limit), steps);
      && s.running == |s.admitted| - Finished(steps)
      && s.capacity == limit - s.running - |s.queue|
      && multiset(s.admitted) + multiset(s.queue) + Removed(Init(limit), steps) == multiset(Arrivals(steps))
  {
    RunAccounts(Init(limit), steps);
    RunBalanced(Init(limit), limit, steps);
  }

  lemma {:induction false} FirstIndex(queue: seq<Id>, id: Id) returns (index: nat)
    requires id in queue
    ensures index < |queue| && queue[index] == id && id !in queue[..index]
  {
    if queue[0] == id {
      index := 0;
    } else {
      var rest := FirstIndex(queue[1..], id);
      index := rest + 1;
      assert queue[..index] == [queue[0]] + queue[1..][..rest];
    }
  }

  /** The first occurrence leaves the queue, the others keep their order, and the next in line is let through. */
  lemma RemoveTakesTheFirst(s: State, id: Id) returns (i: nat)
    ensures id !in s.queue ==> Next(s, Remove(id)) == s
    ensures id in s.queue ==>
      && i < |s.queue| && s.queue[i] == id && id !in s.queue[..i]
      && var s', rest := Next(s, Remove(id)), s.queue[..i] + s.queue[i + 1..];
         if rest == [] then s'.queue == [] && s'.admitted == s.admitted
         else s'.queue == rest[1..] && s'.admitted == s.admitted + [rest[0]]
  {
    i := 0;
    if id in s.queue {
      i := FirstIndex(s.queue, id);
      WithoutAt(s.queue, id, i);
    }
  }

  class Queue {
    var capacity: int
    var queue: seq<Id>
    ghost var running: int
    ghost var admitted: seq<Id>

    ghost function Abs(): State
      reads this
    {
      State(capacity, queue, running, admitted)
    }

    constructor (limit: nat)
      ensures Abs() == Init(limit) && Balanced(Abs(), limit) && Bounded(Abs(), limit)
    {
      capacity, queue, running, admitted := limit, [], 0, [];
    }

    /** `throttled` says that the caller has to wait for its turn. */
    method Enqueue(id: Id) returns (throttled: bool)
      modifies this
      ensures Abs() == Next(old(Abs()), Step.Enqueue(id)) && (throttled <==> queue == old(queue) + [id])
    {
      capacity := capacity - 1;
      throttled := capacity < 0;
      if throttled {
        queue := queue + [id];
      } else {
        running, admitted := running + 1, admitted + [id];
      }
    }

    method Dequeue()
      modifies this
      ensures Abs() == Next(old(Abs()), Step.Dequeue)
    {
      capacity := capacity + 1;
      running := running - 1;
      ResolveFirst();
    }

    method Remove(id: Id)
      modifies this
      ensures Abs() == Next(old(Abs()), Step.Remove(id))
    {
      var index := 0;
      while index < |queue| && queue[index] != id
        invariant index <= |queue| && id !in queue[..index]
      {
        index := index + 1;
      }
      if index < |queue| {
        WithoutAt(queue, id, index);
        queue := queue[..index] + queue[index + 1..];
        capacity := capacity + 1;
        ResolveFirst();
      }
    }

    method ResolveFirst()
      modifies this`queue, this`running, this`admitted
      ensures Abs() == ResolveNext(old(Abs()))
    {
      if queue != [] {
        running, admitted := running + 1, admitted + [queue[0]];
        queue := queue[1..];
      }
    }
  }
}
