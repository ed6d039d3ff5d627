/**
 The executions active in one process: capacity reservations, the map of active executions, the
 promise each registration settles, and the finalizer attached to that promise.

 `add` is cut at its awaits into `Begin`, `Reserve` and then `Throw` or `Register`; everything
 else is one atomic step. A registration is the record captured by the finalizer's closure, so it
 outlives the map entry that refers to it; entries refer to registrations by index.
 */
module ActiveExecutions {

  type Id = string

  datatype Mode = Evaluation | Webhook | Trigger | Chat | Manual | Integrated | Retry | Cli | ErrorMode | Internal

  datatype Status = New | Running | Waiting | Success | Error | Canceled | Crashed | Unknown

  datatype Phase = Begun | Reserved | Returned | Thrown

  datatype Call = Call(id: Id, mode: Mode, phase: Phase, slot: bool)

  datatype Registration = Registration(id: Id, mode: Mode, status: Status, settled: bool, finalized: bool, slot: bool)

  datatype State = State(
    entries: map<Id, nat>,
    regs: seq<Registration>,
    responseModes: map<Id, string>,
    calls: seq<Call>,
    slots: int,
    regular: bool,
    enabled: bool,
    cancelledRows: set<Id>)

  datatype Step =
    | Begin(id: Id, mode: Mode)
    | Reserve(call: nat)
    | Throw(call: nat)
    | Register(call: nat)
    | SetStatus(id: Id, status: Status)
    | SetResponseMode(id: Id, responseMode: string)
    | FinalizeExecution(id: Id)
    | StopExecution(id: Id)
    | RunFinalizer(reg: nat)

  function Init(regular: bool, limited: bool): State {
    State(map[], [], map[], [], 0, regular, regular && limited, {})
  }

  // ---------- Steps ----------

  predicate Known(s: State, id: Id) {
    id in s.entries && s.entries[id] < |s.regs|
  }

  function Entry(s: State, id: Id): Registration
    requires Known(s, id)
  {
    s.regs[s.entries[id]]
  }

  function WithEntry(s: State, id: Id, r: Registration): State
    requires Known(s, id)
  {
    s.(regs := s.regs[s.entries[id] := r])
  }

  function Forget(s: State, id: Id): State {
    s.(entries := s.entries - {id}, responseModes := s.responseModes - {id})
  }

  function NewRegistration(call: Call): Registration {
    Registration(call.id, call.mode, Running, false, false, call.slot)
  }

  function Finalized(r: Registration): Registration {
    r.(finalized := true, slot := false)
  }

  predicate FinalizerDue(s: State, r: nat) {
    r < |s.regs| && s.regs[r].settled && !s.regs[r].finalized
  }

  function Stop(s: State, id: Id): State {
    if !Known(s, id) then s
    else if Entry(s, id).status == Waiting then Forget(s, id)
    else WithEntry(s, id, Entry(s, id).(settled := true))
  }

  function Next(s: State, step: Step): State {
    match step
    case Begin(id, mode) => s.(calls := s.calls + [Call(id, mode, Begun, false)])
    case Reserve(c) =>
      if c < |s.calls| && s.calls[c].phase == Begun then
        var slot := s.calls[c].mode != Evaluation;
        s.(calls := s.calls[c := s.calls[c].(phase := Reserved, slot := slot)],
            slots := if slot then s.slots + 1 else s.slots)
      else s
    case Throw(c) =>
      if c < |s.calls| && (s.calls[c].phase == Begun || s.calls[c].phase == Reserved) then
        s.(calls := s.calls[c := s.calls[c].(phase := Thrown, slot := false)],
           slots := if s.calls[c].slot then s.slots - 1 else s.slots)
      else s
    case Register(c) =>
      if c < |s.calls| && s.calls[c].phase == Reserved then
        s.(calls := s.calls[c := s.calls[c].(phase := Returned, slot := false)],
           regs := s.regs + [NewRegistration(s.calls[c])],
           entries := s.entries[s.calls[c].id := |s.regs|])
      else s
    case SetStatus(id, status) => if Known(s, id) then WithEntry(s, id, Entry(s, id).(status := status)) else s
    case SetResponseMode(id, mode) => s.(responseModes := s.responseModes[id := mode])
    case FinalizeExecution(id) => if Known(s, id) then WithEntry(s, id, Entry(s, id).(settled := true)) else s
    case StopExecution(id) => Stop(s, id)
    case RunFinalizer(r) =>
      if FinalizerDue(s, r) then
        var reg := s.regs[r];
        var released := s.(regs := s.regs[r := Finalized(reg)], slots := if reg.slot then s.slots - 1 else s.slots);
        if reg.status == Waiting then released else Forget(released, reg.id)
      else s
  }

  function Run(s: State, steps: seq<Step>): State
    decreases |steps|
  {
    if steps == [] then s else Run(Next(s, steps[0]), steps[1..])
  }

  // ---------- Invariant: capacity ----------

  function CallSlots(calls: seq<Call>): nat {
    if calls == [] then 0
    else CallSlots(calls[..|calls| - 1]) + (if calls[|calls| - 1].slot then 1 else 0)
  }

  function RegSlots(regs: seq<Registration>): nat {
    if regs == [] then 0
    else RegSlots(regs[..|regs| - 1]) + (if regs[|regs| - 1].slot then 1 else 0)
  }

  lemma {:induction false} CallSlotsUpdate(calls: seq<Call>, i: nat, c: Call)
    requires i < |calls|
    ensures CallSlots(calls[i := c]) == CallSlots(calls) - (if calls[i].slot then 1 else 0) + (if c.slot then 1 else 0)
  {
    var n := |calls| - 1;
    if i == n {
      assert calls[i := c][..n] == calls[..n];
    } else {
      assert calls[i := c][..n] == calls[..n][i := c];
      CallSlotsUpdate(calls[..n], i, c);
    }
  }

  lemma {:induction false} RegSlotsUpdate(regs: seq<Registration>, i: nat, r: Registration)
    requires i < |regs|
    ensures RegSlots(regs[i := r]) == RegSlots(regs) - (if regs[i].slot then 1 else 0) + (if r.slot then 1 else 0)
  {
    var n := |regs| - 1;
    if i == n {
      assert regs[i := r][..n] == regs[..n];
    } else {
      assert regs[i := r][..n] == regs[..n][i := r];
      RegSlotsUpdate(regs[..n], i, r);
    }
  }

  ghost predicate CallOk(c: Call) {
    c.slot <==> c.phase == Reserved && c.mode != Evaluation
  }

  ghost predicate RegOk(r: Registration) {
    (r.slot <==> r.mode != Evaluation && !r.finalized) && (r.finalized ==> r.settled)
  }

  ghost predicate Inv(s: State) {
    && (forall id :: id in s.entries ==> s.entries[id] < |s.regs| && s.regs[s.entries[id]].id == id)
    && (forall c :: 0 <= c < |s.calls| ==> CallOk(s.calls[c]))
    && (forall r :: 0 <= r < |s.regs| ==> RegOk(s.regs[r]))
    && s.slots == CallSlots(s.calls) + RegSlots(s.regs)
    && (s.enabled ==> s.regular)
  }

  lemma InitInv(regular: bool, limited: bool)
    ensures Inv(Init(regular, limited))
  {
  }

  /** One registration changes, the rest of the map at most shrinks. */
  lemma RegChangeInv(s: State, s': State, r: nat)
    requires Inv(s) && r < |s.regs| == |s'.regs|
    requires s'.regs == s.regs[r := s'.regs[r]] && s'.regs[r].id == s.regs[r].id && RegOk(s'.regs[r])
    requires s'.calls == s.calls && s'.enabled == s.enabled && s'.regular == s.regular
    requires forall id :: id in s'.entries ==> id in s.entries && s'.entries[id] == s.entries[id]
    requires s'.slots - s.slots == (if s'.regs[r].slot then 1 else 0) - (if s.regs[r].slot then 1 else 0)
    ensures Inv(s')
  {
    RegSlotsUpdate(s.regs, r, s'.regs[r]);
  }

  /** One call changes, and with it at most the slot it holds. */
  lemma CallChangeInv(s: State, s': State, c: nat)
    requires Inv(s) && c < |s.calls| == |s'.calls|
    requires s'.calls == s.calls[c := s'.calls[c]] && CallOk(s'.calls[c])
    requires s' == s.(calls := s'.calls, slots := s'.slots)
    requires s'.slots - s.slots == (if s'.calls[c].slot then 1 else 0) - (if s.calls[c].slot then 1 else 0)
    ensures Inv(s')
  {
    CallSlotsUpdate(s.calls, c, s'.calls[c]);
  }

  lemma RegisterInv(s: State, c: nat)
    requires Inv(s) && c < |s.calls| && s.calls[c].phase == Reserved
    ensures Inv(Next(s, Register(c)))
  {
    var s' := Next(s, Register(c));
    assert CallOk(s.calls[c]);
    CallSlotsUpdate(s.calls, c, s'.calls[c]);
    assert s'.regs[..|s.regs|] == s.regs;
  }

  lemma FinalizerInv(s: State, r: nat)
    requires Inv(s) && FinalizerDue(s, r)
    ensures Inv(Next(s, RunFinalizer(r)))
  {
    assert RegOk(s.regs[r]);
    RegChangeInv(s, Next(s, RunFinalizer(r)), r);
  }

  lemma NextInv(s: State, step: Step)
    requires Inv(s)
    ensures Inv(Next(s, step))
  {
    match step
    case Begin(_, _) => assert Next(s, step).calls[..|s.calls|] == s.calls;
    case Reserve(c) =>
      if c < |s.calls| && s.calls[c].phase == Begun { assert CallOk(s.calls[c]); CallChangeInv(s, Next(s, step), c); }
    case Throw(c) =>
      if c < |s.calls| && (s.calls[c].phase == Begun || s.calls[c].phase == Reserved) {
        CallChangeInv(s, Next(s, step), c);
      }
    case Register(c) => if c < |s.calls| && s.calls[c].phase == Reserved { RegisterInv(s, c); }
    case SetStatus(id, _) =>
      if Known(s, id) { assert RegOk(Entry(s, id)); RegChangeInv(s, Next(s, step), s.entries[id]); }
    case FinalizeExecution(id) =>
      if Known(s, id) { assert RegOk(Entry(s, id)); RegChangeInv(s, Next(s, step), s.entries[id]); }
    case StopExecution(id) =>
      if Known(s, id) { assert RegOk(Entry(s, id)); RegChangeInv(s, Next(s, step), s.entries[id]); }
    case RunFinalizer(r) => if FinalizerDue(s, r) { FinalizerInv(s, r); }
    case SetResponseMode(_, _) =>
  }

  lemma {:induction false} RunInv(s: State, steps: seq<Step>)
    requires Inv(s)
    ensures Inv(Run(s, steps))
    decreases |steps|
  {
    if steps != [] {
      NextInv(s, steps[0]);
      RunInv(Next(s, steps[0]), steps[1..]);
    }
  }

  /**
   In every reachable state the capacity in use is that of the `add` calls between reserving and
   their outcome, plus that of the non-evaluation registrations not yet finalized. A call that
   threw, and a finalized registration, hold nothing.
   */
  lemma CapacityIsConserved(regular: bool, limited: bool, steps: seq<Step>)
    ensures var s := Run(Init(regular, limited), steps);
      && s.slots == CallSlots(s.calls) + RegSlots(s.regs)
      && (forall c :: 0 <= c < |s.calls| ==>
           (s.calls[c].slot <==> s.calls[c].phase == Reserved && s.calls[c].mode != Evaluation))
      && (forall r :: 0 <= r < |s.regs| ==> (s.regs[r].slot <==> s.regs[r].mode != Evaluation && !s.regs[r].finalized))
  {
    InitInv(regular, limited);
    RunInv(Init(regular, limited), steps);
    var s := Run(Init(regular, limited), steps);
    assert forall c :: 0 <= c < |s.calls| ==> CallOk(s.calls[c]);
    assert forall r :: 0 <= r < |s.regs| ==> RegOk(s.regs[r]);
  }

  // ---------- The life of an execution ----------

  /** A registration that has settled stays settled, keeps its mode, and is finalized at most once. */
  lemma SettledStep(s: State, step: Step, r: nat)
    requires Inv(s) && r < |s.regs| && s.regs[r].settled
    ensures var s' := Next(s, step);
      && r < |s'.regs| && s'.regs[r].settled && s'.regs[r].mode == s.regs[r].mode && s'.regs[r].id == s.regs[r].id
      && (s.regs[r].finalized ==> s'.regs[r].finalized)
  {
  }

  lemma {:induction false} SettledForever(s: State, steps: seq<Step>, r: nat)
    requires Inv(s) && r < |s.regs| && s.regs[r].settled
    ensures var s' := Run(s, steps);
      && Inv(s') && r < |s'.regs| && s'.regs[r].settled
      && s'.regs[r].mode == s.regs[r].mode && s'.regs[r].id == s.regs[r].id
    decreases |steps|
  {
    if steps != [] {
      SettledStep(s, steps[0], r);
      NextInv(s, steps[0]);
      SettledForever(Next(s, steps[0]), steps[1..], r);
    }
  }

  /** A settled registration whose finalizer runs gives its slot back, and leaves the map unless it waits. */
  lemma FinalizerReleases(s: State, r: nat)
    requires Inv(s) && r < |s.regs| && s.regs[r].settled
    ensures var s', reg := Next(s, RunFinalizer(r)), s.regs[r];
      && |s'.regs| == |s.regs| && s'.regs[r].finalized && !s'.regs[r].slot
      && (if reg.finalized then s' == s
          else
            && s'.slots == s.slots - (if reg.mode != Evaluation then 1 else 0)
            && (forall id :: id in s'.entries <==> id in s.entries && (id != reg.id || reg.status == Waiting)))
  {
    assert RegOk(s.regs[r]);
  }

  /**
   Finalizing an execution that does not wait, or stopping it, makes its finalizer due: whatever
   happens in between, once that runs the registration holds no slot, and if it is the first to
   run, the slot is given back then and the execution leaves the map.
   */
  lemma FinalizedExecutionLeaves(s: State, id: Id, ends: Step, between: seq<Step>)
    requires Inv(s) && Known(s, id) && Entry(s, id).status != Waiting
    requires ends == FinalizeExecution(id) || ends == StopExecution(id)
    ensures var r := s.entries[id];
      var s1 := Run(Next(s, ends), between);
      var s2 := Next(s1, RunFinalizer(r));
      && r < |s1.regs| && r < |s2.regs| && s2.regs[r].finalized && !s2.regs[r].slot
      && (!s1.regs[r].finalized ==> s2.slots == s1.slots - (if Entry(s, id).mode != Evaluation then 1 else 0))
      && (!s1.regs[r].finalized && s1.regs[r].status != Waiting ==> id !in s2.entries)
  {
    var r := s.entries[id];
    NextInv(s, ends);
    assert Next(s, ends).regs[r].settled;
    SettledForever(Next(s, ends), between, r);
    FinalizerReleases(Run(Next(s, ends), between), r);
  }

  /** The same at once, in every run: the execution that ends is gone and its slot is free. */
  lemma EndingFreesTheSlot(regular: bool, limited: bool, steps: seq<Step>, id: Id, ends: Step)
    requires var s := Run(Init(regular, limited), steps);
      Known(s, id) && Entry(s, id).status != Waiting && !Entry(s, id).finalized
    requires ends == FinalizeExecution(id) || ends == StopExecution(id)
    ensures var s := Run(Init(regular, limited), steps);
      var s' := Run(Init(regular, limited), steps + [ends, RunFinalizer(s.entries[id])]);
      && s'.slots == s.slots - (if Entry(s, id).mode != Evaluation then 1 else 0)
      && (forall other :: other in s'.entries <==> other in s.entries && other != id)
  {
    var init := Init(regular, limited);
    var s := Run(init, steps);
    var r := s.entries[id];
    InitInv(regular, limited);
    RunInv(init, steps);
    NextInv(s, ends);
    RunAppend(init, steps, ends);
    RunAppend(init, steps + [ends], RunFinalizer(r));
    assert steps + [ends] + [RunFinalizer(r)] == steps + [ends, RunFinalizer(r)];
    FinalizerReleases(Next(s, ends), r);
    assert Next(s, ends).regs[r].id == id && Next(s, ends).entries == s.entries;
  }

  /** Stopping an execution that waits removes it at once, and settles nothing. */
  lemma StopDropsTheWaiting(s: State, id: Id)
    requires Inv(s) && Known(s, id) && Entry(s, id).status == Waiting
    ensures var s' := Next(s, StopExecution(id));
      s'.entries == s.entries - {id} && id !in s'.responseModes && s'.regs == s.regs && s'.slots == s.slots
  {
  }

  /** A call to `add` that throws leaves the capacity and the map as they were when it began. */
  lemma ThrownAddLeavesNothing(s: State, id: Id, mode: Mode, reserved: bool)
    requires Inv(s)
    ensures var c := |s.calls|;
      var begun := Next(s, Begin(id, mode));
      var s' := Next(if reserved then Next(begun, Reserve(c)) else begun, Throw(c));
      && s'.slots == s.slots && s'.entries == s.entries && s'.regs == s.regs
      && |s'.calls| == c + 1 && s'.calls[c] == Call(id, mode, Thrown, false)
  {
  }

  /** One that returns has put a running registration into the map, in place of any other of its id. */
  lemma ReturnedAddRuns(s: State, id: Id, mode: Mode)
    requires Inv(s)
    ensures var c := |s.calls|;
      var s' := Next(Next(Next(s, Begin(id, mode)), Reserve(c)), Register(c));
      && s'.entries == s.entries[id := |s.regs|] && |s'.regs| == |s.regs| + 1
      && s'.regs[|s.regs|].status == Running && !s'.regs[|s.regs|].settled && s'.regs[|s.regs|].mode == mode
      && s'.slots == s.slots + (if mode != Evaluation then 1 else 0)
  {
  }

  /** A status and a response mode are read back as they were set, and say nothing of other executions. */
  lemma SettersSet(s: State, id: Id, status: Status, responseMode: string)
    requires Inv(s)
    ensures var s' := Next(s, SetStatus(id, status));
      && s'.entries == s.entries && |s'.regs| == |s.regs|
      && (id in s.entries ==> s'.regs[s.entries[id]].status == status)
      && (forall r :: 0 <= r < |s.regs| && !(id in s.entries && s.entries[id] == r) ==> s'.regs[r] == s.regs[r])
    ensures var s' := Next(s, SetResponseMode(id, responseMode));
      s'.responseModes == s.responseModes[id := responseMode] && s'.entries == s.entries && s'.regs == s.regs
  {
  }

  // ---------- Orphans: registrations nobody can settle any more ----------

  predicate Reachable(s: State, r: nat)
    requires r < |s.regs|
  {
    s.regs[r].id in s.entries && s.entries[s.regs[r].id] == r
  }

  predicate Orphan(s: State, r: nat) {
    r < |s.regs| && !s.regs[r].settled && !Reachable(s, r)
  }

  ghost predicate NoOrphans(s: State) {
    forall r :: 0 <= r < |s.regs| ==> !Orphan(s, r)
  }

  lemma OrphanStays(s: State, step: Step, r: nat)
    requires Inv(s) && Orphan(s, r)
    ensures Orphan(Next(s, step), r) && Next(s, step).regs[r].mode == s.regs[r].mode
  {
  }

  /** An orphan keeps its capacity for ever: no later step of any kind settles or finalizes it. */
  lemma {:induction false} OrphanHoldsCapacityForever(s: State, steps: seq<Step>, r: nat)
    requires Inv(s) && Orphan(s, r)
    ensures Orphan(Run(s, steps), r)
    ensures Run(s, steps).regs[r].slot <==> s.regs[r].mode != Evaluation
    decreases |steps|
  {
    if steps == [] {
      assert RegOk(s.regs[r]);
    } else {
      OrphanStays(s, steps[0], r);
      NextInv(s, steps[0]);
      OrphanHoldsCapacityForever(Next(s, steps[0]), steps[1..], r);
    }
  }

  predicate Unsettled(s: State, id: Id) {
    Known(s, id) && !Entry(s, id).settled
  }

  /**
   The steps that orphan a registration: registering an id again before its promise settled,
   stopping a waiting execution before it settled, and the late finalizer of an earlier
   registration of the same id, which deletes the entry of its successor.
   */
  predicate Strands(s: State, step: Step) {
    match step
    case Register(c) => c < |s.calls| && s.calls[c].phase == Reserved && Unsettled(s, s.calls[c].id)
    case StopExecution(id) => Unsettled(s, id) && Entry(s, id).status == Waiting
    case RunFinalizer(r) => FinalizerDue(s, r) && s.regs[r].status != Waiting && Unsettled(s, s.regs[r].id)
    case _ => false
  }

  /** From a state without orphans, a step leads to one with orphans exactly if it is of that family. */
  lemma OrphansAriseExactlyByStranding(s: State, step: Step)
    requires Inv(s) && NoOrphans(s)
    ensures NoOrphans(Next(s, step)) <==> !Strands(s, step)
  {
    if Strands(s, step) {
      var id := if step.Register? then s.calls[step.call].id
                else if step.StopExecution? then step.id else s.regs[step.reg].id;
      StrandedEntryIsOrphan(s, step, id);
    } else {
      forall r | 0 <= r < |Next(s, step).regs| ensures !Orphan(Next(s, step), r) {
        if r < |s.regs| { assert !Orphan(s, r); NotStrandedNotOrphan(s, step, r); }
      }
    }
  }

  lemma NotStrandedNotOrphan(s: State, step: Step, r: nat)
    requires Inv(s) && r < |s.regs| && !Orphan(s, r) && !Strands(s, step)
    ensures !Orphan(Next(s, step), r)
  {
    match step
    case Register(_) =>
    case StopExecution(_) =>
    case RunFinalizer(k) => FinalizerStrandsOnlyItsId(s, k, r);
    case _ =>
  }

  lemma FinalizerStrandsOnlyItsId(s: State, k: nat, r: nat)
    requires Inv(s) && r < |s.regs| && !Orphan(s, r) && !Strands(s, RunFinalizer(k))
    ensures !Orphan(Next(s, RunFinalizer(k)), r)
  {
  }

  lemma StrandedEntryIsOrphan(s: State, step: Step, id: Id)
    requires Inv(s) && Strands(s, step)
    requires id == if step.Register? then s.calls[step.call].id
                   else if step.StopExecution? then step.id else s.regs[step.reg].id
    ensures Orphan(Next(s, step), s.entries[id])
  {
    assert s.regs[s.entries[id]].id == id;
  }

  ghost predicate NeverStrands(s: State, steps: seq<Step>)
    decreases |steps|
  {
    steps == [] || (!Strands(s, steps[0]) && NeverStrands(Next(s, steps[0]), steps[1..]))
  }

  lemma {:induction false} NoOrphansAlong(s: State, steps: seq<Step>)
    requires Inv(s) && NoOrphans(s)
    ensures NoOrphans(Run(s, steps)) <==> NeverStrands(s, steps)
    decreases |steps|
  {
    if steps != [] {
      var s' := Next(s, steps[0]);
      NextInv(s, steps[0]);
      OrphansAriseExactlyByStranding(s, steps[0]);
      if NoOrphans(s') {
        NoOrphansAlong(s', steps[1..]);
      } else {
        var r :| 0 <= r < |s'.regs| && Orphan(s', r);
        OrphanHoldsCapacityForever(s', steps[1..], r);
      }
    }
  }

  /**
   A run ends with a registration nobody can settle if and only if one of its steps is of that
   family, and then with capacity that no continuation gives back.
   */
  lemma CapacityIsLostExactlyByStranding(regular: bool, limited: bool, steps: seq<Step>)
    ensures var s := Run(Init(regular, limited), steps);
      && (NoOrphans(s) <==> NeverStrands(Init(regular, limited), steps))
      && (forall r, more :: 0 <= r < |s.regs| && Orphan(s, r) && s.regs[r].mode != Evaluation ==>
            Orphan(Run(s, more), r) && Run(s, more).regs[r].slot)
  {
    var s := Run(Init(regular, limited), steps);
    InitInv(regular, limited);
    RunInv(Init(regular, limited), steps);
    NoOrphansAlong(Init(regular, limited), steps);
    forall r, more | 0 <= r < |s.regs| && Orphan(s, r) && s.regs[r].mode != Evaluation
      ensures Orphan(Run(s, more), r) && Run(s, more).regs[r].slot
    {
      OrphanHoldsCapacityForever(s, more, r);
    }
  }

  /** The plainest such run: an execution is stopped after it was set to waiting and before its run ended. */
  lemma StoppingTheWaitingLosesCapacity(id: Id, regular: bool, limited: bool) returns (steps: seq<Step>)
    ensures var s := Run(Init(regular, limited), steps);
      |s.regs| == 1 && Orphan(s, 0) && s.regs[0].slot && s.slots == 1 && s.entries == map[]
  {
    steps := RunAlone(id, regular, limited);
    RunAppend(Init(regular, limited), steps, SetStatus(id, Waiting));
    steps := steps + [SetStatus(id, Waiting)];
    RunAppend(Init(regular, limited), steps, StopExecution(id));
    steps := steps + [StopExecution(id)];
  }

  /** A first execution is added and runs. */
  lemma RunAlone(id: Id, regular: bool, limited: bool) returns (steps: seq<Step>)
    ensures var init, call := Init(regular, limited), Call(id, Webhook, Returned, false);
      Run(init, steps) == init.(calls := [call], slots := 1, entries := map[id := 0],
                                regs := [Registration(id, Webhook, Running, false, false, true)])
    ensures ByCallers(steps)
  {
    var init := Init(regular, limited);
    RunAppend(init, [], Begin(id, Webhook));
    steps := [] + [Begin(id, Webhook)];
    RunAppend(init, steps, Reserve(0));
    steps := steps + [Reserve(0)];
    RunAppend(init, steps, Register(0));
    steps := steps + [Register(0)];
  }

  /** Whatever step removes an id from the map, other than a shutdown, also forgets its response mode. */
  lemma LeavingForgetsResponseMode(s: State, step: Step, id: Id)
    requires Inv(s) && id in s.entries && id !in Next(s, step).entries
    ensures id !in Next(s, step).responseModes
    ensures step == StopExecution(id) || (step.RunFinalizer? && FinalizerDue(s, step.reg) && s.regs[step.reg].id == id)
  {
    match step
    case StopExecution(_) =>
    case RunFinalizer(_) =>
    case _ =>
  }

  // ---------- Shutdown ----------

  predicate Dropped(s: State, cancelAll: bool, id: Id) {
    Known(s, id) && (Entry(s, id).status == Waiting || (!(s.regular && cancelAll) && Entry(s, id).status == New))
  }

  function AfterCancel(s: State, cancelAll: bool, done: set<Id>, r: nat): Registration
    requires r < |s.regs|
  {
    var reg := s.regs[r];
    if s.regular && cancelAll && reg.id in done && Reachable(s, r) && reg.status != Waiting
        then reg.(settled := true) else reg
  }

  /** The state after the first pass of a shutdown has visited the ids in `done`. */
  ghost function Visited(s: State, cancelAll: bool, done: set<Id>): State {
    var dropped := set id | id in s.entries && id in done && Dropped(s, cancelAll, id);
    s.(entries := s.entries - dropped,
       regs := seq(|s.regs|, r requires 0 <= r < |s.regs| => AfterCancel(s, cancelAll, done, r)),
       responseModes := if s.regular && cancelAll then s.responseModes - dropped else s.responseModes,
       enabled := s.enabled && !s.regular)
  }

  ghost function ShutdownBegun(s: State, cancelAll: bool): State {
    Visited(s, cancelAll, s.entries.Keys)
  }

  /**
   Who survives the first pass: never an execution that waits, a new one only if everything is
   cancelled, and every other one. Those that survive a cancellation of everything are settled.
   */
  lemma ShutdownSurvivors(s: State, cancelAll: bool, id: Id)
    requires Inv(s)
    ensures var s', all := ShutdownBegun(s, cancelAll), s.regular && cancelAll;
      && (id in s'.entries <==>
            id in s.entries && s.regs[s.entries[id]].status != Waiting && (s.regs[s.entries[id]].status == New ==> all))
      && |s'.regs| == |s.regs|
      && (id in s'.responseModes <==>
            id in s.responseModes && !(all && id in s.entries && s.regs[s.entries[id]].status == Waiting))
      && (s'.enabled <==> s.enabled && !s.regular)
      && (id in s'.entries ==>
            && s'.entries[id] == s.entries[id]
            && s'.regs[s.entries[id]].status == s.regs[s.entries[id]].status
            && (s'.regs[s.entries[id]].settled <==> all || s.regs[s.entries[id]].settled))
  {
    if id in s.entries { assert Reachable(s, s.entries[id]); }
  }

  /** The steps possible while shutting down: there is no new `add`. */
  predicate DrainStep(step: Step) {
    step.FinalizeExecution? || step.StopExecution? || step.RunFinalizer? || step.SetStatus?
  }

  /** A running execution begins to wait. */
  predicate StartsWaiting(step: Step) {
    step.SetStatus? && step.status == Waiting
  }

  /** An entry whose finalizer already ran and left it, being waiting then, though it no longer is. */
  predicate Zombie(s: State, id: Id) {
    Known(s, id) && Entry(s, id).finalized && Entry(s, id).status != Waiting
  }

  ghost predicate NoZombies(s: State) {
    forall id :: id in s.entries ==> !Zombie(s, id)
  }

  /** Zombies would arise exactly by giving a finalized waiting entry another status without registering it again. */
  lemma ZombiesAriseExactlyBySetStatus(s: State, step: Step)
    requires Inv(s) && NoZombies(s)
    ensures NoZombies(Next(s, step))
       <==> !(step.SetStatus? && Known(s, step.id) && Entry(s, step.id).finalized && step.status != Waiting)
  {
    var s' := Next(s, step);
    if step.SetStatus? {
      if Known(s, step.id) && Entry(s, step.id).finalized && step.status != Waiting {
        assert Zombie(s', step.id) && step.id in s'.entries;
      } else {
        forall id | id in s'.entries ensures !Zombie(s', id) {
          assert !Zombie(s, id);
        }
      }
    } else {
      NoNewZombies(s, step);
    }
  }

  lemma NoNewZombies(s: State, step: Step)
    requires Inv(s) && NoZombies(s) && !step.SetStatus?
    ensures NoZombies(Next(s, step))
  {
    forall id | id in Next(s, step).entries ensures !Zombie(Next(s, step), id) {
      NoNewZombie(s, step, id);
    }
  }

  lemma NoNewZombie(s: State, step: Step, id: Id)
    requires Inv(s) && !step.SetStatus? && id in Next(s, step).entries
    requires id in s.entries ==> !Zombie(s, id)
    ensures !Zombie(Next(s, step), id)
  {
    if id in s.entries { assert s.regs[s.entries[id]].id == id; }
    match step
    case Register(_) =>
    case StopExecution(_) =>
    case FinalizeExecution(_) =>
    case RunFinalizer(_) =>
    case _ =>
  }

  /** The callers of the service only ever set the status `waiting`. */
  predicate ByCallers(steps: seq<Step>) {
    forall k :: 0 <= k < |steps| && steps[k].SetStatus? ==> steps[k].status == Waiting
  }

  lemma {:induction false} NoZombiesAlong(s: State, steps: seq<Step>)
    requires Inv(s) && NoZombies(s) && ByCallers(steps)
    ensures NoZombies(Run(s, steps))
    decreases |steps|
  {
    if steps != [] {
      NextInv(s, steps[0]);
      ZombiesAriseExactlyBySetStatus(s, steps[0]);
      NoZombiesAlong(Next(s, steps[0]), steps[1..]);
    }
  }

  lemma {:induction false} RunKeepsMode(s: State, steps: seq<Step>)
    ensures Run(s, steps).regular == s.regular
    decreases |steps|
  {
    if steps != [] { RunKeepsMode(Next(s, steps[0]), steps[1..]); }
  }

  /** No run of the service's callers has a zombie. */
  lemma CallersMakeNoZombies(regular: bool, limited: bool, steps: seq<Step>)
    requires ByCallers(steps)
    ensures var s := Run(Init(regular, limited), steps); Inv(s) && NoZombies(s) && s.regular == regular
  {
    InitInv(regular, limited);
    RunInv(Init(regular, limited), steps);
    NoZombiesAlong(Init(regular, limited), steps);
    RunKeepsMode(Init(regular, limited), steps);
  }

  /** Every survivor is still to be finalized, and its finalizer will remove it. */
  ghost predicate Draining(s: State) {
    forall id :: id in s.entries ==> Known(s, id) && Entry(s, id).status != Waiting && !Entry(s, id).finalized
  }

  lemma ShutdownStartsDraining(s: State, cancelAll: bool)
    requires Inv(s) && NoZombies(s)
    ensures Draining(ShutdownBegun(s, cancelAll))
  {
    var s' := ShutdownBegun(s, cancelAll);
    forall id | id in s'.entries
      ensures Known(s', id) && Entry(s', id).status != Waiting && !Entry(s', id).finalized
    {
      assert !Zombie(s, id) && !Dropped(s, cancelAll, id);
    }
  }

  ghost predicate Within(a: map<Id, nat>, b: map<Id, nat>) {
    forall id :: id in a ==> id in b && a[id] == b[id]
  }

  lemma SettleKeepsDraining(s: State, id: Id, reg: Registration)
    requires Inv(s) && Draining(s) && Known(s, id) && reg.status != Waiting && !reg.finalized
    ensures Draining(WithEntry(s, id, reg))
  {
  }

  lemma FinalizerKeepsDraining(s: State, r: nat)
    requires Inv(s) && Draining(s) && FinalizerDue(s, r)
    ensures Draining(Next(s, RunFinalizer(r))) && Within(Next(s, RunFinalizer(r)).entries, s.entries)
  {
    var s' := Next(s, RunFinalizer(r));
    forall id | id in s'.entries
      ensures Known(s', id) && Entry(s', id).status != Waiting && !Entry(s', id).finalized
    {
      assert Known(s, id) && Entry(s, id).id == id;
      assert s.entries[id] != r;
    }
  }

  /** The population never grows while shutting down. */
  lemma DrainStepWithin(s: State, step: Step)
    requires Inv(s) && DrainStep(step)
    ensures Within(Next(s, step).entries, s.entries) && |Next(s, step).regs| == |s.regs|
  {
  }

  lemma {:induction false} DrainWithin(s: State, steps: seq<Step>)
    requires Inv(s) && forall k :: 0 <= k < |steps| ==> DrainStep(steps[k])
    ensures Within(Run(s, steps).entries, s.entries) && |Run(s, steps).regs| == |s.regs|
    decreases |steps|
  {
    if steps != [] {
      assert DrainStep(steps[0]);
      DrainStepWithin(s, steps[0]);
      NextInv(s, steps[0]);
      DrainWithin(Next(s, steps[0]), steps[1..]);
    }
  }

  /** Every survivor stays due to be removed, exactly unless one of them begins to wait. */
  lemma DrainingKeptExactlyUnlessWaiting(s: State, step: Step)
    requires Inv(s) && Draining(s) && DrainStep(step)
    ensures Draining(Next(s, step)) <==> !(StartsWaiting(step) && Known(s, step.id))
  {
    match step
    case SetStatus(id, status) =>
      if Known(s, id) {
        if status == Waiting { assert id in Next(s, step).entries && Entry(Next(s, step), id).status == Waiting; }
        else { SettleKeepsDraining(s, id, Entry(s, id).(status := status)); }
      }
    case FinalizeExecution(id) =>
      if Known(s, id) { SettleKeepsDraining(s, id, Entry(s, id).(settled := true)); }
    case StopExecution(id) =>
      if Known(s, id) { SettleKeepsDraining(s, id, Entry(s, id).(settled := true)); }
    case RunFinalizer(r) =>
      if FinalizerDue(s, r) { FinalizerKeepsDraining(s, r); }
  }

  /**
   While no survivor begins to wait, the population of the polling loop never grows, and once the
   finalizer of every survivor ran the map is empty.
   */
  lemma {:induction false} ShutdownDrains(s: State, steps: seq<Step>)
    requires Inv(s) && Draining(s)
    requires forall k :: 0 <= k < |steps| ==> DrainStep(steps[k]) && !StartsWaiting(steps[k])
    ensures var s' := Run(s, steps);
      && Within(s'.entries, s.entries) && |s'.regs| == |s.regs|
      && Draining(s')
      && ((forall id :: id in s.entries ==> s'.regs[s.entries[id]].finalized) ==> s'.entries == map[])
    decreases |steps|
  {
    if steps != [] {
      var s1 := Next(s, steps[0]);
      assert DrainStep(steps[0]) && !StartsWaiting(steps[0]);
      DrainStepWithin(s, steps[0]);
      DrainingKeptExactlyUnlessWaiting(s, steps[0]);
      NextInv(s, steps[0]);
      ShutdownDrains(s1, steps[1..]);
    }
    var s' := Run(s, steps);
    if s'.entries != map[] {
      var id :| id in s'.entries;
      assert !s'.regs[s'.entries[id]].finalized;
    }
  }

  /** The finalizers of the first `n` registrations, in order. */
  function FinalizersUpTo(n: nat): seq<Step> {
    if n == 0 then [] else FinalizersUpTo(n - 1) + [RunFinalizer(n - 1)]
  }

  lemma {:induction false} RunAppend(s: State, steps: seq<Step>, step: Step)
    ensures Run(s, steps + [step]) == Next(Run(s, steps), step)
    decreases |steps|
  {
    if steps == [] {
      assert steps + [step] == [step] && [step][1..] == [];
    } else {
      assert (steps + [step])[1..] == steps[1..] + [step];
      RunAppend(Next(s, steps[0]), steps[1..], step);
    }
  }

  lemma {:induction false} FinalizersFinalize(s: State, n: nat)
    requires n <= |s.regs|
    ensures var s' := Run(s, FinalizersUpTo(n));
      && |s'.regs| == |s.regs| && |FinalizersUpTo(n)| == n
      && (forall r :: 0 <= r < n && s.regs[r].settled ==> s'.regs[r].finalized)
      && (forall r :: 0 <= r < |s.regs| ==> s'.regs[r].settled == s.regs[r].settled)
      && (forall k :: 0 <= k < n ==> FinalizersUpTo(n)[k] == RunFinalizer(k))
  {
    if n > 0 {
      FinalizersFinalize(s, n - 1);
      RunAppend(s, FinalizersUpTo(n - 1), RunFinalizer(n - 1));
    }
  }

  /**
   With `cancelAll` in regular mode, after any run of the callers, every survivor is settled by the
   shutdown itself: running the finalizers that are due, and nothing else, empties the map.
   */
  lemma CancelAllNeedsNoCooperation(limited: bool, steps: seq<Step>)
    requires ByCallers(steps)
    ensures var s := Run(Init(true, limited), steps);
      Run(ShutdownBegun(s, true), FinalizersUpTo(|s.regs|)).entries == map[]
  {
    var s := Run(Init(true, limited), steps);
    CallersMakeNoZombies(true, limited, steps);
    var s1 := ShutdownBegun(s, true);
    ShutdownBegunInv(s, true);
    ShutdownStartsDraining(s, true);
    CancelAllSettles(s);
    FinalizersFinalize(s1, |s.regs|);
    ShutdownDrains(s1, FinalizersUpTo(|s.regs|));
  }

  lemma CancelAllSettles(s: State)
    requires Inv(s) && s.regular
    ensures var s1 := ShutdownBegun(s, true);
      |s1.regs| == |s.regs| && forall id :: id in s1.entries ==>
        s1.entries[id] < |s1.regs| && s1.regs[s1.entries[id]].settled
  {
    var s1 := ShutdownBegun(s, true);
    forall id | id in s1.entries ensures s1.entries[id] < |s1.regs| && s1.regs[s1.entries[id]].settled {
      assert !Dropped(s, true, id) && Reachable(s, s.entries[id]);
    }
  }

  lemma {:induction false} SameSlots(a: seq<Registration>, b: seq<Registration>)
    requires |a| == |b| && forall r :: 0 <= r < |a| ==> a[r].slot == b[r].slot
    ensures RegSlots(a) == RegSlots(b)
  {
    if a != [] { SameSlots(a[..|a| - 1], b[..|b| - 1]); }
  }

  lemma VisitedInv(s: State, cancelAll: bool, done: set<Id>)
    requires Inv(s)
    ensures Inv(Visited(s, cancelAll, done))
  {
    var s' := Visited(s, cancelAll, done);
    SameSlots(s.regs, s'.regs);
    forall r | 0 <= r < |s'.regs| ensures RegOk(s'.regs[r]) {
      assert RegOk(s.regs[r]);
    }
  }

  lemma ShutdownBegunInv(s: State, cancelAll: bool)
    requires Inv(s)
    ensures Inv(ShutdownBegun(s, cancelAll))
  {
    VisitedInv(s, cancelAll, s.entries.Keys);
  }

  // ---------- What blocks a shutdown ----------

  /** An entry its own finalizer will not remove, or no more. */
  predicate Lingers(s: State, id: Id) {
    Known(s, id) && (Entry(s, id).status == Waiting || Entry(s, id).finalized)
  }

  /** A stop of the waiting execution, or the late finalizer of an earlier registration of its id. */
  predicate Frees(s: State, step: Step, id: Id) {
    || (step == StopExecution(id) && Known(s, id) && Entry(s, id).status == Waiting)
    || (step.RunFinalizer? && FinalizerDue(s, step.reg) && s.regs[step.reg].id == id
        && s.regs[step.reg].status != Waiting)
  }

  ghost predicate NeverFreed(s: State, steps: seq<Step>, id: Id)
    decreases |steps|
  {
    steps == [] || (!Frees(s, steps[0], id) && NeverFreed(Next(s, steps[0]), steps[1..], id))
  }

  lemma LingersUnlessFreed(s: State, step: Step, id: Id)
    requires Inv(s) && Lingers(s, id) && DrainStep(step)
    requires Entry(s, id).finalized || !step.SetStatus? || step.status == Waiting
    ensures if Frees(s, step, id) then id !in Next(s, step).entries
            else Lingers(Next(s, step), id) && (Entry(s, id).finalized ==> Entry(Next(s, step), id).finalized)
  {
    match step
    case SetStatus(_, _) =>
    case FinalizeExecution(_) =>
    case StopExecution(_) =>
    case RunFinalizer(_) =>
  }

  /**
   Once a survivor begins to wait, or if a zombie survived, its entry stays in the map through all
   that happens during a shutdown, exactly unless one of these steps frees it.
   */
  lemma {:induction false} LingeringBlocksShutdown(s: State, steps: seq<Step>, id: Id)
    requires Inv(s) && Lingers(s, id)
    requires ByCallers(steps) || Entry(s, id).finalized
    requires forall k :: 0 <= k < |steps| ==> DrainStep(steps[k])
    ensures id in Run(s, steps).entries <==> NeverFreed(s, steps, id)
    decreases |steps|
  {
    if steps != [] {
      var s' := Next(s, steps[0]);
      assert DrainStep(steps[0]);
      NextInv(s, steps[0]);
      LingersUnlessFreed(s, steps[0], id);
      if Frees(s, steps[0], id) {
        DrainWithin(s', steps[1..]);
      } else {
        LingeringBlocksShutdown(s', steps[1..], id);
      }
    }
  }

  /**
   Such a run: an execution survives the first pass of a shutdown, then waits and ends its run.
   Its finalizer leaves the entry, and the map is not empty though nothing is left to be finalized.
   */
  lemma WaitingSurvivorBlocksShutdown(id: Id, regular: bool, limited: bool)
    returns (before: seq<Step>, during: seq<Step>)
    ensures var s := Run(ShutdownBegun(Run(Init(regular, limited), before), false), during);
      && ByCallers(before + during) && (forall k :: 0 <= k < |during| ==> DrainStep(during[k]))
      && s.entries == map[id := 0] && |s.regs| == 1 && s.regs[0].finalized && Lingers(s, id)
  {
    before := RunAlone(id, regular, limited);
    var alone := Run(Init(regular, limited), before);
    var s := ShutdownBegun(alone, false);
    assert s.regs == alone.regs && s.entries == alone.entries;
    during := [SetStatus(id, Waiting)];
    RunAppend(s, [], SetStatus(id, Waiting));
    assert [] + [SetStatus(id, Waiting)] == during;
    RunAppend(s, during, FinalizeExecution(id));
    during := during + [FinalizeExecution(id)];
    RunAppend(s, during, RunFinalizer(0));
    during := during + [RunFinalizer(0)];
    assert forall k :: 0 <= k < |before| ==> (before + during)[k] == before[k];
  }

  // ---------- The service ----------

  lemma {:induction false} RunConcat(s: State, a: seq<Step>, b: seq<Step>)
    ensures Run(s, a + b) == Run(Run(s, a), b)
    decreases |a|
  {
    if a == [] {
      assert a + b == b;
    } else {
      assert (a + b)[1..] == a[1..] + b;
      RunConcat(Next(s, a[0]), a[1..], b);
    }
  }

  /** What happens during the first polls of a shutdown. */
  ghost function During(rounds: seq<seq<Step>>): seq<Step> {
    if rounds == [] then [] else During(rounds[..|rounds| - 1]) + rounds[|rounds| - 1]
  }

  lemma {:induction false} DuringDrains(rounds: seq<seq<Step>>)
    requires forall i, k :: 0 <= i < |rounds| && 0 <= k < |rounds[i]| ==> DrainStep(rounds[i][k])
    ensures forall k :: 0 <= k < |During(rounds)| ==> DrainStep(During(rounds)[k])
  {
    if rounds != [] { DuringDrains(rounds[..|rounds| - 1]); }
  }

  function Disabled(s: State): State {
    s.(enabled := s.enabled && !s.regular)
  }

  lemma VisitNone(s: State, cancelAll: bool)
    ensures Visited(s, cancelAll, {}) == Disabled(s)
  {
    var v := Visited(s, cancelAll, {});
    assert v.entries == s.entries && v.regs == s.regs && v.responseModes == s.responseModes;
  }

  function Visit(s: State, cancelAll: bool, id: Id): State {
    if s.regular && cancelAll then Stop(s, id)
    else if Dropped(s, cancelAll, id) then s.(entries := s.entries - {id})
    else s
  }

  lemma VisitOne(s: State, cancelAll: bool, done: set<Id>, id: Id)
    requires Inv(s) && id in s.entries && id !in done
    ensures id in Visited(s, cancelAll, done).entries
    ensures Visit(Visited(s, cancelAll, done), cancelAll, id) == Visited(s, cancelAll, done + {id})
  {
    VisitOneEntries(s, cancelAll, done, id);
    VisitOneRegs(s, cancelAll, done, id);
  }

  lemma VisitOneEntries(s: State, cancelAll: bool, done: set<Id>, id: Id)
    requires Inv(s) && id in s.entries && id !in done
    ensures id in Visited(s, cancelAll, done).entries
    ensures var visited, after := Visit(Visited(s, cancelAll, done), cancelAll, id), Visited(s, cancelAll, done + {id});
      visited.entries == after.entries && visited.responseModes == after.responseModes
  {
    var before, after := Visited(s, cancelAll, done), Visited(s, cancelAll, done + {id});
    var visited := Visit(before, cancelAll, id);
    assert before.entries[id] == s.entries[id] && before.regs[s.entries[id]] == s.regs[s.entries[id]];
    assert Dropped(before, cancelAll, id) == Dropped(s, cancelAll, id);
    assert visited.entries == after.entries;
    assert visited.responseModes == after.responseModes;
  }

  lemma VisitOneRegs(s: State, cancelAll: bool, done: set<Id>, id: Id)
    requires Inv(s) && id in s.entries && id !in done
    ensures Visit(Visited(s, cancelAll, done), cancelAll, id).regs == Visited(s, cancelAll, done + {id}).regs
  {
    var before, after := Visited(s, cancelAll, done), Visited(s, cancelAll, done + {id});
    var visited := Visit(before, cancelAll, id);
    assert before.entries[id] == s.entries[id] && before.regs[s.entries[id]] == s.regs[s.entries[id]];
    forall r | 0 <= r < |s.regs| ensures visited.regs[r] == after.regs[r] {
    }
  }

  lemma VisitNext(s: State, cancelAll: bool, todo: set<Id>, id: Id)
    requires Inv(s) && id in todo && todo <= s.entries.Keys
    ensures id in Visited(s, cancelAll, s.entries.Keys - todo).entries
    ensures Visit(Visited(s, cancelAll, s.entries.Keys - todo), cancelAll, id)
         == Visited(s, cancelAll, s.entries.Keys - (todo - {id}))
  {
    assert s.entries.Keys - todo + {id} == s.entries.Keys - (todo - {id});
    VisitOne(s, cancelAll, s.entries.Keys - todo, id);
  }

  lemma PopulationShrinks(s: State, cancelAll: bool, steps: seq<Step>)
    requires Inv(s) && forall k :: 0 <= k < |steps| ==> DrainStep(steps[k])
    ensures Within(Run(ShutdownBegun(s, cancelAll), steps).entries, s.entries)
  {
    ShutdownBegunInv(s, cancelAll);
    DrainWithin(ShutdownBegun(s, cancelAll), steps);
    assert Within(ShutdownBegun(s, cancelAll).entries, s.entries);
  }

  class Executions {
    const regular: bool
    var activeExecutions: map<Id, nat>
    var registrations: seq<Registration>
    var responseModes: map<Id, string>
    var calls: seq<Call>
    var slots: int
    var enabled: bool
    var cancelledRows: set<Id>

    ghost function Abs(): State
      reads this
    {
      State(activeExecutions, registrations, responseModes, calls, slots, regular, enabled, cancelledRows)
    }

    ghost predicate Valid()
      reads this
    {
      Inv(Abs())
    }

    constructor (regular: bool, limited: bool)
      ensures Valid() && Abs() == Init(regular, limited)
    {
      this.regular := regular;
      activeExecutions, registrations, responseModes, calls := map[], [], map[], [];
      slots, enabled, cancelledRows := 0, regular && limited, {};
    }

    predicate Has(id: Id)
      reads this
      ensures Valid() ==> (Has(id) <==> Known(Abs(), id))
    {
      id in activeExecutions
    }

    method BeginAdd(id: Id, mode: Mode) returns (call: nat)
      requires Valid()
      modifies this`calls
      ensures Valid() && Abs() == Next(old(Abs()), Begin(id, mode)) && call == |old(calls)|
    {
      NextInv(Abs(), Begin(id, mode));
      call := |calls|;
      calls := calls + [Call(id, mode, Begun, false)];
    }

    /** Evaluation runs are throttled elsewhere and reserve nothing. */
    method ReserveCapacity(call: nat)
      requires Valid() && call < |calls| && calls[call].phase == Begun
      modifies this`calls, this`slots
      ensures Valid() && Abs() == Next(old(Abs()), Reserve(call))
    {
      NextInv(Abs(), Reserve(call));
      var reserve := calls[call].mode != Evaluation;
      if reserve {
        slots := slots + 1;
      }
      calls := calls[call := calls[call].(phase := Reserved, slot := reserve)];
    }

    method FailAdd(call: nat)
      requires Valid() && call < |calls| && (calls[call].phase == Begun || calls[call].phase == Reserved)
      modifies this`calls, this`slots
      ensures Valid() && Abs() == Next(old(Abs()), Throw(call))
    {
      NextInv(Abs(), Throw(call));
      if calls[call].slot {
        slots := slots - 1;
      }
      calls := calls[call := calls[call].(phase := Thrown, slot := false)];
    }

    method FinishAdd(call: nat) returns (id: Id)
      requires Valid() && call < |calls| && calls[call].phase == Reserved
      modifies this`calls, this`registrations, this`activeExecutions
      ensures Valid() && Abs() == Next(old(Abs()), Register(call)) && id == old(calls)[call].id && Has(id)
    {
      NextInv(Abs(), Register(call));
      id := calls[call].id;
      registrations := registrations + [NewRegistration(calls[call])];
      activeExecutions := activeExecutions[id := |registrations| - 1];
      calls := calls[call := calls[call].(phase := Returned, slot := false)];
    }

    method SetStatusOf(id: Id, status: Status) returns (found: bool)
      requires Valid()
      modifies this`registrations
      ensures Valid() && Abs() == Next(old(Abs()), SetStatus(id, status)) && found == old(Has(id))
    {
      NextInv(Abs(), SetStatus(id, status));
      found := Has(id);
      if found {
        var r := activeExecutions[id];
        registrations := registrations[r := registrations[r].(status := status)];
      }
    }

    method SetResponseModeOf(id: Id, mode: string)
      requires Valid()
      modifies this`responseModes
      ensures Valid() && Abs() == Next(old(Abs()), SetResponseMode(id, mode))
    {
      NextInv(Abs(), SetResponseMode(id, mode));
      responseModes := responseModes[id := mode];
    }

    method Finalize(id: Id)
      requires Valid()
      modifies this`registrations
      ensures Valid() && Abs() == Next(old(Abs()), FinalizeExecution(id))
      ensures activeExecutions == old(activeExecutions) && |registrations| == |old(registrations)|
      ensures id in activeExecutions ==> registrations[activeExecutions[id]].settled
    {
      NextInv(Abs(), FinalizeExecution(id));
      if !Has(id) {
        return;
      }
      var r := activeExecutions[id];
      registrations := registrations[r := registrations[r].(settled := true)];
    }

    method StopOne(id: Id)
      requires Valid()
      modifies this`registrations, this`activeExecutions, this`responseModes
      ensures Valid() && Abs() == Next(old(Abs()), StopExecution(id))
    {
      NextInv(Abs(), StopExecution(id));
      if !Has(id) {
        return;
      }
      var r := activeExecutions[id];
      if registrations[r].status == Waiting {
        activeExecutions := activeExecutions - {id};
        responseModes := responseModes - {id};
      } else {
        registrations := registrations[r := registrations[r].(settled := true)];
      }
    }

    /** The finalizer of one registration: its own slot and status, but the entry of whoever has its id. */
    method RunFinalizerOf(r: nat)
      requires Valid()
      modifies this`registrations, this`activeExecutions, this`responseModes, this`slots
      ensures Valid() && Abs() == Next(old(Abs()), RunFinalizer(r))
    {
      if r >= |registrations| || !registrations[r].settled || registrations[r].finalized {
        return;
      }
      FinalizerInv(Abs(), r);
      var reg := registrations[r];
      if reg.slot {
        slots := slots - 1;
      }
      registrations := registrations[r := Finalized(reg)];
      if reg.status != Waiting {
        activeExecutions := activeExecutions - {reg.id};
        responseModes := responseModes - {reg.id};
      }
    }

    /** Cancels rows in the database, unless concurrency control is switched off. */
    method RemoveAll(toCancel: set<Id>)
      modifies this`cancelledRows
      ensures cancelledRows == if enabled then old(cancelledRows) + toCancel else old(cancelledRows)
    {
      if !enabled {
        return;
      }
      cancelledRows := cancelledRows + toCancel;
    }

    /** Something happens while the polling loop sleeps. */
    method Environment(steps: seq<Step>)
      requires Valid() && forall k :: 0 <= k < |steps| ==> DrainStep(steps[k])
      modifies this
      ensures Valid() && Abs() == Run(old(Abs()), steps)
    {
      var i := 0;
      while i < |steps|
        invariant i <= |steps| && Valid()
        invariant Run(Abs(), steps[i..]) == Run(old(Abs()), steps)
      {
        assert steps[i..][0] == steps[i] && steps[i..][1..] == steps[i + 1..];
        Happen(steps[i]);
        i := i + 1;
      }
    }

    method Happen(step: Step)
      requires Valid() && DrainStep(step)
      modifies this
      ensures Valid() && Abs() == Next(old(Abs()), step)
    {
      match step
      case SetStatus(id, status) => var _ := SetStatusOf(id, status);
      case FinalizeExecution(id) => Finalize(id);
      case StopExecution(id) => StopOne(id);
      case RunFinalizer(r) => RunFinalizerOf(r);
    }

    method CancelOrDropOne(cancelAll: bool, id: Id) returns (cancelled: bool)
      requires Valid() && Has(id)
      modifies this`registrations, this`activeExecutions, this`responseModes
      ensures Abs() == Visit(old(Abs()), cancelAll, id) && cancelled == (regular && cancelAll)
    {
      var status := registrations[activeExecutions[id]].status;
      cancelled := regular && cancelAll;
      if cancelled {
        StopOne(id);
      } else if status == Waiting || status == New {
        // waiting and new executions must not block the shutdown
        activeExecutions := activeExecutions - {id};
      }
    }

    method CancelOrDropNext(cancelAll: bool, id: Id, ghost start: State, ghost todo: set<Id>) returns (cancelled: bool)
      requires Inv(start) && id in todo && todo <= start.entries.Keys
      requires Abs() == Visited(start, cancelAll, start.entries.Keys - todo)
      modifies this`registrations, this`activeExecutions, this`responseModes
      ensures Abs() == Visited(start, cancelAll, start.entries.Keys - (todo - {id}))
      ensures cancelled == (regular && cancelAll)
    {
      VisitedInv(start, cancelAll, start.entries.Keys - todo);
      VisitNext(start, cancelAll, todo, id);
      cancelled := CancelOrDropOne(cancelAll, id);
    }

    method CancelOrDropEach(cancelAll: bool, ghost start: State) returns (toCancel: set<Id>)
      requires Inv(start) && Abs() == Visited(start, cancelAll, {}) && activeExecutions == start.entries
      modifies this`registrations, this`activeExecutions, this`responseModes
      ensures Abs() == Visited(start, cancelAll, start.entries.Keys)
      ensures toCancel == if regular && cancelAll then start.entries.Keys else {}
    {
      toCancel := {};
      var todo := activeExecutions.Keys;
      assert start.entries.Keys - todo == {};
      while todo != {}
        invariant todo <= start.entries.Keys
        invariant Abs() == Visited(start, cancelAll, start.entries.Keys - todo)
        invariant toCancel <= start.entries.Keys - todo
        invariant regular && cancelAll ==> start.entries.Keys - todo <= toCancel
        invariant !(regular && cancelAll) ==> toCancel == {}
        decreases todo
      {
        var id :| id in todo;
        var cancelled := CancelOrDropNext(cancelAll, id, start, todo);
        if cancelled {
          toCancel := toCancel + {id};
        }
        todo := todo - {id};
      }
      assert start.entries.Keys - todo == start.entries.Keys;
    }

    /** The first pass of a shutdown: cancel every execution, or drop those that would block it. */
    method CancelOrDrop(cancelAll: bool) returns (toCancel: set<Id>)
      requires Valid()
      modifies this
      ensures Valid() && Abs() == ShutdownBegun(old(Abs()), cancelAll)
      ensures toCancel == if regular && cancelAll then old(activeExecutions).Keys else {}
    {
      ghost var start := Abs();
      if regular {
        enabled := false;
      }
      VisitNone(start, cancelAll);
      toCancel := CancelOrDropEach(cancelAll, start);
      ShutdownBegunInv(start, cancelAll);
    }

    /** The polling loop: one round of events passes during each sleep. */
    method Poll(rounds: seq<seq<Step>>) returns (drained: bool, polls: nat)
      requires Valid()
      requires forall i, k :: 0 <= i < |rounds| && 0 <= k < |rounds[i]| ==> DrainStep(rounds[i][k])
      modifies this
      ensures Valid() && polls <= |rounds|
      ensures Abs() == Run(old(Abs()), During(rounds[..polls])) && cancelledRows == old(cancelledRows)
      ensures drained <==> activeExecutions == map[]
      ensures !drained ==> polls == |rounds|
    {
      ghost var start := Abs();
      polls := 0;
      while |activeExecutions| != 0 && polls < |rounds|
        invariant polls <= |rounds| && Valid() && cancelledRows == start.cancelledRows
        invariant Abs() == Run(start, During(rounds[..polls]))
        decreases |rounds| - polls
      {
        assert rounds[..polls + 1][..polls] == rounds[..polls];
        RunConcat(start, During(rounds[..polls]), rounds[polls]);
        RunKeepsRows(Abs(), rounds[polls]);
        Environment(rounds[polls]);
        polls := polls + 1;
      }
      drained := |activeExecutions| == 0;
    }

    /**
     Waits for the active executions to finish, polling between the given rounds of events. The
     rows collected for cancelling are never cancelled: concurrency control is off by then.
     */
    method Shutdown(cancelAll: bool, rounds: seq<seq<Step>>) returns (drained: bool, polls: nat)
      requires Valid()
      requires forall i, k :: 0 <= i < |rounds| && 0 <= k < |rounds[i]| ==> DrainStep(rounds[i][k])
      modifies this
      ensures Valid() && polls <= |rounds|
      ensures Abs() == Run(ShutdownBegun(old(Abs()), cancelAll), During(rounds[..polls]))
      ensures drained <==> activeExecutions == map[]
      ensures !drained ==> polls == |rounds|
      ensures cancelledRows == old(cancelledRows)
      ensures Within(activeExecutions, old(activeExecutions))
    {
      ghost var start := Abs();
      var toCancel := CancelOrDrop(cancelAll);
      assert !enabled;
      RemoveAll(toCancel);
      assert Abs() == ShutdownBegun(start, cancelAll);
      drained, polls := Poll(rounds);
      DuringDrains(rounds[..polls]);
      PopulationShrinks(start, cancelAll, During(rounds[..polls]));
    }
  }

  lemma NextKeepsRows(s: State, step: Step)
    ensures Next(s, step).cancelledRows == s.cancelledRows
  {
  }

  lemma {:induction false} RunKeepsRows(s: State, steps: seq<Step>)
    ensures Run(s, steps).cancelledRows == s.cancelledRows
    decreases |steps|
  {
    if steps != [] {
      NextKeepsRows(s, steps[0]);
      RunKeepsRows(Next(s, steps[0]), steps[1..]);
    }
  }
}
