/**
 Resuming one waiting execution from many places at once.

 Timers and finished children, on any number of processes, race to resume the same execution. A
 child first patches its output into the parent (a read and an unconditional write), then loads
 the parent, reserves capacity, tries the conditional update that requires the status `waiting`,
 and starts the run. Each of these is a separate atomic step, and each may fault and be retried.

 The model keeps a history: every piece of run data freshly stored by the running workflow is a
 *generation*, and every copy of it carries the generation it was taken from and whether a child's
 output has been patched into it. A waiting *epoch* is named by the generation that began it.
 Patches are logged by the epoch they were written in.
 */
module ResumeProtocol {
  import opened Common

  type Items = string

  datatype Frame = Frame(node: string, data: Items)

  /** The data of a run: its node execution stack, and everything else. */
  datatype RunData = RunData(stack: seq<Frame>, rest: string)

  datatype Copy = Copy(data: RunData, generation: nat, patched: bool)

  datatype Status = Waiting | Running | Ended(finished: bool)

  datatype Row = Row(status: Status, copy: Copy)

  /** Who resumes: a timer, or a finished child with the output of its last node, if any. */
  datatype Kind = Timer | Child(output: Option<Items>)

  datatype Pc =
    | Patch
    | PatchRead(copy: Copy, items: Items)
    | Load
    | Loaded(copy: Copy)
    | Reserved(copy: Copy)
    | Committed
    | Started
    | Resumed
    | Duplicate
    | Failed

  /** `read` is the generation last read for a patch, `loadedAt` the number of patches written before the last load. */
  datatype Thread = Thread(kind: Kind, pc: Pc, faults: nat, read: Option<nat>, loadedAt: nat, slot: bool)

  /** A successful conditional update: who made it, which epoch it ended, and the data resumed with. */
  datatype Win = Win(thread: nat, epoch: nat, copy: Copy, read: Option<nat>, loadedAt: nat)

  /**
   `active` says that a run of the execution is in progress. `runs` counts the runs that were
   started and are not finalized, `abandoned` the registrations whose run never started.
   */
  datatype State = State(
    row: Row,
    stored: seq<RunData>,
    threads: seq<Thread>,
    wins: seq<Win>,
    patches: seq<nat>,
    reserves: bool,
    slots: int,
    active: bool,
    runs: nat,
    abandoned: nat)

  /**
   What a call that throws has done: nothing, all it was called for, or, when the start of a run
   throws after its registration, recorded the execution as failed.
   */
  datatype Effect = Before | After | Recorded

  datatype Step =
    | EnterWaiting(data: RunData)
    | SaveProgress(data: RunData)
    | End(finished: bool)
    | Cancel
    | Spawn(kind: Kind)
    | Advance(thread: nat)
    | Fault(thread: nat, retryable: bool, effect: Effect)
    | Finalize

  const MAX_PARENT_RESUME_ATTEMPTS: nat := 3

  function MaxAttempts(kind: Kind): nat {
    if kind.Child? then MAX_PARENT_RESUME_ATTEMPTS else 1
  }

  /** An execution that waits, or one in its first run. */
  function Init(data: RunData, waiting: bool, reserves: bool): State {
    var copy := Copy(data, 0, false);
    if waiting then State(Row(Waiting, copy), [data], [], [], [], reserves, 0, false, 0, 0)
    else State(Row(Running, copy), [data], [], [], [], reserves, if reserves then 1 else 0, true, 1, 0)
  }

  function Epoch(s: State): int {
    |s.stored| - 1
  }

  // ---------- Steps ----------

  function WithHead(data: RunData, items: Items): RunData {
    if data.stack == [] then data
    else data.(stack := data.stack[0 := data.stack[0].(data := items)])
  }

  function Patched(copy: Copy, items: Items): Copy {
    Copy(WithHead(copy.data, items), copy.generation, true)
  }

  function Fresh(s: State, data: RunData): Copy {
    Copy(data, |s.stored|, false)
  }

  function Go(s: State, i: nat, t: Thread): State
    requires i < |s.threads|
  {
    s.(threads := s.threads[i := t])
  }

  /** The unconditional write of a patched parent. */
  function WritePatch(s: State, copy: Copy, items: Items): State
    requires s.stored != []
  {
    s.(row := s.row.(copy := Patched(copy, items)), patches := s.patches + [|s.stored| - 1])
  }

  /** The conditional update succeeds. */
  function Commit(s: State, i: nat): State
    requires i < |s.threads| && s.threads[i].pc.Reserved? && s.stored != []
  {
    var t := s.threads[i];
    s.(row := Row(Running, t.pc.copy), wins := s.wins + [Win(i, |s.stored| - 1, t.pc.copy, t.read, t.loadedAt)])
  }

  /** The run begins; its status is written whatever the row held. */
  function StartRun(s: State): State {
    s.(row := s.row.(status := Running), active := true, runs := s.runs + 1)
  }

  function Release(s: State, t: Thread): State {
    if t.slot then s.(slots := s.slots - 1) else s
  }

  /** Nothing to copy, or the parent is not waiting, or its stack is empty. */
  predicate SkipsPatch(s: State, t: Thread) {
    t.kind.Timer? || t.kind.output.None? || !s.row.status.Waiting? || s.row.copy.data.stack == []
  }

  function AdvanceThread(s: State, i: nat): State
    requires i < |s.threads| && s.stored != []
  {
    var t := s.threads[i];
    match t.pc
    case Patch =>
      if SkipsPatch(s, t) then Go(s, i, t.(pc := Load, faults := 0))  // resume anyway
      else Go(s, i, t.(pc := PatchRead(s.row.copy, t.kind.output.value), read := Some(s.row.copy.generation)))
    case PatchRead(copy, items) => Go(WritePatch(s, copy, items), i, t.(pc := Load, faults := 0))
    case Load =>
      if s.row.status == Ended(true) then Go(s, i, t.(pc := Failed, faults := t.faults + 1))
      else Go(s, i, t.(pc := Loaded(s.row.copy), loadedAt := |s.patches|))
    case Loaded(copy) =>
      Go(s.(slots := if s.reserves then s.slots + 1 else s.slots), i, t.(pc := Reserved(copy), slot := s.reserves))
    case Reserved(_) =>
      if s.row.status.Waiting? then Go(Commit(s, i), i, t.(pc := Committed))
      else Go(Release(s, t), i, t.(pc := Duplicate, slot := false))
    case Committed => Go(s, i, t.(pc := Started))
    case Started => Go(StartRun(s), i, t.(pc := Resumed, slot := false))  // the slot is now the run's
    case _ => s
  }

  function AfterFault(t: Thread, retryable: bool): Pc {
    if !retryable || t.faults + 1 >= MaxAttempts(t.kind) then Failed
    else if t.pc.Patch? || t.pc.PatchRead? then Patch
    else Load
  }

  /** The start throws behind the registration, which keeps the slot unless something settles it. */
  function FaultStart(s: State, effect: Effect): State {
    match effect
    case Before => s.(abandoned := s.abandoned + 1)
    case After => StartRun(s)
    case Recorded => s.(row := s.row.(status := Ended(false)), runs := s.runs + 1)
  }

  /** A call throws, before or after its write took effect; up to the registration the slot is given back. */
  function FaultThread(s: State, i: nat, retryable: bool, effect: Effect): State
    requires i < |s.threads| && s.stored != []
  {
    var t := s.threads[i];
    var t' := t.(pc := AfterFault(t, retryable), faults := t.faults + 1, slot := false);
    match t.pc
    case Committed => s
    case Resumed => s
    case Duplicate => s
    case Failed => s
    case Started => Go(FaultStart(s, effect), i, t')
    case PatchRead(copy, items) => Go(if effect.After? then WritePatch(s, copy, items) else s, i, t')
    case Reserved(_) => Go(Release(if effect.After? && s.row.status.Waiting? then Commit(s, i) else s, t), i, t')
    case _ => Go(s, i, t')
  }

  function Next(s: State, step: Step): (r: State)
    requires s.stored != []
    ensures r.stored != [] && |r.threads| >= |s.threads|
  {
    match step
    case EnterWaiting(data) =>
      if s.active then s.(row := Row(Waiting, Fresh(s, data)), stored := s.stored + [data], active := false) else s
    case SaveProgress(data) =>
      if s.active then s.(row := Row(Running, Fresh(s, data)), stored := s.stored + [data]) else s
    case End(finished) =>
      if s.active then s.(row := s.row.(status := Ended(finished)), active := false) else s
    case Cancel =>
      // a stop also settles a registration whose run never started
      if s.row.status.Ended? then s
      else s.(row := s.row.(status := Ended(false)), active := false, runs := s.runs + s.abandoned, abandoned := 0)
    case Spawn(kind) =>
      s.(threads := s.threads + [Thread(kind, if kind.Child? then Patch else Load, 0, None, 0, false)])
    case Advance(i) => if i < |s.threads| then AdvanceThread(s, i) else s
    case Fault(i, retryable, effect) => if i < |s.threads| then FaultThread(s, i, retryable, effect) else s
    case Finalize =>
      if s.runs <= (if s.active then 1 else 0) then s
      else s.(runs := s.runs - 1, slots := if s.reserves then s.slots - 1 else s.slots)
  }

  function Run(s: State, steps: seq<Step>): (r: State)
    requires s.stored != []
    ensures r.stored != []
    decreases |steps|
  {
    if steps == [] then s else Run(Next(s, steps[0]), steps[1..])
  }

  // ---------- The shape of a step ----------

  /** The conditional update took effect: it ends the current epoch with the data of thread `i`. */
  ghost predicate Commits(s: State, s': State, i: nat)
    requires i < |s.threads|
  {
    var t := s.threads[i];
    && s.stored != [] && t.pc.Reserved? && s.row.status.Waiting?
    && s'.row == Row(Running, t.pc.copy)
    && s'.wins == s.wins + [Win(i, Epoch(s), t.pc.copy, t.read, t.loadedAt)]
    && s'.patches == s.patches && s'.active == s.active
  }

  /** The patched parent was written back, whatever the row held. */
  ghost predicate Patches(s: State, s': State, i: nat)
    requires i < |s.threads|
  {
    var t := s.threads[i];
    && s.stored != [] && t.pc.PatchRead?
    && s'.row == s.row.(copy := Patched(t.pc.copy, t.pc.items))
    && s'.wins == s.wins && s'.patches == s.patches + [Epoch(s)] && s'.active == s.active
  }

  /** Between the conditional update and the start of the run. */
  ghost predicate Pending(pc: Pc) {
    pc.Committed? || pc.Started?
  }

  /** The start of a run took effect, or recorded a failure. */
  ghost predicate Starts(s: State, s': State, i: nat)
    requires i < |s.threads| && i < |s'.threads|
  {
    && s.threads[i].pc.Started? && !Pending(s'.threads[i].pc)
    && s'.row.copy == s.row.copy && s'.wins == s.wins && s'.patches == s.patches
    && ((s'.row.status.Running? && s'.active) || (s'.row.status.Ended? && s'.active == s.active))
  }

  ghost predicate Silent(s: State, s': State) {
    s'.row == s.row && s'.wins == s.wins && s'.patches == s.patches && s'.active == s.active
  }

  /** Where a thread may come from. */
  ghost predicate PcStep(s: State, s': State, i: nat)
    requires i < |s.threads| && i < |s'.threads|
  {
    var t, t' := s.threads[i], s'.threads[i];
    var patches, commits := Patches(s, s', i), Commits(s, s', i);
    t' == t ||
    match t'.pc
    case PatchRead(copy, items) =>
      t.pc.Patch? && s.row.status.Waiting? && copy == s.row.copy && copy.data.stack != []
      && t.kind == Child(Some(items)) && t'.read == Some(copy.generation) && t'.loadedAt == t.loadedAt
    case _ =>
      t'.read == t.read &&
      match t'.pc
      case Load =>
        t'.loadedAt == t.loadedAt &&
        (|| t.pc.Load? || t.pc.Loaded? || t.pc.Reserved? || t.pc.Started? || patches
         || (t.pc.Patch? && SkipsPatch(s, t)))
      case Loaded(copy) => t.pc.Load? && copy == s.row.copy && t'.loadedAt == |s.patches|
      case Reserved(copy) => t.pc == Loaded(copy) && t'.loadedAt == t.loadedAt
      case Committed => commits && t'.loadedAt == t.loadedAt
      case Started => t.pc.Committed? && t'.loadedAt == t.loadedAt
      case Resumed => t.pc.Started? && s'.active && t'.loadedAt == t.loadedAt
      case _ => t'.loadedAt == t.loadedAt
  }

  /** A step of thread `i` touches only that thread, and the row only by a patch, a win or a start. */
  ghost predicate ThreadStep(s: State, s': State, i: nat) {
    && i < |s.threads| == |s'.threads|
    && s'.stored == s.stored && s'.reserves == s.reserves
    && s'.threads == s.threads[i := s'.threads[i]]
    && s'.threads[i].kind == s.threads[i].kind
    && (Commits(s, s', i) || Patches(s, s', i) || Starts(s, s', i) || Silent(s, s'))
    && PcStep(s, s', i)
  }

  lemma AdvanceIsThreadStep(s: State, i: nat)
    requires i < |s.threads| && s.stored != []
    ensures ThreadStep(s, AdvanceThread(s, i), i)
  {
    match s.threads[i].pc
    case Patch =>
    case PatchRead(_, _) =>
    case Load =>
    case Loaded(_) =>
    case Reserved(_) =>
    case _ =>
  }

  lemma FaultIsThreadStep(s: State, i: nat, retryable: bool, effect: Effect)
    requires i < |s.threads| && s.stored != []
    ensures ThreadStep(s, FaultThread(s, i, retryable, effect), i)
  {
    match s.threads[i].pc
    case PatchRead(_, _) =>
    case Reserved(_) => FaultedUpdateIsThreadStep(s, i, retryable, effect);
    case Started =>
    case _ =>
  }

  lemma FaultedUpdateIsThreadStep(s: State, i: nat, retryable: bool, effect: Effect)
    requires i < |s.threads| && s.stored != [] && s.threads[i].pc.Reserved?
    ensures ThreadStep(s, FaultThread(s, i, retryable, effect), i)
  {
  }

  /** What a step does if it is not a thread's: the row is renewed, ends, or nothing of it changes. */
  ghost predicate EnvironmentStep(s: State, s': State) {
    && s'.wins == s.wins && s'.patches == s.patches && s'.reserves == s.reserves && |s'.threads| >= |s.threads|
    && (forall k :: 0 <= k < |s.threads| ==> s'.threads[k] == s.threads[k])
    && (forall k :: |s.threads| <= k < |s'.threads| ==>
          s'.threads[k].pc in {Patch, Load} && s'.threads[k].faults == 0
          && s'.threads[k].read.None? && s'.threads[k].loadedAt == 0)
    && (|| (s'.stored == s.stored && s'.row == s.row && s'.active == s.active)
        || (s'.stored == s.stored && s'.row.copy == s.row.copy && s'.row.status.Ended? && !s'.active)
        || Renews(s, s'))
  }

  /** A run in progress stores fresh data, and waits or goes on. */
  ghost predicate Renews(s: State, s': State) {
    && s.active && |s'.stored| == |s.stored| + 1 && s.stored <= s'.stored
    && s'.row.copy == Copy(s'.stored[|s.stored|], |s.stored|, false)
    && ((s'.row.status.Waiting? && !s'.active) || (s'.row.status.Running? && s'.active))
  }

  /** The thread a step belongs to. */
  function Acting(step: Step): nat {
    if step.Advance? || step.Fault? then step.thread else 0
  }

  lemma NextShape(s: State, step: Step)
    requires s.stored != []
    ensures EnvironmentStep(s, Next(s, step)) || ThreadStep(s, Next(s, step), Acting(step))
  {
    if step.Advance? && step.thread < |s.threads| {
      AdvanceIsThreadStep(s, step.thread);
    } else if step.Fault? && step.thread < |s.threads| {
      FaultIsThreadStep(s, step.thread, step.retryable, step.effect);
    }
  }

  // ---------- Invariant: every copy is a generation, up to its head ----------

  ghost predicate IsOutput(threads: seq<Thread>, items: Items) {
    exists k :: 0 <= k < |threads| && threads[k].kind == Child(Some(items))
  }

  /** The copy is its generation verbatim or, if patched, with some finished child's output at the head. */
  ghost predicate Traceable(s: State, copy: Copy) {
    && copy.generation < |s.stored|
    && (!copy.patched ==> copy.data == s.stored[copy.generation])
    && (copy.patched ==> copy.data.stack != [])
    && (copy.patched ==>
          exists items :: IsOutput(s.threads, items) && copy.data == WithHead(s.stored[copy.generation], items))
  }

  function HeldCopy(pc: Pc): Option<Copy> {
    match pc
    case PatchRead(copy, _) => Some(copy)
    case Loaded(copy) => Some(copy)
    case Reserved(copy) => Some(copy)
    case _ => None
  }

  /** A patch read belongs to a child, found something to patch, and writes that child's output. */
  ghost predicate WritesOwnOutput(t: Thread) {
    t.pc.PatchRead? ==> t.kind == Child(Some(t.pc.items)) && t.pc.copy.data.stack != []
  }

  ghost predicate AllTraceable(s: State) {
    && s.stored != []
    && Traceable(s, s.row.copy)
    && (forall i :: 0 <= i < |s.threads| ==> WritesOwnOutput(s.threads[i]))
    && (forall i :: 0 <= i < |s.threads| && HeldCopy(s.threads[i].pc).Some? ==>
          Traceable(s, HeldCopy(s.threads[i].pc).value))
    && (forall i :: 0 <= i < |s.wins| ==> Traceable(s, s.wins[i].copy))
  }

  /** Histories only grow: stored data, finished children and patches are never forgotten. */
  ghost predicate Grows(s: State, s': State) {
    && s.stored <= s'.stored && s.patches <= s'.patches && s.wins <= s'.wins
    && |s.threads| <= |s'.threads|
    && forall k :: 0 <= k < |s.threads| ==> s'.threads[k].kind == s.threads[k].kind
  }

  lemma ShapeGrows(s: State, s': State, i: nat)
    requires EnvironmentStep(s, s') || ThreadStep(s, s', i)
    ensures Grows(s, s')
  {
  }

  lemma TraceableGrows(s: State, s': State, copy: Copy)
    requires Traceable(s, copy) && Grows(s, s')
    ensures Traceable(s', copy)
  {
    if copy.patched {
      var items :| IsOutput(s.threads, items) && copy.data == WithHead(s.stored[copy.generation], items);
      var k :| 0 <= k < |s.threads| && s.threads[k].kind == Child(Some(items));
      assert s'.threads[k].kind == Child(Some(items));
    }
  }

  lemma PatchIsTraceable(s: State, s': State, i: nat, copy: Copy, items: Items)
    requires Traceable(s, copy) && Grows(s, s') && copy.data.stack != []
    requires i < |s.threads| && s.threads[i].kind == Child(Some(items))
    ensures Traceable(s', Patched(copy, items))
  {
    TraceableGrows(s, s', copy);
    assert s'.threads[i].kind == Child(Some(items));
    assert IsOutput(s'.threads, items);
    assert WithHead(copy.data, items) == WithHead(s'.stored[copy.generation], items);
  }

  /** Where the copies of the next state come from. */
  lemma CopiesComeFrom(s: State, s': State, k: nat, i: nat)
    requires EnvironmentStep(s, s') || ThreadStep(s, s', k)
    requires i < |s'.threads| && HeldCopy(s'.threads[i].pc).Some?
    ensures var copy := HeldCopy(s'.threads[i].pc).value;
            copy == s.row.copy || (i < |s.threads| && HeldCopy(s.threads[i].pc) == Some(copy))
  {
    if i < |s.threads| && s'.threads[i] != s.threads[i] {
      assert i == k && PcStep(s, s', k);
    }
  }

  lemma ShapeTraceable(s: State, s': State, k: nat)
    requires AllTraceable(s) && (EnvironmentStep(s, s') || ThreadStep(s, s', k))
    ensures AllTraceable(s')
  {
    ShapeGrows(s, s', k);
    TraceableGrows(s, s', s.row.copy);
    forall i | 0 <= i < |s'.threads| && HeldCopy(s'.threads[i].pc).Some?
      ensures Traceable(s', HeldCopy(s'.threads[i].pc).value)
    {
      CopiesComeFrom(s, s', k, i);
      TraceableGrows(s, s', HeldCopy(s'.threads[i].pc).value);
    }
    ShapeWritesOwnOutput(s, s', k);
    RowTraceable(s, s', k);
    WinsTraceable(s, s', k);
  }

  lemma ShapeWritesOwnOutput(s: State, s': State, k: nat)
    requires AllTraceable(s) && (EnvironmentStep(s, s') || ThreadStep(s, s', k))
    ensures forall i :: 0 <= i < |s'.threads| ==> WritesOwnOutput(s'.threads[i])
  {
    forall i | 0 <= i < |s'.threads| ensures WritesOwnOutput(s'.threads[i]) {
      if i < |s.threads| && s'.threads[i] != s.threads[i] {
        assert i == k && PcStep(s, s', k);
      }
    }
  }

  lemma RowTraceable(s: State, s': State, k: nat)
    requires AllTraceable(s) && (EnvironmentStep(s, s') || ThreadStep(s, s', k))
    ensures Traceable(s', s'.row.copy)
  {
    ShapeGrows(s, s', k);
    TraceableGrows(s, s', s.row.copy);
    if !EnvironmentStep(s, s') {
      var t := s.threads[k];
      if Commits(s, s', k) {
        TraceableGrows(s, s', HeldCopy(t.pc).value);
      } else if Patches(s, s', k) {
        assert WritesOwnOutput(t) && HeldCopy(t.pc).Some?;
        PatchIsTraceable(s, s', k, t.pc.copy, t.pc.items);
      }
    }
  }

  lemma WinsTraceable(s: State, s': State, k: nat)
    requires AllTraceable(s) && (EnvironmentStep(s, s') || ThreadStep(s, s', k))
    ensures forall i :: 0 <= i < |s'.wins| ==> Traceable(s', s'.wins[i].copy)
  {
    ShapeGrows(s, s', k);
    forall i | 0 <= i < |s'.wins| ensures Traceable(s', s'.wins[i].copy) {
      if i < |s.wins| {
        TraceableGrows(s, s', s.wins[i].copy);
      } else {
        TraceableGrows(s, s', HeldCopy(s.threads[k].pc).value);
      }
    }
  }

  // ---------- Invariant: at most one win per epoch ----------

  ghost predicate WinsOrdered(s: State) {
    && s.stored != []
    && (forall i, j :: 0 <= i < j < |s.wins| ==> s.wins[i].epoch < s.wins[j].epoch)
    && (forall i :: 0 <= i < |s.wins| ==> s.wins[i].epoch <= Epoch(s) && s.wins[i].thread < |s.threads|)
    && (s.row.status.Waiting? ==> forall i :: 0 <= i < |s.wins| ==> s.wins[i].epoch < Epoch(s))
  }

  lemma ShapeWinsOrdered(s: State, s': State, i: nat)
    requires WinsOrdered(s) && (EnvironmentStep(s, s') || ThreadStep(s, s', i))
    ensures WinsOrdered(s')
  {
    if !EnvironmentStep(s, s') && Commits(s, s', i) {
      assert forall k :: 0 <= k < |s.wins| ==> s'.wins[k] == s.wins[k];
    }
  }

  // ---------- Invariant: who runs the execution ----------

  ghost predicate NonePending(s: State) {
    forall i :: 0 <= i < |s.threads| ==> !Pending(s.threads[i].pc)
  }

  ghost predicate Owned(s: State) {
    && (s.row.status.Waiting? ==> !s.active && NonePending(s))
    && (s.active ==> s.row.status.Running? && NonePending(s))
    && (forall i, j :: 0 <= i < j < |s.threads| ==> !(Pending(s.threads[i].pc) && Pending(s.threads[j].pc)))
  }

  lemma EnvironmentPending(s: State, s': State)
    requires EnvironmentStep(s, s')
    ensures forall i :: 0 <= i < |s'.threads| && Pending(s'.threads[i].pc) ==>
            i < |s.threads| && Pending(s.threads[i].pc)
  {
    forall i | 0 <= i < |s'.threads| && Pending(s'.threads[i].pc)
      ensures i < |s.threads| && Pending(s.threads[i].pc)
    {
      if i < |s.threads| { assert s'.threads[i] == s.threads[i]; }
    }
  }

  lemma ThreadPending(s: State, s': State, k: nat)
    requires ThreadStep(s, s', k)
    ensures forall i :: 0 <= i < |s'.threads| && Pending(s'.threads[i].pc) ==>
              Pending(s.threads[i].pc) || (i == k && Commits(s, s', k))
  {
    forall i | 0 <= i < |s'.threads| && Pending(s'.threads[i].pc)
      ensures Pending(s.threads[i].pc) || (i == k && Commits(s, s', k))
    {
      if i != k { assert s'.threads[i] == s.threads[i]; }
    }
  }

  lemma EnvironmentOwned(s: State, s': State)
    requires Owned(s) && EnvironmentStep(s, s')
    ensures Owned(s')
  {
    EnvironmentPending(s, s');
  }

  lemma ThreadOwned(s: State, s': State, k: nat)
    requires Owned(s) && ThreadStep(s, s', k)
    ensures Owned(s')
  {
    ThreadPending(s, s', k);
  }

  // ---------- Invariant: the log of patches ----------

  /** Among the first `n` patches one was written in the epoch. */
  ghost predicate LoggedBefore(patches: seq<nat>, epoch: int, n: nat) {
    exists j :: 0 <= j < n && j < |patches| && patches[j] == epoch
  }

  /** While the execution waits, its row is patched exactly if a patch was written in this epoch. */
  ghost predicate RowLogged(s: State) {
    && s.stored != []
    && (forall j :: 0 <= j < |s.patches| ==> s.patches[j] <= Epoch(s))
    && (s.row.status.Waiting? ==>
          && (s.row.copy.patched <==> LoggedBefore(s.patches, Epoch(s), |s.patches|))
          && (s.row.copy.patched ==> s.row.copy.data.stack != [])
          && (!s.row.copy.patched ==> s.row.copy.generation == Epoch(s)))
  }

  /** A patch read saw a parent with something to patch. */
  ghost predicate ReadLogged(s: State, t: Thread) {
    && (t.pc.PatchRead? ==> t.pc.copy.data.stack != [] && t.read == Some(t.pc.copy.generation))
    && (t.read.Some? ==>
          && t.kind.Child? && t.kind.output.Some?
          && t.read.value < |s.stored| && s.stored[t.read.value].stack != [])
  }

  /** What a load saw of the patches of its epoch: those written before it, and always its own thread's. */
  ghost predicate LoadLogged(s: State, epoch: int, copy: Copy, read: Option<nat>, loadedAt: nat) {
    && loadedAt <= |s.patches|
    && (copy.generation == epoch ==>
          && (copy.patched <==> LoggedBefore(s.patches, epoch, loadedAt))
          && (read == Some(epoch) ==> copy.patched))
  }

  ghost predicate ThreadLogged(s: State, t: Thread) {
    && ReadLogged(s, t)
    && t.loadedAt <= |s.patches|
    && (s.row.status.Waiting? && t.read == Some(Epoch(s)) && (t.pc.Load? || t.pc.Loaded? || t.pc.Reserved?) ==>
          s.row.copy.patched)
    && (s.row.status.Waiting? && (t.pc.Loaded? || t.pc.Reserved?) ==>
          LoadLogged(s, Epoch(s), t.pc.copy, t.read, t.loadedAt))
  }

  ghost predicate Logged(s: State) {
    && RowLogged(s)
    && (forall i :: 0 <= i < |s.threads| ==> ThreadLogged(s, s.threads[i]))
    && (forall i :: 0 <= i < |s.wins| ==>
          LoadLogged(s, s.wins[i].epoch, s.wins[i].copy, s.wins[i].read, s.wins[i].loadedAt))
  }

  lemma LoadLoggedGrows(s: State, s': State, epoch: int, copy: Copy, read: Option<nat>, loadedAt: nat)
    requires LoadLogged(s, epoch, copy, read, loadedAt) && Grows(s, s')
    ensures LoadLogged(s', epoch, copy, read, loadedAt)
  {
    assert forall j :: 0 <= j < loadedAt ==> s.patches[j] == s'.patches[j];
  }

  lemma EnvironmentLogged(s: State, s': State)
    requires Logged(s) && AllTraceable(s) && EnvironmentStep(s, s')
    ensures Logged(s')
  {
    ShapeGrows(s, s', 0);
    forall i | 0 <= i < |s'.threads| ensures ThreadLogged(s', s'.threads[i]) {
      if i < |s.threads| { EnvironmentThreadLogged(s, s', i); }
    }
    forall i | 0 <= i < |s'.wins|
      ensures LoadLogged(s', s'.wins[i].epoch, s'.wins[i].copy, s'.wins[i].read, s'.wins[i].loadedAt)
    {
      LoadLoggedGrows(s, s', s.wins[i].epoch, s.wins[i].copy, s.wins[i].read, s.wins[i].loadedAt);
    }
  }

  lemma EnvironmentThreadLogged(s: State, s': State, i: nat)
    requires Logged(s) && AllTraceable(s) && EnvironmentStep(s, s') && i < |s.threads|
    ensures ThreadLogged(s', s'.threads[i])
  {
    assert ThreadLogged(s, s.threads[i]) && s'.threads[i] == s.threads[i];
    if HeldCopy(s.threads[i].pc).Some? { assert Traceable(s, HeldCopy(s.threads[i].pc).value); }
  }

  lemma PatchLogs(patches: seq<nat>, epoch: nat, n: nat)
    requires n <= |patches|
    ensures LoggedBefore(patches + [epoch], epoch, |patches| + 1)
    ensures forall e: int :: LoggedBefore(patches + [epoch], e, n) <==> LoggedBefore(patches, e, n)
  {
    assert (patches + [epoch])[|patches|] == epoch;
    forall e: int ensures LoggedBefore(patches + [epoch], e, n) <==> LoggedBefore(patches, e, n) {
      if LoggedBefore(patches, e, n) {
        var j :| 0 <= j < n && patches[j] == e;
        assert (patches + [epoch])[j] == e;
      }
    }
  }

  lemma ThreadRowLogged(s: State, s': State, k: nat)
    requires Logged(s) && ThreadStep(s, s', k)
    ensures RowLogged(s')
  {
    if Patches(s, s', k) {
      assert ThreadLogged(s, s.threads[k]);
      PatchLogs(s.patches, Epoch(s), |s.patches|);
    }
  }

  /** The other threads only see more patches. */
  lemma OtherThreadLogged(s: State, s': State, k: nat, i: nat)
    requires Logged(s) && ThreadStep(s, s', k) && i < |s.threads| && s'.threads[i] == s.threads[i]
    requires s'.row.status.Waiting? ==> s.row.status.Waiting?
    ensures ThreadLogged(s', s'.threads[i])
  {
    assert ThreadLogged(s, s.threads[i]);
    ShapeGrows(s, s', k);
    var t := s.threads[i];
    if s'.row.status.Waiting? && (t.pc.Loaded? || t.pc.Reserved?) {
      LoadLoggedGrows(s, s', Epoch(s), t.pc.copy, t.read, t.loadedAt);
    }
  }

  /** Patching again in the same epoch, a child finds the parent as patchable as before. */
  lemma PatchNotSkipped(s: State, t: Thread)
    requires RowLogged(s) && ReadLogged(s, t) && Traceable(s, s.row.copy)
    requires s.row.status.Waiting? && t.read == Some(Epoch(s))
    ensures s.row.copy.data.stack != []
  {
  }

  lemma OwnReadLogged(s: State, s': State, k: nat)
    requires Logged(s) && AllTraceable(s) && ThreadStep(s, s', k) && s'.threads[k] != s.threads[k]
    ensures ReadLogged(s', s'.threads[k]) && s'.threads[k].loadedAt <= |s'.patches|
  {
    assert ThreadLogged(s, s.threads[k]);
    ShapeGrows(s, s', k);
    assert PcStep(s, s', k);
  }

  lemma OwnThreadLogged(s: State, s': State, k: nat)
    requires Logged(s) && AllTraceable(s) && Owned(s) && ThreadStep(s, s', k) && s'.threads[k] != s.threads[k]
    ensures ThreadLogged(s', s'.threads[k])
  {
    var t, t' := s.threads[k], s'.threads[k];
    OwnReadLogged(s, s', k);
    assert ThreadLogged(s, t) && PcStep(s, s', k);
    if s'.row.status.Waiting? {
      assert s.row.status.Waiting?;
      if t'.pc.Load? && t.read == Some(Epoch(s)) && t.pc.Patch? && !Patches(s, s', k) { PatchNotSkipped(s, t); }
      if t'.pc.Reserved? { LoadLoggedGrows(s, s', Epoch(s), t.pc.copy, t.read, t.loadedAt); }
    }
  }

  lemma ThreadWinsLogged(s: State, s': State, k: nat)
    requires Logged(s) && ThreadStep(s, s', k)
    ensures forall i :: 0 <= i < |s'.wins| ==>
              LoadLogged(s', s'.wins[i].epoch, s'.wins[i].copy, s'.wins[i].read, s'.wins[i].loadedAt)
  {
    ShapeGrows(s, s', k);
    assert ThreadLogged(s, s.threads[k]);
    forall i | 0 <= i < |s'.wins|
      ensures LoadLogged(s', s'.wins[i].epoch, s'.wins[i].copy, s'.wins[i].read, s'.wins[i].loadedAt)
    {
      if i < |s.wins| {
        LoadLoggedGrows(s, s', s.wins[i].epoch, s.wins[i].copy, s.wins[i].read, s.wins[i].loadedAt);
      }
    }
  }

  lemma ThreadStepLogged(s: State, s': State, k: nat)
    requires Logged(s) && AllTraceable(s) && Owned(s) && ThreadStep(s, s', k)
    ensures Logged(s')
  {
    ThreadRowLogged(s, s', k);
    ThreadWinsLogged(s, s', k);
    forall i | 0 <= i < |s'.threads| ensures ThreadLogged(s', s'.threads[i]) {
      if s'.threads[i] == s.threads[i] { OtherThreadLogged(s, s', k, i); }
      else { OwnThreadLogged(s, s', k); }
    }
  }

  // ---------- Invariant: slots ----------

  function CountSlots(threads: seq<Thread>): nat {
    if threads == [] then 0
    else CountSlots(threads[..|threads| - 1]) + (if threads[|threads| - 1].slot then 1 else 0)
  }

  lemma {:induction false} CountSlotsUpdate(threads: seq<Thread>, i: nat, t: Thread)
    requires i < |threads|
    ensures CountSlots(threads[i := t])
         == CountSlots(threads) - (if threads[i].slot then 1 else 0) + (if t.slot then 1 else 0)
  {
    var n := |threads| - 1;
    if i == n {
      assert threads[i := t][..n] == threads[..n];
    } else {
      assert threads[i := t][..n] == threads[..n][i := t];
      CountSlotsUpdate(threads[..n], i, t);
    }
  }

  ghost predicate HoldsSlot(pc: Pc) {
    pc.Reserved? || pc.Committed? || pc.Started?
  }

  /**
   Slots held are those of attempts between reserving and the start of their run, of runs not yet
   finalized, and of abandoned registrations.
   */
  ghost predicate SlotsBalance(s: State) {
    && (forall i :: 0 <= i < |s.threads| ==> (s.threads[i].slot <==> s.reserves && HoldsSlot(s.threads[i].pc)))
    && s.slots == CountSlots(s.threads) + (if s.reserves then s.runs + s.abandoned else 0)
    && (s.active ==> s.runs >= 1)
  }

  /** Apart from history, a step on thread `i` changes only its own thread and the totals. */
  lemma ThreadStepBalance(s: State, s': State, i: nat)
    requires i < |s.threads| && SlotsBalance(s)
    requires s'.reserves == s.reserves && |s'.threads| == |s.threads|
    requires s'.threads == s.threads[i := s'.threads[i]]
    requires s'.threads[i].slot <==> s'.reserves && HoldsSlot(s'.threads[i].pc)
    requires s'.slots - s.slots == (if s'.threads[i].slot then 1 else 0) - (if s.threads[i].slot then 1 else 0)
                                 + (if s.reserves then s'.runs + s'.abandoned - s.runs - s.abandoned else 0)
    requires s'.active ==> s'.runs >= 1
    ensures SlotsBalance(s')
  {
    CountSlotsUpdate(s.threads, i, s'.threads[i]);
  }

  lemma AdvanceSlotsBalance(s: State, i: nat)
    requires SlotsBalance(s) && s.stored != [] && i < |s.threads|
    ensures SlotsBalance(AdvanceThread(s, i))
  {
    AdvanceIsThreadStep(s, i);
    ThreadStepBalance(s, AdvanceThread(s, i), i);
  }

  lemma FaultSlotsBalance(s: State, i: nat, retryable: bool, effect: Effect)
    requires SlotsBalance(s) && s.stored != [] && i < |s.threads|
    ensures SlotsBalance(FaultThread(s, i, retryable, effect))
  {
    FaultIsThreadStep(s, i, retryable, effect);
    FaultReleases(s, i, retryable, effect);
    ThreadStepBalance(s, FaultThread(s, i, retryable, effect), i);
  }

  lemma FaultReleases(s: State, i: nat, retryable: bool, effect: Effect)
    requires SlotsBalance(s) && s.stored != [] && i < |s.threads|
    ensures var s' := FaultThread(s, i, retryable, effect);
            && i < |s'.threads| && (s'.active ==> s'.runs >= 1)
            && (s'.threads[i].slot <==> s.reserves && HoldsSlot(s'.threads[i].pc))
            && s'.slots - s.slots == (if s'.threads[i].slot then 1 else 0) - (if s.threads[i].slot then 1 else 0)
                                   + (if s.reserves then s'.runs + s'.abandoned - s.runs - s.abandoned else 0)
  {
  }

  lemma NextSlotsBalance(s: State, step: Step)
    requires SlotsBalance(s) && s.stored != []
    ensures SlotsBalance(Next(s, step))
  {
    if step.Spawn? {
      assert Next(s, step).threads[..|s.threads|] == s.threads;
    } else if step.Advance? && step.thread < |s.threads| {
      AdvanceSlotsBalance(s, step.thread);
    } else if step.Fault? && step.thread < |s.threads| {
      FaultSlotsBalance(s, step.thread, step.retryable, step.effect);
    }
  }

  // ---------- Invariant: a child's wins are paid for by its faults ----------

  function WinsBy(wins: seq<Win>, i: nat): nat {
    if wins == [] then 0
    else WinsBy(wins[..|wins| - 1], i) + (if wins[|wins| - 1].thread == i then 1 else 0)
  }

  lemma WinsByAppend(wins: seq<Win>, w: Win, i: nat)
    ensures WinsBy(wins + [w], i) == WinsBy(wins, i) + (if w.thread == i then 1 else 0)
  {
    assert (wins + [w])[..|wins|] == wins;
  }

  lemma {:induction false} NoWins(wins: seq<Win>, i: nat)
    requires forall k :: 0 <= k < |wins| ==> wins[k].thread < i
    ensures WinsBy(wins, i) == 0
  {
    if wins != [] { NoWins(wins[..|wins| - 1], i); }
  }

  ghost predicate HasWon(pc: Pc) {
    pc.Committed? || pc.Started? || pc.Resumed?
  }

  /** A thread won at most once per fault it survived, and once more if its last attempt committed. */
  ghost predicate WinsPaid(s: State, i: nat)
    requires i < |s.threads|
  {
    var t := s.threads[i];
    && (t.pc.Patch? || t.pc.PatchRead? ==> WinsBy(s.wins, i) == 0)
    && WinsBy(s.wins, i) <= t.faults + (if HasWon(t.pc) then 1 else 0)
    && (HasWon(t.pc) ==> WinsBy(s.wins, i) >= 1)
    && (t.pc.Failed? ==> t.faults <= MaxAttempts(t.kind))
    && (!t.pc.Failed? ==> t.faults < MaxAttempts(t.kind))
  }

  ghost predicate AllWinsPaid(s: State) {
    forall i :: 0 <= i < |s.threads| ==> WinsPaid(s, i)
  }

  /** Only the thread that commits has one win more. */
  lemma ThreadWinsBy(s: State, s': State, k: nat, i: nat)
    requires ThreadStep(s, s', k)
    ensures WinsBy(s'.wins, i) == WinsBy(s.wins, i) + (if i == k && Commits(s, s', k) then 1 else 0)
    ensures Commits(s, s', k) || s'.wins == s.wins
  {
    if Commits(s, s', k) { WinsByAppend(s.wins, s'.wins[|s.wins|], i); }
  }

  lemma EnvironmentWinsPaid(s: State, s': State)
    requires AllWinsPaid(s) && WinsOrdered(s) && EnvironmentStep(s, s')
    ensures AllWinsPaid(s')
  {
    forall k | 0 <= k < |s'.threads| ensures WinsPaid(s', k) {
      if k < |s.threads| { assert WinsPaid(s, k); } else { NoWins(s.wins, k); }
    }
  }

  lemma OtherWinsPaid(s: State, s': State, k: nat)
    requires AllWinsPaid(s) && ThreadStep(s, s', k) && WinsPaid(s', k)
    ensures AllWinsPaid(s')
  {
    forall i | 0 <= i < |s'.threads| ensures WinsPaid(s', i) {
      if i != k {
        assert WinsPaid(s, i);
        ThreadWinsBy(s, s', k, i);
      }
    }
  }

  lemma AdvanceWinsPaid(s: State, i: nat)
    requires s.stored != [] && i < |s.threads| && WinsPaid(s, i)
    ensures i < |AdvanceThread(s, i).threads| && WinsPaid(AdvanceThread(s, i), i)
  {
    AdvanceIsThreadStep(s, i);
    ThreadWinsBy(s, AdvanceThread(s, i), i, i);
    match s.threads[i].pc
    case Reserved(_) =>
    case _ =>
  }

  lemma FaultCounts(s: State, i: nat, retryable: bool, effect: Effect)
    requires s.stored != [] && i < |s.threads|
    ensures var s', t := FaultThread(s, i, retryable, effect), s.threads[i];
      if t.pc.Committed? || t.pc.Resumed? || t.pc.Duplicate? || t.pc.Failed? then s' == s
      else s'.threads == s.threads[i := t.(pc := AfterFault(t, retryable), faults := t.faults + 1, slot := false)]
  {
  }

  lemma FaultWinsBy(s: State, i: nat, retryable: bool, effect: Effect)
    requires s.stored != [] && i < |s.threads|
    ensures var s', t := FaultThread(s, i, retryable, effect), s.threads[i];
      WinsBy(s.wins, i) <= WinsBy(s'.wins, i) <= WinsBy(s.wins, i) + (if t.pc.Reserved? then 1 else 0)
  {
    FaultIsThreadStep(s, i, retryable, effect);
    ThreadWinsBy(s, FaultThread(s, i, retryable, effect), i, i);
  }

  lemma FaultWinsPaid(s: State, i: nat, retryable: bool, effect: Effect)
    requires s.stored != [] && i < |s.threads| && WinsPaid(s, i)
    ensures i < |FaultThread(s, i, retryable, effect).threads| && WinsPaid(FaultThread(s, i, retryable, effect), i)
  {
    FaultCounts(s, i, retryable, effect);
    FaultWinsBy(s, i, retryable, effect);
  }

  lemma NextWinsPaid(s: State, step: Step)
    requires AllWinsPaid(s) && WinsOrdered(s)
    ensures AllWinsPaid(Next(s, step))
  {
    NextShape(s, step);
    if EnvironmentStep(s, Next(s, step)) {
      EnvironmentWinsPaid(s, Next(s, step));
    } else {
      assert WinsPaid(s, step.thread);
      if step.Advance? { AdvanceWinsPaid(s, step.thread); }
      else { FaultWinsPaid(s, step.thread, step.retryable, step.effect); }
      OtherWinsPaid(s, Next(s, step), step.thread);
    }
  }

  // ---------- All invariants over whole runs ----------

  ghost predicate Inv(s: State) {
    AllTraceable(s) && WinsOrdered(s) && Owned(s) && Logged(s) && SlotsBalance(s) && AllWinsPaid(s)
  }

  lemma InitInv(data: RunData, waiting: bool, reserves: bool)
    ensures Inv(Init(data, waiting, reserves))
  {
  }

  lemma NextInv(s: State, step: Step)
    requires Inv(s)
    ensures Inv(Next(s, step))
  {
    var s' := Next(s, step);
    NextShape(s, step);
    ShapeTraceable(s, s', Acting(step));
    ShapeWinsOrdered(s, s', Acting(step));
    NextSlotsBalance(s, step);
    NextWinsPaid(s, step);
    if EnvironmentStep(s, s') {
      EnvironmentOwned(s, s');
      EnvironmentLogged(s, s');
    } else {
      ThreadOwned(s, s', Acting(step));
      ThreadStepLogged(s, s', Acting(step));
    }
  }

  lemma {:induction false} RunInv(s: State, steps: seq<Step>)
    requires Inv(s)
    ensures Inv(Run(s, steps))
    decreases |steps|
  {
    if steps != [] {
      NextInv(s, steps[0]);
      RunInv(Next(s, steps[0]), steps[1..]);
    }
  }

  lemma ReachableInv(data: RunData, waiting: bool, reserves: bool, steps: seq<Step>)
    ensures Inv(Run(Init(data, waiting, reserves), steps))
  {
    InitInv(data, waiting, reserves);
    RunInv(Init(data, waiting, reserves), steps);
  }

  // ---------- Main results: one resume per epoch ----------

  /**
   For any number of threads and any interleaving of their steps and faults: no epoch is ended
   twice, at most one thread is between its conditional update and the start of the run, and the
   capacity in use is exactly that of attempts awaiting their outcome or start, of runs not yet
   finalized and of registrations whose run never started; an attempt that was refused, failed or
   is to be retried holds none.
   */
  lemma AtMostOneResumePerEpoch(data: RunData, waiting: bool, reserves: bool, steps: seq<Step>)
    ensures var s := Run(Init(data, waiting, reserves), steps);
      && (forall i, j :: 0 <= i < j < |s.wins| ==> s.wins[i].epoch != s.wins[j].epoch)
      && (forall i, j :: 0 <= i < j < |s.threads| ==> !(Pending(s.threads[i].pc) && Pending(s.threads[j].pc)))
      && s.slots == CountSlots(s.threads) + (if reserves then s.runs + s.abandoned else 0)
      && (forall i :: 0 <= i < |s.threads| ==> (s.threads[i].slot <==> reserves && HoldsSlot(s.threads[i].pc)))
  {
    ReachableInv(data, waiting, reserves, steps);
    RunKeepsMode(Init(data, waiting, reserves), steps);
  }

  lemma {:induction false} RunKeepsMode(s: State, steps: seq<Step>)
    requires s.stored != []
    ensures Run(s, steps).reserves == s.reserves
    decreases |steps|
  {
    if steps != [] {
      NextShape(s, steps[0]);
      RunKeepsMode(Next(s, steps[0]), steps[1..]);
    }
  }

  ghost predicate OthersRefused(s: State, s': State) {
    && s'.wins == s.wins && !s'.row.status.Waiting? && |s.threads| <= |s'.threads|
    && forall i :: 0 <= i < |s'.threads| && HasWon(s'.threads[i].pc) ==> i < |s.threads| && HasWon(s.threads[i].pc)
  }

  /** Once an epoch has ended, no attempt succeeds until the execution waits again. */
  lemma {:induction false} EndedEpochRefusesAll(s: State, steps: seq<Step>)
    requires s.stored != [] && !s.row.status.Waiting?
    requires forall k :: 0 <= k < |steps| ==> !steps[k].EnterWaiting?
    ensures OthersRefused(s, Run(s, steps))
    decreases |steps|
  {
    if steps != [] {
      assert !steps[0].EnterWaiting?;
      RefusedStep(s, steps[0]);
      EndedEpochRefusesAll(Next(s, steps[0]), steps[1..]);
    }
  }

  lemma RefusedStep(s: State, step: Step)
    requires s.stored != [] && !s.row.status.Waiting? && !step.EnterWaiting?
    ensures OthersRefused(s, Next(s, step))
  {
    var s' := Next(s, step);
    NextShape(s, step);
    forall i | 0 <= i < |s'.threads| && HasWon(s'.threads[i].pc)
      ensures i < |s.threads| && HasWon(s.threads[i].pc)
    {
      if i < |s.threads| && s'.threads[i] != s.threads[i] { assert PcStep(s, s', Acting(step)); }
    }
  }

  // ---------- Main results: the data an epoch resumes with ----------

  /** Nothing runs the execution, is about to, or can resume it. */
  ghost predicate Deserted(s: State) {
    !s.row.status.Waiting? && !s.active && NonePending(s)
  }

  /** A deserted execution stays deserted: it never waits and is never resumed again. */
  lemma DesertedStep(s: State, step: Step)
    requires s.stored != [] && Deserted(s)
    ensures Deserted(Next(s, step)) && Next(s, step).wins == s.wins
    ensures Next(s, step).row.status == s.row.status || Next(s, step).row.status.Ended?
  {
    var s' := Next(s, step);
    NextShape(s, step);
    if EnvironmentStep(s, s') { EnvironmentPending(s, s'); }
    else { ThreadPending(s, s', Acting(step)); }
  }

  lemma {:induction false} DesertedForever(s: State, steps: seq<Step>)
    requires s.stored != [] && Deserted(s)
    ensures Deserted(Run(s, steps)) && Run(s, steps).wins == s.wins
    ensures Run(s, steps).row.status == s.row.status || Run(s, steps).row.status.Ended?
    decreases |steps|
  {
    if steps != [] {
      DesertedStep(s, steps[0]);
      DesertedForever(Next(s, steps[0]), steps[1..]);
    }
  }

  /** Everything an epoch may still be resumed with is good. */
  ghost predicate AllGood(good: Copy -> bool, s: State) {
    && good(s.row.copy)
    && forall i :: 0 <= i < |s.threads| && HeldCopy(s.threads[i].pc).Some? ==> good(HeldCopy(s.threads[i].pc).value)
  }

  ghost predicate KeptByPatches(good: Copy -> bool) {
    forall copy, items :: good(copy) ==> good(Patched(copy, items))
  }

  /** The first win after `n` wins is of this epoch and good, or is still to come, or never will. */
  ghost predicate EpochOutcome(good: Copy -> bool, epoch: int, n: nat, s: State) {
    || (s.row.status.Waiting? && AllGood(good, s) && |s.wins| == n && Epoch(s) == epoch)
    || (n < |s.wins| && s.wins[n].epoch == epoch && good(s.wins[n].copy))
    || (Deserted(s) && |s.wins| == n)
  }

  lemma GoodStep(good: Copy -> bool, s: State, s': State, k: nat)
    requires s.row.status.Waiting? && AllGood(good, s) && KeptByPatches(good) && Owned(s) && s.stored != []
    requires EnvironmentStep(s, s') || ThreadStep(s, s', k)
    ensures EpochOutcome(good, Epoch(s), |s.wins|, s')
  {
    if EnvironmentStep(s, s') { EnvironmentPending(s, s'); }
    else { ThreadPending(s, s', k); assert HeldCopy(s.threads[k].pc).Some? ==> good(HeldCopy(s.threads[k].pc).value); }
    if s'.row.status.Waiting? {
      forall i | 0 <= i < |s'.threads| && HeldCopy(s'.threads[i].pc).Some?
        ensures good(HeldCopy(s'.threads[i].pc).value)
      {
        CopiesComeFrom(s, s', k, i);
      }
    }
  }

  lemma {:induction false} RunEpochOutcome(good: Copy -> bool, epoch: int, n: nat, s: State, steps: seq<Step>)
    requires Inv(s) && KeptByPatches(good) && EpochOutcome(good, epoch, n, s)
    ensures EpochOutcome(good, epoch, n, Run(s, steps))
    decreases |steps|
  {
    if steps != [] {
      NextShape(s, steps[0]);
      NextInv(s, steps[0]);
      if s.row.status.Waiting? && AllGood(good, s) && |s.wins| == n && Epoch(s) == epoch {
        GoodStep(good, s, Next(s, steps[0]), Acting(steps[0]));
      } else if n < |s.wins| {
        ShapeGrows(s, Next(s, steps[0]), Acting(steps[0]));
      } else {
        DesertedStep(s, steps[0]);
      }
      RunEpochOutcome(good, epoch, n, Next(s, steps[0]), steps[1..]);
    }
  }

  lemma {:induction false} RunGrows(s: State, steps: seq<Step>)
    requires s.stored != []
    ensures Grows(s, Run(s, steps))
    decreases |steps|
  {
    if steps != [] {
      NextShape(s, steps[0]);
      ShapeGrows(s, Next(s, steps[0]), Acting(steps[0]));
      RunGrows(Next(s, steps[0]), steps[1..]);
    }
  }

  /** Every copy in use was read in the current epoch. */
  ghost predicate Quiet(s: State) {
    s.row.status.Waiting? && s.stored != [] && AllGood((copy: Copy) => copy.generation == Epoch(s), s)
  }

  /** An epoch begins quiet exactly if no thread still holds a copy read before it. */
  lemma QuietOnEntry(s: State, data: RunData)
    requires Inv(s) && s.active
    ensures Quiet(Next(s, EnterWaiting(data)))
       <==> forall i :: 0 <= i < |s.threads| ==> HeldCopy(s.threads[i].pc).None?
  {
    forall i | 0 <= i < |s.threads| && HeldCopy(s.threads[i].pc).Some?
      ensures HeldCopy(s.threads[i].pc).value.generation <= Epoch(s)
    {
      assert Traceable(s, HeldCopy(s.threads[i].pc).value);
    }
  }

  /** Equal but for the data of the first stack frame. */
  predicate SameButHead(a: RunData, b: RunData) {
    && a.rest == b.rest && |a.stack| == |b.stack|
    && forall k :: 0 <= k < |a.stack| ==> a.stack[k].node == b.stack[k].node && (k > 0 ==> a.stack[k] == b.stack[k])
  }

  lemma PatchKeepsAllButHead(data: RunData, items: Items, base: RunData)
    ensures SameButHead(WithHead(data, items), base) <==> SameButHead(data, base)
  {
    var patched := WithHead(data, items);
    if data.stack != [] {
      assert forall k :: 0 <= k < |data.stack| ==>
        patched.stack[k].node == data.stack[k].node && (k > 0 ==> patched.stack[k] == data.stack[k]);
    }
  }

  /** The first stack frame holds the output of some finished child. */
  ghost predicate HeadIsOutput(s: State, data: RunData) {
    data.stack != [] && IsOutput(s.threads, data.stack[0].data)
  }

  /** A patched copy carries a child's output at its head, and its generation everywhere else. */
  lemma PatchedHead(s: State, copy: Copy)
    requires Traceable(s, copy)
    ensures copy.patched ==> HeadIsOutput(s, copy.data)
    ensures SameButHead(copy.data, s.stored[copy.generation])
  {
    if copy.patched {
      var items :| IsOutput(s.threads, items) && copy.data == WithHead(s.stored[copy.generation], items);
      PatchKeepsAllButHead(s.stored[copy.generation], items, s.stored[copy.generation]);
      assert copy.data.stack[0].data == items;
    }
  }

  /**
   In every run: a resume with the data of its own epoch carries a child's output
   exactly if a patch preceded its load.
   */
  lemma PatchedIffWrittenBeforeLoad(data: RunData, waiting: bool, reserves: bool, steps: seq<Step>, i: nat)
    requires i < |Run(Init(data, waiting, reserves), steps).wins|
    ensures var s := Run(Init(data, waiting, reserves), steps);
      var w := s.wins[i];
      w.copy.generation == w.epoch ==>
        && (w.copy.patched <==> LoggedBefore(s.patches, w.epoch, w.loadedAt))
        && (w.read == Some(w.epoch) ==> w.copy.patched)
        && (w.copy.patched ==> HeadIsOutput(s, w.copy.data))
  {
    ReachableInv(data, waiting, reserves, steps);
    PatchedHead(Run(Init(data, waiting, reserves), steps), Run(Init(data, waiting, reserves), steps).wins[i].copy);
  }

  /**
   Whatever follows a quiet state, the resume that ends its epoch uses the data stored when the
   epoch began. A finished child's output is at the head of the stack if and only if some patch
   was written in this epoch before the winner loaded, and always if the winner is a child whose
   own patch had read the parent in this wait.
   */
  lemma QuietEpochResumesItsOwnData(s: State, steps: seq<Step>)
    requires Inv(s) && Quiet(s)
    ensures var s' := Run(s, steps);
      |s'.wins| > |s.wins| ==>
        var w := s'.wins[|s.wins|];
        && w.epoch == Epoch(s)
        && (w.copy.patched <==> LoggedBefore(s'.patches, Epoch(s), w.loadedAt))
        && (w.read == Some(w.epoch) ==> w.copy.patched)
        && (!w.copy.patched ==> w.copy.data == s.stored[Epoch(s)])
        && (w.copy.patched ==> HeadIsOutput(s', w.copy.data) && SameButHead(w.copy.data, s.stored[Epoch(s)]))
  {
    var s' := Run(s, steps);
    RunEpochOutcome((copy: Copy) => copy.generation == Epoch(s), Epoch(s), |s.wins|, s, steps);
    RunInv(s, steps);
    RunGrows(s, steps);
    if |s'.wins| > |s.wins| {
      var w := s'.wins[|s.wins|];
      PatchedHead(s', w.copy);
      assert LoadLogged(s', w.epoch, w.copy, w.read, w.loadedAt);
    }
  }

  /** If this epoch is ended by a resume, it is its own and with its data. */
  ghost predicate EndsFaithfully(s: State, steps: seq<Step>)
    requires s.stored != []
  {
    var s' := Run(s, steps);
    |s'.wins| > |s.wins| ==>
      s'.wins[|s.wins|].epoch == Epoch(s) && SameButHead(s'.wins[|s.wins|].copy.data, s.stored[Epoch(s)])
  }

  ghost predicate Agrees(s: State, copy: Copy)
    requires s.stored != []
  {
    SameButHead(copy.data, s.stored[Epoch(s)])
  }

  /** The row and every copy some thread holds agree with what the epoch stored. */
  ghost predicate AllAgree(s: State)
    requires s.stored != []
  {
    && Agrees(s, s.row.copy)
    && forall i :: 0 <= i < |s.threads| && HeldCopy(s.threads[i].pc).Some? ==>
         Agrees(s, HeldCopy(s.threads[i].pc).value)
  }

  lemma AgreementIsKept(s: State, steps: seq<Step>)
    requires Inv(s) && s.row.status.Waiting? && AllAgree(s)
    ensures EndsFaithfully(s, steps)
  {
    var good := (copy: Copy) => SameButHead(copy.data, s.stored[Epoch(s)]);
    forall copy, items | good(copy) ensures good(Patched(copy, items)) {
      PatchKeepsAllButHead(copy.data, items, s.stored[Epoch(s)]);
    }
    RunEpochOutcome(good, Epoch(s), |s.wins|, s, steps);
  }

  lemma Run1(s: State, a: Step)
    requires s.stored != []
    ensures Run(s, [a]) == Next(s, a)
  {
    assert [a][1..] == [];
  }

  lemma RunConcat(s: State, steps: seq<Step>, more: seq<Step>)
    requires s.stored != []
    ensures Run(s, steps + more) == Run(Run(s, steps), more)
    decreases |steps|
  {
    if steps == [] {
      assert steps + more == more;
    } else {
      assert (steps + more)[1..] == steps[1..] + more;
      RunConcat(Next(s, steps[0]), steps[1..], more);
    }
  }

  lemma Then(s: State, steps: seq<Step>, step: Step) returns (more: seq<Step>)
    requires s.stored != []
    ensures more == steps + [step] && Run(s, more) == Next(Run(s, steps), step)
  {
    more := steps + [step];
    RunConcat(s, steps, [step]);
    Run1(Run(s, steps), step);
  }

  /** A thread that holds a loaded copy while the execution waits can win with it. */
  lemma HolderCanWin(s: State, i: nat) returns (steps: seq<Step>)
    requires Inv(s) && s.row.status.Waiting? && i < |s.threads|
    requires s.threads[i].pc.Loaded? || s.threads[i].pc.Reserved?
    ensures var s' := Run(s, steps);
      |s'.wins| > |s.wins| && s'.wins[|s.wins|].thread == i && s'.wins[|s.wins|].copy == s.threads[i].pc.copy
  {
    steps := [];
    if s.threads[i].pc.Loaded? { steps := Then(s, steps, Advance(i)); }
    steps := Then(s, steps, Advance(i));
  }

  /** A timer that fires while the execution waits can win with the copy of the row. */
  lemma TimerCanWin(s: State) returns (steps: seq<Step>)
    requires Inv(s) && s.row.status.Waiting?
    ensures var s' := Run(s, steps); |s'.wins| > |s.wins| && s'.wins[|s.wins|].copy == s.row.copy
  {
    var i := |s.threads|;
    steps := Then(s, [], Spawn(Timer));
    steps := Then(s, steps, Advance(i));
    var loaded := Run(s, steps);
    assert loaded.threads[i].pc == Loaded(s.row.copy);
    RunInv(s, steps);
    var more := HolderCanWin(loaded, i);
    RunConcat(s, steps, more);
    steps := steps + more;
  }

  /** A patch that was read can be written, and a timer then wins with it. */
  lemma PatchReadCanWin(s: State, i: nat) returns (steps: seq<Step>)
    requires Inv(s) && s.row.status.Waiting? && i < |s.threads| && s.threads[i].pc.PatchRead?
    ensures var s' := Run(s, steps);
      |s'.wins| > |s.wins| && s'.wins[|s.wins|].copy == Patched(s.threads[i].pc.copy, s.threads[i].pc.items)
  {
    steps := Then(s, [], Advance(i));
    RunInv(s, steps);
    var more := TimerCanWin(Run(s, steps));
    RunConcat(s, steps, more);
    steps := steps + more;
  }

  lemma DisagreementCanWin(s: State) returns (steps: seq<Step>)
    requires Inv(s) && s.row.status.Waiting? && !AllAgree(s)
    ensures !EndsFaithfully(s, steps)
  {
    if !Agrees(s, s.row.copy) {
      steps := TimerCanWin(s);
    } else {
      var i :| 0 <= i < |s.threads| && HeldCopy(s.threads[i].pc).Some? && !Agrees(s, HeldCopy(s.threads[i].pc).value);
      if s.threads[i].pc.PatchRead? {
        steps := PatchReadCanWin(s, i);
        PatchKeepsAllButHead(s.threads[i].pc.copy.data, s.threads[i].pc.items, s.stored[Epoch(s)]);
      } else {
        steps := HolderCanWin(s, i);
      }
    }
  }

  /**
   From any reachable state that waits: every continuation resumes this wait with the data it
   stored, up to a child's output, if and only if the row and all copies that threads hold agree
   with that data now.
   */
  lemma ResumesFaithfullyIffAllCopiesAgree(data: RunData, waiting: bool, reserves: bool, steps: seq<Step>)
    requires Run(Init(data, waiting, reserves), steps).row.status.Waiting?
    ensures var s := Run(Init(data, waiting, reserves), steps);
      (forall more :: EndsFaithfully(s, more)) <==> AllAgree(s)
  {
    ReachableInv(data, waiting, reserves, steps);
    var s := Run(Init(data, waiting, reserves), steps);
    if AllAgree(s) {
      forall more ensures EndsFaithfully(s, more) { AgreementIsKept(s, more); }
    } else {
      var more := DisagreementCanWin(s);
      assert !EndsFaithfully(s, more);
    }
  }

  /** Stale or not, what a resume uses was stored by the execution itself, up to a child's output. */
  lemma EveryResumeIsOfItsGeneration(data: RunData, waiting: bool, reserves: bool, steps: seq<Step>, i: nat)
    requires i < |Run(Init(data, waiting, reserves), steps).wins|
    ensures var s := Run(Init(data, waiting, reserves), steps);
      var copy := s.wins[i].copy;
      && s.wins[i].epoch < |s.stored| && copy.generation < |s.stored|
      && (if copy.patched then HeadIsOutput(s, copy.data) && SameButHead(copy.data, s.stored[copy.generation])
          else copy.data == s.stored[copy.generation])
  {
    ReachableInv(data, waiting, reserves, steps);
    var s := Run(Init(data, waiting, reserves), steps);
    PatchedHead(s, s.wins[i].copy);
  }

  // ---------- Main results: a parent nobody runs ----------

  /** A row that says `running` has a run, or a thread that is about to start it. */
  ghost predicate Attended(s: State) {
    s.row.status.Running? ==> s.active || !NonePending(s)
  }

  /** The update took effect but its call throws, or the start throws before the run begins. */
  ghost predicate Strands(s: State, step: Step) {
    && step.Fault? && step.thread < |s.threads|
    && (|| (s.threads[step.thread].pc.Reserved? && step.effect.After? && s.row.status.Waiting?)
        || (s.threads[step.thread].pc.Started? && step.effect.Before? && s.row.status.Running?))
  }

  /** From an attended state, exactly these two faults leave the row running with nobody behind it. */
  lemma StrandsExactlyByFault(s: State, step: Step)
    requires Inv(s) && Attended(s)
    ensures Attended(Next(s, step)) <==> !Strands(s, step)
  {
    var s' := Next(s, step);
    if step.Fault? && step.thread < |s.threads| {
      FaultAttended(s, step);
    } else if step.Advance? && step.thread < |s.threads| {
      AdvanceAttended(s, step.thread);
    } else {
      NextShape(s, step);
      SamePending(s, s');
    }
  }

  lemma SamePending(s: State, s': State)
    requires EnvironmentStep(s, s')
    ensures NonePending(s) <==> NonePending(s')
  {
    EnvironmentPending(s, s');
    assert forall i :: 0 <= i < |s.threads| ==> s'.threads[i] == s.threads[i];
  }

  lemma AdvanceAttended(s: State, i: nat)
    requires Inv(s) && Attended(s) && i < |s.threads|
    ensures Attended(AdvanceThread(s, i))
  {
    var s' := AdvanceThread(s, i);
    assert forall j :: 0 <= j < |s.threads| && j != i ==> s'.threads[j] == s.threads[j];
    if s.threads[i].pc.Committed? || (s.threads[i].pc.Reserved? && s.row.status.Waiting?) {
      assert Pending(s'.threads[i].pc);
    } else if !NonePending(s) && !s.threads[i].pc.Started? {
      var j :| 0 <= j < |s.threads| && Pending(s.threads[j].pc);
      assert Pending(s'.threads[j].pc);
    }
  }

  lemma FaultAttended(s: State, step: Step)
    requires Inv(s) && Attended(s) && step.Fault? && step.thread < |s.threads|
    ensures Attended(Next(s, step)) <==> !Strands(s, step)
  {
    var i, s' := step.thread, Next(s, step);
    FaultIsThreadStep(s, i, step.retryable, step.effect);
    ThreadPending(s, s', i);
    if Strands(s, step) {
      FaultLeavesNonePending(s, step);
    } else if !NonePending(s) && !s.threads[i].pc.Started? {
      var j :| 0 <= j < |s.threads| && Pending(s.threads[j].pc);
      assert Pending(s'.threads[j].pc);
    }
  }

  lemma FaultLeavesNonePending(s: State, step: Step)
    requires Inv(s) && Strands(s, step)
    ensures Deserted(Next(s, step)) && Next(s, step).row.status.Running?
  {
    var i, s' := step.thread, Next(s, step);
    FaultIsThreadStep(s, i, step.retryable, step.effect);
    assert !Pending(s'.threads[i].pc);
    forall j | 0 <= j < |s'.threads| ensures !Pending(s'.threads[j].pc) {
      if j != i { assert s'.threads[j] == s.threads[j]; }
    }
  }

  ghost predicate NeverStrands(s: State, steps: seq<Step>)
    requires s.stored != []
    decreases |steps|
  {
    steps == [] || (!Strands(s, steps[0]) && NeverStrands(Next(s, steps[0]), steps[1..]))
  }

  lemma {:induction false} AttendedAlong(s: State, steps: seq<Step>)
    requires Inv(s) && Attended(s)
    ensures NeverStrands(s, steps) ==> Attended(Run(s, steps))
    ensures !NeverStrands(s, steps) ==> Deserted(Run(s, steps))
    decreases |steps|
  {
    if steps != [] {
      NextInv(s, steps[0]);
      if Strands(s, steps[0]) {
        FaultLeavesNonePending(s, steps[0]);
        DesertedForever(Next(s, steps[0]), steps[1..]);
      } else {
        StrandsExactlyByFault(s, steps[0]);
        AttendedAlong(Next(s, steps[0]), steps[1..]);
      }
    }
  }

  /**
   In every run that leaves the row `running`: a run is in progress or a thread is about to start
   one if and only if no fault of the two kinds has happened. Once one has, nothing ever resumes
   the execution and it never waits again.
   */
  lemma RunningHasARunIffNeverStranded(data: RunData, waiting: bool, reserves: bool, steps: seq<Step>)
    ensures var s := Run(Init(data, waiting, reserves), steps);
      && (s.row.status.Running? ==>
            (s.active || !NonePending(s) <==> NeverStrands(Init(data, waiting, reserves), steps)))
      && (s.active ==> s.runs >= 1)
      && (!NeverStrands(Init(data, waiting, reserves), steps) ==>
            forall more :: Run(s, more).wins == s.wins && !Run(s, more).row.status.Waiting?)
  {
    var init := Init(data, waiting, reserves);
    var s := Run(init, steps);
    InitInv(data, waiting, reserves);
    ReachableInv(data, waiting, reserves, steps);
    AttendedAlong(init, steps);
    if !NeverStrands(init, steps) {
      forall more ensures Run(s, more).wins == s.wins && !Run(s, more).row.status.Waiting? {
        DesertedForever(s, more);
      }
    }
  }

  // ---------- Main results: retries ----------

  /** The start of the run took effect, its call throws nevertheless, and a retry is left. */
  ghost predicate Repeats(s: State, step: Step) {
    && step.Fault? && step.thread < |s.threads| && step.effect.After? && step.retryable
    && s.threads[step.thread].pc.Started?
    && s.threads[step.thread].faults + 1 < MaxAttempts(s.threads[step.thread].kind)
  }

  /** A thread that won is done, or nothing is left for it to win. */
  ghost predicate WonOnce(s: State, i: nat)
    requires i < |s.threads|
  {
    if HasWon(s.threads[i].pc) then WinsBy(s.wins, i) == 1
    else WinsBy(s.wins, i) == 0 || (WinsBy(s.wins, i) == 1 && (s.threads[i].pc.Failed? || Deserted(s)))
  }

  ghost predicate AllWonOnce(s: State) {
    forall i :: 0 <= i < |s.threads| ==> WonOnce(s, i)
  }

  lemma WonOnceStep(s: State, step: Step)
    requires Inv(s) && AllWonOnce(s) && !Repeats(s, step)
    ensures AllWonOnce(Next(s, step))
  {
    NextShape(s, step);
    forall i | 0 <= i < |Next(s, step).threads| ensures WonOnce(Next(s, step), i) {
      if EnvironmentStep(s, Next(s, step)) || i != step.thread {
        OtherWonOnce(s, step, i);
      } else {
        assert WonOnce(s, i);
        if step.Advance? { AdvanceWonOnce(s, i); } else { FaultWonOnce(s, step); }
      }
    }
  }

  lemma OtherWonOnce(s: State, step: Step, i: nat)
    requires Inv(s) && AllWonOnce(s) && i < |Next(s, step).threads|
    requires EnvironmentStep(s, Next(s, step)) || (ThreadStep(s, Next(s, step), Acting(step)) && i != Acting(step))
    ensures WonOnce(Next(s, step), i)
  {
    if i >= |s.threads| {
      NoWins(s.wins, i);
    } else {
      assert WonOnce(s, i) && Next(s, step).threads[i] == s.threads[i];
      if Deserted(s) { DesertedStep(s, step); }
      if !EnvironmentStep(s, Next(s, step)) { ThreadWinsBy(s, Next(s, step), Acting(step), i); }
    }
  }

  lemma AdvanceWonOnce(s: State, i: nat)
    requires Inv(s) && i < |s.threads| && WonOnce(s, i)
    ensures i < |AdvanceThread(s, i).threads| && WonOnce(AdvanceThread(s, i), i)
  {
    AdvanceIsThreadStep(s, i);
    ThreadWinsBy(s, AdvanceThread(s, i), i, i);
    if Deserted(s) { DesertedStep(s, Advance(i)); }
  }

  lemma FaultWonOnce(s: State, step: Step)
    requires Inv(s) && step.Fault? && step.thread < |s.threads| && WonOnce(s, step.thread) && !Repeats(s, step)
    ensures WonOnce(Next(s, step), step.thread)
  {
    var i, s' := step.thread, Next(s, step);
    FaultIsThreadStep(s, i, step.retryable, step.effect);
    ThreadWinsBy(s, s', i, i);
    if s.threads[i].pc.Started? || Commits(s, s', i) {
      FaultEndsOrDeserts(s, step);
    } else if Deserted(s) {
      DesertedStep(s, step);
    }
  }

  /** Behind the conditional update, a fault that does not repeat deserts the execution or is the thread's last. */
  lemma FaultEndsOrDeserts(s: State, step: Step)
    requires Inv(s) && step.Fault? && step.thread < |s.threads| && !Repeats(s, step)
    requires s.threads[step.thread].pc.Started? || Commits(s, Next(s, step), step.thread)
    ensures Deserted(Next(s, step)) || Next(s, step).threads[step.thread].pc.Failed?
    ensures !HasWon(Next(s, step).threads[step.thread].pc)
  {
    var i, s' := step.thread, Next(s, step);
    FaultIsThreadStep(s, i, step.retryable, step.effect);
    assert !Pending(s'.threads[i].pc);
    forall j | 0 <= j < |s'.threads| ensures !Pending(s'.threads[j].pc) {
      if j != i { assert s'.threads[j] == s.threads[j]; }
    }
  }

  ghost predicate NeverRepeats(s: State, steps: seq<Step>)
    requires s.stored != []
    decreases |steps|
  {
    steps == [] || (!Repeats(s, steps[0]) && NeverRepeats(Next(s, steps[0]), steps[1..]))
  }

  lemma {:induction false} WonOnceAlong(s: State, steps: seq<Step>)
    requires Inv(s) && AllWonOnce(s) && NeverRepeats(s, steps)
    ensures AllWonOnce(Run(s, steps))
    decreases |steps|
  {
    if steps != [] {
      NextInv(s, steps[0]);
      WonOnceStep(s, steps[0]);
      WonOnceAlong(Next(s, steps[0]), steps[1..]);
    }
  }

  /** With a retry left behind a started run, the thread can win the next wait of the execution. */
  lemma RepeatCanWinAgain(s: State, step: Step, data: RunData) returns (more: seq<Step>)
    requires Inv(s) && Repeats(s, step)
    ensures Run(s, more).stored == s.stored + [data]
    ensures more != [] && more[0] == step && WinsBy(Run(s, more).wins, step.thread) > WinsBy(s.wins, step.thread)
  {
    var i := step.thread;
    more := Then(s, [], step);
    more := Then(s, more, EnterWaiting(data));
    more := Then(s, more, Advance(i));
    var loaded := Run(s, more);
    assert loaded.threads[i].pc.Loaded? && loaded.wins == s.wins && loaded.row.status.Waiting?;
    more := Then(s, more, Advance(i));
    more := Then(s, more, Advance(i));
    WinsByAppend(s.wins, Run(s, more).wins[|s.wins|], i);
  }

  lemma {:induction false} SpentForever(s: State, steps: seq<Step>, i: nat)
    requires s.stored != [] && i < |s.threads| && (s.threads[i].pc.Failed? || Deserted(s))
    ensures WinsBy(Run(s, steps).wins, i) == WinsBy(s.wins, i)
    decreases |steps|
  {
    if Deserted(s) {
      DesertedForever(s, steps);
    } else if steps != [] {
      FailedStep(s, steps[0], i);
      SpentForever(Next(s, steps[0]), steps[1..], i);
    }
  }

  lemma FailedStep(s: State, step: Step, i: nat)
    requires s.stored != [] && i < |s.threads| && s.threads[i].pc.Failed?
    ensures Next(s, step).threads[i].pc.Failed? && WinsBy(Next(s, step).wins, i) == WinsBy(s.wins, i)
  {
    NextShape(s, step);
    if !EnvironmentStep(s, Next(s, step)) {
      ThreadWinsBy(s, Next(s, step), step.thread, i);
      if i != step.thread { assert Next(s, step).threads[i] == s.threads[i]; }
    }
  }

  /**
   A fault while a run is being started lets the same thread win again, in some continuation, if
   and only if the run did start and the thread has a retry left.
   */
  lemma SecondWinExactlyByRepeat(s: State, step: Step)
    requires Inv(s) && AllWonOnce(s)
    requires step.Fault? && step.thread < |s.threads| && s.threads[step.thread].pc.Started?
    ensures (exists more :: WinsBy(Run(Next(s, step), more).wins, step.thread) > 1) <==> Repeats(s, step)
  {
    var i := step.thread;
    assert WonOnce(s, i);
    if Repeats(s, step) {
      var more := RepeatCanWinAgain(s, step, s.row.copy.data);
      assert Run(s, more) == Run(Next(s, step), more[1..]);
    } else {
      FaultEndsOrDeserts(s, step);
      WonOnceStep(s, step);
      assert WonOnce(Next(s, step), i);
      forall more ensures WinsBy(Run(Next(s, step), more).wins, i) <= 1 {
        SpentForever(Next(s, step), more, i);
      }
    }
  }

  /**
   In every run in which no fault hits a started run with a retry left, every thread resumes the
   execution at most once. At whatever point such a fault does occur, some continuation has the
   same thread resume the execution once more.
   */
  lemma ResumesOnceUnlessRepeated(data: RunData, waiting: bool, reserves: bool, steps: seq<Step>)
    ensures var init := Init(data, waiting, reserves);
      var s := Run(init, steps);
      && (NeverRepeats(init, steps) ==> forall i :: 0 <= i < |s.threads| ==> WinsBy(s.wins, i) <= 1)
      && (forall step :: Repeats(s, step) ==> exists more ::
            more != [] && more[0] == step && WinsBy(Run(s, more).wins, step.thread) > WinsBy(s.wins, step.thread))
  {
    var s := Run(Init(data, waiting, reserves), steps);
    if NeverRepeats(Init(data, waiting, reserves), steps) {
      UnrepeatedResumesOnce(data, waiting, reserves, steps);
    }
    ReachableInv(data, waiting, reserves, steps);
    forall step | Repeats(s, step)
      ensures exists more ::
            more != [] && more[0] == step && WinsBy(Run(s, more).wins, step.thread) > WinsBy(s.wins, step.thread)
    {
      var more := RepeatCanWinAgain(s, step, data);
      assert more != [] && more[0] == step && WinsBy(Run(s, more).wins, step.thread) > WinsBy(s.wins, step.thread);
    }
  }

  lemma UnrepeatedResumesOnce(data: RunData, waiting: bool, reserves: bool, steps: seq<Step>)
    requires NeverRepeats(Init(data, waiting, reserves), steps)
    ensures var s := Run(Init(data, waiting, reserves), steps);
      forall i :: 0 <= i < |s.threads| ==> WinsBy(s.wins, i) <= 1
  {
    var s := Run(Init(data, waiting, reserves), steps);
    InitInv(data, waiting, reserves);
    WonOnceAlong(Init(data, waiting, reserves), steps);
    forall i | 0 <= i < |s.threads| ensures WinsBy(s.wins, i) <= 1 {
      assert WonOnce(s, i);
    }
  }

  lemma {:induction false} SomeWin(wins: seq<Win>, i: nat)
    requires WinsBy(wins, i) >= 1
    ensures exists k :: 0 <= k < |wins| && wins[k].thread == i
  {
    if wins[|wins| - 1].thread != i { SomeWin(wins[..|wins| - 1], i); }
  }

  /**
   Whatever faults occur, one child resumes its parent at most as often as it may attempt to, and
   never twice in the same epoch.
   */
  lemma ChildResumesBoundedly(data: RunData, waiting: bool, reserves: bool, steps: seq<Step>, i: nat)
    requires i < |Run(Init(data, waiting, reserves), steps).threads|
    ensures var s := Run(Init(data, waiting, reserves), steps);
      && WinsBy(s.wins, i) <= MaxAttempts(s.threads[i].kind)
      && (forall j, k :: 0 <= j < k < |s.wins| && s.wins[j].thread == s.wins[k].thread == i ==>
            s.wins[j].epoch < s.wins[k].epoch)
  {
    ReachableInv(data, waiting, reserves, steps);
    assert WinsPaid(Run(Init(data, waiting, reserves), steps), i);
  }

  /** A thread that returns without the failure log either resumed the parent itself or found it not waiting. */
  lemma QuietReturnMeansParentLeft(s: State, step: Step, i: nat)
    requires Inv(s) && i < |s.threads|
    ensures var s' := Next(s, step);
      && (s'.threads[i].pc.Resumed? ==> exists k :: 0 <= k < |s'.wins| && s'.wins[k].thread == i)
      && (s'.threads[i].pc.Duplicate? && !s.threads[i].pc.Duplicate? ==> !s.row.status.Waiting?)
  {
    var s' := Next(s, step);
    NextInv(s, step);
    assert WinsPaid(s', i);
    if s'.threads[i].pc.Resumed? { SomeWin(s'.wins, i); }
    if s.row.status.Waiting? && !s.threads[i].pc.Duplicate? { NoDuplicateWhileWaiting(s, step, i); }
  }

  lemma NoDuplicateWhileWaiting(s: State, step: Step, i: nat)
    requires s.stored != [] && i < |s.threads| && s.row.status.Waiting? && !s.threads[i].pc.Duplicate?
    ensures !Next(s, step).threads[i].pc.Duplicate?
  {
    NextShape(s, step);
    if !EnvironmentStep(s, Next(s, step)) {
      if i != step.thread { assert Next(s, step).threads[i] == s.threads[i]; }
      else if step.Fault? { FaultCounts(s, i, step.retryable, step.effect); }
    }
  }

  // ---------- Main results: the parent of the execution ----------

  lemma {:induction false} ResumedForever(s: State, steps: seq<Step>, i: nat)
    requires s.stored != [] && i < |s.threads| && s.threads[i].pc.Resumed?
    ensures i < |Run(s, steps).threads| && Run(s, steps).threads[i].pc.Resumed?
    decreases |steps|
  {
    if steps != [] {
      ResumedStep(s, steps[0], i);
      ResumedForever(Next(s, steps[0]), steps[1..], i);
    }
  }

  lemma ResumedStep(s: State, step: Step, i: nat)
    requires s.stored != [] && i < |s.threads| && s.threads[i].pc.Resumed?
    ensures Next(s, step).threads[i].pc.Resumed?
  {
    NextShape(s, step);
    if !EnvironmentStep(s, Next(s, step)) && i != step.thread {
      assert Next(s, step).threads[i] == s.threads[i];
    }
  }

  /**
   If the execution has a parent of its own, the thread that resumed the execution arranges the
   resume of that parent, but only after its call returned. So for a run that was begun, and until
   the execution waits again, somebody new gets that far if and only if the call that began it did
   not throw; otherwise the execution goes on, ends, and its parent is never resumed by it. That a
   call which returns gets that far is the step itself; the point is that nobody else makes up for
   one that threw.
   */
  lemma ParentArrangedIffStartReturns(
    data: RunData, waiting: bool, reserves: bool, steps: seq<Step>, step: Step, more: seq<Step>)
    requires var s := Run(Init(data, waiting, reserves), steps);
      && (step.Advance? || step.Fault?) && step.thread < |s.threads| && s.threads[step.thread].pc.Started?
      && Next(s, step).active
    requires forall k :: 0 <= k < |more| ==> !more[k].EnterWaiting?
    ensures var s := Run(Init(data, waiting, reserves), steps);
      var s' := Run(Next(s, step), more);
      && s'.wins == s.wins && |s.threads| <= |s'.threads|
      && (s'.threads[step.thread].pc.Resumed? <==> step.Advance?)
      && forall j :: 0 <= j < |s'.threads| && j != step.thread && s'.threads[j].pc.Resumed? ==>
           j < |s.threads| && s.threads[j].pc.Resumed?
  {
    var s := Run(Init(data, waiting, reserves), steps);
    var started, i := Next(s, step), step.thread;
    ReachableInv(data, waiting, reserves, steps);
    StartedRun(s, step);
    EndedEpochRefusesAll(started, more);
    if step.Advance? { ResumedForever(started, more, i); }
    assert started.threads == s.threads[i := started.threads[i]];
  }

  lemma StartedRun(s: State, step: Step)
    requires Inv(s) && (step.Advance? || step.Fault?) && step.thread < |s.threads|
    requires s.threads[step.thread].pc.Started? && Next(s, step).active
    ensures var s' := Next(s, step);
      && s'.stored != [] && s'.row.status.Running? && s'.wins == s.wins
      && s'.threads == s.threads[step.thread := s'.threads[step.thread]]
      && (if step.Advance? then s'.threads[step.thread].pc.Resumed? else !HasWon(s'.threads[step.thread].pc))
      && forall j :: 0 <= j < |s.threads| && j != step.thread ==> !Pending(s.threads[j].pc)
  {
    var s' := Next(s, step);
    NextInv(s, step);
    NextShape(s, step);
    assert NonePending(s');
    forall j | 0 <= j < |s.threads| && j != step.thread ensures !Pending(s.threads[j].pc) {
      assert s'.threads[j] == s.threads[j];
    }
  }

  // ---------- What the protocol does give ----------

  /**
   From every reachable waiting state with something on its stack: a finished child that nobody
   interferes with resumes the execution with its output at the head of the stack and everything
   else as it was, and takes one slot for the run.
   */
  lemma ChildResumesParent(s: State, items: Items) returns (steps: seq<Step>)
    requires Inv(s) && s.row.status.Waiting? && s.row.copy.data.stack != []
    ensures var s', n := Run(s, steps), |s.wins|;
      && |s'.wins| == n + 1 && s'.wins[n].thread == |s.threads| && s'.wins[n].epoch == Epoch(s)
      && s'.row == Row(Running, s'.wins[n].copy) && s'.active && s'.runs == s.runs + 1
      && s'.row.copy.data.stack != [] && s'.row.copy.data.stack[0].data == items
      && SameButHead(s'.row.copy.data, s.row.copy.data)
      && |s'.threads| == |s.threads| + 1 && s'.threads[|s.threads|].pc.Resumed?
      && s'.slots == s.slots + (if s.reserves then 1 else 0)
  {
    var i := |s.threads|;
    steps := Then(s, [], Spawn(Child(Some(items))));
    steps := Then(s, steps, Advance(i));
    steps := Then(s, steps, Advance(i));
    steps := Then(s, steps, Advance(i));
    var loaded := Run(s, steps);
    assert loaded.threads[i].pc == Loaded(Patched(s.row.copy, items)) && loaded.row.status.Waiting?;
    steps := StartLoaded(s, steps, i);
    PatchKeepsAllButHead(s.row.copy.data, items, s.row.copy.data);
  }

  /** A run in progress ends with its outcome, and once it is finalized its slot is free again. */
  lemma RunEndsAndReleases(s: State, finished: bool)
    requires Inv(s) && s.active
    ensures var s' := Run(s, [End(finished), Finalize]);
      && s'.row == Row(Ended(finished), s.row.copy) && !s'.active && s'.runs == s.runs - 1
      && s'.slots == s.slots - (if s.reserves then 1 else 0)
  {
    RunConcat(s, [End(finished)], [Finalize]);
    Run1(s, End(finished));
    Run1(Next(s, End(finished)), Finalize);
    assert [End(finished)] + [Finalize] == [End(finished), Finalize];
  }

  /** Only a run in progress stores anything, and then exactly what it was given. */
  lemma OnlyARunStores(s: State, data: RunData)
    requires Inv(s)
    ensures var waits, goesOn := Next(s, EnterWaiting(data)), Next(s, SaveProgress(data));
      if s.active then
        && waits.row.status == Waiting && !waits.active && waits.row.copy.data == data
        && waits.stored == s.stored + [data]
        && goesOn.row.status == Running && goesOn.active && goesOn.row.copy.data == data
        && goesOn.stored == s.stored + [data]
      else waits == s && goesOn == s
  {
  }

  /** A stop ends whatever has not ended, stops its run, and settles a registration that never ran. */
  lemma CancelEndsEverything(s: State)
    requires Inv(s)
    ensures var s' := Next(s, Cancel);
      && s'.row.status.Ended? && !s'.active && s'.row.copy == s.row.copy && s'.slots == s.slots
      && (s.row.status.Ended? ==> s' == s)
      && (!s.row.status.Ended? ==>
            s'.row.status == Ended(false) && s'.abandoned == 0 && s'.runs == s.runs + s.abandoned)
  {
  }

  /** What is patched is the row as it was read, and only while it waits for this child's output. */
  lemma PatchReadsTheWaitingRow(s: State, i: nat)
    requires Inv(s) && i < |s.threads| && s.threads[i].pc.Patch?
    ensures var s', t := AdvanceThread(s, i), s.threads[i];
      i < |s'.threads| &&
      if t.kind.Child? && t.kind.output.Some? && s.row.status == Waiting && s.row.copy.data.stack != []
      then s'.threads[i].pc == PatchRead(s.row.copy, t.kind.output.value) && s'.threads[i].faults == t.faults
      else s'.threads[i].pc == Load && s'.threads[i].faults == 0
  {
  }

  /** The write puts this child's output at the head, whatever the row holds by then; its retries start anew. */
  lemma PatchWritesTheOutput(s: State, i: nat)
    requires Inv(s) && i < |s.threads| && s.threads[i].pc.PatchRead?
    ensures var s', t := AdvanceThread(s, i), s.threads[i];
      && t.kind.Child? && t.kind.output.Some?
      && s'.row.status == s.row.status && SameButHead(s'.row.copy.data, t.pc.copy.data)
      && s'.row.copy.data.stack != [] && s'.row.copy.data.stack[0].data == t.kind.output.value
      && i < |s'.threads| && s'.threads[i].pc == Load && s'.threads[i].faults == 0
  {
    assert WritesOwnOutput(s.threads[i]);
    PatchKeepsAllButHead(s.threads[i].pc.copy.data, s.threads[i].pc.items, s.threads[i].pc.copy.data);
  }

  /** A finished execution is not resumed; any other row is loaded as it is, waiting or not. */
  lemma LoadRefusesFinished(s: State, i: nat)
    requires Inv(s) && i < |s.threads| && s.threads[i].pc.Load?
    ensures var s' := AdvanceThread(s, i);
      i < |s'.threads| && s'.threads[i].pc == if s.row.status == Ended(true) then Failed else Loaded(s.row.copy)
  {
  }

  /**
   The start of a run, from the registration on: the slot stays taken in every case. The run is in
   progress and its row says so, even if it was cancelled meanwhile, if the start takes effect;
   otherwise its registration is abandoned, or waits to be finalized behind a recorded failure.
   */
  lemma StartOutcomes(s: State, i: nat, retryable: bool, effect: Effect)
    requires Inv(s) && i < |s.threads| && s.threads[i].pc.Started?
    ensures var begun, failed := AdvanceThread(s, i), FaultThread(s, i, retryable, effect);
      && begun.row == Row(Running, s.row.copy) && begun.active && begun.runs == s.runs + 1 && begun.slots == s.slots
      && failed.slots == s.slots && failed.row.copy == s.row.copy
      && match effect
         case Before =>
           failed.row == s.row && !failed.active && failed.runs == s.runs && failed.abandoned == s.abandoned + 1
         case After => failed.row.status == Running && failed.active && failed.runs == s.runs + 1
         case Recorded => failed.row.status == Ended(false) && !failed.active && failed.runs == s.runs + 1
  {
    assert Pending(s.threads[i].pc);
  }

  /**
   A call that throws up to the conditional update: the attempt gives back what it holds, and the
   thread begins its current phase anew unless the error is final, it is a timer, or this was the
   third fault of the phase. Unless the call took effect, nothing else changes.
   */
  lemma FaultedAttempt(s: State, i: nat, retryable: bool, effect: Effect)
    requires Inv(s) && i < |s.threads|
    requires s.threads[i].pc.Patch? || s.threads[i].pc.PatchRead? || s.threads[i].pc.Load?
          || s.threads[i].pc.Loaded? || s.threads[i].pc.Reserved?
    ensures var s', t := FaultThread(s, i, retryable, effect), s.threads[i];
      && i < |s'.threads| && !s'.threads[i].slot && s'.slots == s.slots - (if t.slot then 1 else 0)
      && (s'.threads[i].pc.Failed? <==> !retryable || t.kind.Timer? || t.faults == 2)
      && (s'.threads[i].pc.Failed? || s'.threads[i].pc == if t.pc.Patch? || t.pc.PatchRead? then Patch else Load)
      && s'.threads[i].faults == t.faults + 1
      && (!effect.After? ==> s'.row == s.row && s'.wins == s.wins && s'.patches == s.patches && s'.active == s.active)
  {
    assert WinsPaid(s, i);
  }

  // ---------- What the protocol does not give ----------

  /**
   The required status does not identify the epoch: of two timers that loaded the same epoch, the
   second may win the next one, and the execution then resumes with the data of the previous wait.
   */
  lemma StaleLoadWinsNextEpoch(first: RunData, second: RunData, reserves: bool) returns (steps: seq<Step>)
    ensures var s := Run(Init(first, true, reserves), steps);
      |s.stored| == 2 && s.stored[1] == second && |s.wins| == 2
      && s.wins[1].epoch == 1 && s.wins[1].copy.data == first
  {
    var s := Init(first, true, reserves);
    steps := [];
    steps := Then(s, steps, Spawn(Timer));
    steps := Then(s, steps, Spawn(Timer));
    steps := Then(s, steps, Advance(0));
    steps := Then(s, steps, Advance(1));
    steps := StartLoaded(s, steps, 0);
    steps := Then(s, steps, EnterWaiting(second));
    steps := Then(s, steps, Advance(1));
    steps := Then(s, steps, Advance(1));
  }

  /** While the execution waits, a thread that loaded it may reserve, commit, register and start. */
  lemma StartLoaded(s: State, steps: seq<Step>, i: nat) returns (more: seq<Step>)
    requires s.stored != [] && i < |Run(s, steps).threads| && Run(s, steps).row.status.Waiting?
    requires Run(s, steps).threads[i].pc.Loaded?
    ensures var was := Run(s, steps);
      var t := was.threads[i];
      Run(s, more) == was.(
        row := Row(Running, t.pc.copy),
        threads := was.threads[i := t.(pc := Resumed, slot := false)],
        wins := was.wins + [Win(i, |was.stored| - 1, t.pc.copy, t.read, t.loadedAt)],
        slots := if was.reserves then was.slots + 1 else was.slots,
        active := true,
        runs := was.runs + 1)
  {
    more := Then(s, steps, Advance(i));
    more := Then(s, more, Advance(i));
    more := Then(s, more, Advance(i));
    more := Then(s, more, Advance(i));
  }

  /** The patch writes without a condition: written late, it puts the previous wait's data into the next. */
  lemma StalePatchOverwritesNextEpoch(first: RunData, second: RunData, items: Items, reserves: bool)
    returns (steps: seq<Step>)
    requires first.stack != []
    ensures var s := Run(Init(first, true, reserves), steps);
      s.row.status.Waiting? && Epoch(s) == 1 && s.stored[1] == second
      && s.row.copy.data.stack != [] && s.row.copy.data.stack[0].data == items && SameButHead(s.row.copy.data, first)
  {
    var s := Init(first, true, reserves);
    steps := [];
    steps := Then(s, steps, Spawn(Child(Some(items))));
    steps := Then(s, steps, Spawn(Timer));
    steps := Then(s, steps, Advance(0));
    steps := Then(s, steps, Advance(1));
    steps := StartLoaded(s, steps, 1);
    steps := Then(s, steps, EnterWaiting(second));
    steps := Then(s, steps, Advance(0));
  }

  /**
   A child that finishes before its parent's wait is stored skips the patch but still resumes:
   the parent continues with its own data although the child produced output.
   */
  lemma EarlyChildLosesItsOutput(before: RunData, data: RunData, items: Items, reserves: bool)
    returns (steps: seq<Step>)
    ensures var s := Run(Init(before, false, reserves), steps);
      && |s.wins| == 1 && s.wins[0].thread == 0 && |s.threads| == 1 && s.threads[0].kind == Child(Some(items))
      && s.wins[0].copy.data == data
  {
    var s := Init(before, false, reserves);
    steps := [];
    steps := Then(s, steps, Spawn(Child(Some(items))));
    steps := Then(s, steps, Advance(0));
    steps := Then(s, steps, EnterWaiting(data));
    steps := Then(s, steps, Advance(0));
    steps := Then(s, steps, Advance(0));
    steps := Then(s, steps, Advance(0));
  }

  /** A child with nothing to copy loads the waiting parent and reserves. */
  lemma ReachReserved(data: RunData, reserves: bool) returns (steps: seq<Step>)
    ensures var copy := Copy(data, 0, false);
      Run(Init(data, true, reserves), steps)
      == Init(data, true, reserves).(threads := [Thread(Child(None), Reserved(copy), 0, None, 0, reserves)],
                                     slots := if reserves then 1 else 0)
  {
    var s := Init(data, true, reserves);
    steps := Then(s, [], Spawn(Child(None)));
    steps := Then(s, steps, Advance(0));
    steps := Then(s, steps, Advance(0));
    steps := Then(s, steps, Advance(0));
  }

  lemma ReachStarted(data: RunData, reserves: bool) returns (steps: seq<Step>)
    ensures var copy := Copy(data, 0, false);
      Run(Init(data, true, reserves), steps)
      == Init(data, true, reserves).(row := Row(Running, copy),
                                     threads := [Thread(Child(None), Started, 0, None, 0, reserves)],
                                     wins := [Win(0, 0, copy, None, 0)],
                                     slots := if reserves then 1 else 0)
  {
    var s := Init(data, true, reserves);
    steps := ReachReserved(data, reserves);
    steps := Then(s, steps, Advance(0));
    steps := Then(s, steps, Advance(0));
  }

  /**
   A run in which one child resumes its parent in two successive waits:
   its retry follows a start that took effect.
   */
  lemma RetryResumesNextEpoch(first: RunData, second: RunData, reserves: bool) returns (steps: seq<Step>)
    ensures var s := Run(Init(first, true, reserves), steps);
      WinsBy(s.wins, 0) > 1 && s.stored == [first, second]
  {
    var s := Init(first, true, reserves);
    steps := ReachStarted(first, reserves);
    ReachableInv(first, true, reserves, steps);
    var started := Run(s, steps);
    WinsByAppend([], started.wins[0], 0);
    var more := RepeatCanWinAgain(started, Fault(0, true, After), second);
    RunConcat(s, steps, more);
    steps := steps + more;
  }

  /** From a lost resume on, the retry finds the parent `running`, takes it for resumed and returns. */
  lemma RetryFindsDuplicate(s: State, steps: seq<Step>) returns (more: seq<Step>)
    requires s.stored != [] && |Run(s, steps).threads| == 1 && Run(s, steps).row.status.Running?
    requires Run(s, steps).threads[0].pc.Load? && !Run(s, steps).threads[0].slot
    ensures var was, s' := Run(s, steps), Run(s, more);
      |s'.threads| == 1 && s'.threads[0].pc.Duplicate? && s'.row == was.row
      && s'.slots == was.slots && s'.active == was.active && s'.runs == was.runs && s'.abandoned == was.abandoned
  {
    more := Then(s, steps, Advance(0));
    more := Then(s, more, Advance(0));
    more := Then(s, more, Advance(0));
  }

  /**
   The conditional update takes effect but its call throws: the child returns normally, and the
   parent is left running with no run anywhere.
   */
  lemma CommittedFaultStrandsParent(data: RunData, reserves: bool) returns (steps: seq<Step>)
    ensures var s := Run(Init(data, true, reserves), steps);
      && s.row.status.Running? && !s.active && s.runs == s.abandoned == 0 && s.slots == 0
      && |s.threads| == 1 && s.threads[0].pc.Duplicate?
  {
    var s := Init(data, true, reserves);
    steps := ReachReserved(data, reserves);
    steps := Then(s, steps, Fault(0, true, After));
    steps := RetryFindsDuplicate(s, steps);
  }

  /**
   The start throws between the registration and the beginning of the run: the child returns
   normally, and the parent is left running behind a registration that keeps its slot.
   */
  lemma FaultedStartStrandsParent(data: RunData, reserves: bool) returns (steps: seq<Step>)
    ensures var s := Run(Init(data, true, reserves), steps);
      && s.row.status.Running? && !s.active && s.runs == 0 && s.abandoned == 1 && s.slots == (if reserves then 1 else 0)
      && |s.threads| == 1 && s.threads[0].pc.Duplicate?
  {
    var s := Init(data, true, reserves);
    steps := ReachStarted(data, reserves);
    steps := Then(s, steps, Fault(0, true, Before));
    steps := RetryFindsDuplicate(s, steps);
  }
}
