/**
 Execution deadlines: of a main workflow, of nested sub-workflows, and across waits. Timeouts are
 in seconds, instants in milliseconds.
 */
module Deadlines {
  import opened Common

  /** The instance-wide timeout and its maximum; a value that is not positive means none. */
  datatype Config = Config(timeout: int, maxTimeout: int)

  // ---------- Sub-workflows ----------

  function Clamp(timeout: int, c: Config): int {
    if c.maxTimeout > 0 then Min(timeout, c.maxTimeout) else timeout
  }

  /** The deadline of a workflow on its own: its setting, or else the instance default. */
  function DetermineWorkflowDeadline(start: int, setting: Option<int>, c: Config): Option<int> {
    if setting.Some? then
      if setting.value <= 0 then None else Some(start + Clamp(setting.value, c) * 1000)
    else if c.timeout > 0 then Some(start + Clamp(c.timeout, c) * 1000)
    else None
  }

  /**
   A timeout is asked for by the setting or else by the instance default, and only a positive one
   counts; it ends that many seconds after the start, or after the maximum if that is less.
   */
  lemma DeadlineAsksAndClamps(start: int, setting: Option<int>, c: Config)
    ensures var asked := if setting.Some? then setting.value else c.timeout;
      DetermineWorkflowDeadline(start, setting, c)
      == if asked <= 0 then None
         else if 0 < c.maxTimeout < asked then Some(start + 1000 * c.maxTimeout)
         else Some(start + 1000 * asked)
  {
  }

  function ResolveSubworkflowDeadline(own: Option<int>, parent: Option<int>, doNotWait: bool): Option<int> {
    if doNotWait then own
    else if parent.Some? && own.Some? then Some(Min(parent.value, own.value))
    else if parent.Some? then parent
    else own
  }

  datatype Call = Call(start: int, setting: Option<int>, doNotWait: bool)

  function OwnDeadline(call: Call, c: Config): Option<int> {
    DetermineWorkflowDeadline(call.start, call.setting, c)
  }

  /** The deadline of the innermost of a chain of nested calls, outermost first. */
  function ChainDeadline(root: Option<int>, calls: seq<Call>, c: Config): Option<int>
    decreases |calls|
  {
    if calls == [] then root
    else ChainDeadline(ResolveSubworkflowDeadline(OwnDeadline(calls[0], c), root, calls[0].doNotWait), calls[1..], c)
  }

  function Push(d: Option<int>, s: seq<int>): seq<int> {
    if d.Some? then [d.value] + s else s
  }

  /** A single call: its own timeout counts from its start, and what it waits under may only shorten it. */
  lemma OneCallsDeadline(root: Option<int>, call: Call, c: Config)
    ensures var asked := if call.setting.Some? then call.setting.value else c.timeout;
      var limit := if 0 < c.maxTimeout < asked then c.maxTimeout else asked;
      var own := call.start + 1000 * limit;
      ChainDeadline(root, [call], c)
      == if asked <= 0 then (if call.doNotWait then None else root)
         else if call.doNotWait || root.None? || own < root.value then Some(own)
         else root
  {
    assert [call][1..] == [];
    DeadlineAsksAndClamps(call.start, call.setting, c);
  }

  function DefinedByCalls(calls: seq<Call>, c: Config): seq<int> {
    if calls == [] then [] else Push(OwnDeadline(calls[0], c), DefinedByCalls(calls[1..], c))
  }

  /** The defined deadlines of a chain: the root's and every call's own. */
  function Defined(root: Option<int>, calls: seq<Call>, c: Config): seq<int> {
    Push(root, DefinedByCalls(calls, c))
  }

  /** `d` is the least of `s`, and undefined only if there is none. */
  ghost predicate IsLeast(d: Option<int>, s: seq<int>) {
    if d.None? then s == [] else d.value in s && forall x :: x in s ==> d.value <= x
  }

  lemma PushMembers(d: Option<int>, s: seq<int>)
    ensures forall x :: x in Push(d, s) <==> x in s || d == Some(x)
    ensures Push(d, s) == [] <==> d.None? && s == []
  {
  }

  /**
   Along a chain of calls that are waited for, the deadline is the least of those defined on it,
   and undefined only if none is defined.
   */
  lemma {:induction false} WaitedChainTakesTheLeast(root: Option<int>, calls: seq<Call>, c: Config)
    requires forall k :: 0 <= k < |calls| ==> !calls[k].doNotWait
    ensures IsLeast(ChainDeadline(root, calls, c), Defined(root, calls, c))
    decreases |calls|
  {
    if calls != [] {
      var own, rest := OwnDeadline(calls[0], c), DefinedByCalls(calls[1..], c);
      var inner := ResolveSubworkflowDeadline(own, root, false);
      WaitedChainTakesTheLeast(inner, calls[1..], c);
      LeastOfFirstTwo(root, own, rest, ChainDeadline(root, calls, c));
    }
  }

  lemma LeastOfFirstTwo(root: Option<int>, own: Option<int>, rest: seq<int>, d: Option<int>)
    requires IsLeast(d, Push(ResolveSubworkflowDeadline(own, root, false), rest))
    ensures IsLeast(d, Push(root, Push(own, rest)))
  {
    PushMembers(ResolveSubworkflowDeadline(own, root, false), rest);
    PushMembers(own, rest);
    PushMembers(root, Push(own, rest));
    if d.Some? {
      var inner := ResolveSubworkflowDeadline(own, root, false);
      if inner.Some? { assert inner.value in Push(inner, rest); }
    }
  }

  /** A call that is not waited for starts a fresh chain: nothing outside it limits it or its callees. */
  lemma {:induction false} UnwaitedCallStartsAfresh(
    root: Option<int>, outer: seq<Call>, call: Call, inner: seq<Call>, c: Config)
    requires call.doNotWait
    ensures ChainDeadline(root, outer + [call] + inner, c) == ChainDeadline(OwnDeadline(call, c), inner, c)
    decreases |outer|
  {
    var calls := outer + [call] + inner;
    if outer == [] {
      assert calls == [call] + inner && calls[1..] == inner;
    } else {
      assert calls[1..] == outer[1..] + [call] + inner;
      UnwaitedCallStartsAfresh(
        ResolveSubworkflowDeadline(OwnDeadline(outer[0], c), root, outer[0].doNotWait), outer[1..], call, inner, c);
    }
  }

  // ---------- Main workflows ----------

  /** The effective timeout of a main workflow; not positive means none. */
  method MainTimeout(setting: Option<int>, c: Config) returns (timeout: int)
    ensures timeout == EffectiveTimeout(setting, c)
    ensures timeout > 0 ==> timeout <= c.maxTimeout && DetermineWorkflowDeadline(0, setting, c) == Some(timeout * 1000)
  {
    timeout := if setting.Some? then setting.value else c.timeout;
    if timeout > 0 {
      timeout := Min(timeout, c.maxTimeout);
    }
  }

  function EffectiveTimeout(setting: Option<int>, c: Config): int {
    var chosen := if setting.Some? then setting.value else c.timeout;
    if chosen > 0 then Min(chosen, c.maxTimeout) else chosen
  }

  /** Positive exactly if a timeout is asked for and there is a positive maximum, which it never exceeds. */
  lemma EffectiveIsLeast(setting: Option<int>, c: Config)
    ensures var asked, t := if setting.Some? then setting.value else c.timeout, EffectiveTimeout(setting, c);
      && (t > 0 <==> asked > 0 && c.maxTimeout > 0)
      && (t > 0 ==> t == if asked <= c.maxTimeout then asked else c.maxTimeout)
  {
  }

  /** The deadline a main workflow passes on to its sub-workflows when it starts or resumes. */
  function SoftDeadline(now: int, setting: Option<int>, c: Config): Option<int> {
    var timeout := EffectiveTimeout(setting, c);
    if timeout <= 0 then None else Some(now + timeout * 1000)
  }

  /**
   The main and the sub-workflow computation agree exactly if there is a positive maximum or no
   timeout is asked for; without a maximum the main computation ignores every timeout.
   */
  lemma MainAndSubAgreeIffMaximum(now: int, setting: Option<int>, c: Config)
    ensures SoftDeadline(now, setting, c) == DetermineWorkflowDeadline(now, setting, c)
       <==> c.maxTimeout > 0 || (if setting.Some? then setting.value else c.timeout) <= 0
  {
  }

  /** When the run is stopped: at once, or by a timer. */
  method StopInstant(setting: Option<int>, c: Config, startedAt: Option<int>, now: int) returns (stop: Option<int>)
    ensures EffectiveTimeout(setting, c) <= 0 ==> stop.None?
    ensures EffectiveTimeout(setting, c) > 0 ==>
        stop == Some(StopAt(EffectiveTimeout(setting, c) * 1000, if startedAt.Some? then startedAt.value else now, now))
  {
    var workflowTimeout := MainTimeout(setting, c);
    if workflowTimeout <= 0 {
      return None;
    }
    var timeout := Min(workflowTimeout, c.maxTimeout) * 1000;
    if startedAt.Some? {
      timeout := Max(timeout - (now - startedAt.value), 0);
    }
    // a timeout of 0 stops at once, any other arms a timer
    stop := Some(now + timeout);
  }

  function StopAt(limit: int, startedAt: int, now: int): int {
    Max(now, startedAt + limit)
  }

  // ---------- Across waits ----------

  /**
   One run of an execution, its first or one after a wait: when its row is set running, when its
   timer is armed, and whether the wait tracker resumed it. Only the tracker passes on the row's
   `startedAt`; a resume through a webhook or a chat message does not.
   */
  datatype Segment = Segment(byTracker: bool, running: int, armed: int)

  /** The row's `startedAt`, and the stop instant of every segment so far. */
  datatype Progress = Progress(startedAt: Option<int>, stops: seq<int>)

  function AfterSegment(p: Progress, limit: int, segment: Segment): Progress {
    var from := if segment.byTracker && p.startedAt.Some? then p.startedAt.value else segment.armed;
    Progress(if p.startedAt.Some? then p.startedAt else Some(segment.running),
             p.stops + [StopAt(limit, from, segment.armed)])
  }

  function AfterSegments(limit: int, segments: seq<Segment>): Progress {
    if segments == [] then Progress(None, [])
    else AfterSegment(AfterSegments(limit, segments[..|segments| - 1]), limit, segments[|segments| - 1])
  }

  class Row {
    var startedAt: Option<int>

    constructor ()
      ensures startedAt == None
    {
      startedAt := None;
    }

    /** Preserves the original instant for resumed executions. */
    method SetRunning(now: int) returns (effective: int)
      modifies this
      ensures startedAt == Some(effective) && effective == if old(startedAt).Some? then old(startedAt).value else now
    {
      effective := if startedAt.Some? then startedAt.value else now;
      startedAt := Some(effective);
    }

    method RunSegment(setting: Option<int>, c: Config, segment: Segment, ghost before: Progress)
      returns (stop: Option<int>)
      requires before.startedAt == startedAt
      modifies this
      ensures var limit := EffectiveTimeout(setting, c) * 1000;
        var after := AfterSegment(before, limit, segment);
        startedAt == after.startedAt && (if limit > 0 then stop == Some(after.stops[|before.stops|]) else stop.None?)
    {
      var given := if segment.byTracker then startedAt else None;
      var _ := SetRunning(segment.running);
      stop := StopInstant(setting, c, given, segment.armed);
    }
  }

  /**
   Whatever waits and resumes follow: the row keeps the instant its first segment wrote, a segment
   resumed by the tracker stops at max(now, startedAt + limit) for that instant, and any other
   has a whole budget from when its own timer is armed.
   */
  lemma {:induction false} SegmentStops(limit: int, segments: seq<Segment>)
    requires segments != [] && limit >= 0
    ensures var p := AfterSegments(limit, segments);
      && p.startedAt == Some(segments[0].running) && |p.stops| == |segments|
      && forall k :: 0 <= k < |segments| ==>
           p.stops[k] == if k == 0 || !segments[k].byTracker then segments[k].armed + limit
                         else Max(segments[k].armed, segments[0].running + limit)
    decreases |segments|
  {
    if |segments| > 1 {
      SegmentStops(limit, segments[..|segments| - 1]);
    } else {
      assert segments[..0] == [];
    }
  }

  /** The segments of one execution follow each other in time. */
  ghost predicate Ordered(segments: seq<Segment>) {
    && (forall k :: 0 <= k < |segments| ==> segments[k].running <= segments[k].armed)
    && (forall j, k :: 0 <= j < k < |segments| ==> segments[j].armed <= segments[k].running)
  }

  /**
   A later segment stops no later than the first would have, if and only if the tracker resumed it
   by then; resumed in any other way it does only if no time has passed at all. The tracker's
   resumes within the budget all stop at the one instant startedAt + limit, and later ones at once.
   */
  lemma WaitingExtendsBudgetUnlessTracked(limit: int, segments: seq<Segment>, k: nat)
    requires Ordered(segments) && 0 < k < |segments| && limit >= 0
    ensures var p := AfterSegments(limit, segments);
      && |p.stops| == |segments| && p.startedAt.Some?
      && (p.stops[k] <= p.stops[0] <==>
            if segments[k].byTracker then segments[k].armed <= p.stops[0] else segments[k].armed == segments[0].armed)
      && (segments[k].byTracker ==>
            p.stops[k] == if segments[k].armed <= p.startedAt.value + limit then p.startedAt.value + limit
                           else segments[k].armed)
  {
    SegmentStops(limit, segments);
    assert segments[0].running <= segments[0].armed <= segments[k].running <= segments[k].armed;
  }

  /**
   The deadline passed to sub-workflows is counted from the resume, not from the start: it lies
   behind the stop instant by the time already elapsed, up to a whole budget.
   */
  lemma SoftDeadlineDriftsWithWaits(startedAt: int, now: int, setting: Option<int>, c: Config)
    requires startedAt <= now && EffectiveTimeout(setting, c) > 0
    ensures var limit := EffectiveTimeout(setting, c) * 1000;
      SoftDeadline(now, setting, c).value - StopAt(limit, startedAt, now) == Min(now - startedAt, limit)
  {
  }
}
