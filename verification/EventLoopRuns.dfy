/**
 How runs of the event loop end and what becomes of the scheduled tasks: a stop is honoured
 after the current batch and before the next epoll_wait, and scheduled tasks are started in
 the order they were scheduled and never left over.
 */
module EventLoopRuns {
  import opened Options
  import opened EventMasks
  import opened EventLoopModel
  import opened EventLoopSafety

  // ---------------------------------------------------------------- stopping

  /** The events of the current batch that are still to be handled. */
  function Remaining(pc: Pc): seq<Event> {
    match pc
    case Handling(frame) => if frame.at <= |frame.events| then frame.events[frame.at..] else []
    case InCallback(frame) => if frame.at < |frame.events| then frame.events[frame.at + 1..] else []
    case Draining(frame) => if frame.at < |frame.events| then frame.events[frame.at + 1..] else []
    case InTask(frame) => if frame.at < |frame.events| then frame.events[frame.at + 1..] else []
    case _ => []
  }

  ghost predicate Indexed(pc: Pc) {
    && (pc.Handling? ==> pc.frame.at <= |pc.frame.events|)
    && (pc.InCallback? || pc.Draining? || pc.InTask? ==> pc.frame.at < |pc.frame.events|)
  }

  lemma NextKeepsIndexed(m: Machine, step: Step)
    requires Indexed(m.pc)
    ensures Indexed(Next(m, step).pc)
  {
    hide PerformCall, Deref;
  }

  lemma {:induction false} ExecKeepsIndexed(m: Machine, steps: seq<Step>)
    requires Indexed(m.pc)
    ensures Indexed(Exec(m, steps).pc)
    decreases steps
  {
    hide Indexed, Next;
    if steps != [] {
      NextKeepsIndexed(m, steps[0]);
      ExecKeepsIndexed(Next(m, steps[0]), steps[1..]);
    }
  }

  /** `run` is under way, not in epoll_wait, and has been told to stop. */
  ghost predicate Stopping(m: Machine) {
    !m.loop.running && (m.pc.Head? || InFrame(m.pc))
  }

  ghost predicate Ended(m: Machine) {
    !m.loop.running && m.pc.Outside? && m.result == Some(Normal)
  }

  lemma CallKeepsStopped(l: Loop, call: Call)
    requires !l.running
    ensures !PerformCall(l, call).running
  {
  }

  lemma HandleMovesOn(m: Machine)
    requires m.pc.Handling? && Indexed(m.pc)
    ensures var m' := Handle(m);
      && m'.loop == m.loop && m'.waits == m.waits && (m'.pc.Head? || InFrame(m'.pc))
      && m'.handled + Remaining(m'.pc) == m.handled + Remaining(m.pc)
  {
    hide Deref;
    var frame := m.pc.frame;
    if frame.at < |frame.events| {
      var ev := frame.events[frame.at];
      var rest := frame.events[frame.at + 1..];
      assert Remaining(m.pc) == [ev] + rest;
      Regroup(m.handled, ev, rest);
      if Deref(m.loop, ev.ptr).Some? {
        assert Handle(m).handled == m.handled + [ev];
        assert Remaining(Handle(m).pc) == rest;
      }
    }
  }

  lemma Regroup(a: seq<Event>, e: Event, b: seq<Event>)
    ensures a + ([e] + b) == (a + [e]) + b
  {
  }

  lemma OtherKeepsBatch(m: Machine, step: Step)
    requires Indexed(m.pc) && !step.WaitReturns?
    requires !(step.HandleNext? && m.pc.Handling?)
    ensures var m' := Next(m, step); m'.handled == m.handled && Remaining(m'.pc) == Remaining(m.pc)
  {
    hide PerformCall, Handle, Reportable, Events;
  }

  /** No step but a return of epoll_wait changes what is handled and still to be handled. */
  lemma NextKeepsBatch(m: Machine, step: Step)
    requires Indexed(m.pc) && !step.WaitReturns?
    ensures var m' := Next(m, step); m'.handled + Remaining(m'.pc) == m.handled + Remaining(m.pc)
  {
    if step.HandleNext? && m.pc.Handling? {
      hide Handle, Remaining;
      HandleMovesOn(m);
    } else {
      hide Apply, Remaining;
      OtherKeepsBatch(m, step);
    }
  }

  lemma {:induction false} ExecKeepsBatch(m: Machine, steps: seq<Step>)
    requires Indexed(m.pc)
    requires forall step :: step in steps ==> !step.WaitReturns?
    ensures var m' := Exec(m, steps); m'.handled + Remaining(m'.pc) == m.handled + Remaining(m.pc)
    decreases steps
  {
    hide Indexed, Next, Remaining;
    if steps != [] {
      assert steps[0] in steps;
      assert forall step :: step in steps[1..] ==> step in steps;
      NextKeepsBatch(m, steps[0]);
      NextKeepsIndexed(m, steps[0]);
      ExecKeepsBatch(Next(m, steps[0]), steps[1..]);
    }
  }

  /** Every reported event is handled, once and in the order of the report, before the next wait:
      epoll_wait may return up to three events of distinct fds, and whatever the callbacks and
      tasks do, what has been handled and what is left of the batch is always the whole report;
      nothing is left when the loop is at its head again. */
  lemma BatchIsHandledInOrder(steps: seq<Step>, ready: seq<Ready>, more: seq<Step>)
    requires var m := Exec(START, steps);
      && m.pc.Waiting? && |ready| <= 3
      && (forall i :: 0 <= i < |ready| ==> ready[i].fd in m.loop.interest)
      && (forall i, j :: 0 <= i < j < |ready| ==> ready[i].fd != ready[j].fd)
    requires forall step :: step in more ==> !step.WaitReturns?
    ensures var m := Exec(START, steps);
      var m' := Exec(Next(m, WaitReturns(ready)), more);
      var events := Events(m.loop, ready);
      && |events| == |ready|
      && (forall i :: 0 <= i < |ready| ==>
            && events[i].fd == ready[i].fd && events[i].bits == ready[i].bits
            && ready[i].fd in m.loop.fds && events[i].ptr == m.loop.fds[ready[i].fd].addr)
      && m'.handled + Remaining(m'.pc) == m.handled + events
      && (m'.pc.Head? || m'.pc.Waiting? || m'.pc.Outside? ==> m'.handled == m.handled + events)
  {
    hide Deref, PerformCall, Handle;
    var m := Exec(START, steps);
    InterestAgreesInEveryRun(steps);
    ExecKeepsIndexed(START, steps);
    assert Enabled(m, WaitReturns(ready));
    NextKeepsIndexed(m, WaitReturns(ready));
    var m1 := Next(m, WaitReturns(ready));
    assert Remaining(m1.pc) == Events(m.loop, ready) by {
      assert ready == [] ==> Events(m.loop, ready) == [];
    }
    ExecKeepsBatch(m1, more);
  }

  lemma NextWhileStopping(m: Machine, step: Step)
    requires Indexed(m.pc) && (Stopping(m) || Ended(m)) && !step.EnterRun?
    ensures var m' := Next(m, step);
      && (Stopping(m') || Ended(m'))
      && m'.waits == m.waits
      && m'.handled + Remaining(m'.pc) == m.handled + Remaining(m.pc)
  {
    hide PerformCall, Handle, Reportable, Events, Remaining;
    if step.Api? {
      CallKeepsStopped(m.loop, step.call);
    }
    if step.HandleNext? && m.pc.Handling? {
      HandleMovesOn(m);
    }
    if step.WaitReturns? {
      assert !Enabled(m, step);
    } else {
      NextKeepsBatch(m, step);
    }
  }

  lemma {:induction false} ExecWhileStopping(m: Machine, steps: seq<Step>)
    requires Indexed(m.pc) && (Stopping(m) || Ended(m))
    requires forall step :: step in steps ==> !step.EnterRun?
    ensures var m' := Exec(m, steps);
      && (Stopping(m') || Ended(m'))
      && m'.waits == m.waits
      && m'.handled + Remaining(m'.pc) == m.handled + Remaining(m.pc)
    decreases steps
  {
    hide Indexed, Next, Remaining, Stopping, Ended;
    if steps != [] {
      assert steps[0] in steps;
      assert forall step :: step in steps[1..] ==> step in steps;
      NextWhileStopping(m, steps[0]);
      NextKeepsIndexed(m, steps[0]);
      ExecWhileStopping(Next(m, steps[0]), steps[1..]);
    }
  }

  /** After a callback or a task calls `stop()` no further epoll_wait happens in that run,
      whatever other calls are made; when `run` has returned, it returned NORMAL and every
      remaining event of the batch was handled, in order. */
  lemma StopEndsTheRun(steps: seq<Step>, more: seq<Step>)
    requires var m := Exec(START, steps); m.pc.InCallback? || m.pc.InTask?
    requires forall step :: step in more ==> !step.EnterRun?
    ensures var m := Next(Exec(START, steps), Api(Stop));
      var m' := Exec(m, more);
      && m'.waits == m.waits
      && (m'.pc.Outside? ==> m'.result == Some(Normal) && m'.handled == m.handled + Remaining(m.pc))
  {
    ExecKeepsIndexed(START, steps);
    var m0 := Exec(START, steps);
    NextKeepsIndexed(m0, Api(Stop));
    ExecWhileStopping(Next(m0, Api(Stop)), more);
  }

  /** Exactly when `run` returns, and what: NORMAL at the loop's head when it was told to stop or no
      handler is left, INTERNAL_FAULT when epoll_wait fails. At its head it waits otherwise. */
  lemma RunReturnsIff(m: Machine, step: Step)
    requires !m.pc.Outside?
    ensures var m' := Next(m, step);
      var over := m.pc.Head? && step.TestHead? && (!m.loop.running || m.loop.fds == map[]);
      var failed := m.pc.Waiting? && step.WaitFails?;
      && (m'.pc.Outside? <==> over || failed)
      && (over ==> m'.result == Some(Normal))
      && (failed ==> m'.result == Some(InternalFault))
      && (m.pc.Head? && step.TestHead? && !over ==> m'.pc.Waiting?)
  {
    hide PerformCall, Deref;
  }

  lemma NextKeepsRunning(m: Machine, step: Step)
    requires m.loop.running && step != Api(Stop)
    ensures Next(m, step).loop.running
  {
    hide PerformCall, Handle, Reportable, Events;
    if step.Api? {
      CallKeepsRunning(m.loop, step.call);
    }
    if step.HandleNext? && m.pc.Handling? {
      HandleLeavesLoop(m);
    }
  }

  lemma CallKeepsRunning(l: Loop, call: Call)
    requires l.running && !call.Stop?
    ensures PerformCall(l, call).running
  {
    hide ConvertToEpollEvents, Live, Allocate;
  }

  lemma HandleLeavesLoop(m: Machine)
    requires m.pc.Handling?
    ensures Handle(m).loop == m.loop
  {
    hide Deref;
  }

  lemma {:induction false} ExecKeepsRunning(m: Machine, steps: seq<Step>)
    requires m.loop.running && forall step :: step in steps ==> step != Api(Stop)
    ensures Exec(m, steps).loop.running
    decreases steps
  {
    hide Next;
    if steps != [] {
      assert steps[0] in steps;
      assert forall step :: step in steps[1..] ==> step in steps;
      NextKeepsRunning(m, steps[0]);
      ExecKeepsRunning(Next(m, steps[0]), steps[1..]);
    }
  }

  /** The other half of `StopEndsTheRun`: a `run` in which nobody calls `stop()` goes on waiting as
      long as there is a handler, and returns NORMAL only when there is none, though an earlier
      `run` was stopped. */
  lemma RunsUntilStopped(steps: seq<Step>, more: seq<Step>)
    requires Exec(START, steps).pc.Outside?
    requires forall step :: step in more ==> step != Api(Stop)
    ensures var m := Exec(Next(Exec(START, steps), EnterRun), more);
      && m.loop.running
      && (m.pc.Head? && m.loop.fds != map[] ==> Next(m, TestHead).pc.Waiting?)
      && (m.pc.Head? && m.loop.fds == map[] ==> Next(m, TestHead).pc.Outside? && Next(m, TestHead).result == Some(Normal))
  {
    var m1 := Next(Exec(START, steps), EnterRun);
    ExecKeepsRunning(m1, more);
    var m := Exec(m1, more);
    if m.pc.Head? {
      RunReturnsIff(m, TestHead);
    }
  }

  // ---------------------------------------------------------------- scheduled tasks

  /** Started tasks followed by queued ones are the scheduled ones, in order; and the queue is
      empty between events once a callback was called. */
  ghost predicate TasksOrdered(m: Machine) {
    && m.loop.scheduled == m.loop.started + m.loop.queue
    && (m.dispatched && (m.pc.Head? || m.pc.Waiting? || m.pc.Handling?) ==> m.loop.queue == [])
  }

  lemma CallKeepsTasks(l: Loop, call: Call)
    ensures var l' := PerformCall(l, call);
      && l'.started == l.started
      && (call.Schedule? ==> l'.queue == l.queue + [call.task] && l'.scheduled == l.scheduled + [call.task])
      && (!call.Schedule? ==> l'.queue == l.queue && l'.scheduled == l.scheduled)
  {
  }

  lemma NextKeepsTasksOrdered(m: Machine, step: Step)
    requires TasksOrdered(m)
    ensures TasksOrdered(Next(m, step))
  {
    if step.Api? {
      CallKeepsTasks(m.loop, step.call);
    }
    hide PerformCall, Deref;
  }

  lemma {:induction false} ExecKeepsTasksOrdered(m: Machine, steps: seq<Step>)
    requires TasksOrdered(m)
    ensures TasksOrdered(Exec(m, steps))
    decreases steps
  {
    hide TasksOrdered, Next;
    if steps != [] {
      NextKeepsTasksOrdered(m, steps[0]);
      ExecKeepsTasksOrdered(Next(m, steps[0]), steps[1..]);
    }
  }

  /** Every task is started exactly once and in the order of scheduling, and once a callback has
      been called in a run, no task is left in the queue at any later epoll_wait of it. */
  lemma TasksRunOnceInOrder(steps: seq<Step>)
    ensures var m := Exec(START, steps);
      && m.loop.scheduled == m.loop.started + m.loop.queue
      && (m.dispatched && (m.pc.Head? || m.pc.Waiting? || m.pc.Handling?) ==> m.loop.queue == [])
  {
    ExecKeepsTasksOrdered(START, steps);
  }
}
