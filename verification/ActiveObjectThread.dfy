/**
 The active object in the code's own form: an object whose queue and eventfd are changed in
 place by its methods. Between two atomic steps of a method other threads may take steps;
 they are a parameter, and each method is proved to be the run of the machine that consists
 of its own steps with theirs in between.
 */
module ActiveObjectThread {
  import opened ActiveObjectModel
  import Thm = ActiveObjectTheorems

  class ActiveObjectThread {
    var funcQueue: seq<Func>

    // the semaphore eventfd
    var eventCount: nat

    // the thread, and the flags of its event loop
    var pc: Pc
    var registered: bool
    var isRunning: bool

    // The record of what happened; see ActiveObjectModel.State.
    var mid: set<nat>
    var enqueued: seq<Func>
    var dequeued: seq<Func>
    var log: seq<Executed>
    var refused: bool
    var initGiven: bool

    ghost function State(): ActiveObjectModel.State
      reads this
    {
      ActiveObjectModel.State(funcQueue, eventCount, mid, pc, registered, isRunning, enqueued, dequeued, log, refused, initGiven)
    }

    ghost predicate Valid()
      reads this
    {
      Thm.TokensMatch(State()) && Thm.InOrder(State())
    }

    constructor ()
      ensures State() == INITIAL && Valid()
    {
      funcQueue, eventCount := [], 0;
      pc, registered, isRunning := Born, false, false;
      mid, enqueued, dequeued, log, refused, initGiven := {}, [], [], [], false, false;
    }

    /** Under the mutex. */
    method EnqueueFunction(client: nat, func: Func)
      requires client !in mid
      modifies this`funcQueue, this`enqueued, this`mid
      ensures State() == Apply(old(State()), Push(client, func))
    {
      funcQueue := funcQueue + [func];
      enqueued, mid := enqueued + [func], mid + {client};
    }

    method WriteEventFd(client: nat)
      requires client in mid
      modifies this`eventCount, this`mid
      ensures State() == Apply(old(State()), Write(client))
    {
      eventCount := eventCount + 1;
      mid := mid - {client};
    }

    /** `scheduleFunction`: the enqueuing and the write are two steps, with whatever the other
        threads do between them. */
    method ScheduleFunction(client: nat, func: Func, between: seq<Step>)
      requires Valid() && client !in mid
      requires forall step :: step in between ==> step != Write(client)
      modifies this
      ensures State() == Exec(old(State()), [Push(client, func)] + between + [Write(client)])
      ensures Valid()
    {
      ghost var start := State();
      EnqueueFunction(client, func);
      KeepsValid(start, Push(client, func));
      ghost var pushed := State();
      Others(between);
      MidStays(pushed, between, client);
      ghost var before := State();
      WriteEventFd(client);
      KeepsValid(before, Write(client));
      ThreeParts(start, Push(client, func), between, Write(client));
    }

    /** Under the mutex: the first function, or an empty one when the queue is empty. */
    method DequeueFunction() returns (func: Func)
      modifies this`funcQueue, this`dequeued
      ensures func == if old(funcQueue) == [] then Empty else old(funcQueue)[0]
      ensures funcQueue == if old(funcQueue) == [] then [] else old(funcQueue)[1..]
      ensures dequeued == if old(funcQueue) == [] then old(dequeued) else old(dequeued) + [func]
    {
      func := Empty;
      if funcQueue != [] {
        func := funcQueue[0];
        funcQueue := funcQueue[1..];
        dequeued := dequeued + [func];
      }
    }

    /** Dequeuing, and calling what was dequeued unless it is empty. */
    method DequeueAndStart()
      requires pc == HoldsToken
      modifies this
      ensures State() == Apply(old(State()), Dequeue)
      ensures old(funcQueue) != [] ==> |dequeued| == |old(dequeued)| + 1
    {
      var func := DequeueFunction();
      if func != Empty {
        pc := Running(func);
        log := log + [Ran(func)];
      } else {
        pc := Head;
      }
    }

    method ReadEventFd()
      requires pc == Woken && eventCount > 0
      modifies this`eventCount, this`pc
      ensures State() == Apply(old(State()), Read)
    {
      eventCount := eventCount - 1;
      pc := HoldsToken;
    }

    /** `stopEventLoop`, run by the thread itself. */
    method StopEventLoop()
      requires pc == Running(StopLoop)
      modifies this
      ensures State() == Apply(old(State()), FuncReturns)
    {
      registered := false;
      isRunning := false;
      pc := Head;
    }

    /** `handleFdEvent` up to the function's call: the read, the other threads, the dequeue. The
        read does not block and a function is there. */
    method HandleFdEvent(between: seq<Step>)
      requires Valid() && pc == Woken
      requires forall step :: step in between ==> step.Push? || step.Write?
      modifies this
      ensures State() == Exec(old(State()), [Read] + between + [Dequeue])
      ensures |dequeued| == |old(dequeued)| + 1
      ensures Valid()
    {
      hide Thm.TokensMatch, Thm.InOrder, DequeueAndCall;
      ghost var start := State();
      TokenIsThere(start);
      ReadEventFd();
      KeepsValid(start, Read);
      ghost var read := State();
      Others(between);
      ClientsLeaveThread(read, between);
      ghost var before := State();
      TokenIsThere(before);
      DequeueAndStart();
      KeepsValid(before, Dequeue);
      ThreeParts(start, Read, between, Dequeue);
    }

    /** The destructor on another thread: it schedules the stop request and joins. `between` and
        `rest` are what the threads do around its write and until the thread has ended; no user
        function stops the loop. Unless the thread never got its fd into an event loop, exactly
        what was enqueued before has been consumed when the join returns. */
    method Destroy(client: nat, between: seq<Step>, rest: seq<Step>)
      requires Valid() && Thm.Lively(State()) && client !in mid && StopLoop !in enqueued
      requires forall step :: step in between + rest ==> !step.UserStops?
      requires forall step :: step in between ==> step != Write(client)
      requires Exec(Exec(State(), [Push(client, StopLoop)] + between + [Write(client)]), rest).pc == Ended
      modifies this
      ensures enqueued == dequeued + funcQueue
      ensures dequeued == if refused then [] else old(enqueued) + [StopLoop]
      ensures log == Thm.InitCall(initGiven) + Thm.Called(dequeued)
      ensures |funcQueue| == eventCount + |mid|
      ensures (forall step :: step in between + rest ==> !step.Push?) ==> enqueued == old(enqueued) + [StopLoop]
    {
      hide Thm.InOrder, Thm.Lively;
      ghost var stop := |enqueued|;
      ghost var requested := Next(State(), Push(client, StopLoop));
      Thm.RequestStop(State(), client);
      ScheduleFunction(client, StopLoop, between);
      Others(rest);
      ghost var more := between + [Write(client)] + rest;
      StopRun(old(State()), client, between, rest);
      assert forall step :: step in more ==> step in between + rest || step == Write(client);
      Thm.ExecShrinks(requested, stop, more);
      Thm.EndedIsDrained(State(), stop);
      assert enqueued[..stop + 1] == requested.enqueued;
      if forall step :: step in between + rest ==> !step.Push? {
        Thm.QuietKeepsEnqueued(requested, more);
      }
    }

    /** One step of any thread, by the method that makes it. */
    method Take(step: Step)
      requires Valid()
      modifies this
      ensures State() == Next(old(State()), step)
      ensures Valid()
    {
      hide Thm.TokensMatch, Thm.InOrder, DequeueAndCall;
      KeepsValid(State(), step);
      match step
      case Push(client, func) => if client !in mid { EnqueueFunction(client, func); }
      case Write(client) => if client in mid { WriteEventFd(client); }
      case _ => TakeOwn(step);
    }

    /** One step of the active object's thread. */
    method TakeOwn(step: Step)
      requires !step.Push? && !step.Write?
      modifies this
      ensures State() == Next(old(State()), step)
    {
      hide DequeueAndCall;
      match step
      case Register(ok) =>
        if pc == Born {
          if ok { registered, pc := true, Initialising; } else { refused, pc := true, Ended; }
        }
      case InitReturns(hasInit) =>
        if pc == Initialising {
          isRunning, pc, initGiven := true, Head, hasInit;
          if hasInit { log := log + [Init]; }
        }
      case TestHead => if pc == Head { pc := if isRunning && registered then Polling else Ended; }
      case Wake => if pc == Polling && eventCount > 0 { pc := Woken; }
      case Read => if pc == Woken && eventCount > 0 { ReadEventFd(); }
      case Dequeue => if pc == HoldsToken { DequeueAndStart(); }
      case FuncReturns =>
        if pc == Running(StopLoop) { StopEventLoop(); } else if pc.Running? { pc := Head; }
      case OtherEvent =>
      case UserStops =>
        if pc == Polling { isRunning, pc := false, Head; }
        else if pc == Woken || (pc.Running? && pc.func.User?) { isRunning := false; }
    }

    method Others(steps: seq<Step>)
      requires Valid()
      modifies this
      ensures State() == Exec(old(State()), steps)
      ensures Valid()
    {
      var i := 0;
      while i < |steps|
        invariant i <= |steps|
        invariant Valid()
        invariant Exec(State(), steps[i..]) == Exec(old(State()), steps)
      {
        assert steps[i..][1..] == steps[i + 1..];
        Take(steps[i]);
        i := i + 1;
      }
    }
  }

  lemma TokenIsThere(s: State)
    requires Thm.TokensMatch(s)
    ensures s.pc == Woken ==> s.count > 0
    ensures s.pc == HoldsToken ==> s.queue != []
  {
  }

  lemma KeepsValid(s: State, step: Step)
    requires Thm.TokensMatch(s) && Thm.InOrder(s)
    ensures Thm.TokensMatch(Next(s, step)) && Thm.InOrder(Next(s, step))
  {
    Thm.NextKeepsTokens(s, step);
    Thm.NextKeepsOrder(s, step);
  }

  lemma StopRun(s: State, client: nat, between: seq<Step>, rest: seq<Step>)
    ensures Exec(Exec(s, [Push(client, StopLoop)] + between + [Write(client)]), rest)
         == Exec(Next(s, Push(client, StopLoop)), between + [Write(client)] + rest)
  {
    hide Next;
    var more := between + [Write(client)];
    assert [Push(client, StopLoop)] + between + [Write(client)] == [Push(client, StopLoop)] + more;
    assert ([Push(client, StopLoop)] + more)[1..] == more;
    ExecConcat(Next(s, Push(client, StopLoop)), more, rest);
  }

  /** A client that is between its push and its write stays there until it writes. */
  lemma {:induction false} MidStays(s: State, steps: seq<Step>, client: nat)
    requires client in s.mid && forall step :: step in steps ==> step != Write(client)
    ensures client in Exec(s, steps).mid
    decreases steps
  {
    if steps != [] {
      assert steps[0] in steps;
      assert forall step :: step in steps[1..] ==> step in steps;
      MidStays(Next(s, steps[0]), steps[1..], client);
    }
  }

  /** Clients do not move the thread, and only put functions behind. */
  lemma {:induction false} ClientsLeaveThread(s: State, steps: seq<Step>)
    requires forall step :: step in steps ==> step.Push? || step.Write?
    ensures var s' := Exec(s, steps); s'.pc == s.pc && s'.dequeued == s.dequeued && s.queue <= s'.queue
    decreases steps
  {
    if steps != [] {
      assert steps[0] in steps;
      assert forall step :: step in steps[1..] ==> step in steps;
      ClientsLeaveThread(Next(s, steps[0]), steps[1..]);
    }
  }

  lemma ThreeParts(s: State, first: Step, between: seq<Step>, last: Step)
    ensures Exec(s, [first] + between + [last]) == Next(Exec(Next(s, first), between), last)
  {
    hide Next;
    ExecConcat(s, [first], between);
    ExecConcat(s, [first] + between, [last]);
    assert Exec(s, [first]) == Next(s, first) by {
      assert [first][1..] == [];
    }
    assert [last][1..] == [];
  }
}
