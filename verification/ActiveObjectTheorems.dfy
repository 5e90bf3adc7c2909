/**
 What the active object promises under every interleaving: a token for every queued function
 and a function for every token, first-in first-out execution, and a shutdown that runs
 everything enqueued before the stop request and then ends.
 */
module ActiveObjectTheorems {
  import opened ActiveObjectModel

  // ---------------------------------------------------------------- tokens

  /** Every queued function has its token: in the counter, in the hand of a client that has not
      written yet, or in the hand of the thread that has read it. */
  ghost predicate TokensMatch(s: State) {
    && |s.queue| == s.count + |s.mid| + (if s.pc == HoldsToken then 1 else 0)
    && (s.pc == Woken ==> s.count > 0)
  }

  lemma ClientKeepsTokens(s: State, client: nat, func: Func)
    requires TokensMatch(s)
    ensures TokensMatch(Next(s, Push(client, func)))
    ensures TokensMatch(Next(s, Write(client)))
  {
    var more, fewer := s.mid + {client}, s.mid - {client};
    assert client !in s.mid ==> |more| == |s.mid| + 1;
    assert client in s.mid ==> |fewer| == |s.mid| - 1;
  }

  lemma DequeueKeepsTokens(s: State)
    requires TokensMatch(s) && s.pc == HoldsToken
    ensures TokensMatch(DequeueAndCall(s))
  {
    assert DequeueAndCall(s).queue == s.queue[1..];
  }

  lemma ThreadKeepsTokens(s: State, step: Step)
    requires TokensMatch(s) && !step.Push? && !step.Write? && !step.Dequeue?
    ensures TokensMatch(Next(s, step))
  {
    hide DequeueAndCall;
    assert Next(s, step).mid == s.mid && Next(s, step).queue == s.queue;
  }

  lemma NextKeepsTokens(s: State, step: Step)
    requires TokensMatch(s)
    ensures TokensMatch(Next(s, step))
  {
    hide TokensMatch, DequeueAndCall;
    match step
    case Push(client, func) => ClientKeepsTokens(s, client, func);
    case Write(client) => ClientKeepsTokens(s, client, Empty);
    case Dequeue => if s.pc == HoldsToken { DequeueKeepsTokens(s); }
    case _ => ThreadKeepsTokens(s, step);
  }

  lemma {:induction false} ExecKeepsTokens(s: State, steps: seq<Step>)
    requires TokensMatch(s)
    ensures TokensMatch(Exec(s, steps))
    decreases steps
  {
    hide TokensMatch, Next;
    if steps != [] {
      NextKeepsTokens(s, steps[0]);
      ExecKeepsTokens(Next(s, steps[0]), steps[1..]);
    }
  }

  /** In every reachable state the tokens match the queue. So a thread that has read a token
      finds a function; the read in `handleFdEvent` never blocks; and there is no lost wakeup:
      while functions are queued and no client is between its push and its write, the counter
      is positive unless the thread already holds the only token. */
  lemma TokensMatchInEveryRun(steps: seq<Step>)
    ensures var s := Exec(INITIAL, steps);
      && |s.queue| == s.count + |s.mid| + (if s.pc == HoldsToken then 1 else 0)
      && (s.pc == HoldsToken ==> s.queue != [])
      && (s.pc == Woken ==> Enabled(s, Read))
      && (s.pc == Polling && s.queue != [] && s.mid == {} ==> Enabled(s, Wake))
  {
    ExecKeepsTokens(INITIAL, steps);
  }

  // ---------------------------------------------------------------- order

  /** The functions that are called: all but the empty ones. */
  function Called(funcs: seq<Func>): seq<Executed> {
    if funcs == [] then []
    else
      var last := funcs[|funcs| - 1];
      Called(funcs[..|funcs| - 1]) + if last.Empty? then [] else [Ran(last)]
  }

  lemma CalledSnoc(funcs: seq<Func>, f: Func)
    ensures Called(funcs + [f]) == Called(funcs) + if f.Empty? then [] else [Ran(f)]
  {
    assert (funcs + [f])[..|funcs|] == funcs;
  }

  /** What was run before the functions. */
  function InitCall(given: bool): seq<Executed> {
    if given then [Init] else []
  }

  ghost predicate InOrder(s: State) {
    && s.enqueued == s.dequeued + s.queue
    && (s.pc == Born || s.pc == Initialising ==> !s.initGiven && s.dequeued == [])
    && s.log == InitCall(s.initGiven) + Called(s.dequeued)
  }

  lemma AppendBehind(a: seq<Executed>, b: seq<Executed>, c: seq<Executed>)
    ensures (a + b) + c == a + (b + c)
    ensures c == [] ==> a + b == a + (b + c)
  {
  }

  lemma DequeueKeepsOrder(s: State)
    requires InOrder(s) && s.pc == HoldsToken
    ensures InOrder(DequeueAndCall(s))
  {
    hide Called, InitCall;
    if s.queue != [] {
      var f := s.queue[0];
      CalledSnoc(s.dequeued, f);
      AppendBehind(InitCall(s.initGiven), Called(s.dequeued), if f.Empty? then [] else [Ran(f)]);
      assert s.dequeued + s.queue == (s.dequeued + [f]) + s.queue[1..];
    }
  }

  lemma NextKeepsOrder(s: State, step: Step)
    requires InOrder(s)
    ensures InOrder(Next(s, step))
  {
    hide DequeueAndCall, InOrder;
    if step.Dequeue? {
      if s.pc == HoldsToken {
        DequeueKeepsOrder(s);
      }
    } else {
      OtherKeepsOrder(s, step);
    }
  }

  lemma OtherKeepsOrder(s: State, step: Step)
    requires InOrder(s) && !step.Dequeue?
    ensures InOrder(Next(s, step))
  {
    assert Called([]) == [];
    hide Called, DequeueAndCall;
    if step.Push? {
      assert s.dequeued + (s.queue + [step.func]) == (s.dequeued + s.queue) + [step.func];
    } else if step.InitReturns? && s.pc == Initialising {
      assert s.log + [Init] == [Init];
    } else {
      RecordStays(s, step);
      hide Next;
    }
  }

  lemma RecordStays(s: State, step: Step)
    requires !step.Push? && !step.Dequeue? && !(step.InitReturns? && s.pc == Initialising)
    ensures var s' := Next(s, step);
      && s'.enqueued == s.enqueued && s'.queue == s.queue && s'.dequeued == s.dequeued
      && s'.log == s.log && s'.initGiven == s.initGiven
      && (s'.pc == Born || s'.pc == Initialising ==> s.pc == Born || s.pc == Initialising)
  {
    hide DequeueAndCall;
  }

  lemma {:induction false} ExecKeepsOrder(s: State, steps: seq<Step>)
    requires InOrder(s)
    ensures InOrder(Exec(s, steps))
    decreases steps
  {
    hide InOrder, Next;
    if steps != [] {
      NextKeepsOrder(s, steps[0]);
      ExecKeepsOrder(Next(s, steps[0]), steps[1..]);
    }
  }

  lemma NextStaysStarted(s: State, step: Step)
    requires s.pc != Born && s.pc != Initialising
    ensures var s' := Next(s, step); s'.pc != Born && s'.pc != Initialising && s'.initGiven == s.initGiven
  {
  }

  lemma {:induction false} StartIsOver(s: State, steps: seq<Step>)
    requires s.pc != Born && s.pc != Initialising
    ensures var s' := Exec(s, steps); s'.pc != Born && s'.pc != Initialising && s'.initGiven == s.initGiven
    decreases steps
  {
    hide Next;
    if steps != [] {
      NextStaysStarted(s, steps[0]);
      StartIsOver(Next(s, steps[0]), steps[1..]);
    }
  }

  lemma SplitAt(s: State, steps: seq<Step>, i: nat)
    requires i < |steps|
    ensures Exec(s, steps) == Exec(Next(Exec(s, steps[..i]), steps[i]), steps[i + 1..])
  {
    hide Next;
    ExecConcat(s, steps[..i], steps[i..]);
    assert steps == steps[..i] + steps[i..];
    assert steps[i..][1..] == steps[i + 1..];
  }

  /** What the clients of a run ask for: the functions of the calls, except those of a client that is
      still in the middle of one. */
  function Requested(s: State, steps: seq<Step>): seq<Func>
    decreases steps
  {
    if steps == [] then []
    else (if steps[0].Push? && steps[0].client !in s.mid then [steps[0].func] else []) + Requested(Next(s, steps[0]), steps[1..])
  }

  lemma NextEnqueues(s: State, step: Step)
    ensures Next(s, step).enqueued == s.enqueued + if step.Push? && step.client !in s.mid then [step.func] else []
  {
    hide DequeueAndCall;
    if step.Dequeue? {
      DequeueKeepsEnqueued(s);
    }
  }

  lemma {:induction false} ExecEnqueues(s: State, steps: seq<Step>)
    ensures Exec(s, steps).enqueued == s.enqueued + Requested(s, steps)
    decreases steps
  {
    hide Next;
    if steps != [] {
      NextEnqueues(s, steps[0]);
      ExecEnqueues(Next(s, steps[0]), steps[1..]);
    }
  }

  /** Exactly once and in order: at all times what was dequeued followed by what is queued is
      what clients asked for, in the order of the enqueuing critical sections and however the writes
      are reordered; the non-empty dequeued functions are what was called, in that order. */
  lemma RunsInOrder(steps: seq<Step>)
    ensures var s := Exec(INITIAL, steps);
      && s.enqueued == Requested(INITIAL, steps) == s.dequeued + s.queue
      && s.log == InitCall(s.initGiven) + Called(s.dequeued)
  {
    ExecKeepsOrder(INITIAL, steps);
    ExecEnqueues(INITIAL, steps);
  }

  /** `initFunc`, exactly when there is one, is called once and before all functions: from the
      thread's start on, the calls are those of the dequeued functions, behind the one of
      `initFunc` if it was given. */
  lemma InitRunsFirst(steps: seq<Step>, i: nat)
    requires i < |steps| && steps[i].InitReturns? && Enabled(Exec(INITIAL, steps[..i]), steps[i])
    ensures var s := Exec(INITIAL, steps);
      s.log == if steps[i].hasInit then [Init] + Called(s.dequeued) else Called(s.dequeued)
  {
    hide Called;
    InitialHolds();
    ExecKeepsOrder(INITIAL, steps);
    SplitAt(INITIAL, steps, i);
    StartIsOver(Next(Exec(INITIAL, steps[..i]), steps[i]), steps[i + 1..]);
  }

  /** The first answer of the thread's `addFdHandler`, if there is one, is a failure. */
  predicate RegistrationFails(steps: seq<Step>) {
    steps != [] && if steps[0].Register? then !steps[0].ok else RegistrationFails(steps[1..])
  }

  lemma NextRegisters(s: State, step: Step)
    ensures var s' := Next(s, step);
      if s.pc == Born && step.Register?
      then s'.pc == (if step.ok then Initialising else Ended) && (s'.refused <==> s.refused || !step.ok)
      else s'.refused == s.refused && (s'.pc == Born <==> s.pc == Born)
  {
  }

  lemma {:induction false} ExecRefuses(s: State, steps: seq<Step>)
    ensures Exec(s, steps).refused <==> s.refused || (s.pc == Born && RegistrationFails(steps))
    decreases steps
  {
    hide Next;
    if steps != [] {
      NextRegisters(s, steps[0]);
      ExecRefuses(Next(s, steps[0]), steps[1..]);
    }
  }

  /** A run counts as refused exactly when the thread's `addFdHandler` failed in it. */
  lemma RefusedIff(steps: seq<Step>)
    ensures Exec(INITIAL, steps).refused <==> RegistrationFails(steps)
  {
    ExecRefuses(INITIAL, steps);
  }

  // ---------------------------------------------------------------- shutting down

  /** Unless a user function stops the loop, it goes on until the stop request is dequeued, and
      nothing is dequeued after that. */
  ghost predicate Lively(s: State) {
    && (s.refused ==> s.pc == Ended && s.dequeued == [] && !s.initGiven)
    && (s.pc == Born ==> s.dequeued == [] && !s.initGiven)
    && (StopLoop !in s.dequeued && !s.refused ==>
          && s.pc != Ended && s.pc != Running(StopLoop)
          && (s.pc != Born ==> s.registered)
          && (s.pc != Born && s.pc != Initialising ==> s.running))
    && (StopLoop in s.dequeued ==>
          && s.dequeued[|s.dequeued| - 1] == StopLoop && StopLoop !in s.dequeued[..|s.dequeued| - 1]
          && (s.pc == Running(StopLoop) || s.pc == Ended || (s.pc == Head && !s.running && !s.registered)))
  }

  lemma NextKeepsLively(s: State, step: Step)
    requires Lively(s) && !step.UserStops?
    ensures Lively(Next(s, step))
  {
    hide DequeueAndCall;
    if step.Dequeue? {
      if s.pc == HoldsToken {
        DequeueKeepsLively(s);
      }
    } else {
      assert Next(s, step).dequeued == s.dequeued;
    }
  }

  lemma DequeueKeepsLively(s: State)
    requires Lively(s) && s.pc == HoldsToken
    ensures Lively(DequeueAndCall(s))
  {
    if s.queue != [] {
      assert (s.dequeued + [s.queue[0]])[..|s.dequeued|] == s.dequeued;
    }
  }

  lemma {:induction false} ExecKeepsLively(s: State, steps: seq<Step>)
    requires Lively(s)
    requires forall step :: step in steps ==> !step.UserStops?
    ensures Lively(Exec(s, steps))
    decreases steps
  {
    hide Lively, Next;
    if steps != [] {
      assert steps[0] in steps;
      assert forall step :: step in steps[1..] ==> step in steps;
      NextKeepsLively(s, steps[0]);
      ExecKeepsLively(Next(s, steps[0]), steps[1..]);
    }
  }

  /** What the thread has consumed when it ends, if no user function stops the loop: exactly
      what was enqueued up to the first stop request, that included, and nothing enqueued later.
      The one exception is a thread whose `addFdHandler` failed: it consumes nothing. */
  lemma EndedConsumesUpToTheStop(steps: seq<Step>)
    requires forall step :: step in steps ==> !step.UserStops?
    requires Exec(INITIAL, steps).pc == Ended
    ensures var s := Exec(INITIAL, steps);
      var n := |s.dequeued|;
      && s.dequeued <= s.enqueued
      && (if s.refused then n == 0 else n > 0 && s.enqueued[n - 1] == StopLoop && StopLoop !in s.enqueued[..n - 1])
  {
    ExecKeepsLively(INITIAL, steps);
    ExecKeepsOrder(INITIAL, steps);
    var s := Exec(INITIAL, steps);
    assert s.enqueued[..|s.dequeued|] == s.dequeued;
    if !s.refused {
      assert s.enqueued[..|s.dequeued| - 1] == s.dequeued[..|s.dequeued| - 1];
    }
  }

  /** A stop request has been enqueued, the first of all at index `stop`. */
  ghost predicate ShuttingDown(s: State, stop: nat) {
    && TokensMatch(s) && InOrder(s) && Lively(s)
    && stop < |s.enqueued| && s.enqueued[stop] == StopLoop
    && StopLoop !in s.enqueued[..stop]
  }

  /** The thread has consumed the stop request, or is not yet past it. */
  lemma StopIsAhead(s: State, stop: nat)
    requires ShuttingDown(s, stop)
    ensures |s.dequeued| <= stop + 1
    ensures |s.dequeued| == stop + 1 <==> StopLoop in s.dequeued
  {
    var n := |s.dequeued|;
    assert s.enqueued[..n] == s.dequeued;
    if n > stop {
      assert s.dequeued[stop] == StopLoop;
      assert forall i :: 0 <= i < n - 1 ==> s.dequeued[i] in s.dequeued[..n - 1];
    } else {
      assert forall i :: 0 <= i < n ==> s.dequeued[i] == s.enqueued[..stop][i];
    }
  }

  /** The steps of the active object's own thread, other than an event that is not its own. */
  predicate OwnStep(step: Step) {
    !step.Push? && !step.Write? && !step.UserStops? && !step.OtherEvent?
  }

  /** Bounds the thread's steps still to come: a round of its loop for each function up to the
      stop request. */
  function Measure(s: State, stop: nat): nat {
    6 * (if |s.dequeued| <= stop then stop + 1 - |s.dequeued| else 0) +
      match s.pc
      case Born => 6
      case Initialising => 5
      case Running(_) => 5
      case Head => 4
      case Polling => 3
      case Woken => 2
      case HoldsToken => 1
      case Ended => 0
  }

  lemma DequeueShrinks(s: State, stop: nat)
    requires ShuttingDown(s, stop) && s.pc == HoldsToken
    ensures Measure(DequeueAndCall(s), stop) < Measure(s, stop)
  {
    StopIsAhead(s, stop);
    assert |s.queue| > 0;
  }

  lemma NextShrinks(s: State, stop: nat, step: Step)
    requires ShuttingDown(s, stop) && !step.UserStops?
    ensures Measure(Next(s, step), stop) <= Measure(s, stop)
    ensures OwnStep(step) && Enabled(s, step) ==> Measure(Next(s, step), stop) < Measure(s, stop)
  {
    hide ShuttingDown, DequeueAndCall, Measure;
    if step.Dequeue? {
      if s.pc == HoldsToken {
        DequeueShrinks(s, stop);
      }
    } else {
      OtherShrinks(s, stop, step);
    }
  }

  lemma OtherShrinks(s: State, stop: nat, step: Step)
    requires !step.UserStops? && !step.Dequeue?
    ensures Measure(Next(s, step), stop) <= Measure(s, stop)
    ensures OwnStep(step) && Enabled(s, step) ==> Measure(Next(s, step), stop) < Measure(s, stop)
  {
    hide DequeueAndCall;
    assert Next(s, step).dequeued == s.dequeued;
  }

  lemma EnqueuedGrows(s: State, step: Step)
    ensures s.enqueued <= Next(s, step).enqueued
    ensures s.refused ==> Next(s, step).refused
  {
  }

  lemma NextKeepsShuttingDown(s: State, stop: nat, step: Step)
    requires ShuttingDown(s, stop) && !step.UserStops?
    ensures ShuttingDown(Next(s, step), stop)
  {
    hide TokensMatch, InOrder, Lively, Next;
    EnqueuedGrows(s, step);
    NextKeepsTokens(s, step);
    NextKeepsOrder(s, step);
    NextKeepsLively(s, step);
    assert Next(s, step).enqueued[..stop] == s.enqueued[..stop];
  }

  /** Until the thread has ended it can go on by itself, or it waits in epoll_wait for a client that
      has enqueued and owes the write; that write, of whichever such client, wakes it. */
  lemma NeverStuck(s: State, stop: nat)
    requires ShuttingDown(s, stop) && s.pc != Ended
    ensures (exists step :: OwnStep(step) && Enabled(s, step))
      || (s.pc == Polling && s.mid != {} && forall client :: client in s.mid ==> Enabled(Next(s, Write(client)), Wake))
  {
    if s.pc == Polling && s.count == 0 {
      StopIsAhead(s, stop);
      assert s.queue != [];
    } else {
      var step := match s.pc
        case Born => Register(true)
        case Initialising => InitReturns(false)
        case Running(_) => FuncReturns
        case Head => TestHead
        case Polling => Wake
        case Woken => Read
        case _ => Dequeue;
      assert OwnStep(step) && Enabled(s, step);
    }
  }

  /** How many steps of a run are the thread's own and can be taken. */
  function Progress(s: State, steps: seq<Step>): nat
    decreases steps
  {
    if steps == [] then 0
    else (if OwnStep(steps[0]) && Enabled(s, steps[0]) then 1 else 0) + Progress(Next(s, steps[0]), steps[1..])
  }

  lemma {:induction false} ExecShrinks(s: State, stop: nat, steps: seq<Step>)
    requires ShuttingDown(s, stop)
    requires forall step :: step in steps ==> !step.UserStops?
    ensures ShuttingDown(Exec(s, steps), stop)
    ensures s.enqueued <= Exec(s, steps).enqueued && (s.refused ==> Exec(s, steps).refused)
    ensures Progress(s, steps) + Measure(Exec(s, steps), stop) <= Measure(s, stop)
    decreases steps
  {
    hide Next, Measure, Enabled, TokensMatch, InOrder, Lively;
    if steps != [] {
      assert steps[0] in steps;
      assert forall step :: step in steps[1..] ==> step in steps;
      NextShrinks(s, stop, steps[0]);
      NextKeepsShuttingDown(s, stop, steps[0]);
      EnqueuedGrows(s, steps[0]);
      ExecShrinks(Next(s, steps[0]), stop, steps[1..]);
    }
  }

  /** From every such state some run of the thread and of the clients that owe a write ends the
      thread, and its length is bounded. */
  lemma {:induction false} CanFinish(s: State, stop: nat) returns (steps: seq<Step>)
    requires ShuttingDown(s, stop)
    ensures forall step :: step in steps ==> OwnStep(step) || step.Write?
    ensures |steps| <= Measure(s, stop) + |s.mid| && Exec(s, steps).pc == Ended
    decreases Measure(s, stop) + |s.mid|
  {
    hide TokensMatch, InOrder, Lively, Next, Enabled, Measure;
    if s.pc == Ended {
      steps := [];
    } else {
      var step := OneStepNearer(s, stop);
      NextKeepsShuttingDown(s, stop, step);
      var rest := CanFinish(Next(s, step), stop);
      steps := [step] + rest;
      assert steps[1..] == rest;
    }
  }

  lemma OneStepNearer(s: State, stop: nat) returns (step: Step)
    requires ShuttingDown(s, stop) && s.pc != Ended
    ensures OwnStep(step) || step.Write?
    ensures Measure(Next(s, step), stop) + |Next(s, step).mid| < Measure(s, stop) + |s.mid|
  {
    NeverStuck(s, stop);
    if own :| OwnStep(own) && Enabled(s, own) {
      NextShrinks(s, stop, own);
      OwnStepsLeaveClients(s, own);
      step := own;
    } else {
      var client :| client in s.mid;
      NextShrinks(s, stop, Write(client));
      assert |s.mid - {client}| == |s.mid| - 1;
      step := Write(client);
    }
  }

  lemma OwnStepsLeaveClients(s: State, step: Step)
    requires OwnStep(step)
    ensures Next(s, step).mid == s.mid
  {
  }

  lemma InitialHolds()
    ensures TokensMatch(INITIAL) && InOrder(INITIAL) && Lively(INITIAL)
  {
  }

  /** The destructor on another thread. It finds a state without a stop request, in which other
      clients may be between their push and their write, and enqueues the request. */
  lemma RequestStop(s: State, client: nat)
    requires TokensMatch(s) && InOrder(s) && Lively(s)
    requires client !in s.mid && StopLoop !in s.enqueued
    ensures ShuttingDown(Next(s, Push(client, StopLoop)), |s.enqueued|)
    ensures Next(s, Push(client, StopLoop)).enqueued == s.enqueued + [StopLoop]
  {
    hide TokensMatch, InOrder, Lively;
    NextKeepsTokens(s, Push(client, StopLoop));
    NextKeepsOrder(s, Push(client, StopLoop));
    NextKeepsLively(s, Push(client, StopLoop));
    assert (s.enqueued + [StopLoop])[..|s.enqueued|] == s.enqueued;
  }

  /** Shutdown drains. From the stop request on, whatever the threads do, though more is enqueued,
      and as long as no user function stops the loop:
      - the number of the thread's steps is bounded, and until it has ended it can go on, at
        worst after a write that a client owes; so `join` returns
      - when the thread has ended, it has consumed exactly what was enqueued before the stop
        request, and that request, and has called every non-empty function of it, in order; but
        if the thread's `addFdHandler` failed it has consumed and called nothing
      - what was enqueued later, for instance by one of these functions, is still in the queue. */
  lemma ShutdownDrains(steps: seq<Step>, client: nat, more: seq<Step>)
    requires forall step :: step in steps + more ==> !step.UserStops?
    requires var s := Exec(INITIAL, steps); client !in s.mid && StopLoop !in s.enqueued
    ensures var before := Exec(INITIAL, steps);
      var s := Next(before, Push(client, StopLoop));
      var s' := Exec(s, more);
      && Progress(s, more) <= Measure(s, |before.enqueued|)
      && (s'.pc != Ended ==>
            || (exists step :: OwnStep(step) && Enabled(s', step))
            || (s'.mid != {} && forall c :: c in s'.mid ==> Enabled(Next(s', Write(c)), Wake)))
      && (s'.pc == Ended ==>
            && s'.dequeued == (if s'.refused then [] else before.enqueued + [StopLoop])
            && s'.log == (if s'.refused then [] else InitCall(s'.initGiven) + Called(before.enqueued) + [Ran(StopLoop)])
            && s'.enqueued == s'.dequeued + s'.queue
            && |s'.queue| == s'.count + |s'.mid|)
  {
    var before := Exec(INITIAL, steps);
    var s := Next(before, Push(client, StopLoop));
    var s' := Exec(s, more);
    hide InOrder, Lively, Next, Exec, Measure, Progress, Called, InitCall;
    assert (forall step :: step in steps ==> step in steps + more) && (forall step :: step in more ==> step in steps + more);
    InitialHolds();
    ExecKeepsTokens(INITIAL, steps);
    ExecKeepsOrder(INITIAL, steps);
    ExecKeepsLively(INITIAL, steps);
    RequestStop(before, client);
    ExecShrinks(s, |before.enqueued|, more);
    if s'.pc != Ended {
      NeverStuck(s', |before.enqueued|);
    } else {
      EndedIsDrained(s', |before.enqueued|);
      assert s'.enqueued[..|before.enqueued| + 1] == before.enqueued + [StopLoop];
      CalledSnoc(before.enqueued, StopLoop);
      AppendBehind(InitCall(s'.initGiven), Called(before.enqueued), [Ran(StopLoop)]);
    }
  }

  /** When nobody enqueues after the stop request, nothing at all is left, but for a thread whose
      `addFdHandler` failed: neither a function nor a token, nor a client that owes a write. */
  lemma QuietShutdownLeavesNothing(steps: seq<Step>, client: nat, more: seq<Step>)
    requires forall step :: step in steps + more ==> !step.UserStops?
    requires var s := Exec(INITIAL, steps); client !in s.mid && StopLoop !in s.enqueued
    requires forall step :: step in more ==> !step.Push?
    requires Exec(Next(Exec(INITIAL, steps), Push(client, StopLoop)), more).pc == Ended
    ensures var s' := Exec(Next(Exec(INITIAL, steps), Push(client, StopLoop)), more);
      (s'.queue == [] && s'.count == 0 && s'.mid == {} && s'.dequeued == s'.enqueued) <==> !s'.refused
  {
    hide Exec, Measure, Progress, Called;
    ShutdownDrains(steps, client, more);
    QuietKeepsEnqueued(Next(Exec(INITIAL, steps), Push(client, StopLoop)), more);
  }

  lemma {:induction false} QuietKeepsEnqueued(s: State, steps: seq<Step>)
    requires forall step :: step in steps ==> !step.Push?
    ensures Exec(s, steps).enqueued == s.enqueued
    decreases steps
  {
    hide DequeueAndCall;
    if steps != [] {
      assert steps[0] in steps;
      assert forall step :: step in steps[1..] ==> step in steps;
      assert Next(s, steps[0]).enqueued == s.enqueued by {
        if steps[0].Dequeue? {
          DequeueKeepsEnqueued(s);
        }
      }
      QuietKeepsEnqueued(Next(s, steps[0]), steps[1..]);
    }
  }

  lemma DequeueKeepsEnqueued(s: State)
    ensures DequeueAndCall(s).enqueued == s.enqueued
  {
  }

  lemma EndedIsDrained(s: State, stop: nat)
    requires ShuttingDown(s, stop) && s.pc == Ended
    ensures s.dequeued == if s.refused then [] else s.enqueued[..stop + 1]
    ensures s.enqueued == s.dequeued + s.queue && s.log == InitCall(s.initGiven) + Called(s.dequeued)
    ensures s.refused ==> s.log == []
  {
    StopIsAhead(s, stop);
    assert s.enqueued[..|s.dequeued|] == s.dequeued;
  }

  /** The failing case of `addFdHandler`: the function enqueued before the request, and the request
      itself, stay in the queue of a thread that has ended. */
  lemma RefusedThreadRunsNothing()
    ensures var s := Exec(INITIAL, [Push(0, User(5)), Write(0), Register(false), Push(1, StopLoop), Write(1)]);
      s.pc == Ended && s.refused && s.log == [] && s.queue == [User(5), StopLoop]
  {
  }

  // ---------------------------------------------------------------- a user function stops the loop

  /** The loop has been stopped, and all that the thread will ever have dequeued is `all`: the
      first function of the queue is the last one if its token is reported or in hand. */
  ghost predicate Stopped(s: State, all: seq<Func>) {
    && !s.running
    && (s.pc == Head || s.pc == Woken || s.pc == HoldsToken || s.pc.Running? || s.pc == Ended)
    && TokensMatch(s)
    && (if s.pc == Woken || s.pc == HoldsToken then s.queue != [] && all == s.dequeued + [s.queue[0]] else all == s.dequeued)
  }

  lemma NextKeepsStopped(s: State, all: seq<Func>, step: Step)
    requires Stopped(s, all)
    ensures Stopped(Next(s, step), all)
  {
    hide DequeueAndCall, Next;
    NextKeepsTokens(s, step);
    if step.Dequeue? && s.pc == HoldsToken {
      DequeueKeepsStopped(s, all);
    } else {
      OtherKeepsStopped(s, all, step);
    }
  }

  lemma DequeueKeepsStopped(s: State, all: seq<Func>)
    requires Stopped(s, all) && s.pc == HoldsToken
    ensures Next(s, Dequeue) == DequeueAndCall(s) && Stopped(DequeueAndCall(s), all)
  {
    DequeueKeepsTokens(s);
    hide TokensMatch;
  }

  lemma OtherKeepsStopped(s: State, all: seq<Func>, step: Step)
    requires Stopped(s, all) && !(step.Dequeue? && s.pc == HoldsToken)
    requires TokensMatch(Next(s, step))
    ensures Stopped(Next(s, step), all)
  {
    hide DequeueAndCall, TokensMatch;
    assert s.queue <= Next(s, step).queue && Next(s, step).dequeued == s.dequeued;
  }

  lemma {:induction false} ExecKeepsStopped(s: State, all: seq<Func>, steps: seq<Step>)
    requires Stopped(s, all)
    ensures Stopped(Exec(s, steps), all)
    ensures s.enqueued <= Exec(s, steps).enqueued
    decreases steps
  {
    hide Stopped, Next;
    if steps != [] {
      NextKeepsStopped(s, all, steps[0]);
      EnqueuedGrows(s, steps[0]);
      ExecKeepsStopped(Next(s, steps[0]), all, steps[1..]);
    }
  }

  /** What a user function that stops the loop leaves undone. In every continuation the thread can
      go on by itself until it has ended, and then it has dequeued one more function if the
      eventfd was already reported together with the stop, and none otherwise. So every
      function is carried out exactly when nothing else is queued at the stop and nothing is
      enqueued later; the destructor's own request counts. */
  lemma UserStopLeavesTheRest(steps: seq<Step>, more: seq<Step>)
    requires Enabled(Exec(INITIAL, steps), UserStops)
    ensures var s := Exec(INITIAL, steps);
      var s' := Exec(Next(s, UserStops), more);
      var due := if s.pc == Woken then 1 else 0;
      && due <= |s.queue|
      && s'.dequeued <= s.dequeued + s.queue[..due]
      && (s'.pc != Ended ==> exists step :: OwnStep(step) && Enabled(s', step))
      && (s'.pc == Ended ==>
            && s'.dequeued == s.dequeued + s.queue[..due]
            && (s'.dequeued == s'.enqueued <==> |s.queue| == due && s'.enqueued == s.enqueued))
  {
    hide Exec, Next, Stopped, InOrder;
    var s := Exec(INITIAL, steps);
    InitialHolds();
    ExecKeepsTokens(INITIAL, steps);
    ExecKeepsOrder(INITIAL, steps);
    UserStopsLoop(s);
    var s1, all := Next(s, UserStops), s.dequeued + s.queue[..if s.pc == Woken then 1 else 0];
    ExecKeepsStopped(s1, all, more);
    StoppedGoesOn(Exec(s1, more), all);
    AllIsConsumed(s, Exec(s1, more), all);
  }

  lemma UserStopsLoop(s: State)
    requires TokensMatch(s) && InOrder(s) && Enabled(s, UserStops)
    ensures var due := if s.pc == Woken then 1 else 0;
      var s1 := Next(s, UserStops);
      && due <= |s.queue|
      && Stopped(s1, s.dequeued + s.queue[..due])
      && s1.enqueued == s.enqueued == s.dequeued + s.queue
  {
    NextKeepsTokens(s, UserStops);
    assert s.pc == Woken ==> s.queue[..1] == [s.queue[0]];
  }

  lemma StoppedGoesOn(s: State, all: seq<Func>)
    requires Stopped(s, all)
    ensures s.dequeued <= all
    ensures s.pc == Ended ==> s.dequeued == all
    ensures s.pc != Ended ==> exists step :: OwnStep(step) && Enabled(s, step)
  {
    if s.pc != Ended {
      var step := match s.pc
        case Head => TestHead
        case Woken => Read
        case HoldsToken => Dequeue
        case _ => FuncReturns;
      assert OwnStep(step) && Enabled(s, step);
    }
  }

  lemma AllIsConsumed(s: State, s': State, all: seq<Func>)
    requires s.enqueued == s.dequeued + s.queue && s.enqueued <= s'.enqueued
    requires s.dequeued <= all && exists due :: 0 <= due <= |s.queue| && all == s.dequeued + s.queue[..due]
    ensures all == s'.enqueued <==> |all| == |s.enqueued| && s'.enqueued == s.enqueued
  {
  }

  /** A failing case: the function queued before a callback stops the loop, and the destructor's
      request after it, stay in the queue of a thread that has ended. */
  lemma StoppedThreadLeavesAFunction()
    ensures var s := Exec(INITIAL, [Push(0, User(5)), Write(0), Register(true), InitReturns(false), TestHead,
                                    UserStops, TestHead, Push(1, StopLoop), Write(1)]);
      s.pc == Ended && !s.refused && s.log == [] && s.queue == [User(5), StopLoop]
  {
  }
}
