/**
 Draining the scheduled tasks, and whole runs of the loop driven by what the kernel reports
 and what user code does. Each function computes in one go what the machine of EventLoopModel
 does in small steps, and is proved to be such a run.
 */
module EventLoopDrain {
  import opened Options
  import opened EventMasks
  import opened EventLoopModel
  import opened EventLoopSafety
  import opened EventLoopRuns

  // ---------------------------------------------------------------- forests

  /** The tasks a script schedules, in order. */
  function Spawned(calls: seq<Call>): seq<Task>
    decreases calls
  {
    if calls == [] then []
    else (if calls[0].Schedule? then [calls[0].task] else []) + Spawned(calls[1..])
  }

  /** The next level of a forest. */
  function Children(tasks: seq<Task>): seq<Task> {
    if tasks == [] then [] else Spawned(tasks[0].body) + Children(tasks[1..])
  }

  function TaskSize(task: Task): nat {
    1 + CallsSize(task.body)
  }

  function CallSize(call: Call): nat {
    match call
    case Schedule(task) => TaskSize(task)
    case _ => 0
  }

  function CallsSize(calls: seq<Call>): nat {
    if calls == [] then 0 else CallSize(calls[0]) + CallsSize(calls[1..])
  }

  /** The number of tasks in a forest. */
  function ForestSize(tasks: seq<Task>): nat {
    if tasks == [] then 0 else TaskSize(tasks[0]) + ForestSize(tasks[1..])
  }

  lemma {:induction false} ForestSizeConcat(a: seq<Task>, b: seq<Task>)
    ensures ForestSize(a + b) == ForestSize(a) + ForestSize(b)
    decreases a
  {
    if a == [] {
      assert a + b == b;
    } else {
      assert (a + b)[0] == a[0] && (a + b)[1..] == a[1..] + b;
      ForestSizeConcat(a[1..], b);
    }
  }

  lemma {:induction false} SpawnedSize(calls: seq<Call>)
    ensures ForestSize(Spawned(calls)) == CallsSize(calls)
    decreases calls
  {
    if calls != [] {
      SpawnedSize(calls[1..]);
      var first := if calls[0].Schedule? then [calls[0].task] else [];
      ForestSizeConcat(first, Spawned(calls[1..]));
    }
  }

  lemma {:induction false} NextLevelIsSmaller(tasks: seq<Task>)
    ensures ForestSize(tasks) == |tasks| + ForestSize(Children(tasks))
  {
    if tasks != [] {
      NextLevelIsSmaller(tasks[1..]);
      SpawnedSize(tasks[0].body);
      ForestSizeConcat(Spawned(tasks[0].body), Children(tasks[1..]));
    }
  }

  /** Breadth-first order: a level, then the level below it, and so on. */
  function LevelOrder(tasks: seq<Task>): seq<Task>
    decreases ForestSize(tasks)
  {
    NextLevelIsSmaller(tasks);
    if tasks == [] then [] else tasks + LevelOrder(Children(tasks))
  }

  /** The order of a queue: the first task, then the rest with its children behind. */
  function QueueOrder(tasks: seq<Task>): seq<Task>
    decreases ForestSize(tasks)
  {
    if tasks == [] then []
    else
      QueueShrinks(tasks);
      [tasks[0]] + QueueOrder(tasks[1..] + Spawned(tasks[0].body))
  }

  lemma QueueShrinks(tasks: seq<Task>)
    requires tasks != []
    ensures ForestSize(tasks[1..] + Spawned(tasks[0].body)) == ForestSize(tasks) - 1
  {
    SpawnedSize(tasks[0].body);
    ForestSizeConcat(tasks[1..], Spawned(tasks[0].body));
  }

  /** A queue works a level off before it comes to the level below. */
  lemma {:induction false} QueueOrderByLevel(xs: seq<Task>, ys: seq<Task>)
    ensures QueueOrder(xs + ys) == xs + QueueOrder(ys + Children(xs))
    decreases xs
  {
    hide Spawned, ForestSize;
    if xs == [] {
      assert xs + ys == ys && ys + Children(xs) == ys;
    } else {
      var below := Spawned(xs[0].body);
      assert (xs + ys)[0] == xs[0] && (xs + ys)[1..] + below == xs[1..] + (ys + below);
      QueueOrderByLevel(xs[1..], ys + below);
      assert ys + below + Children(xs[1..]) == ys + Children(xs);
    }
  }

  lemma {:induction false} QueueOrderIsLevelOrder(tasks: seq<Task>)
    ensures QueueOrder(tasks) == LevelOrder(tasks)
    decreases ForestSize(tasks)
  {
    if tasks != [] {
      NextLevelIsSmaller(tasks);
      QueueOrderByLevel(tasks, []);
      assert tasks + [] == tasks && [] + Children(tasks) == Children(tasks);
      QueueOrderIsLevelOrder(Children(tasks));
    }
  }

  // ---------------------------------------------------------------- draining

  lemma CallSpawns(l: Loop, call: Call)
    ensures var l' := PerformCall(l, call);
      && l'.queue == l.queue + Spawned([call])
      && l'.scheduled == l.scheduled + Spawned([call])
      && l'.started == l.started
  {
    CallKeepsTasks(l, call);
    hide PerformCall;
    assert [call][1..] == [];
  }

  /** A script only touches the queue by putting what it schedules behind. */
  lemma {:induction false} CallsSpawn(l: Loop, calls: seq<Call>)
    ensures var l' := PerformCalls(l, calls);
      && l'.queue == l.queue + Spawned(calls)
      && l'.scheduled == l.scheduled + Spawned(calls)
      && l'.started == l.started
    decreases calls
  {
    hide PerformCall;
    if calls != [] {
      CallSpawns(l, calls[0]);
      CallsSpawn(PerformCall(l, calls[0]), calls[1..]);
      assert Spawned([calls[0]]) + Spawned(calls[1..]) == Spawned(calls) by {
        assert [calls[0]][1..] == [];
      }
    }
  }

  /** `executeScheduledEvents`, for handlers that schedule finitely many others. */
  function Drain(l: Loop): Loop
    decreases ForestSize(l.queue)
  {
    if l.queue == [] then l
    else
      CallsSpawn(StartTask(l), l.queue[0].body);
      QueueShrinks(l.queue);
      Drain(PerformCalls(StartTask(l), l.queue[0].body))
  }

  /** The drain ends with the queue empty, and starts the tasks in the queue and all they
      schedule, directly or not, once each and in breadth-first order. */
  lemma {:induction false} DrainIsBreadthFirst(l: Loop)
    ensures Drain(l).queue == []
    ensures Drain(l).started == l.started + LevelOrder(l.queue)
    decreases ForestSize(l.queue)
  {
    if l.queue != [] {
      var l1 := PerformCalls(StartTask(l), l.queue[0].body);
      CallsSpawn(StartTask(l), l.queue[0].body);
      QueueShrinks(l.queue);
      DrainIsBreadthFirst(l1);
      QueueOrderIsLevelOrder(l.queue);
      QueueOrderIsLevelOrder(l1.queue);
      assert l1.queue == l.queue[1..] + Spawned(l.queue[0].body);
    }
  }

  // ---------------------------------------------------------------- traces

  /** The API calls in a run, in order. */
  function Calls(steps: seq<Step>): seq<Call>
    decreases steps
  {
    if steps == [] then [] else (if steps[0].Api? then [steps[0].call] else []) + Calls(steps[1..])
  }

  ghost predicate AllTaken(m: Machine, steps: seq<Step>)
    decreases steps
  {
    steps == [] || (Enabled(m, steps[0]) && AllTaken(Next(m, steps[0]), steps[1..]))
  }

  /** A run in which each step is taken, and user code makes exactly these calls. */
  ghost predicate Makes(m: Machine, steps: seq<Step>, calls: seq<Call>) {
    AllTaken(m, steps) && Calls(steps) == calls
  }

  lemma {:induction false} CallsConcat(a: seq<Step>, b: seq<Step>)
    ensures Calls(a + b) == Calls(a) + Calls(b)
    decreases a
  {
    if a == [] {
      assert a + b == b;
    } else {
      assert (a + b)[0] == a[0] && (a + b)[1..] == a[1..] + b;
      CallsConcat(a[1..], b);
    }
  }

  lemma {:induction false} AllTakenConcat(m: Machine, a: seq<Step>, b: seq<Step>)
    requires AllTaken(m, a) && AllTaken(Exec(m, a), b)
    ensures AllTaken(m, a + b)
    decreases a
  {
    hide Next, Enabled;
    if a == [] {
      assert a + b == b;
    } else {
      assert (a + b)[0] == a[0] && (a + b)[1..] == a[1..] + b;
      AllTakenConcat(Next(m, a[0]), a[1..], b);
    }
  }

  lemma MakesConcat(m: Machine, a: seq<Step>, b: seq<Step>, ca: seq<Call>, cb: seq<Call>)
    requires Makes(m, a, ca) && Makes(Exec(m, a), b, cb)
    ensures Exec(m, a + b) == Exec(Exec(m, a), b)
    ensures Makes(m, a + b, ca + cb)
  {
    ExecConcat(m, a, b);
    CallsConcat(a, b);
    AllTakenConcat(m, a, b);
  }

  /** What the tasks call, one task after the other. */
  function Bodies(tasks: seq<Task>): seq<Call> {
    if tasks == [] then [] else tasks[0].body + Bodies(tasks[1..])
  }

  function Apis(calls: seq<Call>): (steps: seq<Step>)
    ensures |steps| == |calls|
    ensures forall i :: 0 <= i < |calls| ==> steps[i] == Api(calls[i])
  {
    seq(|calls|, i requires 0 <= i < |calls| => Api(calls[i]))
  }

  lemma {:induction false} CallsAreSteps(m: Machine, calls: seq<Call>)
    requires m.pc.InCallback? || m.pc.InTask?
    ensures Exec(m, Apis(calls)) == m.(loop := PerformCalls(m.loop, calls))
    ensures Makes(m, Apis(calls), calls)
    decreases calls
  {
    if calls != [] {
      var first := Api(calls[0]);
      var m1 := m.(loop := PerformCall(m.loop, calls[0]));
      OneCall(m, calls[0]);
      hide Next, PerformCall, Makes;
      assert [first] + Apis(calls[1..]) == Apis(calls);
      CallsAreSteps(m1, calls[1..]);
      MakesConcat(m, [first], Apis(calls[1..]), [calls[0]], calls[1..]);
      assert [calls[0]] + calls[1..] == calls;
    }
  }

  lemma OneCall(m: Machine, call: Call)
    requires m.pc.InCallback? || m.pc.InTask?
    ensures Exec(m, [Api(call)]) == m.(loop := PerformCall(m.loop, call))
    ensures Makes(m, [Api(call)], [call])
  {
    ExecOne(m, Api(call));
    hide PerformCall;
  }

  /** One task: it starts, makes its calls and returns. */
  lemma TaskIsSteps(m: Machine) returns (steps: seq<Step>)
    requires m.pc.Draining? && m.loop.queue != []
    ensures Exec(m, steps) == m.(loop := PerformCalls(StartTask(m.loop), m.loop.queue[0].body))
    ensures Makes(m, steps, m.loop.queue[0].body)
  {
    hide PerformCall, PerformCalls, Handle, Reportable, Makes, Exec;
    var calls := m.loop.queue[0].body;
    var m1 := m.(loop := StartTask(m.loop), pc := InTask(m.pc.frame));
    var m2 := m1.(loop := PerformCalls(m1.loop, calls));
    ExecOne(m, RunNextTask);
    CallsAreSteps(m1, calls);
    ExecOne(m2, TaskReturns);
    steps := [RunNextTask] + Apis(calls) + [TaskReturns];
    MakesConcat(m, [RunNextTask], Apis(calls), [], calls);
    MakesConcat(m, [RunNextTask] + Apis(calls), [TaskReturns], [] + calls, []);
    assert [] + calls + [] == calls;
  }

  lemma ExecOne(m: Machine, step: Step)
    ensures Exec(m, [step]) == Next(m, step)
    ensures Enabled(m, step) ==> Makes(m, [step], if step.Api? then [step.call] else [])
  {
    assert [step][1..] == [];
    assert Calls([step]) == if step.Api? then [step.call] else [];
    assert AllTaken(Next(m, step), []);
    hide Next, Enabled;
  }

  /** The drain is a run of the machine, in which the calls are those of the tasks in the order of
      the queue. */
  lemma {:induction false} DrainIsSteps(m: Machine) returns (steps: seq<Step>)
    requires m.pc.Draining?
    ensures Exec(m, steps) == m.(loop := Drain(m.loop), pc := Handling(m.pc.frame.(at := m.pc.frame.at + 1)))
    ensures Makes(m, steps, Bodies(QueueOrder(m.loop.queue)))
    decreases ForestSize(m.loop.queue)
  {
    if m.loop.queue == [] {
      steps := [RunNextTask];
      ExecOne(m, RunNextTask);
    } else {
      CallsSpawn(StartTask(m.loop), m.loop.queue[0].body);
      QueueShrinks(m.loop.queue);
      var first := TaskIsSteps(m);
      var m1 := Exec(m, first);
      var rest := DrainIsSteps(m1);
      steps := first + rest;
      MakesConcat(m, first, rest, m.loop.queue[0].body, Bodies(QueueOrder(m1.loop.queue)));
    }
  }

  // ---------------------------------------------------------------- whole runs

  /** `handleEpollEvent` for handler h: the callback makes the calls of the script, and then the
      scheduled tasks are drained. */
  function HandleEvent(l: Loop, h: Handler, bits: bv32, script: seq<Call>): Loop {
    if Delivered(bits, h.events) == 0 then l else Drain(PerformCalls(l, script))
  }

  /** What user code calls while an event is handled: when the event has a bit that the handler asks
      for, the callback's script, and then the scheduled tasks in breadth-first order. */
  function EventCalls(l: Loop, h: Handler, bits: bv32, script: seq<Call>): seq<Call> {
    if bits & h.events & 0x5 == 0 then [] else script + Bodies(LevelOrder(l.queue + Spawned(script)))
  }

  ghost function HandleBatch(l: Loop, events: seq<Event>, scripts: seq<seq<Call>>): Loop
    requires |scripts| == |events|
    decreases events
  {
    if events == [] then l
    else match Deref(l, events[0].ptr)
      case None => l
      case Some(h) => HandleBatch(HandleEvent(l, h, events[0].bits, scripts[0]), events[1..], scripts[1..])
  }

  /** What user code calls while a batch is handled. */
  ghost function BatchCalls(l: Loop, events: seq<Event>, scripts: seq<seq<Call>>): seq<Call>
    requires |scripts| == |events|
    decreases events
  {
    if events == [] || Deref(l, events[0].ptr).None? then []
    else
      var h := Deref(l, events[0].ptr).value;
      EventCalls(l, h, events[0].bits, scripts[0])
      + BatchCalls(HandleEvent(l, h, events[0].bits, scripts[0]), events[1..], scripts[1..])
  }

  /** One return of epoll_wait, with what each event's callback would do if it is called. */
  datatype Round = Batch(ready: seq<Ready>, scripts: seq<seq<Call>>) | Interrupted | Failed

  /** How far `run` got: it returned, or it is in epoll_wait and nothing more is reported. */
  datatype Outcome = Returned(rc: ReturnCode) | Blocked

  ghost predicate Possible(l: Loop, rounds: seq<Round>)
    decreases rounds
  {
    if rounds == [] || !l.running || l.fds == map[] then true
    else
      var l1 := l.(removed := map[]);
      match rounds[0]
      case Batch(ready, scripts) =>
        && Reportable(l1, ready) && |scripts| == |ready|
        && Possible(HandleBatch(l1, Events(l1, ready), scripts), rounds[1..])
      case Interrupted => Possible(l1, rounds[1..])
      case Failed => true
  }

  /** `run` from the loop's head on. */
  ghost function RunRounds(l: Loop, rounds: seq<Round>): (Loop, Outcome)
    requires Possible(l, rounds)
    decreases rounds
  {
    if !l.running || l.fds == map[] then (l, Returned(Normal))
    else
      var l1 := l.(removed := map[]);
      if rounds == [] then (l1, Blocked)
      else match rounds[0]
        case Batch(ready, scripts) => RunRounds(HandleBatch(l1, Events(l1, ready), scripts), rounds[1..])
        case Interrupted => RunRounds(l1, rounds[1..])
        case Failed => (l1, Returned(InternalFault))
  }

  /** What user code calls in one pass through the loop. */
  ghost function RoundCalls(l: Loop, round: Round): seq<Call>
    requires round.Batch? ==> Reportable(l, round.ready) && |round.scripts| == |round.ready|
  {
    if round.Batch? then BatchCalls(l, Events(l, round.ready), round.scripts) else []
  }

  /** What user code calls during `run`. */
  ghost function RunCalls(l: Loop, rounds: seq<Round>): seq<Call>
    requires Possible(l, rounds)
    decreases rounds
  {
    if !l.running || l.fds == map[] || rounds == [] then []
    else
      var l1 := l.(removed := map[]);
      RoundCalls(l1, rounds[0]) + if rounds[0].Failed? then [] else RunCalls(AfterRound(l1, rounds[0]), rounds[1..])
  }

  lemma NoRound(l: Loop, rounds: seq<Round>)
    requires !l.running || l.fds == map[]
    ensures Possible(l, rounds) && RunRounds(l, rounds) == (l, Returned(Normal)) && RunCalls(l, rounds) == []
  {
  }

  /** The first pass through the loop of `run`. */
  lemma FirstRound(l: Loop, rounds: seq<Round>)
    requires Possible(l, rounds) && l.running && l.fds != map[]
    ensures rounds == [] ==> RunRounds(l, rounds) == (l.(removed := map[]), Blocked)
    ensures rounds != [] && rounds[0].Failed? ==> RunRounds(l, rounds) == (l.(removed := map[]), Returned(InternalFault))
    ensures rounds != [] && rounds[0].Batch? ==>
              Reportable(l.(removed := map[]), rounds[0].ready) && |rounds[0].scripts| == |rounds[0].ready|
    ensures rounds != [] && !rounds[0].Failed? ==>
              var l1 := AfterRound(l.(removed := map[]), rounds[0]);
              Possible(l1, rounds[1..]) && RunRounds(l, rounds) == RunRounds(l1, rounds[1..])
  {
  }

  lemma FirstRoundCalls(l: Loop, rounds: seq<Round>)
    requires Possible(l, rounds) && l.running && l.fds != map[]
    ensures rounds == [] ==> RunCalls(l, rounds) == []
    ensures rounds != [] && (rounds[0].Batch? ==>
              Reportable(l.(removed := map[]), rounds[0].ready) && |rounds[0].scripts| == |rounds[0].ready|) ==>
              RunCalls(l, rounds) == RoundCalls(l.(removed := map[]), rounds[0])
                + if rounds[0].Failed? || !Possible(AfterRound(l.(removed := map[]), rounds[0]), rounds[1..]) then []
                  else RunCalls(AfterRound(l.(removed := map[]), rounds[0]), rounds[1..])
  {
    FirstRound(l, rounds);
    hide HandleBatch, BatchCalls;
  }

  /** What one return of epoll_wait that does not fail leads to. */
  ghost function AfterRound(l: Loop, round: Round): Loop
    requires round.Batch? ==> Reportable(l, round.ready) && |round.scripts| == |round.ready|
  {
    if round.Batch? then HandleBatch(l, Events(l, round.ready), round.scripts) else l
  }

  /** Handling one event is a run of the machine, with those calls. */
  lemma HandleEventIsSteps(m: Machine, script: seq<Call>) returns (steps: seq<Step>)
    requires m.pc.Handling? && m.pc.frame.at < |m.pc.frame.events|
    requires Deref(m.loop, m.pc.frame.events[m.pc.frame.at].ptr).Some?
    ensures var ev := m.pc.frame.events[m.pc.frame.at];
      var m' := Exec(m, steps);
      && m'.loop == HandleEvent(m.loop, Deref(m.loop, ev.ptr).value, ev.bits, script)
      && m'.pc == Handling(m.pc.frame.(at := m.pc.frame.at + 1))
      && Makes(m, steps, EventCalls(m.loop, Deref(m.loop, ev.ptr).value, ev.bits, script))
  {
    var ev := m.pc.frame.events[m.pc.frame.at];
    var m1 := Handle(m);
    ExecOne(m, HandleNext);
    DeliveredIff(ev.bits, Deref(m.loop, ev.ptr).value.events);
    if m1.pc.InCallback? {
      assert m1.loop == m.loop && m1.pc.frame == m.pc.frame;
      hide Next, Handle, PerformCalls, Deref, Delivered, Makes, Exec;
      var rest := CallbackIsSteps(m1, script);
      MakesConcat(m, [HandleNext], rest, [], script + Bodies(LevelOrder(m.loop.queue + Spawned(script))));
      steps := [HandleNext] + rest;
    } else {
      steps := [HandleNext];
    }
  }

  /** A callback and the tasks after it. */
  lemma CallbackIsSteps(m: Machine, script: seq<Call>) returns (steps: seq<Step>)
    requires m.pc.InCallback?
    ensures Exec(m, steps) == m.(loop := Drain(PerformCalls(m.loop, script)), pc := Handling(m.pc.frame.(at := m.pc.frame.at + 1)))
    ensures Makes(m, steps, script + Bodies(LevelOrder(m.loop.queue + Spawned(script))))
  {
    var m1 := m.(loop := PerformCalls(m.loop, script));
    var m2 := m1.(pc := Draining(m.pc.frame));
    CallsAreSteps(m, script);
    ExecOne(m1, CallbackReturns);
    hide Next, PerformCalls, Makes;
    var rest := DrainIsSteps(m2);
    CallsSpawn(m.loop, script);
    QueueOrderIsLevelOrder(m2.loop.queue);
    MakesConcat(m, Apis(script), [CallbackReturns], script, []);
    assert script + [] == script;
    MakesConcat(m, Apis(script) + [CallbackReturns], rest, script, Bodies(QueueOrder(m2.loop.queue)));
    steps := Apis(script) + [CallbackReturns] + rest;
  }

  lemma EventIsFound(m: Machine)
    requires Safe(m) && m.pc.Handling? && m.pc.frame.at < |m.pc.frame.events|
    ensures Deref(m.loop, m.pc.frame.events[m.pc.frame.at].ptr).Some?
  {
    var ev := m.pc.frame.events[m.pc.frame.at];
    assert EventSafe(m.loop, m.pc.frame, ev);
    HeldIsFound(m.loop, ev.fd, m.pc.frame.snapshot[ev.fd]);
  }

  lemma BatchEnds(m: Machine)
    requires m.pc.Handling? && m.pc.frame.at == |m.pc.frame.events|
    ensures Next(m, HandleNext) == m.(pc := Head)
  {
  }

  /** Handling what is left of a batch is a run of the machine, with those calls, and it comes to
      the batch's end: no lookup fails. */
  lemma {:induction false} BatchIsSteps(m: Machine, scripts: seq<seq<Call>>) returns (steps: seq<Step>)
    requires Safe(m) && m.pc.Handling? && m.pc.frame.at + |scripts| == |m.pc.frame.events|
    ensures var m' := Exec(m, steps);
      && m'.pc == Head && m'.loop == HandleBatch(m.loop, m.pc.frame.events[m.pc.frame.at..], scripts)
      && Makes(m, steps, BatchCalls(m.loop, m.pc.frame.events[m.pc.frame.at..], scripts))
    decreases scripts
  {
    hide Safe, Deref, HandleEvent, EventCalls, Next, Makes;
    var frame := m.pc.frame;
    if scripts == [] {
      steps := [HandleNext];
      ExecOne(m, HandleNext);
      BatchEnds(m);
    } else {
      var ev := frame.events[frame.at];
      EventIsFound(m);
      assert frame.events[frame.at..][0] == ev && frame.events[frame.at..][1..] == frame.events[frame.at + 1..];
      var first := HandleEventIsSteps(m, scripts[0]);
      var m1 := Exec(m, first);
      ExecKeepsSafe(m, first);
      var rest := BatchIsSteps(m1, scripts[1..]);
      steps := first + rest;
      MakesConcat(m, first, rest, EventCalls(m.loop, Deref(m.loop, ev.ptr).value, ev.bits, scripts[0]),
        BatchCalls(m1.loop, frame.events[frame.at + 1..], scripts[1..]));
    }
  }

  /** A whole `run`, from its call on, is a run of the machine, with those calls; so all that is
      proved of the machine's reachable states holds throughout it. */
  lemma RunIsSteps(m: Machine, rounds: seq<Round>) returns (steps: seq<Step>)
    requires Safe(m) && m.pc.Outside? && Possible(m.loop.(running := true), rounds)
    ensures var (l', outcome) := RunRounds(m.loop.(running := true), rounds);
      var m' := Exec(m, steps);
      && m'.loop == l'
      && (outcome.Returned? ==> m'.pc == Outside && m'.result == Some(outcome.rc))
      && (outcome.Blocked? ==> m'.pc == Waiting)
      && Makes(m, steps, RunCalls(m.loop.(running := true), rounds))
  {
    hide Safe, Possible, RunRounds, RunCalls;
    ExecOne(m, EnterRun);
    NextKeepsSafe(m, EnterRun);
    var m1 := Next(m, EnterRun);
    assert m1.pc.Head? && m1.loop == m.loop.(running := true);
    var rest := RoundsAreSteps(m1, rounds);
    MakesConcat(m, [EnterRun], rest, [], RunCalls(m1.loop, rounds));
    steps := [EnterRun] + rest;
  }

  lemma {:induction false} RoundsAreSteps(m: Machine, rounds: seq<Round>) returns (steps: seq<Step>)
    requires Safe(m) && m.pc.Head? && Possible(m.loop, rounds)
    ensures var (l', outcome) := RunRounds(m.loop, rounds);
      var m' := Exec(m, steps);
      && m'.loop == l'
      && (outcome.Returned? ==> m'.pc == Outside && m'.result == Some(outcome.rc))
      && (outcome.Blocked? ==> m'.pc == Waiting)
      && Makes(m, steps, RunCalls(m.loop, rounds))
    decreases rounds
  {
    hide Safe, Next, Exec, Makes, Reportable, RunRounds, RunCalls, Possible, AfterRound, RoundCalls;
    var m1 := LoopHead(m);
    HeadIsStep(m);
    steps := [TestHead];
    if m1.pc.Outside? {
      NoRound(m.loop, rounds);
      return;
    }
    FirstRound(m.loop, rounds);
    FirstRoundCalls(m.loop, rounds);
    if rounds != [] {
      var calls := RoundCalls(m1.loop, rounds[0]);
      var more := RoundIsSteps(m1, rounds[0]);
      MakesConcat(m, [TestHead], more, [], calls);
      assert [] + calls == calls == calls + [];
      steps := [TestHead] + more;
      if !rounds[0].Failed? {
        var m2 := Exec(m1, more);
        ExecKeepsSafe(m1, more);
        var rest := RoundsAreSteps(m2, rounds[1..]);
        MakesConcat(m, steps, rest, calls, RunCalls(m2.loop, rounds[1..]));
        steps := steps + rest;
      }
    }
  }

  lemma HeadIsStep(m: Machine)
    requires Safe(m) && m.pc.Head?
    ensures Exec(m, [TestHead]) == LoopHead(m) && Safe(LoopHead(m)) && Makes(m, [TestHead], [])
  {
    ExecOne(m, TestHead);
    NextKeepsSafe(m, TestHead);
  }

  lemma RoundIsSteps(m: Machine, round: Round) returns (steps: seq<Step>)
    requires Safe(m) && m.pc.Waiting?
    requires round.Batch? ==> Reportable(m.loop, round.ready) && |round.scripts| == |round.ready|
    ensures var m' := Exec(m, steps);
      && Makes(m, steps, RoundCalls(m.loop, round))
      && (!round.Failed? ==> m'.pc == Head && m'.loop == AfterRound(m.loop, round))
      && (round.Failed? ==> m'.pc == Outside && m'.result == Some(InternalFault) && m'.loop == m.loop)
  {
    hide PerformCall, Handle, Deref, Safe, Makes;
    var step := match round
      case Batch(ready, scripts) => WaitReturns(ready)
      case Interrupted => WaitInterrupted
      case Failed => WaitFails;
    steps := [step];
    ExecOne(m, step);
    NextKeepsSafe(m, step);
    if round.Batch? && round.ready != [] {
      var m1 := Next(m, step);
      assert m1.pc.frame.events[0..] == Events(m.loop, round.ready);
      hide Safe, Next;
      var rest := BatchIsSteps(m1, round.scripts);
      var calls := BatchCalls(m.loop, Events(m.loop, round.ready), round.scripts);
      MakesConcat(m, [step], rest, [], calls);
      assert [] + calls == calls;
      steps := [step] + rest;
    } else if round.Batch? {
      assert Events(m.loop, round.ready) == [];
    }
  }
}
