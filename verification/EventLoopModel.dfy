/**
 The event loop as a state machine over small steps. Handlers live at addresses, and the
 kernel's interest list and the events of a batch hold bare addresses. A handler is alive
 while one of the loop's two maps holds it; the address of a freed one can be used again.
 */
module EventLoopModel {
  import opened Options
  import opened EventMasks

  datatype ReturnCode = Normal | AlreadyExists | NotFound | InvalidArg | InternalFault

  /** `FdHandler`, its address, and the number of the registration that made it. `callback`
      stands for the stored function. */
  datatype Handler = Handler(addr: nat, fd: int, events: bv32, callback: nat, registration: nat)

  /** An entry of epoll's interest list. */
  datatype Interest = Interest(mask: bv32, ptr: nat)

  /** A scheduled event handler, as the finite tree of the calls it makes when it is run. */
  datatype Task = Task(id: nat, body: seq<Call>)

  /** The API calls user code can make. `hint` is the address the allocator would like to hand
      out; `createOk` and `ctlOk` are the results of epoll_create1 and epoll_ctl. */
  datatype Call =
    | Add(fd: int, mask: bv32, callback: nat, hint: nat, createOk: bool, ctlOk: bool)
    | Update(fd: int, mask: bv32, ctlOk: bool)
    | Remove(fd: int)
    | Schedule(task: Task)
    | Stop

  /** `epoll` .. `running` are the members of `EventLoopImpl` and epoll's interest list. The
      remaining fields are a record that nothing reads:
      - registrations: how many handlers were ever registered
      - requested: the local mask last requested for each fd
      - modFailed: the registered fds whose last epoll_ctl was a MOD that failed
      - scheduled, started: the tasks ever scheduled, and those whose execution began */
  datatype Loop = Loop(
    epoll: bool,
    fds: map<int, Handler>,
    removed: map<int, Handler>,
    interest: map<int, Interest>,
    queue: seq<Task>,
    running: bool,
    registrations: nat,
    requested: map<int, bv32>,
    modFailed: set<int>,
    scheduled: seq<Task>,
    started: seq<Task>)

  const INITIAL := Loop(false, map[], map[], map[], [], false, 0, map[], {}, [], [])

  // ---------------------------------------------------------------- memory

  function Live(l: Loop): set<nat> {
    (set f | f in l.fds :: l.fds[f].addr) + (set f | f in l.removed :: l.removed[f].addr)
  }

  /** The allocator: any address not in use can come out, and none in use does. */
  function Allocate(live: set<nat>, hint: nat): (addr: nat)
    ensures addr !in live && addr >= hint
    ensures hint !in live ==> addr == hint
    decreases live
  {
    if hint !in live then hint else Allocate(live - {hint}, hint + 1)
  }

  /** The handler found at an address, or None when no live handler is there. */
  ghost function Deref(l: Loop, ptr: nat): Option<Handler> {
    if exists f :: f in l.fds && l.fds[f].addr == ptr then
      var f :| f in l.fds && l.fds[f].addr == ptr; Some(l.fds[f])
    else if exists f :: f in l.removed && l.removed[f].addr == ptr then
      var f :| f in l.removed && l.removed[f].addr == ptr; Some(l.removed[f])
    else None
  }

  // ---------------------------------------------------------------- the API

  function AddFdHandler(l: Loop, fd: int, mask: bv32, callback: nat, hint: nat, createOk: bool, ctlOk: bool): (Loop, ReturnCode) {
    var events := ConvertToEpollEvents(mask);
    if fd in l.fds then (l, AlreadyExists)
    else if events == 0 then (l, InvalidArg)
    else if !l.epoll && !createOk then (l, InternalFault)
    else
      var l1 := l.(epoll := true);
      var h := Handler(Allocate(Live(l), hint), fd, events, callback, l.registrations);
      if !ctlOk then (l1, InternalFault)
      else (l1.(
          fds := l.fds[fd := h],
          interest := l.interest[fd := Interest(events, h.addr)],
          registrations := l.registrations + 1,
          requested := l.requested[fd := mask],
          modFailed := l.modFailed - {fd}), Normal)
  }

  /** The handler's mask is written before epoll is asked, and stays when epoll refuses. */
  function UpdateFdEvents(l: Loop, fd: int, mask: bv32, ctlOk: bool): (Loop, ReturnCode) {
    var events := ConvertToEpollEvents(mask);
    if fd !in l.fds then (l, NotFound)
    else if events == 0 then (l, InvalidArg)
    else
      var h := l.fds[fd].(events := events);
      var l1 := l.(fds := l.fds[fd := h], requested := l.requested[fd := mask]);
      if !ctlOk then (l1.(modFailed := l.modFailed + {fd}), InternalFault)
      else (l1.(interest := l.interest[fd := Interest(events, h.addr)], modFailed := l.modFailed - {fd}), Normal)
  }

  /** `unordered_map::emplace`: a key that is there already keeps its value. */
  function EmplaceRemoved(removed: map<int, Handler>, fd: int, h: Handler): map<int, Handler> {
    if fd in removed then removed else removed[fd := h]
  }

  /** The result of EPOLL_CTL_DEL is ignored; afterwards the fd is not in the interest list. */
  function RemoveFdHandler(l: Loop, fd: int): (Loop, ReturnCode) {
    if fd !in l.fds then (l, NotFound)
    else
      (l.(
        fds := l.fds - {fd},
        removed := EmplaceRemoved(l.removed, fd, l.fds[fd].(events := 0)),
        interest := l.interest - {fd},
        modFailed := l.modFailed - {fd}), Normal)
  }

  function ScheduleEvent(l: Loop, task: Task): Loop {
    l.(queue := l.queue + [task], scheduled := l.scheduled + [task])
  }

  function PerformCall(l: Loop, call: Call): Loop {
    match call
    case Add(fd, mask, callback, hint, createOk, ctlOk) => AddFdHandler(l, fd, mask, callback, hint, createOk, ctlOk).0
    case Update(fd, mask, ctlOk) => UpdateFdEvents(l, fd, mask, ctlOk).0
    case Remove(fd) => RemoveFdHandler(l, fd).0
    case Schedule(task) => ScheduleEvent(l, task)
    case Stop => l.(running := false)
  }

  function PerformCalls(l: Loop, calls: seq<Call>): Loop
    decreases calls
  {
    if calls == [] then l else PerformCalls(PerformCall(l, calls[0]), calls[1..])
  }

  // ---------------------------------------------------------------- the machine

  /** What the kernel reports ready. */
  datatype Ready = Ready(fd: int, bits: bv32)

  /** A `struct epoll_event`: the event word and the address stored with the interest. `fd` is
      the descriptor it was reported for; the loop cannot see it. */
  datatype Event = Event(fd: int, ptr: nat, bits: bv32)

  /** The batch being handled, the index reached in it, and the handler map as it was when
      epoll_wait returned (for reference only). */
  datatype Frame = Frame(events: seq<Event>, at: nat, snapshot: map<int, Handler>)

  /** Where the thread is: in user code outside `run`, at the loop's head, in epoll_wait,
      between two events, in a callback, between two scheduled tasks, or in one. */
  datatype Pc =
    | Outside
    | Head
    | Waiting
    | Handling(frame: Frame)
    | InCallback(frame: Frame)
    | Draining(frame: Frame)
    | InTask(frame: Frame)

  /** A call of a callback: its fd and mask arguments, and whose registration it is. */
  datatype Dispatch = Dispatch(fd: int, mask: bv32, callback: nat, registration: nat)

  /** `danglingUse` is set when a batch event's address has no live handler. `dispatches`,
      `waits` (calls of epoll_wait that returned), `handled` (events done with), `dispatched`
      (a callback was called since `run` began) and `result` (what the last `run` returned)
      are a record. */
  datatype Machine = Machine(
    loop: Loop,
    pc: Pc,
    danglingUse: bool,
    dispatches: seq<Dispatch>,
    waits: nat,
    handled: seq<Event>,
    dispatched: bool,
    result: Option<ReturnCode>)

  const START := Machine(INITIAL, Outside, false, [], 0, [], false, None)

  datatype Step =
    | Api(call: Call)
    | EnterRun
    | TestHead
    | WaitReturns(ready: seq<Ready>)
    | WaitInterrupted
    | WaitFails
    | HandleNext
    | CallbackReturns
    | RunNextTask
    | TaskReturns

  const MAX_EVENTS := 3

  /** What epoll_wait can report: at most three distinct fds of the interest list. The event
      words are arbitrary, so EPOLLERR and EPOLLHUP and spurious bits are included. */
  ghost predicate Reportable(l: Loop, ready: seq<Ready>) {
    && |ready| <= MAX_EVENTS
    && (forall i :: 0 <= i < |ready| ==> ready[i].fd in l.interest)
    && (forall i, j :: 0 <= i < j < |ready| ==> ready[i].fd != ready[j].fd)
  }

  function Events(l: Loop, ready: seq<Ready>): (events: seq<Event>)
    requires forall i :: 0 <= i < |ready| ==> ready[i].fd in l.interest
    ensures |events| == |ready|
    ensures forall i :: 0 <= i < |ready| ==> events[i] == Event(ready[i].fd, l.interest[ready[i].fd].ptr, ready[i].bits)
  {
    seq(|ready|, i requires 0 <= i < |ready| => Event(ready[i].fd, l.interest[ready[i].fd].ptr, ready[i].bits))
  }

  /** The steps the thread can take where it is. User code runs outside `run`, in callbacks
      and in tasks, and may make any call there; it does not call `run` again from inside. */
  ghost predicate Enabled(m: Machine, step: Step) {
    match step
    case Api(_) => m.pc.Outside? || m.pc.InCallback? || m.pc.InTask?
    case EnterRun => m.pc.Outside?
    case TestHead => m.pc.Head?
    case WaitReturns(ready) => m.pc.Waiting? && Reportable(m.loop, ready)
    case WaitInterrupted => m.pc.Waiting?
    case WaitFails => m.pc.Waiting?
    case HandleNext => m.pc.Handling?
    case CallbackReturns => m.pc.InCallback?
    case RunNextTask => m.pc.Draining?
    case TaskReturns => m.pc.InTask?
  }

  /** The `while` condition of `run`, and the clearing of the removed handlers. */
  function LoopHead(m: Machine): Machine {
    if m.loop.running && m.loop.fds != map[] then m.(loop := m.loop.(removed := map[]), pc := Waiting)
    else m.(pc := Outside, result := Some(Normal))
  }

  /** `handleEpollEvent` up to the callback's call. */
  ghost function Handle(m: Machine): Machine
    requires m.pc.Handling?
  {
    var frame := m.pc.frame;
    if frame.at >= |frame.events| then m.(pc := Head)
    else
      var ev := frame.events[frame.at];
      match Deref(m.loop, ev.ptr)
      case None => m.(danglingUse := true)
      case Some(h) =>
        var mask := Delivered(ev.bits, h.events);
        var m1 := m.(handled := m.handled + [ev]);
        if mask == 0 then m1.(pc := Handling(frame.(at := frame.at + 1)))
        else m1.(pc := InCallback(frame), dispatched := true,
                 dispatches := m.dispatches + [Dispatch(h.fd, mask, h.callback, h.registration)])
  }

  function StartTask(l: Loop): Loop
    requires l.queue != []
  {
    l.(queue := l.queue[1..], started := l.started + [l.queue[0]])
  }

  ghost function Apply(m: Machine, step: Step): Machine
    requires Enabled(m, step)
  {
    match step
    case Api(call) => m.(loop := PerformCall(m.loop, call))
    case EnterRun => m.(loop := m.loop.(running := true), pc := Head, dispatched := false)
    case TestHead => LoopHead(m)
    case WaitReturns(ready) =>
      if ready == [] then m.(pc := Head, waits := m.waits + 1)
      else m.(pc := Handling(Frame(Events(m.loop, ready), 0, m.loop.fds)), waits := m.waits + 1)
    case WaitInterrupted => m.(pc := Head, waits := m.waits + 1)
    case WaitFails => m.(pc := Outside, result := Some(InternalFault), waits := m.waits + 1)
    case HandleNext => Handle(m)
    case CallbackReturns => m.(pc := Draining(m.pc.frame))
    case RunNextTask =>
      if m.loop.queue == [] then m.(pc := Handling(m.pc.frame.(at := m.pc.frame.at + 1)))
      else m.(loop := StartTask(m.loop), pc := InTask(m.pc.frame))
    case TaskReturns => m.(pc := Draining(m.pc.frame))
  }

  /** A run: any sequence of steps. One that the thread cannot take leaves things as they are. */
  ghost function Next(m: Machine, step: Step): Machine {
    if Enabled(m, step) then Apply(m, step) else m
  }

  ghost function Exec(m: Machine, steps: seq<Step>): Machine
    decreases steps
  {
    if steps == [] then m else Exec(Next(m, steps[0]), steps[1..])
  }

  lemma {:induction false} ExecConcat(m: Machine, a: seq<Step>, b: seq<Step>)
    ensures Exec(m, a + b) == Exec(Exec(m, a), b)
    decreases a
  {
    hide Next;
    if a == [] {
      assert a + b == b;
    } else {
      assert (a + b)[0] == a[0] && (a + b)[1..] == a[1..] + b;
      ExecConcat(Next(m, a[0]), a[1..], b);
    }
  }
}
