/**
 What every run of the event loop keeps: the kernel's interest list agrees with the handler
 map, no event of a batch ever reaches a freed handler, and callbacks are called for current
 registrations only, with the mask last requested.
 */
module EventLoopSafety {
  import opened Options
  import opened EventMasks
  import opened EventLoopModel

  // ---------------------------------------------------------------- the two maps

  /** Handlers sit under their own fd. A removed one has mask 0, and is an older registration
      than the current one of its fd. */
  ghost predicate Filed(l: Loop) {
    && (forall f :: f in l.fds ==> l.fds[f].fd == f && l.fds[f].registration < l.registrations)
    && (forall f :: f in l.removed ==>
          && l.removed[f].fd == f && l.removed[f].events == 0
          && l.removed[f].registration < l.registrations
          && (f in l.fds ==> l.removed[f].registration < l.fds[f].registration))
  }

  /** No two live handlers share an address. */
  ghost predicate Apart(l: Loop) {
    && (forall f, g :: f in l.fds && g in l.fds && l.fds[f].addr == l.fds[g].addr ==> f == g)
    && (forall f, g :: f in l.removed && g in l.removed && l.removed[f].addr == l.removed[g].addr ==> f == g)
    && (forall f, g :: f in l.fds && g in l.removed ==> l.fds[f].addr != l.removed[g].addr)
  }

  /** The kernel's list and the handler map have the same fds, the list's pointers are the
      addresses of the map's handlers, every handler has the mask last requested for its fd,
      and so has the kernel unless the last MOD failed. */
  ghost predicate InterestAgrees(l: Loop) {
    && l.interest.Keys == l.fds.Keys
    && forall f :: f in l.fds ==>
         && l.interest[f].ptr == l.fds[f].addr
         && f in l.requested && l.fds[f].events == ConvertToEpollEvents(l.requested[f])
         && (f !in l.modFailed ==> l.interest[f].mask == l.fds[f].events)
  }

  ghost predicate Wf(l: Loop) {
    Filed(l) && Apart(l) && InterestAgrees(l)
  }

  /** The same registration, whatever its mask is by now. */
  ghost predicate Same(a: Handler, b: Handler) {
    a.addr == b.addr && a.fd == b.fd && a.callback == b.callback && a.registration == b.registration
  }

  /** Registration h of fd f is alive: still the current one with no older one removed in this
      batch, or the one that the removed map keeps. */
  ghost predicate Held(l: Loop, f: int, h: Handler) {
    (f in l.fds && f !in l.removed && Same(l.fds[f], h)) || (f in l.removed && Same(l.removed[f], h))
  }

  /** A held handler is what its address leads to. */
  lemma HeldIsFound(l: Loop, f: int, h: Handler)
    requires Apart(l) && Held(l, f, h)
    ensures Deref(l, h.addr) == Some(if f in l.removed then l.removed[f] else l.fds[f])
  {
    if f in l.removed {
      assert !exists g :: g in l.fds && l.fds[g].addr == h.addr;
    } else {
      assert l.fds[f].addr == h.addr;
    }
  }

  // ---------------------------------------------------------------- what the API keeps

  lemma AddKeepsWf(l: Loop, fd: int, mask: bv32, callback: nat, hint: nat, createOk: bool, ctlOk: bool)
    requires Wf(l)
    ensures Wf(AddFdHandler(l, fd, mask, callback, hint, createOk, ctlOk).0)
  {
    hide Apart, InterestAgrees, Filed, AddFdHandler;
    AddKeepsFiled(l, fd, mask, callback, hint, createOk, ctlOk);
    AddKeepsApart(l, fd, mask, callback, hint, createOk, ctlOk);
    AddKeepsInterest(l, fd, mask, callback, hint, createOk, ctlOk);
  }

  lemma AddKeepsFiled(l: Loop, fd: int, mask: bv32, callback: nat, hint: nat, createOk: bool, ctlOk: bool)
    requires Filed(l)
    ensures Filed(AddFdHandler(l, fd, mask, callback, hint, createOk, ctlOk).0)
  {
    hide ConvertToEpollEvents, Live, Allocate;
  }

  lemma AddKeepsApart(l: Loop, fd: int, mask: bv32, callback: nat, hint: nat, createOk: bool, ctlOk: bool)
    requires Apart(l)
    ensures Apart(AddFdHandler(l, fd, mask, callback, hint, createOk, ctlOk).0)
  {
    var live := Live(l);
    var addr := Allocate(live, hint);
    forall f | f in l.fds ensures l.fds[f].addr != addr {
      assert l.fds[f].addr in live;
    }
    forall f | f in l.removed ensures l.removed[f].addr != addr {
      assert l.removed[f].addr in live;
    }
    hide Live, Allocate;
  }

  lemma AddKeepsInterest(l: Loop, fd: int, mask: bv32, callback: nat, hint: nat, createOk: bool, ctlOk: bool)
    requires InterestAgrees(l)
    ensures InterestAgrees(AddFdHandler(l, fd, mask, callback, hint, createOk, ctlOk).0)
  {
    hide Live, Allocate;
  }

  lemma UpdateKeepsWf(l: Loop, fd: int, mask: bv32, ctlOk: bool)
    requires Wf(l)
    ensures Wf(UpdateFdEvents(l, fd, mask, ctlOk).0)
  {
    hide Apart, InterestAgrees, Filed, UpdateFdEvents;
    UpdateKeepsFiled(l, fd, mask, ctlOk);
    UpdateKeepsApart(l, fd, mask, ctlOk);
    UpdateKeepsInterest(l, fd, mask, ctlOk);
  }

  lemma UpdateKeepsFiled(l: Loop, fd: int, mask: bv32, ctlOk: bool)
    requires Filed(l)
    ensures Filed(UpdateFdEvents(l, fd, mask, ctlOk).0)
  {
    hide ConvertToEpollEvents;
  }

  lemma UpdateKeepsApart(l: Loop, fd: int, mask: bv32, ctlOk: bool)
    requires Apart(l)
    ensures Apart(UpdateFdEvents(l, fd, mask, ctlOk).0)
  {
    hide ConvertToEpollEvents;
    var fds := UpdateFdEvents(l, fd, mask, ctlOk).0.fds;
    assert forall f :: f in fds <==> f in l.fds;
    assert forall f :: f in fds ==> fds[f].addr == l.fds[f].addr;
  }

  lemma UpdateKeepsInterest(l: Loop, fd: int, mask: bv32, ctlOk: bool)
    requires InterestAgrees(l)
    ensures InterestAgrees(UpdateFdEvents(l, fd, mask, ctlOk).0)
  {
    hide ConvertToEpollEvents;
  }

  lemma RemoveKeepsWf(l: Loop, fd: int)
    requires Wf(l)
    ensures Wf(RemoveFdHandler(l, fd).0)
  {
    hide ConvertToEpollEvents;
    var l' := RemoveFdHandler(l, fd).0;
    assert Filed(l');
    assert Apart(l') by {
      hide Filed, InterestAgrees;
    }
    assert InterestAgrees(l') by {
      hide Filed, Apart;
    }
  }

  lemma CallKeepsWf(l: Loop, call: Call)
    requires Wf(l)
    ensures Wf(PerformCall(l, call))
  {
    match call
    case Add(fd, mask, callback, hint, createOk, ctlOk) => AddKeepsWf(l, fd, mask, callback, hint, createOk, ctlOk);
    case Update(fd, mask, ctlOk) => UpdateKeepsWf(l, fd, mask, ctlOk);
    case Remove(fd) => RemoveKeepsWf(l, fd);
    case Schedule(task) =>
    case Stop =>
  }

  /** Whatever call user code makes, a held registration stays held. For `removeFdHandler` this
      is the point of the removed map: the first removal of an fd in a batch is kept, and the
      later ones, which `emplace` drops, are of registrations that no event points to. */
  lemma CallKeepsHeld(l: Loop, call: Call, f: int, h: Handler)
    requires Held(l, f, h)
    ensures Held(PerformCall(l, call), f, h)
  {
    hide ConvertToEpollEvents, Live, Allocate;
  }

  /** The dropped one: removing an fd that was already removed in this batch frees its handler.
      Nothing is found at its address afterwards. */
  lemma SecondRemovalFrees(l: Loop, fd: int)
    requires Wf(l) && fd in l.fds
    ensures var l' := RemoveFdHandler(l, fd).0;
      l.fds[fd].addr !in Live(l') <==> fd in l.removed
    ensures fd in l.removed ==> Deref(RemoveFdHandler(l, fd).0, l.fds[fd].addr) == None
  {
    var l' := RemoveFdHandler(l, fd).0;
    if fd !in l.removed {
      assert l'.removed[fd].addr == l.fds[fd].addr;
    }
  }

  // ---------------------------------------------------------------- what the calls do

  /** Nothing but the entries of one fd, the descriptor and the record of what was asked for may
      differ. */
  ghost predicate OnlyTouches(l: Loop, l': Loop, fd: int) {
    && l' == l.(epoll := l'.epoll, fds := l'.fds, removed := l'.removed, interest := l'.interest,
                registrations := l'.registrations, requested := l'.requested, modFailed := l'.modFailed)
    && l'.fds - {fd} == l.fds - {fd}
    && l'.removed - {fd} == l.removed - {fd}
    && l'.interest - {fd} == l.interest - {fd}
    && l'.requested - {fd} == l.requested - {fd}
    && l'.modFailed - {fd} == l.modFailed - {fd}
  }

  /** fd is registered anew: a handler for just the events asked for, at an address that nobody
      uses, and an interest for the same events that points to it. */
  ghost predicate Registers(l: Loop, l': Loop, fd: int, mask: bv32, callback: nat) {
    && OnlyTouches(l, l', fd) && l'.epoll && l'.removed == l.removed
    && l'.registrations == l.registrations + 1
    && fd in l'.fds && fd in l'.interest && fd !in l'.modFailed
    && l'.requested == l.requested[fd := mask]
    && (var h := l'.fds[fd];
        && h.fd == fd && h.callback == callback && h.registration == l.registrations
        && h.addr !in Live(l) && l'.interest[fd].ptr == h.addr
        && AsksFor(h.events, mask) && AsksFor(l'.interest[fd].mask, mask))
  }

  /** When `addFdHandler` returns what, and what it then has done. A call that fails leaves both maps
      and the interest list as they were. */
  lemma AddReturns(l: Loop, fd: int, mask: bv32, callback: nat, hint: nat, createOk: bool, ctlOk: bool)
    requires Wf(l)
    ensures var (l', rc) := AddFdHandler(l, fd, mask, callback, hint, createOk, ctlOk);
      var asked := mask & 0x3 != 0;
      && PerformCall(l, Add(fd, mask, callback, hint, createOk, ctlOk)) == l'
      && (rc == AlreadyExists <==> fd in l.fds)
      && (rc == InvalidArg <==> fd !in l.fds && !asked)
      && (rc == InternalFault <==> fd !in l.fds && asked && !((l.epoll || createOk) && ctlOk))
      && (rc == Normal <==> fd !in l.fds && asked && (l.epoll || createOk) && ctlOk)
      && (rc == AlreadyExists || rc == InvalidArg ==> l' == l)
      && (rc == InternalFault ==> l' == l.(epoll := l.epoll || createOk))
      && (rc == Normal ==> Registers(l, l', fd, mask, callback))
  {
    RefusedMask(mask);
    EpollBits(mask);
    AddTouchesOnly(l, fd, mask, callback, hint, createOk, ctlOk);
    hide ConvertToEpollEvents, Live, Wf, AsksFor, OnlyTouches;
  }

  lemma AddTouchesOnly(l: Loop, fd: int, mask: bv32, callback: nat, hint: nat, createOk: bool, ctlOk: bool)
    ensures OnlyTouches(l, AddFdHandler(l, fd, mask, callback, hint, createOk, ctlOk).0, fd)
  {
    hide ConvertToEpollEvents, Live, Allocate;
  }

  /** fd's handler now asks for just these events, and is otherwise the one it was. */
  ghost predicate Asks(l: Loop, l': Loop, fd: int, mask: bv32)
    requires fd in l.fds
  {
    && OnlyTouches(l, l', fd) && l'.epoll == l.epoll && l'.removed == l.removed
    && l'.registrations == l.registrations
    && l'.requested == l.requested[fd := mask]
    && fd in l'.fds && l'.fds[fd] == l.fds[fd].(events := l'.fds[fd].events)
    && AsksFor(l'.fds[fd].events, mask)
  }

  /** When `updateFdEvents` returns what, and what it then has done. When epoll refuses, the handler
      asks for the new events all the same, and the interest list is as it was. */
  lemma UpdateReturns(l: Loop, fd: int, mask: bv32, ctlOk: bool)
    requires Wf(l)
    ensures var (l', rc) := UpdateFdEvents(l, fd, mask, ctlOk);
      var asked := mask & 0x3 != 0;
      && PerformCall(l, Update(fd, mask, ctlOk)) == l'
      && (rc == NotFound <==> fd !in l.fds)
      && (rc == InvalidArg <==> fd in l.fds && !asked)
      && (rc == InternalFault <==> fd in l.fds && asked && !ctlOk)
      && (rc == Normal <==> fd in l.fds && asked && ctlOk)
      && (rc == NotFound || rc == InvalidArg ==> l' == l)
      && (rc == InternalFault ==> Asks(l, l', fd, mask) && l'.interest == l.interest && fd in l'.modFailed)
      && (rc == Normal ==>
            && Asks(l, l', fd, mask) && fd !in l'.modFailed
            && fd in l'.interest && l'.interest[fd].ptr == l.interest[fd].ptr && AsksFor(l'.interest[fd].mask, mask))
  {
    RefusedMask(mask);
    EpollBits(mask);
    UpdateTouchesOnly(l, fd, mask, ctlOk);
    assert fd in l.fds ==> fd in l.interest && l.interest[fd].ptr == l.fds[fd].addr;
    hide ConvertToEpollEvents, Wf, AsksFor, OnlyTouches;
  }

  lemma UpdateTouchesOnly(l: Loop, fd: int, mask: bv32, ctlOk: bool)
    ensures OnlyTouches(l, UpdateFdEvents(l, fd, mask, ctlOk).0, fd)
  {
    hide ConvertToEpollEvents;
  }

  /** The kernel's mask after an update is the handler's exactly when epoll takes the new mask or
      has it already. */
  lemma UpdateAgreesIff(l: Loop, fd: int, mask: bv32, ctlOk: bool)
    requires Wf(l) && fd in l.fds && mask & 0x3 != 0
    ensures var l' := UpdateFdEvents(l, fd, mask, ctlOk).0;
      l'.interest[fd].mask == l'.fds[fd].events <==> ctlOk || AsksFor(l.interest[fd].mask, mask)
  {
    RefusedMask(mask);
    EpollBits(mask);
    OneMaskAsks(ConvertToEpollEvents(mask), l.interest[fd].mask, mask);
    hide ConvertToEpollEvents, AsksFor;
  }

  /** A failing case: fd 5 is registered for input, and epoll refuses its change to output. The
      loop now waits for input and would deliver output only. */
  lemma RefusedUpdateSplitsTheMasks()
    ensures var l := AddFdHandler(INITIAL, 5, FD_EVENT_IN, 0, 0, true, true).0;
      var (l', rc) := UpdateFdEvents(l, 5, FD_EVENT_OUT, false);
      rc == InternalFault && l'.interest[5].mask == EPOLLIN && l'.fds[5].events == EPOLLOUT
  {
    assert ConvertToEpollEvents(FD_EVENT_IN) == EPOLLIN;
    assert ConvertToEpollEvents(FD_EVENT_OUT) == EPOLLOUT;
  }

  /** `removeFdHandler` succeeds exactly for a registered fd, and returns NOT_FOUND for another and
      does nothing. The fd is then gone from the map and from the interest list, and the removed
      map has its handler, with no events, unless it has an older one of the fd. */
  lemma RemoveReturns(l: Loop, fd: int)
    requires Wf(l)
    ensures var (l', rc) := RemoveFdHandler(l, fd);
      && PerformCall(l, Remove(fd)) == l'
      && (rc == Normal <==> fd in l.fds)
      && (rc == NotFound <==> fd !in l.fds)
      && (rc == NotFound ==> l' == l)
      && OnlyTouches(l, l', fd) && l'.epoll == l.epoll && l'.registrations == l.registrations && l'.requested == l.requested
      && l'.fds == l.fds - {fd} && l'.interest == l.interest - {fd}
      && (fd in l.removed ==> l'.removed == l.removed)
      && (fd in l.fds && fd !in l.removed ==> l'.removed == l.removed[fd := l.fds[fd].(events := 0)])
  {
    RemoveTouchesOnly(l, fd);
    assert fd !in l.fds ==> fd !in l.interest;
    hide Wf, OnlyTouches;
  }

  lemma RemoveTouchesOnly(l: Loop, fd: int)
    ensures OnlyTouches(l, RemoveFdHandler(l, fd).0, fd)
  {
  }

  // ---------------------------------------------------------------- the machine

  ghost predicate InFrame(pc: Pc) {
    pc.Handling? || pc.InCallback? || pc.Draining? || pc.InTask?
  }

  /** Every event of the batch that is not done with, the one being handled included, was
      reported for a registration that is still held, and carries its address. */
  ghost predicate FrameSafe(l: Loop, frame: Frame) {
    forall j :: frame.at <= j < |frame.events| ==> EventSafe(l, frame, frame.events[j])
  }

  ghost predicate EventSafe(l: Loop, frame: Frame, ev: Event) {
    && ev.fd in frame.snapshot
    && frame.snapshot[ev.fd].addr == ev.ptr
    && frame.snapshot[ev.fd].fd == ev.fd
    && Held(l, ev.fd, frame.snapshot[ev.fd])
  }

  ghost predicate Safe(m: Machine) {
    && Wf(m.loop)
    && !m.danglingUse
    && (m.pc.Waiting? ==> m.loop.removed == map[] && m.loop.running && m.loop.fds != map[])
    && (InFrame(m.pc) ==> FrameSafe(m.loop, m.pc.frame))
  }

  lemma ApiKeepsSafe(m: Machine, call: Call)
    requires Safe(m) && Enabled(m, Api(call))
    ensures Safe(Apply(m, Api(call)))
  {
    CallKeepsWf(m.loop, call);
    if InFrame(m.pc) {
      var frame := m.pc.frame;
      forall j | frame.at <= j < |frame.events| ensures EventSafe(PerformCall(m.loop, call), frame, frame.events[j]) {
        assert EventSafe(m.loop, frame, frame.events[j]);
        CallKeepsHeld(m.loop, call, frame.events[j].fd, frame.snapshot[frame.events[j].fd]);
      }
    }
  }

  lemma WaitKeepsSafe(m: Machine, ready: seq<Ready>)
    requires Safe(m) && Enabled(m, WaitReturns(ready))
    ensures Safe(Apply(m, WaitReturns(ready)))
  {
    var events := Events(m.loop, ready);
    var frame := Frame(events, 0, m.loop.fds);
    forall j | 0 <= j < |events| ensures EventSafe(m.loop, frame, events[j]) {
      assert ready[j].fd in m.loop.interest.Keys;
    }
  }

  lemma HandleKeepsSafe(m: Machine)
    requires Safe(m) && m.pc.Handling?
    ensures Safe(Handle(m))
  {
    var frame := m.pc.frame;
    if frame.at < |frame.events| {
      var ev := frame.events[frame.at];
      assert EventSafe(m.loop, frame, ev);
      HeldIsFound(m.loop, ev.fd, frame.snapshot[ev.fd]);
      hide Delivered, Deref;
    }
  }

  /** Starting a task and clearing the removed map leave the maps in order. */
  lemma TaskKeepsSafe(m: Machine)
    requires Safe(m) && m.pc.Draining?
    ensures Safe(Apply(m, RunNextTask))
  {
    if m.loop.queue != [] {
      var l' := StartTask(m.loop);
      assert forall f, h :: Held(m.loop, f, h) ==> Held(l', f, h);
      assert forall j :: m.pc.frame.at <= j < |m.pc.frame.events| ==> EventSafe(m.loop, m.pc.frame, m.pc.frame.events[j]);
    }
  }

  /** The steps that neither make a call, nor wait, nor handle an event, nor start a task. */
  lemma QuietStepKeepsSafe(m: Machine, step: Step)
    requires Safe(m) && Enabled(m, step)
    requires step.EnterRun? || step.TestHead? || step.WaitInterrupted? || step.WaitFails? || step.CallbackReturns? || step.TaskReturns?
    ensures Safe(Apply(m, step))
  {
    hide PerformCall, Handle, Reportable, Events, Wf, EventSafe;
    if step.EnterRun? {
      FlagKeepsWf(m.loop);
    } else if step.TestHead? {
      ClearingKeepsWf(m.loop);
    }
  }

  lemma FlagKeepsWf(l: Loop)
    requires Wf(l)
    ensures Wf(l.(running := true))
  {
  }

  lemma ClearingKeepsWf(l: Loop)
    requires Wf(l)
    ensures Wf(l.(removed := map[]))
  {
  }

  lemma NextKeepsSafe(m: Machine, step: Step)
    requires Safe(m)
    ensures Safe(Next(m, step))
  {
    if Enabled(m, step) {
      match step
      case Api(call) => ApiKeepsSafe(m, call);
      case WaitReturns(ready) => WaitKeepsSafe(m, ready);
      case HandleNext => HandleKeepsSafe(m);
      case RunNextTask => TaskKeepsSafe(m);
      case _ => QuietStepKeepsSafe(m, step);
    }
  }

  lemma {:induction false} ExecKeepsSafe(m: Machine, steps: seq<Step>)
    requires Safe(m)
    ensures Safe(Exec(m, steps))
    decreases steps
  {
    hide Safe, Next;
    if steps != [] {
      NextKeepsSafe(m, steps[0]);
      ExecKeepsSafe(Next(m, steps[0]), steps[1..]);
    }
  }

  lemma StartIsSafe()
    ensures Safe(START)
  {
  }

  /** Memory safety over whole runs. Whatever callbacks and tasks add, remove, add again and
      update, and however the allocator reuses addresses, every event of a batch that is not
      done with, including the one whose callback is running, leads to a live handler of the fd
      it was reported for. No freed handler is ever reached. */
  lemma NoDanglingEvent(steps: seq<Step>)
    ensures var m := Exec(START, steps);
      && !m.danglingUse
      && (InFrame(m.pc) ==> forall j :: m.pc.frame.at <= j < |m.pc.frame.events| ==>
            var ev := m.pc.frame.events[j];
            Deref(m.loop, ev.ptr).Some? && Deref(m.loop, ev.ptr).value.fd == ev.fd)
  {
    StartIsSafe();
    ExecKeepsSafe(START, steps);
    var m := Exec(START, steps);
    if InFrame(m.pc) {
      var frame := m.pc.frame;
      forall j | frame.at <= j < |frame.events|
        ensures Deref(m.loop, frame.events[j].ptr).Some? && Deref(m.loop, frame.events[j].ptr).value.fd == frame.events[j].fd
      {
        assert EventSafe(m.loop, frame, frame.events[j]);
        HeldIsFound(m.loop, frame.events[j].fd, frame.snapshot[frame.events[j].fd]);
      }
    }
  }

  /** The loop waits only while it is running, has a handler, and has let go of all removed
      handlers; so the batch that a wait returns is about current handlers. */
  lemma WaitsOnlyWithHandlers(steps: seq<Step>)
    ensures var m := Exec(START, steps);
      m.pc.Waiting? ==>
        m.loop.running && m.loop.fds != map[] && m.loop.removed == map[] && m.loop.interest.Keys == m.loop.fds.Keys
  {
    StartIsSafe();
    ExecKeepsSafe(START, steps);
  }

  /** After any sequence of calls, failing ones included, the interest list agrees with the
      handler map. */
  lemma InterestAgreesInEveryRun(steps: seq<Step>)
    ensures InterestAgrees(Exec(START, steps).loop)
  {
    StartIsSafe();
    ExecKeepsSafe(START, steps);
  }

  // ---------------------------------------------------------------- dispatching

  /** The bits of an event that its callback is owed: those last requested for its fd, if the
      registration the event was reported for is still the current one, and else none. */
  ghost function OwedMask(l: Loop, snapshot: map<int, Handler>, ev: Event): bv32 {
    if ev.fd in snapshot && ev.fd in l.fds && l.fds[ev.fd].registration == snapshot[ev.fd].registration && ev.fd in l.requested
    then Wanted(ev.bits, l.requested[ev.fd])
    else 0
  }

  /** Exactly when an event's callback is called, and with what. In any reachable state about to
      handle an event, the callback is called if and only if it is owed a bit; what is called is
      the callback of the registration the event was reported for, with its fd and exactly the
      owed bits. So an fd removed and added again in the batch never has its new callback called
      by an old event. */
  lemma DispatchedIffOwed(steps: seq<Step>)
    requires var m := Exec(START, steps); m.pc.Handling? && m.pc.frame.at < |m.pc.frame.events|
    ensures var m := Exec(START, steps);
      var ev, snapshot := m.pc.frame.events[m.pc.frame.at], m.pc.frame.snapshot;
      var mask := OwedMask(m.loop, snapshot, ev);
      && ev.fd in snapshot
      && (Handle(m).pc.InCallback? <==> mask != 0)
      && Handle(m).dispatches == m.dispatches +
           if mask != 0 then [Dispatch(ev.fd, mask, snapshot[ev.fd].callback, snapshot[ev.fd].registration)] else []
  {
    StartIsSafe();
    ExecKeepsSafe(START, steps);
    HandleDispatchesIffOwed(Exec(START, steps));
  }

  lemma HandleDispatchesIffOwed(m: Machine)
    requires Safe(m) && m.pc.Handling? && m.pc.frame.at < |m.pc.frame.events|
    ensures var ev, snapshot := m.pc.frame.events[m.pc.frame.at], m.pc.frame.snapshot;
      var mask := OwedMask(m.loop, snapshot, ev);
      && ev.fd in snapshot
      && (Handle(m).pc.InCallback? <==> mask != 0)
      && Handle(m).dispatches == m.dispatches +
           if mask != 0 then [Dispatch(ev.fd, mask, snapshot[ev.fd].callback, snapshot[ev.fd].registration)] else []
  {
    var frame := m.pc.frame;
    var ev := frame.events[frame.at];
    assert EventSafe(m.loop, frame, ev);
    var found := FoundIsOwed(m.loop, frame, ev);
    hide Safe, Deref, EventSafe, OwedMask, Delivered;
  }

  /** Looking an event's handler up and masking with its events gives what is owed. */
  lemma FoundIsOwed(l: Loop, frame: Frame, ev: Event) returns (found: Handler)
    requires Wf(l) && EventSafe(l, frame, ev)
    ensures Deref(l, ev.ptr) == Some(found) && Same(found, frame.snapshot[ev.fd]) && found.fd == ev.fd
    ensures Delivered(ev.bits, found.events) == OwedMask(l, frame.snapshot, ev)
  {
    var h := frame.snapshot[ev.fd];
    HeldIsFound(l, ev.fd, h);
    found := if ev.fd in l.removed then l.removed[ev.fd] else l.fds[ev.fd];
    if ev.fd in l.removed {
      NoEventsThroughZero(ev.bits);
      hide Delivered, Wanted, Apart, Deref;
    } else {
      ConversionsCommuteWithMasking(ev.bits, l.requested[ev.fd]);
      hide Delivered, Wanted, ConvertToEpollEvents, Apart, Deref;
    }
  }
}
