/**
 The event loop in the code's own form: objects that change their maps and handlers in
 place, with raw handler references in the kernel's list and in the events of a batch. Each
 method is proved to do to the object's state what the functions of EventLoopModel and
 EventLoopDrain say, and to follow a batch's references only while a map still holds them.
 */
module EventLoop {
  import opened Options
  import opened EventMasks
  import M = EventLoopModel
  import S = EventLoopSafety
  import D = EventLoopDrain

  class FdHandler {
    const addr: nat
    const fd: int
    const callback: nat
    const registration: nat
    var epollEvents: bv32

    constructor (addr: nat, fd: int, epollEvents: bv32, callback: nat, registration: nat)
      ensures this.addr == addr && this.fd == fd && this.epollEvents == epollEvents
      ensures this.callback == callback && this.registration == registration
    {
      this.addr, this.fd, this.epollEvents, this.callback, this.registration := addr, fd, epollEvents, callback, registration;
    }

    ghost function View(): M.Handler
      reads this
    {
      M.Handler(addr, fd, epollEvents, callback, registration)
    }
  }

  /** An entry of the kernel's interest list, and an event it reports: both carry a bare
      reference to a handler. */
  datatype KernelEntry = KernelEntry(mask: bv32, ptr: FdHandler)
  datatype KernelEvent = KernelEvent(bits: bv32, ptr: FdHandler)

  type HandlerMap = map<int, FdHandler>

  ghost function Views(handlers: HandlerMap): map<int, M.Handler>
    reads handlers.Values
  {
    map f | f in handlers :: handlers[f].View()
  }

  ghost function Interests(interest: map<int, KernelEntry>): map<int, M.Interest> {
    map f | f in interest :: M.Interest(interest[f].mask, interest[f].ptr.addr)
  }

  /** From one pair of handler maps to a later one: removed handlers stay, and a handler that is
      current without an older one of its fd being removed stays current or becomes removed. */
  ghost predicate Retains(fds: HandlerMap, removed: HandlerMap, fds': HandlerMap, removed': HandlerMap) {
    && (forall f :: f in removed ==> f in removed' && removed'[f] == removed[f])
    && (forall f :: f in fds && f !in removed ==>
          (f in fds' && f !in removed' && fds'[f] == fds[f]) || (f in removed' && removed'[f] == fds[f]))
  }

  lemma RetainsItself(fds: HandlerMap, removed: HandlerMap)
    ensures Retains(fds, removed, fds, removed)
  {
  }

  lemma AddingRetains(fds: HandlerMap, removed: HandlerMap, fd: int, handler: FdHandler)
    requires fd !in fds
    ensures Retains(fds, removed, fds[fd := handler], removed)
  {
  }

  lemma RemovingRetains(fds: HandlerMap, removed: HandlerMap, fd: int)
    requires fd in fds
    ensures Retains(fds, removed, fds - {fd}, if fd in removed then removed else removed[fd := fds[fd]])
  {
  }

  /** The kernel's references are those of the handler map. */
  ghost predicate Linked(interest: map<int, KernelEntry>, fds: HandlerMap) {
    forall f :: f in interest ==> f in fds && interest[f].ptr == fds[f]
  }

  lemma LinkedSet(interest: map<int, KernelEntry>, fds: HandlerMap, fd: int, mask: bv32, handler: FdHandler)
    requires Linked(interest, fds)
    ensures Linked(interest[fd := KernelEntry(mask, handler)], fds[fd := handler])
  {
  }

  lemma LinkedDrop(interest: map<int, KernelEntry>, fds: HandlerMap, fd: int)
    requires Linked(interest, fds)
    ensures Linked(interest - {fd}, fds - {fd})
  {
  }

  lemma InterestsSet(interest: map<int, KernelEntry>, fd: int, entry: KernelEntry)
    ensures Interests(interest[fd := entry]) == Interests(interest)[fd := M.Interest(entry.mask, entry.ptr.addr)]
  {
  }

  lemma InterestsDrop(interest: map<int, KernelEntry>, fd: int)
    ensures Interests(interest - {fd}) == Interests(interest) - {fd}
  {
  }

  lemma ViewOf(handlers: HandlerMap, fd: int)
    ensures fd in Views(handlers) <==> fd in handlers
    ensures fd in handlers ==> Views(handlers)[fd] == handlers[fd].View()
  {
  }

  lemma ViewsEmpty(handlers: HandlerMap)
    ensures Views(handlers) == map[] <==> handlers == map[]
  {
    if Views(handlers) == map[] {
      assert forall f :: f in handlers <==> f in Views(handlers);
      assert handlers.Keys == {};
    }
  }

  lemma ViewsSet(handlers: HandlerMap, fd: int, handler: FdHandler)
    ensures Views(handlers[fd := handler]) == Views(handlers)[fd := handler.View()]
  {
  }

  class EventLoop {
    var epollCreated: bool
    var isRunning: bool
    var fdHandlers: HandlerMap
    var removedFdHandlers: HandlerMap
    var scheduledEvents: seq<M.Task>

    // epoll's interest list
    var interest: map<int, KernelEntry>

    // The record of what happened; see EventLoopModel.Loop.
    var registrations: nat
    var requested: map<int, bv32>
    var modFailed: set<int>
    var scheduled: seq<M.Task>
    var started: seq<M.Task>

    ghost function Handlers(): set<FdHandler>
      reads this
    {
      fdHandlers.Values + removedFdHandlers.Values
    }

    ghost function State(): M.Loop
      reads this, Handlers()
    {
      M.Loop(
        epollCreated, Views(fdHandlers), Views(removedFdHandlers), Interests(interest),
        scheduledEvents, isRunning, registrations, requested, modFailed, scheduled, started)
    }

    /** The state is in order, and the kernel's references are those of the handler map. */
    ghost predicate Valid()
      reads this, Handlers()
    {
      S.Wf(State()) && Linked(interest, fdHandlers)
    }

    constructor ()
      ensures Valid() && State() == M.INITIAL && Handlers() == {}
    {
      epollCreated, isRunning := false, false;
      fdHandlers, removedFdHandlers, interest := map[], map[], map[];
      scheduledEvents := [];
      registrations, requested, modFailed := 0, map[], {};
      scheduled, started := [], [];
      new;
    }

    /** The allocation and initialisation of a handler. */
    method NewFdHandler(fd: int, events: bv32, callback: nat, hint: nat) returns (handler: FdHandler)
      ensures fresh(handler)
      ensures handler.View() == M.Handler(M.Allocate(M.Live(State()), hint), fd, events, callback, registrations)
    {
      var live := (set f | f in fdHandlers :: fdHandlers[f].addr) + (set f | f in removedFdHandlers :: removedFdHandlers[f].addr);
      assert live == M.Live(State()) by {
        assert forall f :: f in fdHandlers ==> State().fds[f].addr == fdHandlers[f].addr;
        assert forall f :: f in removedFdHandlers ==> State().removed[f].addr == removedFdHandlers[f].addr;
      }
      handler := new FdHandler(M.Allocate(live, hint), fd, events, callback, registrations);
    }

    method AddFdHandler(fd: int, eventMask: bv32, callback: nat, hint: nat, createOk: bool, ctlOk: bool) returns (rc: M.ReturnCode)
      requires Valid()
      modifies this
      ensures (State(), rc) == M.AddFdHandler(old(State()), fd, eventMask, callback, hint, createOk, ctlOk)
      ensures Valid() && fresh(Handlers() - old(Handlers()))
      ensures Retains(old(fdHandlers), old(removedFdHandlers), fdHandlers, removedFdHandlers)
    {
      hide S.Wf, M.Live, M.Allocate, Views, Interests, Retains, Linked;
      ViewOf(fdHandlers, fd);
      RetainsItself(fdHandlers, removedFdHandlers);
      S.AddKeepsWf(State(), fd, eventMask, callback, hint, createOk, ctlOk);
      if fd in fdHandlers {
        return M.AlreadyExists;
      }
      var events := ConvertToEpollEvents(eventMask);
      hide ConvertToEpollEvents;
      if events == 0 {
        return M.InvalidArg;
      }
      if !epollCreated && !createOk {
        return M.InternalFault;
      }
      ghost var fds, kernel := fdHandlers, interest;
      rc := Register(fd, eventMask, events, callback, hint, ctlOk);
      if ctlOk {
        AddingRetains(fds, removedFdHandlers, fd, fdHandlers[fd]);
        LinkedSet(kernel, fds, fd, events, fdHandlers[fd]);
      }
    }

    /** The part of `addFdHandler` behind its checks. */
    method Register(fd: int, eventMask: bv32, events: bv32, callback: nat, hint: nat, ctlOk: bool) returns (rc: M.ReturnCode)
      modifies this
      ensures removedFdHandlers == old(removedFdHandlers)
      ensures rc == if ctlOk then M.Normal else M.InternalFault
      ensures var h := M.Handler(M.Allocate(M.Live(old(State())), hint), fd, events, callback, old(registrations));
        State() == if !ctlOk then old(State()).(epoll := true) else old(State()).(
          epoll := true,
          fds := old(State()).fds[fd := h],
          interest := old(State()).interest[fd := M.Interest(events, h.addr)],
          registrations := old(registrations) + 1,
          requested := old(requested)[fd := eventMask],
          modFailed := old(modFailed) - {fd})
      ensures !ctlOk ==> fdHandlers == old(fdHandlers) && interest == old(interest)
      ensures ctlOk ==> fd in fdHandlers && fresh(fdHandlers[fd]) && fdHandlers == old(fdHandlers)[fd := fdHandlers[fd]]
      ensures ctlOk ==> interest == old(interest)[fd := KernelEntry(events, fdHandlers[fd])]
    {
      hide Views, Interests, M.Live, M.Allocate;
      var handler := NewFdHandler(fd, events, callback, hint);
      epollCreated := true;
      if !ctlOk {
        return M.InternalFault;
      }
      Install(handler, eventMask);
      return M.Normal;
    }

    /** Entering a new handler in the interest list and in the map. */
    method Install(handler: FdHandler, eventMask: bv32)
      modifies this
      ensures fdHandlers == old(fdHandlers)[handler.fd := handler] && removedFdHandlers == old(removedFdHandlers)
      ensures interest == old(interest)[handler.fd := KernelEntry(handler.epollEvents, handler)]
      ensures State() == old(State()).(
        fds := old(State()).fds[handler.fd := handler.View()],
        interest := old(State()).interest[handler.fd := M.Interest(handler.epollEvents, handler.addr)],
        registrations := old(registrations) + 1,
        requested := old(requested)[handler.fd := eventMask],
        modFailed := old(modFailed) - {handler.fd})
    {
      hide Views, Interests;
      var fd := handler.fd;
      InterestsSet(interest, fd, KernelEntry(handler.epollEvents, handler));
      ViewsSet(fdHandlers, fd, handler);
      interest := interest[fd := KernelEntry(handler.epollEvents, handler)];
      fdHandlers := fdHandlers[fd := handler];
      registrations, requested, modFailed := registrations + 1, requested[fd := eventMask], modFailed - {fd};
    }

    /** Writing the mask of the handler that the map has for an fd. */
    method SetHandlerMask(fd: int, events: bv32)
      requires Valid() && fd in fdHandlers
      modifies fdHandlers[fd]
      ensures Views(fdHandlers) == old(Views(fdHandlers))[fd := old(fdHandlers[fd].View()).(events := events)]
      ensures Views(removedFdHandlers) == old(Views(removedFdHandlers))
      ensures fdHandlers[fd].View() == old(fdHandlers[fd].View()).(events := events)
    {
      hide S.Wf;
      OwnHandler(fd);
      var handler := fdHandlers[fd];
      handler.epollEvents := events;
      forall f | f in fdHandlers && f != fd ensures fdHandlers[f].View() == old(fdHandlers[f].View()) {
        assert fdHandlers[f] != handler;
      }
      forall f | f in removedFdHandlers ensures removedFdHandlers[f].View() == old(removedFdHandlers[f].View()) {
        assert removedFdHandlers[f] != handler;
      }
    }

    method UpdateFdEvents(fd: int, eventMask: bv32, ctlOk: bool) returns (rc: M.ReturnCode)
      requires Valid()
      modifies this, Handlers()
      ensures (State(), rc) == M.UpdateFdEvents(old(State()), fd, eventMask, ctlOk)
      ensures Valid() && fresh(Handlers() - old(Handlers()))
      ensures Retains(old(fdHandlers), old(removedFdHandlers), fdHandlers, removedFdHandlers)
    {
      hide S.Wf, Views, Interests, Retains, Linked;
      ViewOf(fdHandlers, fd);
      RetainsItself(fdHandlers, removedFdHandlers);
      S.UpdateKeepsWf(State(), fd, eventMask, ctlOk);
      if fd !in fdHandlers {
        return M.NotFound;
      }
      var events := ConvertToEpollEvents(eventMask);
      hide ConvertToEpollEvents;
      if events == 0 {
        return M.InvalidArg;
      }
      rc := ModifyEvents(fd, eventMask, events, ctlOk);
    }

    /** The part of `updateFdEvents` behind its checks: the handler's mask is written before epoll
        is asked. */
    method ModifyEvents(fd: int, eventMask: bv32, events: bv32, ctlOk: bool) returns (rc: M.ReturnCode)
      requires Valid() && fd in fdHandlers
      modifies this`requested, this`modFailed, this`interest, fdHandlers[fd]
      ensures rc == if ctlOk then M.Normal else M.InternalFault
      ensures fd in old(State()).fds
      ensures var h := old(State()).fds[fd].(events := events);
        State() == old(State()).(
          fds := old(State()).fds[fd := h],
          interest := if ctlOk then old(State()).interest[fd := M.Interest(events, h.addr)] else old(State()).interest,
          requested := old(requested)[fd := eventMask],
          modFailed := if ctlOk then old(modFailed) - {fd} else old(modFailed) + {fd})
      ensures Linked(interest, fdHandlers)
    {
      hide S.Wf, Views, Interests, Linked;
      ViewOf(fdHandlers, fd);
      SetHandlerMask(fd, events);
      requested := requested[fd := eventMask];
      if !ctlOk {
        modFailed := modFailed + {fd};
        return M.InternalFault;
      }
      InterestsSet(interest, fd, KernelEntry(events, fdHandlers[fd]));
      LinkedSet(interest, fdHandlers, fd, events, fdHandlers[fd]);
      assert fdHandlers[fd := fdHandlers[fd]] == fdHandlers;
      interest := interest[fd := KernelEntry(events, fdHandlers[fd])];
      modFailed := modFailed - {fd};
      return M.Normal;
    }

    /** The handler of an fd is the handler of no other fd, and is not a removed one. */
    lemma OwnHandler(fd: int)
      requires Valid() && fd in fdHandlers
      ensures forall f :: f in fdHandlers && fdHandlers[f] == fdHandlers[fd] ==> f == fd
      ensures forall f :: f in removedFdHandlers ==> removedFdHandlers[f] != fdHandlers[fd]
    {
      var l := State();
      assert forall f :: f in fdHandlers ==> l.fds[f].addr == fdHandlers[f].addr;
      assert forall f :: f in removedFdHandlers ==> l.removed[f].addr == removedFdHandlers[f].addr;
    }

    method RemoveFdHandler(fd: int) returns (rc: M.ReturnCode)
      requires Valid()
      modifies this, Handlers()
      ensures (State(), rc) == M.RemoveFdHandler(old(State()), fd)
      ensures Valid() && fresh(Handlers() - old(Handlers()))
      ensures Retains(old(fdHandlers), old(removedFdHandlers), fdHandlers, removedFdHandlers)
    {
      hide S.Wf, Views, Interests, Retains, Linked;
      ViewOf(fdHandlers, fd);
      S.RemoveKeepsWf(State(), fd);
      if fd !in fdHandlers {
        RetainsItself(fdHandlers, removedFdHandlers);
        return M.NotFound;
      }
      OwnHandler(fd);
      RemovingRetains(fdHandlers, removedFdHandlers, fd);
      LinkedDrop(interest, fdHandlers, fd);
      InterestsDrop(interest, fd);
      interest := interest - {fd};
      MoveToRemoved(fd);
      modFailed := modFailed - {fd};
      return M.Normal;
    }

    /** The handler of fd gets mask 0 and moves to the removed map, unless that has one of fd. */
    method MoveToRemoved(fd: int)
      requires fd in fdHandlers
      requires forall f :: f in fdHandlers && fdHandlers[f] == fdHandlers[fd] ==> f == fd
      requires forall f :: f in removedFdHandlers ==> removedFdHandlers[f] != fdHandlers[fd]
      modifies this`fdHandlers, this`removedFdHandlers, fdHandlers[fd]
      ensures fdHandlers == old(fdHandlers) - {fd}
      ensures removedFdHandlers == if fd in old(removedFdHandlers) then old(removedFdHandlers) else old(removedFdHandlers)[fd := old(fdHandlers[fd])]
      ensures Views(fdHandlers) == old(Views(fdHandlers)) - {fd}
      ensures Views(removedFdHandlers) == M.EmplaceRemoved(old(Views(removedFdHandlers)), fd, old(fdHandlers[fd].View()).(events := 0))
    {
      var handler := fdHandlers[fd];
      handler.epollEvents := 0;
      forall f | f in removedFdHandlers ensures removedFdHandlers[f].View() == old(removedFdHandlers[f].View()) {
        assert removedFdHandlers[f] != handler;
      }
      assert Views(removedFdHandlers) == old(Views(removedFdHandlers));
      if fd !in removedFdHandlers {
        ViewsSet(removedFdHandlers, fd, handler);
        removedFdHandlers := removedFdHandlers[fd := handler];
      }
      fdHandlers := fdHandlers - {fd};
      forall f | f in fdHandlers ensures fdHandlers[f].View() == old(fdHandlers[f].View()) {
        assert fdHandlers[f] != handler;
      }
    }

    method ScheduleEvent(task: M.Task)
      requires Valid()
      modifies this
      ensures State() == M.ScheduleEvent(old(State()), task)
      ensures Valid() && fdHandlers == old(fdHandlers) && removedFdHandlers == old(removedFdHandlers)
    {
      hide S.Wf, Views, Interests;
      QueueIsFree(State(), scheduledEvents + [task], isRunning, scheduled + [task], started);
      scheduledEvents := scheduledEvents + [task];
      scheduled := scheduled + [task];
    }

    method Stop()
      requires Valid()
      modifies this
      ensures State() == old(State()).(running := false)
      ensures Valid() && fdHandlers == old(fdHandlers) && removedFdHandlers == old(removedFdHandlers)
    {
      hide S.Wf, Views, Interests;
      QueueIsFree(State(), scheduledEvents, false, scheduled, started);
      isRunning := false;
    }

    method Perform(call: M.Call)
      requires Valid()
      modifies this, Handlers()
      ensures State() == M.PerformCall(old(State()), call)
      ensures Valid() && fresh(Handlers() - old(Handlers()))
      ensures Retains(old(fdHandlers), old(removedFdHandlers), fdHandlers, removedFdHandlers)
    {
      hide S.Wf, Views, Interests, M.AddFdHandler, M.UpdateFdEvents, M.RemoveFdHandler;
      match call
      case Add(fd, mask, callback, hint, createOk, ctlOk) =>
        var _ := AddFdHandler(fd, mask, callback, hint, createOk, ctlOk);
      case Update(fd, mask, ctlOk) =>
        var _ := UpdateFdEvents(fd, mask, ctlOk);
      case Remove(fd) =>
        var _ := RemoveFdHandler(fd);
      case Schedule(task) =>
        ScheduleEvent(task);
      case Stop =>
        Stop();
    }

    /** User code: an arbitrary script of calls. */
    method PerformAll(calls: seq<M.Call>)
      requires Valid()
      modifies this, Handlers()
      ensures State() == M.PerformCalls(old(State()), calls)
      ensures Valid() && fresh(Handlers() - old(Handlers()))
      ensures Retains(old(fdHandlers), old(removedFdHandlers), fdHandlers, removedFdHandlers)
    {
      hide S.Wf, Views, Interests, M.PerformCall;
      var i := 0;
      while i < |calls|
        invariant i <= |calls|
        invariant Valid() && fresh(Handlers() - old(Handlers()))
        invariant Retains(old(fdHandlers), old(removedFdHandlers), fdHandlers, removedFdHandlers)
        invariant M.PerformCalls(State(), calls[i..]) == M.PerformCalls(old(State()), calls)
      {
        assert calls[i..][1..] == calls[i + 1..];
        Perform(calls[i]);
        i := i + 1;
      }
    }

    /** Taking the first task out of the queue and running it. */
    method ExecuteNext()
      requires Valid() && scheduledEvents != []
      modifies this, Handlers()
      ensures State() == M.PerformCalls(M.StartTask(old(State())), old(scheduledEvents)[0].body)
      ensures Valid() && fresh(Handlers() - old(Handlers()))
      ensures Retains(old(fdHandlers), old(removedFdHandlers), fdHandlers, removedFdHandlers)
    {
      hide S.Wf, Views, Interests, M.PerformCalls;
      QueueIsFree(State(), scheduledEvents[1..], isRunning, scheduled, started + [scheduledEvents[0]]);
      var task := scheduledEvents[0];
      scheduledEvents := scheduledEvents[1..];
      started := started + [task];
      PerformAll(task.body);
    }

    method ExecuteScheduledEvents()
      requires Valid()
      modifies this, Handlers()
      ensures State() == D.Drain(old(State()))
      ensures scheduledEvents == []
      ensures Valid() && fresh(Handlers() - old(Handlers()))
      ensures Retains(old(fdHandlers), old(removedFdHandlers), fdHandlers, removedFdHandlers)
    {
      hide S.Wf, Views, Interests, M.PerformCalls, M.StartTask;
      while scheduledEvents != []
        invariant Valid() && fresh(Handlers() - old(Handlers()))
        invariant Retains(old(fdHandlers), old(removedFdHandlers), fdHandlers, removedFdHandlers)
        invariant D.Drain(State()) == D.Drain(old(State()))
        decreases D.ForestSize(scheduledEvents)
      {
        TaskShrinks(State());
        ExecuteNext();
      }
    }

    /** `handleEpollEvent`, with what the callback does if it is called; the result is that call. The
        reference must be one that a map still holds: it is read. */
    method HandleEpollEvent(event: KernelEvent, script: seq<M.Call>) returns (called: Option<M.Dispatch>)
      requires Valid()
      requires event.ptr in Handlers()
      modifies this, Handlers()
      ensures State() == D.HandleEvent(old(State()), old(event.ptr.View()), event.bits, script)
      ensures var mask := Delivered(event.bits, old(event.ptr.epollEvents));
        called == if mask == 0 then None else Some(M.Dispatch(event.ptr.fd, mask, event.ptr.callback, event.ptr.registration))
      ensures Valid() && fresh(Handlers() - old(Handlers()))
      ensures Retains(old(fdHandlers), old(removedFdHandlers), fdHandlers, removedFdHandlers)
    {
      hide S.Wf, Views, Interests, D.Drain, M.PerformCalls;
      var eventMask := ConvertToLocalEvents(event.bits & event.ptr.epollEvents);
      assert eventMask == Delivered(event.bits, event.ptr.epollEvents);
      hide ConvertToLocalEvents, Delivered;
      called := None;
      if eventMask != 0 {
        called := Some(M.Dispatch(event.ptr.fd, eventMask, event.ptr.callback, event.ptr.registration));
        PerformAll(script);
        ExecuteScheduledEvents();
      }
    }

    /** Handler p is still the registration of fd that it was: current, or removed and kept. */
    ghost predicate Kept(fd: int, p: FdHandler)
      reads this
    {
      (fd in fdHandlers && fd !in removedFdHandlers && fdHandlers[fd] == p) || (fd in removedFdHandlers && removedFdHandlers[fd] == p)
    }

    lemma KeptIsFound(fd: int, p: FdHandler)
      requires Valid() && Kept(fd, p)
      ensures p in Handlers()
      ensures M.Deref(State(), p.addr) == Some(p.View())
    {
      ViewOf(fdHandlers, fd);
      ViewOf(removedFdHandlers, fd);
      hide Views, Interests, M.Deref;
      S.HeldIsFound(State(), fd, p.View());
    }

    /** epoll_wait: the events carry the references that the interest list has. */
    method EpollWait(ready: seq<M.Ready>) returns (events: seq<KernelEvent>)
      requires Valid() && M.Reportable(State(), ready)
      ensures |events| == |ready|
      ensures forall i :: 0 <= i < |ready| ==>
        ready[i].fd in fdHandlers && events[i] == KernelEvent(ready[i].bits, fdHandlers[ready[i].fd])
      ensures forall i :: 0 <= i < |ready| ==>
        ready[i].fd in State().interest && M.Events(State(), ready)[i].ptr == fdHandlers[ready[i].fd].addr
    {
      hide S.Wf;
      forall i | 0 <= i < |ready| ensures ready[i].fd in interest {
        assert ready[i].fd in State().interest;
      }
      events := [];
      for n := 0 to |ready|
        invariant |events| == n
        invariant forall i :: 0 <= i < n ==> events[i] == KernelEvent(ready[i].bits, interest[ready[i].fd].ptr)
      {
        events := events + [KernelEvent(ready[n].bits, interest[ready[n].fd].ptr)];
      }
    }

    /** The `for` loop of `run` over one batch. It reads each event's handler, so each must be held
        when its turn comes, whatever the callbacks before it did. */
    method HandleBatch(ready: seq<M.Ready>, events: seq<KernelEvent>, scripts: seq<seq<M.Call>>)
      requires Valid() && removedFdHandlers == map[]
      requires M.Reportable(State(), ready) && |ready| == |events| == |scripts|
      requires forall i :: 0 <= i < |ready| ==>
        ready[i].fd in fdHandlers && events[i] == KernelEvent(ready[i].bits, fdHandlers[ready[i].fd])
      requires forall i :: 0 <= i < |ready| ==> M.Events(State(), ready)[i].ptr == fdHandlers[ready[i].fd].addr
      modifies this, Handlers()
      ensures State() == D.HandleBatch(old(State()), M.Events(old(State()), ready), scripts)
      ensures Valid() && fresh(Handlers() - old(Handlers()))
    {
      hide S.Wf, Views, Interests, M.Deref, D.HandleEvent;
      ghost var reported := M.Events(State(), ready);
      ghost var start := State();
      ghost var registered := fdHandlers;
      var i := 0;
      while i < |events|
        invariant i <= |events|
        invariant Valid() && fresh(Handlers() - old(Handlers()))
        invariant Retains(registered, map[], fdHandlers, removedFdHandlers)
        invariant D.HandleBatch(State(), reported[i..], scripts[i..]) == D.HandleBatch(start, reported, scripts)
      {
        assert Kept(ready[i].fd, events[i].ptr);
        KeptIsFound(ready[i].fd, events[i].ptr);
        assert reported[i..][0] == reported[i] && reported[i..][1..] == reported[i + 1..];
        assert scripts[i..][0] == scripts[i] && scripts[i..][1..] == scripts[i + 1..];
        var _ := HandleEpollEvent(events[i], scripts[i]);
        i := i + 1;
      }
    }

    /** One successful epoll_wait and the batch it returns. */
    method WaitAndHandle(ready: seq<M.Ready>, scripts: seq<seq<M.Call>>)
      requires Valid() && removedFdHandlers == map[]
      requires M.Reportable(State(), ready) && |ready| == |scripts|
      modifies this, Handlers()
      ensures State() == D.HandleBatch(old(State()), M.Events(old(State()), ready), scripts)
      ensures Valid() && fresh(Handlers() - old(Handlers()))
    {
      hide S.Wf, Views, Interests;
      var events := EpollWait(ready);
      HandleBatch(ready, events, scripts);
    }

    /** What `run` does once epoll_wait has returned without failing. */
    method HandleRound(round: D.Round)
      requires Valid() && removedFdHandlers == map[] && !round.Failed?
      requires round.Batch? ==> M.Reportable(State(), round.ready) && |round.ready| == |round.scripts|
      modifies this, Handlers()
      ensures State() == D.AfterRound(old(State()), round)
      ensures State().fds == map[] <==> fdHandlers == map[]
      ensures Valid() && fresh(Handlers() - old(Handlers()))
    {
      hide S.Wf, Views, Interests, M.Reportable, D.HandleBatch;
      if round.Batch? {
        WaitAndHandle(round.ready, round.scripts);
      }
      ViewsEmpty(fdHandlers);
    }

    /** One pass through the loop of `run`; the result says whether the pass ends `run`. */
    method Pass(rounds: seq<D.Round>) returns (ended: Option<D.Outcome>)
      requires Valid() && isRunning && fdHandlers != map[]
      requires D.Possible(State(), rounds)
      modifies this, Handlers()
      ensures ended.Some? ==> (State(), ended.value) == D.RunRounds(old(State()), rounds)
      ensures ended.None? ==> rounds != [] && D.Possible(State(), rounds[1..])
      ensures ended.None? ==> D.RunRounds(State(), rounds[1..]) == D.RunRounds(old(State()), rounds)
      ensures Valid() && fresh(Handlers() - old(Handlers()))
      ensures State().fds == map[] <==> fdHandlers == map[]
    {
      hide S.Wf, Views, Interests, M.Reportable, D.HandleBatch, D.RunRounds, D.Possible;
      ViewsEmpty(fdHandlers);
      D.FirstRound(State(), rounds);
      ClearRemoved();
      if rounds == [] {
        return Some(D.Blocked);
      }
      if rounds[0].Failed? {
        return Some(D.Returned(M.InternalFault));
      }
      HandleRound(rounds[0]);
      return None;
    }

    /** `run`, against what epoll_wait returns round after round and what user code does. */
    method Run(rounds: seq<D.Round>) returns (outcome: D.Outcome)
      requires Valid()
      requires D.Possible(State().(running := true), rounds)
      modifies this, Handlers()
      ensures (State(), outcome) == D.RunRounds(old(State()).(running := true), rounds)
      ensures Valid() && fresh(Handlers() - old(Handlers()))
    {
      hide S.Wf, Views, Interests, D.RunRounds, D.Possible;
      QueueIsFree(State(), scheduledEvents, true, scheduled, started);
      isRunning := true;
      outcome := RunLoop(rounds);
    }

    /** The `while` loop of `run`. */
    method RunLoop(rounds: seq<D.Round>) returns (outcome: D.Outcome)
      requires Valid() && D.Possible(State(), rounds)
      modifies this, Handlers()
      ensures (State(), outcome) == D.RunRounds(old(State()), rounds)
      ensures Valid() && fresh(Handlers() - old(Handlers()))
    {
      hide S.Wf, Views, Interests, Linked, M.Reportable, D.HandleBatch, D.RunRounds, D.Possible;
      ViewsEmpty(fdHandlers);
      var left := rounds;
      while isRunning && fdHandlers != map[]
        invariant Valid() && fresh(Handlers() - old(Handlers()))
        invariant State().fds == map[] <==> fdHandlers == map[]
        invariant D.Possible(State(), left) && D.RunRounds(State(), left) == D.RunRounds(old(State()), rounds)
        decreases |left|
      {
        var ended := Pass(left);
        if ended.Some? {
          return ended.value;
        }
        left := left[1..];
      }
      D.NoRound(State(), left);
      return D.Returned(M.Normal);
    }

    method ClearRemoved()
      requires Valid()
      modifies this`removedFdHandlers
      ensures Valid() && removedFdHandlers == map[]
      ensures State() == old(State()).(removed := map[])
    {
      hide S.Wf, Views, Interests;
      ClearedIsWf(State());
      removedFdHandlers := map[];
      ViewsEmpty(removedFdHandlers);
    }
  }

  lemma ClearedIsWf(l: M.Loop)
    requires S.Wf(l)
    ensures S.Wf(l.(removed := map[]))
  {
  }

  /** Queue, flag and records play no part in the order of the maps. */
  lemma QueueIsFree(l: M.Loop, queue: seq<M.Task>, running: bool, scheduled: seq<M.Task>, started: seq<M.Task>)
    requires S.Wf(l)
    ensures S.Wf(l.(queue := queue, running := running, scheduled := scheduled, started := started))
  {
  }

  lemma TaskShrinks(l: M.Loop)
    requires l.queue != []
    ensures D.ForestSize(M.PerformCalls(M.StartTask(l), l.queue[0].body).queue) < D.ForestSize(l.queue)
  {
    D.CallsSpawn(M.StartTask(l), l.queue[0].body);
    D.QueueShrinks(l.queue);
  }
}
