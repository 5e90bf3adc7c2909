/**
 The timer manager in the code's own form: an object that changes its map and the kernel
 timer in place. Each method is proved to do to the object's state what the state machine
 of TimerModel says.
 */
module TimerManager {
  import opened Options
  import opened TimerKernel
  import opened TimerQueue
  import M = TimerModel
  import Inv = TimerInvariants
  import Thm = TimerTheorems

  class TimerManager {
    var timerFd: int
    var activeTimers: seq<Entry>

    // The clock and the kernel's timer, which the manager reads and sets.
    var clock: int
    var kernelTimer: TimerFd

    // The record of what happened; see TimerModel.State.
    var accepted: seq<M.Launched>
    var inserted: seq<Entry>
    var fired: seq<M.Firing>
    var cancelled: seq<Entry>

    ghost function State(): M.State
      reads this
    {
      M.State(clock, timerFd != -1, activeTimers, kernelTimer, accepted, inserted, fired, cancelled)
    }

    constructor (now: int)
      ensures State() == M.Initial(now)
    {
      timerFd := -1;
      activeTimers := [];
      clock := now;
      kernelTimer := IDLE;
      accepted, inserted, fired, cancelled := [], [], [], [];
    }

    method RepossessTimerFd()
      modifies this`kernelTimer
      ensures State() == old(State()).(fd := IDLE)
    {
      kernelTimer := SetTime(Timespec(0, 0));
    }

    /** `willing` is whether the kernel takes a well-formed request. */
    method SetTimerFd(willing: bool) returns (ok: bool)
      modifies this`kernelTimer
      ensures var (fd, success) := M.SetTimerFd(activeTimers, old(kernelTimer), willing);
        State() == old(State()).(fd := fd) && ok == success
    {
      if activeTimers != [] {
        var its := ToTimespec(activeTimers[0].expiry);
        if !willing || !WellFormed(its) {
          return false;
        }
        kernelTimer := SetTime(its);
      } else {
        RepossessTimerFd();
      }
      return true;
    }

    /** `newFd` is what timerfd_create returns, `registered` whether the event loop takes it. */
    method CreateTimerFd(newFd: int, registered: bool) returns (fd: int)
      requires timerFd == -1
      modifies this`kernelTimer
      ensures fd == if newFd != -1 && registered then newFd else -1
      ensures fd != -1 ==> kernelTimer == IDLE
      ensures kernelTimer == old(kernelTimer) || kernelTimer == IDLE
    {
      fd := newFd;
      if fd != -1 {
        RepossessTimerFd();
        if !registered {
          fd := -1;
        }
      }
    }

    /** The scan over the map that `cancelTimer` and `launchNewTimer` share. */
    method Search(subscriber: nat, userId: nat) returns (i: nat)
      ensures i == Find(activeTimers, subscriber, userId)
    {
      i := 0;
      while i < |activeTimers|
        invariant i <= |activeTimers|
        invariant i + Find(activeTimers[i..], subscriber, userId) == Find(activeTimers, subscriber, userId)
      {
        if activeTimers[i].timer.subscriber == subscriber && activeTimers[i].timer.userId == userId {
          return;
        }
        assert activeTimers[i..][1..] == activeTimers[i + 1..];
        i := i + 1;
      }
    }

    /** The place behind every node whose key is not larger. */
    method Place(key: int) returns (p: nat)
      ensures p == UpperBound(activeTimers, key)
    {
      p := 0;
      while p < |activeTimers| && activeTimers[p].expiry <= key
        invariant p <= |activeTimers|
        invariant p + UpperBound(activeTimers[p..], key) == UpperBound(activeTimers, key)
      {
        assert activeTimers[p..][1..] == activeTimers[p + 1..];
        p := p + 1;
      }
    }

    /** `m_activeTimers.emplace`. */
    method Insert(e: Entry)
      modifies this`activeTimers
      ensures activeTimers == Emplace(old(activeTimers), e)
    {
      var p := Place(e.expiry);
      activeTimers := activeTimers[..p] + [e] + activeTimers[p..];
    }

    method LaunchNewTimer(timer: TimerObject, timeout: int, newFd: int, registered: bool, willing: bool) returns (rc: M.ReturnCode)
      requires Inv.Wf(State())
      modifies this
      ensures (State(), rc) == M.Launch(old(State()), timer, timeout, newFd != -1 && registered, willing)
      ensures Inv.Wf(State())
    {
      hide Inv.Wf, Find, UpperBound, Emplace, EraseKey;
      Inv.IdleBeforeCreation(State());
      Inv.LaunchWf(State(), timer, timeout, newFd != -1 && registered, willing);
      var found := Search(timer.subscriber, timer.userId);
      if found < |activeTimers| {
        return M.AlreadyExists;
      }
      if timerFd == -1 {
        timerFd := CreateTimerFd(newFd, registered);
        if timerFd == -1 {
          return M.InternalFault;
        }
      }
      var e := Entry(clock + Millis(timeout), timer, |accepted|, |inserted|);
      var place := Place(e.expiry);
      Insert(e);
      if place == 0 {
        var ok := SetTimerFd(willing);
        if !ok {
          activeTimers := EraseKey(activeTimers, e.expiry);
          return M.InternalFault;
        }
      }
      accepted, inserted := accepted + [M.Launched(timer, clock, timeout)], inserted + [e];
      return M.Normal;
    }

    method StartTimer(timeout: int, subscriber: nat, userId: nat, newFd: int, registered: bool, willing: bool) returns (rc: M.ReturnCode)
      requires Inv.Wf(State())
      modifies this
      ensures (State(), rc) == M.StartTimer(old(State()), timeout, subscriber, userId, newFd != -1 && registered, willing)
      ensures Inv.Wf(State())
    {
      rc := LaunchNewTimer(TimerObject(subscriber, userId, false, 0), timeout, newFd, registered, willing);
    }

    method StartPeriodicalTimer(interval: int, subscriber: nat, userId: nat, newFd: int, registered: bool, willing: bool) returns (rc: M.ReturnCode)
      requires Inv.Wf(State())
      modifies this
      ensures (State(), rc) == M.StartPeriodicalTimer(old(State()), interval, subscriber, userId, newFd != -1 && registered, willing)
      ensures Inv.Wf(State())
    {
      rc := LaunchNewTimer(TimerObject(subscriber, userId, false, interval), interval, newFd, registered, willing);
    }

    method CancelTimer(subscriber: nat, userId: nat) returns (rc: M.ReturnCode)
      requires Inv.Wf(State())
      modifies this
      ensures (State(), rc) == M.Cancel(old(State()), subscriber, userId)
      ensures Inv.Wf(State())
    {
      Inv.CancelWf(State(), subscriber, userId);
      var i := Search(subscriber, userId);
      if i == |activeTimers| {
        return M.NotFound;
      }
      var e := activeTimers[i];
      activeTimers := activeTimers[..i] + activeTimers[i + 1..];
      if i == 0 {
        var _ := SetTimerFd(true);
      }
      cancelled := cancelled + [e];
      return M.Normal;
    }

    /** What can happen while user code runs: its own calls, and the clock and the kernel timer
        moving on. User code cannot call the handler. */
    method Perform(step: M.Step)
      requires !step.Expired?
      requires Inv.Wf(State())
      modifies this
      ensures State() == M.Apply(old(State()), step)
      ensures Inv.Wf(State())
    {
      Inv.ApplyWf(State(), step);
      match step
      case DoLaunch(timer, timeout, createOk, willing) =>
        var _ := LaunchNewTimer(timer, timeout, if createOk then 0 else -1, true, willing);
      case DoCancel(subscriber, userId) =>
        var _ := CancelTimer(subscriber, userId);
      case Tick(nanos) =>
        clock := clock + nanos;
      case KernelExpires =>
        kernelTimer := Expire(kernelTimer, clock);
    }

    /** The subscriber's `handleTimerExpired`: an arbitrary script of calls. */
    method HandleTimeout(script: seq<M.Step>)
      requires forall step :: step in script ==> !step.Expired?
      requires Inv.Wf(State())
      modifies this
      ensures State() == M.Exec(old(State()), script)
      ensures Inv.Wf(State())
    {
      var i := 0;
      while i < |script|
        invariant i <= |script|
        invariant Inv.Wf(State())
        invariant M.Exec(State(), script[i..]) == M.Exec(old(State()), script)
      {
        assert script[i..][1..] == script[i + 1..];
        Perform(script[i]);
        i := i + 1;
      }
    }

    /** The event loop's callback for the timer descriptor; `script` is what the subscriber does
        if it is called. In a state that a run can reach, whose kernel timer points nowhere but
        at the first key, the timer of the subscriber that is called is due. */
    method OnTimerExpired(script: seq<M.Step>) returns (called: Option<Entry>)
      requires forall step :: step in script ==> !step.Expired?
      requires Inv.Wf(State())
      modifies this
      ensures called == M.OnTimerExpired(old(State())).1
      ensures State() == M.Exec(M.OnTimerExpired(old(State())).0, if called.Some? then script else [])
      ensures Inv.Wf(State())
      ensures old(Thm.Pointed(State())) && called.Some? ==> called.value.expiry <= old(clock)
    {
      hide Inv.Wf;
      Inv.ExpiredWf(State());
      if kernelTimer.pending == 0 {
        return None;
      }
      if activeTimers == [] {
        kernelTimer := kernelTimer.(pending := 0);
        return None;
      }
      var e := FireFirst();
      HandleTimeout(script);
      called := Some(e);
    }

    /** After the read: the first timer leaves the map, a periodic one comes back with a new
        instant, and the kernel timer is set again. */
    method FireFirst() returns (e: Entry)
      requires kernelTimer.pending > 0 && activeTimers != []
      modifies this
      ensures (State(), Some(e)) == M.OnTimerExpired(old(State()))
    {
      hide Emplace, M.SetTimerFd;
      kernelTimer := kernelTimer.(pending := 0);
      e := activeTimers[0];
      activeTimers := activeTimers[1..];
      if e.timer.isPeriodical {
        var renewed := Entry(clock + Millis(e.timer.periodicalInterval), e.timer, e.id, |inserted|);
        Insert(renewed);
        inserted := inserted + [renewed];
      } else {
        assert inserted == inserted + [];
      }
      fired := fired + [M.Firing(e, clock)];
      var _ := SetTimerFd(true);
    }
  }
}
