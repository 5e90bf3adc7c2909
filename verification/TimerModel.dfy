/**
 The timer manager as a state machine: what each operation does to the map of active
 timers and to the kernel timer. One thread owns it, so operations do not interleave, but
 the clock and the kernel timer move on between any two of them.
 */
module TimerModel {
  import opened Options
  import opened TimerKernel
  import opened TimerQueue

  datatype ReturnCode = Normal | AlreadyExists | NotFound | InternalFault

  datatype Firing = Firing(entry: Entry, at: int)

  /** A launch that returned NORMAL: the timer, the clock at that moment and the timeout in
      milliseconds. */
  datatype Launched = Launched(timer: TimerObject, at: int, timeout: int)

  /** `created`, `active` and `fd` are what the manager and the kernel hold. The last four
      fields record what happened, and nothing reads them:
      - accepted: the launches that returned NORMAL; an index is a launch's id
      - inserted: the nodes put in the map for good; an index is a node's rank
      - fired: the nodes taken out by `onTimerExpired`, with the clock at that moment
      - cancelled: the nodes taken out by `cancelTimer` */
  datatype State = State(
    now: int,
    created: bool,
    active: seq<Entry>,
    fd: TimerFd,
    accepted: seq<Launched>,
    inserted: seq<Entry>,
    fired: seq<Firing>,
    cancelled: seq<Entry>)

  function Initial(now: int): State {
    State(now, false, [], IDLE, [], [], [], [])
  }

  /** `setTimerFd`: arm for the first key, or disarm when there is none. The call fails when
      the pair is malformed or the kernel refuses for another reason (`willing` is false). */
  function SetTimerFd(active: seq<Entry>, fd: TimerFd, willing: bool): (TimerFd, bool) {
    if active == [] then (IDLE, true)
    else if willing && WellFormed(ToTimespec(active[0].expiry)) then (SetTime(ToTimespec(active[0].expiry)), true)
    else (fd, false)
  }

  /** `createTimerFd` unless there is a descriptor already: a new one is disarmed. */
  function EnsureTimerFd(s: State, createOk: bool): State {
    if s.created || !createOk then s else s.(created := true, fd := IDLE)
  }

  function NewEntry(s: State, timer: TimerObject, timeout: int): Entry {
    Entry(s.now + Millis(timeout), timer, |s.accepted|, |s.inserted|)
  }

  /** `launchNewTimer`. */
  function Launch(s: State, timer: TimerObject, timeout: int, createOk: bool, willing: bool): (State, ReturnCode) {
    if Find(s.active, timer.subscriber, timer.userId) < |s.active| then (s, AlreadyExists)
    else
      var s1 := EnsureTimerFd(s, createOk);
      if !s1.created then (s1, InternalFault)
      else
        var e := NewEntry(s1, timer, timeout);
        var active := Emplace(s1.active, e);
        var (fd, ok) := if UpperBound(s1.active, e.expiry) == 0 then SetTimerFd(active, s1.fd, willing) else (s1.fd, true);
        if !ok then (s1.(active := EraseKey(active, e.expiry)), InternalFault)
        else (s1.(active := active, fd := fd, accepted := s1.accepted + [Launched(timer, s1.now, timeout)], inserted := s1.inserted + [e]), Normal)
  }

  /** `startTimer`. */
  function StartTimer(s: State, timeout: int, subscriber: nat, userId: nat, createOk: bool, willing: bool): (State, ReturnCode) {
    Launch(s, TimerObject(subscriber, userId, false, 0), timeout, createOk, willing)
  }

  /** `startPeriodicalTimer`. It hands over `isPeriodical == false`, as the code does. */
  function StartPeriodicalTimer(s: State, interval: int, subscriber: nat, userId: nat, createOk: bool, willing: bool): (State, ReturnCode) {
    Launch(s, TimerObject(subscriber, userId, false, interval), interval, createOk, willing)
  }

  /** `cancelTimer`: the kernel timer is set again when the erased timer was the first. */
  function Cancel(s: State, subscriber: nat, userId: nat): (State, ReturnCode) {
    var p := Find(s.active, subscriber, userId);
    if p == |s.active| then (s, NotFound)
    else
      var active := RemoveAt(s.active, p);
      var fd := if p == 0 then SetTimerFd(active, s.fd, true).0 else s.fd;
      (s.(active := active, fd := fd, cancelled := s.cancelled + [s.active[p]]), Normal)
  }

  /** What `onTimerExpired` puts in the map in place of the node it takes out. */
  function Renewed(s: State, e: Entry): Entry {
    Entry(s.now + Millis(e.timer.periodicalInterval), e.timer, e.id, |s.inserted|)
  }

  /** `onTimerExpired` up to the call of the subscriber; the second result is the node whose
      subscriber is called. Nothing happens when there is no expiration to read. */
  function OnTimerExpired(s: State): (State, Option<Entry>) {
    if s.fd.pending == 0 then (s, None)
    else if s.active == [] then (s.(fd := s.fd.(pending := 0)), None)
    else
      var e := s.active[0];
      var rest := s.active[1..];
      var renewed := if e.timer.isPeriodical then [Renewed(s, e)] else [];
      var active := if e.timer.isPeriodical then Emplace(rest, Renewed(s, e)) else rest;
      var fd := SetTimerFd(active, s.fd.(pending := 0), true).0;
      (s.(active := active, fd := fd, inserted := s.inserted + renewed, fired := s.fired + [Firing(e, s.now)]), Some(e))
  }

  /** One step of a run. Nothing follows the subscriber's call in `onTimerExpired`, so what a
      subscriber does from inside its call is the sequence of steps that comes after
      `Expired`. `Expired` may come at any time: the loop can still call the handler for an
      event whose expiration a re-arming has cleared meanwhile. */
  datatype Step =
    | DoLaunch(timer: TimerObject, timeout: int, createOk: bool, willing: bool)
    | DoCancel(subscriber: nat, userId: nat)
    | Expired
    | Tick(nanos: nat)
    | KernelExpires

  function Apply(s: State, step: Step): State {
    match step
    case DoLaunch(timer, timeout, createOk, willing) => Launch(s, timer, timeout, createOk, willing).0
    case DoCancel(subscriber, userId) => Cancel(s, subscriber, userId).0
    case Expired => OnTimerExpired(s).0
    case Tick(nanos) => s.(now := s.now + nanos)
    case KernelExpires => s.(fd := Expire(s.fd, s.now))
  }

  function Exec(s: State, steps: seq<Step>): State
    decreases steps
  {
    if steps == [] then s else Exec(Apply(s, steps[0]), steps[1..])
  }

  /** No launch asks for a time in the past. */
  predicate ForwardStep(step: Step) {
    step.DoLaunch? ==> step.timeout >= 0 && (step.timer.isPeriodical ==> step.timer.periodicalInterval >= 0)
  }

  lemma {:induction false} ExecConcat(s: State, a: seq<Step>, b: seq<Step>)
    ensures Exec(s, a + b) == Exec(Exec(s, a), b)
    decreases a
  {
    if a == [] {
      assert a + b == b;
    } else {
      assert (a + b)[0] == a[0] && (a + b)[1..] == a[1..] + b;
      ExecConcat(Apply(s, a[0]), a[1..], b);
    }
  }
}
