/**
 The active object as a state machine of interleaved atomic steps: any number of client
 threads that enqueue a function under the mutex and then write to a semaphore eventfd, and
 the active object's own thread, whose event loop reads a token and then dequeues.
 */
module ActiveObjectModel {

  /** A `std::function<void()>` in the queue: an empty one, one of the users', or the bound
      `stopEventLoop` that the destructor enqueues. */
  datatype Func = Empty | User(id: nat) | StopLoop

  /** Where the active object's thread is: before `addFdHandler`, in `initFunc`, at the head of
      the event loop, in epoll_wait, in `handleFdEvent` before the read, between the read and
      the dequeue, in a function, or finished. */
  datatype Pc = Born | Initialising | Head | Polling | Woken | HoldsToken | Running(func: Func) | Ended

  /** What the thread ran. */
  datatype Executed = Init | Ran(func: Func)

  /** - queue: `m_funcQueue`; count: the eventfd's counter
      - mid: the clients that have enqueued and not yet written
      - registered, running: the fd is in the event loop, and the loop's `m_isRunning`
      - enqueued, dequeued, log, refused, initGiven: a record of what was enqueued and dequeued,
        what the thread ran, whether `addFdHandler` failed, and whether the thread got past its
        start with an `initFunc` to call */
  datatype State = State(
    queue: seq<Func>,
    count: nat,
    mid: set<nat>,
    pc: Pc,
    registered: bool,
    running: bool,
    enqueued: seq<Func>,
    dequeued: seq<Func>,
    log: seq<Executed>,
    refused: bool,
    initGiven: bool)

  const INITIAL := State([], 0, {}, Born, false, false, [], [], [], false, false)

  /** The atomic steps. A function that schedules another one from the active object's own thread
      is one more client. `OtherEvent` is an interrupted wait or an event of another fd, and
      `UserStops` a user function stopping the loop, or the callback of another fd doing so,
      alone or in the batch that also reports the eventfd. */
  datatype Step =
    | Push(client: nat, func: Func)
    | Write(client: nat)
    | Register(ok: bool)
    | InitReturns(hasInit: bool)
    | TestHead
    | Wake
    | Read
    | Dequeue
    | FuncReturns
    | OtherEvent
    | UserStops

  predicate Enabled(s: State, step: Step) {
    match step
    case Push(client, _) => client !in s.mid
    case Write(client) => client in s.mid
    case Register(_) => s.pc == Born
    case InitReturns(_) => s.pc == Initialising
    case TestHead => s.pc == Head
    case Wake => s.pc == Polling && s.count > 0
    case Read => s.pc == Woken && s.count > 0
    case Dequeue => s.pc == HoldsToken
    case FuncReturns => s.pc.Running?
    case OtherEvent => s.pc == Polling
    case UserStops => s.pc == Polling || s.pc == Woken || (s.pc.Running? && s.pc.func.User?)
  }

  /** `dequeueFunction`, and the call of what it returns. */
  function DequeueAndCall(s: State): State {
    if s.queue == [] then s.(pc := Head)
    else
      var f := s.queue[0];
      var s1 := s.(queue := s.queue[1..], dequeued := s.dequeued + [f]);
      if f.Empty? then s1.(pc := Head) else s1.(pc := Running(f), log := s.log + [Ran(f)])
  }

  /** The read blocks on an empty counter, so it is a step only when there is a token. */
  function Apply(s: State, step: Step): State
    requires Enabled(s, step)
  {
    match step
    case Push(client, func) => s.(queue := s.queue + [func], enqueued := s.enqueued + [func], mid := s.mid + {client})
    case Write(client) => s.(count := s.count + 1, mid := s.mid - {client})
    case Register(ok) => if ok then s.(registered := true, pc := Initialising) else s.(pc := Ended, refused := true)
    case InitReturns(hasInit) => s.(running := true, pc := Head, initGiven := hasInit, log := if hasInit then s.log + [Init] else s.log)
    case TestHead => s.(pc := if s.running && s.registered then Polling else Ended)
    case Wake => s.(pc := Woken)
    case Read => s.(count := s.count - 1, pc := HoldsToken)
    case Dequeue => DequeueAndCall(s)
    case FuncReturns => if s.pc.func.StopLoop? then s.(registered := false, running := false, pc := Head) else s.(pc := Head)
    case OtherEvent => s
    case UserStops => s.(running := false, pc := if s.pc == Polling then Head else s.pc)
  }

  /** A run is any sequence of steps; one that cannot be taken leaves things as they are. */
  function Next(s: State, step: Step): State {
    if Enabled(s, step) then Apply(s, step) else s
  }

  function Exec(s: State, steps: seq<Step>): State
    decreases steps
  {
    if steps == [] then s else Exec(Next(s, steps[0]), steps[1..])
  }

  lemma {:induction false} ExecConcat(s: State, a: seq<Step>, b: seq<Step>)
    ensures Exec(s, a + b) == Exec(Exec(s, a), b)
    decreases a
  {
    hide Next;
    if a == [] {
      assert a + b == b;
    } else {
      assert (a + b)[0] == a[0] && (a + b)[1..] == a[1..] + b;
      ExecConcat(Next(s, a[0]), a[1..], b);
    }
  }
}
