/**
 The kernel timer behind the timer manager, and the conversion that feeds it.

 Instants are nanoseconds on CLOCK_MONOTONIC. The manager splits an instant into the
 (seconds, nanoseconds) pair of `struct itimerspec`; the kernel rejects malformed pairs
 and reads the pair (0, 0) as "disarm".
 */
module TimerKernel {
  import opened Options

  const NANOS_PER_SECOND := 1_000_000_000
  const NANOS_PER_MILLI := 1_000_000

  datatype Timespec = Timespec(sec: int, nsec: int)

  /** C++ integer division: it truncates toward zero. */
  function TruncDiv(a: int, b: int): int
    requires b > 0
  {
    if a >= 0 then a / b else -((-a) / b)
  }

  function Millis(ms: int): int {
    ms * NANOS_PER_MILLI
  }

  /** `time_point_cast` to seconds, and what remains in nanoseconds. */
  function ToTimespec(instant: int): Timespec {
    var sec := TruncDiv(instant, NANOS_PER_SECOND);
    Timespec(sec, instant - sec * NANOS_PER_SECOND)
  }

  /** The instant a pair denotes. */
  function Denotes(ts: Timespec): int {
    ts.sec * NANOS_PER_SECOND + ts.nsec
  }

  /** The pairs timerfd_settime takes; any other one is EINVAL. */
  predicate WellFormed(ts: Timespec) {
    ts.sec >= 0 && 0 <= ts.nsec < NANOS_PER_SECOND
  }

  predicate LexLess(a: Timespec, b: Timespec) {
    a.sec < b.sec || (a.sec == b.sec && a.nsec < b.nsec)
  }

  /** One timerfd: the absolute instant it is armed for, and the expirations not yet read. */
  datatype TimerFd = TimerFd(armed: Option<int>, pending: nat)

  const IDLE := TimerFd(None, 0)

  /** timerfd_settime with TFD_TIMER_ABSTIME and no interval: it forgets unread expirations. */
  function SetTime(ts: Timespec): TimerFd
    requires WellFormed(ts)
  {
    if ts == Timespec(0, 0) then IDLE else TimerFd(Some(Denotes(ts)), 0)
  }

  /** The clock has reached the armed instant: one more expiration, and the timer is spent. */
  function Expire(fd: TimerFd, now: int): TimerFd {
    if fd.armed.Some? && fd.armed.value <= now then TimerFd(None, fd.pending + 1) else fd
  }

  /** The pair always denotes the instant it came from, whatever its sign, and the kernel
      takes it exactly when the instant is not negative. Only the instant 0 becomes the
      disarming pair. */
  lemma TimespecIsExact(t: int)
    ensures Denotes(ToTimespec(t)) == t
    ensures ToTimespec(t).sec * 1_000_000_000 + ToTimespec(t).nsec == t
    ensures -1_000_000_000 < ToTimespec(t).nsec < 1_000_000_000
    ensures WellFormed(ToTimespec(t)) <==> t >= 0
    ensures ToTimespec(t) == Timespec(0, 0) <==> t == 0
  {
    if t < 0 {
      var sec := TruncDiv(t, NANOS_PER_SECOND);
      assert sec <= 0 && -NANOS_PER_SECOND < t - sec * NANOS_PER_SECOND <= 0;
    }
  }

  /** On instants that the kernel takes, comparing pairs is comparing instants. */
  lemma TimespecKeepsOrder(a: int, b: int)
    requires 0 <= a && 0 <= b
    ensures LexLess(ToTimespec(a), ToTimespec(b)) <==> a < b
  {
    TimespecIsExact(a);
    TimespecIsExact(b);
  }
}
