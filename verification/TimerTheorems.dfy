/**
 What the timer manager promises over whole runs: the kernel timer always follows the first
 active timer, nothing fires early, late cancels work, timers fire in the order of a stable
 sort, and periodic timers keep their distance.
 */
module TimerTheorems {
  import opened Options
  import opened TimerKernel
  import opened TimerQueue
  import opened TimerModel
  import opened TimerInvariants

  // ---------------------------------------------------------------- the armed timer

  /** The kernel timer is armed for exactly the first key, or holds the one expiration of that
      key; with no active timer it is disarmed and has nothing to read. */
  ghost predicate FdAgrees(s: State) {
    if s.active == [] then s.fd == IDLE
    else s.fd == TimerFd(Some(s.active[0].expiry), 0) || (s.fd == TimerFd(None, 1) && s.active[0].expiry <= s.now)
  }

  ghost predicate KeysPositive(s: State) {
    forall e :: e in s.active ==> e.expiry > 0
  }

  ghost predicate Armed(s: State) {
    FdAgrees(s) && KeysPositive(s)
  }

  /** What a caller can check to know that a step keeps the agreement: a launch is not for instant
      0, unless it fails anyway because its name is taken, there is no descriptor, or the kernel
      refuses; and an expiration does not renew a timer at an instant that is not positive. */
  ghost predicate Harmless(s: State, step: Step) {
    match step
    case DoLaunch(timer, timeout, createOk, willing) =>
      || s.now + Millis(timeout) != 0
      || (exists x :: x in s.active && Names(x, timer.subscriber, timer.userId))
      || (!s.created && !createOk)
      || !willing
    case Expired =>
      s.fd.pending > 0 && s.active != [] && s.active[0].timer.isPeriodical ==>
        s.now + Millis(s.active[0].timer.periodicalInterval) > 0
    case _ => true
  }

  lemma SetTimerFdAgrees(s: State, fd: TimerFd)
    requires s.active != [] ==> s.active[0].expiry > 0
    ensures FdAgrees(s.(fd := SetTimerFd(s.active, fd, true).0))
    ensures SetTimerFd(s.active, fd, true).1
  {
    if s.active != [] {
      TimespecIsExact(s.active[0].expiry);
    }
  }

  /** A launch keeps the agreement in every case but one: a timer for instant 0 that is accepted,
      because its name is free, there is a descriptor, and the kernel is willing. The kernel
      takes the pair of that instant for "disarm". */
  lemma LaunchAgreesIff(s: State, timer: TimerObject, timeout: int, createOk: bool, willing: bool)
    requires Wf(s) && Armed(s)
    ensures FdAgrees(Launch(s, timer, timeout, createOk, willing).0) <==>
              || s.now + Millis(timeout) != 0
              || (exists x :: x in s.active && Names(x, timer.subscriber, timer.userId))
              || (!s.created && !createOk)
              || !willing
  {
    LaunchReturns(s, timer, timeout, createOk, willing);
    LaunchAgreesUnlessZero(s, timer, timeout, createOk, willing);
  }

  lemma LaunchAgreesUnlessZero(s: State, timer: TimerObject, timeout: int, createOk: bool, willing: bool)
    requires Wf(s) && Armed(s)
    ensures var (s', rc) := Launch(s, timer, timeout, createOk, willing);
      FdAgrees(s') <==> (rc != Normal || s.now + Millis(timeout) != 0)
  {
    RollbackIsExact(s, timer, timeout, createOk, willing);
    LaunchAccepted(s, timer, timeout, createOk, willing);
    TimespecIsExact(s.now + Millis(timeout));
    if s.active != [] {
      assert s.active[0] in s.active;
    }
  }

  /** The one case exists: at clock 1ms, a timeout of -1ms returns NORMAL for a timer that the
      kernel is not armed for. */
  lemma ZeroInstantIsNotArmed()
    ensures var (s, rc) := StartTimer(Initial(Millis(1)), -1, 7, 1, true, true);
      rc == Normal && s.active != [] && s.fd == IDLE
  {
    TimespecIsExact(0);
  }

  lemma LaunchKeepsArmed(s: State, timer: TimerObject, timeout: int, createOk: bool, willing: bool)
    requires Wf(s) && Armed(s)
    requires Harmless(s, DoLaunch(timer, timeout, createOk, willing))
    ensures Armed(Launch(s, timer, timeout, createOk, willing).0)
  {
    LaunchAgreesIff(s, timer, timeout, createOk, willing);
    LaunchReturns(s, timer, timeout, createOk, willing);
    RollbackIsExact(s, timer, timeout, createOk, willing);
    LaunchAccepted(s, timer, timeout, createOk, willing);
    EmplaceContents(s.active, NewEntry(s, timer, timeout));
  }

  /** Cancelling any timer, the first or another, keeps the agreement. */
  lemma CancelKeepsArmed(s: State, subscriber: nat, userId: nat)
    requires Wf(s) && Armed(s)
    ensures Armed(Cancel(s, subscriber, userId).0)
  {
    var p := Find(s.active, subscriber, userId);
    if p < |s.active| {
      var s' := Cancel(s, subscriber, userId).0;
      RemoveContents(s.active, p);
      if s'.active != [] {
        assert s'.active[0] in s'.active;
      }
      if p == 0 {
        SetTimerFdAgrees(s', s.fd);
      }
    }
  }

  /** An expiration keeps the agreement, and so it holds when the subscriber is called, unless
      it renews a timer at an instant that is not positive. */
  lemma ExpiredKeepsArmed(s: State)
    requires Wf(s) && Armed(s) && Harmless(s, Expired)
    ensures Armed(OnTimerExpired(s).0)
  {
    if s.fd.pending > 0 {
      var s' := OnTimerExpired(s).0;
      var e := s.active[0];
      assert e in s.active;
      RestHasOtherNames(s);
      EmplaceContents(s.active[1..], Renewed(s, e));
      assert KeysPositive(s');
      if s'.active != [] {
        assert s'.active[0] in s'.active;
      }
      SetTimerFdAgrees(s', s.fd.(pending := 0));
    }
  }

  /** A renewal at an instant that is not positive comes first in the map, and the kernel is not
      armed for it. */
  lemma HarmfulRenewalDisagrees(s: State)
    requires Wf(s) && Armed(s) && !Harmless(s, Expired)
    ensures !FdAgrees(OnTimerExpired(s).0)
  {
    var rest, r := s.active[1..], Renewed(s, s.active[0]);
    RestHasOtherNames(s);
    assert rest != [] ==> rest[0] in rest;
    assert UpperBound(rest, r.expiry) == 0;
    assert OnTimerExpired(s).0.active[0] == r;
    TimespecIsExact(r.expiry);
  }

  lemma ApplyKeepsArmed(s: State, step: Step)
    requires Wf(s) && Armed(s) && Harmless(s, step)
    ensures Armed(Apply(s, step))
  {
    match step
    case DoLaunch(timer, timeout, createOk, willing) => LaunchKeepsArmed(s, timer, timeout, createOk, willing);
    case DoCancel(subscriber, userId) => CancelKeepsArmed(s, subscriber, userId);
    case Expired => ExpiredKeepsArmed(s);
    case Tick(nanos) =>
    case KernelExpires =>
  }

  lemma ApplyAgreesIff(s: State, step: Step)
    requires Wf(s) && Armed(s)
    ensures FdAgrees(Apply(s, step)) <==> Harmless(s, step)
  {
    if Harmless(s, step) {
      ApplyKeepsArmed(s, step);
    } else if step.Expired? {
      HarmfulRenewalDisagrees(s);
    } else {
      LaunchAgreesIff(s, step.timer, step.timeout, step.createOk, step.willing);
    }
  }

  /** The agreement holds in every state of a run. */
  ghost predicate AgreesThroughout(s: State, steps: seq<Step>)
    decreases steps
  {
    FdAgrees(s) && (steps == [] || AgreesThroughout(Apply(s, steps[0]), steps[1..]))
  }

  ghost predicate HarmlessRun(s: State, steps: seq<Step>)
    decreases steps
  {
    steps == [] || (Harmless(s, steps[0]) && HarmlessRun(Apply(s, steps[0]), steps[1..]))
  }

  lemma {:induction false} ExecAgreesIff(s: State, steps: seq<Step>)
    requires Wf(s) && Armed(s)
    ensures AgreesThroughout(s, steps) <==> HarmlessRun(s, steps)
    decreases steps
  {
    hide Wf, FdAgrees, KeysPositive, Harmless, Apply;
    if steps != [] {
      var s1 := Apply(s, steps[0]);
      ApplyAgreesIff(s, steps[0]);
      if Harmless(s, steps[0]) {
        ApplyWf(s, steps[0]);
        ApplyKeepsArmed(s, steps[0]);
        ExecAgreesIff(s1, steps[1..]);
      }
    }
  }

  /** Exactly when the kernel timer agrees with the map in every state of a run, and so at every
      call of a subscriber, which is the state right after an `Expired` step: when each step of
      the run is harmless where it is taken. */
  lemma RunAgreesIff(now: int, steps: seq<Step>)
    ensures AgreesThroughout(Initial(now), steps) <==> HarmlessRun(Initial(now), steps)
  {
    ExecAgreesIff(Initial(now), steps);
  }

  // ---------------------------------------------------------------- what survives a harmful step

  /** In no run does the kernel timer point anywhere but at the first key: when it is armed, it is
      for that key, and when there is an expiration to read, that key is due. What a harmful
      step can lead to is only a kernel timer that is idle although the map is not empty. */
  ghost predicate Pointed(s: State) {
    && (s.fd.armed.Some? ==>
          s.active != [] && s.fd.armed.value == s.active[0].expiry && s.fd.pending == 0 && s.active[0].expiry > 0)
    && (s.fd.pending > 0 ==>
          s.fd.armed == None && s.active != [] && 0 < s.active[0].expiry <= s.now)
  }

  lemma SetTimerFdPoints(s: State, fd: TimerFd)
    requires s.active == [] || s.active[0].expiry >= 0 || fd == IDLE
    ensures Pointed(s.(fd := SetTimerFd(s.active, fd, true).0))
  {
    if s.active != [] {
      TimespecIsExact(s.active[0].expiry);
    }
  }

  lemma LaunchKeepsPointed(s: State, timer: TimerObject, timeout: int, createOk: bool, willing: bool)
    requires Wf(s) && Pointed(s)
    ensures Pointed(Launch(s, timer, timeout, createOk, willing).0)
  {
    RollbackIsExact(s, timer, timeout, createOk, willing);
    LaunchAccepted(s, timer, timeout, createOk, willing);
    TimespecIsExact(s.now + Millis(timeout));
  }

  lemma CancelKeepsPointed(s: State, subscriber: nat, userId: nat)
    requires Wf(s) && Pointed(s)
    ensures Pointed(Cancel(s, subscriber, userId).0)
  {
    var p := Find(s.active, subscriber, userId);
    if p < |s.active| {
      var s' := Cancel(s, subscriber, userId).0;
      if p == 0 {
        if |s.active| > 1 {
          assert Before(s.active[0], s.active[1]);
          assert s'.active[0] == s.active[1];
        }
        SetTimerFdPoints(s', s.fd);
      } else {
        assert s'.active[0] == s.active[0];
      }
    }
  }

  lemma ExpiredKeepsPointed(s: State)
    requires Wf(s) && Pointed(s)
    ensures Pointed(OnTimerExpired(s).0)
  {
    if s.fd.pending > 0 {
      SetTimerFdPoints(OnTimerExpired(s).0, IDLE);
    }
  }

  lemma ApplyKeepsPointed(s: State, step: Step)
    requires Wf(s) && Pointed(s)
    ensures Pointed(Apply(s, step))
  {
    match step
    case DoLaunch(timer, timeout, createOk, willing) => LaunchKeepsPointed(s, timer, timeout, createOk, willing);
    case DoCancel(subscriber, userId) => CancelKeepsPointed(s, subscriber, userId);
    case Expired => ExpiredKeepsPointed(s);
    case Tick(nanos) =>
    case KernelExpires =>
  }

  lemma {:induction false} ExecKeepsPointed(s: State, steps: seq<Step>)
    requires Wf(s) && Pointed(s)
    ensures Pointed(Exec(s, steps))
    decreases steps
  {
    hide Wf, Pointed, Apply;
    if steps != [] {
      ApplyWf(s, steps[0]);
      ApplyKeepsPointed(s, steps[0]);
      ExecKeepsPointed(Apply(s, steps[0]), steps[1..]);
    }
  }

  /** In every run: the handler's error branch, an expiration with no timer in the map, is never
      taken; a handler call that reads an expiration always fires the first timer, and that is
      due. */
  lemma ExpirationFindsADueTimer(now: int, steps: seq<Step>)
    ensures var s := Exec(Initial(now), steps);
      s.fd.pending > 0 ==> s.active != [] && s.active[0].expiry <= s.now && OnTimerExpired(s).1 == Some(s.active[0])
  {
    ExecKeepsPointed(Initial(now), steps);
  }

  /** The pair handed to the kernel is well formed, never the disarming one, denotes the least
      active expiry, and is lexicographically least among the pairs of all active timers. */
  lemma ArmedPairIsLeast(s: State)
    requires Wf(s) && Armed(s) && s.active != []
    ensures var ts := ToTimespec(s.active[0].expiry);
      && WellFormed(ts) && ts != Timespec(0, 0)
      && (s.fd.armed.Some? ==> s.fd == SetTime(ts))
      && forall e :: e in s.active ==> Denotes(ts) <= e.expiry && !LexLess(ToTimespec(e.expiry), ts)
  {
    var first := s.active[0];
    assert first in s.active;
    TimespecIsExact(first.expiry);
    forall e | e in s.active ensures first.expiry <= e.expiry && !LexLess(ToTimespec(e.expiry), ToTimespec(first.expiry)) {
      var i :| 0 <= i < |s.active| && s.active[i] == e;
      assert i == 0 || Before(s.active[0], s.active[i]);
      TimespecKeepsOrder(e.expiry, first.expiry);
    }
  }

  // ---------------------------------------------------------------- never early

  /** What the record of firings says about each of them. */
  ghost predicate OnTime(s: State) {
    forall i :: 0 <= i < |s.fired| ==>
      && s.fired[i].entry.expiry <= s.fired[i].at <= s.now
      && Known(s, s.fired[i].entry)
  }

  lemma ApplyKeepsOnTime(s: State, step: Step)
    requires Wf(s) && Pointed(s) && OnTime(s)
    ensures OnTime(Apply(s, step))
  {
    var s' := Apply(s, step);
    if step.DoLaunch? {
      RollbackIsExact(s, step.timer, step.timeout, step.createOk, step.willing);
      LaunchAccepted(s, step.timer, step.timeout, step.createOk, step.willing);
    }
    if step.Expired? && s.fd.pending > 0 {
      assert s.active[0] in s.active;
      assert Known(s, s.active[0]);
    }
    assert forall e :: Known(s, e) ==> Known(s', e);
  }

  lemma {:induction false} ExecKeepsOnTime(s: State, steps: seq<Step>)
    requires Wf(s) && Pointed(s) && OnTime(s)
    ensures OnTime(Exec(s, steps))
    decreases steps
  {
    hide Wf, Pointed, OnTime, Apply;
    if steps != [] {
      ApplyWf(s, steps[0]);
      ApplyKeepsPointed(s, steps[0]);
      ApplyKeepsOnTime(s, steps[0]);
      ExecKeepsOnTime(Apply(s, steps[0]), steps[1..]);
    }
  }

  /** Nothing fires early, in any run: though the handler never looks at the clock, every timer
      it ever fires is due at that moment. */
  lemma NothingFiresEarly(now: int, steps: seq<Step>, i: nat)
    requires i < |Exec(Initial(now), steps).fired|
    ensures var fired := Exec(Initial(now), steps).fired; fired[i].entry.expiry <= fired[i].at
  {
    ExecKeepsOnTime(Initial(now), steps);
  }

  /** Where a node's instant comes from: its launch and timeout, or the interval after one of the
      first n firings, of the same launch. */
  ghost predicate Dated(s: State, e: Entry, n: nat) {
    && e.id < |s.accepted|
    && (e.expiry == s.accepted[e.id].at + s.accepted[e.id].timeout * NANOS_PER_MILLI
        || exists i :: 0 <= i < n && i < |s.fired| && RenewedAt(s.fired[i], e))
  }

  ghost predicate RenewedAt(f: Firing, e: Entry) {
    f.entry.id == e.id && e.timer.isPeriodical && e.expiry == f.at + e.timer.periodicalInterval * NANOS_PER_MILLI
  }

  ghost predicate AllDated(s: State) {
    && (forall e :: e in s.active ==> Dated(s, e, |s.fired|))
    && (forall i :: 0 <= i < |s.fired| ==> Dated(s, s.fired[i].entry, i))
  }

  lemma LaterKeepsDated(s: State, s': State, e: Entry, n: nat, n': nat)
    requires Dated(s, e, n) && n <= n'
    requires s.accepted <= s'.accepted && s.fired <= s'.fired
    ensures Dated(s', e, n')
  {
    if i :| 0 <= i < n && i < |s.fired| && RenewedAt(s.fired[i], e) {
      assert RenewedAt(s'.fired[i], e);
    }
  }

  lemma ExpiredKeepsDated(s: State)
    requires AllDated(s) && s.fd.pending > 0 && s.active != []
    ensures AllDated(OnTimerExpired(s).0)
  {
    var s' := OnTimerExpired(s).0;
    var e := s.active[0];
    var n := |s.fired|;
    assert e in s.active;
    EmplaceContents(s.active[1..], Renewed(s, e));
    hide Dated;
    forall i | 0 <= i <= n ensures Dated(s', s'.fired[i].entry, i) {
      LaterKeepsDated(s, s', s'.fired[i].entry, i, i);
    }
    forall x | x in s'.active ensures Dated(s', x, n + 1) {
      if x in s.active[1..] {
        LaterKeepsDated(s, s', x, n, n + 1);
      } else {
        LaterKeepsDated(s, s', e, n, n + 1);
        RenewalIsDated(s', e, x);
      }
    }
  }

  lemma RenewalIsDated(s: State, e: Entry, x: Entry)
    requires Dated(s, e, |s.fired|) && x.id == e.id
    requires s.fired != [] && RenewedAt(s.fired[|s.fired| - 1], x)
    ensures Dated(s, x, |s.fired|)
  {
  }

  lemma LaunchKeepsDated(s: State, timer: TimerObject, timeout: int, createOk: bool, willing: bool)
    requires Wf(s) && AllDated(s)
    ensures AllDated(Launch(s, timer, timeout, createOk, willing).0)
  {
    RollbackIsExact(s, timer, timeout, createOk, willing);
    if Launch(s, timer, timeout, createOk, willing).1 == Normal {
      LaunchAccepted(s, timer, timeout, createOk, willing);
      EmplaceContents(s.active, NewEntry(s, timer, timeout));
      AddedKeepsDated(s, Launch(s, timer, timeout, createOk, willing).0, NewEntry(s, timer, timeout));
    }
  }

  lemma ApplyKeepsDated(s: State, step: Step)
    requires Wf(s) && AllDated(s)
    ensures AllDated(Apply(s, step))
  {
    match step
    case DoLaunch(timer, timeout, createOk, willing) => LaunchKeepsDated(s, timer, timeout, createOk, willing);
    case DoCancel(subscriber, userId) =>
      var p := Find(s.active, subscriber, userId);
      if p < |s.active| {
        RemoveContents(s.active, p);
      }
    case Expired =>
      if s.fd.pending > 0 && s.active != [] {
        ExpiredKeepsDated(s);
      }
    case Tick(nanos) =>
    case KernelExpires =>
  }

  lemma AddedKeepsDated(s: State, s': State, e: Entry)
    requires AllDated(s)
    requires s.accepted <= s'.accepted && s'.fired == s.fired
    requires forall x :: x in s'.active ==> x in s.active || (x == e && Dated(s', e, |s.fired|))
    ensures AllDated(s')
  {
    hide Dated;
    forall x | x in s'.active ensures Dated(s', x, |s.fired|) {
      if x in s.active {
        LaterKeepsDated(s, s', x, |s.fired|, |s.fired|);
      }
    }
    forall i | 0 <= i < |s.fired| ensures Dated(s', s'.fired[i].entry, i) {
      LaterKeepsDated(s, s', s.fired[i].entry, i, i);
    }
  }

  lemma {:induction false} RunKeepsDated(s: State, steps: seq<Step>)
    requires Wf(s) && AllDated(s)
    ensures AllDated(Exec(s, steps))
    decreases steps
  {
    hide AllDated, Apply, Wf;
    if steps != [] {
      ApplyWf(s, steps[0]);
      ApplyKeepsDated(s, steps[0]);
      RunKeepsDated(Apply(s, steps[0]), steps[1..]);
    }
  }

  /** The first firing of an accepted launch comes no earlier than its timeout after the launch,
      by the clock. For a timer that is not periodic this is its only firing. */
  lemma NoTimerFiresBeforeItsTimeout(now: int, steps: seq<Step>, i: nat)
    requires i < |Exec(Initial(now), steps).fired|
    requires var fired := Exec(Initial(now), steps).fired;
      forall j :: 0 <= j < i ==> fired[j].entry.id != fired[i].entry.id
    ensures var s := Exec(Initial(now), steps);
      var id := s.fired[i].entry.id;
      && id < |s.accepted|
      && s.fired[i].at >= s.accepted[id].at + s.accepted[id].timeout * 1_000_000
  {
    ExecKeepsOnTime(Initial(now), steps);
    RunKeepsDated(Initial(now), steps);
    var s := Exec(Initial(now), steps);
    assert Dated(s, s.fired[i].entry, i);
  }

  // ---------------------------------------------------------------- what is started

  /** Every firing of the launch is of that name and no earlier than the instant, and there is at
      most one. */
  ghost predicate FiresOnceNotBefore(fired: seq<Firing>, id: nat, subscriber: nat, userId: nat, instant: int) {
    && (forall i :: 0 <= i < |fired| && fired[i].entry.id == id ==>
          fired[i].entry.timer.subscriber == subscriber && fired[i].entry.timer.userId == userId && fired[i].at >= instant)
    && (forall i, j :: 0 <= i < j < |fired| ==> !(fired[i].entry.id == fired[j].entry.id == id))
  }

  /** What `startTimer` starts fires at most once and not before its timeout is over, whatever
      happens before and after: from any reachable state, in any continuation. */
  lemma StartTimerFiresOnce(now: int, steps: seq<Step>, timeout: int, subscriber: nat, userId: nat,
                            createOk: bool, willing: bool, more: seq<Step>)
    requires var s := Exec(Initial(now), steps);
      StartTimer(s, timeout, subscriber, userId, createOk, willing).1 == Normal
    ensures var s := Exec(Initial(now), steps);
      var s' := Exec(StartTimer(s, timeout, subscriber, userId, createOk, willing).0, more);
      FiresOnceNotBefore(s'.fired, |s.accepted|, subscriber, userId, s.now + timeout * 1_000_000)
  {
    OneShotFires(now, steps, TimerObject(subscriber, userId, false, 0), timeout, createOk, willing, more);
  }

  /** Nor does what `startPeriodicalTimer` starts fire more than once, whatever its interval; that
      one time is not before the interval is over. */
  lemma StartPeriodicalTimerFiresAtMostOnce(now: int, steps: seq<Step>, interval: int, subscriber: nat, userId: nat,
                                            createOk: bool, willing: bool, more: seq<Step>)
    requires var s := Exec(Initial(now), steps);
      StartPeriodicalTimer(s, interval, subscriber, userId, createOk, willing).1 == Normal
    ensures var s := Exec(Initial(now), steps);
      var s' := Exec(StartPeriodicalTimer(s, interval, subscriber, userId, createOk, willing).0, more);
      FiresOnceNotBefore(s'.fired, |s.accepted|, subscriber, userId, s.now + interval * 1_000_000)
  {
    OneShotFires(now, steps, TimerObject(subscriber, userId, false, interval), interval, createOk, willing, more);
  }

  lemma OneShotFires(now: int, steps: seq<Step>, timer: TimerObject, timeout: int, createOk: bool, willing: bool, more: seq<Step>)
    requires !timer.isPeriodical
    requires Launch(Exec(Initial(now), steps), timer, timeout, createOk, willing).1 == Normal
    ensures var s := Exec(Initial(now), steps);
      var s' := Exec(Launch(s, timer, timeout, createOk, willing).0, more);
      FiresOnceNotBefore(s'.fired, |s.accepted|, timer.subscriber, timer.userId, s.now + timeout * 1_000_000)
  {
    hide Launch, Apply, Wf, Exec, OnTime, AllDated;
    var start := DoLaunch(timer, timeout, createOk, willing);
    var s, all := Exec(Initial(now), steps), steps + [start] + more;
    var s1, id := Apply(s, start), |s.accepted|;
    RunWf(now, steps);
    LaunchReturns(s, timer, timeout, createOk, willing);
    LaunchAccepted(s, timer, timeout, createOk, willing);
    ApplyWf(s, start);
    AcceptedGrows(s1, more);
    ContinuesRun(now, steps, start, more);
    RunRecord(now, all);
    var s' := Exec(s1, more);
    assert s'.accepted[id] == s1.accepted[id] == Launched(timer, s.now, timeout);
    OneShotRecord(s', id);
    forall i, j | 0 <= i < j < |s'.fired| ensures !(s'.fired[i].entry.id == s'.fired[j].entry.id == id) {
      if s'.fired[i].entry.id == s'.fired[j].entry.id {
        OneShotFiresOnce(now, all, i, j);
      }
    }
  }

  lemma RunRecord(now: int, steps: seq<Step>)
    ensures OnTime(Exec(Initial(now), steps)) && AllDated(Exec(Initial(now), steps))
  {
    ExecKeepsOnTime(Initial(now), steps);
    RunKeepsDated(Initial(now), steps);
  }

  /** What the record says about the firings of a launch that is not periodic. */
  lemma OneShotRecord(s: State, id: nat)
    requires OnTime(s) && AllDated(s)
    requires id < |s.accepted| && !s.accepted[id].timer.isPeriodical
    ensures forall i :: 0 <= i < |s.fired| && s.fired[i].entry.id == id ==>
      && s.fired[i].entry.timer == s.accepted[id].timer
      && s.fired[i].at >= s.accepted[id].at + s.accepted[id].timeout * 1_000_000
  {
    forall i | 0 <= i < |s.fired| && s.fired[i].entry.id == id
      ensures s.fired[i].entry.timer == s.accepted[id].timer
      ensures s.fired[i].at >= s.accepted[id].at + s.accepted[id].timeout * 1_000_000
    {
      assert Known(s, s.fired[i].entry) && Dated(s, s.fired[i].entry, i);
    }
  }

  lemma ContinuesRun(now: int, steps: seq<Step>, step: Step, more: seq<Step>)
    ensures Exec(Initial(now), steps + [step] + more) == Exec(Apply(Exec(Initial(now), steps), step), more)
  {
    var s := Exec(Initial(now), steps);
    ExecConcat(Initial(now), steps + [step], more);
    ExecConcat(Initial(now), steps, [step]);
    assert Exec(s, [step]) == Apply(s, step);
  }

  // ---------------------------------------------------------------- firing order

  /** The firings are in order, and every active timer comes after every fired one. */
  ghost predicate FiredFirst(s: State) {
    && Sorted(Entries(s.fired))
    && forall i, e :: 0 <= i < |s.fired| && e in s.active ==> Before(s.fired[i].entry, e)
  }

  /** Every firing comes before a node younger than all of them exactly when the last one does. */
  lemma AllFiredBefore(s: State, e: Entry)
    requires OnTime(s) && Sorted(Entries(s.fired))
    requires e.rank == |s.inserted|
    ensures (forall i :: 0 <= i < |s.fired| ==> Before(s.fired[i].entry, e))
      <==> s.fired == [] || s.fired[|s.fired| - 1].entry.expiry <= e.expiry
  {
    if s.fired != [] {
      var n := |s.fired| - 1;
      assert Known(s, s.fired[n].entry);
      forall i | 0 <= i < |s.fired| ensures s.fired[i].entry.expiry <= s.fired[n].entry.expiry && s.fired[i].entry.rank < e.rank {
        assert i == n || Before(Entries(s.fired)[i], Entries(s.fired)[n]);
        assert Known(s, s.fired[i].entry);
      }
    }
  }

  /** An accepted launch keeps that order exactly when it does not ask for an instant before
      the last firing's. */
  lemma LaunchKeepsOrderIff(s: State, timer: TimerObject, timeout: int, createOk: bool, willing: bool)
    requires Wf(s) && OnTime(s) && FiredFirst(s)
    requires Launch(s, timer, timeout, createOk, willing).1 == Normal
    ensures FiredFirst(Launch(s, timer, timeout, createOk, willing).0)
      <==> s.fired == [] || s.fired[|s.fired| - 1].entry.expiry <= s.now + Millis(timeout)
  {
    var s' := Launch(s, timer, timeout, createOk, willing).0;
    var e := NewEntry(s, timer, timeout);
    LaunchAccepted(s, timer, timeout, createOk, willing);
    AddedKeepsOrderIff(s, s', e);
    AllFiredBefore(s, e);
  }

  lemma AddedKeepsOrderIff(s: State, s': State, e: Entry)
    requires FiredFirst(s) && s'.fired == s.fired && s'.active == Emplace(s.active, e)
    ensures FiredFirst(s') <==> forall i :: 0 <= i < |s.fired| ==> Before(s.fired[i].entry, e)
  {
    EmplaceContents(s.active, e);
    assert e in s'.active;
  }

  lemma LaunchKeepsOrder(s: State, timer: TimerObject, timeout: int, createOk: bool, willing: bool)
    requires Wf(s) && OnTime(s) && FiredFirst(s)
    requires timeout >= 0
    ensures FiredFirst(Launch(s, timer, timeout, createOk, willing).0)
  {
    RollbackIsExact(s, timer, timeout, createOk, willing);
    if Launch(s, timer, timeout, createOk, willing).1 == Normal {
      LaunchKeepsOrderIff(s, timer, timeout, createOk, willing);
    }
  }

  lemma ExpiredKeepsOrder(s: State)
    requires Wf(s) && Armed(s) && OnTime(s) && FiredFirst(s)
    requires forall e :: e in s.active && e.timer.isPeriodical ==> e.timer.periodicalInterval >= 0
    ensures FiredFirst(OnTimerExpired(s).0)
  {
    if s.fd.pending > 0 {
      var s' := OnTimerExpired(s).0;
      var e := s.active[0];
      assert e in s.active;
      RestHasOtherNames(s);
      EmplaceContents(s.active[1..], Renewed(s, e));
      assert Known(s, e);
      forall x | x in s'.active ensures Before(e, x) {
        if x in s.active[1..] {
          var i :| 0 <= i < |s.active[1..]| && s.active[1..][i] == x;
          assert Before(s.active[0], s.active[i + 1]);
        }
      }
      forall i, x | 0 <= i < |s.fired| && x in s'.active ensures Before(s.fired[i].entry, x) {
        assert Before(s.fired[i].entry, e);
      }
      assert Entries(s'.fired) == Entries(s.fired) + [e];
    }
  }

  lemma CancelKeepsOrder(s: State, subscriber: nat, userId: nat)
    requires FiredFirst(s)
    ensures FiredFirst(Cancel(s, subscriber, userId).0)
  {
    var p := Find(s.active, subscriber, userId);
    if p < |s.active| {
      RemoveContents(s.active, p);
    }
  }

  ghost predicate IntervalsForward(s: State) {
    forall e :: e in s.active && e.timer.isPeriodical ==> e.timer.periodicalInterval >= 0
  }

  lemma ApplyKeepsIntervals(s: State, step: Step)
    requires Wf(s) && IntervalsForward(s) && ForwardStep(step)
    ensures IntervalsForward(Apply(s, step))
  {
    match step
    case DoLaunch(timer, timeout, createOk, willing) =>
      RollbackIsExact(s, timer, timeout, createOk, willing);
      LaunchAccepted(s, timer, timeout, createOk, willing);
      EmplaceContents(s.active, NewEntry(s, timer, timeout));
    case DoCancel(subscriber, userId) =>
      var p := Find(s.active, subscriber, userId);
      if p < |s.active| {
        RemoveContents(s.active, p);
      }
    case Expired =>
      if s.fd.pending > 0 && s.active != [] {
        assert s.active[0] in s.active;
        EmplaceContents(s.active[1..], Renewed(s, s.active[0]));
        RestHasOtherNames(s);
      }
    case Tick(nanos) =>
    case KernelExpires =>
  }

  ghost predicate Ordered(s: State) {
    Wf(s) && Armed(s) && OnTime(s) && FiredFirst(s) && IntervalsForward(s) && s.now > 0
  }

  /** A step that asks for no time in the past is harmless. */
  lemma ForwardIsHarmless(s: State, step: Step)
    requires ForwardStep(step) && IntervalsForward(s) && s.now > 0
    ensures Harmless(s, step)
  {
    if s.active != [] {
      assert s.active[0] in s.active;
    }
  }

  lemma ArmedIsPointed(s: State)
    requires Armed(s)
    ensures Pointed(s)
  {
    if s.active != [] {
      assert s.active[0] in s.active;
    }
  }

  lemma ApplyKeepsOrdered(s: State, step: Step)
    requires Ordered(s) && ForwardStep(step)
    ensures Ordered(Apply(s, step))
  {
    ForwardIsHarmless(s, step);
    ArmedIsPointed(s);
    ApplyWf(s, step);
    ApplyKeepsArmed(s, step);
    ApplyKeepsOnTime(s, step);
    ApplyKeepsIntervals(s, step);
    match step
    case DoLaunch(timer, timeout, createOk, willing) =>
      LaunchKeepsOrder(s, timer, timeout, createOk, willing);
      RollbackIsExact(s, timer, timeout, createOk, willing);
      LaunchAccepted(s, timer, timeout, createOk, willing);
    case DoCancel(subscriber, userId) => CancelKeepsOrder(s, subscriber, userId);
    case Expired => ExpiredKeepsOrder(s);
    case Tick(nanos) =>
    case KernelExpires =>
  }

  lemma {:induction false} RunKeepsOrdered(s: State, steps: seq<Step>)
    requires Ordered(s)
    requires forall step :: step in steps ==> ForwardStep(step)
    ensures Ordered(Exec(s, steps))
    decreases steps
  {
    if steps != [] {
      assert steps[0] in steps;
      assert forall step :: step in steps[1..] ==> step in steps;
      ApplyKeepsOrdered(s, steps[0]);
      RunKeepsOrdered(Apply(s, steps[0]), steps[1..]);
    }
  }

  /** In a run with timeouts and intervals that are not negative the kernel timer always agrees
      with the map. */
  lemma ForwardRunsAgree(now: int, steps: seq<Step>)
    requires now > 0
    requires forall step :: step in steps ==> ForwardStep(step)
    ensures FdAgrees(Exec(Initial(now), steps))
  {
    RunKeepsOrdered(Initial(now), steps);
  }

  lemma SortedConcat(a: seq<Entry>, b: seq<Entry>)
    requires Sorted(a) && Sorted(b)
    requires forall i, e :: 0 <= i < |a| && e in b ==> Before(a[i], e)
    ensures Sorted(a + b)
  {
    assert forall j :: 0 <= j < |b| ==> b[j] in b;
  }

  /** The map and its re-arming refine a sort. In every run with timeouts and intervals that are
      not negative, what has fired followed by what is active is the stable sort, by expiry, of
      the insertions that were not cancelled: it is in the order (expiry, insertion), holds
      exactly those insertions, and no other sequence does. */
  lemma FiringIsAStableSort(now: int, steps: seq<Step>)
    requires now > 0
    requires forall step :: step in steps ==> ForwardStep(step)
    ensures var s := Exec(Initial(now), steps);
      var order := Entries(s.fired) + s.active;
      && Sorted(order)
      && multiset(order) == multiset(s.inserted) - multiset(s.cancelled)
      && forall t :: Sorted(t) && multiset(t) == multiset(s.inserted) - multiset(s.cancelled) ==> t == order
  {
    RunKeepsOrdered(Initial(now), steps);
    RunConserves(Initial(now), steps);
    var s := Exec(Initial(now), steps);
    var order := Entries(s.fired) + s.active;
    SortedConcat(Entries(s.fired), s.active);
    forall t | Sorted(t) && multiset(t) == multiset(order) ensures t == order {
      SortedIsUnique(t, order);
    }
  }

  // ---------------------------------------------------------------- cancelled timers

  ghost predicate Absent(s: State, subscriber: nat, userId: nat) {
    forall e :: e in s.active ==> !Names(e, subscriber, userId)
  }

  ghost predicate NotRelaunched(before: State, after: State, subscriber: nat, userId: nat) {
    forall k :: |before.accepted| <= k < |after.accepted| ==>
      !(after.accepted[k].timer.subscriber == subscriber && after.accepted[k].timer.userId == userId)
  }

  lemma ApplyKeepsAbsent(s: State, step: Step, subscriber: nat, userId: nat)
    requires Wf(s) && Absent(s, subscriber, userId)
    requires NotRelaunched(s, Apply(s, step), subscriber, userId)
    ensures Absent(Apply(s, step), subscriber, userId)
    ensures var s' := Apply(s, step);
      s.fired <= s'.fired && forall i :: |s.fired| <= i < |s'.fired| ==> !Names(s'.fired[i].entry, subscriber, userId)
  {
    match step
    case DoLaunch(timer, timeout, createOk, willing) =>
      RollbackIsExact(s, timer, timeout, createOk, willing);
      LaunchAccepted(s, timer, timeout, createOk, willing);
      EmplaceContents(s.active, NewEntry(s, timer, timeout));
      var s' := Apply(s, step);
      assert s'.accepted != s.accepted ==> s'.accepted[|s.accepted|].timer == timer;
      hide Wf, Launch, Emplace;
    case DoCancel(subscriber', userId') =>
      var p := Find(s.active, subscriber', userId');
      if p < |s.active| {
        RemoveContents(s.active, p);
      }
    case Expired =>
      if s.fd.pending > 0 && s.active != [] {
        assert s.active[0] in s.active;
        EmplaceContents(s.active[1..], Renewed(s, s.active[0]));
        RestHasOtherNames(s);
      }
    case Tick(nanos) =>
    case KernelExpires =>
  }

  lemma {:induction false} AcceptedGrows(s: State, steps: seq<Step>)
    requires Wf(s)
    ensures s.accepted <= Exec(s, steps).accepted
    decreases steps
  {
    if steps != [] {
      var step := steps[0];
      if step.DoLaunch? {
        RollbackIsExact(s, step.timer, step.timeout, step.createOk, step.willing);
        LaunchAccepted(s, step.timer, step.timeout, step.createOk, step.willing);
      }
      ApplyWf(s, step);
      AcceptedGrows(Apply(s, step), steps[1..]);
    }
  }

  lemma {:induction false} AbsentStaysSilent(s: State, steps: seq<Step>, subscriber: nat, userId: nat)
    requires Wf(s) && Absent(s, subscriber, userId)
    requires NotRelaunched(s, Exec(s, steps), subscriber, userId)
    ensures var s' := Exec(s, steps);
      s.fired <= s'.fired && forall i :: |s.fired| <= i < |s'.fired| ==> !Names(s'.fired[i].entry, subscriber, userId)
    decreases steps
  {
    if steps != [] {
      var s1 := Apply(s, steps[0]);
      ApplyWf(s, steps[0]);
      AcceptedGrows(s1, steps[1..]);
      AcceptedGrows(s, [steps[0]]);
      assert Exec(s, [steps[0]]) == s1;
      ApplyKeepsAbsent(s, steps[0], subscriber, userId);
      AbsentStaysSilent(s1, steps[1..], subscriber, userId);
    }
  }

  /** After `cancelTimer` returns NORMAL the timer does not fire, whatever follows and however
      late the cancel came, unless a later launch of the same name is accepted. This holds in
      particular when its expiration was already reported in the running event batch. */
  lemma CancelledTimerStaysSilent(s: State, subscriber: nat, userId: nat, steps: seq<Step>)
    requires Wf(s)
    requires Cancel(s, subscriber, userId).1 == Normal
    requires NotRelaunched(Cancel(s, subscriber, userId).0, Exec(Cancel(s, subscriber, userId).0, steps), subscriber, userId)
    ensures var s0 := Cancel(s, subscriber, userId).0;
      var s' := Exec(s0, steps);
      s0.fired <= s'.fired && forall i :: |s0.fired| <= i < |s'.fired| ==> !Names(s'.fired[i].entry, subscriber, userId)
  {
    RemoveFoundLeavesNone(s.active, subscriber, userId);
    CancelWf(s, subscriber, userId);
    AbsentStaysSilent(Cancel(s, subscriber, userId).0, steps, subscriber, userId);
  }

  // ---------------------------------------------------------------- periodic timers

  /** Any two firings of one launch are an interval apart, and its active node, if there is
      one, is an interval after each of them. */
  ghost predicate Spaced(s: State) {
    && (forall i, j :: 0 <= i < j < |s.fired| && s.fired[i].entry.id == s.fired[j].entry.id ==>
          s.fired[j].at - s.fired[i].at >= Millis(s.fired[i].entry.timer.periodicalInterval))
    && (forall i, e :: 0 <= i < |s.fired| && e in s.active && s.fired[i].entry.id == e.id ==>
          e.expiry - s.fired[i].at >= Millis(e.timer.periodicalInterval))
  }

  /** The firing of the first timer is an interval after each earlier firing of its launch. */
  lemma FiringIsSpaced(s: State, i: nat)
    requires Wf(s) && Pointed(s) && OnTime(s) && Spaced(s)
    requires s.fd.pending > 0 && i < |s.fired| && s.fired[i].entry.id == s.active[0].id
    ensures s.fired[i].entry.timer == s.active[0].timer
    ensures s.now - s.fired[i].at >= Millis(s.active[0].timer.periodicalInterval)
  {
    assert s.active[0] in s.active;
    assert Known(s, s.active[0]) && Known(s, s.fired[i].entry);
  }

  lemma OthersHaveOtherIds(s: State, x: Entry)
    requires Wf(s) && s.active != [] && x in s.active[1..]
    ensures x.id != s.active[0].id && x in s.active
  {
    RestHasOtherNames(s);
    assert s.active[0] in s.active;
    assert Known(s, x) && Known(s, s.active[0]);
  }

  lemma ExpiredKeepsSpaced(s: State)
    requires Wf(s) && Pointed(s) && OnTime(s) && Spaced(s)
    ensures Spaced(OnTimerExpired(s).0)
  {
    if s.fd.pending > 0 {
      EmplaceContents(s.active[1..], Renewed(s, s.active[0]));
      FiredKeepsSpaced(s, OnTimerExpired(s).0);
    }
  }

  lemma FiredKeepsSpaced(s: State, s': State)
    requires Wf(s) && Pointed(s) && OnTime(s) && Spaced(s) && s.fd.pending > 0
    requires s'.fired == s.fired + [Firing(s.active[0], s.now)]
    requires forall x :: x in s'.active ==> x in s.active[1..] || x == Renewed(s, s.active[0])
    ensures Spaced(s')
  {
    var e := s.active[0];
    var n := |s.fired|;
    forall i, j | 0 <= i < j <= n && s'.fired[i].entry.id == s'.fired[j].entry.id
      ensures s'.fired[j].at - s'.fired[i].at >= Millis(s'.fired[i].entry.timer.periodicalInterval)
    {
      if j == n {
        FiringIsSpaced(s, i);
      }
    }
    forall i, x | 0 <= i <= n && x in s'.active && s'.fired[i].entry.id == x.id
      ensures x.expiry - s'.fired[i].at >= Millis(x.timer.periodicalInterval)
    {
      if x in s.active[1..] {
        OthersHaveOtherIds(s, x);
      } else if i < n {
        FiringIsSpaced(s, i);
      }
    }
  }

  lemma LaunchKeepsSpaced(s: State, timer: TimerObject, timeout: int, createOk: bool, willing: bool)
    requires Wf(s) && OnTime(s) && Spaced(s)
    ensures Spaced(Launch(s, timer, timeout, createOk, willing).0)
  {
    RollbackIsExact(s, timer, timeout, createOk, willing);
    if Launch(s, timer, timeout, createOk, willing).1 == Normal {
      LaunchAccepted(s, timer, timeout, createOk, willing);
      AddedKeepsSpaced(s, Launch(s, timer, timeout, createOk, willing).0, NewEntry(s, timer, timeout));
    }
  }

  lemma AddedKeepsSpaced(s: State, s': State, e: Entry)
    requires OnTime(s) && Spaced(s)
    requires s'.fired == s.fired && s'.active == Emplace(s.active, e) && e.id == |s.accepted|
    ensures Spaced(s')
  {
    EmplaceContents(s.active, e);
    forall i | 0 <= i < |s.fired| ensures s.fired[i].entry.id != e.id {
      assert Known(s, s.fired[i].entry);
    }
  }

  lemma CancelKeepsSpaced(s: State, subscriber: nat, userId: nat)
    requires Spaced(s)
    ensures Spaced(Cancel(s, subscriber, userId).0)
  {
    var p := Find(s.active, subscriber, userId);
    if p < |s.active| {
      RemoveContents(s.active, p);
    }
  }

  lemma ApplyKeepsSpaced(s: State, step: Step)
    requires Wf(s) && Pointed(s) && OnTime(s) && Spaced(s)
    ensures Spaced(Apply(s, step))
  {
    match step
    case DoLaunch(timer, timeout, createOk, willing) => LaunchKeepsSpaced(s, timer, timeout, createOk, willing);
    case DoCancel(subscriber, userId) => CancelKeepsSpaced(s, subscriber, userId);
    case Expired => ExpiredKeepsSpaced(s);
    case Tick(nanos) =>
    case KernelExpires =>
  }

  lemma {:induction false} ExecKeepsSpaced(s: State, steps: seq<Step>)
    requires Wf(s) && Pointed(s) && OnTime(s) && Spaced(s)
    ensures Spaced(Exec(s, steps))
    decreases steps
  {
    hide Wf, Pointed, OnTime, Spaced, Apply;
    if steps != [] {
      ApplyWf(s, steps[0]);
      ApplyKeepsPointed(s, steps[0]);
      ApplyKeepsOnTime(s, steps[0]);
      ApplyKeepsSpaced(s, steps[0]);
      ExecKeepsSpaced(Apply(s, steps[0]), steps[1..]);
    }
  }

  /** In every run, two firings of one periodic timer are at least its interval apart by the
      clock, whatever else is started, cancelled or delayed meanwhile. */
  lemma PeriodicFiringsAreSpaced(now: int, steps: seq<Step>, i: nat, j: nat)
    requires i < j < |Exec(Initial(now), steps).fired|
    requires var fired := Exec(Initial(now), steps).fired; fired[i].entry.id == fired[j].entry.id
    ensures var fired := Exec(Initial(now), steps).fired;
      fired[j].at - fired[i].at >= Millis(fired[i].entry.timer.periodicalInterval)
  {
    ExecKeepsSpaced(Initial(now), steps);
  }

  // ---------------------------------------------------------------- due timers do fire

  function Rounds(n: nat): seq<Step> {
    if n == 0 then [] else [KernelExpires, Expired] + Rounds(n - 1)
  }

  lemma OneRoundKeeps(s: State)
    requires Wf(s) && Armed(s) && IntervalsForward(s) && s.now > 0
    ensures var s' := Apply(Apply(s, KernelExpires), Expired); Wf(s') && Armed(s') && IntervalsForward(s')
  {
    var s1 := Apply(s, KernelExpires);
    ApplyWf(s, KernelExpires);
    ApplyKeepsArmed(s, KernelExpires);
    ApplyKeepsIntervals(s, KernelExpires);
    ForwardIsHarmless(s1, Expired);
    hide Apply, Wf, Armed, IntervalsForward;
    ApplyWf(s1, Expired);
    ApplyKeepsArmed(s1, Expired);
    ApplyKeepsIntervals(s1, Expired);
  }

  lemma OneRoundFires(s: State)
    requires FdAgrees(s) && s.active != [] && s.active[0].expiry <= s.now
    ensures var s' := Apply(Apply(s, KernelExpires), Expired);
      && s'.now == s.now
      && Entries(s'.fired) == Entries(s.fired) + [s.active[0]]
      && s'.active == if s.active[0].timer.isPeriodical then Emplace(s.active[1..], Renewed(s, s.active[0])) else s.active[1..]
  {
    var s1 := Apply(s, KernelExpires);
    assert s1 == s.(fd := TimerFd(None, 1));
    hide OnTimerExpired, FdAgrees, Expire;
    ExpiredShape(s1);
    assert Renewed(s1, s.active[0]) == Renewed(s, s.active[0]);
  }

  lemma ExpiredShape(s: State)
    requires s.fd.pending > 0 && s.active != []
    ensures var s' := OnTimerExpired(s).0;
      && s'.now == s.now
      && Entries(s'.fired) == Entries(s.fired) + [s.active[0]]
      && s'.active == if s.active[0].timer.isPeriodical then Emplace(s.active[1..], Renewed(s, s.active[0])) else s.active[1..]
  {
  }

  lemma {:induction false} RoundsFire(s: State, n: nat)
    requires Wf(s) && Armed(s) && IntervalsForward(s)
    requires n <= |s.active| && forall i :: 0 <= i < n ==> s.active[i].expiry <= s.now
    ensures Entries(Exec(s, Rounds(n)).fired) == Entries(s.fired) + s.active[..n]
    decreases n
  {
    hide Wf, Armed, Apply;
    if n == 0 {
      assert s.active[..0] == [];
    } else {
      var s2 := FirstRoundFires(s, n);
      RoundsFire(s2, n - 1);
      assert s.active[..n] == [s.active[0]] + s2.active[..n - 1];
    }
  }

  lemma FirstRoundFires(s: State, n: nat) returns (s2: State)
    requires Wf(s) && Armed(s) && IntervalsForward(s)
    requires 0 < n <= |s.active| && forall i :: 0 <= i < n ==> s.active[i].expiry <= s.now
    ensures Wf(s2) && Armed(s2) && IntervalsForward(s2)
    ensures n - 1 <= |s2.active| && s2.active[..n - 1] == s.active[1..n]
    ensures forall i :: 0 <= i < n - 1 ==> s2.active[i].expiry <= s2.now
    ensures Entries(s2.fired) == Entries(s.fired) + [s.active[0]]
    ensures Exec(s, Rounds(n)) == Exec(s2, Rounds(n - 1))
  {
    s2 := Apply(Apply(s, KernelExpires), Expired);
    assert s.active[0] in s.active;
    OneRoundKeeps(s);
    OneRoundFires(s);
    RoundKeepsDuePrefix(s, n);
    UnfoldRounds(s, n);
  }

  lemma UnfoldRounds(s: State, n: nat)
    requires n > 0
    ensures Exec(s, Rounds(n)) == Exec(Apply(Apply(s, KernelExpires), Expired), Rounds(n - 1))
  {
    var rest := [Expired] + Rounds(n - 1);
    assert Rounds(n) == [KernelExpires] + rest;
    assert rest[1..] == Rounds(n - 1);
    assert Exec(s, Rounds(n)) == Exec(Apply(s, KernelExpires), rest);
  }

  lemma RoundKeepsDuePrefix(s: State, n: nat)
    requires FdAgrees(s) && IntervalsForward(s)
    requires 0 < n <= |s.active| && forall i :: 0 <= i < n ==> s.active[i].expiry <= s.now
    ensures var s2 := Apply(Apply(s, KernelExpires), Expired);
      && n - 1 <= |s2.active| && s2.active[..n - 1] == s.active[1..n]
      && forall i :: 0 <= i < n - 1 ==> s2.active[i].expiry <= s2.now
  {
    var e, rest := s.active[0], s.active[1..];
    assert e in s.active;
    OneRoundFires(s);
    var s2 := Apply(Apply(s, KernelExpires), Expired);
    hide FdAgrees, Apply, Emplace;
    if e.timer.isPeriodical {
      DuePrefixStays(rest, Renewed(s, e), n - 1);
    }
    assert s2.active[..n - 1] == rest[..n - 1];
    forall i | 0 <= i < n - 1 ensures s2.active[i].expiry <= s2.now {
      assert s2.active[i] == s2.active[..n - 1][i] == s.active[i + 1];
    }
  }

  /** A node whose key is not below the first m keys goes behind them. */
  lemma DuePrefixStays(s: seq<Entry>, e: Entry, m: nat)
    requires m <= |s| && forall i :: 0 <= i < m ==> s[i].expiry <= e.expiry
    ensures m <= |Emplace(s, e)| && Emplace(s, e)[..m] == s[..m]
  {
    var p := UpperBound(s, e.expiry);
    assert p >= m;
  }

  /** No due timer is lost or delayed by another: from any reachable state whose first n timers
      are due, n rounds of kernel expiration and handler fire exactly these n, in their order,
      also when periodic ones are put back in between. */
  lemma DueTimersFireInOrder(now: int, steps: seq<Step>, n: nat)
    requires now > 0
    requires forall step :: step in steps ==> ForwardStep(step)
    requires var s := Exec(Initial(now), steps);
      n <= |s.active| && forall i :: 0 <= i < n ==> s.active[i].expiry <= s.now
    ensures var s := Exec(Initial(now), steps);
      Entries(Exec(Initial(now), steps + Rounds(n)).fired) == Entries(s.fired) + s.active[..n]
  {
    RunKeepsOrdered(Initial(now), steps);
    RoundsFire(Exec(Initial(now), steps), n);
    ExecConcat(Initial(now), steps, Rounds(n));
  }
}
