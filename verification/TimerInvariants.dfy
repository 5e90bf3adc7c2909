/**
 What every run of the timer manager keeps, whatever the timeouts: the map is in order, no
 two active timers share a name, no timer is lost or duplicated, and a failed launch leaves
 no trace.
 */
module TimerInvariants {
  import opened Options
  import opened TimerKernel
  import opened TimerQueue
  import opened TimerModel

  /** The map is in multimap order, holds no name twice, and holds only nodes that some
      accepted launch or renewal inserted. */
  ghost predicate Wf(s: State) {
    Sorted(s.active) && Distinct(s.active) && Recorded(s)
  }

  ghost predicate Recorded(s: State) {
    && (forall r :: 0 <= r < |s.inserted| ==> s.inserted[r].rank == r)
    && (forall e :: e in s.active ==> Known(s, e))
    && (!s.created ==> s.active == [] && s.fd == IDLE)
  }

  ghost predicate Known(s: State, e: Entry) {
    && e.rank < |s.inserted| && s.inserted[e.rank] == e
    && e.id < |s.accepted| && s.accepted[e.id].timer == e.timer
  }

  function Entries(fired: seq<Firing>): (r: seq<Entry>)
    ensures |r| == |fired|
    ensures forall i :: 0 <= i < |fired| ==> r[i] == fired[i].entry
  {
    seq(|fired|, i requires 0 <= i < |fired| => fired[i].entry)
  }

  /** The ids whose timer fired for good: the firings that were not renewed. */
  function Finished(fired: seq<Firing>): seq<nat> {
    if fired == [] then []
    else
      var last := fired[|fired| - 1].entry;
      Finished(fired[..|fired| - 1]) + if last.timer.isPeriodical then [] else [last.id]
  }

  /** The ids given out so far. */
  function Given(n: nat): (r: seq<nat>)
    ensures |r| == n
    ensures forall i :: 0 <= i < n ==> r[i] == i
  {
    seq(n, i => i)
  }

  /** Every inserted node is active, fired or cancelled. */
  ghost predicate NodesConserved(s: State) {
    multiset(s.inserted) == multiset(s.active) + multiset(Entries(s.fired)) + multiset(s.cancelled)
  }

  /** Every accepted launch is active, cancelled or has fired for good. */
  ghost predicate LaunchesConserved(s: State) {
    multiset(Given(|s.accepted|)) == multiset(Ids(s.active)) + multiset(Ids(s.cancelled)) + multiset(Finished(s.fired))
  }

  // ---------------------------------------------------------------- launching

  /** Rollback is exact. A launch that does not return NORMAL leaves the active timers, in
      their order, and all records as they were; once the manager has its descriptor, it
      leaves the whole state, and so what the kernel is armed for, as it was. */
  lemma RollbackIsExact(s: State, timer: TimerObject, timeout: int, createOk: bool, willing: bool)
    requires Wf(s)
    ensures var (s', rc) := Launch(s, timer, timeout, createOk, willing);
      rc != Normal ==> s' == s.(created := s'.created) && (s.created ==> s' == s)
  {
    var s1 := EnsureTimerFd(s, createOk);
    var e := NewEntry(s1, timer, timeout);
    if UpperBound(s1.active, e.expiry) == 0 {
      EraseUndoesFrontEmplace(s1.active, e);
    }
  }

  /** The state after a launch that returned NORMAL. */
  lemma LaunchAccepted(s: State, timer: TimerObject, timeout: int, createOk: bool, willing: bool)
    requires Wf(s)
    ensures var (s', rc) := Launch(s, timer, timeout, createOk, willing);
      var e := NewEntry(s, timer, timeout);
      rc == Normal ==>
        && s'.created
        && (forall x :: x in s.active ==> !Names(x, timer.subscriber, timer.userId))
        && s'.active == Emplace(s.active, e)
        && s'.now == s.now && s'.fired == s.fired && s'.cancelled == s.cancelled
        && s'.accepted == s.accepted + [Launched(timer, s.now, timeout)] && s'.inserted == s.inserted + [e]
  {
    assert forall x :: x in s.active ==> exists i :: 0 <= i < |s.active| && s.active[i] == x;
  }

  /** The return code of a start. The name must be free, there must be a descriptor, and, when
      no active timer expires earlier or at the same time, the kernel must take the new instant:
      it never takes a negative one. */
  ghost predicate Answers(s: State, subscriber: nat, userId: nat, timeout: int, createOk: bool, willing: bool, rc: ReturnCode) {
    var taken := exists x :: x in s.active && x.timer.subscriber == subscriber && x.timer.userId == userId;
    var instant := s.now + timeout * 1_000_000;
    var possible := (s.created || createOk) && ((exists x :: x in s.active && x.expiry <= instant) || (willing && instant >= 0));
    && (rc == AlreadyExists <==> taken)
    && (rc == Normal <==> !taken && possible)
    && (rc == InternalFault <==> !taken && !possible)
  }

  /** `after` is `before` with one more node, and all others in their order. */
  ghost predicate OneMore(before: seq<Entry>, after: seq<Entry>, e: Entry) {
    exists p :: 0 <= p <= |before| && after == before[..p] + [e] + before[p..]
  }

  /** What a start that returns NORMAL does: one node for a name that was free, due at the clock
      plus the timeout and numbered by the launch, joins the map; when it comes first the
      kernel timer is set for it, but disarmed by the instant 0; and nothing else changes. */
  ghost predicate Starts(s: State, s': State, subscriber: nat, userId: nat, timeout: int, e: Entry) {
    && (forall x :: x in s.active ==> x.timer.subscriber != subscriber || x.timer.userId != userId)
    && OneMore(s.active, s'.active, e)
    && e.timer.subscriber == subscriber && e.timer.userId == userId
    && e.expiry == s.now + timeout * 1_000_000
    && e.id == |s.accepted| && e.rank == |s.inserted|
    && s'.fd == (if s'.active[0] != e then s.fd else TimerFd(if e.expiry == 0 then None else Some(e.expiry), 0))
    && s' == s.(created := true, active := s'.active, fd := s'.fd,
                accepted := s.accepted + [Launched(e.timer, s.now, timeout)], inserted := s.inserted + [e])
  }

  /** A start that does not return NORMAL changes nothing, but that there may be a descriptor now. */
  ghost predicate StartsNothing(s: State, s': State, createOk: bool, rc: ReturnCode) {
    if rc == AlreadyExists then s' == s else s' == s.(created := s.created || createOk)
  }

  lemma LaunchReturns(s: State, timer: TimerObject, timeout: int, createOk: bool, willing: bool)
    requires Wf(s)
    ensures var (s', rc) := Launch(s, timer, timeout, createOk, willing);
      && Answers(s, timer.subscriber, timer.userId, timeout, createOk, willing, rc)
      && (rc != Normal ==> StartsNothing(s, s', createOk, rc))
      && Apply(s, DoLaunch(timer, timeout, createOk, willing)) == s'
  {
    RollbackIsExact(s, timer, timeout, createOk, willing);
    var p := Find(s.active, timer.subscriber, timer.userId);
    if p < |s.active| {
      assert s.active[p] in s.active;
    }
    TimespecIsExact(s.now + Millis(timeout));
    FirstIsSoonest(s, s.now + Millis(timeout));
  }

  /** What every launch that returns NORMAL does. */
  lemma LaunchStarts(s: State, timer: TimerObject, timeout: int, createOk: bool, willing: bool) returns (e: Entry)
    requires Wf(s)
    requires Launch(s, timer, timeout, createOk, willing).1 == Normal
    ensures e.timer == timer
    ensures Starts(s, Launch(s, timer, timeout, createOk, willing).0, timer.subscriber, timer.userId, timeout, e)
  {
    var s' := Launch(s, timer, timeout, createOk, willing).0;
    e := NewEntry(s, timer, timeout);
    LaunchAccepted(s, timer, timeout, createOk, willing);
    TimespecIsExact(e.expiry);
    assert e.expiry == s.now + timeout * 1_000_000;
    EmplacedAt(s.active, e);
    if UpperBound(s.active, e.expiry) != 0 {
      assert forall x :: x in s.active ==> x.rank < |s.inserted|;
      assert s.active[0] in s.active;
    }
  }

  lemma EmplacedAt(s: seq<Entry>, e: Entry)
    ensures OneMore(s, Emplace(s, e), e)
    ensures Emplace(s, e)[0] == if UpperBound(s, e.expiry) == 0 then e else s[0]
  {
    var p := UpperBound(s, e.expiry);
    assert Emplace(s, e) == s[..p] + [e] + s[p..];
  }

  /** What `startTimer` answers, and what it starts: one timer of that name, due at the clock plus
      the timeout, that is not periodic. */
  lemma StartTimerStarts(s: State, timeout: int, subscriber: nat, userId: nat, createOk: bool, willing: bool)
    requires Wf(s)
    ensures var (s', rc) := StartTimer(s, timeout, subscriber, userId, createOk, willing);
      && Answers(s, subscriber, userId, timeout, createOk, willing, rc)
      && (rc != Normal ==> StartsNothing(s, s', createOk, rc))
      && (rc == Normal ==> exists e :: Starts(s, s', subscriber, userId, timeout, e) && !e.timer.isPeriodical)
  {
    var timer := TimerObject(subscriber, userId, false, 0);
    LaunchReturns(s, timer, timeout, createOk, willing);
    if Launch(s, timer, timeout, createOk, willing).1 == Normal {
      var e := LaunchStarts(s, timer, timeout, createOk, willing);
    }
  }

  /** The same of `startPeriodicalTimer`. The timer carries the interval and is first due one
      interval after the clock; but it is not periodic either. */
  lemma StartPeriodicalTimerStarts(s: State, interval: int, subscriber: nat, userId: nat, createOk: bool, willing: bool)
    requires Wf(s)
    ensures var (s', rc) := StartPeriodicalTimer(s, interval, subscriber, userId, createOk, willing);
      && Answers(s, subscriber, userId, interval, createOk, willing, rc)
      && (rc != Normal ==> StartsNothing(s, s', createOk, rc))
      && (rc == Normal ==> exists e ::
            Starts(s, s', subscriber, userId, interval, e) && e.timer.periodicalInterval == interval && !e.timer.isPeriodical)
  {
    var timer := TimerObject(subscriber, userId, false, interval);
    LaunchReturns(s, timer, interval, createOk, willing);
    if Launch(s, timer, interval, createOk, willing).1 == Normal {
      var e := LaunchStarts(s, timer, interval, createOk, willing);
    }
  }

  lemma FirstIsSoonest(s: State, instant: int)
    requires Wf(s)
    ensures (exists x :: x in s.active && x.expiry <= instant) <==> UpperBound(s.active, instant) != 0
  {
    if x :| x in s.active && x.expiry <= instant {
      var i :| 0 <= i < |s.active| && s.active[i] == x;
      assert i == 0 || Before(s.active[0], s.active[i]);
    }
    if s.active != [] && s.active[0].expiry <= instant {
      assert s.active[0] in s.active;
    }
  }

  /** `cancelTimer` returns NORMAL exactly when there is an active timer of the name, and takes
      out that timer and no other; it returns NOT_FOUND otherwise, and does nothing. */
  lemma CancelReturns(s: State, subscriber: nat, userId: nat)
    requires Wf(s)
    ensures var (s', rc) := Cancel(s, subscriber, userId);
      && (rc == Normal <==> exists x :: x in s.active && x.timer.subscriber == subscriber && x.timer.userId == userId)
      && (rc == NotFound <==> forall x :: x in s.active ==> x.timer.subscriber != subscriber || x.timer.userId != userId)
      && (forall x :: x in s'.active <==> x in s.active && (x.timer.subscriber != subscriber || x.timer.userId != userId))
      && (rc == NotFound ==> s' == s)
      && (rc == Normal ==> exists e ::
            && OneMore(s'.active, s.active, e) && e.timer.subscriber == subscriber && e.timer.userId == userId
            && s' == s.(active := s'.active, fd := s'.fd, cancelled := s.cancelled + [e]))
      && Apply(s, DoCancel(subscriber, userId)) == s'
  {
    var p := Find(s.active, subscriber, userId);
    if p < |s.active| {
      assert s.active[p] in s.active;
      RemoveFoundLeavesNone(s.active, subscriber, userId);
      RemoveContents(s.active, p);
      RemovedFrom(s.active, p);
      forall x | x in s.active && !Names(x, subscriber, userId) ensures x in RemoveAt(s.active, p) {
        assert x in multiset(s.active);
        assert x in multiset(RemoveAt(s.active, p));
      }
    }
  }

  lemma RemovedFrom(s: seq<Entry>, p: nat)
    requires p < |s|
    ensures OneMore(RemoveAt(s, p), s, s[p])
  {
    var rest := RemoveAt(s, p);
    assert rest[..p] == s[..p] && rest[p..] == s[p + 1..];
    assert s == rest[..p] + [s[p]] + rest[p..];
  }

  /** What an expiration does. The first timer fires; if it is periodic, and only then, one node of
      the same launch comes back, due one interval after the clock; the kernel timer is set
      for the new first key when the kernel takes that; and nothing else changes. */
  lemma ExpirationReturns(s: State)
    ensures var (s', fired) := OnTimerExpired(s);
      && Apply(s, Expired) == s'
      && (s.fd.pending == 0 ==> s' == s && fired == None)
      && (s.fd.pending > 0 && s.active == [] ==> s' == s.(fd := s.fd.(pending := 0)) && fired == None)
      && (s.fd.pending > 0 && s.active != [] ==>
            var e := s.active[0];
            && fired == Some(e)
            && (if e.timer.isPeriodical
                then exists r :: OneMore(s.active[1..], s'.active, r) && s'.inserted == s.inserted + [r]
                       && r.timer == e.timer && r.id == e.id && r.expiry == s.now + e.timer.periodicalInterval * 1_000_000
                else s'.active == s.active[1..] && s'.inserted == s.inserted)
            && s'.fd == (if s'.active == [] || s'.active[0].expiry == 0 then IDLE
                         else if s'.active[0].expiry < 0 then s.fd.(pending := 0)
                         else TimerFd(Some(s'.active[0].expiry), 0))
            && s' == s.(active := s'.active, fd := s'.fd, inserted := s'.inserted, fired := s.fired + [Firing(e, s.now)]))
  {
    if s.fd.pending > 0 && s.active != [] {
      var s' := OnTimerExpired(s).0;
      var e := s.active[0];
      if e.timer.isPeriodical {
        EmplacedAt(s.active[1..], Renewed(s, e));
        assert Renewed(s, e).expiry == s.now + e.timer.periodicalInterval * 1_000_000;
      } else {
        assert s'.inserted == s.inserted;
      }
      if s'.active != [] {
        TimespecIsExact(s'.active[0].expiry);
      }
    }
  }

  // ---------------------------------------------------------------- the order of the map

  lemma IdleBeforeCreation(s: State)
    requires Wf(s)
    ensures !s.created ==> s.active == [] && s.fd == IDLE
  {
  }

  lemma InitialWf(now: int)
    ensures Wf(Initial(now))
  {
  }

  lemma AddedWf(s: State, s': State, e: Entry)
    requires Wf(s) && s'.created && s'.active == Emplace(s.active, e)
    requires forall x :: x in s.active ==> !Names(x, e.timer.subscriber, e.timer.userId)
    requires e.rank == |s.inserted| && s'.inserted == s.inserted + [e]
    requires s.accepted <= s'.accepted && Known(s', e)
    ensures Wf(s')
  {
    hide Sorted, Distinct, Emplace;
    EmplaceContents(s.active, e);
    EmplaceSorts(s.active, e);
    EmplaceDistinct(s.active, e);
    AddedRecorded(s, s', e);
  }

  lemma AddedRecorded(s: State, s': State, e: Entry)
    requires Recorded(s) && s'.created
    requires forall x :: x in s'.active ==> x in s.active || x == e
    requires e.rank == |s.inserted| && s'.inserted == s.inserted + [e]
    requires s.accepted <= s'.accepted && Known(s', e)
    ensures Recorded(s')
  {
    assert forall x :: x in s.active ==> Known(s, x) && Known(s', x);
  }

  lemma LaunchWf(s: State, timer: TimerObject, timeout: int, createOk: bool, willing: bool)
    requires Wf(s)
    ensures Wf(Launch(s, timer, timeout, createOk, willing).0)
  {
    var (s', rc) := Launch(s, timer, timeout, createOk, willing);
    RollbackIsExact(s, timer, timeout, createOk, willing);
    if rc == Normal {
      LaunchAccepted(s, timer, timeout, createOk, willing);
      AddedWf(s, s', NewEntry(s, timer, timeout));
    }
  }

  lemma CancelWf(s: State, subscriber: nat, userId: nat)
    requires Wf(s)
    ensures Wf(Cancel(s, subscriber, userId).0)
  {
    var p := Find(s.active, subscriber, userId);
    if p < |s.active| {
      RemoveSorts(s.active, p);
      RemoveContents(s.active, p);
      assert forall x :: x in s.active ==> Known(s, x);
    }
  }

  /** In a map without double names, the first timer's name is not that of any other. */
  lemma RestHasOtherNames(s: State)
    requires Wf(s) && s.active != []
    ensures forall x :: x in s.active[1..] ==> !Names(x, s.active[0].timer.subscriber, s.active[0].timer.userId)
    ensures forall x :: x in s.active[1..] ==> x in s.active
    ensures Sorted(s.active[1..]) && Distinct(s.active[1..])
  {
    var rest := s.active[1..];
    forall x | x in rest ensures !Names(x, s.active[0].timer.subscriber, s.active[0].timer.userId) {
      var i :| 0 <= i < |rest| && rest[i] == x;
      assert s.active[i + 1] == x;
      assert !Names(s.active[0], x.timer.subscriber, x.timer.userId);
    }
  }

  /** The map after the first timer fired and was put back. */
  lemma RenewalWf(s: State)
    requires Wf(s) && s.active != []
    ensures var active := Emplace(s.active[1..], Renewed(s, s.active[0]));
      && Sorted(active) && Distinct(active)
      && forall x :: x in active <==> x in s.active[1..] || x == Renewed(s, s.active[0])
  {
    var rest, r := s.active[1..], Renewed(s, s.active[0]);
    RestHasOtherNames(s);
    assert forall x :: x in rest ==> Known(s, x);
    EmplaceSorts(rest, r);
    EmplaceDistinct(rest, r);
    EmplaceContents(rest, r);
  }

  lemma ExpiredWf(s: State)
    requires Wf(s)
    ensures Wf(OnTimerExpired(s).0)
  {
    var s' := OnTimerExpired(s).0;
    if s.fd.pending > 0 && s.active != [] {
      var e := s.active[0];
      assert Known(s, e);
      RestHasOtherNames(s);
      RenewalWf(s);
      forall x | x in s'.active ensures Known(s', x) {
        if x in s.active[1..] {
          assert Known(s, x);
        }
      }
    }
  }

  lemma ApplyWf(s: State, step: Step)
    requires Wf(s)
    ensures Wf(Apply(s, step))
  {
    match step
    case DoLaunch(timer, timeout, createOk, willing) => LaunchWf(s, timer, timeout, createOk, willing);
    case DoCancel(subscriber, userId) => CancelWf(s, subscriber, userId);
    case Expired => ExpiredWf(s);
    case Tick(nanos) => assert forall x :: x in s.active ==> Known(s, x) && Known(Apply(s, step), x);
    case KernelExpires => assert forall x :: x in s.active ==> Known(s, x) && Known(Apply(s, step), x);
  }

  lemma {:induction false} ExecKeepsWf(s: State, steps: seq<Step>)
    requires Wf(s)
    ensures Wf(Exec(s, steps))
    decreases steps
  {
    if steps != [] {
      ApplyWf(s, steps[0]);
      ExecKeepsWf(Apply(s, steps[0]), steps[1..]);
    }
  }

  /** In every run the map stays in multimap order and no two active timers ever share
      subscriber and user id, also when a subscriber starts itself again from its own call. */
  lemma RunWf(now: int, steps: seq<Step>)
    ensures Wf(Exec(Initial(now), steps))
  {
    InitialWf(now);
    ExecKeepsWf(Initial(now), steps);
  }

  // ---------------------------------------------------------------- the clock

  function Elapsed(steps: seq<Step>): nat {
    if steps == [] then 0 else (if steps[0].Tick? then steps[0].nanos else 0) + Elapsed(steps[1..])
  }

  lemma NextClock(s: State, step: Step)
    ensures Apply(s, step).now == s.now + if step.Tick? then step.nanos else 0
  {
    hide Find, Emplace, UpperBound, EraseKey, SetTimerFd, RemoveAt;
  }

  /** In every run the clock is where the time that passed has put it: no operation moves it. */
  lemma {:induction false} ClockIsElapsed(s: State, steps: seq<Step>)
    ensures Exec(s, steps).now == s.now + Elapsed(steps)
    decreases steps
  {
    if steps != [] {
      NextClock(s, steps[0]);
      hide Apply;
      ClockIsElapsed(Apply(s, steps[0]), steps[1..]);
    }
  }

  // ---------------------------------------------------------------- conservation

  lemma LaunchConserves(s: State, timer: TimerObject, timeout: int, createOk: bool, willing: bool)
    requires Wf(s) && NodesConserved(s) && LaunchesConserved(s)
    ensures var s' := Launch(s, timer, timeout, createOk, willing).0; NodesConserved(s') && LaunchesConserved(s')
  {
    var (s', rc) := Launch(s, timer, timeout, createOk, willing);
    RollbackIsExact(s, timer, timeout, createOk, willing);
    if rc == Normal {
      LaunchAccepted(s, timer, timeout, createOk, willing);
      AcceptedConserves(s, s', NewEntry(s, timer, timeout));
    }
  }

  lemma AcceptedConserves(s: State, s': State, e: Entry)
    requires NodesConserved(s) && LaunchesConserved(s)
    requires s'.active == Emplace(s.active, e) && s'.fired == s.fired && s'.cancelled == s.cancelled
    requires e.id == |s.accepted| && |s'.accepted| == |s.accepted| + 1 && s'.inserted == s.inserted + [e]
    ensures NodesConserved(s') && LaunchesConserved(s')
  {
    EmplaceContents(s.active, e);
    EmplaceIds(s.active, e);
    assert Given(|s'.accepted|) == Given(|s.accepted|) + [|s.accepted|];
  }

  lemma CancelConserves(s: State, subscriber: nat, userId: nat)
    requires NodesConserved(s) && LaunchesConserved(s)
    ensures var s' := Cancel(s, subscriber, userId).0; NodesConserved(s') && LaunchesConserved(s')
  {
    var p := Find(s.active, subscriber, userId);
    if p < |s.active| {
      var s' := Cancel(s, subscriber, userId).0;
      RemoveContents(s.active, p);
      RemoveIds(s.active, p);
      assert Ids(s'.cancelled) == Ids(s.cancelled) + [s.active[p].id];
    }
  }

  lemma FiredConservesNodes(s: State, s': State, renewed: seq<Entry>)
    requires NodesConserved(s) && s.active != []
    requires s'.fired == s.fired + [Firing(s.active[0], s.now)] && s'.cancelled == s.cancelled
    requires s'.inserted == s.inserted + renewed
    requires multiset(s'.active) == multiset(s.active[1..]) + multiset(renewed)
    ensures NodesConserved(s')
  {
    var e := s.active[0];
    assert s.active == [e] + s.active[1..];
    assert Entries(s'.fired) == Entries(s.fired) + [e];
  }

  lemma ExpiredConservesNodes(s: State)
    requires NodesConserved(s)
    ensures NodesConserved(OnTimerExpired(s).0)
  {
    if s.fd.pending > 0 && s.active != [] {
      EmplaceContents(s.active[1..], Renewed(s, s.active[0]));
      FiredConservesNodes(s, OnTimerExpired(s).0, if s.active[0].timer.isPeriodical then [Renewed(s, s.active[0])] else []);
    }
  }

  lemma ExpiredConservesLaunches(s: State)
    requires LaunchesConserved(s)
    ensures LaunchesConserved(OnTimerExpired(s).0)
  {
    if s.fd.pending > 0 && s.active != [] {
      var e := s.active[0];
      assert RemoveAt(s.active, 0) == s.active[1..];
      RemoveIds(s.active, 0);
      EmplaceIds(s.active[1..], Renewed(s, e));
      FinishedSnoc(s.fired, Firing(e, s.now));
    }
  }

  lemma FinishedSnoc(fired: seq<Firing>, f: Firing)
    ensures multiset(Finished(fired + [f]))
         == multiset(Finished(fired)) + if f.entry.timer.isPeriodical then multiset{} else multiset{f.entry.id}
  {
    var all := fired + [f];
    assert all[..|all| - 1] == fired;
  }

  lemma ApplyConserves(s: State, step: Step)
    requires Wf(s) && NodesConserved(s) && LaunchesConserved(s)
    ensures NodesConserved(Apply(s, step)) && LaunchesConserved(Apply(s, step))
  {
    match step
    case DoLaunch(timer, timeout, createOk, willing) => LaunchConserves(s, timer, timeout, createOk, willing);
    case DoCancel(subscriber, userId) => CancelConserves(s, subscriber, userId);
    case Expired => ExpiredConservesNodes(s); ExpiredConservesLaunches(s);
    case Tick(nanos) =>
    case KernelExpires =>
  }

  lemma {:induction false} RunConserves(s: State, steps: seq<Step>)
    requires Wf(s) && NodesConserved(s) && LaunchesConserved(s)
    ensures NodesConserved(Exec(s, steps)) && LaunchesConserved(Exec(s, steps))
    decreases steps
  {
    if steps != [] {
      ApplyWf(s, steps[0]);
      ApplyConserves(s, steps[0]);
      RunConserves(Apply(s, steps[0]), steps[1..]);
    }
  }

  /** In every run, each accepted launch is accounted for exactly once: its timer is active, or
      was cancelled, or has fired and was not renewed. A periodic timer stays active exactly
      once through all its firings. */
  lemma LaunchesAreConserved(now: int, steps: seq<Step>, id: nat)
    ensures var s := Exec(Initial(now), steps);
      multiset(Ids(s.active))[id] + multiset(Ids(s.cancelled))[id] + multiset(Finished(s.fired))[id]
        == if id < |s.accepted| then 1 else 0
  {
    RunConserves(Initial(now), steps);
    var s := Exec(Initial(now), steps);
    GivenOnce(|s.accepted|, id);
  }

  lemma {:induction false} GivenOnce(n: nat, id: nat)
    ensures multiset(Given(n))[id] == if id < n then 1 else 0
  {
    if n > 0 {
      GivenOnce(n - 1, id);
      assert Given(n) == Given(n - 1) + [n - 1];
    }
  }

  // ---------------------------------------------------------------- periodic and one-shot

  lemma {:induction false} FinishedMember(fired: seq<Firing>, i: nat)
    requires i < |fired| && !fired[i].entry.timer.isPeriodical
    ensures fired[i].entry.id in Finished(fired)
    decreases |fired|
  {
    var n := |fired| - 1;
    if i < n {
      FinishedMember(fired[..n], i);
    }
  }

  lemma {:induction false} FinishedTwice(fired: seq<Firing>, i: nat, j: nat)
    requires i < j < |fired|
    requires !fired[i].entry.timer.isPeriodical && !fired[j].entry.timer.isPeriodical
    requires fired[i].entry.id == fired[j].entry.id
    ensures multiset(Finished(fired))[fired[j].entry.id] >= 2
    decreases |fired|
  {
    var n := |fired| - 1;
    assert fired == fired[..n] + [fired[n]];
    FinishedSnoc(fired[..n], fired[n]);
    if j < n {
      FinishedTwice(fired[..n], i, j);
    } else {
      FinishedMember(fired[..n], i);
    }
  }

  /** A timer whose `isPeriodical` is false fires at most once in any run. */
  lemma OneShotFiresOnce(now: int, steps: seq<Step>, i: nat, j: nat)
    requires var s := Exec(Initial(now), steps);
      i < j < |s.fired| && s.fired[i].entry.id == s.fired[j].entry.id
    ensures var s := Exec(Initial(now), steps);
      s.fired[i].entry.timer.isPeriodical || s.fired[j].entry.timer.isPeriodical
  {
    var s := Exec(Initial(now), steps);
    if !s.fired[i].entry.timer.isPeriodical && !s.fired[j].entry.timer.isPeriodical {
      FinishedTwice(s.fired, i, j);
      LaunchesAreConserved(now, steps, s.fired[i].entry.id);
    }
  }

  /** The timer that an expiration fires is active again exactly when it is periodic. */
  lemma RenewedIffPeriodical(s: State)
    requires Wf(s)
    requires OnTimerExpired(s).1.Some?
    ensures var (s', fired) := OnTimerExpired(s);
      var t := fired.value.timer;
      (exists x :: x in s'.active && Names(x, t.subscriber, t.userId)) <==> t.isPeriodical
  {
    var e := s.active[0];
    var rest := s.active[1..];
    var t := e.timer;
    RestHasOtherNames(s);
    if t.isPeriodical {
      EmplaceContents(rest, Renewed(s, e));
      assert Renewed(s, e) in OnTimerExpired(s).0.active;
    }
  }

  /** The periodic timer that the interface promises does not come back: started by
      `startPeriodicalTimer` with one second at clock 1, it fires one second later and no timer
      is left. */
  lemma StartPeriodicalTimerFiresOnlyOnce()
    ensures var (s, rc) := StartPeriodicalTimer(Initial(1), 1000, 7, 1, true, true);
      var late := Apply(s.(now := s.now + Millis(1000)), KernelExpires);
      rc == Normal && OnTimerExpired(late).1.Some? && OnTimerExpired(late).0.active == []
  {
    TimespecIsExact(1 + Millis(1000));
  }
}
