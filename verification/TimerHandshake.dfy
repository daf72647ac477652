/** The two-lock handshake between the timer thread and the threads that add and remove
    timers, as a state machine with one event for each section run under a lock. The queue
    lock orders the timer list; the inner mutex guards the two flags and the condition the
    timer thread sleeps on. Events of different threads interleave in any order. */
module TimerHandshake {
  import opened TimerList

  type ThreadId = nat

  /** A caller between calls, or inside one that still has to wake the timer thread. */
  datatype CallerPc = Idle | MustWake(holdsQueue: bool)

  datatype TimerPc =
    | LoopTest | Entering | Allowing | Reading
    | Unlocking(deadline: int) | Testing(deadline: int)
    | Sleeping(deadline: int, signalled: bool)
    | Processing | Exited

  datatype QueueLock = Free | TimerHolds | CallerHolds(who: ThreadId)

  datatype State = State(
    timers: seq<Timer>, wakeUp: bool, shouldExit: bool,
    queue: QueueLock, pc: TimerPc, callers: map<ThreadId, CallerPc>)
  {
    function Caller(c: ThreadId): CallerPc {
      if c in callers then callers[c] else Idle
    }

    // The timer thread holds the inner mutex across steps only here; every other use of the
    // mutex is a single event.
    predicate MutexFree() {
      !pc.Unlocking? && !pc.Testing?
    }
  }

  const MAX_TIME := 2147483647000000

  datatype Event =
    | TestExit | LockQueue | AllowSleep | ReadDeadline | UnlockQueue
    | TestFlags(tasksRan: bool)
    | WakeUp
    | Process(now: int)
    | Add(c: ThreadId, t: Timer)
    | Drop(c: ThreadId, t: Timer)
    | SetExit(c: ThreadId, flag: bool, underQueue: bool)
    | CallWake(c: ThreadId)
    | Signal(c: ThreadId)

  predicate Enabled(s: State, e: Event) {
    match e
    case TestExit => s.pc.LoopTest?
    case LockQueue => s.pc.Entering? && s.queue.Free?
    case AllowSleep => s.pc.Allowing?
    case ReadDeadline => s.pc.Reading?
    case UnlockQueue => s.pc.Unlocking?
    case TestFlags(_) => s.pc.Testing?
    case WakeUp => s.pc.Sleeping?
    case Process(_) => s.pc.Processing? && s.queue.Free?
    case Add(c, _) => s.Caller(c).Idle? && s.queue.Free?
    case Drop(c, _) => s.Caller(c).Idle? && s.queue.Free?
    case SetExit(c, _, under) => s.Caller(c).Idle? && s.MutexFree() && (under ==> s.queue.Free?)
    case CallWake(c) => s.Caller(c).Idle?
    case Signal(c) => s.Caller(c).MustWake? && s.MutexFree()
  }

  /** c goes on to wake the timer thread, keeping the queue lock when it has it. */
  function Alarm(s: State, c: ThreadId, underQueue: bool): State {
    s.(callers := s.callers[c := MustWake(underQueue)],
       queue := if underQueue then CallerHolds(c) else s.queue)
  }

  function Apply(s: State, e: Event): State
    requires Enabled(s, e)
  {
    match e
    case TestExit => s.(pc := if s.shouldExit then Exited else Entering)
    case LockQueue => s.(pc := Allowing, queue := TimerHolds)
    case AllowSleep => s.(pc := Reading, wakeUp := false)
    case ReadDeadline => s.(pc := Unlocking(if s.timers == [] then MAX_TIME else s.timers[0].end))
    case UnlockQueue => s.(pc := Testing(s.pc.deadline), queue := Free)
    case TestFlags(tasksRan) =>
      s.(pc := if s.wakeUp || s.shouldExit || tasksRan then Processing else Sleeping(s.pc.deadline, false))
    case WakeUp => s.(pc := Processing)
    case Process(now) => s.(pc := LoopTest, timers := Unexpired(s.timers, now))
    case Add(c, t) =>
      var s' := s.(timers := Insert(s.timers, t));
      if IsNewAlarm(s.timers, t) then Alarm(s', c, true) else s'
    case Drop(c, t) => Alarm(s.(timers := Remove(s.timers, t)), c, true)
    case SetExit(c, flag, under) =>
      var s' := s.(shouldExit := flag);
      if flag then Alarm(s', c, under) else s'
    case CallWake(c) => Alarm(s, c, false)
    case Signal(c) =>
      s.(wakeUp := true,
         pc := if s.pc.Sleeping? then s.pc.(signalled := true) else s.pc,
         queue := if s.Caller(c).holdsQueue then Free else s.queue,
         callers := s.callers[c := Idle])
  }

  const START := State([], false, false, Free, LoopTest, map[])

  predicate IsRun(es: seq<Event>)
    decreases |es|, 0
  {
    es == [] || (IsRun(es[..|es| - 1]) && Enabled(Exec(es[..|es| - 1]), es[|es| - 1]))
  }

  function Exec(es: seq<Event>): State
    requires IsRun(es)
    decreases |es|, 1
  {
    if es == [] then START else Apply(Exec(es[..|es| - 1]), es[|es| - 1])
  }

  /** The deadline is no later than any queued end time. */
  ghost predicate Covers(d: int, q: seq<Timer>) {
    forall i :: 0 <= i < |q| ==> d <= q[i].end
  }

  ghost predicate SomeoneMustWake(s: State) {
    exists c :: s.Caller(c).MustWake?
  }

  ghost predicate Inv(s: State) {
    && Sorted(s.timers)
    && (s.queue.TimerHolds? <==> s.pc.Allowing? || s.pc.Reading? || s.pc.Unlocking?)
    && (forall c :: s.queue == CallerHolds(c) <==> s.Caller(c) == MustWake(true))
    && (s.pc.Unlocking? ==> Covers(s.pc.deadline, s.timers))
    && (s.pc.Testing? && !s.queue.CallerHolds? ==> Covers(s.pc.deadline, s.timers))
    && (s.pc.Sleeping? && !s.pc.signalled && !s.queue.CallerHolds? ==> Covers(s.pc.deadline, s.timers))
    && (s.pc.Sleeping? && !s.pc.signalled && s.shouldExit ==> SomeoneMustWake(s))
  }

  lemma TimerStepKeepsInv(s: State, e: Event)
    requires Inv(s) && Enabled(s, e)
    requires !e.Add? && !e.Drop? && !e.SetExit? && !e.CallWake? && !e.Signal?
    ensures Inv(Apply(s, e))
  {
    var s' := Apply(s, e);
    assert forall c :: s'.Caller(c) == s.Caller(c);
    if e.Process? {
      UnexpiredKeepsSorted(s.timers, e.now);
    }
  }

  lemma InsertKeepsCover(d: int, q: seq<Timer>, t: Timer)
    requires Sorted(q) && Covers(d, q) && !IsNewAlarm(q, t)
    ensures Covers(d, Insert(q, t))
  {
    InsertKeepsSorted(q, t);
    assert d <= q[0].end;
  }

  // A caller that starts to alarm keeps every obligation to wake that was already there.
  lemma AlarmKeepsWakers(s: State, c: ThreadId, under: bool)
    requires s.Caller(c).Idle?
    ensures SomeoneMustWake(Alarm(s, c, under))
    ensures forall x :: Alarm(s, c, under).Caller(x) == if x == c then MustWake(under) else s.Caller(x)
  {
    assert Alarm(s, c, under).Caller(c).MustWake?;
  }

  lemma AddKeepsInv(s: State, c: ThreadId, t: Timer)
    requires Inv(s) && Enabled(s, Add(c, t))
    ensures Inv(Apply(s, Add(c, t)))
  {
    InsertKeepsSorted(s.timers, t);
    var s1 := s.(timers := Insert(s.timers, t));
    assert forall x :: s1.Caller(x) == s.Caller(x);
    if IsNewAlarm(s.timers, t) {
      AlarmKeepsWakers(s1, c, true);
    } else {
      if (s.pc.Testing? || s.pc.Sleeping?) && Covers(s.pc.deadline, s.timers) {
        InsertKeepsCover(s.pc.deadline, s.timers, t);
      }
      if SomeoneMustWake(s) {
        var w :| s.Caller(w).MustWake?;
        assert s1.Caller(w).MustWake?;
      }
    }
  }

  lemma DropKeepsInv(s: State, c: ThreadId, t: Timer)
    requires Inv(s) && Enabled(s, Drop(c, t))
    ensures Inv(Apply(s, Drop(c, t)))
  {
    RemoveKeepsSorted(s.timers, t);
    var s1 := s.(timers := Remove(s.timers, t));
    assert forall x :: s1.Caller(x) == s.Caller(x);
    AlarmKeepsWakers(s1, c, true);
  }

  lemma FlagStepKeepsInv(s: State, e: Event)
    requires Inv(s) && Enabled(s, e) && (e.SetExit? || e.CallWake?)
    ensures Inv(Apply(s, e))
  {
    var under := e.SetExit? && e.underQueue;
    var s1 := if e.SetExit? then s.(shouldExit := e.flag) else s;
    assert forall x :: s1.Caller(x) == s.Caller(x);
    AlarmKeepsWakers(s1, e.c, under);
  }

  lemma SignalKeepsInv(s: State, c: ThreadId)
    requires Inv(s) && Enabled(s, Signal(c))
    ensures Inv(Apply(s, Signal(c)))
  {
    var s' := Apply(s, Signal(c));
    assert forall x :: s'.Caller(x) == if x == c then Idle else s.Caller(x);
  }

  lemma {:induction false} RunKeepsInv(es: seq<Event>)
    requires IsRun(es)
    ensures Inv(Exec(es))
  {
    if es == [] {
    } else {
      var front, e := es[..|es| - 1], es[|es| - 1];
      RunKeepsInv(front);
      var s := Exec(front);
      match e
      case Signal(c) => SignalKeepsInv(s, c);
      case Add(c, t) => AddKeepsInv(s, c, t);
      case Drop(c, t) => DropKeepsInv(s, c, t);
      case SetExit(_, _, _) => FlagStepKeepsInv(s, e);
      case CallWake(_) => FlagStepKeepsInv(s, e);
      case _ => TimerStepKeepsInv(s, e);
    }
  }

  // No timer is missed. In every reachable state in which the timer thread sleeps with no
  // signal on its way, either its deadline covers every queued timer and nobody has asked it
  // to exit, or some caller is still inside a call that will signal it.
  lemma SleepIsCovered(es: seq<Event>)
    requires IsRun(es)
    ensures var s := Exec(es);
      s.pc.Sleeping? && !s.pc.signalled ==>
        SomeoneMustWake(s) || (Covers(s.pc.deadline, s.timers) && !s.shouldExit)
  {
    RunKeepsInv(es);
    var s := Exec(es);
    if s.queue.CallerHolds? {
      assert s.Caller(s.queue.who).MustWake?;
    }
  }

  lemma NoMissedTimer(es: seq<Event>)
    requires IsRun(es)
    ensures var s := Exec(es);
      s.pc.Sleeping? && !s.pc.signalled && (forall c :: s.Caller(c).Idle?) ==>
        !s.shouldExit && forall t :: t in s.timers ==> s.pc.deadline <= t.end
  {
    SleepIsCovered(es);
  }

  // A wake is never lost: from the moment any caller signals until the timer thread next
  // clears the flag, the timer thread is not in an unsignalled sleep.
  lemma {:induction false} WakeIsNotLost(es: seq<Event>, k: nat)
    requires IsRun(es) && k < |es| && es[k].Signal?
    requires forall i :: k < i < |es| ==> !es[i].AllowSleep?
    ensures Exec(es).wakeUp && (Exec(es).pc.Sleeping? ==> Exec(es).pc.signalled)
    decreases |es|
  {
    var n := |es| - 1;
    if k < n {
      assert es[n] == es[..n + 1][n];
      WakeIsNotLost(es[..n], k);
    }
  }

  // The queue lock is held by at most one side, and the callers inside the locked part of a
  // call are exactly its holder.
  lemma QueueLockIsExclusive(es: seq<Event>, a: ThreadId, b: ThreadId)
    requires IsRun(es)
    requires Exec(es).Caller(a) == MustWake(true) && Exec(es).Caller(b) == MustWake(true)
    ensures a == b && !Exec(es).pc.Allowing? && !Exec(es).pc.Reading? && !Exec(es).pc.Unlocking?
  {
    RunKeepsInv(es);
  }
}
