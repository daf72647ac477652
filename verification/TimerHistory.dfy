/** What the timer queue and its flags hold, told from the events that have happened. */
module TimerHistory {
  import History
  import opened TimerHandshake
  import opened TimerList

  // ---- What has happened ----

  /** What is asked of a history: is a timer pending; has the timer thread been told to exit; has
      somebody signalled since it last cleared its flag, or since it last tested its flags. */
  datatype Topic = Pending(t: Timer) | ExitAsked | Woken | Disturbed

  predicate Starts(x: Topic, e: Event) {
    match (x, e)
    case (Pending(t), Add(_, added)) => added == t
    case (ExitAsked, SetExit(_, flag, _)) => flag
    case (Woken, Signal(_)) => true
    case (Disturbed, Signal(_)) => true
    case _ => false
  }

  predicate Ends(x: Topic, e: Event) {
    match (x, e)
    case (Pending(t), Drop(_, dropped)) => dropped == t
    case (Pending(t), Process(now)) => t.end < now
    case (ExitAsked, SetExit(_, flag, _)) => !flag
    case (Woken, AllowSleep) => true
    case (Disturbed, TestFlags(_)) => true
    case _ => false
  }

  /** Something that starts it has happened, and nothing that ends it since. */
  ghost predicate Since(es: seq<Event>, x: Topic) {
    History.Since(es, x, Starts, Ends)
  }

  lemma SinceGrows(front: seq<Event>, e: Event, x: Topic)
    ensures Since(front + [e], x) <==> Starts(x, e) || (Since(front, x) && !Ends(x, e))
  {
    History.SinceGrows(front, e, x, Starts, Ends);
  }

  // ---- The list ----

  lemma {:induction false} InsertMembers(q: seq<Timer>, t: Timer)
    ensures forall x :: x in Insert(q, t) <==> x in q || x == t
  {
    if q == [] || t.end < q[0].end {
    } else {
      InsertMembers(q[1..], t);
    }
  }

  lemma {:induction false} UnexpiredMembers(q: seq<Timer>, now: int)
    requires Sorted(q)
    ensures forall x :: x in Unexpired(q, now) <==> x in q && !(x.end < now)
  {
    if q == [] {
    } else if q[0].end < now {
      SortedTail(q);
      UnexpiredMembers(q[1..], now);
    } else {
      SortedTail(q);
    }
  }

  lemma StepMembers(s: State, e: Event, t: Timer)
    requires Inv(s) && Enabled(s, e)
    ensures t in Apply(s, e).timers <==> Starts(Pending(t), e) || (t in s.timers && !Ends(Pending(t), e))
  {
    match e
    case Add(_, x) => InsertMembers(s.timers, x);
    case Drop(_, x) => RemoveMembers(s.timers, x);
    case Process(now) => UnexpiredMembers(s.timers, now);
    case _ =>
  }

  // On every run the list holds a timer if and only if it was added and since then neither
  // dropped nor met by a processing of the queue after its end.
  lemma {:induction false} ListedExactly(es: seq<Event>, t: Timer)
    requires IsRun(es)
    ensures t in Exec(es).timers <==> Since(es, Pending(t))
  {
    if es == [] {
    } else {
      var front, e := es[..|es| - 1], es[|es| - 1];
      ListedExactly(front, t);
      RunKeepsInv(front);
      StepMembers(Exec(front), e, t);
      assert es == front + [e];
      SinceGrows(front, e, Pending(t));
    }
  }

  /** The pending timers that end at time d, in the order in which they were added. */
  function Waiting(es: seq<Event>, d: int): seq<Timer> {
    if es == [] then [] else StillWaiting(Waiting(es[..|es| - 1], d), es[|es| - 1], d)
  }

  function StillWaiting(w: seq<Timer>, e: Event, d: int): seq<Timer> {
    match e
    case Add(_, t) => if t.end == d then w + [t] else w
    case Drop(_, t) => Without(w, t)
    case Process(now) => if d < now then [] else w
    case _ => w
  }

  function Without(w: seq<Timer>, t: Timer): seq<Timer> {
    if w == [] then [] else Without(w[..|w| - 1], t) + if w[|w| - 1] == t then [] else [w[|w| - 1]]
  }

  lemma {:induction false} WithoutIsRemoved(w: seq<Timer>, t: Timer)
    ensures Remove(w, t) == Without(w, t)
  {
    if w == [] {
    } else {
      WithoutIsRemoved(w[..|w| - 1], t);
      RemoveLast(w[..|w| - 1], w[|w| - 1], t);
      assert w == w[..|w| - 1] + [w[|w| - 1]];
    }
  }

  lemma {:induction false} RemoveLast(w: seq<Timer>, x: Timer, t: Timer)
    ensures Remove(w + [x], t) == Remove(w, t) + if x == t then [] else [x]
  {
    if w == [] {
    } else {
      assert (w + [x])[1..] == w[1..] + [x];
      RemoveLast(w[1..], x, t);
    }
  }

  lemma SortedTail(q: seq<Timer>)
    requires Sorted(q) && q != []
    ensures Sorted(q[1..]) && forall i :: 0 <= i < |q| ==> q[0].end <= q[i].end
  {
  }

  lemma {:induction false} UnexpiredEnding(q: seq<Timer>, now: int, d: int)
    requires Sorted(q)
    ensures EndingAt(Unexpired(q, now), d) == if d < now then [] else EndingAt(q, d)
  {
    if q == [] {
    } else if q[0].end < now {
      SortedTail(q);
      UnexpiredEnding(q[1..], now, d);
    } else if d < now {
      SortedTail(q);
      NoneEndingAt(q, d);
    }
  }

  lemma StepEnding(s: State, e: Event, d: int)
    requires Inv(s) && Enabled(s, e)
    ensures EndingAt(Apply(s, e).timers, d) == StillWaiting(EndingAt(s.timers, d), e, d)
  {
    match e
    case Add(_, t) => InsertIsFifo(s.timers, t, d);
    case Drop(_, t) =>
      RemoveIsStable(s.timers, t, d);
      WithoutIsRemoved(EndingAt(s.timers, d), t);
    case Process(now) => UnexpiredEnding(s.timers, now, d);
    case _ =>
  }

  // On every run the list is in order of end time, and those that end together stand in the
  // order in which they were added, each as often as it was added since it last left.
  lemma {:induction false} ListIsInOrder(es: seq<Event>, d: int)
    requires IsRun(es)
    ensures Sorted(Exec(es).timers) && EndingAt(Exec(es).timers, d) == Waiting(es, d)
  {
    RunKeepsInv(es);
    if es == [] {
    } else {
      var front := es[..|es| - 1];
      ListIsInOrder(front, d);
      RunKeepsInv(front);
      StepEnding(Exec(front), es[|es| - 1], d);
    }
  }

  // ---- The flags ----

  ghost predicate FlagsSay(s: State, es: seq<Event>) {
    && (s.shouldExit <==> Since(es, ExitAsked))
    && (s.wakeUp <==> Since(es, Woken))
    && (s.pc.Sleeping? ==> (s.pc.signalled <==> Since(es, Disturbed)))
  }

  lemma ExitStep(s: State, e: Event)
    requires Enabled(s, e)
    ensures Apply(s, e).shouldExit == if e.SetExit? then e.flag else s.shouldExit
    ensures Apply(s, e).wakeUp == (e.Signal? || (s.wakeUp && !e.AllowSleep?))
  {
  }

  lemma SleepStep(s: State, e: Event)
    requires Enabled(s, e) && Apply(s, e).pc.Sleeping?
    ensures Apply(s, e).pc.signalled == (e.Signal? || (!e.TestFlags? && s.pc.Sleeping? && s.pc.signalled))
    ensures !e.TestFlags? ==> s.pc.Sleeping?
  {
  }

  lemma FlagsGrow(front: seq<Event>, e: Event)
    ensures var es := front + [e];
      && (Since(es, ExitAsked) <==> if e.SetExit? then e.flag else Since(front, ExitAsked))
      && (Since(es, Woken) <==> e.Signal? || (Since(front, Woken) && !e.AllowSleep?))
      && (Since(es, Disturbed) <==> e.Signal? || (Since(front, Disturbed) && !e.TestFlags?))
  {
    SinceGrows(front, e, ExitAsked);
    SinceGrows(front, e, Woken);
    SinceGrows(front, e, Disturbed);
  }

  // On every run: exit is asked for if and only if it was and has not been taken back; the flag
  // is up if and only if somebody has signalled since it was last cleared; and a sleeper is
  // signalled if and only if somebody has signalled since it went to sleep.
  lemma {:induction false} FlagsAreHistory(es: seq<Event>)
    requires IsRun(es)
    ensures FlagsSay(Exec(es), es)
  {
    if es == [] {
    } else {
      var front, e := es[..|es| - 1], es[|es| - 1];
      FlagsAreHistory(front);
      FlagsGrow(front, e);
      assert es == front + [e];
      ExitStep(Exec(front), e);
      if Exec(es).pc.Sleeping? {
        SleepStep(Exec(front), e);
      }
    }
  }

  // ---- The timer thread ----

  predicate IsOwn(e: Event) {
    !e.Add? && !e.Drop? && !e.SetExit? && !e.CallWake? && !e.Signal?
  }

  /** What the timer thread does next after e. */
  predicate MayFollow(e: Event, f: Event) {
    match e
    case TestExit => f.LockQueue?
    case LockQueue => f.AllowSleep?
    case AllowSleep => f.ReadDeadline?
    case ReadDeadline => f.UnlockQueue?
    case UnlockQueue => f.TestFlags?
    case TestFlags(_) => f.WakeUp? || f.Process?
    case WakeUp => f.Process?
    case Process(_) => f.TestExit?
    case _ => false
  }

  /** Nothing of the timer thread's own happens behind place k. */
  ghost predicate LastOwn(es: seq<Event>, k: nat) {
    k < |es| && IsOwn(es[k]) && forall j :: k < j < |es| ==> !IsOwn(es[j])
  }

  /** The earliest end time of a pending timer, or the end of time when there is none. */
  ghost predicate IsFirstEnd(d: int, es: seq<Event>) {
    && (forall t :: Since(es, Pending(t)) ==> d <= t.end)
    && (d == MAX_TIME || exists t :: Since(es, Pending(t)) && t.end == d)
  }

  lemma CallersLeavePc(s: State, e: Event)
    requires Enabled(s, e) && !IsOwn(e)
    ensures var pc := Apply(s, e).pc;
      pc == s.pc || (pc.Sleeping? && s.pc.Sleeping? && pc.deadline == s.pc.deadline)
  {
  }

  // Where the timer thread is depends on the last thing it did.
  lemma {:induction false} PcSince(es: seq<Event>, k: nat)
    requires IsRun(es) && LastOwn(es, k)
    ensures IsRun(es[..k + 1])
    ensures var was, pc := Exec(es[..k + 1]).pc, Exec(es).pc;
      pc == was || (pc.Sleeping? && was.Sleeping? && pc.deadline == was.deadline)
    decreases |es|
  {
    if k == |es| - 1 {
      assert es[..k + 1] == es;
    } else {
      var front := es[..|es| - 1];
      assert front[..k + 1] == es[..k + 1];
      PcSince(front, k);
      CallersLeavePc(Exec(front), es[|es| - 1]);
    }
  }

  lemma RunUpTo(es: seq<Event>, k: nat)
    requires IsRun(es) && k < |es|
    ensures IsRun(es[..k]) && IsRun(es[..k + 1]) && Enabled(Exec(es[..k]), es[k])
    ensures Exec(es[..k + 1]) == Apply(Exec(es[..k]), es[k])
    decreases |es|
  {
    var front := es[..|es| - 1];
    if k == |es| - 1 {
      assert es[..k + 1] == es;
    } else {
      RunUpTo(front, k);
      assert front[..k] == es[..k] && front[..k + 1] == es[..k + 1];
    }
  }

  // The timer thread goes round its loop in order: between two tests of the exit flag it locks
  // the queue, allows itself to sleep, reads the deadline, unlocks, tests its flags, perhaps
  // sleeps, and processes the queue.
  lemma {:induction false} LoopIsInOrder(es: seq<Event>, j: nat, k: nat)
    requires IsRun(es) && k < |es| && LastOwn(es[..k], j) && IsOwn(es[k])
    ensures MayFollow(es[j], es[k])
  {
    RunUpTo(es, k);
    var front := es[..k];
    PcSince(front, j);
    RunUpTo(front, j);
  }

  // The timer thread sleeps if and only if, when it tested its flags, no task had run, nobody
  // had signalled since it cleared its flag, and it had not been told to exit.
  lemma {:induction false} SleepsExactly(es: seq<Event>, k: nat)
    requires IsRun(es) && LastOwn(es, k) && es[k].TestFlags?
    ensures Exec(es).pc.Sleeping? <==>
      !es[k].tasksRan && !Since(es[..k], Woken) && !Since(es[..k], ExitAsked)
    ensures Exec(es).pc.Sleeping? || Exec(es).pc.Processing?
  {
    PcSince(es, k);
    RunUpTo(es, k);
    FlagsAreHistory(es[..k]);
  }

  // The loop ends if and only if exit was asked for when the timer thread tested for it.
  lemma {:induction false} ExitsExactly(es: seq<Event>, k: nat)
    requires IsRun(es) && LastOwn(es, k)
    ensures Exec(es).pc.Exited? <==> es[k].TestExit? && Since(es[..k], ExitAsked)
  {
    PcSince(es, k);
    RunUpTo(es, k);
    FlagsAreHistory(es[..k]);
  }

  lemma ReadsFirstEnd(es: seq<Event>, s: State)
    requires IsRun(es) && s == Exec(es)
    ensures IsFirstEnd(if s.timers == [] then MAX_TIME else s.timers[0].end, es)
  {
    RunKeepsInv(es);
    forall t ensures t in s.timers <==> Since(es, Pending(t)) {
      ListedExactly(es, t);
    }
    if s.timers != [] {
      assert s.timers[0] in s.timers;
    }
  }

  predicate HasDeadline(pc: TimerPc) {
    pc.Unlocking? || pc.Testing? || pc.Sleeping?
  }

  lemma DeadlineStays(s: State, e: Event)
    requires Enabled(s, e) && HasDeadline(Apply(s, e).pc) && !e.ReadDeadline?
    ensures HasDeadline(s.pc) && Apply(s, e).pc.deadline == s.pc.deadline
  {
  }

  // Whenever it has a deadline, asleep or about to be, that is the earliest end time there was
  // when the timer thread last read the list.
  lemma {:induction false} DeadlineIsFirstEnd(es: seq<Event>, k: nat)
    requires IsRun(es) && HasDeadline(Exec(es).pc)
    requires k < |es| && es[k].ReadDeadline? && forall j :: k < j < |es| ==> !es[j].ReadDeadline?
    ensures IsFirstEnd(Exec(es).pc.deadline, es[..k])
    decreases |es|
  {
    var front, e := es[..|es| - 1], es[|es| - 1];
    if k == |es| - 1 {
      ReadsFirstEnd(front, Exec(front));
    } else {
      DeadlineStays(Exec(front), e);
      DeadlineIsFirstEnd(front, k);
      assert front[..k] == es[..k];
    }
  }

  // ---- Who has to wake it ----

  /** Caller c begins something that always has to wake the timer thread: it drops a timer, asks
      for exit or calls wake. */
  predicate AlwaysAlarms(e: Event, c: ThreadId, underQueue: bool) {
    match e
    case Drop(x, _) => x == c && underQueue
    case SetExit(x, flag, under) => x == c && flag && under == underQueue
    case CallWake(x) => x == c && !underQueue
    case _ => false
  }

  /** So does adding a timer that ends before all that are pending. */
  ghost predicate AlarmsAt(es: seq<Event>, k: nat, c: ThreadId, underQueue: bool)
    requires k < |es|
  {
    if es[k].Add? then
      es[k].c == c && underQueue && forall y :: Since(es[..k], Pending(y)) ==> es[k].t.end < y.end
    else AlwaysAlarms(es[k], c, underQueue)
  }

  ghost predicate OwesSignal(es: seq<Event>, c: ThreadId, underQueue: bool) {
    exists k :: 0 <= k < |es| && AlarmsAt(es, k, c, underQueue) && forall j :: k < j < |es| ==> es[j] != Signal(c)
  }

  lemma AddAlarms(es: seq<Event>, t: Timer)
    requires IsRun(es)
    ensures IsNewAlarm(Exec(es).timers, t) <==> forall y :: Since(es, Pending(y)) ==> t.end < y.end
  {
    var q := Exec(es).timers;
    RunKeepsInv(es);
    forall y ensures y in q <==> Since(es, Pending(y)) {
      ListedExactly(es, y);
    }
    if q != [] {
      assert q[0] in q;
    }
  }

  lemma OwesGrows(front: seq<Event>, e: Event, c: ThreadId, under: bool)
    ensures var es := front + [e];
      OwesSignal(es, c, under) <==> AlarmsAt(es, |front|, c, under) || (OwesSignal(front, c, under) && e != Signal(c))
  {
    var es := front + [e];
    assert es[|front|] == e && forall j :: 0 <= j < |front| ==> front[j] == es[j];
    assert forall k :: 0 <= k < |front| ==> front[..k] == es[..k];
    if OwesSignal(front, c, under) && e != Signal(c) {
      var k :|
        0 <= k < |front| && AlarmsAt(front, k, c, under) && forall j :: k < j < |front| ==> front[j] != Signal(c);
      assert AlarmsAt(es, k, c, under);
    }
    if OwesSignal(es, c, under) && !AlarmsAt(es, |front|, c, under) {
      var k :| 0 <= k < |es| && AlarmsAt(es, k, c, under) && forall j :: k < j < |es| ==> es[j] != Signal(c);
      assert AlarmsAt(front, k, c, under);
    }
  }

  lemma AddBegins(es: seq<Event>, c: ThreadId, under: bool)
    requires IsRun(es) && es != [] && es[|es| - 1].Add?
    ensures var front := es[..|es| - 1];
      Exec(es).Caller(c) == MustWake(under) <==>
      AlarmsAt(es, |front|, c, under) || Exec(front).Caller(c) == MustWake(under)
  {
    AddAlarms(es[..|es| - 1], es[|es| - 1].t);
  }

  lemma OtherBegins(s: State, e: Event, c: ThreadId, under: bool)
    requires Enabled(s, e) && !e.Add?
    ensures Apply(s, e).Caller(c) == MustWake(under) <==>
      AlwaysAlarms(e, c, under) || (s.Caller(c) == MustWake(under) && e != Signal(c))
  {
  }

  lemma CallerStep(es: seq<Event>, c: ThreadId, under: bool)
    requires IsRun(es) && es != []
    ensures var front := es[..|es| - 1];
      Exec(es).Caller(c) == MustWake(under) <==>
      AlarmsAt(es, |front|, c, under) || (Exec(front).Caller(c) == MustWake(under) && es[|front|] != Signal(c))
  {
    if es[|es| - 1].Add? {
      AddBegins(es, c, under);
    } else {
      OtherBegins(Exec(es[..|es| - 1]), es[|es| - 1], c, under);
    }
  }

  // On every run a caller is about to wake the timer thread if and only if it has begun
  // something that has to and has not signalled since; and it keeps the queue lock for that if
  // and only if it had it.
  lemma {:induction false} CallersOweSignals(es: seq<Event>, c: ThreadId, under: bool)
    requires IsRun(es)
    ensures Exec(es).Caller(c) == MustWake(under) <==> OwesSignal(es, c, under)
  {
    if es == [] {
    } else {
      var front, e := es[..|es| - 1], es[|es| - 1];
      CallersOweSignals(front, c, under);
      CallerStep(es, c, under);
      assert es == front + [e];
      OwesGrows(front, e, c, under);
    }
  }

  // ---- Nobody is stuck ----

  /** Somebody inside the timer thread's loop, or inside a call, can go on. */
  ghost predicate CanGoOn(s: State) {
    exists e :: Enabled(s, e) && (IsOwn(e) || e.Signal?)
  }

  function Next(pc: TimerPc): Event {
    match pc
    case LoopTest => TestExit
    case Entering => LockQueue
    case Allowing => AllowSleep
    case Reading => ReadDeadline
    case Unlocking(_) => UnlockQueue
    case Testing(_) => TestFlags(false)
    case Sleeping(_, _) => WakeUp
    case _ => Process(0)
  }

  lemma TimerThreadGoesOn(s: State)
    requires !s.pc.Exited? && (s.queue.Free? || (!s.pc.Entering? && !s.pc.Processing?))
    ensures CanGoOn(s)
  {
    assert Enabled(s, Next(s.pc));
  }

  // The two locks never lock each other out. On every run, as long as the timer thread has not
  // left its loop or some caller has yet to signal, one of them can go on; such a caller can
  // signal, or the timer thread is about to let it; and between calls any timer can be added or
  // dropped once the queue lock is free.
  lemma {:induction false} NobodyIsStuck(es: seq<Event>, c: ThreadId, t: Timer)
    requires IsRun(es)
    ensures !Exec(es).pc.Exited? || Exec(es).Caller(c).MustWake? ==> CanGoOn(Exec(es))
    ensures Exec(es).Caller(c).MustWake? ==>
      Enabled(Exec(es), Signal(c)) || Enabled(Exec(es), UnlockQueue) || Enabled(Exec(es), TestFlags(false))
    ensures Exec(es).Caller(c).Idle? && Exec(es).queue.Free? ==>
      Enabled(Exec(es), Add(c, t)) && Enabled(Exec(es), Drop(c, t))
  {
    var s := Exec(es);
    RunKeepsInv(es);
    if s.queue.CallerHolds? && s.MutexFree() {
      assert Enabled(s, Signal(s.queue.who));
    } else if s.Caller(c).MustWake? && s.MutexFree() {
      assert Enabled(s, Signal(c));
    } else if s.pc.Unlocking? {
      assert Enabled(s, UnlockQueue);
    } else if s.pc.Testing? {
      assert Enabled(s, TestFlags(false));
    } else if s.pc.Exited? {
    } else {
      TimerThreadGoesOn(s);
    }
  }
}
