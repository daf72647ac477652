/** The barrier that runs a callback on every thread and waits for all of them, while threads
    start and exit around it. One event for each section run under a lock: the scan holds the
    thread-statistics lock from its first step to its last, everything else is one step.

    A thread ends in one of two ways. Returning from its start routine, it takes its own monitor
    for good and clears its own entry; calling exit, it announces its end and then takes its
    monitor. Either way it leaves the list with its monitor held, and only then drains its
    tasks. A callback that ends on a thread without its entry goes through a null thread, and one
    inside which its thread calls exit never ends at all. */
module Barrier {
  import opened Common
  import opened Distinct

  type ThreadId = nat
  type CallId = nat

  /** What the scan is at: between two threads, or with one thread found not done, or with the
      callback queued on it and the signal still to be sent. */
  datatype Stage = Between | Checked(t: ThreadId) | Queued(t: ThreadId)

  datatype Phase = Fresh | Scanning(toVisit: set<ThreadId>, at: Stage) | AwaitingAll | Returned

  /** One call: expected counts the threads it must wait for, done is what the callback has
      counted, enqueued and ran are the threads it was queued on and has finished running on. */
  datatype Call = Call(phase: Phase, expected: nat, done: nat, enqueued: set<ThreadId>, ran: set<ThreadId>)

  datatype StatLock = Free | HeldBy(call: CallId)

  /** How often c occurs in ts. */
  ghost function Times(ts: seq<CallId>, c: CallId): nat {
    if ts == [] then 0 else Times(ts[..|ts| - 1], c) + if ts[|ts| - 1] == c then 1 else 0
  }

  /** holding are the ending threads that have taken their own monitors, cleared those among
      them without an entry of their own; crashed is the thread that went through a null one.
      inside says how many callbacks a thread was inside when it called exit. */
  datatype State = State(
    doAll: set<ThreadId>,
    lock: StatLock, threadList: set<ThreadId>, seen: set<ThreadId>,
    isDone: set<ThreadId>, exiting: set<ThreadId>, cleared: set<ThreadId>, holding: set<ThreadId>,
    cleanedUp: set<ThreadId>, crashed: Option<ThreadId>, inside: map<ThreadId, nat>,
    waitingTasks: map<ThreadId, seq<CallId>>, running: map<ThreadId, seq<CallId>>,
    calls: map<CallId, Call>)
  {
    function Tasks(t: ThreadId): seq<CallId> {
      if t in waitingTasks then waitingTasks[t] else []
    }

    /** The callbacks t is inside, innermost last: a callback that blocks may run others. */
    function Running(t: ThreadId): seq<CallId> {
      if t in running then running[t] else []
    }

    function Inside(t: ThreadId): nat {
      if t in inside then inside[t] else 0
    }

    /** The callbacks that t left for good by calling exit inside them. */
    function Abandoned(t: ThreadId): seq<CallId> {
      if Inside(t) <= |Running(t)| then Running(t)[..Inside(t)] else Running(t)
    }

    function CallOf(c: CallId): Call {
      if c in calls then calls[c] else Call(Fresh, 0, 0, {}, {})
    }

    /** How often c is pending or running on t. */
    ghost function Owed(t: ThreadId, c: CallId): nat {
      Times(Tasks(t), c) + Times(Running(t), c)
    }
  }

  datatype Event =
    | Spawn(t: ThreadId)
    | BeginScan(c: CallId)
    | CheckDone(c: CallId, t: ThreadId)
    | QueueCallBack(c: CallId)
    | SignalThread(c: CallId)
    | EndScan(c: CallId)
    | PopTask(t: ThreadId)
    | FinishTask(t: ThreadId)
    | ClearSelf(t: ThreadId)
    | CallExit(t: ThreadId)
    | EnterCleanup(t: ThreadId)
    | LeaveList(t: ThreadId)
    | SetDone(t: ThreadId)
    | EndCleanup(t: ThreadId)
    | Return(c: CallId)

  predicate Enabled(s: State, e: Event) {
    s.crashed.None? &&
    match e
    case Spawn(t) => s.lock.Free? && t !in s.seen
    case BeginScan(c) => s.lock.Free? && s.CallOf(c).phase.Fresh?
    case CheckDone(c, t) =>
      var p := s.CallOf(c).phase;
      p.Scanning? && p.at.Between? && t in p.toVisit && t !in s.holding
    case QueueCallBack(c) =>
      var p := s.CallOf(c).phase;
      p.Scanning? && p.at.Checked? && s.Running(p.at.t) == []
    case SignalThread(c) =>
      var p := s.CallOf(c).phase;
      p.Scanning? && p.at.Queued? && p.at.t !in s.holding
    case EndScan(c) => s.CallOf(c).phase.Scanning? && s.CallOf(c).phase.at.Between? && s.CallOf(c).phase.toVisit == {}
    case PopTask(t) => s.Tasks(t) != [] && (t in s.cleared ==> t in s.isDone && t !in s.threadList)
    case FinishTask(t) => |s.Running(t)| > s.Inside(t)
    case ClearSelf(t) => t in s.threadList && t !in s.exiting && t !in s.cleared && s.Running(t) == []
    case CallExit(t) => (t in s.threadList || t in s.exiting) && t !in s.cleared && t !in s.cleanedUp
    case EnterCleanup(t) => t in s.exiting && t in s.threadList
    case LeaveList(t) => s.lock.Free? && t in s.holding
    case SetDone(t) => t in s.holding && t !in s.threadList && (t in s.cleared ==> s.lock.Free?)
    case EndCleanup(t) =>
      && t in s.isDone && t in s.seen && t !in s.threadList && (t in s.holding ==> t in s.cleared)
      && s.Tasks(t) == [] && |s.Running(t)| == s.Inside(t) && s.lock.Free?
    case Return(c) => s.CallOf(c).phase.AwaitingAll? && s.CallOf(c).expected <= s.CallOf(c).done
  }

  function SetStage(call: Call, toVisit: set<ThreadId>, at: Stage): Call {
    call.(phase := Scanning(toVisit, at))
  }

  function Apply(s: State, e: Event): State
    requires Enabled(s, e)
  {
    match e
    case Spawn(t) => s.(threadList := s.threadList + {t}, seen := s.seen + {t})
    case BeginScan(c) =>
      s.(lock := HeldBy(c), calls := s.calls[c := SetStage(s.CallOf(c), s.threadList, Between)])
    case CheckDone(c, t) =>
      var call := s.CallOf(c);
      s.(calls := s.calls[c := SetStage(call, call.phase.toVisit - {t}, if t in s.isDone then Between else Checked(t))])
    case QueueCallBack(c) =>
      var call := s.CallOf(c);
      var t := call.phase.at.t;
      s.(waitingTasks := s.waitingTasks[t := s.Tasks(t) + [c]],
         calls := s.calls[c := SetStage(call, call.phase.toVisit, Queued(t)).(
           enqueued := call.enqueued + {t},
           expected := call.expected + if t in s.doAll then 1 else 0)])
    case SignalThread(c) =>
      s.(calls := s.calls[c := SetStage(s.CallOf(c), s.CallOf(c).phase.toVisit, Between)])
    case EndScan(c) => s.(lock := Free, calls := s.calls[c := s.CallOf(c).(phase := AwaitingAll)])
    case PopTask(t) =>
      s.(waitingTasks := s.waitingTasks[t := s.Tasks(t)[1..]],
         running := s.running[t := s.Running(t) + [s.Tasks(t)[0]]])
    case FinishTask(t) =>
      if t in s.cleared then s.(crashed := Some(t))
      else
        var n := |s.Running(t)| - 1;
        var c := s.Running(t)[n];
        var call := s.CallOf(c);
        s.(running := s.running[t := s.Running(t)[..n]],
           calls := s.calls[c := call.(
             ran := call.ran + {t}, done := call.done + if t in s.doAll then 1 else 0)])
    case ClearSelf(t) => s.(cleared := s.cleared + {t}, holding := s.holding + {t})
    case CallExit(t) =>
      s.(exiting := s.exiting + {t}, isDone := s.isDone + {t}, inside := s.inside[t := |s.Running(t)|])
    case EnterCleanup(t) => s.(holding := s.holding + {t})
    case LeaveList(t) => s.(threadList := s.threadList - {t})
    case SetDone(t) =>
      s.(isDone := s.isDone + {t}, holding := if t in s.cleared then s.holding else s.holding - {t})
    case EndCleanup(t) => s.(cleanedUp := s.cleanedUp + {t})
    case Return(c) => s.(calls := s.calls[c := s.CallOf(c).(phase := Returned)])
  }

  function Start(doAll: set<ThreadId>): State {
    State(doAll, Free, {}, {}, {}, {}, {}, {}, {}, None, map[], map[], map[], map[])
  }

  predicate IsRun(doAll: set<ThreadId>, es: seq<Event>)
    decreases |es|, 0
  {
    es == [] || (IsRun(doAll, es[..|es| - 1]) && Enabled(Exec(doAll, es[..|es| - 1]), es[|es| - 1]))
  }

  function Exec(doAll: set<ThreadId>, es: seq<Event>): State
    requires IsRun(doAll, es)
    decreases |es|, 1
  {
    if es == [] then Start(doAll) else Apply(Exec(doAll, es[..|es| - 1]), es[|es| - 1])
  }

  /** What holds of one callback in every reachable state. */
  ghost predicate CallInv(s: State, c: CallId) {
    var call := s.CallOf(c);
    && call.ran <= call.enqueued
    && call.expected == |call.enqueued * s.doAll|
    && call.done == |call.ran * s.doAll|
    && (s.lock == HeldBy(c) <==> call.phase.Scanning?)
    && (call.phase.Fresh? ==> call.enqueued == {})
    && (call.phase.Scanning? ==>
          var toVisit, at := call.phase.toVisit, call.phase.at;
          && toVisit <= s.threadList && toVisit !! call.enqueued
          && s.threadList <= toVisit + call.enqueued + s.isDone + (if at.Checked? then {at.t} else {})
          && (!at.Between? ==> at.t in s.threadList)
          && (at.Checked? ==> at.t !in toVisit && at.t !in call.enqueued))
    && (call.phase.Returned? ==> call.enqueued * s.doAll <= call.ran)
  }

  ghost predicate OwedInv(s: State, t: ThreadId, c: CallId) {
    s.Owed(t, c) == if t in s.CallOf(c).enqueued - s.CallOf(c).ran then 1 else 0
  }

  ghost predicate ThreadInv(s: State, t: ThreadId) {
    && (t in s.threadList ==> t in s.seen)
    && (t in s.cleared ==> t in s.seen && t !in s.exiting && t in s.holding)
    && (t in s.exiting ==> t in s.seen && t in s.isDone)
    && (s.Inside(t) > 0 ==> t in s.exiting) && s.Inside(t) <= |s.Running(t)|
    && (t in s.holding ==> t in s.cleared || t in s.exiting)
    && (s.crashed == Some(t) ==> t in s.cleared && s.Running(t) != [])
    && (t in s.cleanedUp ==> t in s.seen && t !in s.threadList && s.Tasks(t) == [] && |s.Running(t)| == s.Inside(t))
  }

  ghost predicate Inv(s: State) {
    && (forall c :: CallInv(s, c))
    && (forall t, c :: OwedInv(s, t, c))
    && (forall t :: ThreadInv(s, t))
  }

  lemma EnqueueOwes(ts: seq<CallId>, c: CallId, x: CallId)
    ensures Times(ts + [c], x) == Times(ts, x) + if x == c then 1 else 0
  {
    assert (ts + [c])[..|ts|] == ts;
  }

  lemma {:induction false} DequeueOwes(ts: seq<CallId>, x: CallId)
    requires ts != []
    ensures Times(ts, x) == Times(ts[1..], x) + if x == ts[0] then 1 else 0
  {
    if |ts| > 1 {
      var front := ts[..|ts| - 1];
      DequeueOwes(front, x);
      assert front[1..] == ts[1..][..|ts| - 2];
    }
  }

  lemma PartSizes(whole: set<ThreadId>, part: set<ThreadId>)
    requires part <= whole
    ensures |whole| == |part| + |whole - part|
  {
    assert whole == part + (whole - part);
  }

  lemma AddOne(a: set<ThreadId>, t: ThreadId, d: set<ThreadId>)
    requires t !in a
    ensures |(a + {t}) * d| == |a * d| + if t in d then 1 else 0
  {
    assert (a + {t}) * d == a * d + (if t in d then {t} else {});
  }

  lemma AllRan(s: State, c: CallId)
    requires CallInv(s, c) && s.CallOf(c).expected <= s.CallOf(c).done
    ensures s.CallOf(c).enqueued * s.doAll <= s.CallOf(c).ran
  {
    var e, r := s.CallOf(c).enqueued * s.doAll, s.CallOf(c).ran * s.doAll;
    if !(e <= r) {
      var t :| t in e && t !in r;
      assert r + {t} <= e;
      Fewer(r + {t}, e);
    }
  }

  lemma ScanKeepsCall(s: State, c: CallId, e: Event, x: CallId)
    requires Enabled(s, e) && CallInv(s, c) && CallInv(s, x) && s.CallOf(c).phase.Scanning?
    requires (e.CheckDone? || e.QueueCallBack? || e.SignalThread?) && e.c == c
    ensures CallInv(Apply(s, e), x)
  {
    var call := s.CallOf(c);
    if e.QueueCallBack? {
      AddOne(call.enqueued, call.phase.at.t, s.doAll);
    }
    var s' := Apply(s, e);
    if x != c {
      assert s'.CallOf(x) == s.CallOf(x);
    }
  }

  lemma QueueOwes(s: State, c: CallId, u: ThreadId, x: CallId)
    requires Enabled(s, QueueCallBack(c))
    ensures Apply(s, QueueCallBack(c)).Owed(u, x) ==
      s.Owed(u, x) + if u == s.CallOf(c).phase.at.t && x == c then 1 else 0
  {
    var t, s' := s.CallOf(c).phase.at.t, Apply(s, QueueCallBack(c));
    assert s'.Running(u) == s.Running(u);
    if u == t {
      EnqueueOwes(s.Tasks(t), c, x);
    } else {
      assert s'.Tasks(u) == s.Tasks(u);
    }
  }

  lemma QueueKeepsOwed(s: State, c: CallId, u: ThreadId, x: CallId)
    requires Enabled(s, QueueCallBack(c)) && OwedInv(s, u, x)
    requires s.CallOf(c).phase.at.t !in s.CallOf(c).enqueued && s.CallOf(c).ran <= s.CallOf(c).enqueued
    ensures OwedInv(Apply(s, QueueCallBack(c)), u, x)
  {
    var t, s' := s.CallOf(c).phase.at.t, Apply(s, QueueCallBack(c));
    QueueOwes(s, c, u, x);
    assert s'.CallOf(x).ran == s.CallOf(x).ran;
    assert u in s'.CallOf(x).enqueued <==> u in s.CallOf(x).enqueued || (x == c && u == t);
  }

  lemma PopKeepsOwed(s: State, t: ThreadId, u: ThreadId, x: CallId)
    requires Enabled(s, PopTask(t)) && OwedInv(s, u, x)
    ensures OwedInv(Apply(s, PopTask(t)), u, x)
  {
    var s' := Apply(s, PopTask(t));
    assert s'.CallOf(x) == s.CallOf(x);
    if u == t {
      DequeueOwes(s.Tasks(t), x);
      EnqueueOwes(s.Running(t), s.Tasks(t)[0], x);
    }
  }

  lemma FinishKeepsCall(s: State, t: ThreadId, c: CallId, x: CallId)
    requires Enabled(s, FinishTask(t)) && t !in s.cleared && c == s.Running(t)[|s.Running(t)| - 1]
    requires t in s.CallOf(c).enqueued - s.CallOf(c).ran && CallInv(s, x)
    ensures CallInv(Apply(s, FinishTask(t)), x)
  {
    AddOne(s.CallOf(c).ran, t, s.doAll);
  }

  lemma FinishKeepsOwed(s: State, t: ThreadId, c: CallId, u: ThreadId, x: CallId)
    requires Enabled(s, FinishTask(t)) && t !in s.cleared && c == s.Running(t)[|s.Running(t)| - 1]
    requires t in s.CallOf(c).enqueued - s.CallOf(c).ran && OwedInv(s, u, x)
    ensures OwedInv(Apply(s, FinishTask(t)), u, x)
  {
  }

  lemma BeginScanKeepsCall(s: State, c: CallId, x: CallId)
    requires Enabled(s, BeginScan(c)) && CallInv(s, c) && CallInv(s, x)
    ensures CallInv(Apply(s, BeginScan(c)), x)
  {
    if x != c {
      assert Apply(s, BeginScan(c)).CallOf(x) == s.CallOf(x);
    }
  }

  lemma EndScanKeepsCall(s: State, c: CallId, x: CallId)
    requires Enabled(s, EndScan(c)) && CallInv(s, c) && CallInv(s, x)
    ensures CallInv(Apply(s, EndScan(c)), x)
  {
    if x != c {
      assert Apply(s, EndScan(c)).CallOf(x) == s.CallOf(x);
    }
  }

  lemma ReturnKeepsCall(s: State, c: CallId, x: CallId)
    requires Enabled(s, Return(c)) && CallInv(s, c) && CallInv(s, x)
    ensures CallInv(Apply(s, Return(c)), x)
  {
    AllRan(s, c);
    if x != c {
      assert Apply(s, Return(c)).CallOf(x) == s.CallOf(x);
    }
  }

  lemma StepKeepsCall(s: State, e: Event, x: CallId)
    requires Inv(s) && Enabled(s, e)
    ensures CallInv(Apply(s, e), x)
  {
    assert CallInv(s, x);
    match e
    case CheckDone(c, t) => assert CallInv(s, c); ScanKeepsCall(s, c, e, x);
    case QueueCallBack(c) => assert CallInv(s, c); ScanKeepsCall(s, c, e, x);
    case SignalThread(c) => assert CallInv(s, c); ScanKeepsCall(s, c, e, x);
    case FinishTask(t) => if t !in s.cleared {
      var c := s.Running(t)[|s.Running(t)| - 1];
      assert CallInv(s, c) && OwedInv(s, t, c);
      assert t in s.CallOf(c).enqueued - s.CallOf(c).ran;
      FinishKeepsCall(s, t, c, x);
    }
    case BeginScan(c) => assert CallInv(s, c); BeginScanKeepsCall(s, c, x);
    case EndScan(c) => assert CallInv(s, c); EndScanKeepsCall(s, c, x);
    case Return(c) => assert CallInv(s, c); ReturnKeepsCall(s, c, x);
    case _ =>
  }

  lemma StepKeepsOwed(s: State, e: Event, u: ThreadId, x: CallId)
    requires Inv(s) && Enabled(s, e)
    ensures OwedInv(Apply(s, e), u, x)
  {
    assert OwedInv(s, u, x);
    match e
    case QueueCallBack(c) => assert CallInv(s, c); QueueKeepsOwed(s, c, u, x);
    case PopTask(t) => PopKeepsOwed(s, t, u, x);
    case FinishTask(t) => if t !in s.cleared {
      var c := s.Running(t)[|s.Running(t)| - 1];
      assert OwedInv(s, t, c);
      assert t in s.CallOf(c).enqueued - s.CallOf(c).ran;
      FinishKeepsOwed(s, t, c, u, x);
    }
    case _ => assert Apply(s, e).Owed(u, x) == s.Owed(u, x);
  }

  lemma QueueKeepsThread(s: State, c: CallId, u: ThreadId)
    requires CallInv(s, c) && ThreadInv(s, u) && Enabled(s, QueueCallBack(c))
    ensures ThreadInv(Apply(s, QueueCallBack(c)), u)
  {
    var s' := Apply(s, QueueCallBack(c));
    assert s.CallOf(c).phase.at.t in s.threadList;
    assert s'.Running(u) == s.Running(u);
  }

  lemma FinishKeepsThread(s: State, t: ThreadId, u: ThreadId)
    requires ThreadInv(s, u) && Enabled(s, FinishTask(t))
    ensures ThreadInv(Apply(s, FinishTask(t)), u)
  {
    var s' := Apply(s, FinishTask(t));
    assert u != t ==> s'.Running(u) == s.Running(u);
    assert s'.Tasks(u) == s.Tasks(u);
  }

  lemma PopKeepsThread(s: State, t: ThreadId, u: ThreadId)
    requires ThreadInv(s, u) && Enabled(s, PopTask(t))
    ensures ThreadInv(Apply(s, PopTask(t)), u)
  {
    var s' := Apply(s, PopTask(t));
    assert u != t ==> s'.Running(u) == s.Running(u) && s'.Tasks(u) == s.Tasks(u);
  }

  lemma OtherKeepsThread(s: State, e: Event, u: ThreadId)
    requires ThreadInv(s, u) && Enabled(s, e) && !e.QueueCallBack? && !e.FinishTask? && !e.PopTask?
    ensures ThreadInv(Apply(s, e), u)
  {
    var s' := Apply(s, e);
    assert s'.Running(u) == s.Running(u) && s'.Tasks(u) == s.Tasks(u) && s'.crashed == s.crashed;
  }

  lemma StepKeepsThread(s: State, e: Event, u: ThreadId)
    requires Inv(s) && Enabled(s, e)
    ensures ThreadInv(Apply(s, e), u)
  {
    assert ThreadInv(s, u);
    if e.QueueCallBack? {
      assert CallInv(s, e.c);
      QueueKeepsThread(s, e.c, u);
    } else if e.FinishTask? {
      FinishKeepsThread(s, e.t, u);
    } else if e.PopTask? {
      PopKeepsThread(s, e.t, u);
    } else {
      OtherKeepsThread(s, e, u);
    }
  }

  lemma StepKeepsInv(s: State, e: Event)
    requires Inv(s) && Enabled(s, e)
    ensures Inv(Apply(s, e))
  {
    var s' := Apply(s, e);
    forall c ensures CallInv(s', c) { StepKeepsCall(s, e, c); }
    forall t, c ensures OwedInv(s', t, c) { StepKeepsOwed(s, e, t, c); }
    forall t ensures ThreadInv(s', t) { StepKeepsThread(s, e, t); }
  }

  lemma {:induction false} RunKeepsInv(doAll: set<ThreadId>, es: seq<Event>)
    requires IsRun(doAll, es)
    ensures Inv(Exec(doAll, es))
  {
    if es == [] {
    } else {
      RunKeepsInv(doAll, es[..|es| - 1]);
      StepKeepsInv(Exec(doAll, es[..|es| - 1]), es[|es| - 1]);
    }
  }

  lemma StepKeepsDoAll(s: State, e: Event)
    requires Enabled(s, e)
    ensures Apply(s, e).doAll == s.doAll
  {
  }

  lemma {:induction false} DoAllIsConstant(doAll: set<ThreadId>, es: seq<Event>)
    requires IsRun(doAll, es)
    ensures Exec(doAll, es).doAll == doAll
  {
    if es == [] {
    } else {
      DoAllIsConstant(doAll, es[..|es| - 1]);
      StepKeepsDoAll(Exec(doAll, es[..|es| - 1]), es[|es| - 1]);
    }
  }

  // The scan leaves nobody out: when it ends, every thread still on the list has had the
  // callback queued or had already announced that it is done.
  lemma ScanReachesEveryThread(doAll: set<ThreadId>, es: seq<Event>, c: CallId, t: ThreadId)
    requires IsRun(doAll, es) && Enabled(Exec(doAll, es), EndScan(c)) && t in Exec(doAll, es).threadList
    ensures t in Exec(doAll, es).CallOf(c).enqueued || t in Exec(doAll, es).isDone
  {
    RunKeepsInv(doAll, es);
    assert CallInv(Exec(doAll, es), c);
  }

  // When the call returns, every do-all thread it queued its callback on has run it, whatever
  // threads started or ended meanwhile. Whether it can return is another matter, see below.
  lemma {:induction false} ReturnMeansAllRan(doAll: set<ThreadId>, es: seq<Event>, c: CallId)
    requires IsRun(doAll, es) && Exec(doAll, es).CallOf(c).phase.Returned?
    ensures forall t :: t in Exec(doAll, es).CallOf(c).enqueued && t in doAll ==>
      t in Exec(doAll, es).CallOf(c).ran && Exec(doAll, es).Owed(t, c) == 0
  {
    RunKeepsInv(doAll, es);
    DoAllIsConstant(doAll, es);
    var s := Exec(doAll, es);
    assert CallInv(s, c);
    forall t | t in s.CallOf(c).enqueued && t in doAll ensures t in s.CallOf(c).ran && s.Owed(t, c) == 0 {
      assert t in s.CallOf(c).enqueued * s.doAll;
      assert OwedInv(s, t, c);
    }
  }

  // Nothing is counted twice or forgotten: at every moment the do-all threads queued are the
  // ones counted as done plus the ones on which the callback is pending or running, and on
  // each of those it is so exactly once.
  lemma {:induction false} CountIsConserved(doAll: set<ThreadId>, es: seq<Event>, c: CallId)
    requires IsRun(doAll, es)
    ensures var s := Exec(doAll, es); var call := s.CallOf(c);
      var owing := set t | t in call.enqueued && t in doAll && s.Owed(t, c) == 1;
      call.expected == call.done + |owing|
      && forall t :: t in call.enqueued && t in doAll ==> s.Owed(t, c) == if t in call.ran then 0 else 1
  {
    RunKeepsInv(doAll, es);
    DoAllIsConstant(doAll, es);
    var s := Exec(doAll, es);
    var call := s.CallOf(c);
    var owing := set t | t in call.enqueued && t in doAll && s.Owed(t, c) == 1;
    assert CallInv(s, c);
    assert forall t :: t in call.enqueued && t in doAll ==> OwedInv(s, t, c);
    assert owing == call.enqueued * doAll - call.ran * doAll;
    PartSizes(call.enqueued * doAll, call.ran * doAll);
  }

  /** What is pending or running on a thread, oldest running first. */
  function Held(s: State, t: ThreadId): seq<CallId> {
    s.Running(t) + s.Tasks(t)
  }

  lemma {:induction false} TimesIsMembership(ts: seq<CallId>, c: CallId)
    ensures Times(ts, c) > 0 <==> c in ts
  {
    if ts == [] {
    } else {
      var front, last := ts[..|ts| - 1], ts[|ts| - 1];
      TimesIsMembership(front, c);
      assert ts == front + [last];
    }
  }

  lemma OwedIsHeld(s: State, t: ThreadId, c: CallId)
    requires OwedInv(s, t, c)
    ensures c in Held(s, t) <==> t in s.CallOf(c).enqueued && t !in s.CallOf(c).ran
  {
    TimesIsMembership(s.Tasks(t), c);
    TimesIsMembership(s.Running(t), c);
  }

  // A thread that has finished its cleanup never gets another callback, and the only ones it has
  // left unfinished are those inside which it called exit.
  lemma {:induction false} CleanedUpThreadOwesItsExit(doAll: set<ThreadId>, es: seq<Event>, t: ThreadId, c: CallId)
    requires IsRun(doAll, es) && t in Exec(doAll, es).cleanedUp
    ensures var s := Exec(doAll, es);
      s.Tasks(t) == [] && s.Running(t) == s.Abandoned(t) && !Enabled(s, CheckDone(c, t))
      && (t in s.CallOf(c).enqueued ==> (t in s.CallOf(c).ran <==> c !in s.Abandoned(t)))
      && (t !in s.exiting ==> s.Abandoned(t) == [])
  {
    RunKeepsInv(doAll, es);
    var s := Exec(doAll, es);
    assert ThreadInv(s, t) && CallInv(s, c) && OwedInv(s, t, c);
    OwedIsHeld(s, t, c);
  }

  // ---- A scan that meets an ending thread ----

  lemma RunOneMore(doAll: set<ThreadId>, es: seq<Event>, e: Event)
    requires IsRun(doAll, es) && Enabled(Exec(doAll, es), e)
    ensures IsRun(doAll, es + [e]) && Exec(doAll, es + [e]) == Apply(Exec(doAll, es), e)
  {
    var longer := es + [e];
    assert longer[..|longer| - 1] == es && longer[|longer| - 1] == e;
  }

  /** The threads a scan still has to check or to signal. */
  function Remaining(p: Phase): set<ThreadId>
    requires p.Scanning?
  {
    p.toVisit + if p.at.Between? then {} else {p.at.t}
  }

  /** The scan waits for the monitor of t, or for that of its task list, which t holds as long as
      it is inside a callback; t waits for the list lock that the scan holds, or will when it has
      to leave the list from inside the callback. */
  predicate Deadlocked(s: State, c: CallId, t: ThreadId) {
    && s.lock == HeldBy(c) && s.CallOf(c).phase.Scanning? && t in s.threadList
    && ((t in Remaining(s.CallOf(c).phase) && t in s.holding)
        || (s.CallOf(c).phase.at == Checked(t) && s.Inside(t) > 0))
  }

  lemma ScanKeepsDeadlock(s: State, e: Event, c: CallId, t: ThreadId)
    requires CallInv(s, c) && ThreadInv(s, t) && Enabled(s, e) && Deadlocked(s, c, t)
    requires (e.CheckDone? || e.QueueCallBack? || e.SignalThread? || e.EndScan?) && CallInv(s, e.c)
    ensures Deadlocked(Apply(s, e), c, t)
  {
    assert e.c == c && t in s.holding;
    assert t in Remaining(Apply(s, e).CallOf(c).phase);
  }

  lemma OtherKeepsDeadlock(s: State, e: Event, c: CallId, t: ThreadId)
    requires CallInv(s, c) && ThreadInv(s, t) && Enabled(s, e) && Deadlocked(s, c, t)
    requires !e.CheckDone? && !e.QueueCallBack? && !e.SignalThread? && !e.EndScan?
    ensures Deadlocked(Apply(s, e), c, t)
  {
    assert Apply(s, e).CallOf(c).phase == s.CallOf(c).phase;
    assert Apply(s, e).Inside(t) >= s.Inside(t);
  }

  lemma StepKeepsDeadlock(s: State, e: Event, c: CallId, t: ThreadId)
    requires Inv(s) && Enabled(s, e) && Deadlocked(s, c, t)
    ensures Deadlocked(Apply(s, e), c, t)
  {
    assert CallInv(s, c) && ThreadInv(s, t);
    if e.CheckDone? || e.QueueCallBack? || e.SignalThread? || e.EndScan? {
      assert CallInv(s, e.c);
      ScanKeepsDeadlock(s, e, c, t);
    } else {
      OtherKeepsDeadlock(s, e, c, t);
    }
  }

  // Once it has happened no event ever resolves it: the scan never ends and the call never
  // returns, on any continuation.
  lemma {:induction false} DeadlockIsForEver(doAll: set<ThreadId>, es: seq<Event>, i: nat, c: CallId, t: ThreadId)
    requires IsRun(doAll, es) && i <= |es|
    requires IsRun(doAll, es[..i]) && Deadlocked(Exec(doAll, es[..i]), c, t)
    ensures Deadlocked(Exec(doAll, es), c, t)
  {
    if i == |es| {
      assert es[..i] == es;
    } else {
      var front := es[..|es| - 1];
      assert front[..i] == es[..i];
      DeadlockIsForEver(doAll, front, i, c, t);
      RunKeepsInv(doAll, front);
      StepKeepsDeadlock(Exec(doAll, front), es[|es| - 1], c, t);
    }
  }

  /** Some continuation ends the scan of c. */
  ghost predicate CanEnd(doAll: set<ThreadId>, es: seq<Event>, c: CallId) {
    exists more: seq<Event> ::
      IsRun(doAll, es + more) && Enabled(Exec(doAll, es + more), EndScan(c))
  }

  /** Nothing is in the way of the scan for good: no thread it still has to check or to signal has
      taken its own monitor on the way out, and the one it has checked has not called exit inside
      a callback. */
  predicate ScanIsFree(s: State, c: CallId) {
    var p := s.CallOf(c).phase;
    p.Scanning? ==> Remaining(p) !! s.holding && (p.at.Checked? ==> s.Inside(p.at.t) == 0)
  }

  function StageRank(p: Phase): nat
    requires p.Scanning?
  {
    if p.at.Between? then 0 else if p.at.Checked? then 2 else 1
  }

  /** How many callbacks have to end before the scan can go on where it is. */
  function ToWaitFor(s: State, p: Phase): nat
    requires p.Scanning?
  {
    if p.at.Checked? then |s.Running(p.at.t)| else 0
  }

  /** One step nearer to the end of the scan. */
  predicate Nearer(s: State, s': State, c: CallId) {
    var p, p' := s.CallOf(c).phase, s'.CallOf(c).phase;
    p.Scanning? && p'.Scanning? &&
    (|p'.toVisit| < |p.toVisit|
     || (|p'.toVisit| == |p.toVisit|
         && (StageRank(p') < StageRank(p)
             || (StageRank(p') == StageRank(p) && ToWaitFor(s', p') < ToWaitFor(s, p)))))
  }

  /** A step of the scan itself, or the end of a callback it waits for. */
  predicate IsScanStep(s: State, c: CallId, e: Event) {
    var p := s.CallOf(c).phase;
    Enabled(s, e) && p.Scanning? &&
    ((e.CheckDone? && e.c == c) || e == QueueCallBack(c) || e == SignalThread(c)
     || (p.at.Checked? && e == FinishTask(p.at.t)))
  }

  lemma NextScanStep(s: State, c: CallId) returns (e: Event)
    requires s.CallOf(c).phase.Scanning? && ScanIsFree(s, c) && s.crashed.None? && !Enabled(s, EndScan(c))
    ensures IsScanStep(s, c, e)
  {
    var p := s.CallOf(c).phase;
    if p.at.Between? {
      var t :| t in p.toVisit;
      e := CheckDone(c, t);
    } else if p.at.Checked? {
      e := if s.Running(p.at.t) == [] then QueueCallBack(c) else FinishTask(p.at.t);
    } else {
      e := SignalThread(c);
    }
  }

  lemma RemoveOne(a: set<ThreadId>, t: ThreadId)
    requires t in a
    ensures |a - {t}| == |a| - 1
  {
  }

  lemma FinishAdvances(s: State, c: CallId, t: ThreadId)
    requires s.CallOf(c).phase.Scanning? && s.CallOf(c).phase.at == Checked(t) && ScanIsFree(s, c)
    requires Enabled(s, FinishTask(t)) && t !in s.cleared
    ensures var s' := Apply(s, FinishTask(t)); Nearer(s, s', c) && ScanIsFree(s', c) && s'.crashed.None?
  {
    var s' := Apply(s, FinishTask(t));
    assert s'.CallOf(c).phase == s.CallOf(c).phase;
  }

  lemma ScanStepAdvances(s: State, c: CallId, e: Event)
    requires Inv(s) && IsScanStep(s, c, e) && ScanIsFree(s, c)
    ensures var s' := Apply(s, e); Nearer(s, s', c) && ScanIsFree(s', c) && s'.crashed.None?
  {
    assert CallInv(s, c);
    if e.CheckDone? {
      assert ThreadInv(s, e.t);
      RemoveOne(s.CallOf(c).phase.toVisit, e.t);
    } else if e.FinishTask? {
      assert ThreadInv(s, e.t);
      FinishAdvances(s, c, e.t);
    }
  }

  lemma {:induction false} ScanGoesOn(doAll: set<ThreadId>, es: seq<Event>, c: CallId) returns (more: seq<Event>)
    requires IsRun(doAll, es) && Exec(doAll, es).crashed.None? && Exec(doAll, es).CallOf(c).phase.Scanning?
    requires ScanIsFree(Exec(doAll, es), c)
    ensures IsRun(doAll, es + more) && Enabled(Exec(doAll, es + more), EndScan(c))
    ensures NothingLost(Exec(doAll, es), c) ==> NothingLost(Exec(doAll, es + more), c)
    decreases |Exec(doAll, es).CallOf(c).phase.toVisit|, StageRank(Exec(doAll, es).CallOf(c).phase),
      ToWaitFor(Exec(doAll, es), Exec(doAll, es).CallOf(c).phase)
  {
    var s := Exec(doAll, es);
    if Enabled(s, EndScan(c)) {
      more := [];
      assert es + more == es;
    } else {
      var e := NextScanStep(s, c);
      RunKeepsInv(doAll, es);
      RunOneMore(doAll, es, e);
      ScanStepAdvances(s, c, e);
      ScanStepLosesNothing(s, c, e);
      var rest := ScanGoesOn(doAll, es + [e], c);
      more := [e] + rest;
      assert es + more == es + [e] + rest;
    }
  }

  lemma NotFreeIsDeadlocked(s: State, c: CallId) returns (t: ThreadId)
    requires CallInv(s, c) && !ScanIsFree(s, c)
    ensures Deadlocked(s, c, t)
  {
    var p := s.CallOf(c).phase;
    if Remaining(p) !! s.holding {
      t := p.at.t;
    } else {
      t :| t in Remaining(p) && t in s.holding;
    }
  }

  // A scan can come to its end if and only if no thread it still has to check or to signal has
  // taken its own monitor on the way out, and the one it has checked has not called exit inside
  // a callback.
  lemma ScanCanEndExactly(doAll: set<ThreadId>, es: seq<Event>, c: CallId)
    requires IsRun(doAll, es) && Exec(doAll, es).crashed.None? && Exec(doAll, es).CallOf(c).phase.Scanning?
    ensures CanEnd(doAll, es, c) <==> ScanIsFree(Exec(doAll, es), c)
  {
    var s := Exec(doAll, es);
    if ScanIsFree(s, c) {
      var more := ScanGoesOn(doAll, es, c);
    } else {
      RunKeepsInv(doAll, es);
      assert CallInv(s, c);
      var t := NotFreeIsDeadlocked(s, c);
      forall more: seq<Event> | IsRun(doAll, es + more) ensures !Enabled(Exec(doAll, es + more), EndScan(c)) {
        StaysDeadlocked(doAll, es, more, c, t);
      }
    }
  }

  lemma StaysDeadlocked(doAll: set<ThreadId>, es: seq<Event>, more: seq<Event>, c: CallId, t: ThreadId)
    requires IsRun(doAll, es) && IsRun(doAll, es + more) && Deadlocked(Exec(doAll, es), c, t)
    ensures Deadlocked(Exec(doAll, es + more), c, t)
    ensures !Enabled(Exec(doAll, es + more), EndScan(c)) && !Exec(doAll, es + more).CallOf(c).phase.Returned?
  {
    assert (es + more)[..|es|] == es;
    DeadlockIsForEver(doAll, es + more, |es|, c, t);
  }

  // ---- A call that can return ----

  /** The callback c will never be counted on t: t has called exit inside it, or has cleared its
      entry with the callback still to end. */
  predicate Lost(s: State, c: CallId, t: ThreadId) {
    t in s.doAll && (c in s.Abandoned(t) || (t in s.cleared && c in Held(s, t)))
  }

  ghost predicate NothingLost(s: State, c: CallId) {
    forall t :: !Lost(s, c, t)
  }

  lemma PopKeepsHeld(s: State, t: ThreadId)
    requires Enabled(s, PopTask(t))
    ensures Held(Apply(s, PopTask(t)), t) == Held(s, t)
  {
    assert s.Tasks(t) == [s.Tasks(t)[0]] + s.Tasks(t)[1..];
  }

  lemma AbandonedStays(s: State, e: Event, t: ThreadId)
    requires ThreadInv(s, t) && Enabled(s, e)
    ensures s.Abandoned(t) <= Apply(s, e).Abandoned(t)
    ensures e != CallExit(t) ==> Apply(s, e).Abandoned(t) == s.Abandoned(t)
  {
    var s' := Apply(s, e);
    if e == PopTask(t) {
      assert s'.Running(t)[..s.Inside(t)] == s.Running(t)[..s.Inside(t)];
    } else if e == FinishTask(t) && t !in s.cleared {
      assert s'.Running(t)[..s.Inside(t)] == s.Running(t)[..s.Inside(t)];
    } else {
      assert s'.Running(t) == s.Running(t);
      assert e != CallExit(t) ==> s'.Inside(t) == s.Inside(t);
    }
  }

  lemma StepKeepsLost(s: State, e: Event, c: CallId, t: ThreadId)
    requires ThreadInv(s, t) && Enabled(s, e) && Lost(s, c, t)
    ensures Lost(Apply(s, e), c, t)
  {
    var s' := Apply(s, e);
    AbandonedStays(s, e, t);
    if t in s.cleared && c in Held(s, t) {
      if e == PopTask(t) {
        PopKeepsHeld(s, t);
      } else {
        assert s'.Running(t) == s.Running(t) && s.Tasks(t) <= s'.Tasks(t);
      }
    }
  }

  // What is lost stays lost: the call does not return on any continuation.
  lemma {:induction false} LostIsForEver(doAll: set<ThreadId>, es: seq<Event>, i: nat, c: CallId, t: ThreadId)
    requires IsRun(doAll, es) && i <= |es| && IsRun(doAll, es[..i]) && Lost(Exec(doAll, es[..i]), c, t)
    ensures Lost(Exec(doAll, es), c, t) && !Exec(doAll, es).CallOf(c).phase.Returned?
  {
    if i == |es| {
      assert es[..i] == es;
    } else {
      var front := es[..|es| - 1];
      assert front[..i] == es[..i];
      LostIsForEver(doAll, front, i, c, t);
      RunKeepsInv(doAll, front);
      assert ThreadInv(Exec(doAll, front), t);
      StepKeepsLost(Exec(doAll, front), es[|es| - 1], c, t);
    }
    LostIsOwed(doAll, es, c, t);
  }

  lemma LostIsOwed(doAll: set<ThreadId>, es: seq<Event>, c: CallId, t: ThreadId)
    requires IsRun(doAll, es) && Lost(Exec(doAll, es), c, t)
    ensures !Exec(doAll, es).CallOf(c).phase.Returned?
  {
    var s := Exec(doAll, es);
    RunKeepsInv(doAll, es);
    assert CallInv(s, c) && OwedInv(s, t, c);
    OwedIsHeld(s, t, c);
    assert c in Held(s, t);
    assert t in s.CallOf(c).enqueued * s.doAll && t !in s.CallOf(c).ran;
  }

  lemma QueueLosesNothing(s: State, c: CallId)
    requires NothingLost(s, c) && Enabled(s, QueueCallBack(c)) && s.CallOf(c).phase.at.t !in s.cleared
    ensures NothingLost(Apply(s, QueueCallBack(c)), c)
  {
    var s' := Apply(s, QueueCallBack(c));
    forall t ensures !Lost(s', c, t) {
      assert !Lost(s, c, t);
      assert s'.Running(t) == s.Running(t) && s'.Inside(t) == s.Inside(t);
      assert t in s.cleared ==> s'.Tasks(t) == s.Tasks(t);
    }
  }

  lemma FinishLosesNothing(s: State, t: ThreadId, c: CallId)
    requires NothingLost(s, c) && Enabled(s, FinishTask(t)) && ThreadInv(s, t) && t !in s.cleared
    ensures NothingLost(Apply(s, FinishTask(t)), c)
  {
    var s' := Apply(s, FinishTask(t));
    forall u ensures !Lost(s', c, u) {
      assert !Lost(s, c, u);
      if u == t {
        AbandonedStays(s, FinishTask(t), t);
      } else {
        assert s'.Running(u) == s.Running(u) && s'.Tasks(u) == s.Tasks(u) && s'.Inside(u) == s.Inside(u);
      }
    }
  }

  lemma PopLosesNothing(s: State, t: ThreadId, c: CallId)
    requires NothingLost(s, c) && Enabled(s, PopTask(t)) && ThreadInv(s, t)
    ensures NothingLost(Apply(s, PopTask(t)), c)
  {
    var s' := Apply(s, PopTask(t));
    forall u ensures !Lost(s', c, u) {
      assert !Lost(s, c, u);
      if u == t {
        AbandonedStays(s, PopTask(t), t);
        PopKeepsHeld(s, t);
      } else {
        assert s'.Running(u) == s.Running(u) && s'.Tasks(u) == s.Tasks(u) && s'.Inside(u) == s.Inside(u);
      }
    }
  }

  lemma CallStepLosesNothing(s: State, e: Event, c: CallId)
    requires NothingLost(s, c) && Enabled(s, e) && (e.CheckDone? || e.SignalThread? || e.EndScan?)
    ensures NothingLost(Apply(s, e), c)
  {
    var s' := Apply(s, e);
    forall t ensures !Lost(s', c, t) {
      assert !Lost(s, c, t);
      assert s'.Running(t) == s.Running(t) && s'.Tasks(t) == s.Tasks(t) && s'.Inside(t) == s.Inside(t);
    }
  }

  lemma ScanStepLosesNothing(s: State, c: CallId, e: Event)
    requires Inv(s) && IsScanStep(s, c, e) && ScanIsFree(s, c)
    ensures NothingLost(s, c) ==> NothingLost(Apply(s, e), c)
  {
    if NothingLost(s, c) {
      assert CallInv(s, c);
      if e.QueueCallBack? {
        assert ThreadInv(s, s.CallOf(c).phase.at.t);
        QueueLosesNothing(s, c);
      } else if e.FinishTask? {
        assert ThreadInv(s, e.t);
        FinishLosesNothing(s, e.t, c);
      } else {
        CallStepLosesNothing(s, e, c);
      }
    }
  }

  /** The do-all threads that have not finished the callback. */
  function Owing(s: State, c: CallId): set<ThreadId> {
    s.CallOf(c).enqueued * s.doAll - s.CallOf(c).ran
  }

  /** All have been asked, nothing is lost, and the process lives. */
  ghost predicate Hopeful(s: State, c: CallId) {
    Inv(s) && s.crashed.None? && s.CallOf(c).phase.AwaitingAll? && NothingLost(s, c)
  }

  /** How much t has to do before it has nothing left. */
  function Work(s: State, t: ThreadId): nat {
    2 * |s.Tasks(t)| + |s.Running(t)|
  }

  /** A thread gets on with the callbacks it has, towards the end of c. */
  lemma WorkStep(s: State, c: CallId, t: ThreadId) returns (e: Event)
    requires Hopeful(s, c) && t in Owing(s, c)
    ensures Enabled(s, e) && Hopeful(Apply(s, e), c)
    ensures var s' := Apply(s, e);
            Owing(s', c) == Owing(s, c) - {t} || (Owing(s', c) == Owing(s, c) && Work(s', t) < Work(s, t))
  {
    assert OwedInv(s, t, c) && ThreadInv(s, t) && !Lost(s, c, t);
    OwedIsHeld(s, t, c);
    if c in s.Running(t) {
      e := FinishTask(t);
      FinishLosesNothing(s, t, c);
    } else {
      e := PopTask(t);
      PopLosesNothing(s, t, c);
    }
    StepKeepsInv(s, e);
  }

  lemma RunWorksOnce(doAll: set<ThreadId>, es: seq<Event>, c: CallId, t: ThreadId) returns (longer: seq<Event>)
    requires IsRun(doAll, es) && Hopeful(Exec(doAll, es), c) && t in Owing(Exec(doAll, es), c)
    ensures es <= longer && IsRun(doAll, longer) && Hopeful(Exec(doAll, longer), c)
    ensures var s, s' := Exec(doAll, es), Exec(doAll, longer);
            Owing(s', c) == Owing(s, c) - {t} || (Owing(s', c) == Owing(s, c) && Work(s', t) < Work(s, t))
  {
    var e := WorkStep(Exec(doAll, es), c, t);
    RunOneMore(doAll, es, e);
    longer := es + [e];
  }

  lemma {:induction false} WorkGoesOn(doAll: set<ThreadId>, es: seq<Event>, c: CallId, t: ThreadId)
      returns (longer: seq<Event>)
    requires IsRun(doAll, es) && Hopeful(Exec(doAll, es), c) && t in Owing(Exec(doAll, es), c)
    ensures es <= longer && IsRun(doAll, longer) && Hopeful(Exec(doAll, longer), c)
    ensures Owing(Exec(doAll, longer), c) == Owing(Exec(doAll, es), c) - {t}
    decreases Work(Exec(doAll, es), t)
  {
    var next := RunWorksOnce(doAll, es, c, t);
    if t in Owing(Exec(doAll, next), c) {
      longer := WorkGoesOn(doAll, next, c, t);
    } else {
      longer := next;
    }
  }

  lemma NobodyOwing(s: State, c: CallId)
    requires Hopeful(s, c) && Owing(s, c) == {}
    ensures Enabled(s, Return(c))
  {
    assert CallInv(s, c);
    var call := s.CallOf(c);
    forall t | t in call.enqueued * s.doAll ensures t in call.ran * s.doAll {
      assert t !in Owing(s, c);
    }
    assert call.enqueued * s.doAll == call.ran * s.doAll;
  }

  lemma {:induction false} RunReturns(doAll: set<ThreadId>, es: seq<Event>, c: CallId) returns (longer: seq<Event>)
    requires IsRun(doAll, es) && Hopeful(Exec(doAll, es), c) && Owing(Exec(doAll, es), c) == {}
    ensures es <= longer && IsRun(doAll, longer) && Exec(doAll, longer).CallOf(c).phase.Returned?
  {
    NobodyOwing(Exec(doAll, es), c);
    RunOneMore(doAll, es, Return(c));
    longer := es + [Return(c)];
  }

  lemma {:induction false} CallGoesOn(doAll: set<ThreadId>, es: seq<Event>, c: CallId) returns (longer: seq<Event>)
    requires IsRun(doAll, es) && Hopeful(Exec(doAll, es), c)
    ensures es <= longer && IsRun(doAll, longer) && Exec(doAll, longer).CallOf(c).phase.Returned?
    decreases |Owing(Exec(doAll, es), c)|
  {
    var owing := Owing(Exec(doAll, es), c);
    if owing == {} {
      longer := RunReturns(doAll, es, c);
    } else {
      var t :| t in owing;
      RemoveOne(owing, t);
      var next := WorkGoesOn(doAll, es, c, t);
      longer := CallGoesOn(doAll, next, c);
    }
  }

  /** Some continuation lets the call return. */
  ghost predicate CanReturn(doAll: set<ThreadId>, es: seq<Event>, c: CallId) {
    exists more: seq<Event> :: IsRun(doAll, es + more) && Exec(doAll, es + more).CallOf(c).phase.Returned?
  }

  lemma {:induction false} AfterScan(doAll: set<ThreadId>, es: seq<Event>, c: CallId) returns (longer: seq<Event>)
    requires IsRun(doAll, es) && Exec(doAll, es).crashed.None? && Exec(doAll, es).CallOf(c).phase.Scanning?
    requires ScanIsFree(Exec(doAll, es), c) && NothingLost(Exec(doAll, es), c)
    ensures es <= longer && IsRun(doAll, longer) && Hopeful(Exec(doAll, longer), c)
  {
    var scan := ScanGoesOn(doAll, es, c);
    var s := Exec(doAll, es + scan);
    RunOneMore(doAll, es + scan, EndScan(c));
    CallStepLosesNothing(s, EndScan(c), c);
    longer := es + scan + [EndScan(c)];
    RunKeepsInv(doAll, longer);
  }

  lemma {:induction false} CallCanReturn(doAll: set<ThreadId>, es: seq<Event>, c: CallId) returns (longer: seq<Event>)
    requires IsRun(doAll, es) && Exec(doAll, es).crashed.None?
    requires var p := Exec(doAll, es).CallOf(c).phase; p.Scanning? || p.AwaitingAll?
    requires ScanIsFree(Exec(doAll, es), c) && NothingLost(Exec(doAll, es), c)
    ensures es <= longer && IsRun(doAll, longer) && Exec(doAll, longer).CallOf(c).phase.Returned?
  {
    if Exec(doAll, es).CallOf(c).phase.Scanning? {
      var scanned := AfterScan(doAll, es, c);
      longer := CallGoesOn(doAll, scanned, c);
    } else {
      RunKeepsInv(doAll, es);
      longer := CallGoesOn(doAll, es, c);
    }
  }

  // A call that has begun can still return if and only if its scan is free to go on and no do-all
  // thread has lost its callback, by calling exit inside it or by clearing its entry before it.
  lemma {:induction false} CallCanReturnExactly(doAll: set<ThreadId>, es: seq<Event>, c: CallId)
    requires IsRun(doAll, es) && Exec(doAll, es).crashed.None?
    requires var p := Exec(doAll, es).CallOf(c).phase; p.Scanning? || p.AwaitingAll?
    ensures CanReturn(doAll, es, c) <==> ScanIsFree(Exec(doAll, es), c) && NothingLost(Exec(doAll, es), c)
  {
    var s := Exec(doAll, es);
    if !ScanIsFree(s, c) {
      RunKeepsInv(doAll, es);
      assert CallInv(s, c);
      var t := NotFreeIsDeadlocked(s, c);
      forall more: seq<Event> | IsRun(doAll, es + more) ensures !Exec(doAll, es + more).CallOf(c).phase.Returned? {
        StaysDeadlocked(doAll, es, more, c, t);
      }
    } else if !NothingLost(s, c) {
      var t :| Lost(s, c, t);
      forall more: seq<Event> | IsRun(doAll, es + more) ensures !Exec(doAll, es + more).CallOf(c).phase.Returned? {
        assert (es + more)[..|es|] == es;
        LostIsForEver(doAll, es + more, |es|, c, t);
      }
    } else {
      var longer := CallCanReturn(doAll, es, c);
      assert longer == es + longer[|es|..];
    }
  }

  // ---- A callback on a thread without its entry ----

  /** Since its entry was cleared, when these callbacks were pending, nothing has been added to t,
      unless a scan is stuck behind it for good. */
  predicate Sealed(s: State, t: ThreadId, pending: seq<CallId>) {
    && t in s.cleared && t in s.holding
    && t !in s.exiting && (t in s.threadList ==> s.Running(t) == [])
    && (Held(s, t) == pending || (t in s.threadList && s.lock.HeldBy? && Deadlocked(s, s.lock.call, t)))
  }

  lemma StepKeepsHeld(s: State, e: Event, t: ThreadId)
    requires Enabled(s, e) && t in s.cleared
    requires e.QueueCallBack? ==> s.CallOf(e.c).phase.at != Checked(t)
    ensures Held(Apply(s, e), t) == Held(s, t)
  {
    if e == PopTask(t) {
      PopKeepsHeld(s, t);
    } else {
      assert Apply(s, e).Tasks(t) == s.Tasks(t) && Apply(s, e).Running(t) == s.Running(t);
    }
  }

  lemma StepKeepsCleared(s: State, e: Event, t: ThreadId)
    requires ThreadInv(s, t) && Enabled(s, e) && t in s.cleared && t in s.holding && t !in s.exiting
    requires t in s.threadList ==> s.Running(t) == []
    ensures var s' := Apply(s, e);
            t in s'.cleared && t in s'.holding && t !in s'.exiting && (t in s'.threadList ==> s'.Running(t) == [])
  {
    var s' := Apply(s, e);
    if t in s'.threadList {
      assert t in s.threadList && s'.Running(t) == s.Running(t);
    }
  }

  lemma StepKeepsSealed(s: State, e: Event, t: ThreadId, pending: seq<CallId>)
    requires Inv(s) && Enabled(s, e) && Sealed(s, t, pending)
    ensures Sealed(Apply(s, e), t, pending)
  {
    assert ThreadInv(s, t);
    StepKeepsCleared(s, e, t);
    if s.lock.HeldBy? && Deadlocked(s, s.lock.call, t) {
      StepKeepsDeadlock(s, e, s.lock.call, t);
    } else {
      if e.QueueCallBack? {
        assert CallInv(s, e.c);
      }
      StepKeepsHeld(s, e, t);
    }
  }

  lemma {:induction false} RunKeepsSealed(doAll: set<ThreadId>, es: seq<Event>, k: nat, t: ThreadId)
    requires IsRun(doAll, es) && k < |es| && es[k] == ClearSelf(t)
    requires IsRun(doAll, es[..k])
    ensures Sealed(Exec(doAll, es), t, Exec(doAll, es[..k]).Tasks(t))
  {
    var front := es[..|es| - 1];
    RunKeepsInv(doAll, front);
    if k == |es| - 1 {
      assert front == es[..k];
      var s := Exec(doAll, front);
      assert Held(s, t) == s.Tasks(t);
    } else {
      assert front[..k] == es[..k];
      RunKeepsSealed(doAll, front, k, t);
      StepKeepsSealed(Exec(doAll, front), es[|es| - 1], t, Exec(doAll, es[..k]).Tasks(t));
    }
  }

  // A callback queued after the entry is cleared is never run: as long as t is on the list it
  // runs nothing, and when it has got off the list it holds exactly what was pending before.
  lemma NothingAddedAfterClearing(doAll: set<ThreadId>, es: seq<Event>, k: nat, t: ThreadId)
    requires IsRun(doAll, es) && k < |es| && es[k] == ClearSelf(t) && IsRun(doAll, es[..k])
    ensures var s := Exec(doAll, es);
            if t in s.threadList then s.Running(t) == [] else Held(s, t) == Exec(doAll, es[..k]).Tasks(t)
  {
    RunKeepsSealed(doAll, es, k, t);
  }

  /** Some continuation crashes on t. */
  ghost predicate CanCrash(doAll: set<ThreadId>, es: seq<Event>, t: ThreadId) {
    exists more: seq<Event> :: IsRun(doAll, es + more) && Exec(doAll, es + more).crashed == Some(t)
  }

  lemma OnlyClearSelfClears(s: State, e: Event, t: ThreadId)
    requires Enabled(s, e) && t in Apply(s, e).cleared && e != ClearSelf(t)
    ensures t in s.cleared
  {
  }

  lemma {:induction false} ClearedAt(doAll: set<ThreadId>, es: seq<Event>, t: ThreadId) returns (k: nat)
    requires IsRun(doAll, es) && t in Exec(doAll, es).cleared
    ensures k < |es| && es[k] == ClearSelf(t) && IsRun(doAll, es[..k])
  {
    var n := |es| - 1;
    if es[n] == ClearSelf(t) {
      k := n;
    } else {
      OnlyClearSelfClears(Exec(doAll, es[..n]), es[n], t);
      k := ClearedAt(doAll, es[..n], t);
      assert es[..n][..k] == es[..k];
    }
  }

  // A thread crashes the process only on a callback that was pending on it when its entry was
  // cleared; a thread that calls exit never does.
  lemma CrashNeedsPending(doAll: set<ThreadId>, es: seq<Event>, t: ThreadId) returns (k: nat)
    requires IsRun(doAll, es) && Exec(doAll, es).crashed == Some(t)
    ensures t !in Exec(doAll, es).exiting
    ensures k < |es| && es[k] == ClearSelf(t) && IsRun(doAll, es[..k]) && Exec(doAll, es[..k]).Tasks(t) != []
  {
    RunKeepsInv(doAll, es);
    assert ThreadInv(Exec(doAll, es), t);
    k := ClearedAt(doAll, es, t);
    RunKeepsSealed(doAll, es, k, t);
  }

  /** t has cleared its entry, got off the list, and has callbacks to drain; it only needs the
      list lock once more if it has not said yet that it is done. */
  predicate Draining(s: State, t: ThreadId) {
    && s.crashed.None? && t in s.cleared && t in s.holding && t !in s.threadList
    && (s.lock.Free? || t in s.isDone)
  }

  lemma DrainOneStep(s: State, t: ThreadId) returns (e: Event)
    requires ThreadInv(s, t) && Draining(s, t) && Held(s, t) != []
    ensures Enabled(s, e)
    ensures var s' := Apply(s, e);
            s'.crashed == Some(t) || (Draining(s', t) && Held(s', t) == Held(s, t) && ToGo(s', t) < ToGo(s, t))
  {
    if s.Running(t) != [] {
      e := FinishTask(t);
    } else if t in s.isDone {
      e := PopTask(t);
      PopKeepsHeld(s, t);
    } else {
      e := SetDone(t);
    }
  }

  function ToGo(s: State, t: ThreadId): nat {
    if s.Running(t) != [] then 0 else if t in s.isDone then 1 else 2
  }

  lemma {:induction false} RunDrainsOnce(doAll: set<ThreadId>, es: seq<Event>, t: ThreadId) returns (longer: seq<Event>)
    requires IsRun(doAll, es) && Draining(Exec(doAll, es), t) && Held(Exec(doAll, es), t) != []
    ensures |longer| == |es| + 1 && longer[..|es|] == es && IsRun(doAll, longer)
    ensures var s, s' := Exec(doAll, es), Exec(doAll, longer);
            s'.crashed == Some(t) || (Draining(s', t) && Held(s', t) == Held(s, t) && ToGo(s', t) < ToGo(s, t))
  {
    RunKeepsInv(doAll, es);
    assert ThreadInv(Exec(doAll, es), t);
    var e := DrainOneStep(Exec(doAll, es), t);
    RunOneMore(doAll, es, e);
    longer := es + [e];
  }

  lemma {:induction false} DrainCrashes(doAll: set<ThreadId>, es: seq<Event>, t: ThreadId) returns (longer: seq<Event>)
    requires IsRun(doAll, es) && Draining(Exec(doAll, es), t) && Held(Exec(doAll, es), t) != []
    ensures |longer| >= |es| && longer[..|es|] == es
    ensures IsRun(doAll, longer) && Exec(doAll, longer).crashed == Some(t)
    decreases ToGo(Exec(doAll, es), t)
  {
    var next := RunDrainsOnce(doAll, es, t);
    longer := next;
    if Exec(doAll, next).crashed != Some(t) {
      longer := DrainCrashes(doAll, next, t);
      assert longer[..|es|] == longer[..|next|][..|es|];
    }
  }

  lemma NothingPending(doAll: set<ThreadId>, es: seq<Event>, k: nat, t: ThreadId)
    requires IsRun(doAll, es) && k < |es| && es[k] == ClearSelf(t) && IsRun(doAll, es[..k])
    requires Exec(doAll, es[..k]).Tasks(t) == []
    ensures Exec(doAll, es).crashed != Some(t)
  {
    RunKeepsSealed(doAll, es, k, t);
    RunKeepsInv(doAll, es);
    assert ThreadInv(Exec(doAll, es), t);
  }

  // A thread that has returned from its start routine, got off the list and is free to drain its
  // tasks can crash the process if and only if a callback was pending on it when its entry was
  // cleared.
  lemma CrashExactly(doAll: set<ThreadId>, es: seq<Event>, k: nat, t: ThreadId)
    requires IsRun(doAll, es) && k < |es| && es[k] == ClearSelf(t) && IsRun(doAll, es[..k])
    requires Draining(Exec(doAll, es), t)
    ensures CanCrash(doAll, es, t) <==> Exec(doAll, es[..k]).Tasks(t) != []
  {
    var front := es[..k];
    RunKeepsSealed(doAll, es, k, t);
    if Exec(doAll, front).Tasks(t) != [] {
      var longer := DrainCrashes(doAll, es, t);
      assert longer == es + longer[|es|..];
    } else {
      forall more: seq<Event> | IsRun(doAll, es + more) ensures Exec(doAll, es + more).crashed != Some(t) {
        assert (es + more)[..k] == front;
        NothingPending(doAll, es + more, k, t);
      }
    }
  }

  // ---- All of this happens ----

  /** A thread starts and a call queues its callback on it. */
  function QueuedRun(t: ThreadId, c: CallId): seq<Event> {
    [Spawn(t), BeginScan(c), CheckDone(c, t), QueueCallBack(c), SignalThread(c), EndScan(c)]
  }

  /** Only t is on the list, nobody is on the way out, and what t has pending and running is this. */
  predicate OneThread(s: State, t: ThreadId, tasks: seq<CallId>, running: seq<CallId>) {
    && s.crashed.None? && s.lock.Free? && s.threadList == {t} == s.seen
    && s.isDone == {} == s.exiting && s.cleared == {} == s.holding && s.cleanedUp == {} && s.inside == map[]
    && s.Tasks(t) == tasks && s.Running(t) == running
  }

  lemma Spawned(doAll: set<ThreadId>, t: ThreadId)
    ensures IsRun(doAll, [Spawn(t)]) && OneThread(Exec(doAll, [Spawn(t)]), t, [], [])
    ensures Exec(doAll, [Spawn(t)]).calls == map[] && Exec(doAll, [Spawn(t)]).doAll == doAll
  {
    RunOneMore(doAll, [], Spawn(t));
    assert [] + [Spawn(t)] == [Spawn(t)];
  }

  lemma ScanSteps(s: State, t: ThreadId, c: CallId) returns (s1: State, s2: State, s3: State, s4: State, s5: State)
    requires OneThread(s, t, [], []) && s.calls == map[]
    ensures Enabled(s, BeginScan(c)) && s1 == Apply(s, BeginScan(c))
    ensures Enabled(s1, CheckDone(c, t)) && s2 == Apply(s1, CheckDone(c, t))
    ensures Enabled(s2, QueueCallBack(c)) && s3 == Apply(s2, QueueCallBack(c))
    ensures Enabled(s3, SignalThread(c)) && s4 == Apply(s3, SignalThread(c))
    ensures Enabled(s4, EndScan(c)) && s5 == Apply(s4, EndScan(c))
    ensures OneThread(s5, t, [c], []) && s5.doAll == s.doAll && s5.calls.Keys == {c}
    ensures s5.CallOf(c).phase.AwaitingAll? && s5.CallOf(c).enqueued == {t}
  {
    s1 := Apply(s, BeginScan(c));
    s2 := Apply(s1, CheckDone(c, t));
    s3 := Apply(s2, QueueCallBack(c));
    s4 := Apply(s3, SignalThread(c));
    s5 := Apply(s4, EndScan(c));
  }

  lemma QueuedRuns(doAll: set<ThreadId>, t: ThreadId, c: CallId)
    ensures var es := QueuedRun(t, c);
            IsRun(doAll, es) && var s := Exec(doAll, es);
            OneThread(s, t, [c], []) && s.doAll == doAll && s.calls.Keys == {c}
            && s.CallOf(c).phase.AwaitingAll? && s.CallOf(c).enqueued == {t}
  {
    Spawned(doAll, t);
    var e1 := [Spawn(t)];
    var s1, s2, s3, s4, s5 := ScanSteps(Exec(doAll, e1), t, c);
    var e2 := e1 + [BeginScan(c)];
    var e3 := e2 + [CheckDone(c, t)];
    var e4 := e3 + [QueueCallBack(c)];
    var e5 := e4 + [SignalThread(c)];
    RunOneMore(doAll, e1, BeginScan(c));
    RunOneMore(doAll, e2, CheckDone(c, t));
    RunOneMore(doAll, e3, QueueCallBack(c));
    RunOneMore(doAll, e4, SignalThread(c));
    RunOneMore(doAll, e5, EndScan(c));
    assert QueuedRun(t, c) == e5 + [EndScan(c)];
  }

  // A thread returns from its start routine and a call comes in before it is off the list.
  lemma ReturningDeadlocks(doAll: set<ThreadId>, t: ThreadId, c: CallId)
    ensures var es := [Spawn(t), ClearSelf(t), BeginScan(c)];
            IsRun(doAll, es) && Deadlocked(Exec(doAll, es), c, t) && !CanEnd(doAll, es, c)
  {
    Spawned(doAll, t);
    var e1 := [Spawn(t)];
    var e2 := e1 + [ClearSelf(t)];
    RunOneMore(doAll, e1, ClearSelf(t));
    RunOneMore(doAll, e2, BeginScan(c));
    assert [Spawn(t), ClearSelf(t), BeginScan(c)] == e2 + [BeginScan(c)];
    ScanCanEndExactly(doAll, e2 + [BeginScan(c)], c);
  }

  lemma ExitInsideSteps(s: State, t: ThreadId, c: CallId, d: CallId)
      returns (s1: State, s2: State, s3: State, s4: State)
    requires OneThread(s, t, [c], []) && s.calls.Keys == {c} && c != d
    ensures Enabled(s, PopTask(t)) && s1 == Apply(s, PopTask(t)) && OneThread(s1, t, [], [c])
    ensures Enabled(s1, BeginScan(d)) && s2 == Apply(s1, BeginScan(d))
    ensures Enabled(s2, CheckDone(d, t)) && s3 == Apply(s2, CheckDone(d, t))
    ensures Enabled(s3, CallExit(t)) && s4 == Apply(s3, CallExit(t))
    ensures Deadlocked(s4, d, t) && s4.holding == {} && c in s4.Abandoned(t) && s4.doAll == s.doAll
    ensures s4.crashed.None? && s4.CallOf(d).phase.Scanning? && s4.CallOf(c) == s.CallOf(c)
  {
    s1 := Apply(s, PopTask(t));
    s2 := Apply(s1, BeginScan(d));
    s3 := Apply(s2, CheckDone(d, t));
    s4 := Apply(s3, CallExit(t));
    assert s4.Running(t) == [c];
  }

  // A thread calls exit inside a callback just after another scan has found it not done. That
  // scan never ends, and if the thread takes part in do-all calls, neither call ever returns.
  lemma {:induction false} ExitInsideDeadlocks(doAll: set<ThreadId>, t: ThreadId, c: CallId, d: CallId)
    requires c != d
    ensures var es := QueuedRun(t, c) + [PopTask(t), BeginScan(d), CheckDone(d, t), CallExit(t)];
            IsRun(doAll, es) && Exec(doAll, es).holding == {} && Deadlocked(Exec(doAll, es), d, t)
            && !CanEnd(doAll, es, d) && !CanReturn(doAll, es, d) && (t in doAll ==> !CanReturn(doAll, es, c))
  {
    var e0 := QueuedRun(t, c);
    QueuedRuns(doAll, t, c);
    var s1, s2, s3, s4 := ExitInsideSteps(Exec(doAll, e0), t, c, d);
    var e1 := e0 + [PopTask(t)];
    var e2 := e1 + [BeginScan(d)];
    var e3 := e2 + [CheckDone(d, t)];
    var e4 := e3 + [CallExit(t)];
    RunOneMore(doAll, e0, PopTask(t));
    RunOneMore(doAll, e1, BeginScan(d));
    RunOneMore(doAll, e2, CheckDone(d, t));
    RunOneMore(doAll, e3, CallExit(t));
    assert e0 + [PopTask(t), BeginScan(d), CheckDone(d, t), CallExit(t)] == e4;
    ScanCanEndExactly(doAll, e4, d);
    CallCanReturnExactly(doAll, e4, d);
    CallCanReturnExactly(doAll, e4, c);
    assert t in doAll ==> Lost(s4, c, t);
  }

  lemma CrashSteps(s: State, t: ThreadId, c: CallId)
      returns (s1: State, s2: State, s3: State, s4: State, s5: State)
    requires OneThread(s, t, [c], [])
    ensures Enabled(s, ClearSelf(t)) && s1 == Apply(s, ClearSelf(t))
    ensures Enabled(s1, LeaveList(t)) && s2 == Apply(s1, LeaveList(t))
    ensures Enabled(s2, SetDone(t)) && s3 == Apply(s2, SetDone(t))
    ensures Enabled(s3, PopTask(t)) && s4 == Apply(s3, PopTask(t))
    ensures Enabled(s4, FinishTask(t)) && s5 == Apply(s4, FinishTask(t))
    ensures s5.crashed == Some(t)
  {
    s1 := Apply(s, ClearSelf(t));
    s2 := Apply(s1, LeaveList(t));
    s3 := Apply(s2, SetDone(t));
    s4 := Apply(s3, PopTask(t));
    s5 := Apply(s4, FinishTask(t));
  }

  // A thread returns from its start routine with a callback pending, and goes through a null
  // thread at the end of it.
  lemma ReturningCrashes(doAll: set<ThreadId>, t: ThreadId, c: CallId)
    ensures var es := QueuedRun(t, c) + [ClearSelf(t), LeaveList(t), SetDone(t), PopTask(t), FinishTask(t)];
            IsRun(doAll, es) && Exec(doAll, es).crashed == Some(t)
  {
    var e0 := QueuedRun(t, c);
    QueuedRuns(doAll, t, c);
    var s1, s2, s3, s4, s5 := CrashSteps(Exec(doAll, e0), t, c);
    var e1 := e0 + [ClearSelf(t)];
    var e2 := e1 + [LeaveList(t)];
    var e3 := e2 + [SetDone(t)];
    var e4 := e3 + [PopTask(t)];
    RunOneMore(doAll, e0, ClearSelf(t));
    RunOneMore(doAll, e1, LeaveList(t));
    RunOneMore(doAll, e2, SetDone(t));
    RunOneMore(doAll, e3, PopTask(t));
    RunOneMore(doAll, e4, FinishTask(t));
    assert e0 + [ClearSelf(t), LeaveList(t), SetDone(t), PopTask(t), FinishTask(t)] == e4 + [FinishTask(t)];
  }
}
