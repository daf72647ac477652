/** Where threads and calls stand at the barrier, told from the events that have happened. */
module BarrierHistory {
  import opened Barrier
  import History

  /** What is asked of a history: has the thread been started, is it on the list, has it announced
      its end, called exit, cleared its entry, is it on the way through the cleanup of exit, or
      through with it; has the call begun its scan and not ended it, or returned. */
  datatype Topic =
    | Seen(t: ThreadId) | Listed(t: ThreadId) | IsDone(t: ThreadId) | Exiting(t: ThreadId)
    | Cleared(t: ThreadId) | InCleanup(t: ThreadId) | CleanedUp(t: ThreadId)
    | InScan(c: CallId) | HasReturned(c: CallId)

  predicate Starts(x: Topic, e: Event) {
    match (x, e)
    case (Seen(t), Spawn(u)) => t == u
    case (Listed(t), Spawn(u)) => t == u
    case (IsDone(t), CallExit(u)) => t == u
    case (IsDone(t), SetDone(u)) => t == u
    case (Exiting(t), CallExit(u)) => t == u
    case (Cleared(t), ClearSelf(u)) => t == u
    case (InCleanup(t), EnterCleanup(u)) => t == u
    case (CleanedUp(t), EndCleanup(u)) => t == u
    case (InScan(c), BeginScan(d)) => c == d
    case (HasReturned(c), Return(d)) => c == d
    case _ => false
  }

  predicate Ends(x: Topic, e: Event) {
    match (x, e)
    case (Listed(t), LeaveList(u)) => t == u
    case (InCleanup(t), SetDone(u)) => t == u
    case (InScan(c), EndScan(d)) => c == d
    case _ => false
  }

  /** Something that starts it has happened, and nothing that ends it since. */
  ghost predicate Since(es: seq<Event>, x: Topic) {
    History.Since(es, x, Starts, Ends)
  }

  lemma SinceGrows(front: seq<Event>, e: Event, x: Topic)
    ensures Since(front + [e], x) <==> Starts(x, e) || (Since(front, x) && !Ends(x, e))
  {
    History.SinceGrows(front, e, x, Starts, Ends);
  }

  /** The thread's monitor is its own for good once it has cleared its entry, and for as long as
      it is on the way through the cleanup of exit. */
  ghost predicate ThreadIsHistory(s: State, es: seq<Event>, t: ThreadId) {
    && (t in s.seen <==> Since(es, Seen(t)))
    && (t in s.threadList <==> Since(es, Listed(t)))
    && (t in s.isDone <==> Since(es, IsDone(t)))
    && (t in s.exiting <==> Since(es, Exiting(t)))
    && (t in s.cleared <==> Since(es, Cleared(t)))
    && (t in s.holding <==> Since(es, Cleared(t)) || Since(es, InCleanup(t)))
    && (t in s.cleanedUp <==> Since(es, CleanedUp(t)))
  }

  lemma StartStep(s: State, e: Event, t: ThreadId)
    requires Enabled(s, e)
    ensures var s' := Apply(s, e);
      && (t in s'.seen <==> t in s.seen || Starts(Seen(t), e))
      && (t in s'.threadList <==> Starts(Listed(t), e) || (t in s.threadList && !Ends(Listed(t), e)))
  {
  }

  lemma EndStep(s: State, e: Event, t: ThreadId)
    requires Enabled(s, e)
    ensures var s' := Apply(s, e);
      && (t in s'.isDone <==> t in s.isDone || Starts(IsDone(t), e))
      && (t in s'.exiting <==> t in s.exiting || Starts(Exiting(t), e))
  {
  }

  lemma ClearStep(s: State, e: Event, t: ThreadId)
    requires Enabled(s, e)
    ensures var s' := Apply(s, e);
      && (t in s'.cleared <==> t in s.cleared || Starts(Cleared(t), e))
      && (t in s'.cleanedUp <==> t in s.cleanedUp || Starts(CleanedUp(t), e))
  {
  }

  lemma HoldStep(s: State, e: Event, t: ThreadId)
    requires Enabled(s, e) && ThreadInv(s, t)
    ensures t in Apply(s, e).holding <==>
      t in Apply(s, e).cleared || Starts(InCleanup(t), e) || (t in s.holding && !Ends(InCleanup(t), e))
  {
  }

  lemma HistoryStarts(front: seq<Event>, e: Event, t: ThreadId)
    ensures var es := front + [e];
      && (Since(es, Seen(t)) <==> Since(front, Seen(t)) || Starts(Seen(t), e))
      && (Since(es, Listed(t)) <==> Starts(Listed(t), e) || (Since(front, Listed(t)) && !Ends(Listed(t), e)))
      && (Since(es, InCleanup(t)) <==>
          Starts(InCleanup(t), e) || (Since(front, InCleanup(t)) && !Ends(InCleanup(t), e)))
  {
    SinceGrows(front, e, Seen(t));
    SinceGrows(front, e, Listed(t));
    SinceGrows(front, e, InCleanup(t));
  }

  lemma HistoryEnds(front: seq<Event>, e: Event, t: ThreadId)
    ensures var es := front + [e];
      && (Since(es, IsDone(t)) <==> Since(front, IsDone(t)) || Starts(IsDone(t), e))
      && (Since(es, Exiting(t)) <==> Since(front, Exiting(t)) || Starts(Exiting(t), e))
      && (Since(es, Cleared(t)) <==> Since(front, Cleared(t)) || Starts(Cleared(t), e))
      && (Since(es, CleanedUp(t)) <==> Since(front, CleanedUp(t)) || Starts(CleanedUp(t), e))
  {
    SinceGrows(front, e, IsDone(t));
    SinceGrows(front, e, Exiting(t));
    SinceGrows(front, e, Cleared(t));
    SinceGrows(front, e, CleanedUp(t));
  }

  lemma StepIsHistory(s: State, front: seq<Event>, e: Event, t: ThreadId)
    requires Enabled(s, e) && ThreadInv(s, t) && ThreadIsHistory(s, front, t)
    ensures ThreadIsHistory(Apply(s, e), front + [e], t)
  {
    StartStep(s, e, t);
    EndStep(s, e, t);
    ClearStep(s, e, t);
    HoldStep(s, e, t);
    HistoryStarts(front, e, t);
    HistoryEnds(front, e, t);
  }

  // On every run a thread is on the list, done, exiting, cleared, holding its monitor or cleaned
  // up exactly as the events say that have happened to it.
  lemma {:induction false} ThreadsAreHistory(doAll: set<ThreadId>, es: seq<Event>, t: ThreadId)
    requires IsRun(doAll, es)
    ensures ThreadIsHistory(Exec(doAll, es), es, t)
  {
    if es == [] {
    } else {
      var front, e := es[..|es| - 1], es[|es| - 1];
      ThreadsAreHistory(doAll, front, t);
      RunKeepsInv(doAll, front);
      StepIsHistory(Exec(doAll, front), front, e, t);
      assert es == front + [e];
    }
  }

  lemma PhaseStep(s: State, e: Event, c: CallId)
    requires Enabled(s, e)
    ensures var p := Apply(s, e).CallOf(c).phase;
      && (p.Scanning? <==> Starts(InScan(c), e) || (s.CallOf(c).phase.Scanning? && !Ends(InScan(c), e)))
      && (p.Returned? <==> Starts(HasReturned(c), e) || (s.CallOf(c).phase.Returned? && e != BeginScan(c)))
  {
  }

  // On every run a call holds the statistics lock from the beginning of its scan to the end of
  // it, and has returned once it has.
  lemma {:induction false} CallsAreHistory(doAll: set<ThreadId>, es: seq<Event>, c: CallId)
    requires IsRun(doAll, es)
    ensures var s := Exec(doAll, es);
      && (s.lock == HeldBy(c) <==> Since(es, InScan(c)))
      && (s.CallOf(c).phase.Returned? <==> Since(es, HasReturned(c)))
  {
    RunKeepsInv(doAll, es);
    assert CallInv(Exec(doAll, es), c);
    if es == [] {
    } else {
      var front, e := es[..|es| - 1], es[|es| - 1];
      CallsAreHistory(doAll, front, c);
      RunKeepsInv(doAll, front);
      assert CallInv(Exec(doAll, front), c);
      PhaseStep(Exec(doAll, front), e, c);
      assert es == front + [e];
      SinceGrows(front, e, InScan(c));
      SinceGrows(front, e, HasReturned(c));
    }
  }

  // ---- A thread that calls exit gets through ----

  /** The way of a thread that calls exit, from announcing its end to the end of its cleanup. */
  function ExitRun(t: ThreadId): seq<Event> {
    [CallExit(t), EnterCleanup(t), LeaveList(t), SetDone(t), EndCleanup(t)]
  }

  lemma ExitAnnounced(s: State, t: ThreadId) returns (s1: State)
    requires s.crashed.None? && ThreadInv(s, t) && t in s.threadList && t !in s.cleared && t !in s.cleanedUp
    ensures Enabled(s, CallExit(t)) && s1 == Apply(s, CallExit(t)) && Enabled(s1, EnterCleanup(t))
    ensures var s2 := Apply(s1, EnterCleanup(t));
      && s2.crashed.None? && s2.lock == s.lock && t in s2.holding && t in s2.threadList && t !in s2.cleared
      && s2.Tasks(t) == s.Tasks(t) && s2.Running(t) == s.Running(t) && s2.Inside(t) == |s.Running(t)|
      && t in s2.isDone && t in s2.seen
  {
    s1 := Apply(s, CallExit(t));
  }

  lemma ExitLeaves(s: State, t: ThreadId) returns (s1: State, s2: State)
    requires s.crashed.None? && s.lock.Free? && t in s.holding && t in s.threadList && t !in s.cleared
    requires t in s.isDone && t in s.seen && s.Tasks(t) == [] && |s.Running(t)| == s.Inside(t)
    ensures Enabled(s, LeaveList(t)) && s1 == Apply(s, LeaveList(t))
    ensures Enabled(s1, SetDone(t)) && s2 == Apply(s1, SetDone(t))
    ensures Enabled(s2, EndCleanup(t)) && t in Apply(s2, EndCleanup(t)).cleanedUp
    ensures t !in Apply(s2, EndCleanup(t)).threadList && t !in Apply(s2, EndCleanup(t)).holding
  {
    s1 := Apply(s, LeaveList(t));
    s2 := Apply(s1, SetDone(t));
    assert s2.Tasks(t) == s.Tasks(t) && s2.Running(t) == s.Running(t) && s2.Inside(t) == s.Inside(t);
  }

  lemma RunFive(doAll: set<ThreadId>, es: seq<Event>, a: Event, b: Event, c: Event, d: Event, e: Event,
                s1: State, s2: State, s3: State, s4: State)
    requires IsRun(doAll, es) && Enabled(Exec(doAll, es), a) && s1 == Apply(Exec(doAll, es), a)
    requires Enabled(s1, b) && s2 == Apply(s1, b) && Enabled(s2, c) && s3 == Apply(s2, c)
    requires Enabled(s3, d) && s4 == Apply(s3, d) && Enabled(s4, e)
    ensures IsRun(doAll, es + [a, b, c, d, e]) && Exec(doAll, es + [a, b, c, d, e]) == Apply(s4, e)
  {
    RunOneMore(doAll, es, a);
    RunOneMore(doAll, es + [a], b);
    RunOneMore(doAll, es + [a] + [b], c);
    RunOneMore(doAll, es + [a] + [b] + [c], d);
    RunOneMore(doAll, es + [a] + [b] + [c] + [d], e);
    assert es + [a] + [b] + [c] + [d] + [e] == es + [a, b, c, d, e];
  }

  // From any state on any run, a thread on the list with nothing pending that is not ending
  // already can call exit, also inside callbacks, and get to the end of its cleanup, off the list
  // and with its monitor given back, as long as no scan is going on.
  lemma {:induction false} ExitGetsThrough(doAll: set<ThreadId>, es: seq<Event>, t: ThreadId)
    requires IsRun(doAll, es) && Exec(doAll, es).crashed.None? && Exec(doAll, es).lock.Free?
    requires t in Exec(doAll, es).threadList && t !in Exec(doAll, es).cleared && Exec(doAll, es).Tasks(t) == []
    ensures IsRun(doAll, es + ExitRun(t))
    ensures var s := Exec(doAll, es + ExitRun(t)); t in s.cleanedUp && t !in s.threadList && t !in s.holding
  {
    var s := Exec(doAll, es);
    RunKeepsInv(doAll, es);
    assert ThreadInv(s, t);
    var s1 := ExitAnnounced(s, t);
    var s2 := Apply(s1, EnterCleanup(t));
    var s3, s4 := ExitLeaves(s2, t);
    RunFive(doAll, es, CallExit(t), EnterCleanup(t), LeaveList(t), SetDone(t), EndCleanup(t), s1, s2, s3, s4);
  }
}
