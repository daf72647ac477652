/** What every section of the monitor does, told by who is inside, and that nobody is shut out. */
module MonitorHistory {
  import opened Monitor

  /** Nobody but t is inside. */
  ghost predicate Alone(s: State, t: ThreadId) {
    forall b :: b != t ==> s.Local(b).Levels() == 0
  }

  ghost predicate Empty(s: State) {
    forall b :: s.Local(b).Levels() == 0
  }

  lemma MayEnterAlone(s: State, t: ThreadId)
    requires Inv(s)
    ensures s.MayEnter(t) <==> Alone(s, t)
    ensures s.count == 0 <==> Empty(s)
  {
    if s.owner.Owned? {
      assert s.Local(s.owner.who).Levels() == s.count;
    }
  }

  /** What becomes of the thread: it gets in if nobody else is inside, or comes back from its wait
      if nobody is, and otherwise stays where it was; leaving and going to sleep always succeed. */
  ghost predicate Follows(s: State, e: Event, l: Local, l': Local) {
    match e
    case Synchronize(t) => l' == if Alone(s, t) then Active(l.depth + 1) else l
    case TrySync(t) => l' == if Alone(s, t) then Active(l.depth + 1) else l
    case Desynchronize(_) => l'.Active? && l'.depth == l.depth - 1
    case CallWait(_) => l' == WaitEntering(l.depth)
    case WaitEnter(t) => l' == if Alone(s, t) then WaitHeld(l.depth) else l
    case WaitRelease(_) => l'.Waiting? && l'.depth == l.depth
    case WaitWake(_) => l' == if Empty(s) then WaitRestored(l.depth) else l
    case WaitReturn(_) => l' == Active(l.depth)
  }

  // On every run each section does to its thread exactly what it should, and nothing to others.
  lemma {:induction false} SectionsAreExact(es: seq<Event>, e: Event)
    requires IsRun(es) && Enabled(Exec(es), e)
    ensures Follows(Exec(es), e, Exec(es).Local(e.t), Apply(Exec(es), e).Local(e.t))
    ensures forall b :: b != e.t ==> Apply(Exec(es), e).Local(b) == Exec(es).Local(b)
  {
    RunKeepsInv(es);
    MayEnterAlone(Exec(es), e.t);
  }

  /** How often t has got in, by asking or by trying, and how often it has left. */
  ghost function Entered(es: seq<Event>, t: ThreadId): nat
    requires IsRun(es)
  {
    if es == [] then 0
    else
      var front, e := es[..|es| - 1], es[|es| - 1];
      Entered(front, t)
      + if (e == Synchronize(t) || e == TrySync(t)) && Alone(Exec(front), t) then 1 else 0
  }

  function Left(es: seq<Event>, t: ThreadId): nat {
    if es == [] then 0 else Left(es[..|es| - 1], t) + if es[|es| - 1] == Desynchronize(t) then 1 else 0
  }

  // On every run a thread is as deep inside as it has got in and not left again; waits do not
  // count. Between calls it may ask, try or wait at any depth, and leave if it is inside.
  lemma {:induction false} DepthIsHistory(es: seq<Event>, t: ThreadId)
    requires IsRun(es)
    ensures Exec(es).Local(t).depth == Entered(es, t) - Left(es, t)
    ensures Exec(es).Local(t).Active? ==>
      && Enabled(Exec(es), Synchronize(t)) && Enabled(Exec(es), TrySync(t)) && Enabled(Exec(es), CallWait(t))
      && (Enabled(Exec(es), Desynchronize(t)) <==> Entered(es, t) > Left(es, t))
  {
    if es == [] {
    } else {
      var front, e := es[..|es| - 1], es[|es| - 1];
      DepthIsHistory(front, t);
      SectionsAreExact(front, e);
    }
  }

  // ---- Nobody is shut out ----

  lemma RunOneMore(es: seq<Event>, e: Event)
    requires IsRun(es) && Enabled(Exec(es), e)
    ensures IsRun(es + [e]) && Exec(es + [e]) == Apply(Exec(es), e)
  {
    var longer := es + [e];
    assert longer[..|longer| - 1] == es && longer[|longer| - 1] == e;
  }

  /** How many sections a thread inside is from the outside. */
  function ToLeave(l: Local): nat {
    match l
    case Active(d) => d
    case WaitEntering(_) => 2
    case WaitHeld(_) => 1
    case Waiting(_, _, _) => 0
    case WaitRestored(d) => d + 1
  }

  /** The next section of a thread that is inside. */
  function OnTheWayOut(l: Local, b: ThreadId): Event {
    match l
    case Active(_) => Desynchronize(b)
    case WaitEntering(_) => WaitEnter(b)
    case WaitHeld(_) => WaitRelease(b)
    case Waiting(_, _, _) => WaitWake(b)
    case WaitRestored(_) => WaitReturn(b)
  }

  lemma OneStepOut(s: State, b: ThreadId)
    requires Inv(s) && s.Local(b).Levels() > 0
    ensures Enabled(s, OnTheWayOut(s.Local(b), b))
    ensures ToLeave(Apply(s, OnTheWayOut(s.Local(b), b)).Local(b)) < ToLeave(s.Local(b))
    ensures forall t :: t != b ==> Apply(s, OnTheWayOut(s.Local(b), b)).Local(t) == s.Local(t)
  {
    assert s.owner == Owned(b);
  }

  // Whoever is inside can leave, without anybody else doing anything.
  lemma {:induction false} OthersLeave(es: seq<Event>, t: ThreadId, b: ThreadId) returns (longer: seq<Event>)
    requires IsRun(es) && b != t && (Alone(Exec(es), t) || Exec(es).Local(b).Levels() > 0)
    ensures es <= longer && IsRun(longer) && Alone(Exec(longer), t) && Exec(longer).Local(t) == Exec(es).Local(t)
    decreases ToLeave(Exec(es).Local(b))
  {
    longer := es;
    var s := Exec(es);
    RunKeepsInv(es);
    if s.Local(b).Levels() > 0 {
      var e := OnTheWayOut(s.Local(b), b);
      OneStepOut(s, b);
      RunOneMore(es, e);
      StepKeepsInv(s, e);
      StillAlone(s, e, t, b);
      longer := OthersLeave(es + [e], t, b);
    }
  }

  lemma StillAlone(s: State, e: Event, t: ThreadId, b: ThreadId)
    requires Inv(s) && Enabled(s, e) && e.t == b && s.Local(b).Levels() > 0 && b != t
    ensures Alone(Apply(s, e), t) || Apply(s, e).Local(b).Levels() > 0
  {
    assert forall x :: x != b ==> Apply(s, e).Local(x) == s.Local(x);
    assert s.owner == Owned(b);
  }

  lemma {:induction false} GetAlone(es: seq<Event>, t: ThreadId) returns (longer: seq<Event>)
    requires IsRun(es)
    ensures es <= longer && IsRun(longer) && Alone(Exec(longer), t) && Exec(longer).Local(t) == Exec(es).Local(t)
  {
    longer := es;
    if !Alone(Exec(es), t) {
      var b :| b != t && Exec(es).Local(b).Levels() != 0;
      longer := OthersLeave(es, t, b);
    }
  }

  lemma {:induction false} RunSection(es: seq<Event>, e: Event) returns (longer: seq<Event>)
    requires IsRun(es) && Enabled(Exec(es), e)
    ensures es <= longer && IsRun(longer) && Follows(Exec(es), e, Exec(es).Local(e.t), Exec(longer).Local(e.t))
    ensures forall b :: b != e.t ==> Exec(longer).Local(b) == Exec(es).Local(b)
  {
    RunOneMore(es, e);
    SectionsAreExact(es, e);
    longer := es + [e];
  }

  // Nobody is shut out. On every run, any thread that asks for the monitor can still get in once
  // more.
  lemma {:induction false} EveryoneGetsIn(es: seq<Event>, t: ThreadId) returns (longer: seq<Event>)
    requires IsRun(es) && Exec(es).Local(t).Active?
    ensures es <= longer && IsRun(longer)
    ensures Exec(longer).Local(t) == Active(Exec(es).Local(t).depth + 1)
  {
    longer := GetAlone(es, t);
    longer := RunSection(longer, Synchronize(t));
  }

  /** How many sections a thread is from the end of its call to wait. */
  function ToReturn(l: Local): nat {
    match l
    case Active(_) => 0
    case WaitEntering(_) => 4
    case WaitHeld(_) => 3
    case Waiting(_, _, _) => 2
    case WaitRestored(_) => 1
  }

  // Any thread that is waiting can still come back, to the depth it called wait at.
  lemma {:induction false} EveryWaitReturns(es: seq<Event>, t: ThreadId) returns (longer: seq<Event>)
    requires IsRun(es)
    ensures es <= longer && IsRun(longer) && Exec(longer).Local(t) == Active(Exec(es).Local(t).depth)
    decreases ToReturn(Exec(es).Local(t))
  {
    longer := es;
    var l := Exec(es).Local(t);
    if !l.Active? {
      longer := GetAlone(es, t);
      longer := RunSection(longer, OnTheWayOut(l, t));
      longer := EveryWaitReturns(longer, t);
    }
  }
}
