/** The re-entrant monitor every object carries: an owner and a nesting count, guarded by a
    mutex that is released while a thread sleeps on the condition. One event for each section
    run under the mutex; a thread that finds the monitor taken, or is woken too early, goes
    back to sleep and leaves the state as it was. */
module Monitor {
  type ThreadId = nat

  datatype Owner = Nobody | Owned(who: ThreadId)

  /** Where a thread stands. depth is the nesting the thread had reached before its current
      call to wait, or has reached when it is in no such call. */
  datatype Local =
    | Active(depth: nat)
    | WaitEntering(depth: nat)
    | WaitHeld(depth: nat)
    | Waiting(depth: nat, savedOwner: Owner, savedCount: nat)
    | WaitRestored(depth: nat)
  {
    /** How many levels of the monitor the thread is entitled to at this point. */
    function Levels(): nat {
      match this
      case Active(d) => d
      case WaitEntering(d) => d
      case WaitHeld(d) => d + 1
      case Waiting(_, _, _) => 0
      case WaitRestored(d) => d + 1
    }
  }

  datatype State = State(count: nat, owner: Owner, locals: map<ThreadId, Local>) {
    function Local(t: ThreadId): Local {
      if t in locals then locals[t] else Active(0)
    }

    predicate MayEnter(t: ThreadId) {
      count == 0 || owner == Owned(t)
    }
  }

  datatype Event =
    | Synchronize(t: ThreadId)
    | TrySync(t: ThreadId)
    | Desynchronize(t: ThreadId)
    | CallWait(t: ThreadId)
    | WaitEnter(t: ThreadId)
    | WaitRelease(t: ThreadId)
    | WaitWake(t: ThreadId)
    | WaitReturn(t: ThreadId)

  predicate Enabled(s: State, e: Event) {
    var l := s.Local(e.t);
    match e
    case Synchronize(_) => l.Active?
    case TrySync(_) => l.Active?
    case Desynchronize(t) => l.Active? && l.depth > 0
    case CallWait(_) => l.Active?
    case WaitEnter(_) => l.WaitEntering?
    case WaitRelease(_) => l.WaitHeld?
    case WaitWake(_) => l.Waiting?
    case WaitReturn(_) => l.WaitRestored?
  }

  function Acquire(s: State, t: ThreadId, l: Local): State {
    s.(count := s.count + 1, owner := Owned(t), locals := s.locals[t := l])
  }

  function Release(s: State, t: ThreadId, l: Local): State {
    var n := if s.count == 0 then 0 else s.count - 1;
    s.(count := n, owner := if n == 0 then Nobody else s.owner, locals := s.locals[t := l])
  }

  function Apply(s: State, e: Event): State
    requires Enabled(s, e)
  {
    var l := s.Local(e.t);
    match e
    case Synchronize(t) => if s.MayEnter(t) then Acquire(s, t, Active(l.depth + 1)) else s
    case TrySync(t) => if s.MayEnter(t) then Acquire(s, t, Active(l.depth + 1)) else s
    case Desynchronize(t) => Release(s, t, Active(l.depth - 1))
    case CallWait(t) => s.(locals := s.locals[t := WaitEntering(l.depth)])
    case WaitEnter(t) => if s.MayEnter(t) then Acquire(s, t, WaitHeld(l.depth)) else s
    case WaitRelease(t) =>
      State(0, Nobody, s.locals[t := Waiting(l.depth, s.owner, s.count)])
    case WaitWake(t) =>
      if s.count > 0 then s else State(l.savedCount, l.savedOwner, s.locals[t := WaitRestored(l.depth)])
    case WaitReturn(t) => Release(s, t, Active(l.depth))
  }

  const START := State(0, Nobody, map[])

  predicate IsRun(es: seq<Event>)
    decreases |es|, 0
  {
    es == [] || (IsRun(es[..|es| - 1]) && Enabled(Exec(es[..|es| - 1]), es[|es| - 1]))
  }

  function Exec(es: seq<Event>): State
    requires IsRun(es)
    decreases |es|, 1
  {
    if es == [] then START else Apply(Exec(es[..|es| - 1]), es[|es| - 1])
  }

  ghost predicate Inv(s: State) {
    && (s.count == 0 <==> s.owner == Nobody)
    && (forall t :: s.owner == Owned(t) ==> s.Local(t).Levels() == s.count)
    && (forall t :: s.Local(t).Levels() > 0 ==> s.owner == Owned(t))
    && (forall t :: s.Local(t).Waiting? ==>
          s.Local(t).savedOwner == Owned(t) && s.Local(t).savedCount == s.Local(t).depth + 1)
  }

  lemma StepKeepsInv(s: State, e: Event)
    requires Inv(s) && Enabled(s, e)
    ensures Inv(Apply(s, e))
  {
    var s' := Apply(s, e);
    assert forall t :: t != e.t ==> s'.Local(t) == s.Local(t);
  }

  lemma {:induction false} RunKeepsInv(es: seq<Event>)
    requires IsRun(es)
    ensures Inv(Exec(es))
  {
    if es == [] {
    } else {
      RunKeepsInv(es[..|es| - 1]);
      StepKeepsInv(Exec(es[..|es| - 1]), es[|es| - 1]);
    }
  }

  // Whatever the interleaving, one thread at most is inside, the count is its nesting depth,
  // and the monitor is free exactly when nobody is inside. The owner assertion of a thread
  // that leaves can therefore never fail.
  lemma MutualExclusion(es: seq<Event>, a: ThreadId)
    requires IsRun(es) && Exec(es).Local(a).Levels() > 0
    ensures Exec(es).owner == Owned(a) && Exec(es).count == Exec(es).Local(a).Levels()
    ensures forall b :: b != a ==> Exec(es).Local(b).Levels() == 0
  {
    RunKeepsInv(es);
  }

  predicate InWait(l: Local) {
    !l.Active?
  }

  // From the call to wait until it returns, the thread stays in the call and remembers its depth.
  lemma {:induction false} WaitRemembers(es: seq<Event>, i: nat, t: ThreadId)
    requires IsRun(es) && i < |es| && es[i] == CallWait(t)
    requires forall k :: i < k < |es| ==> es[k] != WaitReturn(t)
    ensures IsRun(es[..i])
    ensures InWait(Exec(es).Local(t)) && Exec(es).Local(t).depth == Exec(es[..i]).Local(t).depth
    decreases |es|
  {
    var n := |es| - 1;
    if i < n {
      assert es[..n][..i] == es[..i];
      WaitRemembers(es[..n], i, t);
    }
  }

  // A thread that returns from wait, whatever depth it was called at and whatever the other
  // threads and early wake-ups did meanwhile, has exactly the depth and the ownership it had.
  lemma WaitRestores(es: seq<Event>, i: nat, t: ThreadId)
    requires IsRun(es) && i < |es| - 1 && es[i] == CallWait(t) && es[|es| - 1] == WaitReturn(t)
    requires forall k :: i < k < |es| - 1 ==> es[k] != WaitReturn(t)
    ensures IsRun(es[..i])
    ensures Exec(es).Local(t) == Exec(es[..i]).Local(t)
    ensures Exec(es).owner == Owned(t) <==> Exec(es[..i]).owner == Owned(t)
    ensures Exec(es).owner == Owned(t) ==> Exec(es).count == Exec(es[..i]).count
  {
    var front := es[..|es| - 1];
    assert front[..i] == es[..i];
    WaitRemembers(front, i, t);
    RunKeepsInv(es);
    RunKeepsInv(es[..i]);
    IsRunPrefix(es, i + 1);
    assert es[..i + 1][..i] == es[..i];
  }

  lemma {:induction false} IsRunPrefix(es: seq<Event>, n: nat)
    requires IsRun(es) && n <= |es|
    ensures IsRun(es[..n])
    decreases |es|
  {
    if n < |es| {
      IsRunPrefix(es[..|es| - 1], n);
      assert es[..|es| - 1][..n] == es[..n];
    } else {
      assert es[..n] == es;
    }
  }
}
