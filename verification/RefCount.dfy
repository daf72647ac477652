/** Strong and weak reference counting with the resurrection check made before an object is
    deleted, as a state machine with one event for each section run under the object's mutex.
    The counters are what the object stores; the two multisets record who really holds what,
    and guards records the threads that are between dropping the last strong reference and
    deciding whether to delete. Such a thread gives up, by an assertion, after a thousand turns
    of its loop. */
module RefCount {
  import opened Common

  type ThreadId = nat

  const DEREF_MAGIC := 0x0FACEBAB
  const MAX_TURNS := 1000

  /** turns is how often the guard's thread has seen the count reach zero. */
  datatype State = State(
    refCount: int, weakRefCount: int, deletions: nat, turns: nat, aborted: bool,
    strong: multiset<ThreadId>, weak: multiset<ThreadId>, guards: multiset<ThreadId>)
  {
    /** Who may call the object at all: its holders, and a thread inside its deletion. */
    predicate MayUse(t: ThreadId) {
      t in strong || t in weak || t in guards
    }
  }

  datatype Event =
    | Ref(t: ThreadId)
    | Deref(t: ThreadId)
    | Recheck(t: ThreadId)
    | WeakRef(t: ThreadId)
    | WeakDeref(t: ThreadId)
    | PassStrong(t: ThreadId, to: ThreadId)
    | PassWeak(t: ThreadId, to: ThreadId)

  predicate Enabled(s: State, e: Event) {
    !s.aborted &&
    match e
    case Ref(t) => s.MayUse(t)
    case Deref(t) => t in s.strong
    case Recheck(t) => t in s.guards
    case WeakRef(t) => s.MayUse(t)
    case WeakDeref(t) => t in s.weak
    case PassStrong(t, _) => t in s.strong
    case PassWeak(t, _) => t in s.weak
  }

  /** The head of the loop in deref: one count less and, at zero, a guard count put back while
      the thread goes on to run the weak deletion without the mutex. */
  function DropOne(s: State, t: ThreadId, turns: nat): State {
    if s.refCount - 1 != 0 then s.(refCount := s.refCount - 1)
    else if turns + 1 >= MAX_TURNS then s.(aborted := true)
    else s.(refCount := 1, guards := s.guards + multiset{t}, turns := turns + 1)
  }

  function Apply(s: State, e: Event): State
    requires Enabled(s, e)
  {
    match e
    case Ref(t) => s.(refCount := s.refCount + 1, strong := s.strong + multiset{t})
    case Deref(t) => DropOne(s.(strong := s.strong - multiset{t}), t, 0)
    case Recheck(t) =>
      var s' := s.(guards := s.guards - multiset{t});
      if s.refCount > 1 || s.weakRefCount != 0 then DropOne(s', t, s.turns)
      else s'.(refCount := DEREF_MAGIC, deletions := s.deletions + 1)
    case WeakRef(t) => s.(weakRefCount := s.weakRefCount + 1, weak := s.weak + multiset{t})
    case WeakDeref(t) =>
      var s' := s.(weakRefCount := s.weakRefCount - 1, weak := s.weak - multiset{t});
      if DeletesInWeakDeref(s) then s'.(refCount := DEREF_MAGIC, deletions := s.deletions + 1) else s'
    case PassStrong(t, to) => s.(strong := s.strong - multiset{t} + multiset{to})
    case PassWeak(t, to) => s.(weak := s.weak - multiset{t} + multiset{to})
  }

  /** The condition under which dropping a weak reference deletes the object. */
  predicate DeletesInWeakDeref(s: State) {
    s.weakRefCount - 1 == 0 && s.refCount == 0
  }

  function Start(creator: ThreadId): State {
    State(1, 0, 0, 0, false, multiset{creator}, multiset{}, multiset{})
  }

  predicate IsRun(creator: ThreadId, es: seq<Event>)
    decreases |es|, 0
  {
    es == [] || (IsRun(creator, es[..|es| - 1]) && Enabled(Exec(creator, es[..|es| - 1]), es[|es| - 1]))
  }

  function Exec(creator: ThreadId, es: seq<Event>): State
    requires IsRun(creator, es)
    decreases |es|, 1
  {
    if es == [] then Start(creator) else Apply(Exec(creator, es[..|es| - 1]), es[|es| - 1])
  }

  ghost predicate Alive(s: State) {
    && s.deletions == 0 && !s.aborted && s.turns < MAX_TURNS
    && s.refCount == |s.strong| + |s.guards| >= 1
    && s.weakRefCount == |s.weak|
    && |s.guards| <= 1
  }

  ghost predicate Gone(s: State) {
    && s.deletions == 1 && !s.aborted
    && |s.strong| == |s.weak| == |s.guards| == 0
  }

  ghost predicate GivenUp(s: State) {
    s.aborted && s.deletions == 0 && |s.strong| == 0 && |s.weak| > 0
  }

  lemma TakeOne(m: multiset<ThreadId>, t: ThreadId)
    requires t in m
    ensures |m - multiset{t}| == |m| - 1
  {
    assert m == m - multiset{t} + multiset{t};
  }

  lemma DerefKeepsAlive(s: State, t: ThreadId)
    requires Alive(s) && t in s.strong
    ensures Alive(Apply(s, Deref(t)))
  {
    TakeOne(s.strong, t);
  }

  // A thread that comes back from the weak deletion deletes exactly when nobody else has
  // taken a reference of either kind meanwhile.
  lemma RecheckIsExact(s: State, t: ThreadId)
    requires Alive(s) && t in s.guards
    ensures |s.strong| == |s.weak| == 0 ==> Gone(Apply(s, Recheck(t)))
    ensures !(|s.strong| == |s.weak| == 0) ==>
      if |s.strong| == 0 && s.turns + 1 >= MAX_TURNS then GivenUp(Apply(s, Recheck(t)))
      else Alive(Apply(s, Recheck(t)))
  {
    TakeOne(s.guards, t);
  }

  lemma HolderStepKeepsAlive(s: State, e: Event)
    requires Alive(s) && Enabled(s, e) && !e.Deref? && !e.Recheck?
    ensures Alive(Apply(s, e))
    ensures !(e.WeakDeref? && DeletesInWeakDeref(s))
  {
    match e
    case PassStrong(t, _) => TakeOne(s.strong, t);
    case PassWeak(t, _) => TakeOne(s.weak, t);
    case WeakDeref(t) => TakeOne(s.weak, t);
    case _ =>
  }

  lemma StepKeepsAlive(s: State, e: Event)
    requires Alive(s) && Enabled(s, e)
    ensures Alive(Apply(s, e)) || Gone(Apply(s, e)) || GivenUp(Apply(s, e))
  {
    match e
    case Deref(t) => DerefKeepsAlive(s, t);
    case Recheck(t) => RecheckIsExact(s, t);
    case _ => HolderStepKeepsAlive(s, e);
  }

  lemma GoneIsFinal(s: State, e: Event)
    requires Gone(s)
    ensures !Enabled(s, e)
  {
    if e.Ref? || e.WeakRef? {
      assert forall t :: t !in s.strong && t !in s.weak && t !in s.guards by {
        assert s.strong == multiset{} && s.weak == multiset{} && s.guards == multiset{};
      }
    }
  }

  lemma {:induction false} RunKeepsInv(creator: ThreadId, es: seq<Event>)
    requires IsRun(creator, es)
    ensures var s := Exec(creator, es); Alive(s) || Gone(s) || GivenUp(s)
  {
    if es == [] {
    } else {
      var front, e := es[..|es| - 1], es[|es| - 1];
      RunKeepsInv(creator, front);
      var s := Exec(creator, front);
      if Alive(s) {
        StepKeepsAlive(s, e);
      } else if Gone(s) {
        GoneIsFinal(s, e);
      }
    }
  }

  // Whenever the mutex is free the stored count is the strong references held plus at most
  // one delete guard, and it is never zero while the object exists.
  lemma {:induction false} CountsAreExact(creator: ThreadId, es: seq<Event>)
    requires IsRun(creator, es) && Exec(creator, es).deletions == 0 && !Exec(creator, es).aborted
    ensures var s := Exec(creator, es);
      s.refCount == |s.strong| + |s.guards| && s.weakRefCount == |s.weak|
      && |s.guards| <= 1 && s.refCount != 0
  {
    RunKeepsInv(creator, es);
  }

  // Dropping a weak reference would delete the object if it was the last one and the count were
  // zero.
  lemma WeakDerefWouldDelete(s: State, t: ThreadId)
    requires Enabled(s, WeakDeref(t))
    ensures Apply(s, WeakDeref(t)).deletions ==
      s.deletions + if s.weakRefCount == 1 && s.refCount == 0 then 1 else 0
  {
  }

  // Dropping a weak reference never deletes the object: that branch is unreachable.
  lemma {:induction false} WeakDerefNeverDeletes(creator: ThreadId, es: seq<Event>, t: ThreadId)
    requires IsRun(creator, es) && Enabled(Exec(creator, es), WeakDeref(t))
    ensures Apply(Exec(creator, es), WeakDeref(t)).deletions == Exec(creator, es).deletions
    ensures Exec(creator, es).refCount != 0
  {
    RunKeepsInv(creator, es);
    var s := Exec(creator, es);
    if Alive(s) {
      HolderStepKeepsAlive(s, WeakDeref(t));
    } else if Gone(s) {
      GoneIsFinal(s, WeakDeref(t));
    }
  }

  // The object is deleted at most once, only when nobody holds a reference of either kind,
  // and after that nobody is left who could call it.
  lemma {:induction false} DeletedOnceAndUnreferenced(creator: ThreadId, es: seq<Event>)
    requires IsRun(creator, es)
    ensures var s := Exec(creator, es);
      s.deletions <= 1
      && (s.deletions == 1 ==> s.strong == s.weak == s.guards == multiset{} && forall e :: !Enabled(s, e))
  {
    RunKeepsInv(creator, es);
    var s := Exec(creator, es);
    if s.deletions == 1 {
      forall e ensures !Enabled(s, e) {
        GoneIsFinal(s, e);
      }
    }
  }

  // Nothing leaks: once the last strong reference is dropped, either the object is gone or
  // exactly one thread is still on its way to delete it, and that thread does so as soon as
  // it checks after the last weak reference has gone, unless it has given up before.
  lemma {:induction false} LastReferenceDeletes(creator: ThreadId, es: seq<Event>)
    requires IsRun(creator, es) && |Exec(creator, es).strong| == 0
    ensures var s := Exec(creator, es);
      s.deletions == 1 || s.aborted ||
      (|s.guards| == 1 && forall t :: t in s.guards ==>
        (Apply(s, Recheck(t)).deletions == 1 <==> |s.weak| == 0))
  {
    RunKeepsInv(creator, es);
    var s := Exec(creator, es);
    if Alive(s) {
      forall t | t in s.guards ensures Apply(s, Recheck(t)).deletions == 1 <==> |s.weak| == 0 {
        RecheckIsExact(s, t);
      }
    }
  }

  // ---- Giving up ----

  function Rechecks(es: seq<Event>): nat {
    if es == [] then 0
    else Rechecks(es[..|es| - 1]) + if es[|es| - 1].Recheck? then 1 else 0
  }

  lemma StepTurns(s: State, e: Event)
    requires Enabled(s, e)
    ensures var s' := Apply(s, e);
            s'.turns <= Max(s.turns + (if e.Recheck? then 1 else 0), 1)
            && (s'.aborted ==> e.Recheck? && s.turns + 1 >= MAX_TURNS)
  {
  }

  lemma {:induction false} TurnsAreRechecks(creator: ThreadId, es: seq<Event>)
    requires IsRun(creator, es)
    ensures var s := Exec(creator, es);
      s.turns <= 1 + Rechecks(es) && (s.aborted ==> Rechecks(es) >= MAX_TURNS - 1)
  {
    if es == [] {
    } else {
      TurnsAreRechecks(creator, es[..|es| - 1]);
      StepTurns(Exec(creator, es[..|es| - 1]), es[|es| - 1]);
    }
  }

  // The program gives up only on an object without strong references that somebody still
  // holds weakly, and only after 999 checks that did not delete it.
  lemma GivingUpIsRare(creator: ThreadId, es: seq<Event>)
    requires IsRun(creator, es) && Exec(creator, es).aborted
    ensures Rechecks(es) >= 999
    ensures var s := Exec(creator, es); s.strong == multiset{} && s.weak != multiset{} && s.deletions == 0
  {
    TurnsAreRechecks(creator, es);
    RunKeepsInv(creator, es);
  }

  /** t goes round the loop while somebody else holds a weak reference. */
  ghost predicate Retrying(s: State, t: ThreadId) {
    Alive(s) && t in s.guards && |s.strong| == 0 && |s.weak| > 0
  }

  lemma RecheckAgain(s: State, t: ThreadId)
    requires Retrying(s, t)
    ensures var s' := Apply(s, Recheck(t));
            if s.turns + 1 == MAX_TURNS then s'.aborted else Retrying(s', t) && s'.turns == s.turns + 1
  {
    TakeOne(s.guards, t);
  }

  lemma RunOneMore(creator: ThreadId, es: seq<Event>, e: Event)
    requires IsRun(creator, es) && Enabled(Exec(creator, es), e)
    ensures IsRun(creator, es + [e]) && Exec(creator, es + [e]) == Apply(Exec(creator, es), e)
  {
    var longer := es + [e];
    assert longer[..|longer| - 1] == es && longer[|longer| - 1] == e;
  }

  function Again(t: ThreadId, n: nat): seq<Event> {
    if n == 0 then [] else [Recheck(t)] + Again(t, n - 1)
  }

  lemma AgainParts(es: seq<Event>, t: ThreadId, n: nat)
    requires n > 0
    ensures es + Again(t, n) == es + [Recheck(t)] + Again(t, n - 1)
    ensures n == 1 ==> es + Again(t, n) == es + [Recheck(t)]
  {
  }

  lemma {:induction false} RunRetriesOnce(creator: ThreadId, es: seq<Event>, t: ThreadId) returns (longer: seq<Event>)
    requires IsRun(creator, es) && Retrying(Exec(creator, es), t)
    ensures longer == es + [Recheck(t)] && IsRun(creator, longer)
    ensures var s, s' := Exec(creator, es), Exec(creator, longer);
            if s.turns + 1 == MAX_TURNS then s'.aborted else Retrying(s', t) && s'.turns == s.turns + 1
  {
    RecheckAgain(Exec(creator, es), t);
    RunOneMore(creator, es, Recheck(t));
    longer := es + [Recheck(t)];
  }

  // A weak reference that outlasts the turns left does make the program give up: nothing but
  // the thread's own checks has to happen.
  lemma {:induction false} WeakHolderStopsTheProgram(creator: ThreadId, es: seq<Event>, t: ThreadId, n: nat)
      returns (longer: seq<Event>)
    requires IsRun(creator, es) && Retrying(Exec(creator, es), t) && n == 1000 - Exec(creator, es).turns
    ensures longer == es + Again(t, n)
    ensures IsRun(creator, longer) && Exec(creator, longer).aborted
    decreases n
  {
    longer := RunRetriesOnce(creator, es, t);
    AgainParts(es, t, n);
    if n > 1 {
      longer := WeakHolderStopsTheProgram(creator, longer, t, n - 1);
    }
  }

  // It happens: the creator takes a weak reference, drops its only strong one, and never drops
  // the weak one.
  lemma CreatorStopsTheProgram(creator: ThreadId, n: nat)
    requires n == 999
    ensures var es := [WeakRef(creator), Deref(creator)];
            IsRun(creator, es) && Retrying(Exec(creator, es), creator)
            && IsRun(creator, es + Again(creator, n)) && Exec(creator, es + Again(creator, n)).aborted
  {
    var once := [] + [WeakRef(creator)];
    var es := [WeakRef(creator), Deref(creator)];
    RunOneMore(creator, [], WeakRef(creator));
    RunOneMore(creator, once, Deref(creator));
    assert es == once + [Deref(creator)];
    var s := Exec(creator, es);
    assert s.strong == multiset{} && s.weak == multiset{creator} == s.guards && s.turns == 1;
    var longer := WeakHolderStopsTheProgram(creator, es, creator, n);
  }
}
