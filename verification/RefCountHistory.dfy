/** Who holds what of a counted object, told from the calls that were made, and that it can always
    still be deleted. */
module RefCountHistory {
  import opened RefCount

  function Bit(b: bool): int {
    if b then 1 else 0
  }

  /** What a call does to the strong references of t. */
  function StrongChange(e: Event, t: ThreadId): int {
    match e
    case Ref(u) => Bit(u == t)
    case Deref(u) => -Bit(u == t)
    case PassStrong(u, to) => Bit(to == t) - Bit(u == t)
    case _ => 0
  }

  function WeakChange(e: Event, t: ThreadId): int {
    match e
    case WeakRef(u) => Bit(u == t)
    case WeakDeref(u) => -Bit(u == t)
    case PassWeak(u, to) => Bit(to == t) - Bit(u == t)
    case _ => 0
  }

  /** References taken by t, or passed to it, and not dropped or passed on. The creator starts
      with one. */
  function StrongOf(creator: ThreadId, es: seq<Event>, t: ThreadId): int {
    if es == [] then Bit(t == creator)
    else StrongOf(creator, es[..|es| - 1], t) + StrongChange(es[|es| - 1], t)
  }

  function WeakOf(es: seq<Event>, t: ThreadId): int {
    if es == [] then 0 else WeakOf(es[..|es| - 1], t) + WeakChange(es[|es| - 1], t)
  }

  lemma StrongStep(s: State, e: Event, t: ThreadId)
    requires Enabled(s, e)
    ensures Apply(s, e).strong[t] == s.strong[t] + StrongChange(e, t)
  {
  }

  lemma WeakStep(s: State, e: Event, t: ThreadId)
    requires Enabled(s, e)
    ensures Apply(s, e).weak[t] == s.weak[t] + WeakChange(e, t)
  {
  }

  // On every run each thread holds exactly the references it has taken or been given and not
  // dropped or passed on.
  lemma {:induction false} HoldersAreHistory(creator: ThreadId, es: seq<Event>, t: ThreadId)
    requires IsRun(creator, es)
    ensures Exec(creator, es).strong[t] == StrongOf(creator, es, t)
    ensures Exec(creator, es).weak[t] == WeakOf(es, t)
  {
    if es == [] {
    } else {
      HoldersAreHistory(creator, es[..|es| - 1], t);
      StrongStep(Exec(creator, es[..|es| - 1]), es[|es| - 1], t);
      WeakStep(Exec(creator, es[..|es| - 1]), es[|es| - 1], t);
    }
  }

  lemma LastOne(m: multiset<ThreadId>, t: ThreadId)
    requires t in m
    ensures |m| == 1 <==> m == multiset{t}
    ensures |m| == 1 ==> m - multiset{t} == multiset{}
  {
    TakeOne(m, t);
    assert m == m - multiset{t} + multiset{t};
  }

  lemma DropBinds(s: State, t: ThreadId)
    requires Alive(s) && t in s.strong
    ensures Apply(s, Deref(t)).guards ==
      if s.strong == multiset{t} && s.guards == multiset{} then multiset{t} else s.guards
  {
    LastOne(s.strong, t);
    assert multiset{} + multiset{t} == multiset{t};
  }

  lemma CheckBinds(s: State, t: ThreadId)
    requires Alive(s) && t in s.guards
    ensures var s' := Apply(s, Recheck(t));
      s'.guards == if s.strong == multiset{} && s.weak != multiset{} && !s'.aborted then s.guards else multiset{}
  {
    LastOne(s.guards, t);
    assert multiset{} + multiset{t} == multiset{t};
  }

  // On every run: whoever drops the last strong reference becomes bound to delete the object,
  // unless somebody is already; and stays bound exactly as long as it finds nobody with a strong
  // reference and somebody with a weak one, and has not given up.
  lemma {:induction false} BoundToDelete(creator: ThreadId, es: seq<Event>, e: Event)
    requires IsRun(creator, es) && Enabled(Exec(creator, es), e)
    ensures var s, s' := Exec(creator, es), Apply(Exec(creator, es), e);
      && (e.Deref? ==>
          s'.guards == if s.strong == multiset{e.t} && s.guards == multiset{} then multiset{e.t} else s.guards)
      && (e.Recheck? ==>
          s'.guards == if s.strong == multiset{} && s.weak != multiset{} && !s'.aborted then s.guards else multiset{})
      && (!e.Deref? && !e.Recheck? ==> s'.guards == s.guards)
  {
    var s := Exec(creator, es);
    RunKeepsInv(creator, es);
    if Gone(s) {
      GoneIsFinal(s, e);
    } else if e.Deref? {
      DropBinds(s, e.t);
    } else if e.Recheck? {
      CheckBinds(s, e.t);
    }
  }

  // ---- It can always be deleted ----

  lemma {:induction false} RunStaysAlive(creator: ThreadId, es: seq<Event>, e: Event) returns (longer: seq<Event>)
    requires IsRun(creator, es) && Enabled(Exec(creator, es), e)
    ensures longer == es + [e] && IsRun(creator, longer) && Exec(creator, longer) == Apply(Exec(creator, es), e)
    ensures var s := Exec(creator, longer); Alive(s) || Gone(s) || GivenUp(s)
  {
    RunOneMore(creator, es, e);
    longer := es + [e];
    RunKeepsInv(creator, longer);
  }

  lemma {:induction false} WeakOnesGo(creator: ThreadId, es: seq<Event>) returns (longer: seq<Event>)
    requires IsRun(creator, es) && Alive(Exec(creator, es))
    ensures es <= longer && IsRun(creator, longer)
    ensures Alive(Exec(creator, longer)) && Exec(creator, longer).weak == multiset{}
    decreases |Exec(creator, es).weak|
  {
    longer := es;
    var s := Exec(creator, es);
    if s.weak != multiset{} {
      var t :| t in s.weak;
      TakeOne(s.weak, t);
      HolderStepKeepsAlive(s, WeakDeref(t));
      longer := RunStaysAlive(creator, es, WeakDeref(t));
      longer := WeakOnesGo(creator, longer);
    }
  }

  lemma {:induction false} StrongOnesGo(creator: ThreadId, es: seq<Event>) returns (longer: seq<Event>)
    requires IsRun(creator, es) && Alive(Exec(creator, es)) && Exec(creator, es).weak == multiset{}
    ensures es <= longer && IsRun(creator, longer) && Alive(Exec(creator, longer))
    ensures Exec(creator, longer).weak == multiset{} && Exec(creator, longer).strong == multiset{}
    decreases |Exec(creator, es).strong|
  {
    longer := es;
    var s := Exec(creator, es);
    if s.strong != multiset{} {
      var t :| t in s.strong;
      TakeOne(s.strong, t);
      DerefKeepsAlive(s, t);
      longer := RunStaysAlive(creator, es, Deref(t));
      longer := StrongOnesGo(creator, longer);
    }
  }

  // From any state on any run, unless the program has given up, the object is deleted if its
  // holders drop what they hold, the weak references first.
  lemma {:induction false} CanAlwaysBeDeleted(creator: ThreadId, es: seq<Event>) returns (longer: seq<Event>)
    requires IsRun(creator, es) && !Exec(creator, es).aborted
    ensures es <= longer && IsRun(creator, longer) && Exec(creator, longer).deletions == 1
  {
    longer := es;
    RunKeepsInv(creator, es);
    if Exec(creator, es).deletions == 0 {
      longer := WeakOnesGo(creator, es);
      longer := StrongOnesGo(creator, longer);
      var s := Exec(creator, longer);
      var t :| t in s.guards;
      RecheckIsExact(s, t);
      longer := RunStaysAlive(creator, longer, Recheck(t));
    }
  }

  // As long as the object exists and the program has not given up, whoever holds it in any way,
  // or is bound to delete it, and nobody else, may take a reference of either kind.
  lemma {:induction false} HoldersMayTake(creator: ThreadId, es: seq<Event>, t: ThreadId)
    requires IsRun(creator, es) && !Exec(creator, es).aborted
    ensures var s := Exec(creator, es);
      && (Enabled(s, Ref(t)) <==>
          s.deletions == 0 && (StrongOf(creator, es, t) > 0 || WeakOf(es, t) > 0 || t in s.guards))
      && (Enabled(s, WeakRef(t)) <==> Enabled(s, Ref(t)))
      && (Enabled(s, Deref(t)) <==> StrongOf(creator, es, t) > 0)
      && (Enabled(s, WeakDeref(t)) <==> WeakOf(es, t) > 0)
  {
    var s := Exec(creator, es);
    HoldersAreHistory(creator, es, t);
    RunKeepsInv(creator, es);
    if Gone(s) {
      GoneIsFinal(s, Ref(t));
      GoneIsFinal(s, WeakRef(t));
      GoneIsFinal(s, Deref(t));
      GoneIsFinal(s, WeakDeref(t));
    }
  }
}
