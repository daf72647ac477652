/** Which threads are in the middle of a reservation, or bound to issue from one, told from the
    events that have happened. */
module OneTimeHistory {
  import History
  import opened OneTimeUse

  /** The thread has read the counter and not written it back, or has written it and not issued
      from its new chunk; a new start of its process ends either. */
  datatype Topic = Reading(a: Agent) | Due(a: Agent)

  predicate Starts(x: Topic, e: Event) {
    match (x, e)
    case (Reading(a), ReadCounter(b)) => a == b
    case (Due(a), WriteCounter(b)) => a == b
    case _ => false
  }

  predicate Ends(x: Topic, e: Event) {
    match (x, e)
    case (Reading(a), WriteCounter(b)) => a == b
    case (Due(a), Issue(b)) => a == b
    case (_, Restart(p)) => p == x.a.process
    case _ => false
  }

  /** Something that starts it has happened, and nothing that ends it since. */
  ghost predicate Since(es: seq<Event>, x: Topic) {
    History.Since(es, x, Starts, Ends)
  }

  lemma SinceGrows(front: seq<Event>, e: Event, x: Topic)
    ensures Since(front + [e], x) <==> Starts(x, e) || (Since(front, x) && !Ends(x, e))
  {
    History.SinceGrows(front, e, x, Starts, Ends);
  }

  predicate Reads(s: State, a: Agent) {
    a.process in s.pending && s.pending[a.process].who == a
  }

  lemma ReadStep(s: State, e: Event, a: Agent)
    requires Enabled(s, e)
    ensures Reads(Apply(s, e), a) <==> Starts(Reading(a), e) || (Reads(s, a) && !Ends(Reading(a), e))
  {
  }

  lemma DueStep(s: State, e: Event, a: Agent)
    requires Enabled(s, e)
    ensures a in Apply(s, e).due <==> Starts(Due(a), e) || (a in s.due && !Ends(Due(a), e))
  {
  }

  // On every run: a thread is in the middle of a reservation if and only if it has read the
  // counter and neither written it back nor died since; and it is bound to issue if and only if
  // it has reserved and neither issued nor died since.
  lemma {:induction false} ThreadsAreHistory(locking: bool, text: string, es: seq<Event>, a: Agent)
    requires IsRun(locking, text, es)
    ensures Reads(Exec(locking, text, es), a) <==> Since(es, Reading(a))
    ensures a in Exec(locking, text, es).due <==> Since(es, Due(a))
  {
    if es == [] {
    } else {
      var front, e := es[..|es| - 1], es[|es| - 1];
      ThreadsAreHistory(locking, text, front, a);
      ReadStep(Exec(locking, text, front), e, a);
      DueStep(Exec(locking, text, front), e, a);
      assert es == front + [e];
      SinceGrows(front, e, Reading(a));
      SinceGrows(front, e, Due(a));
    }
  }

  /** What is true of a reservation while it is being made. */
  predicate Remembers(s: State, s0: State, a: Agent) {
    Reads(s, a) && s.pending[a.process] == Pending(a, s0.Counter(), s0.Growth(a.process))
  }

  lemma ReadingStays(s: State, e: Event, s0: State, a: Agent)
    requires Enabled(s, e) && Remembers(s, s0, a) && !Ends(Reading(a), e) && !Starts(Reading(a), e)
    ensures Remembers(Apply(s, e), s0, a)
  {
  }

  // What a thread writes back is what it read, with what its process was to reserve then, whatever
  // the others have done meanwhile.
  lemma {:induction false} WritesWhatItRead(locking: bool, text: string, es: seq<Event>, k: nat, a: Agent)
    requires IsRun(locking, text, es) && k < |es| && es[k] == ReadCounter(a)
    requires forall j :: k < j < |es| ==> es[j] != WriteCounter(a) && es[j] != Restart(a.process)
    ensures IsRun(locking, text, es[..k])
    ensures Remembers(Exec(locking, text, es), Exec(locking, text, es[..k]), a)
    decreases |es|
  {
    var front, e := es[..|es| - 1], es[|es| - 1];
    if k == |es| - 1 {
    } else {
      WritesWhatItRead(locking, text, front, k, a);
      assert front[..k] == es[..k];
      ReadingStays(Exec(locking, text, front), e, Exec(locking, text, es[..k]), a);
    }
  }
}
