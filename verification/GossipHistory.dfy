/** What a session has sent and what its flags are, told from the messages that reached it. */
module GossipHistory {
  import opened GossipSession
  import opened GossipSide

  // ---- What has happened ----

  /** Side A is handed a message. */
  predicate Hears(e: Event, k: Kind) {
    e.DeliverToA? && e.m == k
  }

  /** How many messages of a kind have reached side A. */
  function Heard(es: seq<Event>, k: Kind): nat {
    if es == [] then 0 else Heard(es[..|es| - 1], k) + Bit(Hears(es[|es| - 1], k))
  }

  /** A message after which a side waits for nothing more: DONE, or a list with nothing to ask
      for. */
  predicate EndsWaiting(e: Event, uploadOnly: bool) {
    Hears(e, Done) || (Hears(e, IHave) && (uploadOnly || e.ch.malformed || !e.ch.wants))
  }

  ghost predicate NeverHeard(es: seq<Event>, k: Kind) {
    forall i :: 0 <= i < |es| ==> !Hears(es[i], k)
  }

  ghost predicate StillWaits(es: seq<Event>, uploadOnly: bool) {
    forall i :: 0 <= i < |es| ==> !EndsWaiting(es[i], uploadOnly)
  }

  /** The flags of an open side are its history: how often it was greeted, whether it has given
      its list or said DONE, and whether it has heard that nothing more will come. It is open
      unless somebody has said GOODBYE. */
  ghost predicate Remembers(s: State, es: seq<Event>, uploadOnly: bool) {
    && s.a.uploadOnly == uploadOnly
    && (s.a.open <==> Goodbye !in s.sentByA && NeverHeard(es, Goodbye))
    && (s.a.open ==>
        && s.a.helloCount == Heard(es, Hello)
        && (s.a.sentIHave <==> IHave in s.sentByA)
        && (s.a.sending <==> Done !in s.sentByA)
        && (s.a.waiting <==> StillWaits(es, uploadOnly)))
  }

  // ---- What is owed ----

  /** Whether a side answers a request, and does not merely end the session over it. */
  predicate Serves(x: Side, m: Kind, ch: Choice) {
    m.IWant? && !x.uploadOnly && !ch.malformed
  }

  /** How many messages of kind k a side owes in answer to m. */
  function Due(k: Kind, x: Side, m: Kind, ch: Choice): nat {
    if !x.open then 0
    else
      match k
      case IWant => Bit(m.IHave? && !x.uploadOnly && !ch.malformed && ch.wants)
      case Data => if Serves(x, m, ch) then ch.items else 0
      case Done => Bit(Serves(x, m, ch))
      case IHave =>
        Bit((m.Hello? && x.helloCount < ch.maxHello) || (m.IHave? && !x.sentIHave && (x.uploadOnly || !ch.malformed)))
      case Goodbye =>
        Bit((m.Hello? && x.helloCount >= ch.maxHello)
            || ((m.IHave? || m.IWant?) && !x.uploadOnly && ch.malformed)
            || (Serves(x, m, ch) && !x.waiting) || (m.Done? && !x.sending))
      case Hello => 0
      case Random => 0
  }

  function DueAtStart(k: Kind, x: Side, noise: bool, hello: bool): nat {
    Bit(x.open && ((k.Random? && noise) || (k.Hello? && hello) || (k.IHave? && !hello)))
  }

  function DueNow(k: Kind, x: Side, e: Event): nat {
    match e
    case OpenA(noise, hello) => DueAtStart(k, x, noise, hello)
    case DeliverToA(m, ch) => Due(k, x, m, ch)
    case _ => 0
  }

  /** What side A has come to owe on a whole run. */
  function Owed(k: Kind, start: State, es: seq<Event>): nat
    requires IsRun(start, es)
  {
    if es == [] then 0
    else
      var front := es[..|es| - 1];
      Owed(k, start, front) + DueNow(k, Exec(start, front).a, es[|es| - 1])
  }

  // ---- One step ----

  lemma {:induction false} RepeatCounts(k: Kind, m: Kind, n: nat)
    ensures multiset(Repeat(m, n))[k] == if k == m then n else 0
  {
    if n == 0 {
    } else {
      RepeatCounts(k, m, n - 1);
      assert Repeat(m, n) == Repeat(m, n - 1) + [m];
    }
  }

  lemma ServingPays(k: Kind, x: Side, m: Kind, ch: Choice)
    requires x.open && Serves(x, m, ch)
    ensures multiset(Handle(x, m, ch).1)[k] == Due(k, x, m, ch)
  {
    RepeatCounts(k, Data, ch.items);
  }

  lemma ReactionPays(k: Kind, x: Side, m: Kind, ch: Choice)
    ensures multiset(Handle(x, m, ch).1)[k] == Due(k, x, m, ch)
  {
    if x.open && Serves(x, m, ch) {
      ServingPays(k, x, m, ch);
    }
  }

  lemma Extends(k: Kind, sent: seq<Kind>, out: seq<Kind>)
    ensures multiset(sent + out)[k] == multiset(sent)[k] + multiset(out)[k]
  {
  }

  lemma DeliveryPays(k: Kind, s: State, e: Event)
    requires Enabled(s, e) && e.DeliverToA?
    ensures multiset(Apply(s, e).sentByA)[k] == multiset(s.sentByA)[k] + DueNow(k, s.a, e)
  {
    ReactionPays(k, s.a, e.m, e.ch);
    Extends(k, s.sentByA, Handle(s.a, e.m, e.ch).1);
  }

  lemma StartPays(k: Kind, s: State, e: Event)
    requires Enabled(s, e) && e.OpenA?
    ensures multiset(Apply(s, e).sentByA)[k] == multiset(s.sentByA)[k] + DueNow(k, s.a, e)
  {
    Extends(k, s.sentByA, Opening(s.a, e.noise, e.hello).1);
  }

  lemma StepPays(k: Kind, s: State, e: Event)
    requires Enabled(s, e)
    ensures multiset(Apply(s, e).sentByA)[k] == multiset(s.sentByA)[k] + DueNow(k, s.a, e)
  {
    if e.DeliverToA? {
      DeliveryPays(k, s, e);
    } else if e.OpenA? {
      StartPays(k, s, e);
    }
  }

  // On every run a side has sent of each kind exactly what it came to owe.
  lemma {:induction false} SentIsOwed(k: Kind, start: State, es: seq<Event>)
    requires IsRun(start, es) && start.sentByA == []
    ensures multiset(Exec(start, es).sentByA)[k] == Owed(k, start, es)
  {
    if es == [] {
    } else {
      var front := es[..|es| - 1];
      SentIsOwed(k, start, front);
      StepPays(k, Exec(start, front), es[|es| - 1]);
    }
  }

  // ---- The flags ----

  lemma HandleCloses(x: Side, m: Kind, ch: Choice)
    requires x.open
    ensures var (x', out) := Handle(x, m, ch); x'.open <==> Goodbye !in out && !m.Goodbye?
  {
  }

  lemma HandleSays(x: Side, m: Kind, ch: Choice)
    requires x.open
    ensures var (x', out) := Handle(x, m, ch);
      x'.open ==> (x'.sentIHave <==> x.sentIHave || IHave in out) && (x'.sending <==> x.sending && Done !in out)
  {
  }

  lemma HandleHears(x: Side, m: Kind, ch: Choice)
    requires x.open
    ensures var (x', _) := Handle(x, m, ch);
      x'.open ==> (x'.waiting <==> x.waiting && !EndsWaiting(DeliverToA(m, ch), x.uploadOnly))
  {
  }

  lemma HandleCounts(x: Side, m: Kind, ch: Choice)
    requires x.open
    ensures var (x', _) := Handle(x, m, ch);
      x'.uploadOnly == x.uploadOnly && x'.helloCount == x.helloCount + Bit(m.Hello?)
  {
  }

  lemma ClosedIsSilent(x: Side, m: Kind, ch: Choice)
    requires !x.open
    ensures Handle(x, m, ch) == (x, [])
  {
  }

  lemma HistoryGrows(front: seq<Event>, e: Event, uploadOnly: bool)
    ensures var es := front + [e];
      && (NeverHeard(es, Goodbye) <==> NeverHeard(front, Goodbye) && !Hears(e, Goodbye))
      && (StillWaits(es, uploadOnly) <==> StillWaits(front, uploadOnly) && !EndsWaiting(e, uploadOnly))
      && Heard(es, Hello) == Heard(front, Hello) + Bit(Hears(e, Hello))
  {
    var es := front + [e];
    assert es[..|es| - 1] == front;
    assert forall i :: 0 <= i < |front| ==> front[i] == es[i];
    assert es[|front|] == e;
  }

  lemma {:induction false} DeliveryRemembers(s: State, front: seq<Event>, uploadOnly: bool, e: Event)
    requires Remembers(s, front, uploadOnly) && Enabled(s, e) && e.DeliverToA?
    ensures Remembers(Apply(s, e), front + [e], uploadOnly)
  {
    HistoryGrows(front, e, uploadOnly);
    if s.a.open {
      HandleCloses(s.a, e.m, e.ch);
      HandleSays(s.a, e.m, e.ch);
      HandleHears(s.a, e.m, e.ch);
      HandleCounts(s.a, e.m, e.ch);
    } else {
      ClosedIsSilent(s.a, e.m, e.ch);
      assert Apply(s, e).sentByA == s.sentByA;
    }
  }

  lemma OpeningRemembers(x: Side, noise: bool, hello: bool)
    ensures var (x', out) := Opening(x, noise, hello);
      && x' == x.(started := true, sentIHave := x'.sentIHave) && (!x.open ==> out == [])
      && (x'.sentIHave <==> x.sentIHave || IHave in out) && Goodbye !in out && Done !in out
  {
  }

  lemma {:induction false} OthersRemember(s: State, front: seq<Event>, uploadOnly: bool, e: Event)
    requires Remembers(s, front, uploadOnly) && Enabled(s, e) && !e.DeliverToA?
    ensures Remembers(Apply(s, e), front + [e], uploadOnly)
  {
    HistoryGrows(front, e, uploadOnly);
    if e.OpenA? {
      OpeningRemembers(s.a, e.noise, e.hello);
    }
  }

  lemma StepRemembers(s: State, front: seq<Event>, uploadOnly: bool, e: Event)
    requires Remembers(s, front, uploadOnly) && Enabled(s, e)
    ensures Remembers(Apply(s, e), front + [e], uploadOnly)
  {
    if e.DeliverToA? {
      DeliveryRemembers(s, front, uploadOnly, e);
    } else {
      OthersRemember(s, front, uploadOnly, e);
    }
  }

  // On every run the flags of an open side are exactly what its history says.
  lemma {:induction false} FlagsAreHistory(es: seq<Event>, ua: bool, ub: bool)
    requires IsRun(Start(ua, ub), es)
    ensures Remembers(Exec(Start(ua, ub), es), es, ua)
  {
    if es == [] {
    } else {
      var front, e := es[..|es| - 1], es[|es| - 1];
      FlagsAreHistory(front, ua, ub);
      assert es == front + [e];
      StepRemembers(Exec(Start(ua, ub), front), front, ua, e);
    }
  }

  // ---- Nothing is lost on the way ----

  lemma StepKeepsFlight(k: Kind, s: State, e: Event)
    requires Enabled(s, e)
    ensures multiset(Apply(s, e).sentByB)[k] + s.toA[k] ==
      multiset(s.sentByB)[k] + Apply(s, e).toA[k] + Bit(Hears(e, k))
  {
  }

  // Every message the other side has sent is still on its way or has reached side A.
  lemma {:induction false} FlightIsConserved(k: Kind, es: seq<Event>, ua: bool, ub: bool)
    requires IsRun(Start(ua, ub), es)
    ensures var s := Exec(Start(ua, ub), es); multiset(s.sentByB)[k] == s.toA[k] + Heard(es, k)
  {
    if es == [] {
    } else {
      FlightIsConserved(k, es[..|es| - 1], ua, ub);
      StepKeepsFlight(k, Exec(Start(ua, ub), es[..|es| - 1]), es[|es| - 1]);
    }
  }

  // ---- Seen from the other end ----

  function Mirrored(es: seq<Event>): (ms: seq<Event>)
    ensures |ms| == |es| && forall i :: 0 <= i < |es| ==> ms[i] == Mirror(es[i])
  {
    if es == [] then [] else Mirrored(es[..|es| - 1]) + [Mirror(es[|es| - 1])]
  }

  lemma StepMirrors(s: State, e: Event)
    requires Enabled(s, e)
    ensures Enabled(s.Swap(), Mirror(e)) && Apply(s.Swap(), Mirror(e)) == Apply(s, e).Swap()
  {
    assert s.Swap().Swap() == s && Mirror(Mirror(e)) == e;
  }

  // The session looks the same from either end, so that what is proved of side A on every run
  // holds of side B too.
  lemma {:induction false} RunMirrors(es: seq<Event>, ua: bool, ub: bool)
    requires IsRun(Start(ua, ub), es)
    ensures IsRun(Start(ub, ua), Mirrored(es))
    ensures Exec(Start(ub, ua), Mirrored(es)) == Exec(Start(ua, ub), es).Swap()
  {
    if es == [] {
    } else {
      var front, ms := es[..|es| - 1], Mirrored(es);
      RunMirrors(front, ua, ub);
      assert ms[..|ms| - 1] == Mirrored(front);
      StepMirrors(Exec(Start(ua, ub), front), es[|es| - 1]);
    }
  }

  // ---- The session ----

  // On every run, whatever the schedule: of each kind each side has sent exactly what it came to
  // owe, the flags of an open side are its history, and every message sent has arrived or is on
  // its way.
  lemma {:induction false} SessionKeepsItsWord(es: seq<Event>, ua: bool, ub: bool, k: Kind)
    requires IsRun(Start(ua, ub), es)
    ensures var s := Exec(Start(ua, ub), es);
      && multiset(s.sentByA)[k] == Owed(k, Start(ua, ub), es) == s.toB[k] + Heard(Mirrored(es), k)
      && Remembers(s, es, ua) && Remembers(s.Swap(), Mirrored(es), ub)
    ensures IsRun(Start(ub, ua), Mirrored(es))
    ensures var s := Exec(Start(ua, ub), es);
      multiset(s.sentByB)[k] == Owed(k, Start(ub, ua), Mirrored(es)) == s.toA[k] + Heard(es, k)
  {
    RunMirrors(es, ua, ub);
    SentIsOwed(k, Start(ua, ub), es);
    SentIsOwed(k, Start(ub, ua), Mirrored(es));
    FlagsAreHistory(es, ua, ub);
    FlagsAreHistory(Mirrored(es), ub, ua);
    FlightIsConserved(k, es, ua, ub);
    FlightIsConserved(k, Mirrored(es), ub, ua);
  }

  // ---- Nothing is held back ----

  ghost predicate HasStarted(es: seq<Event>) {
    exists i :: 0 <= i < |es| && es[i].OpenA?
  }

  lemma StartGrows(front: seq<Event>, e: Event)
    ensures HasStarted(front + [e]) <==> HasStarted(front) || e.OpenA?
  {
    var es := front + [e];
    assert es[|front|] == e;
    if HasStarted(front) {
      var i :| 0 <= i < |front| && front[i].OpenA?;
      assert es[i].OpenA?;
    }
    if HasStarted(es) && !e.OpenA? {
      var i :| 0 <= i < |es| && es[i].OpenA?;
      assert front[i].OpenA?;
    }
  }

  lemma StartStep(s: State, e: Event)
    requires Enabled(s, e)
    ensures Apply(s, e).a.started == (s.a.started || e.OpenA?)
  {
    if e.DeliverToA? {
      HandlingKeepsFlags(s.a, e.m, e.ch);
    }
  }

  /** Side A knows whether it has started. */
  ghost predicate KnowsStart(s: State, es: seq<Event>) {
    s.a.started <==> HasStarted(es)
  }

  lemma StartStays(s: State, front: seq<Event>, e: Event)
    requires Enabled(s, e) && KnowsStart(s, front)
    ensures KnowsStart(Apply(s, e), front + [e])
  {
    StartStep(s, e);
    StartGrows(front, e);
  }

  lemma {:induction false} StartIsHistory(es: seq<Event>, ua: bool, ub: bool)
    requires IsRun(Start(ua, ub), es)
    ensures KnowsStart(Exec(Start(ua, ub), es), es)
  {
    if es == [] {
    } else {
      var front, e := es[..|es| - 1], es[|es| - 1];
      StartIsHistory(front, ua, ub);
      assert es == front + [e];
      StartStays(Exec(Start(ua, ub), front), front, e);
    }
  }

  // On every run, whatever a side has sent and the other has not yet heard can be delivered, also
  // out of order and to a closed side, and nothing else can; and each side can start once.
  lemma {:induction false} WhatIsSentCanArrive(es: seq<Event>, ua: bool, ub: bool, k: Kind, ch: Choice,
                                             noise: bool, hello: bool)
    requires IsRun(Start(ua, ub), es)
    ensures var s := Exec(Start(ua, ub), es);
      && (Enabled(s, DeliverToA(k, ch)) <==> multiset(s.sentByB)[k] > Heard(es, k))
      && (Enabled(s, DeliverToB(k, ch)) <==> multiset(s.sentByA)[k] > Heard(Mirrored(es), k))
      && (Enabled(s, OpenA(noise, hello)) <==> !HasStarted(es))
      && (Enabled(s, OpenB(noise, hello)) <==> !HasStarted(Mirrored(es)))
  {
    RunMirrors(es, ua, ub);
    FlightIsConserved(k, es, ua, ub);
    FlightIsConserved(k, Mirrored(es), ub, ua);
    StartIsHistory(es, ua, ub);
    StartIsHistory(Mirrored(es), ub, ua);
  }
}
