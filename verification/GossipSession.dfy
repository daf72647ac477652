/** Two mover sessions talking to each other. Messages in flight may be delivered in any order;
    a step is the start of one side's connection or the delivery of one message. */
module GossipSession {
  import opened GossipSide

  datatype State = State(
    a: Side, b: Side, toA: multiset<Kind>, toB: multiset<Kind>, sentByA: seq<Kind>, sentByB: seq<Kind>)
  {
    /** The same session seen from the other end. */
    function Swap(): State {
      State(b, a, toB, toA, sentByB, sentByA)
    }
  }

  datatype Event =
    | OpenA(noise: bool, hello: bool)
    | OpenB(noise: bool, hello: bool)
    | DeliverToA(m: Kind, ch: Choice)
    | DeliverToB(m: Kind, ch: Choice)

  predicate Enabled(s: State, e: Event) {
    match e
    case OpenA(_, _) => !s.a.started
    case OpenB(_, _) => !s.b.started
    case DeliverToA(m, _) => m in s.toA
    case DeliverToB(m, _) => m in s.toB
  }

  function StepA(s: State, e: Event): State
    requires Enabled(s, e) && (e.OpenA? || e.DeliverToA?)
  {
    var (a, out) := if e.OpenA? then Opening(s.a, e.noise, e.hello) else Handle(s.a, e.m, e.ch);
    State(a, s.b, if e.OpenA? then s.toA else s.toA - multiset{e.m}, s.toB + multiset(out), s.sentByA + out, s.sentByB)
  }

  function Mirror(e: Event): Event {
    match e
    case OpenA(n, h) => OpenB(n, h)
    case OpenB(n, h) => OpenA(n, h)
    case DeliverToA(m, ch) => DeliverToB(m, ch)
    case DeliverToB(m, ch) => DeliverToA(m, ch)
  }

  function Apply(s: State, e: Event): State
    requires Enabled(s, e)
  {
    if e.OpenA? || e.DeliverToA? then StepA(s, e) else StepA(s.Swap(), Mirror(e)).Swap()
  }

  ghost predicate Steps(s: State, s': State) {
    exists e :: Enabled(s, e) && s' == Apply(s, e)
  }

  // ---- Every session comes to rest ----

  function InFlight(s: State, m: Kind): nat {
    s.toA[m] + s.toB[m]
  }

  function Bit(b: bool): nat {
    if b then 1 else 0
  }

  /** The components of the measure, most significant first. */
  datatype Measure = Measure(starts: nat, hellos: nat, silent: nat, ihaves: nat, iwants: nat, bulk: nat, rest: nat)

  function MeasureOf(s: State): Measure {
    Measure(
      Bit(!s.a.started) + Bit(!s.b.started),
      InFlight(s, Hello),
      Bit(!s.a.sentIHave) + Bit(!s.b.sentIHave),
      InFlight(s, IHave),
      InFlight(s, IWant),
      InFlight(s, Data) + InFlight(s, Done),
      InFlight(s, Goodbye) + InFlight(s, Random))
  }

  predicate Less(x: Measure, y: Measure) {
    if x.starts != y.starts then x.starts < y.starts
    else if x.hellos != y.hellos then x.hellos < y.hellos
    else if x.silent != y.silent then x.silent < y.silent
    else if x.ihaves != y.ihaves then x.ihaves < y.ihaves
    else if x.iwants != y.iwants then x.iwants < y.iwants
    else if x.bulk != y.bulk then x.bulk < y.bulk
    else x.rest < y.rest
  }

  // What a side sends in answer to a message always ranks below that message.
  lemma AnswersRankLower(x: Side, m: Kind, ch: Choice)
    ensures var (x', out) := Handle(x, m, ch);
      && Hello !in out
      && (IHave in out ==> m.Hello? || (!x.sentIHave && x'.sentIHave))
      && (IWant in out ==> m.IHave?)
      && (Data in out || Done in out ==> m.IWant?)
      && (Goodbye in out ==> !m.Goodbye? && !m.Random?) && Random !in out
  {
  }

  lemma HandlingKeepsFlags(x: Side, m: Kind, ch: Choice)
    ensures var x' := Handle(x, m, ch).0; x'.started == x.started && (x.sentIHave ==> x'.sentIHave)
  {
  }

  // A delivery takes one message out of flight and puts the answers in.
  lemma DeliveryCounts(s: State, e: Event, out: seq<Kind>, k: Kind)
    requires e.DeliverToA? && Enabled(s, e) && out == Handle(s.a, e.m, e.ch).1
    ensures InFlight(StepA(s, e), k) >= InFlight(s, k) - Bit(k == e.m)
    ensures k !in out ==> InFlight(StepA(s, e), k) == InFlight(s, k) - Bit(k == e.m)
  {
    assert k !in out ==> multiset(out)[k] == 0;
  }

  lemma {:induction false} DeliveryDescends(s: State, e: Event)
    requires e.DeliverToA? && Enabled(s, e)
    ensures Less(MeasureOf(StepA(s, e)), MeasureOf(s))
  {
    var s' := StepA(s, e);
    var (x', out) := Handle(s.a, e.m, e.ch);
    AnswersRankLower(s.a, e.m, e.ch);
    HandlingKeepsFlags(s.a, e.m, e.ch);
    assert s'.a == x' && s'.b == s.b;
    DeliveryCounts(s, e, out, Hello);
    DeliveryCounts(s, e, out, IHave);
    DeliveryCounts(s, e, out, IWant);
    DeliveryCounts(s, e, out, Data);
    DeliveryCounts(s, e, out, Done);
    DeliveryCounts(s, e, out, Goodbye);
    DeliveryCounts(s, e, out, Random);
  }

  lemma {:induction false} StepDescends(s: State, e: Event)
    requires Enabled(s, e)
    ensures Less(MeasureOf(Apply(s, e)), MeasureOf(s))
  {
    assert MeasureOf(s) == MeasureOf(s.Swap());
    if e.DeliverToA? {
      DeliveryDescends(s, e);
    } else if e.DeliverToB? {
      DeliveryDescends(s.Swap(), Mirror(e));
    }
  }

  lemma {:induction false} StepsDescend(s: State, s': State)
    requires Steps(s, s')
    ensures Less(MeasureOf(s'), MeasureOf(s))
  {
    var e :| Enabled(s, e) && s' == Apply(s, e);
    StepDescends(s, e);
  }

  lemma {:induction false} Descend(run: nat -> State, i: nat, m: Measure) returns (rest: nat)
    requires m == MeasureOf(run(i))
    ensures !Steps(run(rest), run(rest + 1))
    decreases m.starts, m.hellos, m.silent, m.ihaves, m.iwants, m.bulk, m.rest
  {
    if Steps(run(i), run(i + 1)) {
      StepsDescend(run(i), run(i + 1));
      rest := Descend(run, i + 1, MeasureOf(run(i + 1)));
    } else {
      rest := i;
    }
  }

  // From any state whatever, with any messages already in flight, the session cannot go on
  // for ever: no schedule and no choice of answers gives an infinite run.
  lemma EverySessionQuiesces(run: nat -> State)
    ensures exists i: nat :: !Steps(run(i), run(i + 1))
  {
    var rest := Descend(run, 0, MeasureOf(run(0)));
  }

  // ---- How a session ends ----

  function Start(uploadOnlyA: bool, uploadOnlyB: bool): State {
    State(NewSide(uploadOnlyA), NewSide(uploadOnlyB), multiset{}, multiset{}, [], [])
  }

  predicate IsRun(start: State, es: seq<Event>)
    decreases |es|, 0
  {
    es == [] || (IsRun(start, es[..|es| - 1]) && Enabled(Exec(start, es[..|es| - 1]), es[|es| - 1]))
  }

  function Exec(start: State, es: seq<Event>): State
    requires IsRun(start, es)
    decreases |es|, 1
  {
    if es == [] then start else Apply(Exec(start, es[..|es| - 1]), es[|es| - 1])
  }

  ghost predicate GoodbyeIsLast(sent: seq<Kind>) {
    forall i :: 0 <= i < |sent| - 1 ==> sent[i] != Goodbye
  }

  /** What holds of side A as a sender and of side B as the one it sends to. */
  ghost predicate Half(s: State) {
    && GoodbyeIsLast(s.sentByA)
    && (Goodbye in s.sentByA ==> !s.a.open)
    && (forall m :: m in s.toB ==> m in s.sentByA)
    && (!s.a.open && s.b.open ==> Goodbye in s.toB)
    && (!s.a.open ==> Goodbye in s.sentByA || Goodbye in s.sentByB)
    && (!s.a.sending <==> Done in s.sentByA)
    && (s.a.open && s.a.gotDone ==> s.a.sending && !s.a.waiting)
    && (Done in s.sentByA ==> Done in s.toB || s.b.gotDone || !s.b.open)
  }

  // What one reaction contributes to the end of the session.
  lemma ReactionEnds(x: Side, m: Kind, ch: Choice)
    ensures var (x', out) := Handle(x, m, ch);
      && GoodbyeIsLast(out)
      && (!x.open ==> x' == x && out == [])
      && (x'.open ==> x.open && Goodbye !in out)
      && (x.open && !x'.open ==> Goodbye in out || m.Goodbye?)
      && (m.Goodbye? ==> !x'.open)
      && (!x'.sending <==> !x.sending || Done in out)
      && (x'.open && x'.gotDone && (x.gotDone ==> x.sending && !x.waiting) ==> x'.sending && !x'.waiting)
      && (x.gotDone ==> x'.gotDone)
      && (m.Done? && x'.open ==> x'.gotDone)
  {
  }

  lemma OpeningEnds(x: Side, noise: bool, hello: bool)
    ensures var (x', out) := Opening(x, noise, hello);
      && Goodbye !in out && Done !in out && (!x.open ==> out == [])
      && x'.open == x.open && x'.sending == x.sending && x'.waiting == x.waiting && x'.gotDone == x.gotDone
  {
  }

  lemma {:induction false} SenderHalf(s: State, e: Event, a': Side, out: seq<Kind>)
    requires Half(s) && Half(s.Swap()) && Enabled(s, e) && (e.OpenA? || e.DeliverToA?)
    requires (a', out) == if e.OpenA? then Opening(s.a, e.noise, e.hello) else Handle(s.a, e.m, e.ch)
    ensures Half(StepA(s, e))
  {
    if e.OpenA? {
      OpeningEnds(s.a, e.noise, e.hello);
    } else {
      ReactionEnds(s.a, e.m, e.ch);
      assert e.m in s.sentByB;
    }
    var s' := StepA(s, e);
    assert forall m :: m in s'.toB <==> m in s.toB || m in out;
    assert forall m :: m in s'.sentByA <==> m in s.sentByA || m in out;
    assert out == [] || s.a.open;
  }

  lemma ReceiverHalf(s: State, e: Event)
    requires Half(s) && Half(s.Swap()) && Enabled(s, e) && (e.OpenA? || e.DeliverToA?)
    ensures Half(StepA(s, e).Swap())
  {
    var s' := StepA(s, e);
    if e.OpenA? {
      OpeningEnds(s.a, e.noise, e.hello);
    } else {
      ReactionEnds(s.a, e.m, e.ch);
      assert forall m :: m in s'.toA ==> m in s.toA;
      assert forall m :: m in s.toA && m != e.m ==> m in s'.toA;
    }
  }

  lemma {:induction false} RunKeepsHalves(es: seq<Event>, ua: bool, ub: bool)
    requires IsRun(Start(ua, ub), es)
    ensures Half(Exec(Start(ua, ub), es)) && Half(Exec(Start(ua, ub), es).Swap())
  {
    if es == [] {
    } else {
      var front, e := es[..|es| - 1], es[|es| - 1];
      RunKeepsHalves(front, ua, ub);
      var s := Exec(Start(ua, ub), front);
      if e.OpenA? || e.DeliverToA? {
        var (a', out) := if e.OpenA? then Opening(s.a, e.noise, e.hello) else Handle(s.a, e.m, e.ch);
        SenderHalf(s, e, a', out);
        ReceiverHalf(s, e);
      } else {
        var t, f := s.Swap(), Mirror(e);
        var (a', out) := if f.OpenA? then Opening(t.a, f.noise, f.hello) else Handle(t.a, f.m, f.ch);
        assert t.Swap() == s;
        SenderHalf(t, f, a', out);
        ReceiverHalf(t, f);
        assert Exec(Start(ua, ub), es) == StepA(t, f).Swap();
        assert StepA(t, f).Swap().Swap() == StepA(t, f);
      }
    }
  }

  // On every run a side that says GOODBYE has closed, and GOODBYE is the last thing it says.
  lemma {:induction false} GoodbyeEndsTheConversation(es: seq<Event>, ua: bool, ub: bool)
    requires IsRun(Start(ua, ub), es)
    ensures var s := Exec(Start(ua, ub), es);
      GoodbyeIsLast(s.sentByA) && (Goodbye in s.sentByA ==> !s.a.open)
      && GoodbyeIsLast(s.sentByB) && (Goodbye in s.sentByB ==> !s.b.open)
  {
    RunKeepsHalves(es, ua, ub);
  }

  lemma QuietState(s: State)
    requires Half(s) && Half(s.Swap()) && forall m :: m !in s.toA && m !in s.toB
    ensures s.a.open == s.b.open
    ensures !s.a.open <==> Goodbye in s.sentByA || Goodbye in s.sentByB
    ensures Done in s.sentByA && Done in s.sentByB ==> !s.a.open && !s.b.open
  {
    var t := s.Swap();
    assert t.toA == s.toB && t.toB == s.toA && t.sentByA == s.sentByB && t.sentByB == s.sentByA;
  }

  // When nothing more can happen the two sides agree: both are closed if anybody has said
  // GOODBYE, and both are still open if nobody has; and once each has told the other it has sent
  // everything, both have closed.
  lemma {:induction false} QuietSidesAgree(es: seq<Event>, ua: bool, ub: bool)
    requires IsRun(Start(ua, ub), es)
    requires forall e :: !Enabled(Exec(Start(ua, ub), es), e)
    ensures var s := Exec(Start(ua, ub), es);
      s.a.open == s.b.open
      && (!s.a.open <==> Goodbye in s.sentByA || Goodbye in s.sentByB)
      && (Done in s.sentByA && Done in s.sentByB ==> !s.a.open && !s.b.open)
  {
    RunKeepsHalves(es, ua, ub);
    var s := Exec(Start(ua, ub), es);
    var ch := Choice(0, false, false, 0);
    forall m ensures m !in s.toA && m !in s.toB {
      assert !Enabled(s, DeliverToA(m, ch)) && !Enabled(s, DeliverToB(m, ch));
    }
    QuietState(s);
  }

  // ---- The mover is not lost ----

  /** A side is greeted at most once: already, or by a HELLO on its way, or when the other side
      starts. */
  ghost predicate GreetedOnce(s: State) {
    s.a.helloCount + s.toA[Hello] + Bit(!s.b.started) <= 1
  }

  lemma OpeningGreets(x: Side, noise: bool, hello: bool)
    ensures var (x', out) := Opening(x, noise, hello);
      multiset(out)[Hello] <= 1 && x'.started && x'.helloCount == x.helloCount
  {
  }

  lemma HandlingGreets(x: Side, m: Kind, ch: Choice)
    ensures var (x', out) := Handle(x, m, ch);
      multiset(out)[Hello] == 0 && x'.helloCount <= x.helloCount + Bit(m.Hello?)
  {
    AnswersRankLower(x, m, ch);
  }

  lemma {:induction false} StepKeepsGreeting(s: State, e: Event)
    requires GreetedOnce(s) && GreetedOnce(s.Swap()) && Enabled(s, e) && (e.OpenA? || e.DeliverToA?)
    ensures GreetedOnce(StepA(s, e)) && GreetedOnce(StepA(s, e).Swap())
  {
    var s' := StepA(s, e);
    if e.OpenA? {
      OpeningGreets(s.a, e.noise, e.hello);
    } else {
      HandlingGreets(s.a, e.m, e.ch);
      HandlingKeepsFlags(s.a, e.m, e.ch);
    }
  }

  lemma {:induction false} RunKeepsGreeting(es: seq<Event>, ua: bool, ub: bool)
    requires IsRun(Start(ua, ub), es)
    ensures GreetedOnce(Exec(Start(ua, ub), es)) && GreetedOnce(Exec(Start(ua, ub), es).Swap())
  {
    if es == [] {
    } else {
      var front, e := es[..|es| - 1], es[|es| - 1];
      RunKeepsGreeting(front, ua, ub);
      var s := Exec(Start(ua, ub), front);
      if e.OpenA? || e.DeliverToA? {
        StepKeepsGreeting(s, e);
      } else {
        StepKeepsGreeting(s.Swap(), Mirror(e));
      }
    }
  }

  // Between two sides that allow at least one greeting, which every draw of the limit does,
  // handling a message that is no malformed list never goes through a lost mover.
  lemma {:induction false} WellFormedListsKeepTheMover(es: seq<Event>, ua: bool, ub: bool, m: Kind, ch: Choice)
    requires IsRun(Start(ua, ub), es) && !ch.malformed && ch.maxHello >= 1
    ensures var s := Exec(Start(ua, ub), es);
      (Enabled(s, DeliverToA(m, ch)) ==> !LosesMover(s.a, m, ch))
      && (Enabled(s, DeliverToB(m, ch)) ==> !LosesMover(s.b, m, ch))
  {
    RunKeepsGreeting(es, ua, ub);
  }
}
