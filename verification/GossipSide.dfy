/** One end of a mover session: the flags a message processor keeps and what it sends in
    answer to each message. What depends on stored data or on chance is a parameter: whether
    a list was malformed, whether anything offered is wanted, how many items are sent back. */
module GossipSide {

  datatype Kind = Data | Hello | Goodbye | IHave | IWant | Done | Random

  /** gotDone remembers that a DONE was handled; the other fields are the processor's own. */
  datatype Side = Side(
    open: bool, started: bool, helloCount: nat,
    waiting: bool, sending: bool, sentIHave: bool, uploadOnly: bool, gotDone: bool)

  datatype Choice = Choice(maxHello: nat, malformed: bool, wants: bool, items: nat)

  function NewSide(uploadOnly: bool): Side {
    Side(true, false, 0, true, true, false, uploadOnly, false)
  }

  function Repeat(m: Kind, n: nat): (out: seq<Kind>)
    ensures |out| == n && forall i :: 0 <= i < n ==> out[i] == m
  {
    seq(n, i => m)
  }

  /** A closed side has no parent to send through. */
  function Sent(s: Side, m: Kind): seq<Kind> {
    if s.open then [m] else []
  }

  /** The reaction of a side to a message: its new state and the messages it sends, in order. */
  function Handle(s: Side, m: Kind, ch: Choice): (Side, seq<Kind>) {
    if !s.open then (s, [])
    else
      match m
      case Hello =>
        var s1 := s.(helloCount := s.helloCount + 1, sentIHave := true);
        if s.helloCount + 1 > ch.maxHello then (s1.(open := false), [Goodbye]) else (s1, [IHave])
      case Goodbye => (s.(open := false), [])
      case Data => (s, [])
      case IHave =>
        var bad := !s.uploadOnly && ch.malformed;
        var want := !s.uploadOnly && !ch.malformed && ch.wants;
        var s1 := s.(open := !bad, waiting := s.waiting && want, sentIHave := true);
        (s1, (if bad then [Goodbye] else if want then [IWant] else [])
             + (if s.sentIHave || bad then [] else [IHave]))
      case IWant =>
        if s.uploadOnly then (s, [])
        else if ch.malformed then (s.(open := false), [Goodbye])
        else
          (s.(sending := false, open := s.waiting),
           Repeat(Data, ch.items) + [Done] + (if s.waiting then [] else [Goodbye]))
      case Done =>
        var s1 := s.(waiting := false, gotDone := true, open := s.sending);
        (s1, if s.sending then [] else [Goodbye])
      case Random => (s, [])
  }

  /** Whether handling a message goes through the mover after closing has taken it away: one
      HELLO too many, or a malformed list before the side has sent its own. */
  predicate LosesMover(s: Side, m: Kind, ch: Choice) {
    && s.open
    && ((m == Hello && s.helloCount + 1 > ch.maxHello)
        || (m == IHave && !s.uploadOnly && ch.malformed && !s.sentIHave))
  }

  /** What a side sends when its connection starts: perhaps noise, then a list or a greeting. */
  function Opening(s: Side, noise: bool, hello: bool): (Side, seq<Kind>) {
    if !s.open then (s.(started := true), [])
    else
      (s.(started := true, sentIHave := s.sentIHave || !hello),
       (if noise then [Random] else []) + (if hello then [Hello] else [IHave]))
  }

  class MoverMessageProcessor {
    var open: bool
    var started: bool
    var helloCount: nat
    var waitingForMessages: bool
    var sendingMessages: bool
    var sentIHave: bool
    const uploadOnly: bool
    ghost var gotDone: bool
    var outbox: seq<Kind>
    var wentThroughNull: bool

    constructor (uploadOnly: bool)
      ensures View() == NewSide(uploadOnly) && outbox == [] && !wentThroughNull
    {
      this.uploadOnly := uploadOnly;
      open, started, helloCount := true, false, 0;
      waitingForMessages, sendingMessages, sentIHave := true, true, false;
      gotDone, outbox, wentThroughNull := false, [], false;
    }

    ghost function View(): Side
      reads this
    {
      Side(open, started, helloCount, waitingForMessages, sendingMessages, sentIHave, uploadOnly, gotDone)
    }

    method Close()
      modifies this`open
      ensures !open
    {
      open := false;
    }

    /** A closed side has no mover. */
    method UseMover()
      modifies this`wentThroughNull
      ensures wentThroughNull == (old(wentThroughNull) || !open)
    {
      if !open {
        wentThroughNull := true;
      }
    }

    method SendToParent(m: Kind)
      modifies this`outbox
      ensures outbox == old(outbox) + Sent(View(), m)
    {
      if open {
        outbox := outbox + [m];
      }
    }

    method SendGoodBye()
      modifies this`open, this`outbox
      ensures !open && outbox == old(outbox) + Sent(old(View()), Goodbye)
    {
      SendToParent(Goodbye);
      Close();
    }

    method SendIHave()
      modifies this`outbox, this`sentIHave
      ensures sentIHave && outbox == old(outbox) + Sent(old(View()), IHave)
    {
      SendToParent(IHave);
      sentIHave := true;
    }

    method SendMessagesDone()
      modifies this`open, this`outbox, this`sendingMessages
      ensures !sendingMessages && open == (old(open) && waitingForMessages)
      ensures old(open) ==> outbox == old(outbox) + [Done] + (if waitingForMessages then [] else [Goodbye])
      ensures !old(open) ==> outbox == old(outbox)
    {
      SendToParent(Done);
      sendingMessages := false;
      if !waitingForMessages {
        SendGoodBye();
      }
    }

    /** Answers a request: one DATA for each item found, then DONE. */
    method ParseIWant(ch: Choice)
      requires open
      modifies this`open, this`outbox, this`sendingMessages
      ensures View() == Handle(old(View()), IWant, ch).0
      ensures outbox == old(outbox) + Handle(old(View()), IWant, ch).1
      ensures uploadOnly ==> View() == old(View()) && outbox == old(outbox)
      ensures !uploadOnly && ch.malformed ==> !open && outbox == old(outbox) + [Goodbye]
      ensures !uploadOnly && !ch.malformed ==>
        !sendingMessages && open == waitingForMessages
        && outbox == old(outbox) + Repeat(Data, ch.items) + [Done] + if open then [] else [Goodbye]
    {
      if uploadOnly {
        return;
      }
      if ch.malformed {
        SendGoodBye();
        return;
      }
      ghost var before := outbox;
      var i := 0;
      while i < ch.items
        invariant 0 <= i <= ch.items && open
        invariant View() == old(View()) && outbox == before + Repeat(Data, i)
      {
        SendToParent(Data);
        assert Repeat(Data, i) + [Data] == Repeat(Data, i + 1);
        i := i + 1;
      }
      SendMessagesDone();
      assert outbox == before + (Repeat(Data, ch.items) + [Done] + (if waitingForMessages then [] else [Goodbye]));
    }

    method ProcessHello(ch: Choice)
      requires open
      modifies this
      ensures View() == Handle(old(View()), Hello, ch).0
      ensures outbox == old(outbox) + Handle(old(View()), Hello, ch).1
      ensures wentThroughNull == (old(wentThroughNull) || LosesMover(old(View()), Hello, ch))
      ensures helloCount == old(helloCount) + 1 && open == (helloCount <= ch.maxHello)
      ensures outbox == old(outbox) + if open then [IHave] else [Goodbye]
      ensures wentThroughNull == (old(wentThroughNull) || old(helloCount) >= ch.maxHello)
    {
      helloCount := helloCount + 1;
      UseMover();
      if helloCount > ch.maxHello {
        SendGoodBye();
      }
      UseMover();
      SendIHave();
    }

    method ProcessIHave(ch: Choice)
      requires open
      modifies this
      ensures View() == Handle(old(View()), IHave, ch).0
      ensures outbox == old(outbox) + Handle(old(View()), IHave, ch).1
      ensures wentThroughNull == (old(wentThroughNull) || LosesMover(old(View()), IHave, ch))
      ensures sentIHave && waitingForMessages == (old(waitingForMessages) && !uploadOnly && !ch.malformed && ch.wants)
      ensures wentThroughNull == (old(wentThroughNull) || (!uploadOnly && ch.malformed && !old(sentIHave)))
      ensures uploadOnly || !ch.malformed ==>
        open && outbox == old(outbox) + (if !uploadOnly && ch.wants then [IWant] else [])
                          + (if old(sentIHave) then [] else [IHave])
      ensures !uploadOnly && ch.malformed ==> !open && outbox == old(outbox) + [Goodbye]
    {
      UseMover();
      var bad := !uploadOnly && ch.malformed;
      if bad {
        SendGoodBye();
      }
      if !uploadOnly && !bad && ch.wants {
        SendToParent(IWant);
      } else {
        waitingForMessages := false;
      }
      if !sentIHave {
        UseMover();
        SendIHave();
      }
    }

    method ProcessDone(ch: Choice)
      requires open
      modifies this
      ensures View() == Handle(old(View()), Done, ch).0
      ensures outbox == old(outbox) + Handle(old(View()), Done, ch).1
      ensures wentThroughNull == old(wentThroughNull)
      ensures !waitingForMessages && gotDone && open == sendingMessages == old(sendingMessages)
      ensures outbox == old(outbox) + if open then [] else [Goodbye]
    {
      gotDone := true;
      waitingForMessages := false;
      if !sendingMessages {
        SendGoodBye();
      }
    }

    /** What calls for no answer. */
    method ProcessOther(m: Kind, ch: Choice)
      requires open && (m.Goodbye? || m.Data? || m.Random?)
      modifies this
      ensures View() == Handle(old(View()), m, ch).0 && outbox == old(outbox) + Handle(old(View()), m, ch).1
      ensures outbox == old(outbox) && wentThroughNull == old(wentThroughNull)
      ensures m.Goodbye? ==> !open
      ensures !m.Goodbye? ==> View() == old(View())
    {
      match m
      case Goodbye => Close();
      case Data => UseMover();
      case Random =>
    }

    /** Reacts as Handle says, which is: a greeting within the limit is answered with a list, one
        too many ends the session; of a list the side asks for what it wants, and gives its own
        back once; a request gets its items and DONE; what is malformed ends the session. */
    method ProcessMessage(m: Kind, ch: Choice)
      requires open
      modifies this
      ensures View() == Handle(old(View()), m, ch).0
      ensures outbox == old(outbox) + Handle(old(View()), m, ch).1
      ensures wentThroughNull == (old(wentThroughNull) || LosesMover(old(View()), m, ch))
      ensures wentThroughNull <==>
        || old(wentThroughNull) || (m.Hello? && old(helloCount) >= ch.maxHello)
        || (m.IHave? && !uploadOnly && ch.malformed && !old(sentIHave))
      ensures m.Hello? ==> helloCount == old(helloCount) + 1 && open == (helloCount <= ch.maxHello)
      ensures m.Hello? ==> outbox == old(outbox) + if open then [IHave] else [Goodbye]
      ensures m.Goodbye? ==> !open && outbox == old(outbox)
      ensures m.Data? || m.Random? ==> View() == old(View()) && outbox == old(outbox)
      ensures m.IHave? && (uploadOnly || !ch.malformed) ==>
        open && outbox == old(outbox) + (if !uploadOnly && ch.wants then [IWant] else [])
                          + (if old(sentIHave) then [] else [IHave])
      ensures m.IHave? ==>
        sentIHave && waitingForMessages == (old(waitingForMessages) && !uploadOnly && !ch.malformed && ch.wants)
      ensures (m.IHave? || m.IWant?) && !uploadOnly && ch.malformed ==> !open && outbox == old(outbox) + [Goodbye]
      ensures m.IWant? && uploadOnly ==> View() == old(View()) && outbox == old(outbox)
      ensures m.IWant? && !uploadOnly && !ch.malformed ==>
        !sendingMessages && open == waitingForMessages == old(waitingForMessages)
        && outbox == old(outbox) + Repeat(Data, ch.items) + [Done] + if open then [] else [Goodbye]
      ensures m.Done? ==> !waitingForMessages && gotDone && open == sendingMessages == old(sendingMessages)
      ensures m.Done? ==> outbox == old(outbox) + if open then [] else [Goodbye]
    {
      match m
      case Hello => ProcessHello(ch);
      case IHave => ProcessIHave(ch);
      case IWant =>
        UseMover();
        ParseIWant(ch);
      case Done => ProcessDone(ch);
      case _ => ProcessOther(m, ch);
    }

    method AfterConnect(noise: bool, hello: bool)
      modifies this
      ensures View() == Opening(old(View()), noise, hello).0
      ensures outbox == old(outbox) + Opening(old(View()), noise, hello).1
      ensures started && open == old(open) && (!old(open) ==> outbox == old(outbox))
      ensures open ==> outbox == old(outbox) + (if noise then [Random] else []) + [if hello then Hello else IHave]
      ensures open && !hello ==> sentIHave
    {
      started := true;
      if !open {
        return;
      }
      if noise {
        SendToParent(Random);
      }
      if hello {
        SendToParent(Hello);
      } else {
        SendIHave();
      }
    }
  }
}
