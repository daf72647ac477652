/** A stream in which one frame is not what was sent: the messages before it are delivered, and
    nothing from it on. */
module DamagedStream {
  import opened Common
  import opened Framing
  import opened Wire

  /** One frame, complete by its own account, that the reader must not take: its checksum is not
      that of its bytes, or its type is reserved or nobody's. */
  predicate IsDamaged(f: seq<Byte>, builders: set<nat>) {
    IsComplete(f) && SaysLength(f) == |f| && !IsGood(f, builders)
  }

  /** A delivered message is the one sent: its type, and its body with at most a pad's length of
      what comes next. */
  predicate Carries(m: Packet, got: Incoming, next: seq<Byte>) {
    && got.typeWord == m.TypeWord()
    && Body(m) <= got.payload <= Body(m) + next && |got.payload| <= |Body(m)| + |m.pad|
  }

  ghost predicate Carried(ms: seq<Packet>, got: seq<Incoming>, rest: seq<Byte>) {
    if ms == [] then got == []
    else got != [] && Carries(ms[0], got[0], Stream(ms[1..]) + rest) && Carried(ms[1..], got[1..], rest)
  }

  /** The messages of ms have been delivered, and the reader has closed. */
  ghost predicate StopsBehind(d: Drained, ms: seq<Packet>, rest: seq<Byte>) {
    d.bad && Carried(ms, d.messages, rest)
  }

  // The header of a frame does not change with what arrives behind it.
  lemma SameHeader(f: seq<Byte>, behind: seq<Byte>)
    requires |f| >= 14
    ensures var b := f + behind;
            LengthAt(b) == LengthAt(f) && SaysLength(b) == SaysLength(f)
            && (LengthAt(f) + 8 <= |f| ==> SaysType(b) == SaysType(f))
  {
    var b, o := f + behind, LengthAt(f);
    assert b[o..o + 4] == f[o..o + 4];
  }

  lemma DamagedIsRefused(f: seq<Byte>, behind: seq<Byte>, builders: set<nat>)
    requires IsDamaged(f, builders)
    ensures Drain(f + behind, builders) == Drained([], f + behind, true)
  {
    var b, o := f + behind, LengthAt(f);
    SameHeader(f, behind);
    assert b[..|f|] == f && f[..|f|] == f && b[o + 8..o + 12] == f[o + 8..o + 12];
    ReadsExactly(b, builders);
  }

  lemma PartOfDamagedWaits(f: seq<Byte>, builders: set<nat>, b: seq<Byte>)
    requires IsDamaged(f, builders) && b <= f && |b| < |f|
    ensures ReadOne(b, builders) == Wait
  {
    if |b| >= 14 {
      assert f == b + f[|b|..];
      SameHeader(b, f[|b|..]);
    }
    ReadsExactly(b, builders);
  }

  lemma FirstIsCarried(ms: seq<Packet>, behind: seq<Byte>, rest: seq<Byte>, d: Drained)
    requires ms != [] && behind <= Stream(ms[1..]) + rest && StopsBehind(d, ms[1..], rest)
    ensures StopsBehind(After([Incoming(ms[0].TypeWord(), Body(ms[0]) + Spill(ms[0], behind))], d), ms, rest)
  {
    var got := Incoming(ms[0].TypeWord(), Body(ms[0]) + Spill(ms[0], behind));
    assert ([got] + d.messages)[1..] == d.messages;
    assert Spill(ms[0], behind) <= Stream(ms[1..]) + rest;
  }

  lemma StreamTail(ms: seq<Packet>, rest: seq<Byte>)
    requires ms != []
    ensures Stream(ms) + rest == Frame(ms[0]) + (Stream(ms[1..]) + rest)
  {
  }

  lemma {:induction false} TakesAndGoesOn(
      ms: seq<Packet>, f: seq<Byte>, more: seq<Byte>, builders: set<nat>, buffer: seq<Byte>, chunks: seq<seq<Byte>>)
    requires AllSendable(ms, builders) && IsDamaged(f, builders) && ms != []
    requires buffer + Joined(chunks) == Stream(ms) + (f + more) && FrameLength(ms[0]) <= |buffer|
    ensures StopsBehind(Reading(buffer, chunks, builders), ms, f + more)
    decreases |ms| + |chunks|, 0
  {
    var rest := f + more;
    var behind := buffer[FrameLength(ms[0])..];
    StreamTail(ms, rest);
    SplitAt(Frame(ms[0]), buffer, Joined(chunks), Stream(ms[1..]) + rest);
    assert behind + Joined(chunks) == (buffer + Joined(chunks))[FrameLength(ms[0])..] == Stream(ms[1..]) + rest;
    DamagedFeed(ms[1..], f, more, builders, behind, chunks);
    WholeFrameIsTaken(ms[0], builders, behind);
    DrainTakes(buffer, builders, Incoming(ms[0].TypeWord(), Body(ms[0]) + Spill(ms[0], behind)), behind, chunks);
    FirstIsCarried(ms, behind, rest, Reading(behind, chunks, builders));
  }

  lemma PartWaitsToo(
      ms: seq<Packet>, f: seq<Byte>, more: seq<Byte>, builders: set<nat>, buffer: seq<Byte>)
    requires AllSendable(ms, builders) && IsDamaged(f, builders) && buffer <= Stream(ms) + (f + more)
    requires |buffer| < if ms == [] then |f| else FrameLength(ms[0])
    ensures ReadOne(buffer, builders) == Wait
  {
    if ms == [] {
      assert Stream(ms) + (f + more) == f + more;
      PrefixOfConcat(f, more, buffer);
      PartOfDamagedWaits(f, builders, buffer);
    } else {
      StreamTail(ms, f + more);
      PrefixOfConcat(Frame(ms[0]), Stream(ms[1..]) + (f + more), buffer);
      PartWaits(ms[0], builders, buffer);
    }
  }

  lemma {:induction false} DamagedFeed(
      ms: seq<Packet>, f: seq<Byte>, more: seq<Byte>, builders: set<nat>, buffer: seq<Byte>, chunks: seq<seq<Byte>>)
    requires AllSendable(ms, builders) && IsDamaged(f, builders)
    requires buffer + Joined(chunks) == Stream(ms) + (f + more)
    ensures StopsBehind(Reading(buffer, chunks, builders), ms, f + more)
    decreases |ms| + |chunks|, 1
  {
    if |buffer| < if ms == [] then |f| else FrameLength(ms[0]) {
      FrontOfStream(Stream(ms) + (f + more), buffer, Joined(chunks));
      PartWaitsToo(ms, f, more, builders, buffer);
      NotAllThere(ms, f, more, buffer, chunks);
      ArrivingTogether(buffer, chunks);
      DamagedFeed(ms, f, more, builders, buffer + chunks[0], chunks[1..]);
      FeedOnce(buffer, builders, chunks);
    } else if ms == [] {
      Refuses(f, more, builders, buffer, chunks);
    } else {
      TakesAndGoesOn(ms, f, more, builders, buffer, chunks);
    }
  }

  lemma NotAllThere(ms: seq<Packet>, f: seq<Byte>, more: seq<Byte>, buffer: seq<Byte>, chunks: seq<seq<Byte>>)
    requires buffer + Joined(chunks) == Stream(ms) + (f + more)
    requires |buffer| < if ms == [] then |f| else FrameLength(ms[0])
    ensures chunks != []
  {
    assert |Stream(ms) + (f + more)| == StreamLength(ms) + |f| + |more|;
  }

  lemma Refuses(f: seq<Byte>, more: seq<Byte>, builders: set<nat>, buffer: seq<Byte>, chunks: seq<seq<Byte>>)
    requires IsDamaged(f, builders) && buffer + Joined(chunks) == Stream([]) + (f + more) && |f| <= |buffer|
    ensures StopsBehind(Reading(buffer, chunks, builders), [], f + more)
  {
    assert Stream([]) + (f + more) == f + more;
    SplitAt(f, buffer, Joined(chunks), more);
    DamagedIsRefused(f, buffer[|f|..], builders);
  }

  lemma NothingAtFirst(builders: set<nat>, chunks: seq<seq<Byte>>)
    ensures Reading([], chunks, builders) == Feed([], chunks, builders)
  {
    assert ReadOne([], builders) == Wait;
    DrainWaits([], builders, chunks);
  }

  lemma NothingBefore(s: seq<Byte>, before: seq<Byte>, f: seq<Byte>, more: seq<Byte>)
    requires s == before + f + more
    ensures [] + s == before + (f + more)
  {
  }

  lemma {:induction false} FeedStops(
      ms: seq<Packet>, f: seq<Byte>, more: seq<Byte>, builders: set<nat>, chunks: seq<seq<Byte>>)
    requires AllSendable(ms, builders) && IsDamaged(f, builders) && Joined(chunks) == Stream(ms) + f + more
    ensures StopsBehind(Feed([], chunks, builders), ms, f + more)
  {
    NothingBefore(Joined(chunks), Stream(ms), f, more);
    DamagedFeed(ms, f, more, builders, [], chunks);
    NothingAtFirst(builders, chunks);
  }

  // Wherever the damaged frame is, however the bytes arrive and whatever comes behind it, exactly
  // the messages before it are delivered, in order, and the reader closes.
  lemma {:induction false} DamagedStreamStops(
      ms: seq<Packet>, f: seq<Byte>, more: seq<Byte>, builders: set<nat>, chunks: seq<seq<Byte>>)
    requires AllSendable(ms, builders) && IsDamaged(f, builders) && Joined(chunks) == Stream(ms) + f + more
    ensures var d := Feed([], chunks, builders);
      d.bad && |d.messages| == |ms|
      && forall i :: 0 <= i < |ms| ==> Carries(ms[i], d.messages[i], Stream(ms[i + 1..]) + (f + more))
  {
    FeedStops(ms, f, more, builders, chunks);
    CarriedEach(ms, Feed([], chunks, builders).messages, f + more);
  }

  lemma {:induction false} CarriedEach(ms: seq<Packet>, got: seq<Incoming>, rest: seq<Byte>)
    requires Carried(ms, got, rest)
    ensures |got| == |ms|
    ensures forall i :: 0 <= i < |ms| ==> Carries(ms[i], got[i], Stream(ms[i + 1..]) + rest)
  {
    if ms == [] {
    } else {
      CarriedEach(ms[1..], got[1..], rest);
      forall i | 0 <= i < |ms| ensures Carries(ms[i], got[i], Stream(ms[i + 1..]) + rest) {
        if i > 0 {
          assert ms[1..][i - 1] == ms[i] && ms[1..][i..] == ms[i + 1..] && got[1..][i - 1] == got[i];
        }
      }
    }
  }
}
