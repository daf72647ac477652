/** Messages framed for a stream, and the reader that cuts a stream back into messages however
    the bytes happen to arrive. */
module Framing {
  import opened Common
  import opened Wire
  import Split

  const MAX_MESSAGE_LENGTH := 0x100_0000 - 1
  const HEADER := 12

  /** A mover message with the random bytes that marshalling adds: the leading pad and a block
      of noise before the data. */
  datatype Outgoing = Outgoing(
    pad: seq<Byte>, category: Byte, kind: Byte, subtype: Byte, message: Byte,
    noise: seq<Byte>, data: seq<Byte>)
  {
    function TypeWord(): nat {
      ((category * 256 + kind) * 256 + subtype) * 256 + message
    }

    /** The value of the length field: everything but the pad. */
    function Length(): nat {
      16 + |noise| + |data|
    }
  }

  /** What head_pad returns: a first byte and as many further bytes as its low bits say. */
  predicate IsHeadPad(pad: seq<Byte>) {
    pad != [] && |pad| == pad[0] % 8 + 1
  }

  type Packet = m: Outgoing | IsHeadPad(m.pad) witness Outgoing([0], 0, 0, 0, 0, [], [])

  method HeadPad(first: Byte, random: seq<Byte>) returns (pad: seq<Byte>)
    requires |random| >= 7
    ensures IsHeadPad(pad) && pad[0] == first
  {
    var len := first % 8;
    pad := [first];
    if len != 0 {
      pad := pad + random[..len];
    }
  }

  /** What follows the checksum: the length of the noise, the noise, the data. */
  function Tail(m: Packet): seq<Byte> {
    BigEndian(|m.noise|, 4) + m.noise + m.data
  }

  function Laid(pad: seq<Byte>, length: seq<Byte>, kind: seq<Byte>, slot: seq<Byte>, tail: seq<Byte>): seq<Byte> {
    pad + length + kind + slot + tail
  }

  lemma Layout(pad: seq<Byte>, length: seq<Byte>, kind: seq<Byte>, slot: seq<Byte>, tail: seq<Byte>)
    requires IsHeadPad(pad) && |length| == |kind| == |slot| == 4
    ensures var f, o := Laid(pad, length, kind, slot, tail), |pad|;
      && |f| == o + 12 + |tail| && HasSlot(f) && HeaderOffset(f) == o && SlotOf(f) == slot
      && f[o..o + 4] == length && f[o + 4..o + 8] == kind && f[o + 12..] == tail
  {
    var f, o := Laid(pad, length, kind, slot, tail), |pad|;
    assert f[0] == pad[0];
    assert f[o..] == length + kind + slot + tail;
  }

  lemma LayoutSlot(pad: seq<Byte>, length: seq<Byte>, kind: seq<Byte>, s1: seq<Byte>, s2: seq<Byte>, tail: seq<Byte>)
    requires IsHeadPad(pad) && |length| == |kind| == |s1| == |s2| == 4
    ensures HasSlot(Laid(pad, length, kind, s1, tail))
    ensures WithSlot(Laid(pad, length, kind, s1, tail), s2) == Laid(pad, length, kind, s2, tail)
  {
    Layout(pad, length, kind, s1, tail);
    var f, k := Laid(pad, length, kind, s1, tail), |pad| + 8;
    assert f[..k] == pad + length + kind && f[k + 4..] == tail;
  }

  /** The frame before its checksum is filled in. */
  function Unchecked(m: Packet): (u: seq<Byte>)
    ensures HasSlot(u)
  {
    Layout(m.pad, BigEndian(m.Length(), 4), BigEndian(m.TypeWord(), 4), BigEndian(0, 4), Tail(m));
    Laid(m.pad, BigEndian(m.Length(), 4), BigEndian(m.TypeWord(), 4), BigEndian(0, 4), Tail(m))
  }

  function Slot(m: Packet): (slot: seq<Byte>)
    ensures |slot| == 4
  {
    BigEndian(ChecksumOf(Unchecked(m)), 4)
  }

  function Frame(m: Packet): (f: seq<Byte>)
    ensures |f| == |m.pad| + m.Length()
  {
    Laid(m.pad, BigEndian(m.Length(), 4), BigEndian(m.TypeWord(), 4), Slot(m), Tail(m))
  }

  /** The part of the frame that reaches the message builder. */
  function Body(m: Packet): seq<Byte>
  {
    Frame(m)[|m.pad|..]
  }

  lemma {:induction false} FrameIsChecksummed(m: Packet)
    ensures Frame(m) == Checksummed(Unchecked(m))
    ensures HasSlot(Frame(m)) && FromBigEndian(SlotOf(Frame(m))) == ChecksumOf(Frame(m))
  {
    LayoutSlot(m.pad, BigEndian(m.Length(), 4), BigEndian(m.TypeWord(), 4), BigEndian(0, 4), Slot(m), Tail(m));
    ChecksumAccepted(Unchecked(m));
  }

  lemma TypeWordBytes(m: Packet)
    ensures BigEndian(m.TypeWord(), 4) == [m.category, m.kind, m.subtype, m.message]
  {
    var one := [m.category];
    var two, three := one + [m.kind], one + [m.kind] + [m.subtype];
    assert two[..1] == one && three[..2] == two && (three + [m.message])[..3] == three;
    assert FromBigEndian(one) == m.category && FromBigEndian(two) == m.category * 256 + m.kind;
    assert FromBigEndian(three) == (m.category * 256 + m.kind) * 256 + m.subtype;
    assert FromBigEndian(three + [m.message]) == FromBigEndian(three) * 256 + m.message;
    FromBigEndianRoundTrip(three + [m.message]);
  }

  // What is where in a frame.
  lemma {:induction false} FrameLayout(m: Packet)
    ensures var f, o := Frame(m), |m.pad|;
      && f[..o] == m.pad && f[o..o + 4] == BigEndian(16 + |m.noise| + |m.data|, 4)
      && f[o + 4..o + 8] == [m.category, m.kind, m.subtype, m.message]
      && f[o + 12..] == BigEndian(|m.noise|, 4) + m.noise + m.data
  {
    TypeWordBytes(m);
    Layout(m.pad, BigEndian(m.Length(), 4), BigEndian(m.TypeWord(), 4), Slot(m), Tail(m));
    PadIsFirst(m.pad, BigEndian(m.Length(), 4), BigEndian(m.TypeWord(), 4), Slot(m), Tail(m));
  }

  lemma PadIsFirst(pad: seq<Byte>, length: seq<Byte>, kind: seq<Byte>, slot: seq<Byte>, tail: seq<Byte>)
    ensures Laid(pad, length, kind, slot, tail)[..|pad|] == pad
  {
  }

  lemma LaidPieceByPiece(pad: seq<Byte>, length: seq<Byte>, kind: seq<Byte>, slot: seq<Byte>,
                         n: seq<Byte>, noise: seq<Byte>, data: seq<Byte>)
    ensures pad + length + kind + slot + n + noise + data == Laid(pad, length, kind, slot, n + noise + data)
  {
  }

  method Marshall(m: Packet) returns (d: seq<Byte>)
    ensures d == Frame(m)
  {
    d := m.pad;
    d := Append(d, 16 + |m.data| + |m.noise|, 4);
    d := Append(d, m.TypeWord(), 4);
    d := Append(d, 0, 4);
    d := Append(d, |m.noise|, 4);
    d := d + m.noise;
    d := d + m.data;
    LaidPieceByPiece(m.pad, BigEndian(m.Length(), 4), BigEndian(m.TypeWord(), 4), BigEndian(0, 4),
                     BigEndian(|m.noise|, 4), m.noise, m.data);
    assert d == Unchecked(m);
    d := SetChecksum(d);
    FrameIsChecksummed(m);
  }

  // ---- Message types ----

  /** The type word the reader computes from four bytes taken as signed characters. */
  function ReadType(b0: Byte, b1: Byte, b2: Byte, b3: Byte): nat {
    (Signed(b0) * 0x100_0000 + Signed(b1) * 0x1_0000 + Signed(b2) * 0x100 + Signed(b3)) % TWO_TO_32
  }

  // The reader gets the type that was sent exactly when none of the three low bytes has its
  // top bit set; otherwise the sign of the byte has leaked into the bytes above it.
  lemma TypeSurvives(b0: Byte, b1: Byte, b2: Byte, b3: Byte)
    ensures ReadType(b0, b1, b2, b3) == ((b0 * 256 + b1) * 256 + b2) * 256 + b3 <==> b1 < 128 && b2 < 128 && b3 < 128
  {
    var sent := ((b0 * 256 + b1) * 256 + b2) * 256 + b3;
    var top := if b0 < 128 then 0 else 1;
    var lost :=
      (if b1 < 128 then 0 else 0x100_0000) + (if b2 < 128 then 0 else 0x1_0000) + (if b3 < 128 then 0 else 0x100);
    assert ReadType(b0, b1, b2, b3) == (sent - lost - top * TWO_TO_32) % TWO_TO_32;
    assert ReadType(b0, b1, b2, b3) == (sent - lost) % TWO_TO_32;
  }

  predicate HasReservedByte(t: nat) {
    t % 256 == 0 || t / 0x100 % 256 == 0 || t / 0x1_0000 % 256 == 0 || t / 0x100_0000 % 256 == 0
  }

  /** The type with its k low bytes cleared. */
  function Cleared(t: nat, k: nat): nat {
    if k == 0 then t
    else if k == 1 then t - t % 0x100
    else if k == 2 then t - t % 0x1_0000
    else if k == 3 then t - t % 0x100_0000
    else 0
  }

  /** The registered builder for a type: its most specific registered prefix, or 0. */
  function FindBuilder(builders: set<nat>, t: nat, k: nat): nat
    requires k <= 4
    decreases 4 - k
  {
    if Cleared(t, k) == 0 then 0
    else if Cleared(t, k) in builders then Cleared(t, k)
    else FindBuilder(builders, t, k + 1)
  }

  /** Clearing i bytes is the first way to turn t into a registered type. */
  ghost predicate FirstMatch(builders: set<nat>, t: nat, k: nat, i: nat) {
    && k <= i < 4 && Cleared(t, i) in builders && Cleared(t, i) != 0
    && forall j :: k <= j < i ==> Cleared(t, j) !in builders
  }

  lemma {:induction false} FindBuilderIsMostSpecific(builders: set<nat>, t: nat, k: nat)
    requires k <= 4 && t < TWO_TO_32
    ensures FindBuilder(builders, t, k) != 0 <==> exists i :: FirstMatch(builders, t, k, i)
    ensures forall i :: FirstMatch(builders, t, k, i) ==> FindBuilder(builders, t, k) == Cleared(t, i)
    decreases 4 - k
  {
    if Cleared(t, k) == 0 {
      assert forall i :: k <= i < 4 ==> Cleared(t, i) == 0;
    } else if Cleared(t, k) in builders {
      assert FirstMatch(builders, t, k, k);
    } else {
      FindBuilderIsMostSpecific(builders, t, k + 1);
      forall i ensures FirstMatch(builders, t, k, i) <==> FirstMatch(builders, t, k + 1, i) {
      }
      if FindBuilder(builders, t, k) != 0 {
        var i :| FirstMatch(builders, t, k + 1, i);
        assert FirstMatch(builders, t, k, i);
      }
    }
  }

  // ---- Reading ----

  /** A message as delivered: its type and what follows the pad. */
  datatype Incoming = Incoming(typeWord: nat, payload: seq<Byte>)

  /** Short stands for frames that do not even cover their own header; what the reader does
      with those is not modelled. */
  datatype Outcome = Wait | Reject | Short | Got(m: Incoming, rest: seq<Byte>)

  /** The length of the frame at the front of the buffer, as the header announces it. */
  function Announced(buffer: seq<Byte>): nat
    requires |buffer| > 13
  {
    var o := HeaderOffset(buffer);
    (FromBigEndian(buffer[o..o + 4]) + o) % TWO_TO_32
  }

  function ReadOne(buffer: seq<Byte>, builders: set<nat>): (r: Outcome)
    ensures r.Got? ==> |r.rest| < |buffer|
  {
    if |buffer| <= 13 then Wait
    else
      var o, total := HeaderOffset(buffer), Announced(buffer);
      if total >= MAX_MESSAGE_LENGTH || total <= HEADER then Reject
      else if |buffer| < total then Wait
      else if total <= CHECKSUM_OFFSET + 3 + o then Short
      else
        var t := ReadType(buffer[4 + o], buffer[5 + o], buffer[6 + o], buffer[7 + o]);
        var frame := buffer[..total];
        if FromBigEndian(SlotOf(frame)) != ChecksumOf(frame) then Reject
        else if HasReservedByte(t) || FindBuilder(builders, t, 0) == 0 then Reject
        else Got(Incoming(t, buffer[o..Min(o + total, |buffer|)]), buffer[total..])
  }

  // ---- What the reader looks for ----

  /** Where the length stands in a buffer, behind the pad. */
  function LengthAt(b: seq<Byte>): (o: nat)
    requires b != []
    ensures 1 <= o <= 8
  {
    b[0] % 8 + 1
  }

  /** How long the frame at the front of a buffer says it is. */
  function SaysLength(b: seq<Byte>): nat
    requires |b| >= 14
  {
    var o := LengthAt(b);
    (FromBigEndian(b[o..o + 4]) + o) % 0x1_0000_0000
  }

  /** The type as the reader sees it, each byte with its sign. */
  function SaysType(b: seq<Byte>): nat
    requires b != [] && LengthAt(b) + 8 <= |b|
  {
    var o := LengthAt(b);
    (Signed(b[o + 4]) * 0x100_0000 + Signed(b[o + 5]) * 0x1_0000 + Signed(b[o + 6]) * 0x100 + Signed(b[o + 7]))
    % 0x1_0000_0000
  }

  predicate IsSaneLength(total: nat) {
    12 < total < 0xFF_FFFF
  }

  /** The frame is all there, and long enough for its own header and checksum. */
  predicate IsComplete(b: seq<Byte>) {
    |b| >= 14 && IsSaneLength(SaysLength(b)) && LengthAt(b) + 12 <= SaysLength(b) <= |b|
  }

  predicate HasItsChecksum(b: seq<Byte>)
    requires IsComplete(b)
  {
    var o := LengthAt(b);
    FromBigEndian(b[o + 8..o + 12]) == ChecksumOf(b[..SaysLength(b)])
  }

  predicate NoZeroByte(t: nat) {
    t % 0x100 != 0 && t / 0x100 % 0x100 != 0 && t / 0x1_0000 % 0x100 != 0 && t / 0x100_0000 % 0x100 != 0
  }

  /** The type, or the type with some low bytes cleared, is registered. */
  predicate HasPrefix(builders: set<nat>, t: nat) {
    t in builders || t - t % 0x100 in builders || t - t % 0x1_0000 in builders || t - t % 0x100_0000 in builders
  }

  /** A whole frame that carries the checksum of its own bytes, and a type that is allowed and
      that somebody has registered for. */
  predicate IsGood(b: seq<Byte>, builders: set<nat>) {
    IsComplete(b) && HasItsChecksum(b) && NoZeroByte(SaysType(b)) && HasPrefix(builders, SaysType(b))
  }

  /** A frame that the reader will not take however long it waits: a length out of range, or all
      there and not good. */
  predicate IsBroken(b: seq<Byte>, builders: set<nat>) {
    |b| >= 14 && !IsGood(b, builders) && (IsSaneLength(SaysLength(b)) ==> SaysLength(b) <= |b|)
  }

  /** The message in a complete frame. The slice is as long as the frame with its pad. */
  function TakenFrom(b: seq<Byte>): Incoming
    requires IsComplete(b)
  {
    var o := LengthAt(b);
    Incoming(SaysType(b), b[o..Min(o + SaysLength(b), |b|)])
  }

  lemma PrefixIsFound(builders: set<nat>, t: nat)
    requires t < TWO_TO_32 && t / 0x100_0000 % 0x100 != 0
    ensures FindBuilder(builders, t, 0) != 0 <==> HasPrefix(builders, t)
  {
    assert t - t % 0x100_0000 > 0 && t - t % 0x1_0000 > 0 && t - t % 0x100 > 0;
    assert FindBuilder(builders, t, 4) == 0;
    assert FindBuilder(builders, t, 3) == if Cleared(t, 3) in builders then Cleared(t, 3) else 0;
    assert FindBuilder(builders, t, 2) ==
      if Cleared(t, 2) in builders then Cleared(t, 2) else FindBuilder(builders, t, 3);
    assert FindBuilder(builders, t, 1) ==
      if Cleared(t, 1) in builders then Cleared(t, 1) else FindBuilder(builders, t, 2);
  }

  lemma SlotIsThere(b: seq<Byte>)
    requires IsComplete(b)
    ensures HasSlot(b[..SaysLength(b)])
    ensures SlotOf(b[..SaysLength(b)]) == b[LengthAt(b) + 8..LengthAt(b) + 12]
  {
    var frame := b[..SaysLength(b)];
    assert frame[0] == b[0];
  }

  lemma CompleteFrame(b: seq<Byte>, builders: set<nat>)
    requires IsComplete(b)
    ensures ReadOne(b, builders).Got? <==> IsGood(b, builders)
    ensures !ReadOne(b, builders).Wait?
    ensures IsGood(b, builders) ==> ReadOne(b, builders) == Got(TakenFrom(b), b[SaysLength(b)..])
  {
    assert Announced(b) == SaysLength(b);
    SlotIsThere(b);
    if NoZeroByte(SaysType(b)) {
      PrefixIsFound(builders, SaysType(b));
    }
  }

  // A message is taken if and only if the frame at the front of the buffer is good; the reader
  // closes if and only if it is broken; and waits otherwise.
  lemma ReadsExactly(b: seq<Byte>, builders: set<nat>)
    ensures ReadOne(b, builders).Got? <==> IsGood(b, builders)
    ensures ReadOne(b, builders).Wait? <==> !IsGood(b, builders) && !IsBroken(b, builders)
    ensures IsGood(b, builders) ==> ReadOne(b, builders) == Got(TakenFrom(b), b[SaysLength(b)..])
  {
    if IsComplete(b) {
      CompleteFrame(b, builders);
    } else if |b| >= 14 {
      assert Announced(b) == SaysLength(b);
    }
  }

  /** All messages the reader can take off the front of a buffer, what is left, and whether it
      stopped because the stream is bad. */
  datatype Drained = Drained(messages: seq<Incoming>, rest: seq<Byte>, bad: bool)

  function Drain(buffer: seq<Byte>, builders: set<nat>): Drained
    decreases |buffer|
  {
    match ReadOne(buffer, builders)
    case Wait => Drained([], buffer, false)
    case Got(m, rest) =>
      var d := Drain(rest, builders);
      Drained([m] + d.messages, d.rest, d.bad)
    case _ => Drained([], buffer, true)
  }

  function After(first: seq<Incoming>, d: Drained): Drained {
    d.(messages := first + d.messages)
  }

  class ProtoBufReader {
    var buffer: seq<Byte>
    var closed: bool
    var delivered: seq<Incoming>
    const builders: set<nat>

    constructor (builders: set<nat>)
      ensures buffer == [] && !closed && delivered == [] && this.builders == builders
    {
      buffer, closed, delivered := [], false, [];
      this.builders := builders;
    }

    /** Takes the frame at the front of the buffer apart. */
    method TakeFrame() returns (got: bool)
      modifies this
      ensures got == ReadOne(old(buffer), builders).Got?
      ensures delivered == old(delivered) + if got then [ReadOne(old(buffer), builders).m] else []
      ensures buffer == if got then ReadOne(old(buffer), builders).rest else old(buffer)
      ensures closed == (old(closed) || !(got || ReadOne(old(buffer), builders).Wait?))
    {
      got := false;
      var b := buffer;
      if |b| <= 13 {
        return;
      }
      var o := b[0] % 8 + 1;
      var len := GetUint(b, o, 4);
      var total := (len + o) % TWO_TO_32;
      assert total == Announced(b);
      if total >= MAX_MESSAGE_LENGTH || total <= HEADER {
        closed := true;
        return;
      }
      if |b| < total {
        return;
      }
      if total <= CHECKSUM_OFFSET + 3 + o {
        closed := true;
        return;
      }
      var frame := b[..total];
      var csum := GetUint(frame, CHECKSUM_OFFSET + o, 4);
      var expected := Checksum(frame);
      assert csum == FromBigEndian(SlotOf(frame));
      var t := ReadType(b[4 + o], b[5 + o], b[6 + o], b[7 + o]);
      if csum != expected || HasReservedByte(t) || FindBuilder(builders, t, 0) == 0 {
        closed := true;
        return;
      }
      var m := Incoming(t, b[o..Min(o + total, |b|)]);
      assert ReadOne(b, builders) == Got(m, b[total..]);
      delivered := delivered + [m];
      buffer := b[total..];
      got := true;
    }

    /** Takes one message off the buffer when a good frame is at the front, closes when a broken one
        is, and waits otherwise. */
    method ReadMessage() returns (got: bool)
      modifies this
      ensures got == ReadOne(old(buffer), builders).Got?
      ensures delivered == old(delivered) + if got then [ReadOne(old(buffer), builders).m] else []
      ensures buffer == if got then ReadOne(old(buffer), builders).rest else old(buffer)
      ensures closed == (old(closed) || !(got || ReadOne(old(buffer), builders).Wait?))
      ensures got <==> IsGood(old(buffer), builders)
      ensures got ==>
        delivered == old(delivered) + [TakenFrom(old(buffer))] && buffer == old(buffer)[SaysLength(old(buffer))..]
      ensures !got ==> delivered == old(delivered) && buffer == old(buffer)
      ensures closed <==> old(closed) || IsBroken(old(buffer), builders)
    {
      ReadsExactly(buffer, builders);
      got := TakeFrame();
    }

    /** One turn of the reading loop. Of all, the messages in taken have been delivered. */
    method ReadNext(ghost all: seq<Byte>, ghost taken: seq<Incoming>) returns (more: bool, ghost now: seq<Incoming>)
      requires !closed && Drain(all, builders) == After(taken, Drain(buffer, builders))
      modifies this
      ensures forall before :: old(delivered) == before + taken ==> delivered == before + now
      ensures more ==>
        |buffer| < |old(buffer)| && !closed && Drain(all, builders) == After(now, Drain(buffer, builders))
      ensures !more ==> Drain(all, builders) == Drained(now, buffer, closed) && now == taken
    {
      ghost var here := buffer;
      now := taken;
      more := ReadMessage();
      if more {
        DrainOne(here, builders, taken);
        now := taken + [ReadOne(here, builders).m];
      } else {
        DrainStops(here, builders, taken);
      }
    }

    /** Appends newly arrived bytes and delivers every message that has become complete. */
    method Read(chunk: seq<Byte>)
      requires !closed
      modifies this
      ensures var d := Drain(old(buffer) + chunk, builders);
        delivered == old(delivered) + d.messages && buffer == d.rest && closed == d.bad
    {
      buffer := buffer + chunk;
      ghost var all, before := buffer, delivered;
      ghost var taken: seq<Incoming> := [];
      NothingTaken(Drain(all, builders));
      var more := true;
      while more
        invariant delivered == before + taken
        invariant more ==> !closed && Drain(all, builders) == After(taken, Drain(buffer, builders))
        invariant !more ==> Drain(all, builders) == Drained(taken, buffer, closed)
        decreases more, |buffer|
      {
        more, taken := ReadNext(all, taken);
      }
    }
  }

  lemma NothingTaken(d: Drained)
    ensures After([], d) == d
  {
    assert [] + d.messages == d.messages;
  }

  lemma DrainStops(buffer: seq<Byte>, builders: set<nat>, taken: seq<Incoming>)
    requires !ReadOne(buffer, builders).Got?
    ensures After(taken, Drain(buffer, builders)) == Drained(taken, buffer, !ReadOne(buffer, builders).Wait?)
  {
    assert taken + [] == taken;
  }

  lemma {:induction false} DrainOne(buffer: seq<Byte>, builders: set<nat>, taken: seq<Incoming>)
    requires ReadOne(buffer, builders).Got?
    ensures var r := ReadOne(buffer, builders);
      After(taken, Drain(buffer, builders)) == After(taken + [r.m], Drain(r.rest, builders))
  {
    var r := ReadOne(buffer, builders);
    var d := Drain(r.rest, builders);
    assert Drain(buffer, builders) == After([r.m], d);
    assert taken + ([r.m] + d.messages) == taken + [r.m] + d.messages;
  }

  // ---- The stream and the messages in it ----

  /** A message the reader is able to take: sane pad, no zero byte in its type, none of the low
      three above 127, a total length under the limit, and a builder for it. */
  predicate Sendable(m: Packet, builders: set<nat>) {
    && m.category != 0 && 0 < m.kind < 128 && 0 < m.subtype < 128 && 0 < m.message < 128
    && |m.pad| + m.Length() < MAX_MESSAGE_LENGTH
    && FindBuilder(builders, m.TypeWord(), 0) != 0
  }

  lemma FrameParts(m: Packet)
    ensures var f, o := Frame(m), |m.pad|;
      && HasSlot(f) && HeaderOffset(f) == o
      && f[o..o + 4] == BigEndian(m.Length(), 4) && f[o + 4..o + 8] == BigEndian(m.TypeWord(), 4)
      && f[o + 12..] == Tail(m)
  {
    Layout(m.pad, BigEndian(m.Length(), 4), BigEndian(m.TypeWord(), 4), Slot(m), Tail(m));
  }

  // The header bytes of a frame are the same in every buffer that starts with it or with a
  // long enough part of it.
  lemma HeaderAgrees(f: seq<Byte>, buffer: seq<Byte>, from: nat, to: nat)
    requires buffer <= f || f <= buffer
    requires from <= to <= |f| && to <= |buffer|
    ensures buffer[from..to] == f[from..to]
  {
  }

  lemma AnnouncedIs(buffer: seq<Byte>, o: nat, length: nat, word: seq<Byte>)
    requires |buffer| > 13 && HeaderOffset(buffer) == o && buffer[o..o + 4] == word
    requires FromBigEndian(word) == length && length + o < TWO_TO_32
    ensures Announced(buffer) == length + o
  {
  }

  // As soon as fourteen bytes of a frame are there, the reader knows how long it is.
  lemma LengthIsKnownEarly(m: Packet, buffer: seq<Byte>)
    requires |m.pad| + m.Length() < MAX_MESSAGE_LENGTH
    requires |buffer| > 13 && (buffer <= Frame(m) || Frame(m) <= buffer)
    ensures HeaderOffset(buffer) == |m.pad| && Announced(buffer) == |m.pad| + m.Length()
  {
    var o, f := |m.pad|, Frame(m);
    FrameParts(m);
    HeaderAgrees(f, buffer, 0, 1);
    assert buffer[0] == buffer[0..1][0] && f[0] == f[0..1][0];
    HeaderAgrees(f, buffer, o, o + 4);
    assert Pow256(4) == TWO_TO_32;
    BigEndianRoundTrip(m.Length(), 4);
    AnnouncedIs(buffer, o, m.Length(), BigEndian(m.Length(), 4));
  }

  lemma TypeBytes(kind: seq<Byte>, f: seq<Byte>, o: nat)
    requires |kind| == 4 && o + 8 <= |f| && f[o + 4..o + 8] == kind
    ensures f[4 + o] == kind[0] && f[5 + o] == kind[1] && f[6 + o] == kind[2] && f[7 + o] == kind[3]
  {
  }

  lemma {:induction false} TypeIsRead(m: Packet, buffer: seq<Byte>)
    requires m.kind < 128 && m.subtype < 128 && m.message < 128 && Frame(m) <= buffer
    ensures var o := |m.pad|;
      ReadType(buffer[4 + o], buffer[5 + o], buffer[6 + o], buffer[7 + o]) == m.TypeWord()
  {
    var o := |m.pad|;
    FrameParts(m);
    HeaderAgrees(Frame(m), buffer, o + 4, o + 8);
    TypeBytes(BigEndian(m.TypeWord(), 4), buffer, o);
    FourBytes(m.TypeWord());
    WordBytes(m);
    TypeSurvives(m.category, m.kind, m.subtype, m.message);
  }

  lemma LowByte(high: nat, low: Byte)
    ensures (high * 256 + low) / 256 == high && (high * 256 + low) % 256 == low
  {
  }

  lemma WordBytes(m: Packet)
    ensures var t := m.TypeWord();
      t / 0x100_0000 % 256 == m.category && t / 0x1_0000 % 256 == m.kind
      && t / 0x100 % 256 == m.subtype && t % 256 == m.message
  {
    var t, u, v := m.TypeWord(), (m.category * 256 + m.kind) * 256 + m.subtype, m.category * 256 + m.kind;
    LowByte(u, m.message);
    LowByte(v, m.subtype);
    LowByte(m.category, m.kind);
    assert t / 0x1_0000 == t / 256 / 256 && t / 0x100_0000 == t / 0x1_0000 / 256;
  }

  // A part of a frame makes the reader wait.
  lemma {:induction false} PartWaits(m: Packet, builders: set<nat>, buffer: seq<Byte>)
    requires Sendable(m, builders) && buffer <= Frame(m) && |buffer| < |Frame(m)|
    ensures ReadOne(buffer, builders) == Wait
  {
    if |buffer| > 13 {
      LengthIsKnownEarly(m, buffer);
    }
  }

  /** How much of what is buffered behind a frame ends up in its payload. */
  function Spill(m: Packet, behind: seq<Byte>): seq<Byte> {
    behind[..Min(|m.pad|, |behind|)]
  }

  lemma {:induction false} ReadOneTakes(f: seq<Byte>, behind: seq<Byte>, builders: set<nat>, t: nat, o: nat)
    requires HasSlot(f) && HeaderOffset(f) == o && |f| > 13 && |f| < MAX_MESSAGE_LENGTH
    requires HeaderOffset(f + behind) == o && Announced(f + behind) == |f|
    requires var b := f + behind; ReadType(b[4 + o], b[5 + o], b[6 + o], b[7 + o]) == t
    requires FromBigEndian(SlotOf(f)) == ChecksumOf(f) && !HasReservedByte(t) && FindBuilder(builders, t, 0) != 0
    ensures ReadOne(f + behind, builders) == Got(Incoming(t, f[o..] + behind[..Min(o, |behind|)]), behind)
  {
    var buffer := f + behind;
    assert buffer[..|f|] == f && buffer[|f|..] == behind;
    assert buffer[o..Min(o + |f|, |buffer|)] == f[o..] + behind[..Min(o, |behind|)];
  }

  // A whole frame is taken off exactly, whatever follows it. Its payload is what was sent and,
  // because the slice is as long as the frame with its pad, as many bytes of what follows as
  // the pad is long.
  lemma {:induction false} WholeFrameIsTaken(m: Packet, builders: set<nat>, behind: seq<Byte>)
    requires Sendable(m, builders)
    ensures ReadOne(Frame(m) + behind, builders) == Got(Incoming(m.TypeWord(), Body(m) + Spill(m, behind)), behind)
  {
    LengthIsKnownEarly(m, Frame(m) + behind);
    TypeIsRead(m, Frame(m) + behind);
    FrameIsChecksummed(m);
    FrameParts(m);
    WordBytes(m);
    ReadOneTakes(Frame(m), behind, builders, m.TypeWord(), |m.pad|);
  }

  /** What the mover's message builder keeps of a payload: the part after the noise. */
  function BuiltData(payload: seq<Byte>): seq<Byte>
    requires |payload| >= HEADER + 4 && |payload| >= HEADER + 4 + FromBigEndian(payload[HEADER..HEADER + 4])
  {
    payload[HEADER + 4 + FromBigEndian(payload[HEADER..HEADER + 4])..]
  }

  lemma TailParts(length: seq<Byte>, noise: seq<Byte>, data: seq<Byte>, front: seq<Byte>, extra: seq<Byte>)
    requires |length| == 4 && |front| == HEADER
    ensures var p := front + (length + noise + data) + extra;
      p[HEADER..HEADER + 4] == length && p[HEADER + 4 + |noise|..] == data + extra
  {
    var p := front + (length + noise + data) + extra;
    assert p == front + length + noise + (data + extra);
  }

  // The message that comes out carries the data that went in, followed by the spill.
  lemma DataComesOut(m: Packet, extra: seq<Byte>)
    requires |m.noise| < TWO_TO_32
    ensures var p := Body(m) + extra;
      |p| >= HEADER + 4 && FromBigEndian(p[HEADER..HEADER + 4]) == |m.noise|
      && BuiltData(p) == m.data + extra
  {
    FrameParts(m);
    var p, front := Body(m) + extra, Frame(m)[|m.pad|..|m.pad| + HEADER];
    assert Body(m) == front + Tail(m);
    TailParts(BigEndian(|m.noise|, 4), m.noise, m.data, front, extra);
    assert Pow256(4) == TWO_TO_32;
    BigEndianRoundTrip(|m.noise|, 4);
  }

  // ---- Whole streams in pieces ----

  function FrameLength(m: Packet): nat {
    |m.pad| + m.Length()
  }

  function StreamLength(ms: seq<Packet>): nat {
    if ms == [] then 0 else FrameLength(ms[0]) + StreamLength(ms[1..])
  }

  function Stream(ms: seq<Packet>): (s: seq<Byte>)
    ensures |s| == StreamLength(ms)
  {
    if ms == [] then [] else Frame(ms[0]) + Stream(ms[1..])
  }

  ghost predicate AllSendable(ms: seq<Packet>, builders: set<nat>) {
    forall m :: m in ms ==> Sendable(m, builders)
  }

  /** The message as it is delivered when n more bytes have arrived behind its frame: the body
      sent, and of what comes next in the stream as much as has arrived, up to a pad's length. */
  function Delivery(m: Packet, next: seq<Byte>, n: nat): Incoming
    requires n <= |next|
  {
    Incoming(m.TypeWord(), Body(m) + next[..Min(|m.pad|, n)])
  }

  /** What a reader delivers that has had bytes of the stream of ms and is still fed chunks. */
  function Delivered(ms: seq<Packet>, had: nat, chunks: seq<seq<Byte>>): seq<Incoming>
    requires had + |Joined(chunks)| <= StreamLength(ms)
    decreases |ms| + |chunks|
  {
    if ms == [] then []
    else if had >= FrameLength(ms[0]) then
      var behind := had - FrameLength(ms[0]);
      [Delivery(ms[0], Stream(ms[1..]), behind)] + Delivered(ms[1..], behind, chunks)
    else if chunks == [] then []
    else Delivered(ms, had + |chunks[0]|, chunks[1..])
  }

  /** The beginning of a frame that is not complete yet. */
  function LeftOver(ms: seq<Packet>, all: seq<Byte>): seq<Byte>
    decreases |ms|
  {
    if ms == [] || |all| < FrameLength(ms[0]) then all else LeftOver(ms[1..], all[FrameLength(ms[0])..])
  }

  /** Feeding the reader one chunk after another. */
  function Feed(buffer: seq<Byte>, chunks: seq<seq<Byte>>, builders: set<nat>): Drained
    decreases |chunks|, 0
  {
    if chunks == [] then Drained([], buffer, false)
    else DrainAndFeed(Drain(buffer + chunks[0], builders), chunks[1..], builders)
  }

  function DrainAndFeed(d: Drained, chunks: seq<seq<Byte>>, builders: set<nat>): Drained
    decreases |chunks|, 1
  {
    if d.bad then d else After(d.messages, Feed(d.rest, chunks, builders))
  }

  function Joined(chunks: seq<seq<Byte>>): seq<Byte> {
    if chunks == [] then [] else chunks[0] + Joined(chunks[1..])
  }

  lemma PrefixOfConcat(f: seq<Byte>, next: seq<Byte>, buffer: seq<Byte>)
    requires buffer <= f + next
    ensures |buffer| < |f| ==> buffer <= f && buffer != f
    ensures |buffer| >= |f| ==> buffer == f + buffer[|f|..] && buffer[|f|..] <= next
  {
    if |buffer| >= |f| {
      assert buffer == (f + next)[..|buffer|];
    }
  }

  lemma SplitAt(f: seq<Byte>, buffer: seq<Byte>, more: seq<Byte>, next: seq<Byte>)
    requires buffer + more <= f + next && |f| <= |buffer|
    ensures buffer == f + buffer[|f|..]
    ensures (buffer + more)[|f|..] == buffer[|f|..] + more <= next
  {
    PrefixOfConcat(f, next, buffer);
    PrefixOfConcat(f, next, buffer + more);
  }

  lemma AfterFirst(m: Incoming, d: Drained, chunks: seq<seq<Byte>>, builders: set<nat>)
    ensures DrainAndFeed(After([m], d), chunks, builders) == After([m], DrainAndFeed(d, chunks, builders))
  {
    if !d.bad {
      var r := Feed(d.rest, chunks, builders);
      assert [m] + d.messages + r.messages == [m] + (d.messages + r.messages);
    }
  }

  /** What comes of a reader that holds buffer and is still fed chunks. */
  function Reading(buffer: seq<Byte>, chunks: seq<seq<Byte>>, builders: set<nat>): Drained {
    DrainAndFeed(Drain(buffer, builders), chunks, builders)
  }

  /** d is what has to come of a reader that has had so many bytes of ms and is still fed
      chunks, with these bytes left over. */
  ghost predicate Exact(d: Drained, ms: seq<Packet>, had: nat, chunks: seq<seq<Byte>>, left: seq<Byte>)
    requires had + |Joined(chunks)| <= StreamLength(ms)
  {
    d.messages == Delivered(ms, had, chunks) && d.rest == left && !d.bad
  }

  lemma DeliveredLater(ms: seq<Packet>, had: nat, later: nat, chunks: seq<seq<Byte>>)
    requires had + |Joined(chunks)| <= StreamLength(ms) && (ms == [] || had < FrameLength(ms[0])) && chunks != []
    requires had + |chunks[0]| == later && later + |Joined(chunks[1..])| <= StreamLength(ms)
    ensures Delivered(ms, had, chunks) == Delivered(ms, later, chunks[1..])
  {
  }

  lemma DeliveredFirst(ms: seq<Packet>, had: nat, chunks: seq<seq<Byte>>)
    requires had + |Joined(chunks)| <= StreamLength(ms) && ms != [] && had >= FrameLength(ms[0])
    requires had - FrameLength(ms[0]) + |Joined(chunks)| <= StreamLength(ms[1..])
    ensures Delivered(ms, had, chunks) ==
      [Delivery(ms[0], Stream(ms[1..]), had - FrameLength(ms[0]))]
      + Delivered(ms[1..], had - FrameLength(ms[0]), chunks)
  {
  }

  lemma DrainWaits(buffer: seq<Byte>, builders: set<nat>, chunks: seq<seq<Byte>>)
    requires ReadOne(buffer, builders) == Wait
    ensures Reading(buffer, chunks, builders) == Feed(buffer, chunks, builders)
  {
    NothingTaken(Feed(buffer, chunks, builders));
  }

  lemma FeedOnce(buffer: seq<Byte>, builders: set<nat>, chunks: seq<seq<Byte>>)
    requires ReadOne(buffer, builders) == Wait && chunks != []
    ensures Reading(buffer, chunks, builders) == Reading(buffer + chunks[0], chunks[1..], builders)
  {
    DrainWaits(buffer, builders, chunks);
  }

  lemma ArrivingTogether(buffer: seq<Byte>, chunks: seq<seq<Byte>>)
    requires chunks != []
    ensures buffer + Joined(chunks) == buffer + chunks[0] + Joined(chunks[1..])
  {
    Split.Associate(buffer, chunks[0], Joined(chunks[1..]));
  }

  lemma {:induction false} DrainTakes(
      buffer: seq<Byte>, builders: set<nat>, m: Incoming, behind: seq<Byte>, chunks: seq<seq<Byte>>)
    requires ReadOne(buffer, builders) == Got(m, behind)
    ensures Reading(buffer, chunks, builders) == After([m], Reading(behind, chunks, builders))
  {
    AfterFirst(m, Drain(behind, builders), chunks, builders);
  }

  lemma WaitsAtEnd(ms: seq<Packet>, all: seq<Byte>, chunks: seq<seq<Byte>>)
    requires |all| + |Joined(chunks)| <= StreamLength(ms) && chunks == [] && (ms == [] || |all| < FrameLength(ms[0]))
    ensures Exact(Drained([], all, false), ms, |all|, chunks, all)
  {
  }

  lemma SpillIsWhatComesNext(m: Packet, behind: seq<Byte>, next: seq<Byte>)
    requires behind <= next
    ensures Delivery(m, next, |behind|) == Incoming(m.TypeWord(), Body(m) + Spill(m, behind))
  {
    assert Spill(m, behind) == next[..Min(|m.pad|, |behind|)];
  }

  lemma {:induction false} FirstIsDelivered(ms: seq<Packet>, builders: set<nat>, buffer: seq<Byte>, behind: seq<Byte>)
    requires AllSendable(ms, builders) && ms != [] && buffer == Frame(ms[0]) + behind && behind <= Stream(ms[1..])
    ensures ReadOne(buffer, builders) == Got(Delivery(ms[0], Stream(ms[1..]), |behind|), behind)
  {
    WholeFrameIsTaken(ms[0], builders, behind);
    SpillIsWhatComesNext(ms[0], behind, Stream(ms[1..]));
  }

  lemma TakesTheFirst(d: Drained, ms: seq<Packet>, had: nat, chunks: seq<seq<Byte>>, left: seq<Byte>)
    requires had + |Joined(chunks)| <= StreamLength(ms) && ms != [] && FrameLength(ms[0]) <= had
    requires had - FrameLength(ms[0]) + |Joined(chunks)| <= StreamLength(ms[1..])
    requires Exact(d, ms[1..], had - FrameLength(ms[0]), chunks, left)
    ensures Exact(After([Delivery(ms[0], Stream(ms[1..]), had - FrameLength(ms[0]))], d), ms, had, chunks, left)
  {
    DeliveredFirst(ms, had, chunks);
  }

  lemma WaitsForMore(d: Drained, ms: seq<Packet>, had: nat, later: nat, chunks: seq<seq<Byte>>, left: seq<Byte>)
    requires had + |Joined(chunks)| <= StreamLength(ms) && (ms == [] || had < FrameLength(ms[0])) && chunks != []
    requires had + |chunks[0]| == later && later + |Joined(chunks[1..])| <= StreamLength(ms)
    requires Exact(d, ms, later, chunks[1..], left)
    ensures Exact(d, ms, had, chunks, left)
  {
    DeliveredLater(ms, had, later, chunks);
  }

  lemma {:induction false} PartOfStreamWaits(ms: seq<Packet>, builders: set<nat>, buffer: seq<Byte>)
    requires AllSendable(ms, builders) && buffer <= Stream(ms) && (ms == [] || |buffer| < FrameLength(ms[0]))
    ensures ReadOne(buffer, builders) == Wait
  {
    if ms != [] {
      PrefixOfConcat(Frame(ms[0]), Stream(ms[1..]), buffer);
      PartWaits(ms[0], builders, buffer);
    }
  }

  lemma FrontOfStream(s: seq<Byte>, buffer: seq<Byte>, more: seq<Byte>)
    requires buffer + more <= s
    ensures buffer <= s && |buffer| + |more| <= |s|
  {
    assert buffer == (buffer + more)[..|buffer|];
  }

  // At every moment the reader has delivered exactly the messages complete so far, with the
  // spill that had arrived when each was taken, and holds the beginning of the next one.
  lemma {:induction false} FeedIsExact(ms: seq<Packet>, builders: set<nat>, buffer: seq<Byte>, chunks: seq<seq<Byte>>)
    requires AllSendable(ms, builders) && buffer + Joined(chunks) <= Stream(ms)
    ensures Exact(Reading(buffer, chunks, builders), ms, |buffer|, chunks, LeftOver(ms, buffer + Joined(chunks)))
    decreases |ms| + |chunks|
  {
    FrontOfStream(Stream(ms), buffer, Joined(chunks));
    if ms != [] && FrameLength(ms[0]) <= |buffer| {
      FeedTakes(ms, builders, buffer, chunks);
    } else {
      PartOfStreamWaits(ms, builders, buffer);
      if chunks == [] {
        assert buffer + Joined(chunks) == buffer;
        DrainWaits(buffer, builders, chunks);
        WaitsAtEnd(ms, buffer, chunks);
      } else {
        FeedWaits(ms, builders, buffer, chunks);
      }
    }
  }

  lemma {:induction false} TakeSplits(ms: seq<Packet>, buffer: seq<Byte>, more: seq<Byte>)
    requires ms != [] && buffer + more <= Stream(ms) && FrameLength(ms[0]) <= |buffer|
    ensures var behind := buffer[FrameLength(ms[0])..];
            buffer == Frame(ms[0]) + behind && behind <= Stream(ms[1..]) && behind + more <= Stream(ms[1..])
            && LeftOver(ms, buffer + more) == LeftOver(ms[1..], behind + more)
  {
    PrefixOfConcat(Frame(ms[0]), Stream(ms[1..]), buffer) by {
      FrontOfStream(Stream(ms), buffer, more);
    }
    SplitAt(Frame(ms[0]), buffer, more, Stream(ms[1..]));
  }

  lemma {:induction false} FeedTakes(ms: seq<Packet>, builders: set<nat>, buffer: seq<Byte>, chunks: seq<seq<Byte>>)
    requires AllSendable(ms, builders) && buffer + Joined(chunks) <= Stream(ms)
    requires ms != [] && FrameLength(ms[0]) <= |buffer|
    ensures Exact(Reading(buffer, chunks, builders), ms, |buffer|, chunks, LeftOver(ms, buffer + Joined(chunks)))
    decreases |ms| + |chunks|, 0
  {
    var behind := buffer[FrameLength(ms[0])..];
    TakeSplits(ms, buffer, Joined(chunks));
    FeedIsExact(ms[1..], builders, behind, chunks);
    FirstIsTaken(ms, builders, buffer, behind, chunks);
    TakesTheFirst(Reading(behind, chunks, builders), ms, |buffer|, chunks, LeftOver(ms, buffer + Joined(chunks)));
  }

  lemma {:induction false} FirstIsTaken(
      ms: seq<Packet>, builders: set<nat>, buffer: seq<Byte>, behind: seq<Byte>, chunks: seq<seq<Byte>>)
    requires AllSendable(ms, builders) && ms != [] && buffer == Frame(ms[0]) + behind && behind <= Stream(ms[1..])
    ensures Reading(buffer, chunks, builders) ==
      After([Delivery(ms[0], Stream(ms[1..]), |behind|)], Reading(behind, chunks, builders))
  {
    FirstIsDelivered(ms, builders, buffer, behind);
    DrainTakes(buffer, builders, Delivery(ms[0], Stream(ms[1..]), |behind|), behind, chunks);
  }

  lemma {:induction false} FeedWaits(ms: seq<Packet>, builders: set<nat>, buffer: seq<Byte>, chunks: seq<seq<Byte>>)
    requires AllSendable(ms, builders) && buffer + Joined(chunks) <= Stream(ms)
    requires (ms == [] || |buffer| < FrameLength(ms[0])) && ReadOne(buffer, builders) == Wait && chunks != []
    ensures Exact(Reading(buffer, chunks, builders), ms, |buffer|, chunks, LeftOver(ms, buffer + Joined(chunks)))
    decreases |ms| + |chunks|, 0
  {
    var more := buffer + chunks[0];
    ArrivingTogether(buffer, chunks);
    FeedIsExact(ms, builders, more, chunks[1..]);
    FeedOnce(buffer, builders, chunks);
    var d, left := Reading(more, chunks[1..], builders), LeftOver(ms, buffer + Joined(chunks));
    WaitsForMore(d, ms, |buffer|, |more|, chunks, left);
  }

  // Draining any beginning of a stream takes exactly the messages that are complete in it.
  lemma {:induction false} DrainStream(ms: seq<Packet>, builders: set<nat>, buffer: seq<Byte>)
    requires AllSendable(ms, builders) && buffer <= Stream(ms)
    ensures Drain(buffer, builders) == Drained(Delivered(ms, |buffer|, []), LeftOver(ms, buffer), false)
  {
    var chunks: seq<seq<Byte>> := [];
    assert buffer + Joined(chunks) == buffer;
    FeedIsExact(ms, builders, buffer, chunks);
    var d := Drain(buffer, builders);
    assert Feed(d.rest, chunks, builders) == Drained([], d.rest, false);
    assert d.messages + [] == d.messages;
  }

  /** How many bytes have arrived at the end of the first chunk by which there are at least e. */
  function Arrived(had: nat, chunks: seq<seq<Byte>>, e: nat): nat
    decreases |chunks|
  {
    if had >= e || chunks == [] then had else Arrived(had + |chunks[0]|, chunks[1..], e)
  }

  /** Where in the stream the frame of message i ends. */
  function FrameEnd(ms: seq<Packet>, i: nat): nat
    requires i < |ms|
  {
    FrameLength(ms[0]) + if i == 0 then 0 else FrameEnd(ms[1..], i - 1)
  }

  lemma {:induction false} ArrivedShifts(had: nat, chunks: seq<seq<Byte>>, e: nat, k: nat)
    ensures Arrived(had + k, chunks, e + k) == Arrived(had, chunks, e) + k
    decreases |chunks|
  {
    if chunks == [] {
    } else {
      ArrivedShifts(had + |chunks[0]|, chunks[1..], e, k);
    }
  }

  /** How much of what follows message i had arrived when its frame was taken. */
  function Behind(ms: seq<Packet>, had: nat, chunks: seq<seq<Byte>>, i: nat): int
    requires i < |ms|
  {
    Arrived(had, chunks, FrameEnd(ms, i)) - FrameEnd(ms, i)
  }

  lemma BehindLater(ms: seq<Packet>, had: nat, chunks: seq<seq<Byte>>, i: nat)
    requires i < |ms| && chunks != [] && had < FrameLength(ms[0])
    ensures Behind(ms, had, chunks, i) == Behind(ms, had + |chunks[0]|, chunks[1..], i)
  {
  }

  lemma BehindNext(ms: seq<Packet>, had: nat, chunks: seq<seq<Byte>>, i: nat)
    requires 0 < i < |ms| && had >= FrameLength(ms[0])
    ensures Behind(ms, had, chunks, i) == Behind(ms[1..], had - FrameLength(ms[0]), chunks, i - 1)
  {
    var f := FrameLength(ms[0]);
    ArrivedShifts(had - f, chunks, FrameEnd(ms[1..], i - 1), f);
  }

  /** Message i of a stream as it is delivered from these chunks. */
  ghost predicate IsDelivery(ms: seq<Packet>, had: nat, chunks: seq<seq<Byte>>, i: nat, got: Incoming)
    requires i < |ms|
  {
    var n := Behind(ms, had, chunks, i);
    0 <= n <= StreamLength(ms[i + 1..]) && got == Delivery(ms[i], Stream(ms[i + 1..]), n)
  }

  lemma {:induction false} DeliveredCount(ms: seq<Packet>, had: nat, chunks: seq<seq<Byte>>)
    requires had + |Joined(chunks)| == StreamLength(ms)
    ensures |Delivered(ms, had, chunks)| == |ms|
    decreases |ms| + |chunks|
  {
    if ms == [] {
    } else {
      if had >= FrameLength(ms[0]) {
        DeliveredCount(ms[1..], had - FrameLength(ms[0]), chunks);
        DeliveredFirst(ms, had, chunks);
      } else {
        DeliveredCount(ms, had + |chunks[0]|, chunks[1..]);
        DeliveredLater(ms, had, had + |chunks[0]|, chunks);
      }
    }
  }

  lemma FirstIsDelivery(ms: seq<Packet>, had: nat, chunks: seq<seq<Byte>>)
    requires ms != [] && had >= FrameLength(ms[0]) && had - FrameLength(ms[0]) <= StreamLength(ms[1..])
    ensures IsDelivery(ms, had, chunks, 0, Delivery(ms[0], Stream(ms[1..]), had - FrameLength(ms[0])))
  {
    assert Behind(ms, had, chunks, 0) == had - FrameLength(ms[0]);
  }

  lemma {:induction false} NextIsDelivery(ms: seq<Packet>, had: nat, chunks: seq<seq<Byte>>, i: nat, got: Incoming)
    requires 0 < i < |ms| && had >= FrameLength(ms[0])
    requires IsDelivery(ms[1..], had - FrameLength(ms[0]), chunks, i - 1, got)
    ensures IsDelivery(ms, had, chunks, i, got)
  {
    BehindNext(ms, had, chunks, i);
    assert ms[1..][i..] == ms[i + 1..] && ms[1..][i - 1] == ms[i];
  }

  lemma LaterIsDelivery(ms: seq<Packet>, had: nat, later: nat, chunks: seq<seq<Byte>>, i: nat, got: Incoming)
    requires i < |ms| && chunks != [] && had < FrameLength(ms[0]) && later == had + |chunks[0]|
    requires IsDelivery(ms, later, chunks[1..], i, got)
    ensures IsDelivery(ms, had, chunks, i, got)
  {
    BehindLater(ms, had, chunks, i);
  }

  lemma {:induction false} DeliveredAt(ms: seq<Packet>, had: nat, chunks: seq<seq<Byte>>, i: nat)
    requires had + |Joined(chunks)| == StreamLength(ms) && i < |ms| == |Delivered(ms, had, chunks)|
    ensures IsDelivery(ms, had, chunks, i, Delivered(ms, had, chunks)[i])
    decreases |ms| + |chunks|
  {
    if had < FrameLength(ms[0]) {
      LaterDelivered(ms, had, chunks, i);
    } else if i == 0 {
      DeliveredFirst(ms, had, chunks);
      FirstIsDelivery(ms, had, chunks);
    } else {
      NextDelivered(ms, had, chunks, i);
    }
  }

  lemma {:induction false} LaterDelivered(ms: seq<Packet>, had: nat, chunks: seq<seq<Byte>>, i: nat)
    requires had + |Joined(chunks)| == StreamLength(ms) && i < |ms| == |Delivered(ms, had, chunks)|
    requires had < FrameLength(ms[0])
    ensures IsDelivery(ms, had, chunks, i, Delivered(ms, had, chunks)[i])
    decreases |ms| + |chunks|, 0
  {
    assert chunks != [];
    var later := had + |chunks[0]|;
    DeliveredLater(ms, had, later, chunks);
    DeliveredAt(ms, later, chunks[1..], i);
    var got := Delivered(ms, later, chunks[1..])[i];
    LaterIsDelivery(ms, had, later, chunks, i, got);
  }

  lemma {:induction false} NextDelivered(ms: seq<Packet>, had: nat, chunks: seq<seq<Byte>>, i: nat)
    requires had + |Joined(chunks)| == StreamLength(ms) && 0 < i < |ms| == |Delivered(ms, had, chunks)|
    requires had >= FrameLength(ms[0])
    ensures IsDelivery(ms, had, chunks, i, Delivered(ms, had, chunks)[i])
    decreases |ms| + |chunks|, 0
  {
    var behind := had - FrameLength(ms[0]);
    DeliveredFirst(ms, had, chunks);
    DeliveredAt(ms[1..], behind, chunks, i - 1);
    NextIsDelivery(ms, had, chunks, i, Delivered(ms[1..], behind, chunks)[i - 1]);
  }

  lemma {:induction false} NothingLeft(ms: seq<Packet>)
    ensures LeftOver(ms, Stream(ms)) == []
  {
    if ms == [] {
    } else {
      assert Stream(ms)[FrameLength(ms[0])..] == Stream(ms[1..]);
      NothingLeft(ms[1..]);
    }
  }

  // Any list of messages, sent one after another and arriving in any pieces, is delivered as
  // the same messages in the same order, and nothing is left. Each payload is the body sent and
  // a spill: of what comes next in the stream as much as had arrived when the frame was taken,
  // up to a pad's length.
  lemma {:induction false} StreamIsDelivered(ms: seq<Packet>, builders: set<nat>, chunks: seq<seq<Byte>>)
    requires AllSendable(ms, builders) && Joined(chunks) == Stream(ms)
    ensures var d := Feed([], chunks, builders);
      !d.bad && d.rest == [] && |d.messages| == |ms|
      && forall i :: 0 <= i < |ms| ==> IsDelivery(ms, 0, chunks, i, d.messages[i])
  {
    var buffer: seq<Byte> := [];
    assert buffer + Joined(chunks) == Stream(ms);
    FeedIsExact(ms, builders, buffer, chunks);
    DrainWaits(buffer, builders, chunks);
    NothingLeft(ms);
    DeliveredCount(ms, 0, chunks);
    forall i | 0 <= i < |ms| ensures IsDelivery(ms, 0, chunks, i, Delivered(ms, 0, chunks)[i]) {
      DeliveredAt(ms, 0, chunks, i);
    }
  }

  // A payload is exactly what was sent if and only if the frame ends where a chunk ends, so
  // that nothing had arrived behind it.
  lemma {:induction false} PayloadIsExact(ms: seq<Packet>, builders: set<nat>, chunks: seq<seq<Byte>>, i: nat)
    requires AllSendable(ms, builders) && Joined(chunks) == Stream(ms) && i < |ms|
    ensures var d := Feed([], chunks, builders);
      |d.messages| == |ms| && (d.messages[i].payload == Body(ms[i]) <==> Behind(ms, 0, chunks, i) == 0)
  {
    StreamIsDelivered(ms, builders, chunks);
    var n, next := Behind(ms, 0, chunks, i), Stream(ms[i + 1..]);
    var d := Feed([], chunks, builders);
    assert IsDelivery(ms, 0, chunks, i, d.messages[i]);
    assert |d.messages[i].payload| == |Body(ms[i])| + Min(|ms[i].pad|, n);
    if n == 0 {
      assert Body(ms[i]) + next[..0] == Body(ms[i]);
    }
  }

  function Frames(ms: seq<Packet>): seq<seq<Byte>> {
    if ms == [] then [] else [Frame(ms[0])] + Frames(ms[1..])
  }

  lemma FramesParts(ms: seq<Packet>)
    requires ms != []
    ensures var chunks := Frames(ms);
            chunks != [] && |chunks[0]| == FrameLength(ms[0]) && chunks[1..] == Frames(ms[1..])
  {
  }

  lemma {:induction false} FramesJoin(ms: seq<Packet>)
    ensures Joined(Frames(ms)) == Stream(ms)
  {
    if ms == [] {
    } else {
      FramesJoin(ms[1..]);
      assert Frames(ms)[1..] == Frames(ms[1..]);
    }
  }

  lemma FirstFrameArrived(ms: seq<Packet>, i: nat)
    requires i < |ms|
    ensures Behind(ms, 0, Frames(ms), i) == Behind(ms, FrameLength(ms[0]), Frames(ms[1..]), i)
  {
    FramesParts(ms);
    BehindLater(ms, 0, Frames(ms), i);
  }

  lemma NothingBehindFirst(ms: seq<Packet>, chunks: seq<seq<Byte>>)
    requires ms != []
    ensures Behind(ms, FrameLength(ms[0]), chunks, 0) == 0
  {
  }

  lemma {:induction false} NothingBehind(ms: seq<Packet>, i: nat)
    requires i < |ms|
    ensures Behind(ms, 0, Frames(ms), i) == 0
  {
    var rest := Frames(ms[1..]);
    FirstFrameArrived(ms, i);
    if i == 0 {
      NothingBehindFirst(ms, rest);
    } else {
      BehindNext(ms, FrameLength(ms[0]), rest, i);
      NothingBehind(ms[1..], i - 1);
    }
  }

  // When every frame arrives as a chunk of its own, every payload is exactly what was sent.
  lemma {:induction false} FrameByFrameIsExact(ms: seq<Packet>, builders: set<nat>, i: nat)
    requires AllSendable(ms, builders) && i < |ms|
    ensures var d := Feed([], Frames(ms), builders);
      |d.messages| == |ms| && d.messages[i].payload == Body(ms[i])
  {
    FramesJoin(ms);
    NothingBehind(ms, i);
    PayloadIsExact(ms, builders, Frames(ms), i);
  }
}
