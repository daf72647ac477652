/** The question of a DNS request, as section 4.1.2 of RFC 1035 lays it out: the buffer it is
    written into is sized before it is written, and a reader skips it without decoding it. */
module DnsQuestion {
  import opened Split
  import opened Wire

  const DOT: Byte := 46
  const HEADER := 12
  const QTYPE_A := 1
  const QCLASS_IN := 1
  const MAX_LABEL := 64

  // ---- What is written ----

  function Labels(host: seq<Byte>): seq<seq<Byte>> {
    Pieces(host, DOT)
  }

  /** The labels before the first empty one. */
  function Leading(labels: seq<seq<Byte>>): seq<seq<Byte>> {
    if labels == [] || labels[0] == [] then [] else [labels[0]] + Leading(labels[1..])
  }

  /** The bytes that the non-empty labels take, each behind its length. */
  function Size(labels: seq<seq<Byte>>): nat {
    if labels == [] then 0 else (if labels[0] == [] then 0 else |labels[0]| + 1) + Size(labels[1..])
  }

  predicate Short(labels: seq<seq<Byte>>) {
    forall k :: 0 <= k < |labels| ==> |labels[k]| < MAX_LABEL
  }

  function Encoded(labels: seq<seq<Byte>>): seq<Byte>
    requires Short(labels)
  {
    if labels == [] then [] else [|labels[0]|] + labels[0] + Encoded(labels[1..])
  }

  const TRAILER: seq<Byte> := [0, QTYPE_A / 256, QTYPE_A % 256, 0, QCLASS_IN]

  datatype Result = Packet(bytes: seq<Byte>) | BadHostname | TooLong

  function Zeros(n: nat): seq<Byte> {
    seq(n, _ => 0)
  }

  /** The packet for a host name: the leading labels, and zeros as far as the size computed from
      all the labels reaches. */
  function PacketFor(host: seq<Byte>, header: seq<Byte>): Result {
    var leading := Leading(Labels(host));
    LabelsFit(Labels(host));
    if host != [] && host[0] == DOT then BadHostname
    else if !Short(leading) then TooLong
    else Packet(header + Encoded(leading) + TRAILER + Zeros(Size(Labels(host)) - Size(leading)))
  }

  // ---- Sizing and writing, step by step ----

  lemma SizeCons(first: seq<Byte>, rest: seq<seq<Byte>>)
    ensures Size([first] + rest) == (if first == [] then 0 else |first| + 1) + Size(rest)
  {
    HeadAndTail(first, rest);
  }

  lemma FirstLabelSize(s: seq<Byte>)
    ensures var n := End(s, DOT);
            Size(Labels(s)) == (if n == 0 then 0 else n + 1) + (if n < |s| then Size(Labels(s[n + 1..])) else 0)
  {
    var n := End(s, DOT);
    SizeCons(s[..n], if n < |s| then Labels(s[n + 1..]) else []);
  }

  /** What the labels from p on take; nothing once p is past the end. */
  ghost function SizeFrom(s: seq<Byte>, p: nat): nat
    decreases |s| + 1 - p
  {
    if p > |s| then 0
    else
      var n := End(s[p..], DOT);
      (if n == 0 then 0 else n + 1) + SizeFrom(s, p + n + 1)
  }

  lemma {:induction false} SizeFromIs(s: seq<Byte>, p: nat)
    requires p <= |s|
    ensures SizeFrom(s, p) == Size(Labels(s[p..]))
    decreases |s| - p
  {
    var rest, n := s[p..], End(s[p..], DOT);
    FirstLabelSize(rest);
    if n < |rest| {
      assert rest[n + 1..] == s[p + n + 1..];
      SizeFromIs(s, p + n + 1);
    } else {
      assert p + n + 1 > |s|;
    }
  }

  lemma LabelEnds(s: seq<Byte>, q: nat, p: nat)
    requires q <= p <= |s| && (p < |s| ==> s[p] == DOT)
    requires forall i :: q <= i < p ==> s[i] != DOT
    ensures End(s[q..], DOT) == p - q
  {
    assert s[q..][..p - q] == s[q..p];
    EndIs(s[q..], DOT, p - q);
  }

  /** Counts the label bytes and the zero behind them without regard to where writing stops. */
  method ComputeLabelLength(s: seq<Byte>) returns (sz: nat)
    ensures sz == Size(Labels(s)) + 1
  {
    sz := 0;
    var p := 0;
    while p < |s|
      invariant p <= |s| + 1 && sz + SizeFrom(s, p) == SizeFrom(s, 0)
    {
      p := SkipDots(s, p);
      if p < |s| {
        sz := sz + 1;
      }
      p, sz := SkipLabel(s, p, sz);
    }
    SizeFromIs(s, 0);
    assert s[0..] == s;
    sz := sz + 1;
  }

  /** The first inner loop. */
  method SkipDots(s: seq<Byte>, p0: nat) returns (p: nat)
    requires p0 <= |s|
    ensures p0 <= p <= |s| && SizeFrom(s, p) == SizeFrom(s, p0)
    ensures End(s[p..], DOT) == 0 <==> p == |s|
  {
    p := p0;
    while p < |s| && s[p] == DOT
      invariant p0 <= p <= |s| && SizeFrom(s, p) == SizeFrom(s, p0)
    {
      assert End(s[p..], DOT) == 0;
      p := p + 1;
    }
  }

  /** The second inner loop, which also steps over the dot behind the label. */
  method SkipLabel(s: seq<Byte>, p0: nat, sz0: nat) returns (p: nat, sz: nat)
    requires p0 <= |s|
    ensures p == p0 + End(s[p0..], DOT) + 1 && sz == sz0 + End(s[p0..], DOT)
  {
    p, sz := p0, sz0;
    while p < |s| && s[p] != DOT
      invariant p0 <= p <= |s| && sz == sz0 + p - p0
      invariant forall i :: p0 <= i < p ==> s[i] != DOT
    {
      sz := sz + 1;
      p := p + 1;
    }
    LabelEnds(s, p0, p);
    p := p + 1;
  }

  lemma {:induction false} SizeOfAppend(a: seq<seq<Byte>>, b: seq<seq<Byte>>)
    ensures Size(a + b) == Size(a) + Size(b)
  {
    if a == [] {
      assert a + b == b;
    } else {
      assert (a + b)[1..] == a[1..] + b;
      SizeOfAppend(a[1..], b);
    }
  }

  lemma {:induction false} EncodedAppend(a: seq<seq<Byte>>, b: seq<seq<Byte>>)
    requires Short(a) && Short(b)
    ensures Short(a + b) && Encoded(a + b) == Encoded(a) + Encoded(b)
  {
    if a == [] {
      assert a + b == b;
    } else {
      assert (a + b)[1..] == a[1..] + b;
      EncodedAppend(a[1..], b);
      Associate([|a[0]|] + a[0], Encoded(a[1..]), Encoded(b));
    }
  }

  lemma {:induction false} EncodedSize(labels: seq<seq<Byte>>)
    requires Short(labels) && [] !in labels
    ensures |Encoded(labels)| == Size(labels)
  {
    if labels == [] {
    } else {
      EncodedSize(labels[1..]);
    }
  }

  lemma {:induction false} LeadingIsPrefix(labels: seq<seq<Byte>>)
    ensures Leading(labels) <= labels && [] !in Leading(labels)
    ensures Leading(labels) == labels || labels[|Leading(labels)|] == []
  {
    if labels != [] && labels[0] != [] {
      LeadingIsPrefix(labels[1..]);
    }
  }

  // What is written fits what was counted, and fills it exactly when no label follows a gap.
  lemma LabelsFit(labels: seq<seq<Byte>>)
    ensures Size(Leading(labels)) <= Size(labels)
    ensures Size(Leading(labels)) == Size(labels) <==>
      forall j :: |Leading(labels)| <= j < |labels| ==> labels[j] == []
  {
    var n := |Leading(labels)|;
    LeadingIsPrefix(labels);
    assert labels == Leading(labels) + labels[n..];
    SizeOfAppend(Leading(labels), labels[n..]);
    SizeZero(labels[n..]);
    assert (forall j :: 0 <= j < |labels[n..]| ==> labels[n..][j] == []) <==>
           (forall j :: n <= j < |labels| ==> labels[j] == []) by {
      assert forall j :: n <= j < |labels| ==> labels[j] == labels[n..][j - n];
    }
  }

  lemma {:induction false} SizeZero(labels: seq<seq<Byte>>)
    ensures Size(labels) == 0 <==> forall j :: 0 <= j < |labels| ==> labels[j] == []
  {
    if labels == [] {
    } else {
      SizeZero(labels[1..]);
      assert forall j :: 0 < j < |labels| ==> labels[j] == labels[1..][j - 1];
    }
  }

  // ---- Writing the packet ----

  /** The place of the next dot from start on, or the end. */
  function Find(host: seq<Byte>, start: nat): (p: nat)
    ensures start <= |host| ==> start <= p <= |host|
  {
    if start > |host| then start else start + End(host[start..], DOT)
  }

  /** The labels that are written of a text that starts with one. */
  ghost function ToWrite(s: seq<Byte>): seq<seq<Byte>> {
    var n := End(s, DOT);
    if n == 0 then [] else if n < |s| then [s[..n]] + ToWrite(s[n + 1..]) else [s]
  }

  lemma {:induction false} ToWriteIs(s: seq<Byte>)
    ensures ToWrite(s) == Leading(Labels(s))
  {
    var n := End(s, DOT);
    if n < |s| {
      LeadingCons(s[..n], Labels(s[n + 1..]));
      ToWriteIs(s[n + 1..]);
    } else {
      assert s[..n] == s && [s] + [] == [s];
      LeadingCons(s, []);
    }
  }

  lemma LeadingCons(first: seq<Byte>, rest: seq<seq<Byte>>)
    ensures Leading([first] + rest) == if first == [] then [] else [first] + Leading(rest)
  {
    HeadAndTail(first, rest);
  }

  /** What is left to write at start, where a label starts. */
  ghost function Rest(host: seq<Byte>, start: nat): seq<seq<Byte>>
    requires start <= |host|
  {
    ToWrite(host[start..])
  }

  /** What is left to write behind the label at start. */
  ghost function Behind(host: seq<Byte>, start: nat): seq<seq<Byte>>
    requires start <= |host|
  {
    var p := Find(host, start);
    if p + 1 < |host| then Rest(host, p + 1) else []
  }

  lemma ToWriteStep(host: seq<Byte>, start: nat)
    requires start <= |host|
    ensures Rest(host, start) ==
      if Find(host, start) == start then [] else [host[start..Find(host, start)]] + Behind(host, start)
  {
    var s, p := host[start..], Find(host, start);
    assert s[..p - start] == host[start..p];
    if p < |host| {
      assert s[p - start + 1..] == host[p + 1..];
      if p + 1 == |host| {
        assert ToWrite(host[p + 1..]) == [];
      }
    } else {
      assert s == host[start..p];
    }
  }

  /** Writes one label behind its length. */
  method WriteLabel(packet: array<Byte>, at: nat, name: seq<Byte>)
    requires |name| < MAX_LABEL && at + 1 + |name| <= packet.Length
    modifies packet
    ensures packet[..at + 1 + |name|] == old(packet[..at]) + ([|name|] + name)
    ensures packet[at + 1 + |name|..] == old(packet[at + 1 + |name|..])
  {
    packet[at] := |name|;
    forall i | 0 <= i < |name| {
      packet[at + 1 + i] := name[i];
    }
    assert packet[..at + 1 + |name|] == packet[..at] + [packet[at]] + packet[at + 1..at + 1 + |name|];
  }

  lemma OneMoreLabel(done: seq<seq<Byte>>, name: seq<Byte>, rest: seq<seq<Byte>>)
    requires Short(done) && [] !in done && 0 < |name| < MAX_LABEL
    ensures Short(done + [name]) && [] !in done + [name]
    ensures Encoded(done + [name]) == Encoded(done) + ([|name|] + name)
    ensures |Encoded(done + [name])| <= Size(done + [name] + rest)
  {
    EncodedAppend(done, [name]);
    assert Encoded([name]) == [|name|] + name;
    EncodedSize(done + [name]);
    SizeOfAppend(done + [name], rest);
  }

  lemma ZerosFrom(n: nat, k: nat)
    requires k <= n
    ensures Zeros(n)[k..] == Zeros(n - k)
  {
  }

  /** The buffer starts with text, and zeros are behind it. */
  ghost predicate Holds(packet: array<Byte>, text: seq<Byte>)
    reads packet
  {
    |text| <= packet.Length && packet[..] == text + Zeros(packet.Length - |text|)
  }

  method PutLabel(packet: array<Byte>, cptr: nat, name: seq<Byte>, ghost text: seq<Byte>, ghost longer: seq<Byte>)
    requires Holds(packet, text) && cptr == |text| && |name| < MAX_LABEL
    requires longer == text + ([|name|] + name) && |longer| <= packet.Length
    modifies packet
    ensures Holds(packet, longer)
  {
    assert packet[..cptr] == text && packet[cptr..] == Zeros(packet.Length - cptr);
    ZerosFrom(packet.Length - cptr, |name| + 1);
    assert packet[cptr + 1 + |name|..] == packet[cptr..][|name| + 1..];
    WriteLabel(packet, cptr, name);
    assert packet[..] == packet[..cptr + 1 + |name|] + packet[cptr + 1 + |name|..];
  }

  /** The labels written so far, and what their bytes are behind the header. */
  ghost predicate Says(text: seq<Byte>, header: seq<Byte>, done: seq<seq<Byte>>) {
    Short(done) && [] !in done && text == header + Encoded(done)
  }

  lemma SaysNothing(header: seq<Byte>)
    ensures Says(header, header, [])
  {
    assert header + [] == header;
  }

  lemma SaysMore(text: seq<Byte>, header: seq<Byte>, done: seq<seq<Byte>>, name: seq<Byte>, rest: seq<seq<Byte>>)
    returns (longer: seq<Byte>, more: seq<seq<Byte>>)
    requires Says(text, header, done) && 0 < |name| < MAX_LABEL
    ensures longer == text + ([|name|] + name) && more == done + [name]
    ensures Says(longer, header, more) && |longer| == |text| + 1 + |name|
    ensures |longer| <= |header| + Size(more + rest)
  {
    OneMoreLabel(done, name, rest);
    Associate(header, Encoded(done), [|name|] + name);
    longer, more := text + ([|name|] + name), done + [name];
  }

  /** Where the label loop stands at start: what is done and what is left make up the whole. */
  ghost predicate Halfway(host: seq<Byte>, start: nat, done: seq<seq<Byte>>, leading: seq<seq<Byte>>) {
    leading == if start < |host| then done + Rest(host, start) else done
  }

  // The label loop stops at an empty label and gives up at a long one.
  lemma Stops(host: seq<Byte>, start: nat, done: seq<seq<Byte>>, leading: seq<seq<Byte>>)
    requires Halfway(host, start, done, leading)
    ensures Find(host, start) == start ==> leading == done
    ensures Find(host, start) >= start + MAX_LABEL ==> !Short(leading)
  {
    if start < |host| {
      ToWriteStep(host, start);
      var p := Find(host, start);
      if p == start {
        NothingLeft(done);
      } else {
        assert leading[|done|] == host[start..p];
      }
    }
  }

  // Any other turn writes one label, for which there is room.
  lemma GoesOn(host: seq<Byte>, start: nat, text: seq<Byte>, header: seq<Byte>,
               done: seq<seq<Byte>>, leading: seq<seq<Byte>>) returns (longer: seq<Byte>, more: seq<seq<Byte>>)
    requires Halfway(host, start, done, leading) && Says(text, header, done)
    requires start < |host| && start < Find(host, start) < start + MAX_LABEL
    ensures Halfway(host, Find(host, start) + 1, more, leading) && Says(longer, header, more)
    ensures var name := host[start..Find(host, start)]; longer == text + ([|name|] + name)
    ensures |longer| <= |header| + Size(leading)
  {
    var p := Find(host, start);
    ToWriteStep(host, start);
    Associate(done, [host[start..p]], Behind(host, start));
    longer, more := SaysMore(text, header, done, host[start..p], Behind(host, start));
    NothingLeft(more);
  }

  lemma NothingLeft(done: seq<seq<Byte>>)
    ensures done + [] == done
  {
  }

  /** One turn of the label loop that writes a label; gives the places after it. */
  method WriteNext(host: seq<Byte>, start: nat, packet: array<Byte>, cptr: nat, ghost text: seq<Byte>,
                   ghost header: seq<Byte>, ghost done: seq<seq<Byte>>, ghost leading: seq<seq<Byte>>)
    returns (ghost longer: seq<Byte>, ghost more: seq<seq<Byte>>, after: nat, next: nat)
    requires Holds(packet, text) && cptr == |text|
    requires Halfway(host, start, done, leading) && Says(text, header, done)
    requires start < |host| && start < Find(host, start) < start + MAX_LABEL
    requires |header| + Size(leading) <= packet.Length
    modifies packet
    ensures Holds(packet, longer) && after == |longer|
    ensures Says(longer, header, more) && Halfway(host, next, more, leading) && next > start
  {
    var p := Find(host, start);
    longer, more := GoesOn(host, start, text, header, done, leading);
    PutLabel(packet, cptr, host[start..p], text, longer);
    after := cptr + 1 + (p - start);
    next := p + 1;
  }

  /** The label loop. The buffer has room for as many bytes as were counted. */
  method WriteLabels(host: seq<Byte>, packet: array<Byte>, ghost header: seq<Byte>) returns (ok: bool, cptr: nat)
    requires |header| == HEADER && Holds(packet, header)
    requires packet.Length >= HEADER + Size(ToWrite(host))
    modifies packet
    ensures ok == Short(ToWrite(host))
    ensures ok ==> Holds(packet, header + Encoded(ToWrite(host))) && cptr == |header + Encoded(ToWrite(host))|
  {
    cptr := HEADER;
    var start: nat := 0;
    ghost var leading: seq<seq<Byte>>, done: seq<seq<Byte>> := ToWrite(host), [];
    ghost var text: seq<Byte> := header;
    SaysNothing(header);
    assert host[0..] == host;
    assert host == [] ==> leading == [];
    var more := true;
    while more
      invariant Holds(packet, text) && cptr == |text|
      invariant Says(text, header, done)
      invariant Halfway(host, start, done, leading)
      invariant !more ==> leading == done
      decreases more, |host| - start
    {
      Stops(host, start, done, leading);
      var len := Find(host, start) - start;
      if len >= MAX_LABEL {
        return false, cptr;
      }
      if len == 0 {
        break;
      }
      text, done, cptr, start := WriteNext(host, start, packet, cptr, text, header, done, leading);
      more := start < |host|;
    }
    ok := true;
  }

  /** The packet, in a buffer sized before it is written. */
  method Start(host: seq<Byte>, header: seq<Byte>) returns (r: Result)
    requires |header| == 12
    ensures r == PacketFor(host, header)
  {
    var size := ComputeLabelLength(host);
    LabelsFit(Labels(host));
    ToWriteIs(host);
    var packet := new Byte[HEADER + size + 4](_ => 0);
    forall i | 0 <= i < HEADER {
      packet[i] := header[i];
    }
    assert packet[..HEADER] == header;
    if |host| > 0 && host[0] == DOT {
      return BadHostname;
    }
    assert Holds(packet, header);
    var ok, cptr := WriteLabels(host, packet, header);
    if !ok {
      return TooLong;
    }
    LeadingIsPrefix(Labels(host));
    EncodedSize(ToWrite(host));
    WriteTrailer(packet, cptr, header + Encoded(ToWrite(host)));
    r := Packet(packet[..]);
  }

  /** The zero that ends the name, the type and the class. */
  method WriteTrailer(packet: array<Byte>, cptr: nat, ghost text: seq<Byte>)
    requires Holds(packet, text) && cptr == |text| && cptr + 5 <= packet.Length
    modifies packet
    ensures packet[..] == text + TRAILER + Zeros(packet.Length - cptr - 5)
  {
    assert packet[..cptr] == text && packet[cptr..] == Zeros(packet.Length - cptr);
    ZerosFrom(packet.Length - cptr, 5);
    assert packet[cptr + 5..] == packet[cptr..][5..];
    packet[cptr], packet[cptr + 1], packet[cptr + 2] := 0, QTYPE_A / 256, QTYPE_A % 256;
    packet[cptr + 3], packet[cptr + 4] := 0, QCLASS_IN;
    assert packet[cptr..cptr + 5] == TRAILER;
    assert packet[..] == packet[..cptr] + packet[cptr..cptr + 5] + packet[cptr + 5..];
  }

  // ---- Skipping a question ----

  /** Where skipping ends: behind the class field, past the end of the packet, outside the
      packet's memory, or nowhere within the given number of labels. */
  datatype Skip = Stopped(at: nat) | ShortPacket | Outside | Endless

  /** A length byte of 192 and more is taken for a pointer and ends the name, and one from 128 to
      191 is negative for the program and leads back. Behind the packet there is a zero. */
  function Skipped(d: seq<Byte>, c: int, steps: nat): Skip
    decreases steps
  {
    if c < 0 || c > |d| then Outside
    else
      var b := if c == |d| then 0 else d[c];
      if b == 0 || b >= 192 then Stopped(c + 5)
      else if steps == 0 then Endless
      else if c + Signed(b) + 1 > |d| then ShortPacket
      else Skipped(d, c + Signed(b) + 1, steps - 1)
  }

  method EatQuery(d: seq<Byte>, start: nat, ghost steps: nat) returns (at: int)
    requires Skipped(d, start, steps).Stopped? || Skipped(d, start, steps).ShortPacket?
    ensures if Skipped(d, start, steps).Stopped? then at == Skipped(d, start, steps).at else at == -1
  {
    var c: int := start;
    ghost var left := steps;
    var b := if c == |d| then 0 else d[c];
    while b != 0 && b < 192
      invariant 0 <= c <= |d| && b == (if c == |d| then 0 else d[c])
      invariant Skipped(d, c, left) == Skipped(d, start, steps)
      decreases left
    {
      c := c + Signed(b) + 1;
      if c > |d| {
        return -1;
      }
      left := left - 1;
      b := if c == |d| then 0 else d[c];
    }
    at := c + 5;
  }

  // Skipping walks over the labels to the zero behind them, whatever comes before and after.
  lemma {:induction false} SkipsLabels(front: seq<Byte>, labels: seq<seq<Byte>>, behind: seq<Byte>, steps: nat)
    requires Short(labels) && [] !in labels && steps >= |labels|
    ensures Skipped(front + Encoded(labels) + [0] + behind, |front|, steps) ==
      Stopped(|front| + |Encoded(labels)| + 5)
    decreases |labels|
  {
    var d := front + Encoded(labels) + [0] + behind;
    if labels == [] {
      assert d[|front|] == 0;
    } else {
      var first := [|labels[0]|] + labels[0];
      assert d[|front|] == |labels[0]|;
      assert d == (front + first) + Encoded(labels[1..]) + [0] + behind;
      SkipsLabels(front + first, labels[1..], behind, steps - 1);
    }
  }

  lemma TrailerStartsWithZero(text: seq<Byte>, behind: seq<Byte>)
    ensures text + TRAILER + behind == text + [0] + (TRAILER[1..] + behind)
  {
    assert TRAILER == [0] + TRAILER[1..];
  }

  // From the first byte of the question of an accepted host name, under any header and with any
  // answers behind it, skipping stops right behind the class field.
  lemma QuestionIsSkipped(host: seq<Byte>, header: seq<Byte>, behind: seq<Byte>, steps: nat)
    requires PacketFor(host, header).Packet? && steps >= |Labels(host)|
    ensures var question := Encoded(Leading(Labels(host))) + TRAILER;
            Skipped(header + question + behind, |header|, steps) == Stopped(|header + question|)
  {
    var labels := Leading(Labels(host));
    LeadingIsPrefix(Labels(host));
    SkipsLabels(header, labels, TRAILER[1..] + behind, steps);
    TrailerStartsWithZero(header + Encoded(labels), behind);
    Associate(header, Encoded(labels), TRAILER);
  }

  // The same for the packet as it is sent, with its zeros behind the class field.
  lemma SentQuestionIsSkipped(host: seq<Byte>, header: seq<Byte>)
    requires PacketFor(host, header).Packet?
    ensures var sent, labels := PacketFor(host, header).bytes, Labels(host);
            && |sent| == |header| + Size(labels) + |TRAILER|
            && Skipped(sent, |header|, |labels|) == Stopped(|sent| - (Size(labels) - Size(Leading(labels))))
  {
    var labels := Labels(host);
    LabelsFit(labels);
    LeadingIsPrefix(labels);
    EncodedSize(Leading(labels));
    var zeros := Zeros(Size(labels) - Size(Leading(labels)));
    QuestionIsSkipped(host, header, zeros, |labels|);
    assert PacketFor(host, header).bytes == header + (Encoded(Leading(labels)) + TRAILER) + zeros;
  }

  // ---- What the question means ----

  /** The labels of a name as RFC 1035, section 3.1, reads them: each behind its length, up to
      the zero length of the root. */
  function NameAt(d: seq<Byte>): seq<seq<Byte>> {
    if d == [] || d[0] == 0 || d[0] >= |d| then []
    else [d[1..1 + d[0]]] + NameAt(d[1 + d[0]..])
  }

  // A reader of the question finds the host name's own labels.
  lemma {:induction false} NameIsRead(labels: seq<seq<Byte>>, behind: seq<Byte>)
    requires Short(labels) && [] !in labels
    ensures NameAt(Encoded(labels) + [0] + behind) == labels
  {
    var d := Encoded(labels) + [0] + behind;
    if labels == [] {
    } else {
      var n := |labels[0]|;
      assert d[1..1 + n] == labels[0];
      assert d[1 + n..] == Encoded(labels[1..]) + [0] + behind;
      NameIsRead(labels[1..], behind);
    }
  }

  // Without empty labels the question names exactly the host.
  lemma QuestionNamesTheHost(host: seq<Byte>, header: seq<Byte>, behind: seq<Byte>)
    requires PacketFor(host, header).Packet? && [] !in Labels(host)
    ensures Join(NameAt(Encoded(Leading(Labels(host))) + TRAILER + behind), DOT) == host
  {
    var labels := Labels(host);
    LeadingIsPrefix(labels);
    NameIsRead(labels, TRAILER[1..] + behind);
    TrailerStartsWithZero(Encoded(labels), behind);
    PiecesJoin(host, DOT);
  }

  // ---- Which names are asked for, and how ----

  lemma {:induction false} JoinLength(ls: seq<seq<Byte>>)
    requires ls != [] && [] !in ls
    ensures |Join(ls, DOT)| + 1 == Size(ls)
  {
    SizeCons(ls[0], ls[1..]);
    assert ls == [ls[0]] + ls[1..];
    if |ls| > 1 {
      JoinLength(ls[1..]);
    } else {
      assert ls[1..] == [];
    }
  }

  lemma {:induction false} LeadingIsAll(ls: seq<seq<Byte>>)
    requires [] !in ls
    ensures Leading(ls) == ls
  {
    if ls == [] {
    } else {
      assert ls[0] in ls;
      LeadingIsAll(ls[1..]);
    }
  }

  lemma LabelsOfJoin(ls: seq<seq<Byte>>)
    requires ls != [] && [] !in ls && NoneHolds(ls, DOT)
    ensures var host := Join(ls, DOT);
      Labels(host) == ls && Leading(Labels(host)) == ls && host != [] && host[0] != DOT
  {
    PiecesAreUnique(ls, DOT);
    LeadingIsAll(ls);
    assert ls[0] in ls;
    assert ls[0][0] in ls[0];
    assert Join(ls, DOT)[0] == ls[0][0];
  }

  /** The header, labels that a reader reads, and behind their zero the type 1 and the class 1. */
  predicate IsQuestion(bytes: seq<Byte>, header: seq<Byte>, ls: seq<seq<Byte>>, length: nat) {
    && |bytes| == |header| + length + 6 && bytes[..|header|] == header
    && NameAt(bytes[|header|..]) == ls && bytes[|bytes| - 5..] == [0, 0, 1, 0, 1]
  }

  lemma QuestionParts(header: seq<Byte>, ls: seq<seq<Byte>>, length: nat)
    requires Short(ls) && [] !in ls && length + 1 == Size(ls)
    ensures IsQuestion(header + Encoded(ls) + [0, 0, 1, 0, 1], header, ls, length)
  {
    var bytes := header + Encoded(ls) + [0, 0, 1, 0, 1];
    EncodedSize(ls);
    NameIsRead(ls, [0, 1, 0, 1]);
    assert bytes[|header|..] == Encoded(ls) + [0] + [0, 1, 0, 1];
  }

  lemma PacketOf(host: seq<Byte>, header: seq<Byte>, ls: seq<seq<Byte>>)
    requires Labels(host) == ls == Leading(ls) && Short(ls) && host != [] && host[0] != DOT
    ensures PacketFor(host, header) == Packet(header + Encoded(ls) + [0, 0, 1, 0, 1])
  {
    assert Zeros(0) == [];
  }

  // For a host of any labels, none empty: if all are shorter than 64 bytes, the packet is the
  // header, a question a reader reads the labels from, a zero, the type 1 and the class 1; if
  // not, the host is refused. A host that starts with a dot is refused too.
  lemma {:induction false} AsksForHost(ls: seq<seq<Byte>>, header: seq<Byte>)
    requires ls != [] && [] !in ls && NoneHolds(ls, 46)
    ensures var host := Join(ls, 46);
      if exists k :: 0 <= k < |ls| && |ls[k]| >= 64 then PacketFor(host, header) == TooLong
      else PacketFor(host, header).Packet? && IsQuestion(PacketFor(host, header).bytes, header, ls, |host|)
    ensures PacketFor([46] + Join(ls, 46), header) == BadHostname
  {
    LabelsOfJoin(ls);
    JoinLength(ls);
    if Short(ls) {
      QuestionParts(header, ls, |Join(ls, 46)|);
      PacketOf(Join(ls, 46), header, ls);
    }
  }
}
