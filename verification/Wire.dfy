/** Bytes on the wire: big-endian numbers and the message checksum with its slot. */
module Wire {
  type Byte = b: int | 0 <= b < 256

  const TWO_TO_24 := 0x100_0000
  const TWO_TO_32 := 0x1_0000_0000
  const CHECKSUM_OFFSET := 8

  /** The n low bytes of v, most significant first. */
  function BigEndian(v: nat, n: nat): (s: seq<Byte>)
    ensures |s| == n
  {
    if n == 0 then [] else BigEndian(v / 256, n - 1) + [v % 256]
  }

  function FromBigEndian(s: seq<Byte>): nat {
    if s == [] then 0 else FromBigEndian(s[..|s| - 1]) * 256 + s[|s| - 1]
  }

  function Pow256(n: nat): nat {
    if n == 0 then 1 else 256 * Pow256(n - 1)
  }

  lemma {:induction false} BigEndianRoundTrip(v: nat, n: nat)
    requires v < Pow256(n)
    ensures FromBigEndian(BigEndian(v, n)) == v
  {
    if n == 0 {
    } else {
      BigEndianRoundTrip(v / 256, n - 1);
      assert BigEndian(v, n)[..n - 1] == BigEndian(v / 256, n - 1);
    }
  }

  lemma {:induction false} FromBigEndianRoundTrip(s: seq<Byte>)
    ensures FromBigEndian(s) < Pow256(|s|) && BigEndian(FromBigEndian(s), |s|) == s
  {
    if s == [] {
    } else {
      FromBigEndianRoundTrip(s[..|s| - 1]);
    }
  }

  /** Writes the n bytes of v into a buffer from its end and appends the buffer to d. */
  method Append(d: seq<Byte>, v: nat, n: nat) returns (r: seq<Byte>)
    ensures r == d + BigEndian(v, n)
  {
    var buff := new Byte[n](_ => 0);
    var i, left := n, v;
    while i > 0
      invariant 0 <= i <= n
      invariant BigEndian(v, n) == BigEndian(left, i) + buff[i..]
    {
      i := i - 1;
      buff[i] := left % 256;
      left := left / 256;
    }
    assert buff[0..] == buff[..];
    r := d + buff[..];
  }

  method GetUint(d: seq<Byte>, offset: nat, n: nat) returns (acc: nat)
    requires offset + n <= |d|
    ensures acc == FromBigEndian(d[offset..offset + n])
  {
    acc := 0;
    var i := 0;
    while i < n
      invariant 0 <= i <= n && acc == FromBigEndian(d[offset..offset + i])
    {
      assert d[offset..offset + i + 1][..i] == d[offset..offset + i];
      acc := acc * 256 + d[offset + i];
      i := i + 1;
    }
  }

  /** A byte as the signed character the checksum adds up. */
  function Signed(b: Byte): int {
    if b < 128 then b else b - 256
  }

  /** The length of the leading pad, which the low bits of the first byte announce. */
  function HeaderOffset(d: seq<Byte>): (o: nat)
    requires d != []
    ensures 1 <= o <= 8
  {
    d[0] % 8 + 1
  }

  /** The checksum slot is inside the message. */
  predicate HasSlot(d: seq<Byte>) {
    d != [] && |d| > CHECKSUM_OFFSET + 3 + HeaderOffset(d)
  }

  function WithSlot(d: seq<Byte>, slot: seq<Byte>): (r: seq<Byte>)
    requires HasSlot(d) && |slot| == 4
    ensures |r| == |d| && HasSlot(r) && HeaderOffset(r) == HeaderOffset(d)
  {
    var k := CHECKSUM_OFFSET + HeaderOffset(d);
    d[..k] + slot + d[k + 4..]
  }

  function SlotOf(d: seq<Byte>): (slot: seq<Byte>)
    requires HasSlot(d)
    ensures |slot| == 4
  {
    var k := CHECKSUM_OFFSET + HeaderOffset(d);
    d[k..k + 4]
  }

  /** The accumulator and the partial word after the first i bytes. */
  function Sum(d: seq<Byte>, i: nat): (nat, nat)
    requires i <= |d|
  {
    if i == 0 then (0, 0)
    else
      var (acc, val) := Sum(d, i - 1);
      var w := (val * 256 + Signed(d[i - 1])) % TWO_TO_32;
      if (i - 1) % 4 == 0 then ((acc + w) % TWO_TO_32, 0) else (acc, w)
  }

  /** The high byte of the 32-bit sum is added in and then cut off. */
  function Fold(total: nat): (c: nat)
    ensures c < TWO_TO_24
  {
    (total + total / TWO_TO_24) % TWO_TO_32 % TWO_TO_24
  }

  function ChecksumOf(d: seq<Byte>): (c: nat)
    requires HasSlot(d)
    ensures c < TWO_TO_24
  {
    var z := WithSlot(d, [0, 0, 0, 0]);
    var (acc, val) := Sum(z, |z|);
    Fold((acc + val) % TWO_TO_32)
  }

  method Checksum(data: seq<Byte>) returns (accumulator: nat)
    requires HasSlot(data)
    ensures accumulator == ChecksumOf(data)
  {
    var k := CHECKSUM_OFFSET + HeaderOffset(data);
    var d := data[..k] + [0, 0, 0, 0] + data[k + 4..];
    accumulator := 0;
    var val := 0;
    var i := 0;
    while i < |d|
      invariant 0 <= i <= |d| && 0 <= val && (accumulator, val) == Sum(d, i)
    {
      val := (val * 256 + Signed(d[i])) % TWO_TO_32;
      if i % 4 == 0 {
        accumulator := (accumulator + val) % TWO_TO_32;
        val := 0;
      }
      i := i + 1;
    }
    accumulator := (accumulator + val) % TWO_TO_32;
    accumulator := (accumulator + accumulator / TWO_TO_24) % TWO_TO_32;
    accumulator := accumulator % TWO_TO_24;
  }

  function Checksummed(d: seq<Byte>): seq<Byte>
    requires HasSlot(d)
  {
    WithSlot(d, BigEndian(ChecksumOf(d), 4))
  }

  method SetChecksum(data: seq<Byte>) returns (d: seq<Byte>)
    requires HasSlot(data)
    ensures d == Checksummed(data)
  {
    var csum := Checksum(data);
    var k := CHECKSUM_OFFSET + HeaderOffset(data);
    d := data;
    d := d[k := csum / 0x100_0000 % 256];
    d := d[k + 1 := csum / 0x1_0000 % 256];
    d := d[k + 2 := csum / 0x100 % 256];
    d := d[k + 3 := csum % 256];
    FourBytes(csum);
    assert d == data[..k] + BigEndian(csum, 4) + data[k + 4..];
  }

  lemma FourBytes(v: nat)
    ensures BigEndian(v, 4) == [v / 0x100_0000 % 256, v / 0x1_0000 % 256, v / 0x100 % 256, v % 256]
  {
    assert v / 256 / 256 == v / 0x1_0000;
    assert v / 256 / 256 / 256 == v / 0x100_0000;
    assert BigEndian(v / 0x100_0000, 1) == [v / 0x100_0000 % 256];
    assert BigEndian(v / 0x1_0000, 2) == BigEndian(v / 0x100_0000, 1) + [v / 0x1_0000 % 256];
    assert BigEndian(v / 0x100, 3) == BigEndian(v / 0x1_0000, 2) + [v / 0x100 % 256];
  }

  lemma SlotLaws(d: seq<Byte>, s1: seq<Byte>, s2: seq<Byte>)
    requires HasSlot(d) && |s1| == |s2| == 4
    ensures SlotOf(WithSlot(d, s1)) == s1
    ensures WithSlot(WithSlot(d, s1), s2) == WithSlot(d, s2)
    ensures WithSlot(d, SlotOf(d)) == d
  {
    var k := CHECKSUM_OFFSET + HeaderOffset(d);
    var w := WithSlot(d, s1);
    assert w[..k] == d[..k] && w[k + 4..] == d[k + 4..];
    assert d == d[..k] + SlotOf(d) + d[k + 4..];
  }

  // A message that carries its checksum is accepted: the stored number reads back as the
  // checksum of the whole, and nothing outside the slot has changed.
  lemma ChecksumAccepted(d: seq<Byte>)
    requires HasSlot(d)
    ensures HasSlot(Checksummed(d))
    ensures FromBigEndian(SlotOf(Checksummed(d))) == ChecksumOf(Checksummed(d))
    ensures WithSlot(Checksummed(d), SlotOf(d)) == d
  {
    var slot := BigEndian(ChecksumOf(d), 4);
    SlotLaws(d, slot, [0, 0, 0, 0]);
    SlotLaws(d, slot, SlotOf(d));
    assert Pow256(4) == TWO_TO_32;
    BigEndianRoundTrip(ChecksumOf(d), 4);
  }

  // ---- What the checksum is ----

  /** How many bytes are behind byte i in its word, in a message of n bytes. A word ends at every
      multiple of four, so the first is byte 0 alone, and the last one ends with the message. */
  function BehindInWord(i: nat, n: nat): (k: nat)
    requires i < n
    ensures k <= 3
  {
    var k := (4 - i % 4) % 4;
    if i + k < n then k else n - 1 - i
  }

  /** Every byte before i, as a signed character, times what its place in its word is worth. */
  function WeightedSum(z: seq<Byte>, i: nat): int
    requires i <= |z|
  {
    if i == 0 then 0
    else
      WeightedSum(z, i - 1) + (if z[i - 1] < 128 then z[i - 1] else z[i - 1] - 256) * Pow256(BehindInWord(i - 1, |z|))
  }

  /** The two accumulators as they would be without a bound on their size. */
  function Unbounded(d: seq<Byte>, i: nat): (int, int)
    requires i <= |d|
  {
    if i == 0 then (0, 0)
    else
      var (acc, val) := Unbounded(d, i - 1);
      var w := val * 256 + Signed(d[i - 1]);
      if (i - 1) % 4 == 0 then (acc + w, 0) else (acc, w)
  }

  lemma Shifted(x: int, k: int)
    ensures (x + k * TWO_TO_32) % TWO_TO_32 == x % TWO_TO_32
  {
    var q, r := x / TWO_TO_32, x % TWO_TO_32;
    assert x + k * TWO_TO_32 == (q + k) * TWO_TO_32 + r;
  }

  lemma CutEarlyOrLate(x: int, s: int)
    ensures (x % TWO_TO_32 * 256 + s) % TWO_TO_32 == (x * 256 + s) % TWO_TO_32
  {
    var q, r := x / TWO_TO_32, x % TWO_TO_32;
    assert x * 256 + s == (r * 256 + s) + (q * 256) * TWO_TO_32;
    Shifted(r * 256 + s, q * 256);
  }

  lemma CutBoth(x: int, y: int)
    ensures (x % TWO_TO_32 + y % TWO_TO_32) % TWO_TO_32 == (x + y) % TWO_TO_32
  {
    var q, p := x / TWO_TO_32, y / TWO_TO_32;
    assert x + y == x % TWO_TO_32 + y % TWO_TO_32 + (q + p) * TWO_TO_32;
    Shifted(x % TWO_TO_32 + y % TWO_TO_32, q + p);
  }

  lemma NextCut(acc: int, val: int, s: int)
    ensures var w := val * 256 + s;
            var cut := (val % TWO_TO_32 * 256 + s) % TWO_TO_32;
            cut == w % TWO_TO_32 && (acc % TWO_TO_32 + cut) % TWO_TO_32 == (acc + w) % TWO_TO_32
  {
    CutEarlyOrLate(val, s);
    CutBoth(acc, val * 256 + s);
  }

  lemma {:induction false} SumIsCut(d: seq<Byte>, i: nat)
    requires i <= |d|
    ensures Sum(d, i).0 == Unbounded(d, i).0 % TWO_TO_32 && Sum(d, i).1 == Unbounded(d, i).1 % TWO_TO_32
  {
    if i == 0 {
    } else {
      SumIsCut(d, i - 1);
      NextCut(Unbounded(d, i - 1).0, Unbounded(d, i - 1).1, Signed(d[i - 1]));
    }
  }

  lemma NextWeight(val: int, s: int, acc: int, k: nat)
    ensures acc + val * Pow256(k + 1) + s * Pow256(k) == acc + (val * 256 + s) * Pow256(k)
  {
    var p := Pow256(k);
    assert val * (256 * p) == (val * 256) * p;
    assert (val * 256 + s) * p == (val * 256) * p + s * p;
  }

  // The partial word counts for 256 times as much when one more byte of its word follows; when
  // none does it is empty.
  lemma WeightGoesDown(d: seq<Byte>, i: nat)
    requires 1 < i <= |d| && (i - 2) % 4 != 0
    ensures BehindInWord(i - 2, |d|) == BehindInWord(i - 1, |d|) + 1
  {
  }

  lemma {:induction false} UnboundedIsWeighted(d: seq<Byte>, i: nat)
    requires 0 < i <= |d|
    ensures Unbounded(d, i).0 + Unbounded(d, i).1 * Pow256(BehindInWord(i - 1, |d|)) == WeightedSum(d, i)
  {
    var k, s := BehindInWord(i - 1, |d|), Signed(d[i - 1]);
    var acc, val := Unbounded(d, i - 1).0, Unbounded(d, i - 1).1;
    NextWeight(val, s, acc, k);
    assert acc + val * Pow256(k + 1) == WeightedSum(d, i - 1) by {
      if i > 1 {
        UnboundedIsWeighted(d, i - 1);
        if (i - 2) % 4 != 0 {
          WeightGoesDown(d, i);
        } else {
          assert val == 0;
        }
      }
    }
    LastWord(acc, val * 256 + s, k, i);
  }

  lemma LastWord(acc: int, w: int, k: nat, i: nat)
    requires i > 0 && ((i - 1) % 4 == 0 ==> k == 0)
    ensures acc + w * Pow256(k) ==
      if (i - 1) % 4 == 0 then acc + w else acc + w * Pow256(k)
  {
    assert Pow256(0) == 1;
  }

  // The checksum without its loop. With the slot set to zero, the total is the signed bytes, each
  // times 256 to the number of bytes behind it in its word, modulo 2 to the 32; the checksum is
  // the low 24 bits of the total plus its high byte, cut to 24 bits again.
  lemma ChecksumIsWeightedSum(d: seq<Byte>)
    requires HasSlot(d)
    ensures var k := 9 + d[0] % 8;
            var z := d[..k] + [0, 0, 0, 0] + d[k + 4..];
            var total := WeightedSum(z, |z|) % 0x1_0000_0000;
            ChecksumOf(d) == (total % 0x100_0000 + total / 0x100_0000) % 0x100_0000
  {
    var z := WithSlot(d, [0, 0, 0, 0]);
    var n := |z|;
    SumIsCut(z, n);
    UnboundedIsWeighted(z, n);
    assert BehindInWord(n - 1, n) == 0 && Pow256(0) == 1;
    CutBoth(Unbounded(z, n).0, Unbounded(z, n).1);
    FoldIs(WeightedSum(z, n) % TWO_TO_32);
  }

  lemma FoldIs(total: nat)
    requires total < TWO_TO_32
    ensures Fold(total) == (total % TWO_TO_24 + total / TWO_TO_24) % TWO_TO_24
  {
    var low, high := total % TWO_TO_24, total / TWO_TO_24;
    assert total + high == high * TWO_TO_24 + low + high;
  }

  // A whole word of four bytes.
  lemma WholeWord(z: seq<Byte>, i: nat)
    requires i % 4 == 1 && i + 4 <= |z|
    ensures WeightedSum(z, i + 4) == WeightedSum(z, i)
      + Signed(z[i]) * 0x100_0000 + Signed(z[i + 1]) * 0x1_0000 + Signed(z[i + 2]) * 0x100 + Signed(z[i + 3])
  {
    var n := |z|;
    assert Pow256(0) == 1 && Pow256(1) == 256 && Pow256(2) == 0x1_0000 && Pow256(3) == 0x100_0000;
    assert BehindInWord(i, n) == 3 && BehindInWord(i + 1, n) == 2;
    assert BehindInWord(i + 2, n) == 1 && BehindInWord(i + 3, n) == 0;
    assert WeightedSum(z, i + 1) == WeightedSum(z, i) + Signed(z[i]) * Pow256(3);
    assert WeightedSum(z, i + 2) == WeightedSum(z, i + 1) + Signed(z[i + 1]) * Pow256(2);
    assert WeightedSum(z, i + 3) == WeightedSum(z, i + 2) + Signed(z[i + 2]) * Pow256(1);
    assert WeightedSum(z, i + 4) == WeightedSum(z, i + 3) + Signed(z[i + 3]) * Pow256(0);
  }

  lemma FirstByte(z: seq<Byte>)
    requires z != []
    ensures WeightedSum(z, 1) == Signed(z[0])
  {
    assert BehindInWord(0, |z|) == 0 && Pow256(0) == 1;
    assert WeightedSum(z, 0) == 0;
  }

  /** The total of the shortest message with a slot: words of one, four, four and four bytes, the
      last of them the slot. */
  function ShortTotal(d: seq<Byte>): nat
    requires |d| == 13
  {
    (Signed(d[0])
     + Signed(d[1]) * 0x100_0000 + Signed(d[2]) * 0x1_0000 + Signed(d[3]) * 0x100 + Signed(d[4])
     + Signed(d[5]) * 0x100_0000 + Signed(d[6]) * 0x1_0000 + Signed(d[7]) * 0x100 + Signed(d[8]))
    % 0x1_0000_0000
  }

  lemma ShortWeights(d: seq<Byte>, z: seq<Byte>)
    requires |d| == 13 && z == d[..9] + [0, 0, 0, 0]
    ensures WeightedSum(z, 13) % 0x1_0000_0000 == ShortTotal(d)
  {
    FirstByte(z);
    WholeWord(z, 1);
    WholeWord(z, 5);
    WholeWord(z, 9);
  }

  lemma ShortestChecksum(d: seq<Byte>, c: nat)
    requires |d| == 13 && d[0] % 8 == 0
    requires c == (ShortTotal(d) % 0x100_0000 + ShortTotal(d) / 0x100_0000) % 0x100_0000
    ensures ChecksumOf(d) == c
  {
    ChecksumIsWeightedSum(d);
    var z := d[..9] + [0, 0, 0, 0];
    assert z == d[..9] + [0, 0, 0, 0] + d[13..];
    ShortWeights(d, z);
  }

  // Literal values. A byte in the second place starts a word.
  lemma SecondByteStartsAWord(d: seq<Byte>)
    requires d == [0, 1, 0, 0, 0, 0, 0, 0, 0, 0, 0, 0, 0]
    ensures ChecksumOf(d) == 1
  {
    ShortestChecksum(d, 1);
  }

  // A byte above 127 counts as negative.
  lemma HighByteIsNegative(d: seq<Byte>)
    requires d == [0, 0, 0, 0, 0, 0, 0, 0, 255, 0, 0, 0, 0]
    ensures ChecksumOf(d) == 254
  {
    ShortestChecksum(d, 254);
  }

  // What is in the slot does not count, and the fifth byte ends a word.
  lemma SlotDoesNotCount(d: seq<Byte>)
    requires d == [248, 0, 0, 0, 17, 0, 0, 0, 0, 9, 9, 9, 9]
    ensures ChecksumOf(d) == 9
  {
    ShortestChecksum(d, 9);
  }
}
