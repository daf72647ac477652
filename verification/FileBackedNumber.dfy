/** A counter kept as decimal text in a file. The text is overwritten in place and the file is
    never truncated, so what is read back depends on what the new digits leave standing. */
module FileBackedNumber {
  import opened Common

  const TWO_TO_64 := 0x1_0000_0000_0000_0000
  const LONG_MAX := 0x7FFF_FFFF_FFFF_FFFF
  const READ_LIMIT := 1024

  predicate IsDigit(c: char) {
    '0' <= c <= '9'
  }

  function DigitChar(d: nat): (c: char)
    requires d < 10
    ensures IsDigit(c) && c as int - '0' as int == d
  {
    ('0' as int + d) as char
  }

  /** The decimal text of n, without leading zeros. */
  function Decimal(n: nat): (s: string)
    ensures s != [] && forall c :: c in s ==> IsDigit(c)
  {
    if n < 10 then [DigitChar(n)] else Decimal(n / 10) + [DigitChar(n % 10)]
  }

  /** The number made of acc's digits followed by the digits at the front of s. */
  function Scan(acc: nat, s: string): nat
    decreases s
  {
    if s == [] || !IsDigit(s[0]) then acc
    else Scan(acc * 10 + (s[0] as int - '0' as int), s[1..])
  }

  /** The number s stands for: leading space, one sign, digits. */
  function Number(s: string): int {
    if s == [] then 0
    else if IsSpace(s[0]) then Number(s[1..])
    else if s[0] == '-' then 0 - Scan(0, s[1..])
    else if s[0] == '+' then Scan(0, s[1..])
    else Scan(0, s)
  }

  /** What atoll makes of s. A number beyond the range of a long long, for which C promises
      nothing, is cut to the nearest end of the range. */
  function Atoll(s: string): int {
    Max(-LONG_MAX - 1, Min(Number(s), LONG_MAX))
  }

  function Take(s: string, n: nat): string {
    if |s| <= n then s else s[..n]
  }

  /** The content of a file after writing data at its start. */
  function Overwrite(text: string, data: string): string {
    if |data| <= |text| then data + text[|data|..] else data
  }

  /** The number a reader sees in a file. */
  function ReadBack(text: string): int {
    Atoll(Take(text, READ_LIMIT))
  }

  lemma {:induction false} ScanAppend(acc: nat, ds: string, rest: string)
    requires forall c :: c in ds ==> IsDigit(c)
    ensures Scan(acc, ds + rest) == Scan(Scan(acc, ds), rest)
    decreases ds
  {
    if ds == [] {
      assert ds + rest == rest;
    } else {
      assert ds[0] in ds && (ds + rest)[1..] == ds[1..] + rest;
      ScanAppend(acc * 10 + (ds[0] as int - '0' as int), ds[1..], rest);
    }
  }

  lemma {:induction false} ScanDecimal(n: nat)
    ensures Scan(0, Decimal(n)) == n
  {
    if n < 10 {
      assert Decimal(n)[1..] == [];
    } else {
      var last := [DigitChar(n % 10)];
      ScanDecimal(n / 10);
      ScanAppend(0, Decimal(n / 10), last);
      assert last[1..] == [];
    }
  }

  lemma {:induction false} ScanGrows(acc: nat, s: string)
    ensures acc <= Scan(acc, s)
    decreases s
  {
    if s != [] && IsDigit(s[0]) {
      ScanGrows(acc * 10 + (s[0] as int - '0' as int), s[1..]);
    }
  }

  function Pow10(k: nat): (r: nat)
    ensures r > 0
  {
    if k == 0 then 1 else 10 * Pow10(k - 1)
  }

  lemma {:induction false} DecimalLength(n: nat, k: nat)
    requires 0 < k && n < Pow10(k)
    ensures |Decimal(n)| <= k
  {
    if n >= 10 {
      assert Pow10(k) == 10 * Pow10(k - 1) && k > 1;
      DecimalLength(n / 10, k - 1);
    }
  }

  lemma {:induction false} DecimalLong(n: nat, k: nat)
    requires Pow10(k) <= n
    ensures |Decimal(n)| > k
  {
    if k == 0 {
    } else {
      TenthAtLeast(n, Pow10(k - 1));
      DecimalLong(n / 10, k - 1);
    }
  }

  lemma TenthAtLeast(n: nat, x: nat)
    requires 10 * x <= n && x > 0
    ensures n >= 10 && n / 10 >= x
  {
  }

  lemma DecimalFits(n: nat)
    requires n < TWO_TO_64
    ensures |Decimal(n)| <= 20
  {
    assert Pow10(5) == 100000;
    assert Pow10(10) == 10000000000;
    assert Pow10(15) == 1000000000000000;
    assert Pow10(20) == 100000000000000000000;
    DecimalLength(n, 20);
  }

  lemma {:induction false} DecimalMonotone(m: nat, n: nat)
    requires m <= n
    ensures |Decimal(m)| <= |Decimal(n)|
  {
    if m >= 10 {
      DecimalMonotone(m / 10, n / 10);
    }
  }

  /** Whether writing digits over text leaves no old digit right behind them. */
  predicate CutsClean(text: string, digits: string) {
    |digits| >= |text| || !IsDigit(text[|digits|])
  }

  // Writing a positive number over old text reads back as that number exactly when the first
  // old character left standing is not a digit.
  lemma OverwriteReadsBack(text: string, v: nat)
    requires 0 < v < LONG_MAX
    ensures ReadBack(Overwrite(text, Decimal(v))) == v <==> CutsClean(text, Decimal(v))
  {
    var d := Decimal(v);
    DecimalFits(v);
    var after := Overwrite(text, d);
    var seen := Take(after, READ_LIMIT);
    var rest := seen[|d|..];
    assert seen == d + rest;
    assert d[0] in d && seen[0] == d[0];
    ScanAppend(0, d, rest);
    ScanDecimal(v);
    if rest != [] && IsDigit(rest[0]) {
      ScanGrows(v * 10 + (rest[0] as int - '0' as int), rest[1..]);
    }
    assert rest != [] ==> |d| < |text| && rest[0] == text[|d|];
    assert rest == [] ==> |d| >= |text|;
  }

  /** The digits at the front of s, if any, are zeros. */
  ghost predicate OnlyZeros(s: string) {
    s == [] || !IsDigit(s[0]) || (s[0] == '0' && OnlyZeros(s[1..]))
  }

  lemma {:induction false} ScanZeros(s: string)
    ensures Scan(0, s) == 0 <==> OnlyZeros(s)
  {
    if s != [] && IsDigit(s[0]) {
      if s[0] == '0' {
        ScanZeros(s[1..]);
      } else {
        ScanGrows(s[0] as int - '0' as int, s[1..]);
      }
    }
  }

  // Zero, whose one digit adds nothing to digits left behind it, reads back exactly when those
  // are zeros too.
  lemma ZeroReadsBack(text: string)
    ensures ReadBack(Overwrite(text, Decimal(0))) == 0 <==>
      text == [] || OnlyZeros(Take(text, READ_LIMIT)[1..])
  {
    var seen := Take(Overwrite(text, Decimal(0)), READ_LIMIT);
    assert seen[0] == '0';
    if text != [] {
      assert seen[1..] == Take(text, READ_LIMIT)[1..];
      ScanZeros(seen[1..]);
    }
  }

  /** The file holds the decimal text of n and nothing else, or is new and stands for zero. */
  predicate Holds(text: string, n: nat) {
    text == Decimal(n) || (text == [] && n == 0)
  }

  lemma HeldReadsBack(text: string, n: nat)
    requires Holds(text, n) && n <= LONG_MAX
    ensures ReadBack(text) == n
  {
    if text != [] {
      DecimalFits(n);
      ScanDecimal(n);
      assert text[0] in text;
    }
  }

  // A counter that only grows always cuts clean, so its text stays exactly its number.
  lemma GrowingCutsClean(text: string, n: nat, v: nat)
    requires Holds(text, n) && n <= v
    ensures CutsClean(text, Decimal(v)) && Overwrite(text, Decimal(v)) == Decimal(v)
  {
    DecimalMonotone(n, v);
  }

  lemma IncrementHeld(text: string, n: nat, i: nat)
    requires Holds(text, n) && n <= LONG_MAX
    ensures ReadBack(text) == n && Holds(Overwrite(text, Decimal(n + i)), n + i)
  {
    HeldReadsBack(text, n);
    GrowingCutsClean(text, n, n + i);
  }

  // The other direction does happen: setting a smaller number leaves old digits behind it.
  lemma ShrinkingLeavesDigits()
    ensures Overwrite("100", Decimal(5)) == "500" && ReadBack("500") == 500
  {
    assert Decimal(5) == "5";
    HeldReadsBack("500", 500) by {
      assert Decimal(50) == Decimal(5) + [DigitChar(0)] == "50";
      assert Decimal(500) == Decimal(50) + [DigitChar(0)] == "500";
    }
  }

  // ---- Adding nothing ----

  /** The text after the number in it has been incremented. */
  function Incremented(text: string, i: int): string {
    Overwrite(text, Decimal((ReadBack(text) + i) % TWO_TO_64))
  }

  lemma HeldIncremented(text: string, n: nat, i: nat)
    requires Holds(text, n) && n <= LONG_MAX && n + i < TWO_TO_64
    ensures ReadBack(text) == n && Holds(Incremented(text, i), n + i)
  {
    IncrementHeld(text, n, i);
    assert (n + i) % TWO_TO_64 == n + i;
  }

  function DigitCount(s: string): (k: nat)
    ensures k <= |s|
  {
    if s == [] || !IsDigit(s[0]) then 0 else 1 + DigitCount(s[1..])
  }

  lemma {:induction false} ScanStops(acc: nat, s: string)
    ensures Scan(acc, s) == Scan(acc, s[..DigitCount(s)])
    ensures forall c :: c in s[..DigitCount(s)] ==> IsDigit(c)
    decreases s
  {
    if s == [] || !IsDigit(s[0]) {
    } else {
      ScanStops(acc * 10 + (s[0] as int - '0' as int), s[1..]);
      assert s[..DigitCount(s)] == [s[0]] + s[1..][..DigitCount(s[1..])];
    }
  }

  lemma ScanLast(acc: nat, c: char)
    requires IsDigit(c)
    ensures Scan(acc, [c]) == acc * 10 + (c as int - '0' as int)
  {
    assert [c][1..] == [];
  }

  lemma DecimalLast(n: nat, c: char)
    requires n > 0 && IsDigit(c)
    ensures Decimal(n * 10 + (c as int - '0' as int)) == Decimal(n) + [c]
  {
    var d := c as int - '0' as int;
    assert (n * 10 + d) / 10 == n && (n * 10 + d) % 10 == d && DigitChar(d) == c;
  }

  // Digits without a leading zero are the decimal text of their number.
  lemma {:induction false} DecimalOfScan(p: string)
    requires p != [] && p[0] != '0' && forall c :: c in p ==> IsDigit(c)
    ensures Scan(0, p) > 0 && Decimal(Scan(0, p)) == p
    decreases |p|
  {
    var c := p[|p| - 1];
    var front := p[..|p| - 1];
    assert p == front + [c] && p[0] in p && c in p;
    if front == [] {
      assert p == [c];
      ScanLast(0, c);
      assert DigitChar(c as int - '0' as int) == c;
    } else {
      DecimalOfScan(front);
      ScanAppend(0, front, [c]);
      ScanLast(Scan(0, front), c);
      DecimalLast(Scan(0, front), c);
    }
  }

  lemma {:induction false} DecimalLeads(n: nat)
    requires n > 0
    ensures Decimal(n)[0] != '0'
  {
    if n < 10 {
    } else {
      DecimalLeads(n / 10);
    }
  }

  lemma StartsWithDigit(text: string)
    requires text != [] && IsDigit(text[0])
    ensures ReadBack(text) == Min(Scan(0, Take(text, READ_LIMIT)), LONG_MAX) >= 0
  {
    assert Take(text, READ_LIMIT)[0] == text[0];
  }

  lemma ReadsAtLeast(text: string, d: string)
    requires d != [] && (forall c :: c in d ==> IsDigit(c)) && d <= text && |d| <= READ_LIMIT
    ensures Min(Scan(0, d), LONG_MAX) <= ReadBack(text) <= LONG_MAX
  {
    var w := Take(text, READ_LIMIT);
    assert d[0] in d && text[0] == d[0];
    assert w == d + w[|d|..];
    StartsWithDigit(text);
    ScanAppend(0, d, w[|d|..]);
    ScanGrows(Scan(0, d), w[|d|..]);
  }

  lemma OverwriteLeads(text: string, d: string)
    ensures d <= Overwrite(text, d)
    ensures d <= text ==> Overwrite(text, d) == text
  {
  }

  // The digits at the front of text that does not start with a zero are those of a number.
  lemma LeadingDigits(text: string) returns (p: string)
    requires text != [] && IsDigit(text[0]) && text[0] != '0'
    ensures p <= text && Scan(0, p) > 0 && p == Decimal(Scan(0, p))
    ensures ReadBack(text) == Min(Scan(0, p), LONG_MAX)
  {
    var w := Take(text, READ_LIMIT);
    p := w[..DigitCount(w)];
    assert w[0] == text[0] && p[0] == w[0];
    StartsWithDigit(text);
    ScanStops(0, w);
    DecimalOfScan(p);
  }

  lemma OverwriteReadsAtLeast(text: string, v: nat)
    requires v <= LONG_MAX
    ensures v <= ReadBack(Overwrite(text, Decimal(v))) <= LONG_MAX
  {
    OverwriteLeads(text, Decimal(v));
    DecimalFits(v);
    ScanDecimal(v);
    ReadsAtLeast(Overwrite(text, Decimal(v)), Decimal(v));
  }

  lemma NothingAdded(text: string)
    ensures ReadBack(text) >= 0 ==> Incremented(text, 0) == Overwrite(text, Decimal(ReadBack(text)))
  {
    var v := ReadBack(text);
    assert v >= 0 ==> (v + 0) % TWO_TO_64 == v;
  }

  // Text that does not start with a zero reads the same after nothing has been added to it.
  lemma AddingNothingSettles(text: string)
    requires text != [] && IsDigit(text[0]) && text[0] != '0'
    ensures 0 < ReadBack(text) == ReadBack(Incremented(text, 0))
  {
    var p := LeadingDigits(text);
    var v: nat := ReadBack(text);
    NothingAdded(text);
    if v < LONG_MAX {
      OverwriteLeads(text, Decimal(v));
    } else {
      OverwriteReadsAtLeast(text, v);
    }
  }

  // What adding nothing leaves starts with a digit, and is not changed again if that is a zero.
  lemma AddingNothingLeads(text: string)
    ensures var t := Incremented(text, 0);
            t != [] && IsDigit(t[0]) && (t[0] == '0' ==> ReadBack(text) == 0)
  {
    var v := ReadBack(text) % TWO_TO_64;
    OverwriteLeads(text, Decimal(v));
    assert Decimal(v)[0] in Decimal(v);
    if v > 0 {
      DecimalLeads(v);
    }
  }

  // Whatever the text, the third and the fourth in a row to add nothing read the same number.
  lemma AddingNothingRepeats(text: string)
    ensures var t := Incremented(Incremented(text, 0), 0);
            0 <= ReadBack(t) == ReadBack(Incremented(t, 0))
  {
    var t1 := Incremented(text, 0);
    var t2 := Incremented(t1, 0);
    AddingNothingLeads(text);
    AddingNothingLeads(t1);
    StartsWithDigit(t2);
    if t2[0] == '0' {
      if t1[0] != '0' {
        AddingNothingSettles(t1);
      }
      assert Decimal(0) == "0" <= t1;
      OverwriteLeads(t1, Decimal(0));
    } else {
      AddingNothingSettles(t2);
    }
  }

  lemma IncrementKeepsHeld(text: string, i: nat)
    ensures forall m: nat :: Holds(text, m) && m <= LONG_MAX && m + i < TWO_TO_64 ==>
      ReadBack(text) % TWO_TO_64 == m && Holds(Incremented(text, i), m + i)
  {
    forall m: nat | Holds(text, m) && m <= LONG_MAX && m + i < TWO_TO_64
      ensures ReadBack(text) % TWO_TO_64 == m && Holds(Incremented(text, i), m + i)
    {
      HeldIncremented(text, m, i);
    }
  }

  // ---- What a reader makes of any text ----

  predicate AreBlanks(s: string) {
    forall i :: 0 <= i < |s| ==> s[i] == ' ' || 9 <= s[i] as int <= 13
  }

  predicate AreZeros(s: string) {
    forall i :: 0 <= i < |s| ==> s[i] == '0'
  }

  predicate StartsWithNoDigit(s: string) {
    s == [] || s[0] < '0' || '9' < s[0]
  }

  lemma {:induction false} ScanSkipsZeros(zeros: string, s: string)
    requires AreZeros(zeros)
    ensures Scan(0, zeros + s) == Scan(0, s)
  {
    if zeros == [] {
      assert zeros + s == s;
    } else {
      assert zeros[0] in zeros && (zeros + s)[1..] == zeros[1..] + s;
      ScanSkipsZeros(zeros[1..], s);
    }
  }

  lemma ScanNumber(zeros: string, n: nat, rest: string)
    requires AreZeros(zeros) && StartsWithNoDigit(rest)
    ensures Scan(0, zeros + Decimal(n) + rest) == n
  {
    assert zeros + Decimal(n) + rest == zeros + (Decimal(n) + rest);
    ScanSkipsZeros(zeros, Decimal(n) + rest);
    ScanAppend(0, Decimal(n), rest);
    ScanDecimal(n);
  }

  lemma {:induction false} NumberSkipsBlanks(blanks: string, s: string)
    requires AreBlanks(blanks)
    ensures Number(blanks + s) == Number(s)
  {
    if blanks == [] {
      assert blanks + s == s;
    } else {
      assert blanks[0] in blanks && (blanks + s)[1..] == blanks[1..] + s;
      NumberSkipsBlanks(blanks[1..], s);
    }
  }

  // Blanks, a sign or none, zeros, the decimal text of a number, and no digit behind it: that is
  // the number, with its sign.
  lemma {:induction false} NumberIsRead(blanks: string, sign: string, zeros: string, n: nat, rest: string)
    requires AreBlanks(blanks) && AreZeros(zeros) && StartsWithNoDigit(rest)
    requires sign == "" || sign == "-" || sign == "+"
    ensures Number(blanks + (sign + (zeros + Decimal(n) + rest))) == if sign == "-" then 0 - n else n
  {
    var digits := zeros + Decimal(n) + rest;
    NumberSkipsBlanks(blanks, sign + digits);
    ScanNumber(zeros, n, rest);
    if sign == "" {
      assert sign + digits == digits && digits[0] in zeros + Decimal(n);
    } else {
      assert (sign + digits)[1..] == digits;
    }
  }

  // Anything else behind the blanks, with a sign or without, stands for zero.
  lemma {:induction false} NoNumberIsZero(blanks: string, sign: string, rest: string)
    requires AreBlanks(blanks) && StartsWithNoDigit(rest)
    requires sign == "-" || sign == "+" || (sign == "" && (rest == "" || (rest[0] != '-' && rest[0] != '+')))
    requires sign == "" && rest != "" ==> !AreBlanks(rest[..1])
    ensures Number(blanks + (sign + rest)) == 0
  {
    NumberSkipsBlanks(blanks, sign + rest);
    if sign == "" {
      assert sign + rest == rest;
    } else {
      assert (sign + rest)[1..] == rest;
    }
  }

  // A reader sees the first 1024 characters, and a number out of the range of a long long as the
  // nearest one in it.
  lemma ReadsTheFront(text: string)
    ensures var v := Number(if |text| <= 1024 then text else text[..1024]);
      ReadBack(text) ==
        if v > 0x7FFF_FFFF_FFFF_FFFF then 0x7FFF_FFFF_FFFF_FFFF
        else if v < -0x8000_0000_0000_0000 then -0x8000_0000_0000_0000 else v
  {
  }

  class FileBackedNumber {
    var text: string

    constructor (initial: string)
      ensures text == initial
    {
      text := initial;
    }

    /** The number the file holds; of any other text, what a reader makes of it. */
    method Get() returns (n: nat)
      ensures forall m: nat :: Holds(text, m) && m <= LONG_MAX ==> n == m
      ensures n == ReadBack(text) % TWO_TO_64
    {
      var s := Take(text, READ_LIMIT);
      n := Atoll(s) % TWO_TO_64;
      forall m: nat | Holds(text, m) && m <= LONG_MAX ensures n == m {
        HeldReadsBack(text, m);
      }
    }

    /** Adds i and returns the old number. When the file holds n exactly, it afterwards holds
        n + i exactly. */
    method Increment(i: nat) returns (n: nat)
      modifies this
      ensures n == ReadBack(old(text)) % TWO_TO_64
      ensures text == Incremented(old(text), i)
      ensures forall m: nat :: Holds(old(text), m) && m <= LONG_MAX && m + i < TWO_TO_64 ==>
        n == m && Holds(text, m + i)
    {
      var s := Take(text, READ_LIMIT);
      var number := Atoll(s);
      var res := (number + i) % TWO_TO_64;
      IncrementKeepsHeld(text, i);
      text := Overwrite(text, Decimal(res));
      n := number % TWO_TO_64;
    }

    method Set(n: nat)
      requires n < TWO_TO_64
      modifies this
      ensures text == Overwrite(old(text), Decimal(n))
      ensures 0 < n < LONG_MAX ==> (ReadBack(text) == n <==> CutsClean(old(text), Decimal(n)))
    {
      if 0 < n < LONG_MAX {
        OverwriteReadsBack(text, n);
      }
      text := Overwrite(text, Decimal(n));
    }
  }
}
