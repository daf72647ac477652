/** A counter that leaks at a steady rate and swallows what does not fit under its limit. */
module LeakyBucket {
  import opened Common

  /** The fixed settings: n units leak every d seconds. */
  datatype Settings = Settings(initial: int, limit: int, n: nat, d: nat)
  {
    ghost predicate Sane() {
      initial <= limit && d > 0
    }
  }

  datatype Level = Level(value: int, lastCheck: int)

  /** What leaks in dt seconds when it is worked out at once. */
  function Leakage(c: Settings, dt: nat): nat
    requires c.d > 0
  {
    (dt * c.n) / c.d
  }

  function Leaked(c: Settings, l: Level, t: int): Level
    requires c.d > 0
  {
    if t > l.lastCheck then Level(Max(l.value - Leakage(c, t - l.lastCheck), c.initial), t) else l
  }

  datatype Addition = Addition(time: int, amount: nat)

  function Added(c: Settings, l: Level, a: Addition): Level
    requires c.d > 0
  {
    var m := Leaked(c, l, a.time);
    m.(value := Min(m.value + a.amount, c.limit))
  }

  /** How much of an addition is not swallowed by the limit. */
  function Accepted(c: Settings, l: Level, a: Addition): int
    requires c.d > 0
  {
    Added(c, l, a).value - Leaked(c, l, a.time).value
  }

  /** The bucket itself. */
  class LeakyBucket {
    const c: Settings
    var value: int
    var lastCheck: int
    var overflow: bool

    ghost predicate Valid()
      reads this
    {
      c.Sane() && c.initial <= value <= c.limit
    }

    function Now(): Level
      reads this
    {
      Level(value, lastCheck)
    }

    constructor (c: Settings, now: int)
      requires c.Sane()
      ensures Valid() && this.c == c && Now() == Level(c.initial, now) && !overflow
    {
      this.c, value, lastCheck, overflow := c, c.initial, now, false;
    }

    method Leak(t: int)
      requires Valid()
      modifies `value, `lastCheck
      ensures Valid() && Now() == Leaked(c, old(Now()), t)
      ensures t > old(lastCheck) ==>
        value == Max(old(value) - ((t - old(lastCheck)) * c.n) / c.d, c.initial) && lastCheck == t
      ensures t <= old(lastCheck) ==> value == old(value) && lastCheck == old(lastCheck)
    {
      if t - lastCheck > 0 {
        value := value - Leakage(c, t - lastCheck);
        if value < c.initial {
          value := c.initial;
        }
        lastCheck := t;
      }
    }

    method Add(a: nat, t: int)
      requires Valid()
      modifies this
      ensures Valid() && Now() == Added(c, old(Now()), Addition(t, a))
      ensures t > old(lastCheck) ==>
        value == Min(Max(old(value) - ((t - old(lastCheck)) * c.n) / c.d, c.initial) + a, c.limit)
      ensures t <= old(lastCheck) ==> value == Min(old(value) + a, c.limit)
      ensures overflow <==> old(overflow) || Accepted(c, old(Now()), Addition(t, a)) < a
    {
      Leak(t);
      value := value + a;
      if value > c.limit {
        value := c.limit;
        overflow := true;
      }
    }

    method Increment(t: int)
      requires Valid()
      modifies this
      ensures Valid() && Now() == Added(c, old(Now()), Addition(t, 1))
      ensures t > old(lastCheck) ==>
        value == Min(Max(old(value) - ((t - old(lastCheck)) * c.n) / c.d, c.initial) + 1, c.limit)
      ensures t <= old(lastCheck) ==> value == Min(old(value) + 1, c.limit)
      ensures overflow <==> old(overflow) || Accepted(c, old(Now()), Addition(t, 1)) < 1
    {
      Leak(t);
      value := value + 1;
      if value > c.limit {
        value := c.limit;
        overflow := true;
      }
    }

    /** Asks whether anything was swallowed since the last time, and forgets it. */
    method Overflow() returns (o: bool)
      modifies `overflow
      ensures o == old(overflow) && !overflow
    {
      o := overflow;
      overflow := false;
    }
  }

  // ---- Runs ----

  function Run(c: Settings, l: Level, adds: seq<Addition>): Level
    requires c.d > 0
  {
    if adds == [] then l else Added(c, Run(c, l, adds[..|adds| - 1]), adds[|adds| - 1])
  }

  function TotalAccepted(c: Settings, l: Level, adds: seq<Addition>): int
    requires c.d > 0
  {
    if adds == [] then 0
    else
      var front := adds[..|adds| - 1];
      TotalAccepted(c, l, front) + Accepted(c, Run(c, l, front), adds[|adds| - 1])
  }

  /** The clock never goes back. */
  ghost predicate Monotone(start: int, adds: seq<Addition>) {
    adds == [] ||
    (var n := |adds| - 1;
     Monotone(start, adds[..n]) && (if n == 0 then start else adds[n - 1].time) <= adds[n].time)
  }

  // Rounding down twice leaks no more than rounding down once.
  lemma {:induction false} LeakageAdds(c: Settings, s: nat, t: nat)
    requires c.d > 0
    ensures Leakage(c, s) + Leakage(c, t) <= Leakage(c, s + t)
  {
    var x, y := s * c.n, t * c.n;
    assert (s + t) * c.n == x + y;
    DivisionAdds(x, y, c.d);
  }

  lemma {:induction false} AddQuotients(x: nat, y: nat, d: nat, p: nat, q: nat)
    requires d > 0 && d * p <= x && d * q <= y
    ensures p + q <= (x + y) / d
  {
    assert d * (p + q) == d * p + d * q;
    Quotient(x + y, d, p + q);
  }

  lemma {:induction false} DivisionAdds(x: nat, y: nat, d: nat)
    requires d > 0
    ensures x / d + y / d <= (x + y) / d
  {
    Floor(x, d);
    Floor(y, d);
    AddQuotients(x, y, d, x / d, y / d);
  }

  lemma {:induction false} Quotient(x: nat, d: nat, q: nat)
    requires d > 0 && d * q <= x
    ensures q <= x / d
  {
    var k := x / d;
    Remainder(x, d);
    if q > k {
      Times(d, k + 1, q);
    }
  }

  lemma Remainder(x: nat, d: nat)
    requires d > 0
    ensures x < d * (x / d + 1)
  {
    assert d * (x / d + 1) == d * (x / d) + d;
  }

  lemma Times(d: nat, a: nat, b: nat)
    requires a <= b
    ensures d * a <= d * b
  {
    assert d * b == d * a + d * (b - a);
  }

  lemma Floor(x: nat, d: nat)
    requires d > 0
    ensures d * (x / d) <= x
  {
  }

  lemma {:induction false} LevelsStayInRange(c: Settings, l: Level, adds: seq<Addition>)
    requires c.Sane() && c.initial <= l.value <= c.limit
    ensures c.initial <= Run(c, l, adds).value <= c.limit
  {
    if adds == [] {
    } else {
      LevelsStayInRange(c, l, adds[..|adds| - 1]);
    }
  }

  lemma {:induction false} LastTime(c: Settings, l: Level, adds: seq<Addition>)
    requires c.d > 0 && Monotone(l.lastCheck, adds)
    ensures Run(c, l, adds).lastCheck == if adds == [] then l.lastCheck else adds[|adds| - 1].time
    ensures Run(c, l, adds).lastCheck >= l.lastCheck
  {
    if adds == [] {
    } else {
      LastTime(c, l, adds[..|adds| - 1]);
    }
  }

  // The level rises by what is accepted and falls by at most what leaks in the time passed.
  lemma {:induction false} AcceptedIsBalanced(c: Settings, l: Level, adds: seq<Addition>)
    requires c.Sane() && c.initial <= l.value <= c.limit && Monotone(l.lastCheck, adds)
    ensures Run(c, l, adds).lastCheck >= l.lastCheck
    ensures TotalAccepted(c, l, adds) <=
      Run(c, l, adds).value - l.value + Leakage(c, Run(c, l, adds).lastCheck - l.lastCheck)
  {
    LastTime(c, l, adds);
    if adds == [] {
    } else {
      var n := |adds| - 1;
      var m := Run(c, l, adds[..n]);
      AcceptedIsBalanced(c, l, adds[..n]);
      LevelsStayInRange(c, l, adds[..n]);
      LastTime(c, l, adds[..n]);
      LeakageAdds(c, m.lastCheck - l.lastCheck, adds[n].time - m.lastCheck);
    }
  }

  // The rate bound: in any stretch of time the bucket accepts no more than its depth and what
  // leaks in that time, however often it is used and each use rounds down.
  lemma {:induction false} RateIsBounded(c: Settings, l: Level, adds: seq<Addition>, time: nat)
    requires c.Sane() && c.initial <= l.value <= c.limit && Monotone(l.lastCheck, adds)
    requires adds != [] ==> adds[|adds| - 1].time <= l.lastCheck + time
    ensures TotalAccepted(c, l, adds) <= c.limit - c.initial + (time * c.n) / c.d
  {
    AcceptedIsBalanced(c, l, adds);
    LevelsStayInRange(c, l, adds);
    LastTime(c, l, adds);
    var used := Run(c, l, adds).lastCheck - l.lastCheck;
    LeakageAdds(c, used, time - used);
  }

  // The bound is reached: a burst up to the limit, a wait, and as much again as has leaked.
  lemma BurstsReachTheBound(c: Settings, start: int, time: nat)
    requires c.Sane() && (time * c.n) / c.d <= c.limit - c.initial
    ensures var adds := [Addition(start, c.limit - c.initial), Addition(start + time, (time * c.n) / c.d)];
            Monotone(start, adds)
            && TotalAccepted(c, Level(c.initial, start), adds) == c.limit - c.initial + (time * c.n) / c.d
  {
    var l := Level(c.initial, start);
    var a, b := Addition(start, c.limit - c.initial), Addition(start + time, Leakage(c, time));
    assert [a, b][..1] == [a] && [a][..0] == [];
    assert Run(c, l, [a]) == Level(c.limit, start);
    assert TotalAccepted(c, l, [a]) == c.limit - c.initial;
    assert time == 0 ==> Leakage(c, 0) == 0;
  }

  /** The sum of the amounts. */
  function Total(adds: seq<Addition>): nat {
    if adds == [] then 0 else Total(adds[..|adds| - 1]) + adds[|adds| - 1].amount
  }

  lemma SoonUsedAgain(c: Settings, m: Level, a: Addition)
    requires c.Sane() && c.initial <= m.value && (a.time - m.lastCheck) * c.n < c.d
    ensures Added(c, m, a).value == Min(m.value + a.amount, c.limit)
  {
    if a.time > m.lastCheck {
      LessThanOne((a.time - m.lastCheck) * c.n, c.d);
    }
  }

  // Rounding only ever takes from the leak: a bucket always used again before a whole unit has
  // leaked never leaks at all, however much is added and however much time passes.
  lemma {:induction false} FrequentUseNeverLeaks(c: Settings, l: Level, adds: seq<Addition>)
    requires c.Sane() && c.initial <= l.value <= c.limit && Monotone(l.lastCheck, adds)
    requires forall i :: 0 <= i < |adds| ==>
      (adds[i].time - (if i == 0 then l.lastCheck else adds[i - 1].time)) * c.n < c.d
    ensures Run(c, l, adds).value == Min(l.value + Total(adds), c.limit)
  {
    if adds == [] {
    } else {
      var n := |adds| - 1;
      var m := Run(c, l, adds[..n]);
      FrequentUseNeverLeaks(c, l, adds[..n]);
      LastTime(c, l, adds[..n]);
      LevelsStayInRange(c, l, adds[..n]);
      SoonUsedAgain(c, m, adds[n]);
    }
  }

  // A bucket of depth zero, which is what one constructed without a limit is, accepts nothing:
  // after any run the next addition is swallowed whole and flags an overflow.
  lemma {:induction false} DepthZeroAlwaysOverflows(c: Settings, l: Level, adds: seq<Addition>, a: Addition)
    requires c.d > 0 && c.initial == c.limit == l.value
    ensures Run(c, l, adds).value == c.limit && Accepted(c, Run(c, l, adds), a) == 0
  {
    if adds == [] {
    } else {
      DepthZeroAlwaysOverflows(c, l, adds[..|adds| - 1], adds[|adds| - 1]);
    }
  }

  lemma LessThanOne(x: nat, d: nat)
    requires x < d
    ensures x / d == 0
  {
  }
}
