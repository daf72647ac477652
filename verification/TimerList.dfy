/** The list of pending timers kept by a timer queue: ordered by end time, first in
    first out among timers that end together, and drained from the front. */
module TimerList {

  /** A timer as the queue sees it: an identity and the end time it had when it was queued. */
  datatype Timer = Timer(id: nat, end: int)

  ghost predicate Sorted(q: seq<Timer>) {
    forall i, j :: 0 <= i < j < |q| ==> q[i].end <= q[j].end
  }

  /** The timers of q that end at time e, in list order. */
  function EndingAt(q: seq<Timer>, e: int): seq<Timer> {
    if q == [] then [] else (if q[0].end == e then [q[0]] else []) + EndingAt(q[1..], e)
  }

  function Insert(q: seq<Timer>, t: Timer): seq<Timer> {
    if q == [] || t.end < q[0].end then [t] + q else [q[0]] + Insert(q[1..], t)
  }

  function Remove(q: seq<Timer>, t: Timer): seq<Timer> {
    if q == [] then [] else (if q[0] == t then [] else [q[0]]) + Remove(q[1..], t)
  }

  /** What is left of q once the timers at its front that ended before now are gone. */
  function Unexpired(q: seq<Timer>, now: int): seq<Timer> {
    if q != [] && q[0].end < now then Unexpired(q[1..], now) else q
  }

  /** Whether inserting t changes the earliest end time, so that the sleeper must be told. */
  predicate IsNewAlarm(q: seq<Timer>, t: Timer) {
    q == [] || t.end < q[0].end
  }

  // The timer goes behind every timer that ends no later and before every other one.
  lemma {:induction false} InsertPlace(q: seq<Timer>, t: Timer) returns (k: nat)
    requires Sorted(q)
    ensures k <= |q| && Insert(q, t) == q[..k] + [t] + q[k..]
    ensures forall i :: 0 <= i < k ==> q[i].end <= t.end
    ensures forall i :: k <= i < |q| ==> t.end < q[i].end
  {
    if q == [] || t.end < q[0].end {
      k := 0;
      assert q[..0] + [t] + q[0..] == [t] + q;
    } else {
      var k' := InsertPlace(q[1..], t);
      k := k' + 1;
      assert q[..k] + [t] + q[k..] == [q[0]] + (q[1..][..k'] + [t] + q[1..][k'..]);
    }
  }

  lemma InsertKeepsSorted(q: seq<Timer>, t: Timer)
    requires Sorted(q)
    ensures Sorted(Insert(q, t))
    ensures Insert(q, t)[0] == (if IsNewAlarm(q, t) then t else q[0])
  {
    var k := InsertPlace(q, t);
  }

  lemma OneMore(a: seq<Timer>, t: Timer, b: seq<Timer>)
    ensures multiset(a + [t] + b) == multiset(a + b) + multiset{t}
  {
  }

  lemma InsertLosesNothing(q: seq<Timer>, t: Timer)
    requires Sorted(q)
    ensures multiset(Insert(q, t)) == multiset(q) + multiset{t}
  {
    var k := InsertPlace(q, t);
    OneMore(q[..k], t, q[k..]);
    assert q == q[..k] + q[k..];
  }

  // First in, first out: a new timer comes last among those that end when it does, and the
  // order of all the others is untouched.
  lemma {:induction false} InsertIsFifo(q: seq<Timer>, t: Timer, e: int)
    requires Sorted(q)
    ensures EndingAt(Insert(q, t), e) == EndingAt(q, e) + (if t.end == e then [t] else [])
  {
    if q == [] {
      FirstEndingAt(t, [], e);
    } else if t.end < q[0].end {
      FirstEndingAt(t, q, e);
      if t.end == e {
        NoneEndingAt(q, e);
      }
    } else {
      FirstEndingAt(q[0], Insert(q[1..], t), e);
      InsertIsFifo(q[1..], t, e);
    }
  }

  lemma FirstEndingAt(x: Timer, rest: seq<Timer>, e: int)
    ensures EndingAt([x] + rest, e) == (if x.end == e then [x] else []) + EndingAt(rest, e)
  {
    assert ([x] + rest)[1..] == rest;
  }

  lemma {:induction false} NoneEndingAt(q: seq<Timer>, e: int)
    requires forall i :: 0 <= i < |q| ==> e != q[i].end
    ensures EndingAt(q, e) == []
  {
    if q == [] {
    } else {
      NoneEndingAt(q[1..], e);
    }
  }

  lemma {:induction false} RemoveMembers(q: seq<Timer>, t: Timer)
    ensures forall x :: x in Remove(q, t) <==> x in q && x != t
  {
    if q == [] {
    } else {
      RemoveMembers(q[1..], t);
    }
  }

  lemma {:induction false} RemoveKeepsSorted(q: seq<Timer>, t: Timer)
    requires Sorted(q)
    ensures Sorted(Remove(q, t))
  {
    if q == [] {
    } else {
      RemoveKeepsSorted(q[1..], t);
      RemoveMembers(q[1..], t);
      var r := Remove(q[1..], t);
      forall i | 0 <= i < |r| ensures q[0].end <= r[i].end {
        assert r[i] in q[1..];
      }
    }
  }

  // Removing a timer does not disturb the order of the timers that stay.
  lemma {:induction false} RemoveIsStable(q: seq<Timer>, t: Timer, e: int)
    ensures EndingAt(Remove(q, t), e) == Remove(EndingAt(q, e), t)
  {
    if q == [] {
    } else {
      RemoveIsStable(q[1..], t, e);
      var r, tail := Remove(q[1..], t), EndingAt(q[1..], e);
      assert ([q[0]] + r)[1..] == r && [] + r == r;
      assert ([q[0]] + tail)[1..] == tail && [] + tail == tail;
    }
  }

  // One step of the inserting scan at position i.
  lemma InsertAt(s: seq<Timer>, i: nat, t: Timer)
    requires i < |s|
    ensures t.end < s[i].end ==> s[..i] + Insert(s[i..], t) == s[..i] + [t] + s[i..]
    ensures s[i].end <= t.end ==> s[..i] + Insert(s[i..], t) == s[..i + 1] + Insert(s[i + 1..], t)
  {
    assert s[i..][1..] == s[i + 1..];
  }

  // One step of the removing scan at position i.
  lemma RemoveAt(s: seq<Timer>, i: nat, t: Timer)
    requires i < |s|
    ensures s[i] == t ==> s[..i] + Remove(s[i..], t) == s[..i] + Remove(s[i + 1..], t)
    ensures s[i] != t ==> s[..i] + Remove(s[i..], t) == s[..i + 1] + Remove(s[i + 1..], t)
  {
    assert s[i..][1..] == s[i + 1..];
  }

  lemma {:induction false} UnexpiredKeepsSorted(q: seq<Timer>, now: int)
    requires Sorted(q)
    ensures Sorted(Unexpired(q, now))
  {
    if q != [] && q[0].end < now {
      UnexpiredKeepsSorted(q[1..], now);
    }
  }

  /** The queue object: its timer list and the two flags its own mutex guards. */
  class TimerQueue {
    var timers: seq<Timer>
    var wakeUp: bool
    var shouldExit: bool

    constructor ()
      ensures timers == [] && !wakeUp && !shouldExit
    {
      timers, wakeUp, shouldExit := [], false, false;
    }

    method Wake()
      modifies this`wakeUp
      ensures wakeUp
    {
      wakeUp := true;
    }

    method AddTimer(t: Timer)
      requires Sorted(timers)
      modifies this`timers, this`wakeUp
      ensures Sorted(timers) && timers == Insert(old(timers), t)
      ensures wakeUp == (old(wakeUp) || IsNewAlarm(old(timers), t))
    {
      InsertKeepsSorted(timers, t);
      if timers == [] {
        timers := [t];
        Wake();
        return;
      }
      if t.end < timers[0].end {
        timers := [t] + timers;
        Wake();
        return;
      }
      var q, i := timers, 0;
      while i < |q|
        invariant 0 <= i <= |q|
        invariant Insert(q, t) == q[..i] + Insert(q[i..], t)
        invariant timers == q && wakeUp == old(wakeUp)
      {
        InsertAt(q, i, t);
        if t.end < q[i].end {
          timers := q[..i] + [t] + q[i..];
          return;
        }
        i := i + 1;
      }
      assert q[i..] == [];
      timers := q + [t];
      assert q[..i] == q && timers == Insert(q, t);
    }

    method RemoveTimer(t: Timer)
      requires Sorted(timers)
      modifies this`timers, this`wakeUp
      ensures Sorted(timers) && timers == Remove(old(timers), t) && wakeUp
    {
      RemoveKeepsSorted(timers, t);
      ghost var wanted := Remove(timers, t);
      var i := 0;
      while i < |timers|
        invariant 0 <= i <= |timers|
        invariant wanted == timers[..i] + Remove(timers[i..], t)
        decreases |timers| - i
      {
        RemoveAt(timers, i, t);
        if timers[i] == t {
          var next := timers[..i] + timers[i + 1..];
          assert next[..i] == timers[..i] && next[i..] == timers[i + 1..];
          timers := next;
        } else {
          i := i + 1;
        }
      }
      assert timers[..i] == timers && timers[i..] == [] && timers == wanted;
      Wake();
    }

    /** Takes the timers that ended before now off the list, in list order. Nothing is lost or
        duplicated, and every timer is on the side of the cut that its end time puts it on. */
    method ProcessTimeOuts(now: int) returns (expired: seq<Timer>)
      requires Sorted(timers)
      modifies this`timers
      ensures Sorted(timers) && old(timers) == expired + timers
      ensures forall i :: 0 <= i < |expired| ==> expired[i].end < now
      ensures forall i :: 0 <= i < |timers| ==> now <= timers[i].end
      ensures timers == Unexpired(old(timers), now)
    {
      expired := [];
      ghost var q := timers;
      while timers != []
        invariant |expired| <= |q| && expired == q[..|expired|] && timers == q[|expired|..]
        invariant forall i :: 0 <= i < |expired| ==> expired[i].end < now
        invariant Unexpired(timers, now) == Unexpired(q, now)
        decreases |timers|
      {
        if now > timers[0].end {
          expired := expired + [timers[0]];
          timers := timers[1..];
        } else {
          break;
        }
      }
      assert timers != [] ==> forall i :: 0 <= i < |timers| ==> timers[0].end <= timers[i].end;
    }

    /** The end time to sleep until, or none when there is nothing to wait for. */
    method NextDeadline(maxTime: int) returns (deadline: int)
      ensures timers == [] ==> deadline == maxTime
      ensures timers != [] && Sorted(timers) ==>
        (exists t :: t in timers && t.end == deadline) && forall t :: t in timers ==> deadline <= t.end
    {
      if timers == [] {
        deadline := maxTime;
      } else {
        deadline := timers[0].end;
      }
    }
  }
}
