/** Sequences without duplicates, and counting them. */
module Distinct {

  ghost predicate NoDuplicates<K>(s: seq<K>) {
    s == [] || (s[0] !in s[1..] && NoDuplicates(s[1..]))
  }

  lemma {:induction false} DistinctFront<K>(a: seq<K>, k: K)
    requires NoDuplicates(a + [k])
    ensures NoDuplicates(a) && k !in a
  {
    if a == [] {
    } else {
      assert (a + [k])[1..] == a[1..] + [k];
      DistinctFront(a[1..], k);
      assert a[0] !in a[1..] by {
        assert forall x :: x in a[1..] ==> x in a[1..] + [k];
      }
      assert k in a[1..] + [k];
    }
  }

  lemma {:induction false} AppendDistinct<K>(a: seq<K>, k: K)
    requires NoDuplicates(a) && k !in a
    ensures NoDuplicates(a + [k])
  {
    if a == [] {
    } else {
      assert (a + [k])[1..] == a[1..] + [k];
      AppendDistinct(a[1..], k);
      assert a[0] !in a[1..] + [k];
    }
  }

  lemma {:induction false} DistinctCount<K>(s: seq<K>, keys: set<K>)
    requires NoDuplicates(s) && forall x :: x in s <==> x in keys
    ensures |s| == |keys|
  {
    if s == [] {
      assert keys == {};
    } else {
      assert s[0] in s;
      assert forall x :: x in s[1..] <==> x in s && x != s[0];
      DistinctCount(s[1..], keys - {s[0]});
    }
  }

  lemma {:induction false} DistinctFit<K>(s: seq<K>, keys: set<K>)
    requires NoDuplicates(s) && forall k :: k in s ==> k in keys
    ensures |s| <= |keys|
  {
    if s == [] {
    } else {
      assert s[0] in s;
      assert forall k :: k in s[1..] ==> k in s && k != s[0];
      DistinctFit(s[1..], keys - {s[0]});
    }
  }

  lemma {:induction false} Fewer<K>(a: set<K>, b: set<K>)
    requires a <= b
    ensures |a| <= |b|
  {
    if a == {} {
    } else {
      var x :| x in a;
      Fewer(a - {x}, b - {x});
    }
  }

  // Replacing an element by a new one keeps a sequence free of duplicates.
  lemma {:induction false} ReplaceDistinct<K>(s: seq<K>, i: nat, k: K)
    requires NoDuplicates(s) && i < |s| && k !in s
    ensures NoDuplicates(s[i := k])
  {
    var t := s[i := k];
    if i == 0 {
      assert t[1..] == s[1..];
    } else {
      assert t[1..] == s[1..][i - 1 := k];
      ReplaceDistinct(s[1..], i - 1, k);
      assert forall x :: x in t[1..] ==> x in s[1..] || x == k;
    }
  }

  function ToSet<K>(s: seq<K>): set<K> {
    set x | x in s
  }

  lemma ToSetCons<K>(k: K, s: seq<K>)
    requires k !in s
    ensures ToSet([k] + s) == {k} + ToSet(s)
    ensures NoDuplicates(s) ==> NoDuplicates([k] + s)
  {
    assert ([k] + s)[1..] == s;
    assert forall x :: x in [k] + s <==> x == k || x in s;
  }

  lemma ToSetAppend<K>(s: seq<K>, k: K)
    ensures ToSet(s + [k]) == ToSet(s) + {k}
  {
    assert forall x :: x in s + [k] <==> x in s || x == k;
  }

  lemma ToSetReplace<K>(s: seq<K>, i: nat, k: K)
    requires i < |s|
    ensures ToSet(s[i := k]) <= ToSet(s) + {k}
  {
    assert s[i := k] == s[..i] + [k] + s[i + 1..];
  }

  lemma DistinctSet<K>(s: seq<K>)
    requires NoDuplicates(s)
    ensures |ToSet(s)| == |s|
  {
    DistinctCount(s, ToSet(s));
  }
}
