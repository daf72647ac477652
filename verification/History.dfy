/** What the events of a run say about now: whether something has happened that nothing has undone
    since. Which events start and end what is asked about is for each system to say. */
module History {

  /** Something that starts x has happened, and nothing that ends it since. */
  ghost predicate Since<X, E>(es: seq<E>, x: X, starts: (X, E) -> bool, ends: (X, E) -> bool) {
    exists k :: 0 <= k < |es| && starts(x, es[k]) && forall j :: k < j < |es| ==> !ends(x, es[j])
  }

  lemma SinceStays<X, E>(front: seq<E>, e: E, x: X, starts: (X, E) -> bool, ends: (X, E) -> bool)
    requires starts(x, e) || (Since(front, x, starts, ends) && !ends(x, e))
    ensures Since(front + [e], x, starts, ends)
  {
    var es := front + [e];
    assert es[|front|] == e;
    if !starts(x, e) {
      var k :| 0 <= k < |front| && starts(x, front[k]) && forall j :: k < j < |front| ==> !ends(x, front[j]);
      assert starts(x, es[k]);
    }
  }

  lemma SinceWas<X, E>(front: seq<E>, e: E, x: X, starts: (X, E) -> bool, ends: (X, E) -> bool)
    requires Since(front + [e], x, starts, ends)
    ensures starts(x, e) || (Since(front, x, starts, ends) && !ends(x, e))
  {
    var es := front + [e];
    assert es[|front|] == e && forall j :: 0 <= j < |front| ==> front[j] == es[j];
    if !starts(x, e) {
      var k :| 0 <= k < |es| && starts(x, es[k]) && forall j :: k < j < |es| ==> !ends(x, es[j]);
      assert starts(x, front[k]);
    }
  }

  lemma SinceGrows<X, E>(front: seq<E>, e: E, x: X, starts: (X, E) -> bool, ends: (X, E) -> bool)
    ensures Since(front + [e], x, starts, ends) <==> starts(x, e) || (Since(front, x, starts, ends) && !ends(x, e))
  {
    if Since(front + [e], x, starts, ends) {
      SinceWas(front, e, x, starts, ends);
    } else if starts(x, e) || (Since(front, x, starts, ends) && !ends(x, e)) {
      SinceStays(front, e, x, starts, ends);
    }
  }
}
